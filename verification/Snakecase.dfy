/** The `snakecase` filter of the code generator: two substitution passes and lower-casing,
    against one rule that looks at three neighbouring characters. */
module Snakecase {
  import opened Substitution

  function Snakecase(s: string): string {
    var s1 := Substitute(LOWER_UPPER, '_', s, 0, 0);
    var s2 := Substitute(UPPER_UPPER, '_', s1, 0, 0);
    Lower(s2)
  }

  /** A word begins at this uppercase letter: the previous character is lowercase or a digit,
      or it is uppercase while the next one is lowercase or a digit. */
  predicate Begins(s: string, i: int) {
    && 0 < i < |s| && IsUpper(s[i])
    && (IsLowerOrDigit(s[i - 1]) || (IsUpper(s[i - 1]) && i + 1 < |s| && IsLowerOrDigit(s[i + 1])))
  }

  /** The rule: lower-case everything and put an underscore before each such letter. */
  function Ruled(s: string, i: nat): string
    requires i <= |s|
    decreases |s| - i
  {
    if i == |s| then ""
    else (if Begins(s, i) then ['_', ToLower(s[i])] else [ToLower(s[i])]) + Ruled(s, i + 1)
  }

  /** The same, with each underscore counted to the character before it. */
  function RuledAfter(s: string, i: nat): string
    requires i <= |s|
    decreases |s| - i
  {
    if i == |s| then ""
    else (if Begins(s, i + 1) then [ToLower(s[i]), '_'] else [ToLower(s[i])]) + RuledAfter(s, i + 1)
  }

  lemma {:induction false} RuledShifts(s: string, i: nat)
    requires i <= |s|
    ensures Ruled(s, i) == (if Begins(s, i) then "_" else "") + RuledAfter(s, i)
    decreases |s| - i
  {
    if i == |s| {
    } else {
      RuledShifts(s, i + 1);
      Shift(Begins(s, i), Begins(s, i + 1), ToLower(s[i]), RuledAfter(s, i + 1));
    }
  }

  lemma Shift(before: bool, after: bool, c: char, rest: string)
    ensures (if before then ['_', c] else [c]) + ((if after then "_" else "") + rest) ==
            (if before then "_" else "") + ((if after then [c, '_'] else [c]) + rest)
  {
  }

  /** What a match means, spelled out. */
  lemma Matches(s: string, i: nat)
    ensures MatchesAt(LOWER_UPPER, s, i) <==> i + 1 < |s| && IsLowerOrDigit(s[i]) && IsUpper(s[i + 1])
    ensures MatchesAt(UPPER_UPPER, s, i) <==>
              i + 2 < |s| && IsUpper(s[i]) && IsUpper(s[i + 1]) && IsLowerOrDigit(s[i + 2])
  {
    MatchesTwo(LowerOrDigit, Upper, s, i);
    MatchesThree(Upper, Upper, LowerOrDigit, s, i);
  }

  /** The next characters of the first pass. After an uppercase letter it inserts nothing. */
  lemma FirstPassHeads(s: string, i: nat)
    requires i < |s|
    ensures var rest := Local(LOWER_UPPER, '_', s, i);
            && rest != "" && rest[0] == s[i]
            && (IsUpper(s[i]) ==> (|rest| > 1 <==> i + 1 < |s|))
            && (IsUpper(s[i]) && i + 1 < |s| ==> rest[1] == s[i + 1])
            && (IsUpper(s[i]) && i + 1 < |s| && IsUpper(s[i + 1]) ==>
                  (|rest| > 2 <==> i + 2 < |s|) && (i + 2 < |s| ==> rest[2] == s[i + 2]))
  {
    Matches(s, i);
    var rest := Local(LOWER_UPPER, '_', s, i);
    if IsUpper(s[i]) {
      var rest1 := Local(LOWER_UPPER, '_', s, i + 1);
      assert rest == [s[i]] + rest1;
      if i + 1 < |s| {
        Matches(s, i + 1);
        assert rest1[0] == s[i + 1];
        if IsUpper(s[i + 1]) {
          var rest2 := Local(LOWER_UPPER, '_', s, i + 2);
          assert rest1 == [s[i + 1]] + rest2;
          assert i + 2 < |s| ==> rest2[0] == s[i + 2];
        }
      }
    }
  }

  /** Where the second pattern does not match, nothing is inserted. */
  lemma LocalPlain(t: string, a: nat)
    requires a < |t| && !MatchesAt(UPPER_UPPER, t, a)
    ensures Local(UPPER_UPPER, '_', t, a) == [t[a]] + Local(UPPER_UPPER, '_', t, a + 1)
  {
  }

  /** Where the first pass has inserted an underscore, the second one inserts nothing. */
  lemma PassOverBreak(done: string, s: string, i: nat)
    requires MatchesAt(LOWER_UPPER, s, i)
    ensures var s1 := done + Local(LOWER_UPPER, '_', s, i);
            && s1 == (done + [s[i], '_']) + Local(LOWER_UPPER, '_', s, i + 1)
            && Local(UPPER_UPPER, '_', s1, |done|) == [s[i], '_'] + Local(UPPER_UPPER, '_', s1, |done| + 2)
  {
    var s1 := done + Local(LOWER_UPPER, '_', s, i);
    var a := |done|;
    Matches(s, i);
    Matches(s1, a);
    Matches(s1, a + 1);
    assert s1 == (done + [s[i], '_']) + Local(LOWER_UPPER, '_', s, i + 1);
    assert s1[a] == s[i] && s1[a + 1] == '_';
    LocalPlain(s1, a);
    LocalPlain(s1, a + 1);
  }

  /** Elsewhere it inserts an underscore exactly where a word begins. */
  lemma PassOverPlain(done: string, s: string, i: nat)
    requires i < |s| && !MatchesAt(LOWER_UPPER, s, i)
    ensures var s1 := done + Local(LOWER_UPPER, '_', s, i);
            && s1 == (done + [s[i]]) + Local(LOWER_UPPER, '_', s, i + 1)
            && Local(UPPER_UPPER, '_', s1, |done|) ==
               (if Begins(s, i + 1) then [s[i], '_'] else [s[i]]) + Local(UPPER_UPPER, '_', s1, |done| + 1)
  {
    var rest := Local(LOWER_UPPER, '_', s, i);
    var s1 := done + rest;
    var a := |done|;
    FirstPassHeads(s, i);
    Matches(s, i);
    Matches(s1, a);
    assert s1 == (done + [s[i]]) + Local(LOWER_UPPER, '_', s, i + 1);
    assert s1[a] == s[i];
    assert |rest| > 1 ==> s1[a + 1] == rest[1];
    assert |rest| > 2 ==> s1[a + 2] == rest[2];
    assert MatchesAt(UPPER_UPPER, s1, a) <==> Begins(s, i + 1);
  }

  /** What the rule makes of one character, before lower-casing. */
  function Piece(s: string, i: nat): string
    requires i < |s|
  {
    if Begins(s, i + 1) then [s[i], '_'] else [s[i]]
  }

  /** What the first pass makes of it. */
  function FirstPiece(s: string, i: nat): string
    requires i < |s|
  {
    if MatchesAt(LOWER_UPPER, s, i) then [s[i], '_'] else [s[i]]
  }

  lemma PassOver(done: string, s: string, i: nat)
    requires i < |s|
    ensures var s1 := done + Local(LOWER_UPPER, '_', s, i);
            var next := done + FirstPiece(s, i);
            && s1 == next + Local(LOWER_UPPER, '_', s, i + 1)
            && Local(UPPER_UPPER, '_', s1, |done|) == Piece(s, i) + Local(UPPER_UPPER, '_', s1, |next|)
  {
    if MatchesAt(LOWER_UPPER, s, i) {
      Matches(s, i);
      PassOverBreak(done, s, i);
    } else {
      PassOverPlain(done, s, i);
    }
  }

  /** The second pass, run on what the first one produced, follows the rule. */
  lemma {:induction false} SecondPass(done: string, s: string, i: nat)
    requires i <= |s|
    ensures var s1 := done + Local(LOWER_UPPER, '_', s, i);
            Lower(Local(UPPER_UPPER, '_', s1, |done|)) == RuledAfter(s, i)
    decreases |s| - i
  {
    if i == |s| {
    } else {
      var s1 := done + Local(LOWER_UPPER, '_', s, i);
      var next := done + FirstPiece(s, i);
      PassOver(done, s, i);
      SecondPass(next, s, i + 1);
      LowerConcat(Piece(s, i), Local(UPPER_UPPER, '_', s1, |next|));
      assert Lower(Piece(s, i)) == if Begins(s, i + 1) then [ToLower(s[i]), '_'] else [ToLower(s[i])];
    }
  }

  lemma LowerConcat(a: string, b: string)
    ensures Lower(a + b) == Lower(a) + Lower(b)
  {
  }

  /** For every string, the two leftmost non-overlapping passes are the one rule. */
  lemma SnakecaseIsRuled(s: string)
    ensures Snakecase(s) == Ruled(s, 0)
  {
    var s1 := Substitute(LOWER_UPPER, '_', s, 0, 0);
    PairNeverOverlaps();
    TripleNeverOverlaps();
    SubstituteIsLocal(LOWER_UPPER, '_', s, 0, 0);
    SubstituteIsLocal(UPPER_UPPER, '_', s1, 0, 0);
    assert "" + s1 == s1;
    SecondPass("", s, 0);
    RuledShifts(s, 0);
  }

  // ----- Consequences -----

  /** Which characters of the result the rule inserted. */
  function Inserted(s: string, i: nat): seq<bool>
    requires i <= |s|
    decreases |s| - i
  {
    if i == |s| then [] else (if Begins(s, i) then [true, false] else [false]) + Inserted(s, i + 1)
  }

  /** The characters that are not marked. */
  function Unmarked(t: string, marks: seq<bool>): string
    requires |marks| == |t|
  {
    if t == "" then "" else (if marks[0] then "" else [t[0]]) + Unmarked(t[1..], marks[1..])
  }

  lemma {:induction false} UnmarkedRuled(s: string, i: nat)
    requires i <= |s|
    ensures |Inserted(s, i)| == |Ruled(s, i)| && Unmarked(Ruled(s, i), Inserted(s, i)) == Lower(s)[i..]
    ensures forall k | 0 <= k < |Inserted(s, i)| && Inserted(s, i)[k] :: Ruled(s, i)[k] == '_'
    decreases |s| - i
  {
    if i == |s| {
    } else {
      UnmarkedRuled(s, i + 1);
      var t, marks := Ruled(s, i), Inserted(s, i);
      assert Lower(s)[i..] == [ToLower(s[i])] + Lower(s)[i + 1..];
      if Begins(s, i) {
        assert t[1..][1..] == Ruled(s, i + 1) && marks[1..][1..] == Inserted(s, i + 1);
      } else {
        assert t[1..] == Ruled(s, i + 1) && marks[1..] == Inserted(s, i + 1);
      }
    }
  }

  /** Deleting the inserted underscores gives back the lower-cased input. */
  lemma DeletingInserted(s: string)
    ensures |Inserted(s, 0)| == |Snakecase(s)| && Unmarked(Snakecase(s), Inserted(s, 0)) == Lower(s)
    ensures forall k | 0 <= k < |Snakecase(s)| && Inserted(s, 0)[k] :: Snakecase(s)[k] == '_'
  {
    SnakecaseIsRuled(s);
    UnmarkedRuled(s, 0);
    assert Lower(s)[0..] == Lower(s);
  }

  lemma {:induction false} NoUpperNoRule(t: string, i: nat)
    requires i <= |t| && forall k | 0 <= k < |t| :: !IsUpper(t[k])
    ensures Ruled(t, i) == t[i..]
    decreases |t| - i
  {
    if i == |t| {
    } else {
      NoUpperNoRule(t, i + 1);
    }
  }

  /** A second application changes nothing. */
  lemma SnakecaseIdempotent(s: string)
    ensures Snakecase(Snakecase(s)) == Snakecase(s)
  {
    var t := Snakecase(s);
    assert forall k | 0 <= k < |t| :: !IsUpper(t[k]);
    SnakecaseIsRuled(t);
    NoUpperNoRule(t, 0);
    assert t[0..] == t;
  }
}
