/** Regular-expression substitution of the one kind the tools use: a pattern is a sequence of
    character classes, and each match, found leftmost and without overlap, gets a separator
    put in after its first character. Characters are ASCII. */
module Substitution {

  datatype Class = Upper | LowerOrDigit

  predicate IsUpper(c: char) { 'A' <= c <= 'Z' }
  predicate IsLower(c: char) { 'a' <= c <= 'z' }
  predicate IsDigit(c: char) { '0' <= c <= '9' }
  predicate IsLowerOrDigit(c: char) { IsLower(c) || IsDigit(c) }

  function ToLower(c: char): char {
    if IsUpper(c) then c - 'A' + 'a' else c
  }

  const CAPITALS := "ABCDEFGHIJKLMNOPQRSTUVWXYZ"
  const SMALLS := "abcdefghijklmnopqrstuvwxyz"

  lemma Alphabet(k: nat)
    requires k < 26
    ensures CAPITALS[k] as int == 'A' as int + k && SMALLS[k] as int == 'a' as int + k
  {
  }

  /** The capitals of ASCII become the small letters in the same place, all else is kept. */
  lemma ToLowerTable(c: char)
    ensures forall k | 0 <= k < 26 && c == CAPITALS[k] :: ToLower(c) == SMALLS[k]
    ensures c !in CAPITALS ==> ToLower(c) == c
  {
    forall k | 0 <= k < 26 && c == CAPITALS[k] ensures ToLower(c) == SMALLS[k] { Alphabet(k); }
    if IsUpper(c) {
      var k := c as int - 'A' as int;
      Alphabet(k);
      assert c == CAPITALS[k];
    }
  }

  /** The character classes of the patterns are those letters, and the ten digits. */
  lemma ClassTable(c: char)
    ensures In(c, Upper) <==> c in CAPITALS
    ensures In(c, LowerOrDigit) <==> c in SMALLS || c in "0123456789"
  {
    forall k | 0 <= k < 26 ensures IsUpper(CAPITALS[k]) && IsLower(SMALLS[k]) { Alphabet(k); }
    if IsUpper(c) {
      Alphabet(c as int - 'A' as int);
      assert c == CAPITALS[c as int - 'A' as int];
    }
    if IsLower(c) {
      Alphabet(c as int - 'a' as int);
      assert c == SMALLS[c as int - 'a' as int];
    }
    if IsDigit(c) { assert c == "0123456789"[c as int - '0' as int]; }
  }

  function Lower(s: string): (r: string)
    ensures |r| == |s| && forall i | 0 <= i < |s| :: r[i] == ToLower(s[i])
  {
    seq(|s|, i requires 0 <= i < |s| => ToLower(s[i]))
  }

  predicate In(c: char, class_: Class) {
    match class_
    case Upper => IsUpper(c)
    case LowerOrDigit => IsLowerOrDigit(c)
  }

  /** A lowercase letter or digit before an uppercase letter: in both tools. */
  const LOWER_UPPER := [LowerOrDigit, Upper]

  /** Two uppercase letters before a lowercase letter or digit. */
  const UPPER_UPPER := [Upper, Upper, LowerOrDigit]

  predicate MatchesAt(pattern: seq<Class>, s: string, i: nat)
    decreases |pattern|
  {
    pattern == [] || (i < |s| && In(s[i], pattern[0]) && MatchesAt(pattern[1..], s, i + 1))
  }

  lemma MatchesTwo(a: Class, b: Class, s: string, i: nat)
    ensures MatchesAt([a, b], s, i) <==> i + 1 < |s| && In(s[i], a) && In(s[i + 1], b)
  {
    assert [a, b][1..] == [b] && [b][1..] == [];
    assert MatchesAt([b], s, i + 1) <==> i + 1 < |s| && In(s[i + 1], b);
  }

  lemma MatchesThree(a: Class, b: Class, c: Class, s: string, i: nat)
    ensures MatchesAt([a, b, c], s, i) <==> i + 2 < |s| && In(s[i], a) && In(s[i + 1], b) && In(s[i + 2], c)
  {
    assert [a, b, c][1..] == [b, c];
    MatchesTwo(b, c, s, i + 1);
  }

  /** The characters of a match that are still to be consumed, after position i. */
  function NextSkip(pattern: seq<Class>, s: string, i: nat, skip: nat): nat
    requires pattern != []
  {
    if skip > 0 then skip - 1 else if MatchesAt(pattern, s, i) then |pattern| - 1 else 0
  }

  /** The engine, from position i: a match found here puts the separator after its first
      character and consumes the rest of the match; `skip` characters of an earlier match are
      copied first. */
  function Substitute(pattern: seq<Class>, sep: char, s: string, i: nat, skip: nat): string
    requires pattern != [] && i <= |s|
    decreases |s| - i
  {
    if i == |s| then ""
    else (if skip == 0 && MatchesAt(pattern, s, i) then [s[i], sep] else [s[i]])
         + Substitute(pattern, sep, s, i + 1, NextSkip(pattern, s, i, skip))
  }

  /** The local rule: a separator stands after a character exactly when the pattern matches
      from that character on. */
  function Local(pattern: seq<Class>, sep: char, s: string, i: nat): string
    requires i <= |s|
    decreases |s| - i
  {
    if i == |s| then ""
    else (if MatchesAt(pattern, s, i) then [s[i], sep] else [s[i]]) + Local(pattern, sep, s, i + 1)
  }

  /** No match of the pattern begins inside another one. */
  ghost predicate NeverOverlaps(pattern: seq<Class>) {
    forall s: string, i: nat, j: nat | MatchesAt(pattern, s, i) && i < j < i + |pattern| :: !MatchesAt(pattern, s, j)
  }

  /** Leftmost non-overlapping substitution is the local rule, for every string, when matches
      of the pattern cannot overlap. */
  lemma {:induction false} SubstituteIsLocal(pattern: seq<Class>, sep: char, s: string, i: nat, skip: nat)
    requires pattern != [] && NeverOverlaps(pattern) && i <= |s|
    requires forall k | i <= k < i + skip :: !MatchesAt(pattern, s, k)
    ensures Substitute(pattern, sep, s, i, skip) == Local(pattern, sep, s, i)
    decreases |s| - i
  {
    if i == |s| {
    } else {
      var next := NextSkip(pattern, s, i, skip);
      forall k | i + 1 <= k < i + 1 + next ensures !MatchesAt(pattern, s, k) {}
      SubstituteIsLocal(pattern, sep, s, i + 1, next);
      assert skip > 0 ==> !MatchesAt(pattern, s, i);
    }
  }

  /** Neither pattern of the tools can overlap itself. */
  lemma PairNeverOverlaps()
    ensures NeverOverlaps(LOWER_UPPER)
  {
    var p := LOWER_UPPER;
    forall s: string, i: nat, j: nat | MatchesAt(p, s, i) && i < j < i + |p| ensures !MatchesAt(p, s, j) {
      MatchesTwo(LowerOrDigit, Upper, s, i);
      MatchesTwo(LowerOrDigit, Upper, s, j);
    }
  }

  lemma TripleNeverOverlaps()
    ensures NeverOverlaps(UPPER_UPPER)
  {
    var p := UPPER_UPPER;
    forall s: string, i: nat, j: nat | MatchesAt(p, s, i) && i < j < i + |p| ensures !MatchesAt(p, s, j) {
      MatchesThree(Upper, Upper, LowerOrDigit, s, i);
      MatchesThree(Upper, Upper, LowerOrDigit, s, j);
    }
  }
}
