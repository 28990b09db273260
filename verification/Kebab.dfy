/** The two programs that must name the same socket for a service: `kebabCase` of the mock
    enforcer, one loop over the name, and `kebab_case` of the test script, a pipeline of echo,
    sed and tr inside a command substitution. Names are ASCII strings. */
module Kebab {
  import opened Substitution

  predicate IsSeparator(c: char) {
    c == ' ' || c == '_'
  }

  // ----- C++ -----

  predicate EndsInHyphen(r: string) {
    r != "" && r[|r| - 1] == '-'
  }

  /** One iteration of the loop. */
  function CppStep(r: string, c: char): string {
    var r1 := if (IsUpper(c) || IsSeparator(c)) && r != "" && !EndsInHyphen(r) then r + "-" else r;
    if IsSeparator(c) then r1 else r1 + [ToLower(c)]
  }

  function CppFrom(r: string, s: string, i: nat): string
    requires i <= |s|
    decreases |s| - i
  {
    if i == |s| then r else CppFrom(CppStep(r, s[i]), s, i + 1)
  }

  method KebabCase(s: string) returns (result: string)
    ensures result == CppFrom("", s, 0)
  {
    result := "";
    for i := 0 to |s|
      invariant CppFrom(result, s, i) == CppFrom("", s, 0)
    {
      var c := s[i];
      if (IsUpper(c) || c == ' ' || c == '_') && result != "" && result[|result| - 1] != '-' {
        result := result + "-";
      }
      if c != ' ' && c != '_' {
        result := result + [ToLower(c)];
      }
    }
  }

  // ----- The shell -----

  function Tr(from: char, to: char, s: string): (r: string)
    ensures |r| == |s| && forall i | 0 <= i < |s| :: r[i] == if s[i] == from then to else s[i]
  {
    seq(|s|, i requires 0 <= i < |s| => if s[i] == from then to else s[i])
  }

  /** sed, then the three tr commands. */
  function Pipeline(s: string): string {
    Tr('_', '-', Tr(' ', '-', Lower(Substitute(LOWER_UPPER, '-', s, 0, 0))))
  }

  /** An argument that echo takes for an option and does not print. */
  predicate EchoOption(s: string) {
    |s| >= 2 && s[0] == '-' && forall k | 1 <= k < |s| :: s[k] == 'n' || s[k] == 'e' || s[k] == 'E'
  }

  /** A hyphen and then one or more of the letters that echo knows as options. */
  lemma EchoOptionIff(s: string)
    ensures EchoOption(s) <==>
              exists flags: string :: flags != "" && s == "-" + flags && forall c | c in flags :: c in "neE"
  {
    if EchoOption(s) {
      var flags := s[1..];
      assert s == "-" + flags && forall c | c in flags :: c in "neE";
    } else if flags: string :| flags != "" && s == "-" + flags && forall c | c in flags :: c in "neE" {
      assert forall k | 1 <= k < |s| :: s[k] == flags[k - 1] && flags[k - 1] in flags;
    }
  }

  /** What a command substitution makes of the output. */
  function StripNewlines(s: string): string {
    if s != "" && s[|s| - 1] == '\n' then StripNewlines(s[..|s| - 1]) else s
  }

  function ShellKebab(s: string): string {
    if EchoOption(s) then "" else StripNewlines(Pipeline(s))
  }

  // ----- The pipeline as a scan -----

  function Translated(c: char): char {
    if IsSeparator(c) then '-' else ToLower(c)
  }

  predicate Humps(s: string, i: int) {
    0 < i < |s| && IsLowerOrDigit(s[i - 1]) && IsUpper(s[i])
  }

  function ShellStep(r: string, s: string, i: nat): string
    requires i < |s|
  {
    if Humps(s, i) then r + ['-', Translated(s[i])] else r + [Translated(s[i])]
  }

  function ShellFrom(r: string, s: string, i: nat): string
    requires i <= |s|
    decreases |s| - i
  {
    if i == |s| then r else ShellFrom(ShellStep(r, s, i), s, i + 1)
  }

  function Translate(s: string): string {
    Tr('_', '-', Tr(' ', '-', Lower(s)))
  }

  lemma TranslateAt(s: string)
    ensures |Translate(s)| == |s| && forall i | 0 <= i < |s| :: Translate(s)[i] == Translated(s[i])
  {
  }

  lemma TranslateConcat(a: string, b: string)
    ensures Translate(a + b) == Translate(a) + Translate(b)
  {
    TranslateAt(a);
    TranslateAt(b);
    TranslateAt(a + b);
  }

  lemma MatchIsHump(s: string, i: nat)
    ensures MatchesAt(LOWER_UPPER, s, i) <==> Humps(s, i + 1)
  {
    MatchesTwo(LowerOrDigit, Upper, s, i);
  }

  lemma {:induction false} ScanIsLocal(r: string, s: string, i: nat)
    requires i <= |s|
    ensures ShellFrom(r, s, i) == r + ((if Humps(s, i) then "-" else "") + Translate(Local(LOWER_UPPER, '-', s, i)))
    decreases |s| - i
  {
    var here := if Humps(s, i) then "-" else "";
    if i == |s| {
      assert Translate("") == "";
    } else {
      var next := if Humps(s, i + 1) then "-" else "";
      var c := Translated(s[i]);
      var rest := Translate(Local(LOWER_UPPER, '-', s, i + 1));
      MatchIsHump(s, i);
      ScanIsLocal(ShellStep(r, s, i), s, i + 1);
      var piece := if Humps(s, i + 1) then [s[i], '-'] else [s[i]];
      TranslateConcat(piece, Local(LOWER_UPPER, '-', s, i + 1));
      TranslateAt(piece);
      assert Translate(piece) == [c] + next;
      assert ShellStep(r, s, i) == r + (here + [c]);
      Glue(r, here, [c], next, rest);
    }
  }

  lemma Glue(r: string, here: string, c: string, next: string, rest: string)
    ensures (r + (here + c)) + (next + rest) == r + (here + ((c + next) + rest))
  {
  }

  lemma PipelineIsScan(s: string)
    ensures Pipeline(s) == ShellFrom("", s, 0)
  {
    PairNeverOverlaps();
    SubstituteIsLocal(LOWER_UPPER, '-', s, 0, 0);
    ScanIsLocal("", s, 0);
  }

  // ----- When the two agree -----

  /** Nothing at this position is treated differently: a separator neither leads nor follows a
      separator or hyphen, and a later uppercase letter follows a lowercase letter, a digit, a
      separator or a hyphen. */
  predicate Fine(s: string, i: nat)
    requires i < |s|
  {
    && (IsSeparator(s[i]) ==> i > 0 && !IsSeparator(s[i - 1]) && s[i - 1] != '-')
    && (IsUpper(s[i]) && i > 0 ==> IsLowerOrDigit(s[i - 1]) || IsSeparator(s[i - 1]) || s[i - 1] == '-')
  }

  predicate AllFine(s: string) {
    forall i | 0 <= i < |s| :: Fine(s, i)
  }

  /** The common result after i characters, all fine. */
  predicate Level(r: string, s: string, i: nat) {
    i <= |s| && (r == "" <==> i == 0) && (i > 0 ==> (EndsInHyphen(r) <==> IsSeparator(s[i - 1]) || s[i - 1] == '-'))
  }

  lemma FineStep(r: string, s: string, i: nat)
    requires i < |s| && Level(r, s, i) && Fine(s, i)
    ensures CppStep(r, s[i]) == ShellStep(r, s, i) && Level(CppStep(r, s[i]), s, i + 1)
  {
  }

  /** The shell's result is ahead by hyphens only, and C++ will not write one now. */
  predicate Behind(c: string, h: string) {
    && |c| < |h| && h[..|c|] == c && (forall k | |c| <= k < |h| :: h[k] == '-')
    && (c == "" || EndsInHyphen(c))
  }

  predicate DifferAt(c: string, h: string, p: nat) {
    p < |c| && p < |h| && c[p] != h[p]
  }

  lemma BadStep(r: string, s: string, i: nat)
    requires i < |s| && Level(r, s, i) && !Fine(s, i)
    ensures Behind(CppStep(r, s[i]), ShellStep(r, s, i)) || DifferAt(CppStep(r, s[i]), ShellStep(r, s, i), |r|)
  {
  }

  lemma {:induction false} CppExtends(r: string, s: string, i: nat)
    requires i <= |s|
    ensures |r| <= |CppFrom(r, s, i)| && CppFrom(r, s, i)[..|r|] == r
    decreases |s| - i
  {
    if i == |s| {
    } else {
      var r1 := CppStep(r, s[i]);
      CppExtends(r1, s, i + 1);
      assert r1[..|r|] == r;
      assert CppFrom(r, s, i)[..|r|] == CppFrom(r, s, i)[..|r1|][..|r|];
    }
  }

  lemma {:induction false} ShellExtends(r: string, s: string, i: nat)
    requires i <= |s|
    ensures |r| <= |ShellFrom(r, s, i)| && ShellFrom(r, s, i)[..|r|] == r
    decreases |s| - i
  {
    if i == |s| {
    } else {
      var r1 := ShellStep(r, s, i);
      ShellExtends(r1, s, i + 1);
      assert r1[..|r|] == r;
      assert ShellFrom(r, s, i)[..|r|] == ShellFrom(r, s, i)[..|r1|][..|r|];
    }
  }

  lemma DifferenceStays(c: string, h: string, p: nat, s: string, i: nat)
    requires i <= |s| && DifferAt(c, h, p)
    ensures CppFrom(c, s, i) != ShellFrom(h, s, i)
  {
    CppExtends(c, s, i);
    ShellExtends(h, s, i);
    assert CppFrom(c, s, i)[..|c|][p] == c[p] && ShellFrom(h, s, i)[..|h|][p] == h[p];
  }

  lemma BehindStep(c: string, h: string, s: string, i: nat)
    requires i < |s| && Behind(c, h)
    ensures Behind(CppStep(c, s[i]), ShellStep(h, s, i)) || DifferAt(CppStep(c, s[i]), ShellStep(h, s, i), |c|)
  {
    var h1 := ShellStep(h, s, i);
    assert h1[..|h|] == h;
    if s[i] == '-' {
      assert h1 == h + "-";
      assert h1[..|c| + 1] == c + "-";
    } else if IsSeparator(s[i]) {
      assert h1 == h + "-";
    } else {
      assert CppStep(c, s[i])[|c|] == ToLower(s[i]) != '-';
      assert h1[|c|] == h[|c|] == '-';
    }
  }

  lemma {:induction false} BehindNeverCatchesUp(c: string, h: string, s: string, i: nat)
    requires i <= |s| && Behind(c, h)
    ensures CppFrom(c, s, i) != ShellFrom(h, s, i)
    decreases |s| - i
  {
    if i == |s| {
    } else {
      BehindStep(c, h, s, i);
      if Behind(CppStep(c, s[i]), ShellStep(h, s, i)) {
        BehindNeverCatchesUp(CppStep(c, s[i]), ShellStep(h, s, i), s, i + 1);
      } else {
        DifferenceStays(CppStep(c, s[i]), ShellStep(h, s, i), |c|, s, i + 1);
      }
    }
  }

  lemma {:induction false} AgreeFrom(r: string, s: string, i: nat)
    requires i <= |s| && Level(r, s, i)
    ensures CppFrom(r, s, i) == ShellFrom(r, s, i) <==> forall k | i <= k < |s| :: Fine(s, k)
    decreases |s| - i
  {
    if i == |s| {
    } else {
      if Fine(s, i) {
        FineStep(r, s, i);
        AgreeFrom(CppStep(r, s[i]), s, i + 1);
      } else {
        BadStep(r, s, i);
        if Behind(CppStep(r, s[i]), ShellStep(r, s, i)) {
          BehindNeverCatchesUp(CppStep(r, s[i]), ShellStep(r, s, i), s, i + 1);
        } else {
          DifferenceStays(CppStep(r, s[i]), ShellStep(r, s, i), |r|, s, i + 1);
        }
      }
    }
  }

  /** For every name, the loop and the sed/tr pipeline agree if and only if all is fine. */
  lemma PipelineAgreesIff(s: string)
    ensures CppFrom("", s, 0) == Pipeline(s) <==> AllFine(s)
  {
    PipelineIsScan(s);
    AgreeFrom("", s, 0);
  }

  lemma {:induction false} StripNewlinesEnd(s: string)
    ensures StripNewlines(s) == "" || StripNewlines(s)[|StripNewlines(s)| - 1] != '\n'
  {
    if s == "" || s[|s| - 1] != '\n' {
    } else {
      StripNewlinesEnd(s[..|s| - 1]);
    }
  }

  lemma {:induction false} CppLast(r: string, s: string, i: nat)
    requires i < |s| && !IsSeparator(s[|s| - 1])
    ensures var out := CppFrom(r, s, i); out != "" && out[|out| - 1] == ToLower(s[|s| - 1])
    decreases |s| - i
  {
    if i + 1 == |s| {
    } else {
      CppLast(CppStep(r, s[i]), s, i + 1);
    }
  }

  lemma {:induction false} ShellLast(r: string, s: string, i: nat)
    requires i < |s|
    ensures var out := ShellFrom(r, s, i); out != "" && out[|out| - 1] == Translated(s[|s| - 1])
    decreases |s| - i
  {
    if i + 1 == |s| {
    } else {
      ShellLast(ShellStep(r, s, i), s, i + 1);
    }
  }

  predicate EndsInNewline(s: string) {
    s != "" && s[|s| - 1] == '\n'
  }

  /** Unless echo or the command substitution interferes, the script uses the pipeline's
      output; and if one does, the loop's result is different from the script's. */
  lemma ShellAroundPipeline(s: string)
    ensures if EchoOption(s) || EndsInNewline(s) then CppFrom("", s, 0) != ShellKebab(s)
            else ShellKebab(s) == Pipeline(s)
  {
    PipelineIsScan(s);
    if s == "" {
      assert Pipeline(s) == "";
    } else {
      ShellLast("", s, 0);
      if EchoOption(s) || EndsInNewline(s) {
        CppLast("", s, 0);
        StripNewlinesEnd(Pipeline(s));
      }
    }
  }

  /** The two programs give the same name if and only if all is fine, the name is no echo
      option, and it does not end in a newline. */
  lemma KebabsAgreeIff(s: string)
    ensures CppFrom("", s, 0) == ShellKebab(s) <==> AllFine(s) && !EchoOption(s) && !EndsInNewline(s)
  {
    ShellAroundPipeline(s);
    PipelineAgreesIff(s);
  }

  /** The address in the enforcer's routing table. */
  function Address(name: string): string {
    "unix:///tmp/" + name + "-server-uds"
  }

  /** The socket that the script passes to the isolate. */
  function Socket(name: string): string {
    "/tmp/" + name + "-server-uds"
  }

  /** The socket that gRPC connects to for an address of this scheme. */
  function SocketOf(address: string): string {
    if |address| >= 7 && address[..7] == "unix://" then address[7..] else ""
  }

  /** So the enforcer connects to the socket the isolate listens on exactly then. */
  lemma SameSocketIff(s: string)
    ensures SocketOf(Address(CppFrom("", s, 0))) == Socket(ShellKebab(s)) <==>
              AllFine(s) && !EchoOption(s) && !EndsInNewline(s)
  {
    KebabsAgreeIff(s);
    SocketInjective(CppFrom("", s, 0), ShellKebab(s));
  }

  lemma SocketInjective(a: string, b: string)
    ensures SocketOf(Address(a)) == Socket(b) <==> a == b
  {
    var x, y := SocketOf(Address(a)), Socket(b);
    assert Address(a)[..7] == "unix://" && x == "/tmp/" + a + "-server-uds";
    assert x[5..|x| - 11] == a && y[5..|y| - 11] == b;
  }
}
