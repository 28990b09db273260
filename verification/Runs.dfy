/** Runs of a machine: `apply` is one step, and a run folds it over a schedule. */
module Runs {

  function Run<S, L>(apply: (S, L) -> S, s: S, schedule: seq<L>): S
    decreases |schedule|
  {
    if schedule == [] then s else Run(apply, apply(s, schedule[0]), schedule[1..])
  }

  lemma {:induction false} RunConcat<S, L>(apply: (S, L) -> S, s: S, a: seq<L>, b: seq<L>)
    ensures Run(apply, s, a + b) == Run(apply, Run(apply, s, a), b)
    decreases |a|
  {
    if a == [] {
      assert a + b == b;
    } else {
      assert (a + b)[0] == a[0] && (a + b)[1..] == a[1..] + b;
      RunConcat(apply, apply(s, a[0]), a[1..], b);
    }
  }

  lemma RunOne<S, L>(apply: (S, L) -> S, s: S, a: L)
    ensures Run(apply, s, [a]) == apply(s, a)
  {
    assert [a][1..] == [];
  }

  lemma RunTwo<S, L>(apply: (S, L) -> S, s: S, a: L, b: L)
    ensures Run(apply, s, [a, b]) == apply(apply(s, a), b)
  {
    assert [a, b] == [a] + [b];
    RunConcat(apply, s, [a], [b]);
    RunOne(apply, s, a);
    RunOne(apply, apply(s, a), b);
  }

  lemma RunThree<S, L>(apply: (S, L) -> S, s: S, a: L, b: L, c: L)
    ensures Run(apply, s, [a, b, c]) == apply(apply(apply(s, a), b), c)
  {
    assert [a, b, c] == [a, b] + [c];
    RunConcat(apply, s, [a, b], [c]);
    RunTwo(apply, s, a, b);
    RunOne(apply, apply(apply(s, a), b), c);
  }

  lemma RunFour<S, L>(apply: (S, L) -> S, s: S, a: L, b: L, c: L, d: L)
    ensures Run(apply, s, [a, b, c, d]) == apply(apply(apply(apply(s, a), b), c), d)
  {
    assert [a, b, c, d] == [a, b] + [c, d];
    RunConcat(apply, s, [a, b], [c, d]);
    RunTwo(apply, s, a, b);
    RunTwo(apply, apply(apply(s, a), b), c, d);
  }
}
