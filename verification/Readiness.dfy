/** The isolate state that gates new work, kept by the C++ bridge and by the Rust dispatcher.
    An update may carry any integer, since the enum is open on the wire. */
module Readiness {

  const UNSPECIFIED := 0
  const STARTING := 1
  const WARMED := 3
  const UPDATING := 5
  const READY := 7
  const SERVING := 9
  const IDLE := 11
  const RETIRING := 12

  predicate Known(v: int) {
    v in {UNSPECIFIED, STARTING, WARMED, UPDATING, READY, SERVING, IDLE, RETIRING}
  }

  /** Both bridges admit new work in exactly one state. */
  predicate Admits(state: int) {
    state == READY
  }

  /** EzIsolateBridgeImpl::UpdateIsolateState: stored and replied. */
  function CppUpdate(v: int): int {
    if v == STARTING then READY else v
  }

  /** RpcDispatcher::update_isolate_state: a number that is no state counts as unspecified. */
  function RustUpdate(v: int): int {
    var s := if Known(v) then v else UNSPECIFIED;
    if s == STARTING then READY else s
  }

  /** What changes the C++ bridge's state: an update of the enforcer's, or the server setting
      itself ready, which it does once it already listens. */
  datatype Change = Update(v: int) | SetReady

  function CppStored(c: Change): int {
    match c
    case Update(v) => CppUpdate(v)
    case SetReady => READY
  }

  /** The updates among the changes: all that the Rust dispatcher sees. */
  function Updates(history: seq<Change>): seq<int> {
    if history == [] then [] else
    var c := history[|history| - 1];
    Updates(history[..|history| - 1]) + (if c.Update? then [c.v] else [])
  }

  /** The state after a sequence of changes, each storing a value. */
  function After<C>(store: C -> int, initial: int, cs: seq<C>): int
    decreases |cs|
  {
    if cs == [] then initial else After(store, store(cs[0]), cs[1..])
  }

  function CppState(history: seq<Change>): int {
    After(CppStored, UNSPECIFIED, history)
  }

  function RustState(updates: seq<int>): int {
    After(RustUpdate, READY, updates)
  }

  lemma {:induction false} LastChangeWins<C>(store: C -> int, initial: int, cs: seq<C>)
    requires cs != []
    ensures After(store, initial, cs) == store(cs[|cs| - 1])
    decreases |cs|
  {
    if |cs| == 1 {
      assert cs[1..] == [];
    } else {
      LastChangeWins(store, store(cs[0]), cs[1..]);
    }
  }

  /** The server's own SetReady came after every update. */
  predicate SetLast(history: seq<Change>) {
    history != [] && history[|history| - 1].SetReady?
  }

  /** The last update, if any, asked for a state in which work is admitted. */
  predicate AskedReady(vs: seq<int>) {
    vs == [] || vs[|vs| - 1] == STARTING || vs[|vs| - 1] == READY
  }

  /** Over every history, each bridge starting from its own initial state: if the C++ server's
      own SetReady came last, the two agree on admitting work, and on the state, exactly when
      the updates left Rust ready too. Otherwise they agree on admitting work exactly when
      there was an update, and on the state exactly when the last one named a known state.
      Neither ever stores STARTING. Rust's state is its last reply; that of C++ is, exactly
      when SetReady did not overwrite it with something else. */
  lemma GatesAgreeIff(history: seq<Change>)
    ensures var vs := Updates(history);
            var cpp, rust := CppState(history), RustState(vs);
            && (Admits(cpp) == Admits(rust) <==> if SetLast(history) then AskedReady(vs) else vs != [])
            && (cpp == rust <==> if SetLast(history) then AskedReady(vs) else vs != [] && Known(vs[|vs| - 1]))
            && cpp != STARTING && rust != STARTING
            && (vs != [] ==> rust == RustUpdate(vs[|vs| - 1]))
            && (vs != [] ==> (cpp == CppUpdate(vs[|vs| - 1]) <==> !SetLast(history) || AskedReady(vs)))
  {
    var vs := Updates(history);
    if history != [] { LastChangeWins(CppStored, UNSPECIFIED, history); }
    if vs != [] { LastChangeWins(RustUpdate, READY, vs); }
  }

  /** An update to RETIRING, handled while the server is still starting, is overwritten: C++
      admits work and has replied that it would not, Rust does not admit it. */
  lemma OverwrittenUpdate()
    ensures var history := [Update(RETIRING), SetReady];
            && Admits(CppState(history)) && !Admits(CppUpdate(RETIRING))
            && RustState(Updates(history)) == RETIRING
  {
    var history := [Update(RETIRING), SetReady];
    LastChangeWins(CppStored, UNSPECIFIED, history);
    var one := [Update(RETIRING)];
    assert history[..1] == one && one[..0] == [];
    assert Updates(one) == [RETIRING];
    LastChangeWins(RustUpdate, READY, [RETIRING]);
  }
}
