/** Which connect request a result completes, and whether it is the one the result belongs to. */
module PoolConnects {
  import opened Bytes
  import opened PoolModel
  import opened PoolInvariant
  import opened PoolSteps
  import opened PoolRuns

  /** Event `id` is a live Connect on descriptor `i`. */
  predicate Awaiting(s: State, i: nat, id: nat) {
    id in s.pending && s.pending[id].kind == Connect && !s.pending[id].done && s.pending[id].iod == Some(i)
  }

  /** A connect result with no live Connect to complete changes nothing. */
  lemma StaleResultIgnored(s: State, i: nat, ok: bool, attempt: nat, order: seq<nat>)
    requires forall id: nat :: !Awaiting(s, i, id)
    ensures DrainOne(s, ConnectResult(i, ok, attempt), order) == s
  {
    assert forall id: nat | id in s.pending && AwaitsConnect(s.pending[id], i) :: Awaiting(s, i, id);
  }

  /** With a live Connect one is completed, whichever the iteration meets first, and only that one. */
  lemma ResultCompletesOne(s: State, i: nat, ok: bool, attempt: nat, order: seq<nat>) returns (id: nat)
    requires Inv(s) && Covers(order, s.pending.Keys)
    requires exists other: nat :: Awaiting(s, i, other)
    ensures Awaiting(s, i, id) && FirstConnect(s.pending, order, i) == Some(id)
    ensures var s' := DrainOne(s, ConnectResult(i, ok, attempt), order);
            && s'.pending == s.pending - {id}
            && s'.hist.log == s.hist.log + [Fire(id, if ok then Success else Error, s.hist.clock)]
            && s'.hist.traces == s.hist.traces
            && (ok && i in s.iods ==> s'.iods == s.iods[i := s.iods[i].(tcp := true, kind := Tcp, connected := true)])
            && (!(ok && i in s.iods) ==> s'.iods == s.iods)
  {
    hide IdsOk, EventsOk, IodsOk, ConnectionsOk, StrictBut;
    var first := FirstConnect(s.pending, order, i);
    var other: nat :| Awaiting(s, i, other);
    assert first.Some?;
    id := first.value;
    LiveEntry(s, id);
    hide Agrees, FirstConnect;
    assert AwaitsConnect(s.pending[id], i);
  }

  // ----- The oldest request -----

  /** A way to iterate a hash map with these keys. */
  ghost predicate IsIteration(order: seq<nat>, keys: set<nat>) {
    NoDuplicates(order) && forall id: nat :: id in order <==> id in keys
  }

  /** Any key may come first. */
  lemma IterationFrom(keys: set<nat>, first: nat) returns (order: seq<nat>)
    requires first in keys
    ensures IsIteration(order, keys)
    ensures order != [] && order[0] == first
    decreases |keys|
  {
    var others := keys - {first};
    if others == {} {
      order := [first];
    } else {
      var next :| next in others;
      var rest := IterationFrom(others, next);
      order := [first] + rest;
      assert forall k | 0 <= k < |rest| :: rest[k] in others;
    }
  }

  /** Whatever the iteration order, a result for descriptor `i` completes event `id`. */
  ghost predicate CompletesAlways(s: State, i: nat, ok: bool, attempt: nat, id: nat) {
    forall order | IsIteration(order, s.pending.Keys) ::
      DrainOne(s, ConnectResult(i, ok, attempt), order).pending == s.pending - {id}
  }

  lemma FirstIsCompleted(s: State, i: nat, ok: bool, attempt: nat, order: seq<nat>)
    requires FirstConnect(s.pending, order, i).Some?
    ensures DrainOne(s, ConnectResult(i, ok, attempt), order).pending ==
            s.pending - {FirstConnect(s.pending, order, i).value}
  {
    hide FirstConnect, AwaitsConnect;
  }

  /** A live Connect is the one completed under every iteration order if and only if it is the only one. */
  lemma CompletedExactly(s: State, i: nat, ok: bool, attempt: nat, id: nat)
    requires Awaiting(s, i, id)
    ensures CompletesAlways(s, i, ok, attempt, id) <==> forall other: nat | Awaiting(s, i, other) :: other == id
  {
    hide DrainOne;
    if CompletesAlways(s, i, ok, attempt, id) {
      forall other: nat | Awaiting(s, i, other)
        ensures other == id
      {
        var order := IterationFrom(s.pending.Keys, other);
        FirstIsCompleted(s, i, ok, attempt, order);
        assert other !in s.pending - {id};
      }
    }
    if forall other: nat | Awaiting(s, i, other) :: other == id {
      forall order | IsIteration(order, s.pending.Keys)
        ensures DrainOne(s, ConnectResult(i, ok, attempt), order).pending == s.pending - {id}
      {
        var first := FirstConnect(s.pending, order, i);
        assert id in order && first.Some?;
        assert Awaiting(s, i, first.value);
        FirstIsCompleted(s, i, ok, attempt, order);
      }
    }
  }

  /** Whatever the iteration order, the result of `attempt` on descriptor `i` is told to no event but `attempt`. */
  ghost predicate HeardByOwnOnly(s: State, i: nat, ok: bool, attempt: nat) {
    forall order, k |
      && IsIteration(order, s.pending.Keys)
      && |s.hist.log| <= k < |DrainOne(s, ConnectResult(i, ok, attempt), order).hist.log| ::
      DrainOne(s, ConnectResult(i, ok, attempt), order).hist.log[k].id == attempt
  }

  /** That is so, live or not as the owner may be, if and only if no other Connect is live on the descriptor. */
  lemma HeardByOwnExactly(s: State, i: nat, ok: bool, attempt: nat)
    requires Inv(s)
    ensures HeardByOwnOnly(s, i, ok, attempt) <==> forall other: nat | Awaiting(s, i, other) :: other == attempt
  {
    hide Inv, DrainOne;
    if HeardByOwnOnly(s, i, ok, attempt) {
      forall other: nat | Awaiting(s, i, other)
        ensures other == attempt
      {
        var order := IterationFrom(s.pending.Keys, other);
        var id := ResultCompletesOne(s, i, ok, attempt, order);
        assert DrainOne(s, ConnectResult(i, ok, attempt), order).hist.log[|s.hist.log|].id == id;
      }
    }
    if forall other: nat | Awaiting(s, i, other) :: other == attempt {
      forall order | IsIteration(order, s.pending.Keys)
        ensures var log := DrainOne(s, ConnectResult(i, ok, attempt), order).hist.log;
                forall k | |s.hist.log| <= k < |log| :: log[k].id == attempt
      {
        if other: nat :| Awaiting(s, i, other) {
          var id := ResultCompletesOne(s, i, ok, attempt, order);
        } else {
          StaleResultIgnored(s, i, ok, attempt, order);
        }
      }
    }
  }

  predicate IsOldest(s: State, i: nat, id: nat) {
    Awaiting(s, i, id) && forall other | other in s.pending && Awaiting(s, i, other) :: id <= other
  }

  lemma OldestExists(s: State, i: nat, one: nat) returns (oldest: nat)
    requires Awaiting(s, i, one)
    ensures IsOldest(s, i, oldest)
    decreases one
  {
    if other :| other in s.pending && Awaiting(s, i, other) && other < one {
      oldest := OldestExists(s, i, other);
    } else {
      oldest := one;
    }
  }

  /**
   * `drain_commands` means to complete the oldest Connect of the descriptor. With at least one live
   * it does so under every iteration order if and only if no second one is live.
   */
  lemma OldestCompletedExactly(s: State, i: nat, ok: bool, attempt: nat)
    requires exists id: nat :: Awaiting(s, i, id)
    ensures (exists oldest: nat :: IsOldest(s, i, oldest) && CompletesAlways(s, i, ok, attempt, oldest))
            <==> forall a: nat, b: nat | Awaiting(s, i, a) && Awaiting(s, i, b) :: a == b
  {
    var one: nat :| Awaiting(s, i, one);
    var oldest := OldestExists(s, i, one);
    CompletedExactly(s, i, ok, attempt, oldest);
    hide CompletesAlways, DrainOne, AwaitsConnect;
    if other: nat :| IsOldest(s, i, other) && CompletesAlways(s, i, ok, attempt, other) {
      assert other == oldest;
      forall a: nat, b: nat | Awaiting(s, i, a) && Awaiting(s, i, b)
        ensures a == b
      {
        assert a == oldest && b == oldest;
      }
    }
    if forall a: nat, b: nat | Awaiting(s, i, a) && Awaiting(s, i, b) :: a == b {
      assert CompletesAlways(s, i, ok, attempt, oldest);
    }
  }

  lemma ExecSnoc(ops: seq<Op>, op: Op)
    ensures Exec(ops + [op]) == Step(Exec(ops), op)
    ensures Possible(ops + [op]) <==> Possible(ops) && Enabled(Exec(ops), op)
  {
    assert (ops + [op])[..|ops|] == ops;
  }

  /** Two connects requested on one descriptor. */
  function TwoConnects(): seq<Op> { [OpCreateTcp] + [OpConnectTcp(1, -1, 0)] + [OpConnectTcp(1, -1, 0)] }

  /** A history in which the younger one is told it succeeded while the older goes on waiting. */
  lemma YoungerConnectWins()
    ensures Possible(TwoConnects())
    ensures var s := Exec(TwoConnects());
            var s' := DrainOne(s, ConnectResult(1, true, 1), [2, 1]);
            && IsIteration([2, 1], s.pending.Keys)
            && s'.hist.log == [Fire(2, Success, 0)] && Live(s', 1) && !Live(s', 2)
  {
    var ops1, ops2 := [OpCreateTcp], [OpCreateTcp] + [OpConnectTcp(1, -1, 0)];
    assert [] + [OpCreateTcp] == ops1;
    ExecSnoc([], OpCreateTcp);
    ExecSnoc(ops1, OpConnectTcp(1, -1, 0));
    ExecSnoc(ops2, OpConnectTcp(1, -1, 0));
    hide Exec, Possible;
    var s := Exec(TwoConnects());
    assert s.pending.Keys == {1, 2};
    assert FirstConnect(s.pending, [2, 1], 1) == Some(2);
  }
}
