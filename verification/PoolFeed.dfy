/** Every chunk a socket hands over reaches the read it was handed to. */
module PoolFeed {
  import opened Bytes
  import opened PoolModel
  import opened PoolInvariant
  import opened PoolSteps
  import opened PoolRuns
  import opened PoolHistory
  import opened PoolPolling
  import opened PoolAttribution
  import opened PoolWire
  import opened PoolOutcomes

  /** A chunk handed to read event `id`. */
  datatype Handover = Handover(id: nat, chunk: Chunk)

  function HandedTo(s: State, id: nat, p: Pass): seq<Handover> {
    var got := Handed(s, id, p);
    if got == [] then [] else [Handover(id, got[0])]
  }

  /** What the sockets hand over in the attempts of a pass, in order. */
  function IoFeed(s: State, ids: seq<nat>, p: Pass, todo: seq<Fire>): seq<Handover>
    decreases |ids|
  {
    if ids == [] then []
    else if Scheduled(todo, ids[0]) then IoFeed(s, ids[1..], p, todo)
    else
      var (s', st) := TryIo(s, ids[0], p);
      HandedTo(s, ids[0], p)
      + IoFeed(s', ids[1..], p, if st.Some? then todo + [Fire(ids[0], st.value, p.now)] else todo)
  }

  function PassFeed(s: State, p: Pass): seq<Handover> {
    var d := Drained(s, p);
    var ids := LiveIds(d.pending, p.order);
    IoFeed(d, ids, p, Due(d.pending, ids, p.now))
  }

  /** Everything the sockets handed over during a run. */
  ghost function Feed(ops: seq<Op>): seq<Handover> {
    if ops == [] then []
    else
      var before := ops[..|ops| - 1];
      match ops[|ops| - 1]
      case OpPass(_, _, p) => Feed(before) + PassFeed(Exec(before), p)
      case _ => Feed(before)
  }

  function ChunksFor(feed: seq<Handover>, id: nat): seq<Chunk> {
    if feed == [] then []
    else ChunksFor(feed[..|feed| - 1], id) + if feed[|feed| - 1].id == id then [feed[|feed| - 1].chunk] else []
  }

  lemma {:induction false} ChunksConcat(v: seq<Handover>, w: seq<Handover>, id: nat)
    ensures ChunksFor(v + w, id) == ChunksFor(v, id) + ChunksFor(w, id)
  {
    if w == [] {
      assert v + w == v;
    } else {
      var n := |w| - 1;
      ChunksConcat(v, w[..n], id);
      assert (v + w)[..|v + w| - 1] == v + w[..n];
    }
  }

  function ChunksOf(h: History, id: nat): seq<Chunk> { TraceOf(h, id).chunks }

  lemma TryWriteFeedsNone(s: State, id: nat, r: WriteResult)
    ensures ChunksOf(TryWrite(s, id, r).0.hist, id) == ChunksOf(s.hist, id)
  {
  }

  lemma OneHandover(s: State, id: nat, p: Pass, other: nat)
    ensures ChunksFor(HandedTo(s, id, p), other) == if other == id then Handed(s, id, p) else []
  {
    var feed := HandedTo(s, id, p);
    if feed != [] {
      assert feed[..0] == [];
    }
  }

  lemma TryIoFeeds(s: State, id: nat, p: Pass, other: nat)
    ensures ChunksOf(TryIo(s, id, p).0.hist, other) ==
            ChunksOf(s.hist, other) + ChunksFor(HandedTo(s, id, p), other)
  {
    OneHandover(s, id, p, other);
    hide HandedTo, ChunksFor;
    if other != id {
      hide TryIo;
      TryIoApart(s, id, p, other);
    } else if id in s.pending && s.pending[id].kind == Read {
      hide TryIo, Handed;
      ReadAttempt(s, id, p);
    } else if id in s.pending && s.pending[id].kind == Write {
      TryWriteFeedsNone(s, id, p.writable(id));
      hide TryWrite, ChunksOf;
    }
  }

  lemma {:induction false} IoPhaseFeeds(s: State, ids: seq<nat>, p: Pass, todo: seq<Fire>, id: nat)
    ensures ChunksOf(IoPhase(s, ids, p, todo).0.hist, id) ==
            ChunksOf(s.hist, id) + ChunksFor(IoFeed(s, ids, p, todo), id)
    decreases |ids|
  {
    hide TryIo, ChunksOf, HandedTo, Scheduled;
    if ids == [] {
    } else if Scheduled(todo, ids[0]) {
      IoPhaseFeeds(s, ids[1..], p, todo, id);
    } else {
      TryIoFeeds(s, ids[0], p, id);
      var (s', st) := TryIo(s, ids[0], p);
      var todo' := if st.Some? then todo + [Fire(ids[0], st.value, p.now)] else todo;
      IoPhaseFeeds(s', ids[1..], p, todo', id);
      ChunksConcat(HandedTo(s, ids[0], p), IoFeed(s', ids[1..], p, todo'), id);
    }
  }

  lemma PassFeeds(s: State, start: nat, max: Option<nat>, p: Pass, id: nat)
    ensures ChunksOf(RunStep(s, start, max, p).state.hist, id) == ChunksOf(s.hist, id) + ChunksFor(PassFeed(s, p), id)
  {
    DrainTraces(s.(rx := [], hist := s.hist.(clock := p.now)), s.rx + p.arrivals, p.orders, 0);
    var d := Drained(s, p);
    assert d.hist.traces == s.hist.traces;
    var ids := LiveIds(d.pending, p.order);
    var due := Due(d.pending, ids, p.now);
    PassIsPhases(s, p);
    hide PassBody, Drained, Due, LiveIds, IoPhase, IoFeed, DeliverAll, HasPending, Nearest, NapFor;
    IoPhaseFeeds(d, ids, p, due, id);
    DeliverTraces(IoPhase(d, ids, p, due).0, IoPhase(d, ids, p, due).1);
  }

  lemma StepFeedsNone(s: State, op: Op, id: nat)
    requires Inv(s) && Enabled(s, op) && !op.OpPass?
    ensures ChunksOf(Step(s, op).hist, id) == ChunksOf(s.hist, id)
  {
    if IsRequest(op) {
      assert s.eventCounter + 1 !in s.hist.traces;
      hide Inv;
      var e, data, now := RequestIs(s, op);
      hide Step;
    } else {
      StepIssuesNothing(s, op);
      hide Step, Inv;
    }
  }

  /** The chunks of a read are, in order, exactly what the sockets handed to it over the run. */
  lemma {:induction false} ReadsGetTheirFeed(ops: seq<Op>, id: nat)
    requires Possible(ops)
    ensures ChunksFor(Feed(ops), id) == ChunksOf(Exec(ops).hist, id)
  {
    hide Inv, Enabled, Step, ChunksOf, PassFeed, RunStep;
    if ops == [] {
      NothingHanded(id);
    } else {
      var n := |ops| - 1;
      var s := Exec(ops[..n]);
      ReadsGetTheirFeed(ops[..n], id);
      ExecOk(ops[..n]);
      if ops[n].OpPass? {
        PassFeeds(s, ops[n].start, ops[n].max, ops[n].p, id);
        ChunksConcat(Feed(ops[..n]), PassFeed(s, ops[n].p), id);
        PassIs(s, ops[n]);
      } else {
        StepFeedsNone(s, ops[n], id);
      }
    }
  }

  lemma NothingHanded(id: nat)
    ensures ChunksOf(EmptyHistory(), id) == []
  {
  }
}
