/** In which order the bytes of the writes reach their sockets. */
module PoolWire {
  import opened Bytes
  import opened PoolModel
  import opened PoolInvariant
  import opened PoolSteps
  import opened PoolRuns
  import opened PoolHistory
  import opened PoolTiming
  import opened PoolPolling
  import opened PoolConnects
  import opened PoolAttribution

  /** Bytes of write event `id` that the socket of descriptor `iod` accepted in one attempt. */
  datatype Segment = Segment(iod: nat, id: nat, bytes: seq<byte>)

  /** What an attempt for event `id` puts on the wire. */
  function Offered(s: State, id: nat, p: Pass): seq<Segment> {
    if id in s.pending && s.pending[id].kind == Write && s.pending[id].wbuf.Some?
       && s.pending[id].iod.Some? && s.pending[id].iod.value in s.iods && p.writable(id).Accepts?
    then
      var i, data := s.pending[id].iod.value, s.pending[id].wbuf.value;
      var bytes := match s.iods[i].kind
        case Tcp => if s.iods[i].tcp then Take(data, p.writable(id).n) else []
        case Udp => if s.iods[i].udp then data else [];
      if bytes == [] then [] else [Segment(i, id, bytes)]
    else []
  }

  /** What the attempts of a pass put on the wires, in order. */
  function IoWire(s: State, ids: seq<nat>, p: Pass, todo: seq<Fire>): seq<Segment>
    decreases |ids|
  {
    if ids == [] then []
    else if Scheduled(todo, ids[0]) then IoWire(s, ids[1..], p, todo)
    else
      var (s', st) := TryIo(s, ids[0], p);
      Offered(s, ids[0], p)
      + IoWire(s', ids[1..], p, if st.Some? then todo + [Fire(ids[0], st.value, p.now)] else todo)
  }

  function PassWire(s: State, p: Pass): seq<Segment> {
    var d := Drained(s, p);
    var ids := LiveIds(d.pending, p.order);
    IoWire(d, ids, p, Due(d.pending, ids, p.now))
  }

  /** Everything a run has put on the wires. */
  ghost function Wire(ops: seq<Op>): seq<Segment> {
    if ops == [] then []
    else
      var before := ops[..|ops| - 1];
      match ops[|ops| - 1]
      case OpPass(_, _, p) => Wire(before) + PassWire(Exec(before), p)
      case _ => Wire(before)
  }

  function BytesOf(w: seq<Segment>, id: nat): seq<byte> {
    if w == [] then []
    else BytesOf(w[..|w| - 1], id) + if w[|w| - 1].id == id then w[|w| - 1].bytes else []
  }

  lemma {:induction false} BytesOfConcat(v: seq<Segment>, w: seq<Segment>, id: nat)
    ensures BytesOf(v + w, id) == BytesOf(v, id) + BytesOf(w, id)
  {
    if w == [] {
      assert v + w == v;
    } else {
      var n := |w| - 1;
      BytesOfConcat(v, w[..n], id);
      assert (v + w)[..|v + w| - 1] == v + w[..n];
    }
  }

  // ----- Every accepted byte is on the wire, once -----

  function SentBy(h: History, id: nat): seq<byte> { TraceOf(h, id).sent }

  lemma TryReadSends(s: State, id: nat, r: ReadResult, other: nat)
    ensures SentBy(TryRead(s, id, r).0.hist, other) == SentBy(s.hist, other)
  {
  }

  lemma CreditSends(s: State, id: nat, i: nat, bytes: seq<byte>, wbuf: Option<seq<byte>>, other: nat)
    requires id in s.pending && i in s.iods
    ensures SentBy(CreditWrite(s, id, i, bytes, wbuf).hist, other) ==
            SentBy(s.hist, other) + if other == id then bytes else []
  {
  }

  lemma TryWriteSends(s: State, id: nat, p: Pass, other: nat)
    requires id in s.pending && s.pending[id].kind == Write
    ensures SentBy(TryWrite(s, id, p.writable(id)).0.hist, other) ==
            SentBy(s.hist, other) + BytesOf(Offered(s, id, p), other)
  {
    var w := Offered(s, id, p);
    if w != [] {
      assert w[..0] == [];
    }
    hide SentBy, CreditWrite;
    if id in s.pending && s.pending[id].iod.Some? && s.pending[id].iod.value in s.iods && s.pending[id].wbuf.Some?
       && p.writable(id).Accepts?
    {
      var i, data := s.pending[id].iod.value, s.pending[id].wbuf.value;
      var bytes := Take(data, p.writable(id).n);
      var rest := data[|bytes|..];
      CreditSends(s, id, i, bytes, if rest == [] then None else Some(rest), other);
      CreditSends(s, id, i, data, None, other);
    }
  }

  lemma TryIoSends(s: State, id: nat, p: Pass, other: nat)
    ensures SentBy(TryIo(s, id, p).0.hist, other) == SentBy(s.hist, other) + BytesOf(Offered(s, id, p), other)
  {
    TryReadSends(s, id, p.readable(id), other);
    hide TryRead, SentBy;
    if id in s.pending && s.pending[id].kind == Write {
      TryWriteSends(s, id, p, other);
    }
    hide TryWrite;
  }

  lemma {:induction false} IoPhaseSends(s: State, ids: seq<nat>, p: Pass, todo: seq<Fire>, id: nat)
    ensures SentBy(IoPhase(s, ids, p, todo).0.hist, id) ==
            SentBy(s.hist, id) + BytesOf(IoWire(s, ids, p, todo), id)
    decreases |ids|
  {
    hide TryIo, SentBy, Offered, Scheduled;
    if ids == [] {
    } else if Scheduled(todo, ids[0]) {
      IoPhaseSends(s, ids[1..], p, todo, id);
    } else {
      TryIoSends(s, ids[0], p, id);
      var (s', st) := TryIo(s, ids[0], p);
      var todo' := if st.Some? then todo + [Fire(ids[0], st.value, p.now)] else todo;
      IoPhaseSends(s', ids[1..], p, todo', id);
      BytesOfConcat(Offered(s, ids[0], p), IoWire(s', ids[1..], p, todo'), id);
    }
  }

  lemma {:induction false} DrainTraces(s: State, cmds: seq<Cmd>, orders: nat -> seq<nat>, k: nat)
    ensures Drain(s, cmds, orders, k).hist.traces == s.hist.traces
    decreases |cmds|
  {
    if cmds != [] {
      DrainTraces(DrainOne(s, cmds[0], orders(k)), cmds[1..], orders, k + 1);
    }
  }

  lemma PassSends(s: State, start: nat, max: Option<nat>, p: Pass, id: nat)
    ensures SentBy(RunStep(s, start, max, p).state.hist, id) == SentBy(s.hist, id) + BytesOf(PassWire(s, p), id)
  {
    DrainTraces(s.(rx := [], hist := s.hist.(clock := p.now)), s.rx + p.arrivals, p.orders, 0);
    var d := Drained(s, p);
    assert d.hist.traces == s.hist.traces;
    var ids := LiveIds(d.pending, p.order);
    var due := Due(d.pending, ids, p.now);
    PassIsPhases(s, p);
    hide PassBody, Drained, Due, LiveIds, IoPhase, IoWire, DeliverAll, HasPending, Nearest, NapFor;
    IoPhaseSends(d, ids, p, due, id);
    DeliverTraces(IoPhase(d, ids, p, due).0, IoPhase(d, ids, p, due).1);
  }

  lemma StepSends(s: State, op: Op, id: nat)
    requires Inv(s) && Enabled(s, op) && !op.OpPass?
    ensures SentBy(Step(s, op).hist, id) == SentBy(s.hist, id)
  {
    if IsRequest(op) {
      assert s.eventCounter + 1 !in s.hist.traces;
      hide Inv;
      var e, data, now := RequestIs(s, op);
      hide Step;
    } else {
      StepIssuesNothing(s, op);
      hide Step, Inv;
    }
  }

  /** The bytes a run put on the wires for an event are, in order, those accepted for it. */
  lemma {:induction false} WireCarriesSent(ops: seq<Op>, id: nat)
    requires Possible(ops)
    ensures BytesOf(Wire(ops), id) == SentBy(Exec(ops).hist, id)
  {
    hide Inv, Enabled, Step, SentBy, PassWire, RunStep;
    if ops == [] {
      assert SentBy(EmptyHistory(), id) == [] by {
        NothingSent(id);
      }
    } else {
      var n := |ops| - 1;
      var s := Exec(ops[..n]);
      WireCarriesSent(ops[..n], id);
      ExecOk(ops[..n]);
      if ops[n].OpPass? {
        PassSends(s, ops[n].start, ops[n].max, ops[n].p, id);
        BytesOfConcat(Wire(ops[..n]), PassWire(s, ops[n].p), id);
        PassIs(s, ops[n]);
      } else {
        StepSends(s, ops[n], id);
      }
    }
  }

  lemma NothingSent(id: nat)
    ensures SentBy(EmptyHistory(), id) == []
  {
  }

  lemma PassIs(s: State, op: Op)
    requires op.OpPass?
    ensures Step(s, op) == RunStep(s, op.start, op.max, op.p).state
  {
    hide RunStep;
  }

  // ----- Order -----

  predicate IsWrite(s: State, i: nat, id: nat) {
    id in s.hist.traces && s.hist.traces[id].kind == Write && s.hist.traces[id].iod == Some(i)
  }

  predicate Writing(s: State, i: nat, id: nat) { IsWrite(s, i, id) && Live(s, id) }

  /** On each descriptor the writes follow one another whole, in the order they were requested. */
  predicate InOrder(w: seq<Segment>) {
    forall j, k | 0 <= j < k < |w| && w[j].iod == w[k].iod :: w[j].id <= w[k].id
  }

  /** A write that a pass at `now` attempts with something to send. */
  predicate Eligible(s: State, i: nat, id: nat, now: nat) {
    && Writing(s, i, id)
    && !IsDue(s.pending[id], now)
    && s.pending[id].wbuf.Some? && s.pending[id].wbuf.value != []
  }

  lemma {:induction false} IoWireFrom(s: State, ids: seq<nat>, p: Pass, todo: seq<Fire>, k: nat)
    requires NoDuplicates(ids) && k < |IoWire(s, ids, p, todo)|
    ensures var seg := IoWire(s, ids, p, todo)[k];
            && seg.id in ids && !Scheduled(todo, seg.id)
            && seg.id in s.pending && s.pending[seg.id].kind == Write && s.pending[seg.id].iod == Some(seg.iod)
            && s.pending[seg.id].wbuf.Some? && s.pending[seg.id].wbuf.value != []
    decreases |ids|
  {
    var first, rest := ids[0], ids[1..];
    assert forall j | 0 <= j < |rest| :: rest[j] == ids[j + 1];
    hide TryIo, Scheduled;
    if Scheduled(todo, first) {
      IoWireFrom(s, rest, p, todo, k);
    } else {
      var (s', st) := TryIo(s, first, p);
      var todo' := if st.Some? then todo + [Fire(first, st.value, p.now)] else todo;
      if k >= |Offered(s, first, p)| {
        IoWireFrom(s', rest, p, todo', k - |Offered(s, first, p)|);
        var id := IoWire(s, ids, p, todo)[k].id;
        assert id != first;
        TryIoApart(s, first, p, id);
        ScheduledPrefix(todo, todo');
      }
    }
  }

  /** Only eligible writes put anything on the wire in a pass. */
  lemma PassWireFrom(s: State, p: Pass, k: nat)
    requires Inv(s) && PassOk(s, p) && k < |PassWire(s, p)|
    ensures Eligible(s, PassWire(s, p)[k].iod, PassWire(s, p)[k].id, p.now)
  {
    var d := Drained(s, p);
    var seg := PassWire(s, p)[k];
    VisitsLive(s, p);
    DrainedOk(s, p);
    DrainKeeps(s.(rx := [], hist := s.hist.(clock := p.now)), s.rx + p.arrivals, p.orders, 0);
    assert seg.id in d.pending ==> seg.id in s.pending && s.pending[seg.id] == d.pending[seg.id];
    var ids := LiveIds(d.pending, p.order);
    assert forall j | 0 <= j < |ids| :: Live(d, ids[j]);
    DueAre(d.pending, ids, p.now);
    hide PassOk, Drained, LiveIds, Due, IoWire;
    IoWireFrom(d, ids, p, Due(d.pending, ids, p.now), k);
    LiveEntry(s, seg.id);
  }

  lemma PassInOrder(s: State, w: seq<Segment>, p: Pass)
    requires Inv(s) && PassOk(s, p) && InOrder(w)
    requires forall i: nat, a: nat, b: nat | Eligible(s, i, a, p.now) && Eligible(s, i, b, p.now) :: a == b
    requires forall k, b: nat | 0 <= k < |w| && Eligible(s, w[k].iod, b, p.now) :: w[k].id <= b
    ensures InOrder(w + PassWire(s, p))
  {
    var v := PassWire(s, p);
    hide Inv, PassOk, PassWire, Eligible;
    forall k | 0 <= k < |v|
      ensures Eligible(s, v[k].iod, v[k].id, p.now)
    {
      PassWireFrom(s, p, k);
    }
    forall j, k | 0 <= j < k < |w + v| && (w + v)[j].iod == (w + v)[k].iod
      ensures (w + v)[j].id <= (w + v)[k].id
    {
      if k >= |w| {
        assert Eligible(s, v[k - |w|].iod, v[k - |w|].id, p.now);
        if j >= |w| {
          assert Eligible(s, v[j - |w|].iod, v[j - |w|].id, p.now);
        }
      }
    }
  }

  /** A write is requested only when no other is live on its descriptor. */
  ghost predicate SoleWriteStep(s: State, op: Op) {
    op.OpWrite? ==> forall id: nat :: !Writing(s, op.iod, id)
  }

  ghost predicate SoleWriter(ops: seq<Op>) {
    ops != [] ==> SoleWriter(ops[..|ops| - 1]) && SoleWriteStep(Exec(ops[..|ops| - 1]), ops[|ops| - 1])
  }

  ghost predicate Orderly(s: State, w: seq<Segment>) {
    && InOrder(w)
    && (forall i: nat, a: nat, b: nat | Writing(s, i, a) && Writing(s, i, b) :: a == b)
    && (forall k, b: nat | 0 <= k < |w| && Writing(s, w[k].iod, b) :: w[k].id <= b)
    && (forall k | 0 <= k < |w| :: IsWrite(s, w[k].iod, w[k].id))
  }

  lemma PassOrderly(s: State, w: seq<Segment>, op: Op)
    requires Inv(s) && Enabled(s, op) && op.OpPass? && Orderly(s, w)
    ensures Orderly(Step(s, op), w + PassWire(s, op.p))
  {
    var v, s' := PassWire(s, op.p), Step(s, op);
    PassInOrder(s, w, op.p);
    forall k | 0 <= k < |v|
      ensures Writing(s, v[k].iod, v[k].id)
    {
      PassWireFrom(s, op.p, k);
    }
    hide PassWire;
    SettledRefl(s);
    SettledStep(s, s, op);
    SameWrites(s, op);
    hide Inv, Step, Settled, Enabled, InOrder, Writing, IsWrite;
    WiderOrderly(s, w, v);
    OrderlyFrame(s, s', w + v);
  }

  /** New segments of live writes. */
  lemma WiderOrderly(s: State, w: seq<Segment>, v: seq<Segment>)
    requires Orderly(s, w) && InOrder(w + v) && forall k | 0 <= k < |v| :: Writing(s, v[k].iod, v[k].id)
    ensures Orderly(s, w + v)
  {
    forall k | 0 <= k < |w + v|
      ensures IsWrite(s, (w + v)[k].iod, (w + v)[k].id)
      ensures forall b: nat | Writing(s, (w + v)[k].iod, b) :: (w + v)[k].id <= b
    {
      if k >= |w| {
        assert Writing(s, v[k - |w|].iod, v[k - |w|].id);
      }
    }
  }

  lemma SettledWrites(s: State, s': State)
    requires Settled(s, s')
    requires forall i: nat, id: nat | IsWrite(s', i, id) :: id in s.hist.traces
    ensures forall i: nat, id: nat :: IsWrite(s', i, id) <==> IsWrite(s, i, id)
    ensures forall i: nat, id: nat | Writing(s', i, id) :: Writing(s, i, id)
  {
    forall i: nat, id: nat
      ensures IsWrite(s', i, id) <==> IsWrite(s, i, id)
      ensures Writing(s', i, id) ==> Writing(s, i, id)
    {
      if id in s.hist.traces {
        assert TraceGrows(s.hist.traces[id], s'.hist.traces[id]);
      }
    }
  }

  lemma OrderlyKept(s: State, s': State, w: seq<Segment>)
    requires Orderly(s, w)
    requires forall i: nat, id: nat :: IsWrite(s', i, id) <==> IsWrite(s, i, id)
    requires forall i: nat, id: nat | Writing(s', i, id) :: Writing(s, i, id)
    ensures Orderly(s', w)
  {
    hide IsWrite, Writing, InOrder;
  }

  lemma PassIssuesNothing(s: State, op: Op)
    requires Inv(s) && Enabled(s, op) && op.OpPass?
    ensures forall id | id in Step(s, op).hist.traces :: id in s.hist.traces
  {
    hide Inv, PassBody, HasPending, Nearest, NapFor, StampedAt, Enabled;
    StepOk(s, op);
    InvIds(s);
    InvIds(Step(s, op));
    PassStamps(s, op.p);
    assert Step(s, op).eventCounter == s.eventCounter;
  }

  lemma RequestAddsNoWrite(s: State, op: Op)
    requires IsRequest(op) && !op.OpWrite?
    ensures forall i: nat, id: nat | IsWrite(Step(s, op), i, id) :: id in s.hist.traces
  {
    hide Step;
    var e, data, now := RequestIs(s, op);
    assert e.kind != Write by {
      NotAWrite(s, op, e, data, now);
    }
  }

  lemma NotAWrite(s: State, op: Op, e: Pending, data: seq<byte>, now: nat)
    requires IsRequest(op) && !op.OpWrite? && Step(s, op) == Issue(s, e, data, now)
    ensures e.kind != Write
  {
    assert Step(s, op).pending[s.eventCounter + 1] == e;
  }

  /** Only `write` adds writes. */
  lemma SameWrites(s: State, op: Op)
    requires Inv(s) && Enabled(s, op) && !op.OpWrite?
    ensures forall i: nat, id: nat | IsWrite(Step(s, op), i, id) :: id in s.hist.traces
  {
    hide Inv, Step, Enabled;
    if op.OpPass? {
      PassIssuesNothing(s, op);
    } else if IsRequest(op) {
      RequestAddsNoWrite(s, op);
    } else {
      StepIssuesNothing(s, op);
    }
  }

  lemma WriteOrderly(s: State, w: seq<Segment>, op: Op)
    requires Inv(s) && Orderly(s, w) && op.OpWrite? && SoleWriteStep(s, op)
    ensures Orderly(Step(s, op), w)
  {
    InvIds(s);
    hide Inv, IdsOk, InOrder, Writing, IsWrite, Step;
    var s', issued := Step(s, op), s.eventCounter + 1;
    forall i: nat, id: nat
      ensures id != issued ==> (IsWrite(s', i, id) <==> IsWrite(s, i, id))
      ensures id != issued ==> (Writing(s', i, id) <==> Writing(s, i, id))
      ensures IsWrite(s, i, id) ==> id < issued
      ensures Writing(s', i, issued) ==> i == op.iod
    {
      if id != issued {
        OtherWrite(s, op, i, id);
      }
      if IsWrite(s, i, id) {
        EarlierWrite(s, i, id);
      }
      IssuedWrite(s, op, i);
    }
  }

  lemma OtherWrite(s: State, op: Op, i: nat, id: nat)
    requires op.OpWrite? && id != s.eventCounter + 1
    ensures IsWrite(Step(s, op), i, id) <==> IsWrite(s, i, id)
    ensures Writing(Step(s, op), i, id) <==> Writing(s, i, id)
  {
  }

  lemma IssuedWrite(s: State, op: Op, i: nat)
    requires op.OpWrite?
    ensures Writing(Step(s, op), i, s.eventCounter + 1) ==> i == op.iod
  {
  }

  /** Steps that request no write and put nothing on the wire. */
  lemma OrderlyFrame(s: State, s': State, w: seq<Segment>)
    requires Orderly(s, w) && Settled(s, s')
    requires forall i: nat, id: nat | IsWrite(s', i, id) :: id in s.hist.traces
    ensures Orderly(s', w)
  {
    SettledWrites(s, s');
    hide Settled;
    OrderlyKept(s, s', w);
  }

  lemma {:induction false} OrderlyThroughout(ops: seq<Op>)
    requires Possible(ops) && SoleWriter(ops)
    ensures Orderly(Exec(ops), Wire(ops))
  {
    if ops != [] {
      var n := |ops| - 1;
      var s, op := Exec(ops[..n]), ops[n];
      hide Inv, Orderly, Enabled, Step, PassWire, SoleWriteStep, Settled;
      OrderlyThroughout(ops[..n]);
      ExecOk(ops[..n]);
      if op.OpPass? {
        PassOrderly(s, Wire(ops[..n]), op);
      } else if op.OpWrite? {
        WriteOrderly(s, Wire(ops[..n]), op);
      } else {
        SettledRefl(s);
        SettledStep(s, s, op);
        SameWrites(s, op);
        OrderlyFrame(s, Step(s, op), Wire(ops[..n]));
      }
    }
  }

  /**
   * Write order. When each write is requested with no other live on its descriptor, the writes of a
   * descriptor reach its socket whole and in the order of their requests, however much the socket
   * accepts at a time and whatever is cancelled or times out.
   */
  lemma WritesInOrder(ops: seq<Op>)
    requires Possible(ops) && SoleWriter(ops)
    ensures InOrder(Wire(ops))
  {
    OrderlyThroughout(ops);
  }

  // ----- Writing too early -----

  predicate Ready(s: State, i: nat) {
    i in s.iods && match s.iods[i].kind case Tcp => s.iods[i].tcp case Udp => s.iods[i].udp
  }

  /** Handling messages keeps writes as they are and sockets in place. */
  lemma {:induction false} DrainKeepsWrites(s: State, cmds: seq<Cmd>, orders: nat -> seq<nat>, k: nat, i: nat, id: nat)
    ensures Ready(s, i) ==> Ready(Drain(s, cmds, orders, k), i)
    ensures id in s.pending && s.pending[id].kind == Write ==>
              id in Drain(s, cmds, orders, k).pending && Drain(s, cmds, orders, k).pending[id] == s.pending[id]
    decreases |cmds|
  {
    if cmds != [] {
      DrainKeepsWrites(DrainOne(s, cmds[0], orders(k)), cmds[1..], orders, k + 1, i, id);
    }
  }

  /** An attempt sees only its own event and socket. */
  lemma OfferedLocal(s: State, s': State, id: nat, p: Pass)
    requires SameView(s, s', id)
    ensures Offered(s', id, p) == Offered(s, id, p)
  {
  }

  /** Whatever an unscheduled event offers goes on the wire. */
  lemma {:induction false} IoWireHas(s: State, ids: seq<nat>, p: Pass, todo: seq<Fire>, id: nat)
    requires NoDuplicates(ids) && id in ids && !Scheduled(todo, id) && Offered(s, id, p) != []
    ensures Offered(s, id, p)[0] in IoWire(s, ids, p, todo)
    decreases |ids|
  {
    var first, rest := ids[0], ids[1..];
    assert forall j | 0 <= j < |rest| :: rest[j] == ids[j + 1];
    hide TryIo, Offered;
    if Scheduled(todo, first) {
      IoWireHas(s, rest, p, todo, id);
    } else if id != first {
      var (s', st) := TryIo(s, first, p);
      var todo' := if st.Some? then todo + [Fire(first, st.value, p.now)] else todo;
      TryIoApart(s, first, p, id);
      OfferedLocal(s, s', id, p);
      assert !Scheduled(todo', id);
      IoWireHas(s', rest, p, todo', id);
    }
  }

  /** `p` may follow the run, and leaves the wires out of order. */
  ghost predicate Overtakes(ops: seq<Op>, p: Pass) {
    Possible(ops + [OpPass(0, None, p)]) && !InOrder(Wire(ops + [OpPass(0, None, p)]))
  }

  lemma WireSnoc(ops: seq<Op>, op: Op)
    ensures Wire(ops + [op]) == if op.OpPass? then Wire(ops) + PassWire(Exec(ops), op.p) else Wire(ops)
  {
    assert (ops + [op])[..|ops|] == ops && (ops + [op])[|ops|] == op;
    hide PassWire;
  }

  /** A pass that visits `b` first puts its bytes before those of `a`. */
  lemma VisitedFirst(s: State, p: Pass, i: nat, a: nat, b: nat)
    requires Inv(s) && PassOk(s, p) && Ready(s, i) && a != b
    requires Eligible(s, i, a, p.now) && Eligible(s, i, b, p.now)
    requires p.order != [] && p.order[0] == b && p.writable(a) == p.writable(b) == Accepts(1)
    ensures exists j, k :: 0 <= j < k < |PassWire(s, p)|
              && PassWire(s, p)[j].iod == PassWire(s, p)[k].iod == i
              && PassWire(s, p)[j].id == b && PassWire(s, p)[k].id == a
  {
    hide Inv, PassOk, Drained, LiveIds, Due, Eligible, IoWire, IsDue, Ready, Writing;
    var d := Drained(s, p);
    var ids := LiveIds(d.pending, p.order);
    var due := Due(d.pending, ids, p.now);
    VisitsLive(s, p);
    StillEligible(s, p, i, a);
    StillEligible(s, p, i, b);
    assert forall j | 0 <= j < |ids| :: Live(d, ids[j]);
    NotDueUnscheduled(d, ids, p.now, a);
    NotDueUnscheduled(d, ids, p.now, b);
    FirstLive(d.pending, p.order);
    FirstThenOther(d, ids, p, due, i, a, b);
    assert PassWire(s, p) == IoWire(d, ids, p, due);
  }

  lemma FirstLive(pending: map<nat, Pending>, order: seq<nat>)
    requires order != [] && order[0] in pending && !pending[order[0]].done
    ensures LiveIds(pending, order) != [] && LiveIds(pending, order)[0] == order[0]
  {
  }

  lemma NotDueUnscheduled(s: State, ids: seq<nat>, now: nat, id: nat)
    requires NoDuplicates(ids) && (forall j | 0 <= j < |ids| :: Live(s, ids[j]))
    requires id in s.pending && !IsDue(s.pending[id], now)
    ensures !Scheduled(Due(s.pending, ids, now), id)
  {
    DueAre(s.pending, ids, now);
    var due := Due(s.pending, ids, now);
    hide Due, IsDue;
    forall k | 0 <= k < |due|
      ensures due[k].id != id
    {
      assert DueEntry(s.pending, ids, now, due[k]);
    }
  }

  /** The entry and the socket of an eligible write survive the messages of the pass. */
  lemma StillEligible(s: State, p: Pass, i: nat, id: nat)
    requires Inv(s) && Ready(s, i) && Eligible(s, i, id, p.now)
    ensures var d := Drained(s, p);
            && Ready(d, i) && Live(d, id) && d.pending[id] == s.pending[id]
            && s.pending[id].kind == Write && s.pending[id].iod == Some(i)
            && !IsDue(s.pending[id], p.now) && s.pending[id].wbuf.Some? && s.pending[id].wbuf.value != []
  {
    LiveEntry(s, id);
    hide Inv;
    DrainKeepsWrites(
      s.(rx := [], hist := s.hist.(clock := p.now)), s.rx + p.arrivals, p.orders, 0, i, id);
  }

  lemma FirstThenOther(s: State, ids: seq<nat>, p: Pass, todo: seq<Fire>, i: nat, a: nat, b: nat)
    requires NoDuplicates(ids) && ids != [] && ids[0] == b && a in ids && a != b
    requires !Scheduled(todo, a) && !Scheduled(todo, b) && Ready(s, i)
    requires forall id | id == a || id == b ::
      && id in s.pending && s.pending[id].kind == Write && s.pending[id].iod == Some(i)
      && s.pending[id].wbuf.Some? && s.pending[id].wbuf.value != [] && p.writable(id) == Accepts(1)
    ensures exists j, k :: 0 <= j < k < |IoWire(s, ids, p, todo)|
              && IoWire(s, ids, p, todo)[j].iod == IoWire(s, ids, p, todo)[k].iod == i
              && IoWire(s, ids, p, todo)[j].id == b && IoWire(s, ids, p, todo)[k].id == a
  {
    OfferedWhenReady(s, i, a, p);
    OfferedWhenReady(s, i, b, p);
    var rest := ids[1..];
    assert forall j | 0 <= j < |rest| :: rest[j] == ids[j + 1];
    hide TryIo, Offered, Ready;
    var (s', st) := TryIo(s, b, p);
    var todo' := if st.Some? then todo + [Fire(b, st.value, p.now)] else todo;
    TryIoApart(s, b, p, a);
    OfferedLocal(s, s', a, p);
    IoWireHas(s', rest, p, todo', a);
    var w := IoWire(s', rest, p, todo');
    var k :| 0 <= k < |w| && w[k] == Offered(s, a, p)[0];
    assert IoWire(s, ids, p, todo) == Offered(s, b, p) + w;
    assert IoWire(s, ids, p, todo)[0] == Offered(s, b, p)[0];
    assert IoWire(s, ids, p, todo)[|Offered(s, b, p)| + k] == w[k];
  }

  lemma OfferedWhenReady(s: State, i: nat, id: nat, p: Pass)
    requires Ready(s, i) && id in s.pending && s.pending[id].kind == Write && s.pending[id].iod == Some(i)
    requires s.pending[id].wbuf.Some? && s.pending[id].wbuf.value != [] && p.writable(id) == Accepts(1)
    ensures |Offered(s, id, p)| == 1 && Offered(s, id, p)[0].iod == i && Offered(s, id, p)[0].id == id
  {
  }

  /** Other writes do not notice the request. */
  lemma OtherEligible(s: State, i: nat, data: seq<byte>, timeoutMs: i32, now: nat, j: nat, id: nat, at: nat)
    requires id != s.eventCounter + 1
    ensures Eligible(WriteEvent(s, i, data, timeoutMs, now), j, id, at) <==> Eligible(s, j, id, at)
  {
  }

  /** The request is at once something the next pass attempts. */
  lemma FreshWrite(s: State, i: nat, data: seq<byte>, timeoutMs: i32, now: nat)
    requires data != [] && timeoutMs != 0
    ensures var s1, b := WriteEvent(s, i, data, timeoutMs, now), s.eventCounter + 1;
            && Eligible(s1, i, b, now) && s1.hist.clock == now && s1.iods == s.iods
            && s1.hist.traces[b].iod == Some(i)
  {
  }

  lemma ReadySame(s: State, s': State, i: nat)
    requires s'.iods == s.iods
    ensures Ready(s', i) == Ready(s, i)
  {
  }

  lemma EligibleOn(s: State, i: nat, j: nat, id: nat, now: nat)
    requires id in s.hist.traces && s.hist.traces[id].iod == Some(i) && Eligible(s, j, id, now)
    ensures j == i
  {
  }

  lemma EarlierWrite(s: State, i: nat, id: nat)
    requires IdsOk(s) && IsWrite(s, i, id)
    ensures id < s.eventCounter + 1
  {
  }

  lemma WriteSnoc(ops: seq<Op>, op: Op)
    requires Possible(ops) && op.OpWrite? && Exec(ops).hist.clock <= op.now
    ensures var s1 := WriteEvent(Exec(ops), op.iod, op.data, op.timeoutMs, op.now);
            && Possible(ops + [op]) && Exec(ops + [op]) == s1 && Wire(ops + [op]) == Wire(ops) && Inv(s1)
    ensures Inv(Exec(ops))
  {
    hide Exec, Possible, Wire, Inv, WriteEvent;
    ExecOk(ops);
    ExecSnoc(ops, op);
    WireSnoc(ops, op);
    StepOk(Exec(ops), op);
  }

  /** A pass in which the sockets accept a byte at a time and `b` is visited first. */
  lemma OvertakingPass(s: State, i: nat, a: nat, b: nat) returns (p: Pass)
    requires Inv(s) && Ready(s, i) && a != b
    requires Eligible(s, i, a, s.hist.clock) && Eligible(s, i, b, s.hist.clock)
    ensures PassOk(s, p)
    ensures exists j, k :: 0 <= j < k < |PassWire(s, p)|
              && PassWire(s, p)[j].iod == PassWire(s, p)[k].iod == i
              && PassWire(s, p)[j].id == b && PassWire(s, p)[k].id == a
  {
    hide Inv, Eligible, Ready, PassWire;
    var now := s.hist.clock;
    EligibleIs(s, i, b, now);
    var order := IterationFrom(s.pending.Keys, b);
    p := Pass([], _ => order, now, order, _ => ReadBlock, _ => Accepts(1), now, now);
    VisitedFirst(s, p, i, a, b);
  }

  /** A write requested too early can be put on the wire before the rest of an earlier one. */
  lemma EarlyWriteOvertakes(ops: seq<Op>, op: Op, a: nat) returns (p: Pass)
    requires Possible(ops) && op.OpWrite? && Exec(ops).hist.clock <= op.now
    requires Ready(Exec(ops), op.iod) && op.data != [] && op.timeoutMs != 0
    requires Eligible(Exec(ops), op.iod, a, op.now)
    ensures Overtakes(ops + [op], p)
  {
    WriteSnoc(ops, op);
    InvIds(Exec(ops));
    hide Exec, Possible, Wire, Inv, IdsOk, Eligible, Ready, WriteEvent, PassWire, InOrder, IsWrite, PassOk;
    var s, i, now := Exec(ops), op.iod, op.now;
    var s1, b := WriteEvent(s, i, op.data, op.timeoutMs, now), s.eventCounter + 1;
    EligibleIs(s, i, a, now);
    EarlierWrite(s, i, a);
    FreshWrite(s, i, op.data, op.timeoutMs, now);
    ReadySame(s, s1, i);
    OtherEligible(s, i, op.data, op.timeoutMs, now, i, a, now);
    p := OvertakingPass(s1, i, a, b);
    OutOfOrder(Wire(ops), PassWire(s1, p), i, a, b);
    OvertakesBy(ops + [op], s1, p);
  }

  lemma OvertakesBy(ops: seq<Op>, s: State, p: Pass)
    requires Possible(ops) && s == Exec(ops) && PassOk(s, p) && !InOrder(Wire(ops) + PassWire(s, p))
    ensures Overtakes(ops, p)
  {
    hide Exec, Possible, Wire, InOrder, PassWire, PassOk, RunStep;
    ExecSnoc(ops, OpPass(0, None, p));
    WireSnoc(ops, OpPass(0, None, p));
  }

  lemma EligibleIs(s: State, i: nat, id: nat, now: nat)
    requires Eligible(s, i, id, now)
    ensures IsWrite(s, i, id) && id in s.pending
  {
  }

  lemma OutOfOrder(w: seq<Segment>, v: seq<Segment>, i: nat, a: nat, b: nat)
    requires a < b
    requires exists j, k :: 0 <= j < k < |v| && v[j].iod == v[k].iod == i && v[j].id == b && v[k].id == a
    ensures !InOrder(w + v)
  {
    var j, k :| 0 <= j < k < |v| && v[j].iod == v[k].iod == i && v[j].id == b && v[k].id == a;
    assert (w + v)[|w| + j] == v[j] && (w + v)[|w| + k] == v[k];
  }

  /**
   * Write order, exactly. After a run in which every write had its descriptor to itself, one more
   * write, with something to send, some time to do so and a socket in place, can never be put on the
   * wire out of order by the next pass if and only if no other write on the descriptor still has
   * bytes to send and time left when it is requested.
   */
  lemma WriteOrderExactly(ops: seq<Op>, op: Op)
    requires Possible(ops) && SoleWriter(ops) && op.OpWrite? && Exec(ops).hist.clock <= op.now
    requires Ready(Exec(ops), op.iod) && op.data != [] && op.timeoutMs != 0
    ensures (forall p :: !Overtakes(ops + [op], p)) <==> forall a: nat :: !Eligible(Exec(ops), op.iod, a, op.now)
  {
    hide Eligible, Overtakes, Possible, SoleWriter, Exec;
    if forall a: nat :: !Eligible(Exec(ops), op.iod, a, op.now) {
      forall p
        ensures !Overtakes(ops + [op], p)
      {
        NotOvertaken(ops, op, p);
      }
    } else {
      var a: nat :| Eligible(Exec(ops), op.iod, a, op.now);
      var p := EarlyWriteOvertakes(ops, op, a);
    }
  }

  lemma NotOvertaken(ops: seq<Op>, op: Op, p: Pass)
    requires Possible(ops) && SoleWriter(ops) && op.OpWrite? && Exec(ops).hist.clock <= op.now
    requires Ready(Exec(ops), op.iod) && op.data != [] && op.timeoutMs != 0
    requires forall a: nat :: !Eligible(Exec(ops), op.iod, a, op.now)
    ensures !Overtakes(ops + [op], p)
  {
    hide Exec, Possible, Wire, Inv, Ready, PassWire, WriteEvent, SoleWriter, RunStep, Orderly, Eligible, InOrder;
    OrderlyThroughout(ops);
    WriteSnoc(ops, op);
    ExecSnoc(ops + [op], OpPass(0, None, p));
    WireSnoc(ops + [op], OpPass(0, None, p));
    var s1 := WriteEvent(Exec(ops), op.iod, op.data, op.timeoutMs, op.now);
    FreshWrite(Exec(ops), op.iod, op.data, op.timeoutMs, op.now);
    if Possible(ops + [op] + [OpPass(0, None, p)]) {
      assert PassOk(s1, p) && op.now <= p.now;
      hide PassOk;
      EligibleApart(Exec(ops), op, Wire(ops), p.now);
      PassInOrder(s1, Wire(ops), p);
    }
  }

  /** After the request the eligible writes of a descriptor are still one, and later than all on the wire. */
  lemma EligibleApart(s: State, op: Op, w: seq<Segment>, at: nat)
    requires Inv(s) && Orderly(s, w) && op.OpWrite? && op.data != [] && op.timeoutMs != 0
    requires op.now <= at && forall a: nat :: !Eligible(s, op.iod, a, op.now)
    ensures InOrder(w)
    ensures var s1 := WriteEvent(s, op.iod, op.data, op.timeoutMs, op.now);
            && (forall j: nat, x: nat, y: nat | Eligible(s1, j, x, at) && Eligible(s1, j, y, at) :: x == y)
            && (forall k, x: nat | 0 <= k < |w| && Eligible(s1, w[k].iod, x, at) :: w[k].id <= x)
  {
    hide Inv, Eligible, InOrder, WriteEvent, Writing, IsWrite;
    var s1, b := WriteEvent(s, op.iod, op.data, op.timeoutMs, op.now), s.eventCounter + 1;
    forall j: nat, x: nat | Eligible(s1, j, x, at)
      ensures if x == b then j == op.iod else j != op.iod && Writing(s, j, x)
    {
      EligibleAfter(s, op, j, x, at);
    }
    forall k | 0 <= k < |w|
      ensures w[k].id < b
    {
      InvIds(s);
      EarlierWrite(s, w[k].iod, w[k].id);
    }
  }

  lemma EligibleAfter(s: State, op: Op, j: nat, x: nat, at: nat)
    requires op.OpWrite? && op.data != [] && op.timeoutMs != 0
    requires op.now <= at && forall a: nat :: !Eligible(s, op.iod, a, op.now)
    requires Eligible(WriteEvent(s, op.iod, op.data, op.timeoutMs, op.now), j, x, at)
    ensures if x == s.eventCounter + 1 then j == op.iod else j != op.iod && Writing(s, j, x)
  {
    var s1 := WriteEvent(s, op.iod, op.data, op.timeoutMs, op.now);
    FreshWrite(s, op.iod, op.data, op.timeoutMs, op.now);
    hide WriteEvent;
    if x == s.eventCounter + 1 {
      EligibleOn(s1, op.iod, j, x, at);
    } else {
      OtherEligible(s, op.iod, op.data, op.timeoutMs, op.now, j, x, at);
      assert !Eligible(s, op.iod, x, op.now);
    }
  }
}
