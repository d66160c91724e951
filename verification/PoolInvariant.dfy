/** The state invariant of the event pool and its preservation by every atomic step. */
module PoolInvariant {
  import opened Bytes
  import opened PoolModel

  // ----- What the log and the traces say about one event -----

  /** The handler calls made for event `id`. */
  function FiresOf(log: seq<Fire>, id: nat): seq<Fire> {
    if log == [] then []
    else
      var n := |log| - 1;
      if log[n].id == id then FiresOf(log[..n], id) + [log[n]] else FiresOf(log[..n], id)
  }

  lemma FiresOfAppend(log: seq<Fire>, f: Fire, id: nat)
    ensures FiresOf(log + [f], id) == if f.id == id then FiresOf(log, id) + [f] else FiresOf(log, id)
  {
    assert (log + [f])[..|log|] == log;
  }

  /** What the chunks of a read event leave in its buffer: streams append, datagrams replace. */
  function BufOf(chunks: seq<Chunk>): seq<byte> {
    if chunks == [] then []
    else
      var n := |chunks| - 1;
      if chunks[n].via == Udp then chunks[n].bytes else BufOf(chunks[..n]) + chunks[n].bytes
  }

  /** All chunks one after the other. */
  function Joined(chunks: seq<Chunk>): seq<byte> {
    if chunks == [] then [] else Joined(chunks[..|chunks| - 1]) + chunks[|chunks| - 1].bytes
  }

  lemma {:induction false} StreamJoins(chunks: seq<Chunk>)
    requires forall k | 0 <= k < |chunks| :: chunks[k].via == Tcp
    ensures BufOf(chunks) == Joined(chunks)
  {
    if chunks != [] {
      StreamJoins(chunks[..|chunks| - 1]);
    }
  }

  function Total(chunks: seq<Chunk>): nat {
    if chunks == [] then 0 else Total(chunks[..|chunks| - 1]) + |chunks[|chunks| - 1].bytes|
  }

  lemma ChunkAppend(chunks: seq<Chunk>, c: Chunk)
    ensures BufOf(chunks + [c]) == if c.via == Udp then c.bytes else BufOf(chunks) + c.bytes
    ensures Total(chunks + [c]) == Total(chunks) + |c.bytes|
  {
    assert (chunks + [c])[..|chunks|] == chunks;
  }

  /** A stream read that succeeded met its condition with its last chunk and not before. */
  predicate ReadSatisfied(t: Trace) {
    && t.chunks != []
    && var n := |t.chunks| - 1;
       t.chunks[n].via == Tcp ==>
         && Complete(t.lineRead, t.target, t.buf)
         && !Complete(t.lineRead, t.target, BufOf(t.chunks[..n]))
         && |t.buf| < t.target + READ_CHUNK
  }

  predicate StatusFits(kind: EventType, status: EventStatus) {
    match kind
    case Timer => status == Success || status == Cancelled || status == Kill
    case Connect => status != Eof
    case _ => true
  }

  predicate ByDeadline(t: Trace, status: EventStatus) {
    status == Timeout || (t.kind == Timer && status == Success)
  }

  /** What a handler call means for its event. */
  predicate FireOk(t: Trace, f: Fire) {
    && StatusFits(t.kind, f.status)
    && (ByDeadline(t, f.status) ==> t.deadline.Some? && t.deadline.value <= f.at)
    && (t.kind == Write ==> if f.status == Success then t.sent == t.data else t.data != [] ==> |t.sent| < |t.data|)
    && (t.kind == Read ==> if f.status == Success then ReadSatisfied(t) else !Complete(t.lineRead, t.target, t.buf))
  }

  predicate ChunkOk(c: Chunk) {
    match c.via
    case Tcp => 0 < |c.bytes| <= READ_CHUNK
    case Udp => |c.bytes| <= DATAGRAM
  }

  predicate TraceOk(t: Trace) {
    && t.buf == BufOf(t.chunks)
    && t.sent <= t.data
    && (t.kind != Read ==> t.chunks == [])
    && (t.kind != Write ==> t.sent == [])
    && (t.kind == Read ==> t.target >= 1)
    && (t.kind == Timer <==> t.iod.None?)
    && (t.kind == Timer || t.kind == Connect ==> t.deadline.Some?)
    && (forall k | 0 <= k < |t.chunks| :: ChunkOk(t.chunks[k]))
    && forall k | 0 <= k < |t.chunks| - 1 :: t.chunks[k].via == Tcp
  }

  function Unsent(wbuf: Option<seq<byte>>): seq<byte> { if wbuf.Some? then wbuf.value else [] }

  /** The pool's entry for an event agrees with its trace. */
  predicate Agrees(e: Pending, t: Trace) {
    && e.iod == t.iod && e.kind == t.kind && e.deadline == t.deadline
    && e.target == t.target && e.lineRead == t.lineRead
    && (e.done <==> e.cancelled)
    && e.buf == t.buf
    && (t.kind == Write ==> t.sent + Unsent(e.wbuf) == t.data)
  }

  /** A live event still has work to do: between operations this holds of all of them. */
  predicate Unfinished(e: Pending, t: Trace) {
    && (e.kind == Read ==> !Complete(e.lineRead, e.target, e.buf))
    && (e.kind == Write ==> e.wbuf.Some? && (t.data != [] ==> e.wbuf.value != []))
    && (t.chunks != [] ==> t.chunks[|t.chunks| - 1].via == Tcp)
  }

  /** An unfinished event is entitled to any status that does not claim success. */
  lemma UnfinishedFires(e: Pending, t: Trace, f: Fire)
    requires Agrees(e, t) && Unfinished(e, t) && f.status != Success && StatusFits(t.kind, f.status)
    requires f.status == Timeout ==> t.deadline.Some? && t.deadline.value <= f.at
    ensures FireOk(t, f)
  {
    if t.kind == Write {
      assert t.sent + Unsent(e.wbuf) == t.data;
    }
  }

  /** Exactly one of: live and never fired, fired once, silently cancelled and never fired. */
  predicate OneFate(s: State, id: nat) {
    var fires := FiresOf(s.hist.log, id);
    if Live(s, id) then fires == [] && id !in s.hist.silenced
    else if id in s.hist.silenced then fires == []
    else |fires| == 1
  }

  predicate EventOk(s: State, id: nat)
    requires id in s.hist.traces
  {
    var t := s.hist.traces[id];
    && TraceOk(t)
    && OneFate(s, id)
    && (FiresOf(s.hist.log, id) != [] ==> FireOk(t, FiresOf(s.hist.log, id)[0]))
    && (id in s.pending ==> Agrees(s.pending[id], t))
    && (id in s.pending && t.iod.Some? && !t.orphan ==> t.iod.value in s.iods)
    && BufferOk(s, id)
  }

  /** The loop retains the buffer of every read it delivers, until it is taken. */
  predicate Delivered(status: EventStatus) { status != Cancelled && status != Kill }

  predicate BufferOk(s: State, id: nat)
    requires id in s.hist.traces
  {
    var t, fires := s.hist.traces[id], FiresOf(s.hist.log, id);
    && (id in s.readBufs ==> s.readBufs[id] == t.buf)
    && (id in s.readBufs || id in s.hist.taken <==> t.kind == Read && fires != [] && Delivered(fires[0].status))
    && !(id in s.readBufs && id in s.hist.taken)
    && (id in s.pending ==> id !in s.readBufs && id !in s.hist.taken)
  }

  // ----- Descriptors -----

  /** Bytes credited to the read events of descriptor `i` among the first `n` events. */
  function SumRead(traces: map<nat, Trace>, i: nat, n: nat): nat {
    if n == 0 then 0
    else SumRead(traces, i, n - 1)
         + if n in traces && traces[n].iod == Some(i) then Total(traces[n].chunks) else 0
  }

  /** Bytes accepted for the write events of descriptor `i` among the first `n` events. */
  function SumSent(traces: map<nat, Trace>, i: nat, n: nat): nat {
    if n == 0 then 0
    else SumSent(traces, i, n - 1)
         + if n in traces && traces[n].iod == Some(i) then |traces[n].sent| else 0
  }

  lemma {:induction false} SumUpdate(traces: map<nat, Trace>, id: nat, t: Trace, i: nat, n: nat)
    requires id in traces && t.iod == traces[id].iod
    ensures SumRead(traces[id := t], i, n) ==
            SumRead(traces, i, n)
            + if 1 <= id <= n && t.iod == Some(i) then Total(t.chunks) - Total(traces[id].chunks) else 0
    ensures SumSent(traces[id := t], i, n) ==
            SumSent(traces, i, n)
            + if 1 <= id <= n && t.iod == Some(i) then |t.sent| - |traces[id].sent| else 0
  {
    if n > 0 {
      SumUpdate(traces, id, t, i, n - 1);
    }
  }

  lemma {:induction false} SumIgnoresLater(traces: map<nat, Trace>, id: nat, t: Trace, i: nat, n: nat)
    requires id > n
    ensures SumRead(traces[id := t], i, n) == SumRead(traces, i, n)
    ensures SumSent(traces[id := t], i, n) == SumSent(traces, i, n)
  {
    if n > 0 {
      SumIgnoresLater(traces, id, t, i, n - 1);
    }
  }

  lemma {:induction false} SumOfNothing(traces: map<nat, Trace>, i: nat, n: nat)
    requires forall id | id in traces && traces[id].iod == Some(i) :: traces[id].chunks == [] && traces[id].sent == []
    ensures SumRead(traces, i, n) == 0 && SumSent(traces, i, n) == 0
  {
    if n > 0 {
      SumOfNothing(traces, i, n - 1);
    }
  }

  predicate Uniform(chunks: seq<Chunk>, kind: IodKind) {
    && (forall k | 0 <= k < |chunks| :: chunks[k].via == kind)
    && (kind == Udp ==> |chunks| <= 1)
  }

  predicate IodOk(s: State, i: nat)
    requires i in s.iods
  {
    var iod := s.iods[i];
    && 1 <= i <= s.iodCounter
    && i in s.hist.born && s.hist.born[i] <= |s.hist.log|
    && iod.readCount == SumRead(s.hist.traces, i, s.eventCounter)
    && iod.writeCount == SumSent(s.hist.traces, i, s.eventCounter)
    && (i !in s.hist.switched ==>
          forall id | id in s.hist.traces && s.hist.traces[id].iod == Some(i) ::
            Uniform(s.hist.traces[id].chunks, iod.kind))
  }

  predicate IsConnectSuccess(traces: map<nat, Trace>, f: Fire, i: nat) {
    f.status == Success && f.id in traces && traces[f.id].kind == Connect && traces[f.id].iod == Some(i)
  }

  /** Since log position `from`, some Connect on descriptor `i` has fired `Success`. */
  predicate ConnectedSince(h: History, from: nat, i: nat) {
    exists k :: from <= k < |h.log| && IsConnectSuccess(h.traces, h.log[k], i)
  }

  predicate ConnectionsOk(s: State) {
    forall i | i in s.iods && i !in s.hist.udpPeers && i in s.hist.born ::
      s.iods[i].connected <==> ConnectedSince(s.hist, s.hist.born[i], i)
  }

  // ----- The invariant -----

  ghost predicate IdsOk(s: State) {
    && (forall id :: id in s.hist.traces <==> 1 <= id <= s.eventCounter)
    && s.pending.Keys <= s.hist.traces.Keys
    && s.readBufs.Keys <= s.hist.traces.Keys
    && s.hist.silenced <= s.hist.traces.Keys
    && s.hist.taken <= s.hist.traces.Keys
    && (forall k | 0 <= k < |s.hist.log| :: s.hist.log[k].id in s.hist.traces)
    && (forall i | i in s.hist.switched || i in s.hist.udpPeers || i in s.hist.born :: i <= s.iodCounter)
    && (forall id | id in s.hist.traces && s.hist.traces[id].iod.Some? && s.hist.traces[id].iod.value > s.iodCounter ::
          s.hist.traces[id].chunks == [] && s.hist.traces[id].sent == [])
  }

  predicate EventsOk(s: State) { forall id | id in s.hist.traces :: EventOk(s, id) }

  predicate IodsOk(s: State) { forall i | i in s.iods :: IodOk(s, i) }

  /** Holds even between the I/O and the deliveries of a pass. */
  ghost predicate WeakInv(s: State) { IdsOk(s) && EventsOk(s) && IodsOk(s) }

  /** Every live event outside `todo` is unfinished. */
  ghost predicate StrictBut(s: State, todo: seq<Fire>) {
    forall id | id in s.hist.traces && Live(s, id) && !Scheduled(todo, id) ::
      Unfinished(s.pending[id], s.hist.traces[id])
  }

  /** The pool invariant, between operations and at the end of every pass. */
  ghost predicate Inv(s: State) {
    WeakInv(s) && StrictBut(s, []) && ConnectionsOk(s)
  }

  // ----- Frame lemmas -----

  /** Steps whose new handler calls are no successful connects keep `connected` honest. */
  lemma ConnectionsFrame(s: State, s': State)
    requires IdsOk(s) && ConnectionsOk(s)
    requires |s.hist.log| <= |s'.hist.log| && s'.hist.log[..|s.hist.log|] == s.hist.log
    requires forall id | id in s.hist.traces ::
      && id in s'.hist.traces
      && s'.hist.traces[id].kind == s.hist.traces[id].kind
      && s'.hist.traces[id].iod == s.hist.traces[id].iod
    requires forall k, i | |s.hist.log| <= k < |s'.hist.log| :: !IsConnectSuccess(s'.hist.traces, s'.hist.log[k], i)
    requires forall i | i in s'.iods ::
      i in s.iods && (i !in s'.hist.udpPeers ==> s'.iods[i].connected == s.iods[i].connected)
    requires s'.hist.born == s.hist.born && s.hist.udpPeers <= s'.hist.udpPeers
    ensures ConnectionsOk(s')
  {
    forall i | i in s'.iods && i !in s'.hist.udpPeers && i in s'.hist.born
      ensures s'.iods[i].connected <==> ConnectedSince(s'.hist, s'.hist.born[i], i)
    {
      var from := s.hist.born[i];
      forall k | 0 <= k < |s.hist.log|
        ensures IsConnectSuccess(s'.hist.traces, s'.hist.log[k], i) <==>
                IsConnectSuccess(s.hist.traces, s.hist.log[k], i)
      {
        assert s'.hist.log[k] == s.hist.log[k];
      }
      if ConnectedSince(s.hist, from, i) {
        var k :| from <= k < |s.hist.log| && IsConnectSuccess(s.hist.traces, s.hist.log[k], i);
        assert IsConnectSuccess(s'.hist.traces, s'.hist.log[k], i);
      }
      if ConnectedSince(s'.hist, from, i) {
        var k :| from <= k < |s'.hist.log| && IsConnectSuccess(s'.hist.traces, s'.hist.log[k], i);
        assert k < |s.hist.log|;
      }
    }
  }

  /** The common case: at most one handler call, and none that reports a connection. */
  lemma ConnectionsKept(s: State, s': State, f: Fire)
    requires IdsOk(s) && ConnectionsOk(s)
    requires s'.hist.log == s.hist.log || s'.hist.log == s.hist.log + [f]
    requires f.status != Success || (f.id in s.hist.traces && s.hist.traces[f.id].kind != Connect)
    requires s'.hist.traces == s.hist.traces && s'.iods == s.iods
    requires s'.hist.born == s.hist.born && s'.hist.udpPeers == s.hist.udpPeers
    ensures ConnectionsOk(s')
  {
    ConnectionsFrame(s, s');
  }

  /** A step that leaves everything said of event `j` alone. */
  lemma EventFrame(s: State, s': State, j: nat)
    requires j in s.hist.traces && EventOk(s, j)
    requires j in s'.hist.traces && s'.hist.traces[j] == s.hist.traces[j]
    requires FiresOf(s'.hist.log, j) == FiresOf(s.hist.log, j)
    requires j in s'.hist.silenced <==> j in s.hist.silenced
    requires j in s'.pending ==> j in s.pending && s'.pending[j] == s.pending[j]
    requires Live(s, j) ==> j in s'.pending
    requires j in s'.readBufs <==> j in s.readBufs
    requires j in s'.readBufs ==> s'.readBufs[j] == s.readBufs[j]
    requires j in s'.hist.taken <==> j in s.hist.taken
    requires j in s'.pending && s.hist.traces[j].iod.Some? && s.hist.traces[j].iod.value in s.iods ==>
               s.hist.traces[j].iod.value in s'.iods
    ensures EventOk(s', j)
  {
    hide TraceOk, FireOk, Agrees, FiresOf;
  }

  /** Steps that move no bytes and change no kind keep the descriptors' books. */
  lemma IodsFrame(s: State, s': State)
    requires IodsOk(s)
    requires s'.hist.traces == s.hist.traces && s'.hist.born == s.hist.born && s'.hist.switched == s.hist.switched
    requires s'.eventCounter == s.eventCounter && s'.iodCounter == s.iodCounter
    requires |s.hist.log| <= |s'.hist.log|
    requires forall i | i in s'.iods :: i in s.iods && s'.iods[i] == s.iods[i]
    ensures IodsOk(s')
  {
    forall i | i in s'.iods
      ensures IodOk(s', i)
    {
      assert IodOk(s, i);
    }
  }

  /** Fields the invariant does not look at: channel, quit flag, clock. */
  lemma InvIgnores(s: State, s': State)
    requires s' == s.(rx := s'.rx, quit := s'.quit, hist := s.hist.(clock := s'.hist.clock))
    ensures WeakInv(s) ==> WeakInv(s')
    ensures ConnectionsOk(s) ==> ConnectionsOk(s')
    ensures forall todo | StrictBut(s, todo) :: StrictBut(s', todo)
  {
    if WeakInv(s) {
      hide EventOk;
      forall id | id in s'.hist.traces
        ensures EventOk(s', id)
      {
        assert EventOk(s, id);
        EventFrame(s, s', id);
      }
      IodsFrame(s, s');
    }
    if ConnectionsOk(s) {
      assert forall from, i :: ConnectedSince(s'.hist, from, i) <==> ConnectedSince(s.hist, from, i);
    }
  }

  // ----- A live event leaves with one handler call -----

  /** Fire `f` for a live event and drop it; its buffer may be retained. */
  function FireAndDrop(s: State, f: Fire, keep: bool): State
    requires f.id in s.pending
  {
    s.(readBufs := if keep then s.readBufs[f.id := s.pending[f.id].buf] else s.readBufs - {f.id},
       pending := s.pending - {f.id},
       hist := s.hist.(log := s.hist.log + [f]))
  }

  lemma FireAndDropOk(s: State, f: Fire, keep: bool)
    requires WeakInv(s) && Live(s, f.id)
    requires f.id in s.hist.traces && FireOk(s.hist.traces[f.id], f)
    requires keep <==> s.pending[f.id].kind == Read && Delivered(f.status)
    ensures WeakInv(FireAndDrop(s, f, keep))
  {
    hide IdsOk, EventsOk, IodsOk;
    FireAndDropEvents(s, f, keep);
    FireAndDropIds(s, f, keep);
    IodsFrame(s, FireAndDrop(s, f, keep));
  }

  lemma FireAndDropIds(s: State, f: Fire, keep: bool)
    requires IdsOk(s) && f.id in s.pending
    ensures IdsOk(FireAndDrop(s, f, keep))
  {
  }

  lemma FireAndDropEvents(s: State, f: Fire, keep: bool)
    requires EventsOk(s) && Live(s, f.id)
    requires f.id in s.hist.traces && FireOk(s.hist.traces[f.id], f)
    requires keep <==> s.pending[f.id].kind == Read && Delivered(f.status)
    ensures EventsOk(FireAndDrop(s, f, keep))
  {
    var s' := FireAndDrop(s, f, keep);
    hide EventOk, FireOk, FiresOf;
    forall id | id in s'.hist.traces
      ensures EventOk(s', id)
    {
      assert EventOk(s, id);
      FiresOfAppend(s.hist.log, f, id);
      if id == f.id {
        FiredEvent(s, f, keep);
      } else {
        EventFrame(s, s', id);
      }
    }
  }

  lemma FiredEvent(s: State, f: Fire, keep: bool)
    requires f.id in s.hist.traces && EventOk(s, f.id) && Live(s, f.id)
    requires FireOk(s.hist.traces[f.id], f)
    requires keep <==> s.pending[f.id].kind == Read && Delivered(f.status)
    ensures EventOk(FireAndDrop(s, f, keep), f.id)
  {
    FiresOfAppend(s.hist.log, f, f.id);
    hide TraceOk, FireOk, FiresOf;
  }

  /** The deliveries still to be made: distinct live events, each entitled to its status. */
  ghost predicate TodoOk(s: State, todo: seq<Fire>) {
    && (forall j, k | 0 <= j < k < |todo| :: todo[j].id != todo[k].id)
    && (forall k | 0 <= k < |todo| ::
          && Live(s, todo[k].id)
          && todo[k].id in s.hist.traces
          && FireOk(s.hist.traces[todo[k].id], todo[k])
          && Delivered(todo[k].status)
          && (s.hist.traces[todo[k].id].kind == Connect ==> todo[k].status == Timeout))
  }

  /** One delivery of a pass. */
  lemma DeliverOneOk(s: State, todo: seq<Fire>)
    requires WeakInv(s) && ConnectionsOk(s) && todo != [] && TodoOk(s, todo) && StrictBut(s, todo)
    ensures DeliverOne(s, todo[0]).pending == s.pending - {todo[0].id}
    ensures WeakInv(DeliverOne(s, todo[0])) && ConnectionsOk(DeliverOne(s, todo[0]))
    ensures TodoOk(DeliverOne(s, todo[0]), todo[1..]) && StrictBut(DeliverOne(s, todo[0]), todo[1..])
  {
    DeliverOneIs(s, todo[0]);
    var f := todo[0];
    var s' := DeliverOne(s, f);
    TodoRest(s, s', todo);
    hide TodoOk, StrictBut, EventsOk, IodsOk;
    ConnectionsFrame(s, s');
  }

  lemma DeliverOneIs(s: State, f: Fire)
    requires WeakInv(s) && Live(s, f.id) && f.id in s.hist.traces && FireOk(s.hist.traces[f.id], f)
    requires Delivered(f.status)
    ensures DeliverOne(s, f) == FireAndDrop(s, f, s.pending[f.id].kind == Read)
    ensures WeakInv(DeliverOne(s, f))
  {
    LiveEntry(s, f.id);
    hide WeakInv, FireOk, Agrees;
    assert DeliverOne(s, f) == FireAndDrop(s, f, s.pending[f.id].kind == Read) by {
      assert s.readBufs - {f.id} == s.readBufs;
    }
    FireAndDropOk(s, f, s.pending[f.id].kind == Read);
  }

  /** What the invariant says of a pending entry. */
  lemma LiveEntry(s: State, id: nat)
    requires IdsOk(s) && EventsOk(s) && id in s.pending
    ensures id in s.hist.traces && Agrees(s.pending[id], s.hist.traces[id])
    ensures s.pending[id].done <==> s.pending[id].cancelled
    ensures id !in s.readBufs
  {
    assert EventOk(s, id);
  }

  lemma TodoRest(s: State, s': State, todo: seq<Fire>)
    requires todo != [] && TodoOk(s, todo) && StrictBut(s, todo)
    requires s'.pending == s.pending - {todo[0].id} && s'.hist.traces == s.hist.traces
    ensures TodoOk(s', todo[1..]) && StrictBut(s', todo[1..])
  {
    assert forall k | 0 <= k < |todo[1..]| :: todo[1..][k] == todo[k + 1];
    forall id | id in s'.hist.traces && Live(s', id) && !Scheduled(todo[1..], id)
      ensures Unfinished(s'.pending[id], s'.hist.traces[id])
    {
      ScheduledSplit(todo, id);
    }
  }

  lemma ScheduledSplit(todo: seq<Fire>, id: nat)
    requires todo != []
    ensures Scheduled(todo, id) <==> todo[0].id == id || Scheduled(todo[1..], id)
  {
    if k :| 0 < k < |todo| && todo[k].id == id {
      assert todo[1..][k - 1].id == id;
    }
    if k :| 0 <= k < |todo[1..]| && todo[1..][k].id == id {
      assert todo[k + 1].id == id;
    }
  }

  lemma {:induction false} DeliverAllOk(s: State, todo: seq<Fire>)
    requires WeakInv(s) && ConnectionsOk(s) && TodoOk(s, todo) && StrictBut(s, todo)
    ensures Inv(DeliverAll(s, todo))
    ensures forall id :: Live(DeliverAll(s, todo), id) <==> Live(s, id) && !Scheduled(todo, id)
    decreases |todo|
  {
    hide WeakInv, ConnectionsOk, TodoOk, StrictBut;
    if todo != [] {
      DeliverOneOk(s, todo);
      DeliverAllOk(DeliverOne(s, todo[0]), todo[1..]);
      forall id: nat
        ensures Scheduled(todo, id) <==> todo[0].id == id || Scheduled(todo[1..], id)
      {
        ScheduledSplit(todo, id);
      }
    }
  }

  // ----- Descriptor changes -----

  lemma SetKindOk(s: State, i: nat, iod: Iod)
    requires WeakInv(s) && i in s.iods
    requires iod.readCount == s.iods[i].readCount && iod.writeCount == s.iods[i].writeCount
    ensures WeakInv(SetKind(s, i, iod))
    ensures forall todo | StrictBut(s, todo) :: StrictBut(SetKind(s, i, iod), todo)
  {
    var s' := SetKind(s, i, iod);
    hide EventOk;
    forall id | id in s'.hist.traces
      ensures EventOk(s', id)
    {
      assert EventOk(s, id);
      EventFrame(s, s', id);
    }
    forall j | j in s'.iods
      ensures IodOk(s', j)
    {
      assert IodOk(s, j);
    }
  }

  lemma AddIodOk(s: State, iod: Iod)
    requires Inv(s) && iod.readCount == 0 && iod.writeCount == 0 && !iod.connected
    ensures Inv(AddIod(s, iod))
  {
    AddIodEvents(s, iod);
    AddIodIods(s, iod);
    AddIodConnections(s, iod);
  }

  lemma AddIodEvents(s: State, iod: Iod)
    requires IdsOk(s) && EventsOk(s)
    ensures IdsOk(AddIod(s, iod)) && EventsOk(AddIod(s, iod))
  {
    var s' := AddIod(s, iod);
    hide EventOk;
    forall id | id in s'.hist.traces
      ensures EventOk(s', id)
    {
      assert EventOk(s, id);
      EventFrame(s, s', id);
    }
  }

  lemma AddIodIods(s: State, iod: Iod)
    requires IdsOk(s) && IodsOk(s) && iod.readCount == 0 && iod.writeCount == 0
    ensures IodsOk(AddIod(s, iod))
  {
    var s' := AddIod(s, iod);
    var i := s.iodCounter + 1;
    SumOfNothing(s.hist.traces, i, s.eventCounter);
    forall j | j in s'.iods
      ensures IodOk(s', j)
    {
      if j != i {
        assert IodOk(s, j);
      }
    }
  }

  lemma AddIodConnections(s: State, iod: Iod)
    requires IdsOk(s) && IodsOk(s) && ConnectionsOk(s) && !iod.connected
    ensures ConnectionsOk(AddIod(s, iod))
  {
    var s' := AddIod(s, iod);
    var i := s.iodCounter + 1;
    forall j | j in s'.iods && j !in s'.hist.udpPeers && j in s'.hist.born
      ensures s'.iods[j].connected <==> ConnectedSince(s'.hist, s'.hist.born[j], j)
    {
      if j != i {
        assert IodOk(s, j);
        assert ConnectedSince(s'.hist, s.hist.born[j], j) <==> ConnectedSince(s.hist, s.hist.born[j], j);
      }
    }
  }

  lemma ConnectUdpOk(s: State, i: nat)
    requires Inv(s)
    ensures Inv(ConnectUdp(s, i))
  {
    if i in s.iods {
      assert IodOk(s, i);
      var iod := s.iods[i].(connected := true, kind := Udp);
      SetKindOk(s, i, iod);
      var s1 := SetKind(s, i, iod);
      var s' := ConnectUdp(s, i);
      assert StrictBut(s1, []);
      PeersIgnored(s1, s');
      hide EventsOk, IodsOk, StrictBut;
      ConnectionsFrame(s, s');
    }
  }

  lemma PeersIgnored(s: State, s': State)
    requires WeakInv(s) && StrictBut(s, [])
    requires s' == s.(hist := s.hist.(udpPeers := s'.hist.udpPeers))
    requires forall i | i in s'.hist.udpPeers :: i <= s.iodCounter
    ensures WeakInv(s') && StrictBut(s', [])
  {
    hide EventOk;
    forall id | id in s'.hist.traces
      ensures EventOk(s', id)
    {
      assert EventOk(s, id);
      EventFrame(s, s', id);
    }
    IodsFrame(s, s');
  }

  /** Removing a descriptor that no pending event was requested on. */
  lemma RemoveIodOk(s: State, i: nat)
    requires Inv(s)
    requires forall id | id in s.pending :: s.pending[id].iod != Some(i)
    ensures Inv(s.(iods := s.iods - {i}))
  {
    var s' := s.(iods := s.iods - {i});
    hide EventOk, IodOk;
    forall id | id in s'.hist.traces
      ensures EventOk(s', id)
    {
      assert EventOk(s, id);
      if id in s.pending {
        LiveEntry(s, id);
      }
      EventFrame(s, s', id);
    }
    IodsFrame(s, s');
    ConnectionsFrame(s, s');
  }

  // ----- Requests, cancellation, kill -----

  /** A request as the pool's methods build it. */
  predicate FreshRequest(e: Pending, data: seq<byte>) {
    && e.buf == [] && !e.cancelled && !e.done
    && (e.kind == Read ==> e.target >= 1)
    && (e.kind == Write ==> e.wbuf == Some(data))
    && (e.kind == Timer <==> e.iod.None?)
    && (e.kind == Timer || e.kind == Connect ==> e.deadline.Some?)
  }

  lemma IssueOk(s: State, e: Pending, data: seq<byte>, now: nat)
    requires Inv(s) && FreshRequest(e, data)
    ensures Inv(Issue(s, e, data, now))
  {
    var s' := Issue(s, e, data, now);
    IssueEvents(s, e, data, now);
    IssueIods(s, e, data, now);
    hide EventsOk, IodsOk;
    ConnectionsFrame(s, s');
  }

  lemma IssueEvents(s: State, e: Pending, data: seq<byte>, now: nat)
    requires WeakInv(s) && FreshRequest(e, data)
    ensures EventsOk(Issue(s, e, data, now)) && IdsOk(Issue(s, e, data, now))
  {
    hide EventOk, FiresOf, IodsOk;
    var s' := Issue(s, e, data, now);
    var id := s.eventCounter + 1;
    NeverFired(s.hist, id);
    IssuedEvent(s, e, data, now);
    assert id !in s.hist.traces;
    IssueIds(s, e, data, now);
    hide IdsOk;
    forall j | j in s'.hist.traces && j != id
      ensures EventOk(s', j)
    {
      assert EventOk(s, j);
      IssueApart(s, e, data, now, j);
    }
  }

  lemma IssueIds(s: State, e: Pending, data: seq<byte>, now: nat)
    requires IdsOk(s)
    ensures IdsOk(Issue(s, e, data, now))
  {
  }

  lemma IssueApart(s: State, e: Pending, data: seq<byte>, now: nat, j: nat)
    requires j in s.hist.traces && EventOk(s, j) && j != s.eventCounter + 1
    ensures EventOk(Issue(s, e, data, now), j)
  {
    hide EventOk, FiresOf;
    EventFrame(s, Issue(s, e, data, now), j);
  }

  lemma IssuedEvent(s: State, e: Pending, data: seq<byte>, now: nat)
    requires FreshRequest(e, data) && FiresOf(s.hist.log, s.eventCounter + 1) == []
    requires s.eventCounter + 1 !in s.hist.silenced && s.eventCounter + 1 !in s.readBufs
    requires s.eventCounter + 1 !in s.hist.taken
    ensures EventOk(Issue(s, e, data, now), s.eventCounter + 1)
  {
  }

  lemma IssueIods(s: State, e: Pending, data: seq<byte>, now: nat)
    requires IdsOk(s) && IodsOk(s)
    ensures IodsOk(Issue(s, e, data, now))
  {
    var s' := Issue(s, e, data, now);
    var id := s.eventCounter + 1;
    forall i | i in s'.iods
      ensures IodOk(s', i)
    {
      assert IodOk(s, i);
      SumIgnoresLater(s.hist.traces, id, s'.hist.traces[id], i, s.eventCounter);
    }
  }

  lemma {:induction false} NeverFiredIn(log: seq<Fire>, id: nat)
    requires forall k | 0 <= k < |log| :: log[k].id != id
    ensures FiresOf(log, id) == []
  {
    if log != [] {
      NeverFiredIn(log[..|log| - 1], id);
    }
  }

  lemma NeverFired(h: History, id: nat)
    requires id !in h.traces && forall k | 0 <= k < |h.log| :: h.log[k].id in h.traces
    ensures FiresOf(h.log, id) == []
  {
    NeverFiredIn(h.log, id);
  }

  lemma CancelOk(s: State, id: nat, notify: bool)
    requires Inv(s)
    ensures Inv(Cancel(s, id, notify))
  {
    hide IdsOk, EventsOk, IodsOk, ConnectionsOk, StrictBut;
    if id in s.pending {
      CancelEvents(s, id, notify);
      CancelIds(s, id, notify);
      CancelStrict(s, id, notify);
      IodsFrame(s, Cancel(s, id, notify));
      ConnectionsKept(s, Cancel(s, id, notify), Fire(id, Cancelled, s.hist.clock));
    }
  }

  lemma CancelStrict(s: State, id: nat, notify: bool)
    requires StrictBut(s, []) && id in s.pending
    ensures StrictBut(Cancel(s, id, notify), [])
  {
    hide Unfinished;
  }

  lemma CancelIds(s: State, id: nat, notify: bool)
    requires IdsOk(s) && id in s.pending
    ensures IdsOk(Cancel(s, id, notify))
  {
  }

  lemma CancelEvents(s: State, id: nat, notify: bool)
    requires IdsOk(s) && EventsOk(s) && StrictBut(s, []) && id in s.pending
    ensures EventsOk(Cancel(s, id, notify))
  {
    LiveUnfinished(s, id);
    hide EventOk, IdsOk, Agrees, Cancel, Unfinished, StrictBut;
    var s' := Cancel(s, id, notify);
    LiveEntry(s, id);
    CancelTraces(s, id, notify);
    forall j | j in s'.hist.traces
      ensures EventOk(s', j)
    {
      assert EventOk(s, j);
      if j == id {
        CancelledEvent(s, id, notify);
      } else {
        CancelApart(s, id, notify, j);
      }
    }
  }

  lemma LiveUnfinished(s: State, id: nat)
    requires IdsOk(s) && StrictBut(s, []) && id in s.pending
    ensures Live(s, id) ==> Unfinished(s.pending[id], s.hist.traces[id])
  {
    assert !Scheduled([], id);
    hide Unfinished;
  }

  lemma CancelTraces(s: State, id: nat, notify: bool)
    ensures Cancel(s, id, notify).hist.traces == s.hist.traces
  {
  }

  lemma CancelApart(s: State, id: nat, notify: bool, j: nat)
    requires j in s.hist.traces && EventOk(s, j) && j != id
    ensures EventOk(Cancel(s, id, notify), j)
  {
    FiresOfAppend(s.hist.log, Fire(id, Cancelled, s.hist.clock), j);
    hide EventOk, FiresOf;
    EventFrame(s, Cancel(s, id, notify), j);
  }

  lemma CancelledEvent(s: State, id: nat, notify: bool)
    requires id in s.hist.traces && EventOk(s, id) && id in s.pending
    requires Live(s, id) ==> Unfinished(s.pending[id], s.hist.traces[id])
    ensures EventOk(Cancel(s, id, notify), id)
  {
    var e, t, f := s.pending[id], s.hist.traces[id], Fire(id, Cancelled, s.hist.clock);
    var fires, s' := FiresOf(s.hist.log, id), Cancel(s, id, notify);
    CancelledEntry(e, t, f);
    hide TraceOk, FireOk, Agrees, Unfinished;
    if !e.done && notify {
      FiresOfAppend(s.hist.log, f, id);
      hide FiresOf;
      assert fires == [] && FiresOf(s'.hist.log, id) == [f];
      assert OneFate(s', id) && BufferOk(s', id);
    } else {
      hide FiresOf;
      assert s'.hist.log == s.hist.log;
      assert OneFate(s', id) && BufferOk(s', id);
    }
  }

  lemma CancelledEntry(e: Pending, t: Trace, f: Fire)
    requires Agrees(e, t) && f.status == Cancelled
    ensures Agrees(e.(cancelled := true, done := true), t)
    ensures Unfinished(e, t) ==> FireOk(t, f)
  {
    if Unfinished(e, t) {
      UnfinishedFires(e, t, f);
    }
  }

  lemma KillOneOk(s: State, id: nat)
    requires Inv(s) && id in s.pending
    ensures Inv(KillOne(s, id))
    ensures KillOne(s, id).pending == s.pending - {id} && KillOne(s, id).iods == s.iods
  {
    hide IdsOk, EventsOk, IodsOk, ConnectionsOk, StrictBut;
    KillOneWeak(s, id);
    KillOneStrict(s, id);
    ConnectionsKept(s, KillOne(s, id), Fire(id, Kill, s.hist.clock));
  }

  lemma KillOneStrict(s: State, id: nat)
    requires StrictBut(s, []) && id in s.pending
    ensures StrictBut(KillOne(s, id), [])
  {
    hide Unfinished;
  }

  lemma KillOneWeak(s: State, id: nat)
    requires WeakInv(s) && StrictBut(s, []) && id in s.pending
    ensures WeakInv(KillOne(s, id))
  {
    hide IdsOk, EventsOk, IodsOk, Agrees, StrictBut, Unfinished, FireOk;
    LiveEntry(s, id);
    LiveUnfinished(s, id);
    if Live(s, id) {
      var f := Fire(id, Kill, s.hist.clock);
      UnfinishedFires(s.pending[id], s.hist.traces[id], f);
      assert KillOne(s, id) == FireAndDrop(s, f, false);
      FireAndDropOk(s, f, false);
    } else {
      DropDone(s, id);
    }
  }

  lemma DropDone(s: State, id: nat)
    requires WeakInv(s) && id in s.pending && !Live(s, id)
    ensures WeakInv(KillOne(s, id))
  {
    hide IdsOk, EventsOk, IodsOk, Agrees;
    LiveEntry(s, id);
    var s' := s.(pending := s.pending - {id});
    assert KillOne(s, id) == s' by {
      assert s.readBufs - {id} == s.readBufs;
    }
    hide KillOne;
    DropDoneEvents(s, id);
    DropDoneIds(s, id);
    IodsFrame(s, s');
  }

  lemma DropDoneIds(s: State, id: nat)
    requires IdsOk(s)
    ensures IdsOk(s.(pending := s.pending - {id}))
  {
  }

  lemma DropDoneEvents(s: State, id: nat)
    requires EventsOk(s) && id in s.pending && !Live(s, id)
    ensures EventsOk(s.(pending := s.pending - {id}))
  {
    var s' := s.(pending := s.pending - {id});
    hide EventOk;
    forall j | j in s'.hist.traces
      ensures EventOk(s', j)
    {
      assert EventOk(s, j);
      EventFrame(s, s', j);
    }
  }

  lemma {:induction false} KillAllOk(s: State, ids: seq<nat>)
    requires Inv(s) && NoDuplicates(ids) && forall k | 0 <= k < |ids| :: ids[k] in s.pending
    ensures Inv(KillAll(s, ids))
    ensures KillAll(s, ids).pending == s.pending - (set id | id in ids)
    ensures KillAll(s, ids).iods == s.iods
    decreases |ids|
  {
    hide Inv;
    if ids != [] {
      KillOneOk(s, ids[0]);
      assert forall k | 0 <= k < |ids[1..]| :: ids[1..][k] == ids[k + 1];
      KillAllOk(KillOne(s, ids[0]), ids[1..]);
      assert (set id | id in ids) == {ids[0]} + (set id | id in ids[1..]);
    } else {
      assert s.pending - (set id | id in ids) == s.pending;
    }
  }

  lemma {:induction false} OnIodIs(pending: map<nat, Pending>, order: seq<nat>, i: nat)
    requires NoDuplicates(order)
    ensures NoDuplicates(OnIod(pending, order, i))
    ensures forall id :: id in OnIod(pending, order, i) <==> id in order && id in pending && pending[id].iod == Some(i)
  {
    if order != [] {
      assert forall k | 0 <= k < |order[1..]| :: order[1..][k] == order[k + 1];
      OnIodIs(pending, order[1..], i);
    }
  }

  lemma DeleteIodOk(s: State, i: nat, order: seq<nat>)
    requires Inv(s) && NoDuplicates(order) && Covers(order, s.pending.Keys)
    ensures Inv(DeleteIod(s, i, order))
    ensures DeleteIod(s, i, order).pending == map id | id in s.pending && s.pending[id].iod != Some(i) :: s.pending[id]
    ensures DeleteIod(s, i, order).iods == s.iods - {i}
  {
    hide Inv;
    var ids := OnIod(s.pending, order, i);
    OnIodIs(s.pending, order, i);
    KillAllOk(s, ids);
    var s1 := KillAll(s, ids);
    forall id | id in s.pending
      ensures id in s1.pending <==> s.pending[id].iod != Some(i)
    {
    }
    RemoveIodOk(s1, i);
  }

  lemma {:induction false} DeleteIodsOk(s: State, iodOrder: seq<nat>, orders: nat -> seq<nat>)
    requires Inv(s)
    requires forall i :: NoDuplicates(orders(i)) && Covers(orders(i), s.pending.Keys)
    ensures Inv(DeleteIods(s, iodOrder, orders))
    ensures DeleteIods(s, iodOrder, orders).iods == s.iods - (set i | i in iodOrder)
    ensures DeleteIods(s, iodOrder, orders).pending.Keys <= s.pending.Keys
    decreases |iodOrder|
  {
    hide Inv;
    if iodOrder != [] {
      DeleteIodOk(s, iodOrder[0], orders(iodOrder[0]));
      DeleteIodsOk(DeleteIod(s, iodOrder[0], orders(iodOrder[0])), iodOrder[1..], orders);
      assert (set i | i in iodOrder) == {iodOrder[0]} + (set i | i in iodOrder[1..]);
    } else {
      assert s.iods - (set i | i in iodOrder) == s.iods;
    }
  }

  /** After `delete` nothing is pending and no descriptor is left. */
  lemma DeleteOk(s: State, iodOrder: seq<nat>, orders: nat -> seq<nat>, order: seq<nat>)
    requires Inv(s)
    requires forall i :: NoDuplicates(orders(i)) && Covers(orders(i), s.pending.Keys)
    requires Covers(iodOrder, s.iods.Keys)
    requires var left := DeleteIods(s, iodOrder, orders).pending.Keys;
             NoDuplicates(order) && Covers(order, left) && forall id | id in order :: id in left
    ensures Inv(Delete(s, iodOrder, orders, order))
    ensures Delete(s, iodOrder, orders, order).pending == map[]
    ensures Delete(s, iodOrder, orders, order).iods == map[]
  {
    DeleteIodsOk(s, iodOrder, orders);
    var s1 := DeleteIods(s, iodOrder, orders);
    KillAllOk(s1, order);
    InvIgnores(KillAll(s1, order), Delete(s, iodOrder, orders, order));
  }

  lemma TakeReadBufOk(s: State, id: nat)
    requires Inv(s)
    ensures Inv(TakeReadBuf(s, id))
  {
    hide IdsOk, EventsOk, IodsOk, ConnectionsOk, StrictBut;
    if id in s.readBufs {
      TakeReadBufRest(s, id);
      TakeReadBufEvents(s, id);
      IodsFrame(s, TakeReadBuf(s, id));
      ConnectionsKept(s, TakeReadBuf(s, id), Fire(id, Kill, 0));
    }
  }

  lemma TakeReadBufRest(s: State, id: nat)
    requires IdsOk(s) && StrictBut(s, []) && id in s.readBufs
    ensures IdsOk(TakeReadBuf(s, id)) && StrictBut(TakeReadBuf(s, id), [])
  {
    hide Unfinished;
  }

  lemma TakeReadBufEvents(s: State, id: nat)
    requires IdsOk(s) && EventsOk(s) && id in s.readBufs
    ensures EventsOk(TakeReadBuf(s, id))
  {
    var s' := TakeReadBuf(s, id);
    hide EventOk;
    forall j | j in s'.hist.traces
      ensures EventOk(s', j)
    {
      assert EventOk(s, j);
      if j == id {
        TakenEvent(s, id);
      } else {
        EventFrame(s, s', j);
      }
    }
  }

  lemma TakenEvent(s: State, id: nat)
    requires id in s.hist.traces && EventOk(s, id) && id in s.readBufs
    ensures EventOk(TakeReadBuf(s, id), id)
  {
    hide TraceOk, FireOk, FiresOf;
  }
}
