/** The loop's own steps keep the pool invariant: connect results, socket I/O, a whole pass. */
module PoolSteps {
  import opened Bytes
  import opened PoolModel
  import opened PoolInvariant

  // ----- Connect results -----

  lemma ConnectedOk(s: State, i: nat)
    requires WeakInv(s)
    ensures WeakInv(Connected(s, i))
    ensures forall todo | StrictBut(s, todo) :: StrictBut(Connected(s, i), todo)
    ensures Connected(s, i).pending == s.pending && Connected(s, i).hist.traces == s.hist.traces
    ensures Connected(s, i).readBufs == s.readBufs && Connected(s, i).hist.log == s.hist.log
    ensures Connected(s, i).hist.taken == s.hist.taken
    ensures Connected(s, i).hist.born == s.hist.born && Connected(s, i).hist.udpPeers == s.hist.udpPeers
  {
    if i in s.iods {
      SetKindOk(s, i, s.iods[i].(tcp := true, kind := Tcp, connected := true));
    }
  }

  /** A connect that fires marks its descriptor, and marks no other. */
  lemma ConnectFired(s: State, s': State, i: nat, f: Fire)
    requires IdsOk(s) && IodsOk(s) && ConnectionsOk(s)
    requires f.status == Success && f.id in s.hist.traces
    requires s.hist.traces[f.id].kind == Connect && s.hist.traces[f.id].iod == Some(i)
    requires s'.hist.log == s.hist.log + [f] && s'.hist.traces == s.hist.traces
    requires s'.iods == Connected(s, i).iods
    requires s'.hist.born == s.hist.born && s'.hist.udpPeers == s.hist.udpPeers
    ensures ConnectionsOk(s')
  {
    var n := |s.hist.log|;
    assert s'.hist.log[n] == f;
    forall j | j in s'.iods && j !in s'.hist.udpPeers && j in s'.hist.born
      ensures s'.iods[j].connected <==> ConnectedSince(s'.hist, s'.hist.born[j], j)
    {
      assert IodOk(s, j);
      var from := s.hist.born[j];
      if j == i {
        assert IsConnectSuccess(s'.hist.traces, s'.hist.log[n], i);
      } else {
        assert !IsConnectSuccess(s'.hist.traces, f, j);
        assert forall k | 0 <= k < n :: s'.hist.log[k] == s.hist.log[k];
        if ConnectedSince(s.hist, from, j) {
          var k :| from <= k < n && IsConnectSuccess(s.hist.traces, s.hist.log[k], j);
          assert IsConnectSuccess(s'.hist.traces, s'.hist.log[k], j);
        }
        if ConnectedSince(s'.hist, from, j) {
          var k :| from <= k < n + 1 && IsConnectSuccess(s'.hist.traces, s'.hist.log[k], j);
          assert k < n;
        }
      }
    }
  }

  lemma DrainOneOk(s: State, cmd: Cmd, order: seq<nat>)
    requires Inv(s)
    ensures Inv(DrainOne(s, cmd, order))
    ensures DrainOne(s, cmd, order).pending.Keys <= s.pending.Keys
  {
    hide IdsOk, EventsOk, IodsOk, ConnectionsOk, StrictBut;
    match cmd
    case Quit =>
      InvIgnores(s, DrainOne(s, cmd, order));
    case ConnectResult(i, ok, attempt) =>
      match FirstConnect(s.pending, order, i)
      case None =>
      case Some(id) => DrainConnect(s, i, ok, attempt, id, order);
  }

  lemma DrainConnect(s: State, i: nat, ok: bool, attempt: nat, id: nat, order: seq<nat>)
    requires Inv(s) && FirstConnect(s.pending, order, i) == Some(id)
    ensures Inv(DrainOne(s, ConnectResult(i, ok, attempt), order))
    ensures DrainOne(s, ConnectResult(i, ok, attempt), order).pending == s.pending - {id}
  {
    hide EventsOk, IodsOk, ConnectionsOk, StrictBut, IdsOk;
    LiveEntry(s, id);
    var s1 := if ok then Connected(s, i) else s;
    ConnectedOk(s, i);
    var f := Fire(id, if ok then Success else Error, s.hist.clock);
    var s' := DrainOne(s, ConnectResult(i, ok, attempt), order);
    assert FireOk(s.hist.traces[id], f);
    assert s1.hist.clock == s.hist.clock;
    assert s.pending[id].kind == Connect;
    assert s' == FireAndDrop(s1, f, false) by {
      assert s1.readBufs - {id} == s1.readBufs;
    }
    FireAndDropOk(s1, f, false);
    DropStrict(s1, s');
    if ok {
      ConnectFired(s, s', i, f);
    } else {
      ConnectionsKept(s, s', f);
    }
  }

  lemma DropStrict(s: State, s': State)
    requires StrictBut(s, []) && s'.hist.traces == s.hist.traces
    requires forall id | id in s'.pending :: id in s.pending && s'.pending[id] == s.pending[id]
    ensures StrictBut(s', [])
  {
    hide Unfinished;
  }

  lemma {:induction false} DrainOk(s: State, cmds: seq<Cmd>, orders: nat -> seq<nat>, k: nat)
    requires Inv(s)
    ensures Inv(Drain(s, cmds, orders, k))
    ensures Drain(s, cmds, orders, k).pending.Keys <= s.pending.Keys
    decreases |cmds|
  {
    hide Inv;
    if cmds != [] {
      DrainOneOk(s, cmds[0], orders(k));
      DrainOk(DrainOne(s, cmds[0], orders(k)), cmds[1..], orders, k + 1);
    }
  }

  // ----- Socket I/O -----

  /** Event `id` may be served: live, not scheduled, unfinished. */
  ghost predicate Servable(s: State, id: nat, todo: seq<Fire>) {
    && WeakInv(s) && ConnectionsOk(s) && TodoOk(s, todo) && StrictBut(s, todo)
    && Live(s, id) && !Scheduled(todo, id)
  }

  lemma SameSumOthers(s: State, id: nat, t: Trace)
    requires IdsOk(s) && id in s.hist.traces && t.iod == s.hist.traces[id].iod
    ensures forall i: nat ::
      && SumRead(s.hist.traces[id := t], i, s.eventCounter) ==
         SumRead(s.hist.traces, i, s.eventCounter)
         + (if t.iod == Some(i) then Total(t.chunks) - Total(s.hist.traces[id].chunks) else 0)
      && SumSent(s.hist.traces[id := t], i, s.eventCounter) ==
         SumSent(s.hist.traces, i, s.eventCounter)
         + (if t.iod == Some(i) then |t.sent| - |s.hist.traces[id].sent| else 0)
  {
    forall i: nat
      ensures SumRead(s.hist.traces[id := t], i, s.eventCounter) ==
              SumRead(s.hist.traces, i, s.eventCounter)
              + (if t.iod == Some(i) then Total(t.chunks) - Total(s.hist.traces[id].chunks) else 0)
      ensures SumSent(s.hist.traces[id := t], i, s.eventCounter) ==
              SumSent(s.hist.traces, i, s.eventCounter)
              + (if t.iod == Some(i) then |t.sent| - |s.hist.traces[id].sent| else 0)
    {
      SumUpdate(s.hist.traces, id, t, i, s.eventCounter);
    }
  }

  /** Moving bytes for one event leaves the others and the schedule alone. */
  lemma CreditFrame(s: State, s': State, id: nat, todo: seq<Fire>)
    requires Servable(s, id, todo)
    requires id in s.hist.traces && id in s'.hist.traces
    requires s'.hist.log == s.hist.log && s'.hist.silenced == s.hist.silenced && s'.readBufs == s.readBufs
    requires s'.hist.taken == s.hist.taken
    requires s'.iods.Keys == s.iods.Keys
    requires s'.pending.Keys == s.pending.Keys && s'.hist.traces.Keys == s.hist.traces.Keys
    requires forall j | j in s.pending && j != id :: s'.pending[j] == s.pending[j]
    requires forall j | j in s.hist.traces && j != id :: s'.hist.traces[j] == s.hist.traces[j]
    requires !s'.pending[id].done
    requires EventOk(s', id)
    ensures EventsOk(s') && TodoOk(s', todo)
    ensures forall j | j in s'.hist.traces && Live(s', j) && !Scheduled(todo, j) && j != id ::
      Unfinished(s'.pending[j], s'.hist.traces[j])
  {
    hide EventOk, FireOk, Unfinished, IdsOk, IodsOk, ConnectionsOk, FiresOf;
    forall j | j in s'.hist.traces
      ensures EventOk(s', j)
    {
      if j != id {
        assert EventOk(s, j);
        EventFrame(s, s', j);
      }
    }
    forall k | 0 <= k < |todo|
      ensures todo[k].id != id
    {
    }
  }

  lemma CreditReadEvent(s: State, id: nat, i: nat, chunk: Chunk)
    requires id in s.hist.traces && EventOk(s, id) && Live(s, id) && s.pending[id].kind == Read
    requires i in s.iods && ChunkOk(chunk)
    requires s.hist.traces[id].chunks != [] ==> s.hist.traces[id].chunks[|s.hist.traces[id].chunks| - 1].via == Tcp
    ensures EventOk(CreditRead(s, id, i, chunk, BufWith(s.pending[id], chunk)), id)
  {
    ChunkAppend(s.hist.traces[id].chunks, chunk);
    hide FireOk, FiresOf;
  }

  lemma CreditReadIds(s: State, id: nat, i: nat, chunk: Chunk, buf: seq<byte>)
    requires IdsOk(s) && id in s.pending && i in s.iods && i <= s.iodCounter
    requires id in s.hist.traces && s.hist.traces[id].iod == Some(i)
    ensures IdsOk(CreditRead(s, id, i, chunk, buf))
  {
  }

  lemma CreditReadIods(s: State, id: nat, i: nat, chunk: Chunk, buf: seq<byte>)
    requires IdsOk(s) && IodsOk(s) && id in s.pending && i in s.iods
    requires chunk.via == s.iods[i].kind
    requires id in s.hist.traces && s.hist.traces[id].iod == Some(i)
    requires s.hist.traces[id].chunks != [] ==> s.hist.traces[id].chunks[|s.hist.traces[id].chunks| - 1].via == Tcp
    ensures IodsOk(CreditRead(s, id, i, chunk, buf))
  {
    var s' := CreditRead(s, id, i, chunk, buf);
    ChunkAppend(s.hist.traces[id].chunks, chunk);
    SameSumOthers(s, id, s'.hist.traces[id]);
    hide IdsOk, Total, SumRead, SumSent;
    forall j | j in s'.iods
      ensures IodOk(s', j)
    {
      assert IodOk(s, j);
      if j == i {
        CreditUniform(s.hist.traces[id].chunks, chunk);
      }
    }
  }

  lemma CreditUniform(chunks: seq<Chunk>, chunk: Chunk)
    requires chunks != [] ==> chunks[|chunks| - 1].via == Tcp
    ensures Uniform(chunks, chunk.via) ==> Uniform(chunks + [chunk], chunk.via)
  {
  }

  function BufWith(e: Pending, chunk: Chunk): seq<byte> {
    if chunk.via == Udp then chunk.bytes else e.buf + chunk.bytes
  }

  predicate FinishedBy(e: Pending, chunk: Chunk) {
    chunk.via == Udp || Complete(e.lineRead, e.target, BufWith(e, chunk))
  }

  /** The chunk that completes a read entitles it to `Success`; any other leaves it unfinished. */
  lemma ReadProgress(e: Pending, t: Trace, chunk: Chunk, f: Fire)
    requires Agrees(e, t) && Unfinished(e, t) && TraceOk(t) && e.kind == Read && ChunkOk(chunk)
    requires f.status == Success
    ensures var t' := t.(chunks := t.chunks + [chunk], buf := BufWith(e, chunk));
            if FinishedBy(e, chunk) then FireOk(t', f) else Unfinished(e.(buf := BufWith(e, chunk)), t')
  {
    assert (t.chunks + [chunk])[..|t.chunks|] == t.chunks;
  }

  /** Bytes read: the event either stays unfinished or is scheduled with a status it is entitled to. */
  lemma CreditReadOk(s: State, id: nat, i: nat, chunk: Chunk, todo: seq<Fire>, at: nat)
    requires Servable(s, id, todo) && s.pending[id].kind == Read && s.pending[id].iod == Some(i) && i in s.iods
    requires ChunkOk(chunk) && chunk.via == s.iods[i].kind
    ensures var e := s.pending[id];
            PhaseOk(CreditRead(s, id, i, chunk, BufWith(e, chunk)),
                    if FinishedBy(e, chunk) then todo + [Fire(id, Success, at)] else todo)
  {
    hide Servable, PhaseOk, FireOk, Unfinished, Agrees, TraceOk, EventOk, FinishedBy, IdsOk, IodsOk, BufWith, ChunkOk;
    hide OnlyServes, CreditRead;
    ServableLive(s, id, todo);
    var e := s.pending[id];
    ServableRead(s, id, i, chunk, BufWith(e, chunk), todo);
    var s' := CreditRead(s, id, i, chunk, BufWith(e, chunk));
    CreditReadParts(s, id, i, chunk, todo, Fire(id, Success, at));
    if FinishedBy(e, chunk) {
      ServedFires(s, s', todo, Fire(id, Success, at));
    } else {
      ServedStays(s, s', id, todo);
    }
  }

  lemma ServableLive(s: State, id: nat, todo: seq<Fire>)
    requires Servable(s, id, todo)
    ensures Live(s, id)
  {
  }

  lemma ServableRead(s: State, id: nat, i: nat, chunk: Chunk, buf: seq<byte>, todo: seq<Fire>)
    requires Servable(s, id, todo) && s.pending[id].kind == Read && i in s.iods
    ensures OnlyServes(s, CreditRead(s, id, i, chunk, buf), id)
  {
    hide Servable, OnlyServes, TraceOk, EventOk, Agrees, Unfinished;
    ServableLive(s, id, todo);
    ServedEvent(s, id, todo);
    CreditReadServes(s, id, i, chunk, buf);
  }

  lemma CreditReadParts(s: State, id: nat, i: nat, chunk: Chunk, todo: seq<Fire>, f: Fire)
    requires Servable(s, id, todo) && s.pending[id].kind == Read && s.pending[id].iod == Some(i) && i in s.iods
    requires ChunkOk(chunk) && chunk.via == s.iods[i].kind && f.status == Success
    ensures var e := s.pending[id];
            var s' := CreditRead(s, id, i, chunk, BufWith(e, chunk));
            && id in s.hist.traces
            && EventOk(s', id) && IdsOk(s') && IodsOk(s')
            && (if FinishedBy(e, chunk) then FireOk(s'.hist.traces[id], f)
                else Unfinished(s'.pending[id], s'.hist.traces[id]))
  {
    var e, t := s.pending[id], TraceOf(s.hist, id);
    ServedEvent(s, id, todo);
    assert IodOk(s, i);
    hide TodoOk, StrictBut, ConnectionsOk, EventOk, FireOk, Unfinished, Agrees, TraceOk, FinishedBy, EventsOk, BufWith;
    CreditReadEvent(s, id, i, chunk);
    ReadProgress(e, t, chunk, f);
    hide IodsOk, IdsOk;
    CreditReadIds(s, id, i, chunk, BufWith(e, chunk));
    CreditReadIods(s, id, i, chunk, BufWith(e, chunk));
  }

  /** What is known of an event about to be served. */
  lemma ServedEvent(s: State, id: nat, todo: seq<Fire>)
    requires Servable(s, id, todo)
    ensures id in s.hist.traces && EventOk(s, id) && TraceOk(s.hist.traces[id])
    ensures Agrees(s.pending[id], s.hist.traces[id]) && Unfinished(s.pending[id], s.hist.traces[id])
    ensures var chunks := s.hist.traces[id].chunks; chunks != [] ==> chunks[|chunks| - 1].via == Tcp
    ensures s.pending[id].iod == s.hist.traces[id].iod && s.pending[id].kind == s.hist.traces[id].kind
  {
    LiveEntry(s, id);
    assert EventOk(s, id);
    hide Agrees;
    assert Unfinished(s.pending[id], s.hist.traces[id]);
    AgreesFields(s.pending[id], s.hist.traces[id]);
  }

  lemma AgreesFields(e: Pending, t: Trace)
    requires Agrees(e, t)
    ensures e.iod == t.iod && e.kind == t.kind
  {
  }

  /** What holds between two I/O attempts of a pass. */
  ghost predicate PhaseOk(s: State, todo: seq<Fire>) {
    WeakInv(s) && ConnectionsOk(s) && TodoOk(s, todo) && StrictBut(s, todo)
  }

  /** Serving event `id` touches its entry, its trace and byte counts, and nothing else. */
  ghost predicate OnlyServes(s: State, s': State, id: nat) {
    && s'.hist.log == s.hist.log && s'.hist.silenced == s.hist.silenced && s'.readBufs == s.readBufs
    && s'.hist.taken == s.hist.taken
    && s'.iods.Keys == s.iods.Keys && (forall j | j in s.iods :: s'.iods[j].connected == s.iods[j].connected)
    && s'.hist.born == s.hist.born && s'.hist.udpPeers == s.hist.udpPeers
    && s'.pending.Keys == s.pending.Keys && s'.hist.traces.Keys == s.hist.traces.Keys
    && (forall j | j in s.pending && j != id :: s'.pending[j] == s.pending[j])
    && (forall j | j in s.hist.traces && j != id :: s'.hist.traces[j] == s.hist.traces[j])
    && id in s.hist.traces && id in s.pending
    && s'.hist.traces[id].kind == s.hist.traces[id].kind != Connect && s'.hist.traces[id].iod == s.hist.traces[id].iod
    && !s'.pending[id].done
  }

  lemma CreditReadServes(s: State, id: nat, i: nat, chunk: Chunk, buf: seq<byte>)
    requires Live(s, id) && id in s.hist.traces && s.hist.traces[id].kind == Read && i in s.iods
    ensures OnlyServes(s, CreditRead(s, id, i, chunk, buf), id)
  {
  }

  lemma CreditWriteServes(s: State, id: nat, i: nat, bytes: seq<byte>, wbuf: Option<seq<byte>>)
    requires Live(s, id) && id in s.hist.traces && s.hist.traces[id].kind == Write && i in s.iods
    ensures OnlyServes(s, CreditWrite(s, id, i, bytes, wbuf), id)
  {
  }

  /** The served event stays: it has work left. */
  lemma ServedStays(s: State, s': State, id: nat, todo: seq<Fire>)
    requires Servable(s, id, todo) && OnlyServes(s, s', id)
    requires EventOk(s', id) && IdsOk(s') && IodsOk(s')
    requires Unfinished(s'.pending[id], s'.hist.traces[id])
    ensures PhaseOk(s', todo)
  {
    hide IdsOk, EventsOk, IodsOk, ConnectionsOk, TodoOk, EventOk, FireOk, Unfinished, Scheduled;
    CreditFrame(s, s', id, todo);
    CreditConnections(s, s', id);
  }

  /** The served event is scheduled for delivery. */
  lemma ServedFires(s: State, s': State, todo: seq<Fire>, f: Fire)
    requires Servable(s, f.id, todo) && OnlyServes(s, s', f.id)
    requires EventOk(s', f.id) && IdsOk(s') && IodsOk(s')
    requires FireOk(s'.hist.traces[f.id], f) && Delivered(f.status)
    ensures PhaseOk(s', todo + [f])
  {
    hide IdsOk, EventsOk, IodsOk, ConnectionsOk, TodoOk, StrictBut, EventOk, FireOk, Unfinished, Scheduled;
    CreditFrame(s, s', f.id, todo);
    CreditConnections(s, s', f.id);
    Schedule(s', todo, f);
  }

  lemma CreditConnections(s: State, s': State, id: nat)
    requires IdsOk(s) && ConnectionsOk(s)
    requires id in s.hist.traces && id in s'.hist.traces
    requires s'.hist.log == s.hist.log
    requires s'.iods.Keys == s.iods.Keys && forall j | j in s.iods :: s'.iods[j].connected == s.iods[j].connected
    requires s'.hist.born == s.hist.born && s'.hist.udpPeers == s.hist.udpPeers
    requires s'.hist.traces.Keys == s.hist.traces.Keys
    requires forall j | j in s.hist.traces && j != id :: s'.hist.traces[j] == s.hist.traces[j]
    requires s'.hist.traces[id].kind == s.hist.traces[id].kind && s'.hist.traces[id].iod == s.hist.traces[id].iod
    ensures ConnectionsOk(s')
  {
    hide ConnectionsOk, IdsOk;
    ConnectionsFrame(s, s');
  }

  lemma Schedule(s: State, todo: seq<Fire>, f: Fire)
    requires TodoOk(s, todo) && !Scheduled(todo, f.id) && Live(s, f.id) && f.id in s.hist.traces
    requires s.hist.traces[f.id].kind != Connect
    requires FireOk(s.hist.traces[f.id], f) && Delivered(f.status)
    requires forall j | j in s.hist.traces && Live(s, j) && !Scheduled(todo, j) && j != f.id ::
      Unfinished(s.pending[j], s.hist.traces[j])
    ensures TodoOk(s, todo + [f]) && StrictBut(s, todo + [f])
  {
    hide FireOk, Unfinished;
    var all := todo + [f];
    forall j: nat
      ensures Scheduled(all, j) <==> Scheduled(todo, j) || j == f.id
    {
      if k :| 0 <= k < |todo| && todo[k].id == j {
        assert all[k].id == j;
      }
      assert all[|todo|].id == f.id;
    }
    forall k | 0 <= k < |todo|
      ensures todo[k].id != f.id
    {
    }
  }

  lemma NothingScheduled(s: State, id: nat, todo: seq<Fire>)
    requires Servable(s, id, todo)
    ensures PhaseOk(s, todo)
  {
  }

  /** A socket error or end of stream: no bytes move and the event is scheduled. */
  lemma FailOk(s: State, id: nat, todo: seq<Fire>, f: Fire)
    requires Servable(s, id, todo) && f.id == id && (f.status == Error || f.status == Eof)
    requires s.pending[id].kind == Read || s.pending[id].kind == Write
    ensures PhaseOk(s, todo + [f])
  {
    assert Live(s, id);
    hide IdsOk, EventsOk, IodsOk, ConnectionsOk, TodoOk, FireOk, Agrees, Unfinished, Scheduled;
    LiveEntry(s, id);
    assert Unfinished(s.pending[id], s.hist.traces[id]);
    FailEntitled(s.pending[id], s.hist.traces[id], f);
    Schedule(s, todo, f);
  }

  lemma FailEntitled(e: Pending, t: Trace, f: Fire)
    requires Agrees(e, t) && Unfinished(e, t)
    requires (f.status == Error || f.status == Eof) && (e.kind == Read || e.kind == Write)
    ensures FireOk(t, f) && Delivered(f.status) && t.kind == e.kind
  {
    UnfinishedFires(e, t, f);
  }

  lemma TryReadOk(s: State, id: nat, r: ReadResult, todo: seq<Fire>, at: nat)
    requires Servable(s, id, todo) && s.pending[id].kind == Read
    ensures var (s', st) := TryRead(s, id, r);
            PhaseOk(s', if st.Some? then todo + [Fire(id, st.value, at)] else todo)
  {
    hide Servable, PhaseOk, CreditRead;
    ServableLive(s, id, todo);
    NothingScheduled(s, id, todo);
    FailOk(s, id, todo, Fire(id, Error, at));
    FailOk(s, id, todo, Fire(id, Eof, at));
    if s.pending[id].iod.Some? && s.pending[id].iod.value in s.iods && r.Data? {
      var i := s.pending[id].iod.value;
      if s.iods[i].kind == Udp {
        CreditReadOk(s, id, i, Chunk(Udp, Take(r.offered, DATAGRAM)), todo, at);
      } else if Take(r.offered, READ_CHUNK) != [] {
        CreditReadOk(s, id, i, Chunk(Tcp, Take(r.offered, READ_CHUNK)), todo, at);
      }
    }
  }

  lemma CreditWriteEvent(s: State, id: nat, i: nat, bytes: seq<byte>, wbuf: Option<seq<byte>>)
    requires id in s.hist.traces && EventOk(s, id) && Live(s, id) && s.pending[id].kind == Write
    requires i in s.iods && s.pending[id].wbuf.Some? && bytes + Unsent(wbuf) == s.pending[id].wbuf.value
    ensures EventOk(CreditWrite(s, id, i, bytes, wbuf), id)
  {
    var t := s.hist.traces[id];
    assert t.sent + bytes + Unsent(wbuf) == t.data;
    hide FireOk, FiresOf;
  }

  lemma CreditWriteIods(s: State, id: nat, i: nat, bytes: seq<byte>, wbuf: Option<seq<byte>>)
    requires IdsOk(s) && IodsOk(s) && id in s.pending && i in s.iods && i <= s.iodCounter
    requires id in s.hist.traces && s.hist.traces[id].iod == Some(i)
    ensures IdsOk(CreditWrite(s, id, i, bytes, wbuf)) && IodsOk(CreditWrite(s, id, i, bytes, wbuf))
  {
    var s' := CreditWrite(s, id, i, bytes, wbuf);
    SameSumOthers(s, id, s'.hist.traces[id]);
    forall j | j in s'.iods
      ensures IodOk(s', j)
    {
      assert IodOk(s, j);
    }
  }

  /** A write that has nothing left is entitled to `Success`; any other is unfinished. */
  lemma WriteProgress(e: Pending, t: Trace, bytes: seq<byte>, wbuf: Option<seq<byte>>, f: Fire)
    requires Agrees(e, t) && Unfinished(e, t) && TraceOk(t) && e.kind == Write && e.wbuf.Some?
    requires bytes + Unsent(wbuf) == e.wbuf.value && wbuf != Some([])
    requires f.status == Success
    ensures var t' := t.(sent := t.sent + bytes);
            if wbuf.None? then FireOk(t', f) else Unfinished(e.(wbuf := wbuf), t')
  {
    assert t.sent + bytes + Unsent(wbuf) == t.data;
  }

  /** Bytes accepted: the event succeeds exactly when nothing is left to send. */
  lemma CreditWriteOk(s: State, id: nat, i: nat, bytes: seq<byte>, wbuf: Option<seq<byte>>, todo: seq<Fire>, at: nat)
    requires Servable(s, id, todo) && s.pending[id].kind == Write && s.pending[id].iod == Some(i) && i in s.iods
    requires s.pending[id].wbuf.Some? && bytes + Unsent(wbuf) == s.pending[id].wbuf.value && wbuf != Some([])
    ensures PhaseOk(CreditWrite(s, id, i, bytes, wbuf), if wbuf.None? then todo + [Fire(id, Success, at)] else todo)
  {
    hide Servable, PhaseOk, FireOk, Unfinished, Agrees, TraceOk, EventOk, IdsOk, IodsOk, Unsent, OnlyServes;
    hide CreditWrite;
    ServableWrite(s, id, i, bytes, wbuf, todo);
    var s' := CreditWrite(s, id, i, bytes, wbuf);
    CreditWriteParts(s, id, i, bytes, wbuf, todo, Fire(id, Success, at));
    if wbuf.None? {
      ServedFires(s, s', todo, Fire(id, Success, at));
    } else {
      ServedStays(s, s', id, todo);
    }
  }

  lemma ServableWrite(s: State, id: nat, i: nat, bytes: seq<byte>, wbuf: Option<seq<byte>>, todo: seq<Fire>)
    requires Servable(s, id, todo) && s.pending[id].kind == Write && i in s.iods
    ensures id in s.pending && OnlyServes(s, CreditWrite(s, id, i, bytes, wbuf), id)
  {
    hide Servable, OnlyServes, TraceOk, EventOk, Agrees, Unfinished;
    ServableLive(s, id, todo);
    ServedEvent(s, id, todo);
    CreditWriteServes(s, id, i, bytes, wbuf);
  }

  lemma CreditWriteParts(s: State, id: nat, i: nat, bytes: seq<byte>, wbuf: Option<seq<byte>>, todo: seq<Fire>, f: Fire)
    requires Servable(s, id, todo) && s.pending[id].kind == Write && s.pending[id].iod == Some(i) && i in s.iods
    requires s.pending[id].wbuf.Some? && bytes + Unsent(wbuf) == s.pending[id].wbuf.value && wbuf != Some([])
    requires f.status == Success
    ensures var s' := CreditWrite(s, id, i, bytes, wbuf);
            && id in s.hist.traces
            && EventOk(s', id) && IdsOk(s') && IodsOk(s')
            && (if wbuf.None? then FireOk(s'.hist.traces[id], f)
                else Unfinished(s'.pending[id], s'.hist.traces[id]))
  {
    ServedEvent(s, id, todo);
    assert IodOk(s, i);
    hide TodoOk, StrictBut, ConnectionsOk, EventOk, FireOk, Unfinished, Agrees, TraceOk, EventsOk;
    CreditWriteEvent(s, id, i, bytes, wbuf);
    WriteProgress(s.pending[id], TraceOf(s.hist, id), bytes, wbuf, f);
    hide IodsOk, IdsOk;
    CreditWriteIods(s, id, i, bytes, wbuf);
  }

  lemma TryWriteOk(s: State, id: nat, r: WriteResult, todo: seq<Fire>, at: nat)
    requires Servable(s, id, todo) && s.pending[id].kind == Write
    ensures var (s', st) := TryWrite(s, id, r);
            PhaseOk(s', if st.Some? then todo + [Fire(id, st.value, at)] else todo)
  {
    hide Servable, PhaseOk;
    ServableLive(s, id, todo);
    var e := s.pending[id];
    if e.iod.Some? && e.iod.value in s.iods && e.wbuf.Some? && r.Accepts? {
      hide TryWrite;
      TryWriteAccepts(s, id, r.n, todo, at);
    } else {
      hide CreditWrite, Take;
      NothingScheduled(s, id, todo);
      if r.WriteFailed? {
        FailOk(s, id, todo, Fire(id, Error, at));
      }
    }
  }

  lemma TryWriteAccepts(s: State, id: nat, n: nat, todo: seq<Fire>, at: nat)
    requires Servable(s, id, todo) && s.pending[id].kind == Write
    requires s.pending[id].iod.Some? && s.pending[id].iod.value in s.iods && s.pending[id].wbuf.Some?
    ensures var (s', st) := TryWrite(s, id, Accepts(n));
            PhaseOk(s', if st.Some? then todo + [Fire(id, st.value, at)] else todo)
  {
    assert Live(s, id);
    var i, data := s.pending[id].iod.value, s.pending[id].wbuf.value;
    var udp := s.iods[i].kind == Udp;
    var bytes := if udp then data else Take(data, n);
    if bytes == [] && !udp {
      hide Servable, PhaseOk, CreditWrite;
      NothingScheduled(s, id, todo);
      FailOk(s, id, todo, Fire(id, Eof, at));
    } else {
      TryWriteSome(s, id, n, bytes, todo, at);
    }
  }

  lemma TryWriteSome(s: State, id: nat, n: nat, bytes: seq<byte>, todo: seq<Fire>, at: nat)
    requires Servable(s, id, todo) && s.pending[id].kind == Write
    requires s.pending[id].iod.Some? && s.pending[id].iod.value in s.iods && s.pending[id].wbuf.Some?
    requires var i, data := s.pending[id].iod.value, s.pending[id].wbuf.value;
             && bytes == (if s.iods[i].kind == Udp then data else Take(data, n))
             && (bytes != [] || s.iods[i].kind == Udp)
    ensures var (s', st) := TryWrite(s, id, Accepts(n));
            PhaseOk(s', if st.Some? then todo + [Fire(id, st.value, at)] else todo)
  {
    assert Live(s, id);
    hide Servable, PhaseOk, CreditWrite, TryWrite, Take;
    NothingScheduled(s, id, todo);
    var i, data := s.pending[id].iod.value, s.pending[id].wbuf.value;
    var rest := data[|bytes|..];
    var wbuf := if rest == [] then None else Some(rest);
    assert bytes + Unsent(wbuf) == data;
    TryWriteIs(s, id, n, i, bytes, wbuf);
    hide Unsent;
    CreditWriteOk(s, id, i, bytes, wbuf, todo, at);
  }

  lemma TryWriteIs(s: State, id: nat, n: nat, i: nat, bytes: seq<byte>, wbuf: Option<seq<byte>>)
    requires id in s.pending && s.pending[id].iod == Some(i) && i in s.iods && s.pending[id].wbuf.Some?
    requires var data := s.pending[id].wbuf.value;
             && bytes == (if s.iods[i].kind == Udp then data else Take(data, n))
             && wbuf == (if data[|bytes|..] == [] then None else Some(data[|bytes|..]))
             && (bytes != [] || s.iods[i].kind == Udp)
    ensures TryWrite(s, id, Accepts(n)) ==
            if (if s.iods[i].kind == Tcp then s.iods[i].tcp else s.iods[i].udp)
            then (CreditWrite(s, id, i, bytes, wbuf), if wbuf.None? then Some(Success) else None)
            else (s, None)
  {
    hide CreditWrite;
  }

  // ----- A whole pass -----

  /** I/O neither adds, removes nor settles events. */
  lemma TryIoKeeps(s: State, id: nat, p: Pass)
    ensures SameEntries(s, TryIo(s, id, p).0)
  {
    TryReadKeeps(s, id, p.readable(id));
    TryWriteKeeps(s, id, p.writable(id));
    hide SameEntries, TryRead, TryWrite;
    assert SameEntries(s, s) by {
      SameEntriesRefl(s);
    }
  }

  /** Same events, with the same kinds, deadlines and settlement. */
  ghost predicate SameEntries(s: State, s': State) {
    && s'.pending.Keys == s.pending.Keys
    && forall j | j in s.pending ::
         && s'.pending[j].done == s.pending[j].done
         && s'.pending[j].deadline == s.pending[j].deadline
         && s'.pending[j].kind == s.pending[j].kind
  }

  lemma SameEntriesRefl(s: State)
    ensures SameEntries(s, s)
  {
  }

  lemma TryReadKeeps(s: State, id: nat, r: ReadResult)
    ensures SameEntries(s, TryRead(s, id, r).0)
  {
  }

  lemma TryWriteKeeps(s: State, id: nat, r: WriteResult)
    ensures SameEntries(s, TryWrite(s, id, r).0)
  {
  }

  lemma TryIoOk(s: State, id: nat, p: Pass, todo: seq<Fire>)
    requires PhaseOk(s, todo) && Live(s, id) && !Scheduled(todo, id)
    ensures var (s', st) := TryIo(s, id, p);
            PhaseOk(s', if st.Some? then todo + [Fire(id, st.value, p.now)] else todo)
  {
    assert Servable(s, id, todo);
    hide Servable, PhaseOk, TryRead, TryWrite;
    match s.pending[id].kind
    case Read => TryReadOk(s, id, p.readable(id), todo, p.now);
    case Write => TryWriteOk(s, id, p.writable(id), todo, p.now);
    case _ =>
  }

  lemma {:induction false} IoPhaseOk(s: State, ids: seq<nat>, p: Pass, todo: seq<Fire>)
    requires PhaseOk(s, todo) && forall k | 0 <= k < |ids| :: Live(s, ids[k])
    ensures var (s', todo') := IoPhase(s, ids, p, todo);
            && PhaseOk(s', todo')
            && SameEntries(s, s')
            && todo <= todo'
    decreases |ids|
  {
    hide PhaseOk, Scheduled;
    if ids != [] {
      assert forall k | 0 <= k < |ids[1..]| :: ids[1..][k] == ids[k + 1];
      if Scheduled(todo, ids[0]) {
        IoPhaseOk(s, ids[1..], p, todo);
      } else {
        TryIoKeeps(s, ids[0], p);
        TryIoOk(s, ids[0], p, todo);
        hide TryIo;
        var (s', st) := TryIo(s, ids[0], p);
        IoPhaseOk(s', ids[1..], p, if st.Some? then todo + [Fire(ids[0], st.value, p.now)] else todo);
      }
    }
  }

  lemma {:induction false} LiveIdsAre(pending: map<nat, Pending>, order: seq<nat>)
    requires NoDuplicates(order)
    ensures NoDuplicates(LiveIds(pending, order))
    ensures forall id :: id in LiveIds(pending, order) <==> id in order && id in pending && !pending[id].done
  {
    if order != [] {
      assert forall k | 0 <= k < |order[1..]| :: order[1..][k] == order[k + 1];
      LiveIdsAre(pending, order[1..]);
    }
  }

  predicate DueEntry(pending: map<nat, Pending>, ids: seq<nat>, now: nat, f: Fire) {
    && f.id in ids && f.id in pending && IsDue(pending[f.id], now)
    && f == Fire(f.id, DueStatus(pending[f.id]), now)
  }

  /** The deadline scan schedules exactly the events whose deadline has been reached. */
  lemma {:induction false} DueAre(pending: map<nat, Pending>, ids: seq<nat>, now: nat)
    requires NoDuplicates(ids) && forall k | 0 <= k < |ids| :: ids[k] in pending
    ensures forall j, k | 0 <= j < k < |Due(pending, ids, now)| ::
      Due(pending, ids, now)[j].id != Due(pending, ids, now)[k].id
    ensures forall k | 0 <= k < |Due(pending, ids, now)| :: DueEntry(pending, ids, now, Due(pending, ids, now)[k])
    ensures forall id | id in ids && IsDue(pending[id], now) :: Scheduled(Due(pending, ids, now), id)
  {
    if ids != [] {
      var tail := ids[1..];
      assert forall k | 0 <= k < |tail| :: tail[k] == ids[k + 1];
      DueAre(pending, tail, now);
      var rest, due := Due(pending, tail, now), Due(pending, ids, now);
      forall k | 0 <= k < |rest|
        ensures DueEntry(pending, ids, now, rest[k]) && rest[k].id != ids[0]
      {
        assert DueEntry(pending, tail, now, rest[k]);
      }
      assert forall id | id in ids :: id == ids[0] || id in tail;
      if IsDue(pending[ids[0]], now) {
        var first := Fire(ids[0], DueStatus(pending[ids[0]]), now);
        assert due == [first] + rest && due[0] == first && due[1..] == rest;
        hide Due, DueEntry, IsDue;
        forall id: nat
          ensures Scheduled(due, id) <==> id == ids[0] || Scheduled(rest, id)
        {
          ScheduledSplit(due, id);
        }
      } else {
        assert due == rest;
      }
    }
  }

  lemma DueOk(s: State, ids: seq<nat>, now: nat)
    requires Inv(s) && NoDuplicates(ids) && forall k | 0 <= k < |ids| :: Live(s, ids[k])
    ensures PhaseOk(s, Due(s.pending, ids, now))
  {
    var due := Due(s.pending, ids, now);
    DueAre(s.pending, ids, now);
    hide ConnectionsOk, IodsOk, Scheduled, FireOk, Unfinished, Agrees, IsDue, DueStatus;
    forall k | 0 <= k < |due|
      ensures Live(s, due[k].id) && due[k].id in s.hist.traces && FireOk(s.hist.traces[due[k].id], due[k])
      ensures s.hist.traces[due[k].id].kind == Connect ==> due[k].status == Timeout
      ensures Delivered(due[k].status)
    {
      assert DueEntry(s.pending, ids, now, due[k]);
      LiveEntry(s, due[k].id);
      LiveUnfinished(s, due[k].id);
      DueEntitled(s.pending[due[k].id], s.hist.traces[due[k].id], due[k], now);
    }
    StrictWeaken(s, due);
  }

  lemma DueEntitled(e: Pending, t: Trace, f: Fire, now: nat)
    requires Agrees(e, t) && Unfinished(e, t) && IsDue(e, now) && f == Fire(f.id, DueStatus(e), now)
    ensures FireOk(t, f) && Delivered(f.status) && (t.kind == Connect ==> f.status == Timeout)
  {
    if f.status == Timeout {
      UnfinishedFires(e, t, f);
    }
  }

  lemma StrictWeaken(s: State, todo: seq<Fire>)
    requires StrictBut(s, [])
    ensures StrictBut(s, todo)
  {
    assert forall id: nat :: !Scheduled([], id);
  }

  /** The state a pass starts its deadline scan from. */
  function Drained(s: State, p: Pass): State {
    Drain(s.(rx := [], hist := s.hist.(clock := p.now)), s.rx + p.arrivals, p.orders, 0)
  }

  lemma PassIsPhases(s: State, p: Pass)
    ensures var d := Drained(s, p);
            var ids := LiveIds(d.pending, p.order);
            var out := IoPhase(d, ids, p, Due(d.pending, ids, p.now));
            PassBody(s, p) == DeliverAll(out.0, out.1)
  {
    hide Due, IoPhase, LiveIds, DeliverAll;
  }

  lemma DrainedOk(s: State, p: Pass)
    requires Inv(s)
    ensures Inv(Drained(s, p))
    ensures Drained(s, p).pending.Keys <= s.pending.Keys
  {
    var start := s.(rx := [], hist := s.hist.(clock := p.now));
    InvIgnores(s, start);
    hide Inv;
    DrainOk(start, s.rx + p.arrivals, p.orders, 0);
  }

  /**
   * A pass keeps the invariant, adds no event, and leaves no live event whose deadline has been
   * reached at its clock reading.
   */
  lemma PassBodyOk(s: State, p: Pass)
    requires Inv(s) && NoDuplicates(p.order)
    ensures Inv(PassBody(s, p))
    ensures forall id | Live(PassBody(s, p), id) ::
      && Live(Drained(s, p), id)
      && Drained(s, p).pending[id].deadline == PassBody(s, p).pending[id].deadline
      && (id in p.order ==> !IsDue(PassBody(s, p).pending[id], p.now))
  {
    hide Inv, PhaseOk;
    var drained := Drained(s, p);
    DrainedOk(s, p);
    var ids := LiveIds(drained.pending, p.order);
    LiveIdsAre(drained.pending, p.order);
    var due := Due(drained.pending, ids, p.now);
    DueOk(drained, ids, p.now);
    DueAre(drained.pending, ids, p.now);
    IoPhaseOk(drained, ids, p, due);
    var (resolved, todo) := IoPhase(drained, ids, p, due);
    PhaseDelivers(resolved, todo);
    ScheduledPrefix(due, todo);
  }

  lemma PhaseDelivers(s: State, todo: seq<Fire>)
    requires PhaseOk(s, todo)
    ensures Inv(DeliverAll(s, todo))
    ensures forall id :: Live(DeliverAll(s, todo), id) <==> Live(s, id) && !Scheduled(todo, id)
    ensures forall id | id in DeliverAll(s, todo).pending ::
      id in s.pending && DeliverAll(s, todo).pending[id] == s.pending[id]
  {
    DeliverAllOk(s, todo);
    DeliverAllKeeps(s, todo);
  }

  lemma {:induction false} DeliverAllKeeps(s: State, todo: seq<Fire>)
    ensures forall id | id in DeliverAll(s, todo).pending ::
      id in s.pending && DeliverAll(s, todo).pending[id] == s.pending[id]
    decreases |todo|
  {
    if todo != [] {
      DeliverAllKeeps(DeliverOne(s, todo[0]), todo[1..]);
    }
  }

  lemma ScheduledPrefix(todo: seq<Fire>, more: seq<Fire>)
    requires todo <= more
    ensures forall id | Scheduled(todo, id) :: Scheduled(more, id)
  {
    forall id | Scheduled(todo, id)
      ensures Scheduled(more, id)
    {
      var k :| 0 <= k < |todo| && todo[k].id == id;
      assert more[k].id == id;
    }
  }
}
