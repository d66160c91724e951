/** Time only adds to the record: calls made stay made, and no event comes back to life. */
module PoolHistory {
  import opened Bytes
  import opened PoolModel
  import opened PoolInvariant
  import opened PoolSteps
  import opened PoolRuns

  predicate TraceGrows(t: Trace, t': Trace) {
    && t'.iod == t.iod && t'.kind == t.kind && t'.deadline == t.deadline && t'.target == t.target
    && t'.lineRead == t.lineRead && t'.data == t.data && t'.orphan == t.orphan
    && t.chunks <= t'.chunks && t.sent <= t'.sent
  }

  /** No call is unmade, no event revived, no byte given back, and none newly silenced. */
  ghost predicate Grows(s: State, s': State) {
    && s.hist.log <= s'.hist.log
    && s'.hist.silenced == s.hist.silenced
    && s.eventCounter <= s'.eventCounter
    && (forall id | id in s.hist.traces ::
          && id in s'.hist.traces
          && TraceGrows(s.hist.traces[id], s'.hist.traces[id])
          && (Live(s', id) ==> Live(s, id)))
  }

  lemma GrowsTrans(a: State, b: State, c: State)
    requires Grows(a, b) && Grows(b, c)
    ensures Grows(a, c)
  {
  }

  lemma GrowsRefl(s: State)
    ensures Grows(s, s)
  {
  }

  lemma {:induction false} DrainGrows(s: State, cmds: seq<Cmd>, orders: nat -> seq<nat>, k: nat)
    ensures Grows(s, Drain(s, cmds, orders, k))
    decreases |cmds|
  {
    if cmds != [] {
      var s1 := DrainOne(s, cmds[0], orders(k));
      assert Grows(s, s1) by {
        DrainOneGrows(s, cmds[0], orders(k));
      }
      DrainGrows(s1, cmds[1..], orders, k + 1);
      hide Grows, DrainOne;
      GrowsTrans(s, s1, Drain(s, cmds, orders, k));
    }
  }

  lemma DrainOneGrows(s: State, cmd: Cmd, order: seq<nat>)
    ensures Grows(s, DrainOne(s, cmd, order))
  {
  }

  predicate Traced(s: State) { s.pending.Keys <= s.hist.traces.Keys }

  lemma CreditReadGrows(s: State, id: nat, i: nat, chunk: Chunk, buf: seq<byte>)
    requires Traced(s) && id in s.pending && i in s.iods
    ensures Grows(s, CreditRead(s, id, i, chunk, buf)) && Traced(CreditRead(s, id, i, chunk, buf))
  {
  }

  lemma CreditWriteGrows(s: State, id: nat, i: nat, bytes: seq<byte>, wbuf: Option<seq<byte>>)
    requires Traced(s) && id in s.pending && i in s.iods
    ensures Grows(s, CreditWrite(s, id, i, bytes, wbuf)) && Traced(CreditWrite(s, id, i, bytes, wbuf))
  {
  }

  lemma TryReadGrows(s: State, id: nat, r: ReadResult)
    requires Traced(s)
    ensures Grows(s, TryRead(s, id, r).0) && Traced(TryRead(s, id, r).0)
  {
    GrowsRefl(s);
    hide Grows, Traced, CreditRead;
    if id in s.pending && s.pending[id].iod.Some? && s.pending[id].iod.value in s.iods && r.Data? {
      var e, i := s.pending[id], s.pending[id].iod.value;
      CreditReadGrows(s, id, i, Chunk(Tcp, Take(r.offered, READ_CHUNK)), e.buf + Take(r.offered, READ_CHUNK));
      CreditReadGrows(s, id, i, Chunk(Udp, Take(r.offered, DATAGRAM)), Take(r.offered, DATAGRAM));
    }
  }

  lemma TryWriteGrows(s: State, id: nat, r: WriteResult)
    requires Traced(s)
    ensures Grows(s, TryWrite(s, id, r).0) && Traced(TryWrite(s, id, r).0)
  {
    GrowsRefl(s);
    hide Grows, Traced, CreditWrite;
    if id in s.pending && s.pending[id].iod.Some? && s.pending[id].iod.value in s.iods && s.pending[id].wbuf.Some?
       && r.Accepts?
    {
      var i, data := s.pending[id].iod.value, s.pending[id].wbuf.value;
      var bytes := Take(data, r.n);
      var rest := data[|bytes|..];
      CreditWriteGrows(s, id, i, bytes, if rest == [] then None else Some(rest));
      CreditWriteGrows(s, id, i, data, None);
    }
  }

  lemma TryIoGrows(s: State, id: nat, p: Pass)
    requires Traced(s)
    ensures Grows(s, TryIo(s, id, p).0) && Traced(TryIo(s, id, p).0)
  {
    hide Grows, Traced, TryRead, TryWrite;
    GrowsRefl(s);
    if id in s.pending && s.pending[id].kind == Read {
      TryReadGrows(s, id, p.readable(id));
    } else if id in s.pending && s.pending[id].kind == Write {
      TryWriteGrows(s, id, p.writable(id));
    } else {
      assert TryIo(s, id, p).0 == s;
    }
  }

  lemma {:induction false} IoPhaseGrows(s: State, ids: seq<nat>, p: Pass, todo: seq<Fire>)
    requires Traced(s)
    ensures Grows(s, IoPhase(s, ids, p, todo).0)
    decreases |ids|
  {
    if ids == [] {
      GrowsRefl(s);
    } else if Scheduled(todo, ids[0]) {
      IoPhaseGrows(s, ids[1..], p, todo);
    } else {
      TryIoGrows(s, ids[0], p);
      hide Grows, Traced, TryIo, Scheduled;
      var (s1, st) := TryIo(s, ids[0], p);
      var todo1 := if st.Some? then todo + [Fire(ids[0], st.value, p.now)] else todo;
      IoPhaseGrows(s1, ids[1..], p, todo1);
      GrowsTrans(s, s1, IoPhase(s, ids, p, todo).0);
    }
  }

  lemma {:induction false} DeliverAllGrows(s: State, todo: seq<Fire>)
    ensures Grows(s, DeliverAll(s, todo))
    decreases |todo|
  {
    if todo != [] {
      DeliverAllGrows(DeliverOne(s, todo[0]), todo[1..]);
      GrowsTrans(s, DeliverOne(s, todo[0]), DeliverAll(s, todo));
    }
  }

  lemma {:induction false} KillAllGrows(s: State, ids: seq<nat>)
    ensures Grows(s, KillAll(s, ids))
    decreases |ids|
  {
    if ids != [] {
      KillAllGrows(KillOne(s, ids[0]), ids[1..]);
      GrowsTrans(s, KillOne(s, ids[0]), KillAll(s, ids));
    }
  }

  lemma DeleteIodGrows(s: State, i: nat, order: seq<nat>)
    ensures Grows(s, DeleteIod(s, i, order))
  {
    KillAllGrows(s, OnIod(s.pending, order, i));
  }

  lemma {:induction false} DeleteIodsGrows(s: State, iodOrder: seq<nat>, orders: nat -> seq<nat>)
    ensures Grows(s, DeleteIods(s, iodOrder, orders))
    decreases |iodOrder|
  {
    if iodOrder != [] {
      var s1 := DeleteIod(s, iodOrder[0], orders(iodOrder[0]));
      DeleteIodGrows(s, iodOrder[0], orders(iodOrder[0]));
      DeleteIodsGrows(s1, iodOrder[1..], orders);
      hide Grows, DeleteIod;
      GrowsTrans(s, s1, DeleteIods(s, iodOrder, orders));
    } else {
      GrowsRefl(s);
    }
  }

  lemma DeleteGrows(s: State, iodOrder: seq<nat>, orders: nat -> seq<nat>, order: seq<nat>)
    ensures Grows(s, Delete(s, iodOrder, orders, order))
  {
    var s1 := DeleteIods(s, iodOrder, orders);
    DeleteIodsGrows(s, iodOrder, orders);
    KillAllGrows(s1, order);
    GrowsTrans(s, s1, KillAll(s1, order));
  }

  lemma PassBodyGrows(s: State, p: Pass)
    requires Inv(s)
    ensures Grows(s, PassBody(s, p))
  {
    var start := s.(rx := [], hist := s.hist.(clock := p.now));
    assert Grows(s, start);
    DrainGrows(start, s.rx + p.arrivals, p.orders, 0);
    var drained := Drained(s, p);
    DrainedOk(s, p);
    assert Traced(drained);
    hide Grows, Inv;
    GrowsTrans(s, start, drained);
    var ids := LiveIds(drained.pending, p.order);
    var due := Due(drained.pending, ids, p.now);
    IoPhaseGrows(drained, ids, p, due);
    var (resolved, todo) := IoPhase(drained, ids, p, due);
    GrowsTrans(s, drained, resolved);
    DeliverAllGrows(resolved, todo);
    GrowsTrans(s, resolved, PassBody(s, p));
  }

  predicate SilentCancel(s: State, op: Op) { op.OpCancel? && !op.notify && Live(s, op.id) }

  /** Every step only adds to the record; only `cancel` without notification silences, one live event. */
  lemma StepGrows(s: State, op: Op)
    requires Inv(s)
    requires !SilentCancel(s, op)
    ensures Grows(s, Step(s, op))
  {
    hide Inv;
    match op
    case OpDeleteIod(i, order) => DeleteIodGrows(s, i, order);
    case OpDelete(iodOrder, orders, order) => DeleteGrows(s, iodOrder, orders, order);
    case OpPass(start, max, p) =>
      PassBodyGrows(s, p);
      hide PassBody, HasPending, Nearest, NapFor, Grows;
      SameRecordGrows(s, PassBody(s, p), RunStep(s, start, max, p).state);
    case _ =>
      if IsRequest(op) {
        RequestGrows(s, op);
      } else {
        SimpleStepGrows(s, op);
      }
  }

  lemma IssueGrows(s: State, e: Pending, data: seq<byte>, now: nat)
    requires s.eventCounter + 1 !in s.hist.traces
    ensures Grows(s, Issue(s, e, data, now))
  {
  }

  lemma RequestGrows(s: State, op: Op)
    requires Inv(s) && IsRequest(op)
    ensures Grows(s, Step(s, op))
  {
    assert s.eventCounter + 1 !in s.hist.traces;
    hide Inv, Grows;
    var e, data, now := RequestIs(s, op);
    hide Step;
    IssueGrows(s, e, data, now);
  }

  lemma SimpleStepGrows(s: State, op: Op)
    requires !IsRequest(op) && !op.OpDeleteIod? && !op.OpDelete? && !op.OpPass? && !SilentCancel(s, op)
    ensures Grows(s, Step(s, op))
  {
    match op
    case OpCancel(id, notify) => CancelGrows(s, id, notify);
    case OpConnectUdp(i) =>
    case _ =>
  }

  lemma CancelGrows(s: State, id: nat, notify: bool)
    requires !(Live(s, id) && !notify)
    ensures Grows(s, Cancel(s, id, notify))
  {
  }

  lemma SameRecordGrows(s: State, s': State, s'': State)
    requires Grows(s, s')
    requires s''.pending == s'.pending && s''.eventCounter == s'.eventCounter
    requires s''.hist == s'.hist.(clock := s''.hist.clock)
    ensures Grows(s, s'')
  {
  }

  lemma SilentCancelEffect(s: State, id: nat)
    requires Live(s, id)
    ensures var s' := Step(s, OpCancel(id, false));
            && s'.hist.silenced == s.hist.silenced + {id}
            && s'.hist.log == s.hist.log && s'.hist.traces == s.hist.traces
            && !Live(s', id) && forall j | j != id :: Live(s', j) <==> Live(s, j)
  {
  }

  /** What later operations can never undo. */
  ghost predicate Settled(s: State, s': State) {
    && s.hist.log <= s'.hist.log
    && s.hist.silenced <= s'.hist.silenced
    && forall id | id in s.hist.traces ::
         id in s'.hist.traces && TraceGrows(s.hist.traces[id], s'.hist.traces[id]) && (Live(s', id) ==> Live(s, id))
  }

  /**
   * Over any continuation of a run: handler calls stay, silenced events stay silenced, bytes
   * accepted or received stay, and an event that is no longer live never is again.
   */
  lemma {:induction false} RunsOnlyAdd(ops: seq<Op>, more: seq<Op>)
    requires Possible(ops + more)
    ensures Possible(ops)
    ensures Settled(Exec(ops), Exec(ops + more))
    decreases |more|
  {
    hide Inv, Step, Settled, Enabled;
    if more == [] {
      assert ops + more == ops;
      SettledRefl(Exec(ops));
    } else {
      var n := |more| - 1;
      var all := ops + more;
      assert all[..|all| - 1] == ops + more[..n] && all[|all| - 1] == more[n];
      RunsOnlyAdd(ops, more[..n]);
      ExecOk(ops + more[..n]);
      SettledStep(Exec(ops), Exec(ops + more[..n]), more[n]);
    }
  }

  lemma SettledRefl(s: State)
    ensures Settled(s, s)
  {
  }

  lemma SettledStep(s: State, s1: State, op: Op)
    requires Settled(s, s1) && Inv(s1)
    ensures Settled(s, Step(s1, op))
  {
    hide Inv;
    if SilentCancel(s1, op) {
      SilentCancelEffect(s1, op.id);
    } else {
      StepGrows(s1, op);
    }
    hide Step;
  }
}
