/** Whether the outcome a Connect is told is that of its own attempt. */
module PoolAttribution {
  import opened Bytes
  import opened PoolModel
  import opened PoolInvariant
  import opened PoolSteps
  import opened PoolRuns
  import opened PoolHistory
  import opened PoolTiming
  import opened PoolPolling
  import opened PoolConnects

  // ----- Whose result it is -----

  function Arriving(op: Op): seq<Cmd> {
    match op
    case OpArrive(cmd) => [cmd]
    case OpPass(_, _, p) => p.arrivals
    case _ => []
  }

  /** The attempts among `cmds`, and what became of them, on top of those already known. */
  function Told(known: map<nat, bool>, cmds: seq<Cmd>): map<nat, bool>
    decreases |cmds|
  {
    if cmds == [] then known
    else Told(if cmds[0].ConnectResult? then known[cmds[0].attempt := cmds[0].ok] else known, cmds[1..])
  }

  /** Attempts whose result the loop has handled, with that result. */
  ghost function Handled(ops: seq<Op>): map<nat, bool> {
    if ops == [] then map[]
    else
      var before := ops[..|ops| - 1];
      match ops[|ops| - 1]
      case OpPass(_, _, p) => Told(Handled(before), Exec(before).rx + p.arrivals)
      case _ => Handled(before)
  }

  predicate IsAttempt(s: State, i: nat, id: nat) {
    id in s.hist.traces && s.hist.traces[id].kind == Connect && s.hist.traces[id].iod == Some(i)
  }

  /** Results waiting to be handled: of attempts made, on their own descriptor, one per attempt. */
  ghost predicate QueueOk(s: State, known: map<nat, bool>, queue: seq<Cmd>) {
    && (forall j | 0 <= j < |queue| && queue[j].ConnectResult? ::
          IsAttempt(s, queue[j].iod, queue[j].attempt) && queue[j].attempt !in known)
    && (forall j, k | 0 <= j < k < |queue| && queue[j].ConnectResult? && queue[k].ConnectResult? ::
          queue[j].attempt != queue[k].attempt)
  }

  /** What helper threads do: each reports once, after its request, for the descriptor it was given. */
  ghost predicate Honest(ops: seq<Op>) {
    ops != [] ==>
      var before, op := ops[..|ops| - 1], ops[|ops| - 1];
      Honest(before) && QueueOk(Exec(before), Handled(before), Exec(before).rx + Arriving(op))
  }

  /** A connect is requested only when no earlier attempt on its descriptor is still outstanding. */
  ghost predicate SerialStep(s: State, known: map<nat, bool>, op: Op) {
    op.OpConnectTcp? ==> forall id: nat | IsAttempt(s, op.iod, id) :: id in known
  }

  ghost predicate Serial(ops: seq<Op>) {
    ops != [] ==>
      var before, op := ops[..|ops| - 1], ops[|ops| - 1];
      Serial(before) && SerialStep(Exec(before), Handled(before), op)
  }

  /** The handler of a Connect has been told what its own attempt reported. */
  predicate AnsweredBy(h: History, known: map<nat, bool>, f: Fire) {
    f.id in h.traces && h.traces[f.id].kind == Connect && (f.status == Success || f.status == Error) ==>
      f.id in known && known[f.id] == (f.status == Success)
  }

  /** Live connects still await their own result, at most one per descriptor does, and all told were told right. */
  ghost predicate Owned(s: State, known: map<nat, bool>) {
    && known.Keys <= s.hist.traces.Keys
    && (forall i: nat, id: nat | IsAttempt(s, i, id) && Live(s, id) :: id !in known)
    && (forall i: nat, a: nat, b: nat |
          IsAttempt(s, i, a) && IsAttempt(s, i, b) && a !in known && b !in known :: a == b)
    && (forall k | 0 <= k < |s.hist.log| :: AnsweredBy(s.hist, known, s.hist.log[k]))
  }

  /** A result completes the event it belongs to, if that one is still live, and no other. */
  lemma HandleOwned(s: State, known: map<nat, bool>, queue: seq<Cmd>, order: seq<nat>)
    requires Inv(s) && Owned(s, known) && queue != [] && QueueOk(s, known, queue) && Covers(order, s.pending.Keys)
    ensures Owned(DrainOne(s, queue[0], order), Told(known, [queue[0]]))
    ensures QueueOk(DrainOne(s, queue[0], order), Told(known, [queue[0]]), queue[1..])
  {
    hide IdsOk, EventsOk, IodsOk, ConnectionsOk, StrictBut;
    var cmd := queue[0];
    var s' := DrainOne(s, cmd, order);
    assert Told(known, [cmd]) == if cmd.ConnectResult? then known[cmd.attempt := cmd.ok] else known by {
      assert [cmd][1..] == [];
    }
    if cmd.ConnectResult? {
      var i, ok, attempt := cmd.iod, cmd.ok, cmd.attempt;
      hide DrainOne;
      if one: nat :| Awaiting(s, i, one) {
        var id := ResultCompletesOne(s, i, ok, attempt, order);
        AwaitingIsAttempt(s, i, id);
        CompletedOwned(s, s', known, i, ok, id);
      } else {
        StaleResultIgnored(s, i, ok, attempt, order);
        NoneAwaiting(s, i);
        hide Inv;
        LapsedOwned(s, known, i, ok, attempt);
      }
    } else {
      hide Inv, Owned;
      SameRecordOwned(s, s', known);
    }
    assert forall k | 0 <= k < |queue[1..]| :: queue[1..][k] == queue[k + 1];
  }

  lemma AwaitingIsAttempt(s: State, i: nat, id: nat)
    requires IdsOk(s) && EventsOk(s) && Awaiting(s, i, id)
    ensures IsAttempt(s, i, id) && Live(s, id)
  {
    LiveEntry(s, id);
  }

  lemma NoneAwaiting(s: State, i: nat)
    requires IdsOk(s) && EventsOk(s) && forall id: nat :: !Awaiting(s, i, id)
    ensures forall id: nat | IsAttempt(s, i, id) :: !Live(s, id)
  {
    forall id: nat | IsAttempt(s, i, id)
      ensures !Live(s, id)
    {
      if id in s.pending {
        LiveEntry(s, id);
        assert !Awaiting(s, i, id);
      }
    }
  }

  /** The result of an attempt whose event is no longer live. */
  lemma LapsedOwned(s: State, known: map<nat, bool>, i: nat, ok: bool, id: nat)
    requires Owned(s, known) && IsAttempt(s, i, id) && id !in known && !Live(s, id)
    ensures Owned(s, known[id := ok])
  {
    forall k | 0 <= k < |s.hist.log|
      ensures AnsweredBy(s.hist, known[id := ok], s.hist.log[k])
    {
      assert AnsweredBy(s.hist, known, s.hist.log[k]);
    }
  }

  lemma CompletedOwned(s: State, s': State, known: map<nat, bool>, i: nat, ok: bool, id: nat)
    requires Owned(s, known) && IsAttempt(s, i, id) && id !in known
    requires s'.hist.traces == s.hist.traces && s'.pending == s.pending - {id}
    requires s'.hist.log == s.hist.log + [Fire(id, if ok then Success else Error, s.hist.clock)]
    ensures Owned(s', known[id := ok])
  {
    assert forall j: nat, a: nat :: IsAttempt(s', j, a) <==> IsAttempt(s, j, a);
    forall k | 0 <= k < |s'.hist.log|
      ensures AnsweredBy(s'.hist, known[id := ok], s'.hist.log[k])
    {
      assert k < |s.hist.log| ==> AnsweredBy(s.hist, known, s.hist.log[k]);
    }
  }

  lemma {:induction false} DrainOwned(s: State, known: map<nat, bool>, queue: seq<Cmd>, orders: nat -> seq<nat>, k: nat)
    requires Inv(s) && Owned(s, known) && QueueOk(s, known, queue)
    requires forall j: nat :: Covers(orders(j), s.pending.Keys)
    ensures Owned(Drain(s, queue, orders, k), Told(known, queue))
    decreases |queue|
  {
    hide Inv, Owned, QueueOk;
    if queue != [] {
      HandleOwned(s, known, queue, orders(k));
      DrainOneOk(s, queue[0], orders(k));
      var s1 := DrainOne(s, queue[0], orders(k));
      assert forall j: nat :: Covers(orders(j), s1.pending.Keys);
      ToldFirst(known, queue);
      hide DrainOne;
      DrainOwned(s1, Told(known, [queue[0]]), queue[1..], orders, k + 1);
    }
  }

  lemma ToldFirst(known: map<nat, bool>, cmds: seq<Cmd>)
    requires cmds != []
    ensures Told(known, cmds) == Told(Told(known, [cmds[0]]), cmds[1..])
  {
    assert [cmds[0]][1..] == [];
  }

  // ----- Steps that answer no Connect -----

  /** No Connect is told `Success` or `Error` from log position `n` on. */
  predicate NoAnswers(h: History, n: nat) {
    forall k | n <= k < |h.log| ::
      h.log[k].id in h.traces && h.traces[h.log[k].id].kind == Connect ==>
        h.log[k].status != Success && h.log[k].status != Error
  }

  /** Steps that answer no Connect and request none. */
  lemma OwnedFrame(s: State, s': State, known: map<nat, bool>)
    requires Owned(s, known) && IdsOk(s) && Settled(s, s') && NoAnswers(s'.hist, |s.hist.log|)
    requires forall i: nat, id: nat | IsAttempt(s', i, id) :: id in s.hist.traces
    ensures Owned(s', known)
  {
    forall i: nat, id: nat | IsAttempt(s', i, id)
      ensures IsAttempt(s, i, id) && (Live(s', id) ==> Live(s, id))
    {
      assert TraceGrows(s.hist.traces[id], s'.hist.traces[id]);
    }
    forall k | 0 <= k < |s'.hist.log|
      ensures AnsweredBy(s'.hist, known, s'.hist.log[k])
    {
      if k < |s.hist.log| {
        assert s'.hist.log[k] == s.hist.log[k];
        assert AnsweredBy(s.hist, known, s.hist.log[k]);
      }
    }
  }

  /** From log position `n` on there are only notices of cancellation and deletion. */
  predicate OnlyNotices(log: seq<Fire>, n: nat) {
    forall k | n <= k < |log| :: log[k].status == Cancelled || log[k].status == Kill
  }

  lemma {:induction false} KillAllNotices(s: State, ids: seq<nat>, n: nat)
    requires OnlyNotices(s.hist.log, n)
    ensures OnlyNotices(KillAll(s, ids).hist.log, n)
    decreases |ids|
  {
    if ids != [] {
      KillAllNotices(KillOne(s, ids[0]), ids[1..], n);
    }
  }

  lemma {:induction false} DeleteIodsNotices(s: State, iodOrder: seq<nat>, orders: nat -> seq<nat>, n: nat)
    requires OnlyNotices(s.hist.log, n)
    ensures OnlyNotices(DeleteIods(s, iodOrder, orders).hist.log, n)
    decreases |iodOrder|
  {
    if iodOrder != [] {
      KillAllNotices(s, OnIod(s.pending, orders(iodOrder[0]), iodOrder[0]), n);
      DeleteIodsNotices(DeleteIod(s, iodOrder[0], orders(iodOrder[0])), iodOrder[1..], orders, n);
    }
  }

  lemma StepNotices(s: State, op: Op)
    requires !op.OpPass?
    ensures OnlyNotices(Step(s, op).hist.log, |s.hist.log|)
  {
    var n := |s.hist.log|;
    match op
    case OpDeleteIod(i, order) => KillAllNotices(s, OnIod(s.pending, order, i), n);
    case OpDelete(iodOrder, orders, order) =>
      DeleteIodsNotices(s, iodOrder, orders, n);
      KillAllNotices(DeleteIods(s, iodOrder, orders), order, n);
    case OpCancel(id, notify) =>
    case _ =>
  }

  /** Only requests issue events. */
  lemma StepIssuesNothing(s: State, op: Op)
    requires Inv(s) && Enabled(s, op) && !IsRequest(op) && !op.OpPass?
    ensures Step(s, op).hist.traces == s.hist.traces
  {
    hide Inv;
    match op
    case OpDeleteIod(i, order) => KillAllTraces(s, OnIod(s.pending, order, i));
    case OpDelete(iodOrder, orders, order) =>
      DeleteIodsTraces(s, iodOrder, orders);
      KillAllTraces(DeleteIods(s, iodOrder, orders), order);
    case OpCancel(id, notify) =>
    case _ =>
  }

  lemma {:induction false} KillAllTraces(s: State, ids: seq<nat>)
    ensures KillAll(s, ids).hist.traces == s.hist.traces
    decreases |ids|
  {
    if ids != [] {
      KillAllTraces(KillOne(s, ids[0]), ids[1..]);
    }
  }

  lemma {:induction false} DeleteIodsTraces(s: State, iodOrder: seq<nat>, orders: nat -> seq<nat>)
    ensures DeleteIods(s, iodOrder, orders).hist.traces == s.hist.traces
    decreases |iodOrder|
  {
    if iodOrder != [] {
      KillAllTraces(s, OnIod(s.pending, orders(iodOrder[0]), iodOrder[0]));
      DeleteIodsTraces(DeleteIod(s, iodOrder[0], orders(iodOrder[0])), iodOrder[1..], orders);
    }
  }

  /** A new request; a new Connect finds every earlier attempt on its descriptor reported. */
  lemma IssueOwned(s: State, known: map<nat, bool>, e: Pending, data: seq<byte>, now: nat)
    requires IdsOk(s) && Owned(s, known)
    requires e.kind == Connect && e.iod.Some? ==> forall id: nat | IsAttempt(s, e.iod.value, id) :: id in known
    ensures Owned(Issue(s, e, data, now), known)
  {
    var s', issued := Issue(s, e, data, now), s.eventCounter + 1;
    forall i: nat, id: nat | IsAttempt(s', i, id) && id != issued
      ensures IsAttempt(s, i, id)
    {
    }
    forall k | 0 <= k < |s'.hist.log|
      ensures AnsweredBy(s'.hist, known, s'.hist.log[k])
    {
      assert AnsweredBy(s.hist, known, s.hist.log[k]);
    }
  }

  // ----- A pass -----

  /** Deliveries by deadline and by socket answer no Connect. */
  lemma {:induction false} DeliverNoAnswers(s: State, todo: seq<Fire>, n: nat)
    requires NoAnswers(s.hist, n)
    requires forall k | 0 <= k < |todo| :: todo[k].id in s.hist.traces
               && (s.hist.traces[todo[k].id].kind == Connect ==> todo[k].status == Timeout)
    ensures NoAnswers(DeliverAll(s, todo).hist, n)
    decreases |todo|
  {
    if todo != [] {
      assert forall k | 0 <= k < |todo[1..]| :: todo[1..][k] == todo[k + 1];
      DeliverNoAnswers(DeliverOne(s, todo[0]), todo[1..], n);
    }
  }

  lemma PassOwned(s: State, known: map<nat, bool>, p: Pass)
    requires Inv(s) && PassOk(s, p) && Owned(s, known) && QueueOk(s, known, s.rx + p.arrivals)
    ensures Owned(PassBody(s, p), Told(known, s.rx + p.arrivals))
  {
    var start := s.(rx := [], hist := s.hist.(clock := p.now));
    InvIgnores(s, start);
    SameRecordOwned(s, start, known);
    SameTracesQueue(s, start, known, s.rx + p.arrivals);
    DrainOwned(start, known, s.rx + p.arrivals, p.orders, 0);
    hide Owned, QueueOk;
    DrainedOk(s, p);
    RestOfPass(s, p);
    PassBodyOk(s, p);
    SameIds(Drained(s, p), PassBody(s, p));
    OwnedFrame(Drained(s, p), PassBody(s, p), Told(known, s.rx + p.arrivals));
  }

  lemma SameTracesQueue(s: State, s': State, known: map<nat, bool>, queue: seq<Cmd>)
    requires QueueOk(s, known, queue) && s'.hist.traces == s.hist.traces
    ensures QueueOk(s', known, queue)
  {
    assert forall i: nat, id: nat :: IsAttempt(s', i, id) <==> IsAttempt(s, i, id);
  }

  lemma SameIds(s: State, s': State)
    requires IdsOk(s) && IdsOk(s') && s.eventCounter == s'.eventCounter
    ensures forall i: nat, id: nat | IsAttempt(s', i, id) :: id in s.hist.traces
  {
  }

  /** After the messages a pass only adds to the record and answers no Connect. */
  lemma RestOfPass(s: State, p: Pass)
    requires Inv(s) && PassOk(s, p)
    ensures Settled(Drained(s, p), PassBody(s, p))
    ensures NoAnswers(PassBody(s, p).hist, |Drained(s, p).hist.log|)
    ensures PassBody(s, p).eventCounter == Drained(s, p).eventCounter
  {
    hide Inv, PassOk, PhaseOk, Settled, Grows, NoAnswers, PassBody, Drained, Due, LiveIds, IoPhase, DeliverAll;
    var drained := Drained(s, p);
    var ids := LiveIds(drained.pending, p.order);
    DrainedOk(s, p);
    VisitsLive(s, p);
    PassIsPhases(s, p);
    ResolvedGrows(drained, ids, p);
    var (resolved, todo) := IoPhase(drained, ids, p, Due(drained.pending, ids, p.now));
    DeliverAllGrows(resolved, todo);
    GrowsTrans(drained, resolved, DeliverAll(resolved, todo));
    GrowsSettles(drained, DeliverAll(resolved, todo));
    DeliverStampless(resolved, todo);
  }

  /** The I/O part of a pass. */
  lemma ResolvedGrows(s: State, ids: seq<nat>, p: Pass)
    requires Inv(s) && NoDuplicates(ids) && forall id :: id in ids <==> Live(s, id)
    ensures var (resolved, todo) := IoPhase(s, ids, p, Due(s.pending, ids, p.now));
            && PhaseOk(resolved, todo) && Grows(s, resolved)
            && resolved.hist.log == s.hist.log && resolved.eventCounter == s.eventCounter
  {
    var due := Due(s.pending, ids, p.now);
    assert Traced(s);
    assert forall k | 0 <= k < |ids| :: Live(s, ids[k]);
    hide Inv, PhaseOk, Grows, StampedAt, Traced, IoPhase, Due;
    DueOk(s, ids, p.now);
    DueStamps(s.pending, ids, p.now);
    IoPhaseOk(s, ids, p, due);
    IoPhaseStamps(s, ids, p, due);
    IoPhaseGrows(s, ids, p, due);
  }

  lemma GrowsSettles(s: State, s': State)
    requires Grows(s, s')
    ensures Settled(s, s')
  {
  }

  lemma DeliverStampless(s: State, todo: seq<Fire>)
    requires PhaseOk(s, todo)
    ensures NoAnswers(DeliverAll(s, todo).hist, |s.hist.log|)
    ensures DeliverAll(s, todo).eventCounter == s.eventCounter
  {
    DeliverNoAnswers(s, todo, |s.hist.log|);
    DeliverCounts(s, todo);
  }

  lemma {:induction false} DeliverCounts(s: State, todo: seq<Fire>)
    ensures DeliverAll(s, todo).eventCounter == s.eventCounter
    decreases |todo|
  {
    if todo != [] {
      DeliverCounts(DeliverOne(s, todo[0]), todo[1..]);
    }
  }

  // ----- Runs -----

  lemma StepOwned(s: State, known: map<nat, bool>, op: Op)
    requires Inv(s) && Enabled(s, op) && Owned(s, known) && QueueOk(s, known, s.rx + Arriving(op))
    requires SerialStep(s, known, op)
    ensures Owned(Step(s, op), if op.OpPass? then Told(known, s.rx + op.p.arrivals) else known)
  {
    hide Inv, QueueOk;
    if op.OpPass? {
      PassOwned(s, known, op.p);
      hide PassBody, HasPending, Nearest, NapFor;
      SameRecordOwned(PassBody(s, op.p), Step(s, op), Told(known, s.rx + op.p.arrivals));
    } else if IsRequest(op) {
      RequestOwned(s, known, op);
    } else {
      SettledRefl(s);
      SettledStep(s, s, op);
      StepNotices(s, op);
      StepIssuesNothing(s, op);
      hide Step, Settled, Owned;
      assert IdsOk(s) by {
        InvIds(s);
      }
      OwnedFrame(s, Step(s, op), known);
    }
  }

  lemma InvIds(s: State)
    requires Inv(s)
    ensures IdsOk(s)
  {
  }

  lemma SameRecordOwned(s: State, s': State, known: map<nat, bool>)
    requires Owned(s, known)
    requires s'.pending == s.pending && s'.hist == s.hist.(clock := s'.hist.clock)
    ensures Owned(s', known)
  {
    assert forall i: nat, id: nat :: IsAttempt(s', i, id) <==> IsAttempt(s, i, id);
    forall k | 0 <= k < |s'.hist.log|
      ensures AnsweredBy(s'.hist, known, s'.hist.log[k])
    {
      assert AnsweredBy(s.hist, known, s.hist.log[k]);
    }
  }

  lemma RequestOwned(s: State, known: map<nat, bool>, op: Op)
    requires Inv(s) && Owned(s, known) && IsRequest(op)
    requires SerialStep(s, known, op)
    ensures Owned(Step(s, op), known)
  {
    InvIds(s);
    hide Inv, Owned, IdsOk;
    var e, data, now := RequestIs(s, op);
    assert e.kind == Connect ==> op.OpConnectTcp? && e.iod == Some(op.iod) by {
      assert Step(s, op).pending[s.eventCounter + 1] == e;
    }
    hide Step;
    IssueOwned(s, known, e, data, now);
  }

  lemma {:induction false} OwnedThroughout(ops: seq<Op>)
    requires Possible(ops) && Honest(ops) && Serial(ops)
    ensures Owned(Exec(ops), Handled(ops))
  {
    if ops != [] {
      var n := |ops| - 1;
      hide Inv, Owned, QueueOk, Enabled, Step;
      OwnedThroughout(ops[..n]);
      ExecOk(ops[..n]);
      StepOwned(Exec(ops[..n]), Handled(ops[..n]), ops[n]);
    }
  }

  /**
   * Attribution. When no descriptor is connected again before every earlier attempt on it has been
   * handled, a Connect is told `Success` only if its own attempt succeeded and `Error` only if its
   * own attempt failed, whatever was cancelled, deleted or timed out meanwhile.
   */
  lemma ConnectsHearTheirOwn(ops: seq<Op>, k: nat)
    requires Possible(ops) && Honest(ops) && Serial(ops) && k < |Exec(ops).hist.log|
    requires Exec(ops).hist.log[k].id in Exec(ops).hist.traces
    requires Exec(ops).hist.traces[Exec(ops).hist.log[k].id].kind == Connect
    ensures var f := Exec(ops).hist.log[k];
            && (f.status == Success ==> f.id in Handled(ops) && Handled(ops)[f.id])
            && (f.status == Error ==> f.id in Handled(ops) && !Handled(ops)[f.id])
  {
    OwnedThroughout(ops);
    assert AnsweredBy(Exec(ops).hist, Handled(ops), Exec(ops).hist.log[k]);
  }

  // ----- What a caller can check -----

  /** The handler of event `id` was told how its connect went. */
  predicate ToldOutcome(h: History, id: nat) {
    exists k :: 0 <= k < |h.log| && h.log[k].id == id && (h.log[k].status == Success || h.log[k].status == Error)
  }

  /** A connect is requested only when every earlier Connect on its descriptor was told its outcome. */
  ghost predicate PatientStep(s: State, op: Op) {
    op.OpConnectTcp? ==> forall id: nat | IsAttempt(s, op.iod, id) :: ToldOutcome(s.hist, id)
  }

  ghost predicate Patient(ops: seq<Op>) {
    ops != [] ==> Patient(ops[..|ops| - 1]) && PatientStep(Exec(ops[..|ops| - 1]), ops[|ops| - 1])
  }

  lemma ToldMeansHandled(s: State, known: map<nat, bool>, op: Op)
    requires Owned(s, known) && PatientStep(s, op)
    ensures SerialStep(s, known, op)
  {
    if op.OpConnectTcp? {
      forall id: nat | IsAttempt(s, op.iod, id)
        ensures id in known
      {
        var k :| 0 <= k < |s.hist.log| && s.hist.log[k].id == id
                 && (s.hist.log[k].status == Success || s.hist.log[k].status == Error);
        assert AnsweredBy(s.hist, known, s.hist.log[k]);
      }
    }
  }

  lemma {:induction false} PatientIsSerial(ops: seq<Op>)
    requires Possible(ops) && Honest(ops) && Patient(ops)
    ensures Serial(ops)
  {
    if ops != [] {
      var n := |ops| - 1;
      hide Inv, Owned, QueueOk, Enabled, Step, PatientStep, SerialStep;
      PatientIsSerial(ops[..n]);
      OwnedThroughout(ops[..n]);
      ToldMeansHandled(Exec(ops[..n]), Handled(ops[..n]), ops[n]);
    }
  }

  /**
   * Attribution in terms of handler calls alone: callers that connect a descriptor again only after
   * every earlier Connect on it was told `Success` or `Error` never hear another attempt's outcome.
   */
  lemma PatientCallersHearTheirOwn(ops: seq<Op>, k: nat)
    requires Possible(ops) && Honest(ops) && Patient(ops) && k < |Exec(ops).hist.log|
    ensures AnsweredBy(Exec(ops).hist, Handled(ops), Exec(ops).hist.log[k])
  {
    PatientIsSerial(ops);
    OwnedThroughout(ops);
  }
}
