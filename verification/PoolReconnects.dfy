/** What goes wrong when a descriptor is connected again too early, and exactly when. */
module PoolReconnects {
  import opened Bytes
  import opened PoolModel
  import opened PoolInvariant
  import opened PoolSteps
  import opened PoolRuns
  import opened PoolHistory
  import opened PoolTiming
  import opened PoolConnects
  import opened PoolAttribution

  // ----- Connecting too early -----

  lemma {:induction false} ToldKeys(known: map<nat, bool>, cmds: seq<Cmd>, id: nat)
    ensures id in Told(known, cmds) <==>
            id in known || exists k :: 0 <= k < |cmds| && cmds[k].ConnectResult? && cmds[k].attempt == id
    decreases |cmds|
  {
    if cmds != [] {
      var rest := cmds[1..];
      assert forall k | 0 <= k < |rest| :: rest[k] == cmds[k + 1];
      ToldKeys(if cmds[0].ConnectResult? then known[cmds[0].attempt := cmds[0].ok] else known, rest, id);
      if k :| 0 < k < |cmds| && cmds[k].ConnectResult? && cmds[k].attempt == id {
        assert rest[k - 1] == cmds[k];
      }
    }
  }

  /** What is in the channel, and what was handled, are attempts made; nothing is in it twice. */
  ghost predicate ChannelOk(s: State, known: map<nat, bool>) {
    known.Keys <= s.hist.traces.Keys && QueueOk(s, known, s.rx)
  }

  lemma QueueLater(s: State, s': State, known: map<nat, bool>, queue: seq<Cmd>)
    requires QueueOk(s, known, queue) && Settled(s, s')
    ensures QueueOk(s', known, queue)
  {
    forall j | 0 <= j < |queue| && queue[j].ConnectResult?
      ensures IsAttempt(s', queue[j].iod, queue[j].attempt)
    {
      assert IsAttempt(s, queue[j].iod, queue[j].attempt);
      assert TraceGrows(s.hist.traces[queue[j].attempt], s'.hist.traces[queue[j].attempt]);
    }
  }

  /** Only arrivals and quit requests enter the channel, and a pass empties it. */
  lemma StepChannel(s: State, op: Op)
    ensures Step(s, op).rx == if op.OpPass? then [] else if op.OpQuit? then s.rx + [Quit] else s.rx + Arriving(op)
  {
    match op
    case OpDeleteIod(i, order) => KillAllChannel(s, OnIod(s.pending, order, i));
    case OpDelete(iodOrder, orders, order) =>
      DeleteIodsChannel(s, iodOrder, orders);
      KillAllChannel(DeleteIods(s, iodOrder, orders), order);
    case OpPass(start, max, p) =>
      PassChannel(s, p);
      hide PassBody, HasPending, Nearest, NapFor;
    case OpArrive(cmd) =>
    case _ =>
  }

  lemma {:induction false} KillAllChannel(s: State, ids: seq<nat>)
    ensures KillAll(s, ids).rx == s.rx
    decreases |ids|
  {
    if ids != [] {
      KillAllChannel(KillOne(s, ids[0]), ids[1..]);
    }
  }

  lemma {:induction false} DeleteIodsChannel(s: State, iodOrder: seq<nat>, orders: nat -> seq<nat>)
    ensures DeleteIods(s, iodOrder, orders).rx == s.rx
    decreases |iodOrder|
  {
    if iodOrder != [] {
      KillAllChannel(s, OnIod(s.pending, orders(iodOrder[0]), iodOrder[0]));
      DeleteIodsChannel(DeleteIod(s, iodOrder[0], orders(iodOrder[0])), iodOrder[1..], orders);
    }
  }

  lemma {:induction false} DrainChannel(s: State, cmds: seq<Cmd>, orders: nat -> seq<nat>, k: nat)
    ensures Drain(s, cmds, orders, k).rx == s.rx
    decreases |cmds|
  {
    if cmds != [] {
      DrainChannel(DrainOne(s, cmds[0], orders(k)), cmds[1..], orders, k + 1);
    }
  }

  lemma TryIoChannel(s: State, id: nat, p: Pass)
    ensures TryIo(s, id, p).0.rx == s.rx
  {
  }

  lemma {:induction false} IoPhaseChannel(s: State, ids: seq<nat>, p: Pass, todo: seq<Fire>)
    ensures IoPhase(s, ids, p, todo).0.rx == s.rx
    decreases |ids|
  {
    if ids == [] {
    } else if Scheduled(todo, ids[0]) {
      IoPhaseChannel(s, ids[1..], p, todo);
    } else {
      TryIoChannel(s, ids[0], p);
      hide TryIo;
      var (s', st) := TryIo(s, ids[0], p);
      IoPhaseChannel(s', ids[1..], p, if st.Some? then todo + [Fire(ids[0], st.value, p.now)] else todo);
    }
  }

  lemma {:induction false} DeliverChannel(s: State, todo: seq<Fire>)
    ensures DeliverAll(s, todo).rx == s.rx
    decreases |todo|
  {
    if todo != [] {
      DeliverChannel(DeliverOne(s, todo[0]), todo[1..]);
    }
  }

  lemma PassChannel(s: State, p: Pass)
    ensures PassBody(s, p).rx == []
  {
    DrainChannel(s.(rx := [], hist := s.hist.(clock := p.now)), s.rx + p.arrivals, p.orders, 0);
    var d := Drained(s, p);
    assert d.rx == [];
    PassIsPhases(s, p);
    hide PassBody, Drained, Due, LiveIds, IoPhase, DeliverAll;
    var ids := LiveIds(d.pending, p.order);
    var due := Due(d.pending, ids, p.now);
    IoPhaseChannel(d, ids, p, due);
    DeliverChannel(IoPhase(d, ids, p, due).0, IoPhase(d, ids, p, due).1);
  }

  lemma {:induction false} ChannelThroughout(ops: seq<Op>)
    requires Possible(ops) && Honest(ops)
    ensures ChannelOk(Exec(ops), Handled(ops))
  {
    if ops != [] {
      var n := |ops| - 1;
      var s, known := Exec(ops[..n]), Handled(ops[..n]);
      hide Inv, ChannelOk, QueueOk, Enabled, Step, Settled;
      ChannelThroughout(ops[..n]);
      ExecOk(ops[..n]);
      SettledRefl(s);
      SettledStep(s, s, ops[n]);
      ChannelStep(s, Step(s, ops[n]), known, ops[n]);
    }
  }

  lemma ChannelStep(s: State, s': State, known: map<nat, bool>, op: Op)
    requires ChannelOk(s, known) && QueueOk(s, known, s.rx + Arriving(op)) && Settled(s, s') && s' == Step(s, op)
    ensures ChannelOk(s', if op.OpPass? then Told(known, s.rx + op.p.arrivals) else known)
  {
    var queue := s.rx + Arriving(op);
    StepChannel(s, op);
    QueueLater(s, s', known, queue);
    hide Step, Told;
    if op.OpPass? {
      forall id | id in Told(known, queue)
        ensures id in s'.hist.traces
      {
        ToldKeys(known, queue, id);
      }
    } else if op.OpQuit? {
      assert queue == s.rx;
    }
  }

  lemma ToldStays(h: History, h': History, id: nat)
    requires h.log <= h'.log && ToldOutcome(h, id)
    ensures ToldOutcome(h', id)
  {
    var k :| 0 <= k < |h.log| && h.log[k].id == id && (h.log[k].status == Success || h.log[k].status == Error);
    assert h'.log[k] == h.log[k];
  }

  /** A live Connect that every iteration visits first is told the first result for its descriptor. */
  lemma {:induction false} FirstVisitedIsTold(
    s: State, queue: seq<Cmd>, orders: nat -> seq<nat>, n: nat, i: nat, id: nat, k: nat)
    requires Awaiting(s, i, id) && !s.pending[id].cancelled
    requires forall j: nat :: orders(j) != [] && orders(j)[0] == id
    requires k < |queue| && queue[k].ConnectResult? && queue[k].iod == i
    ensures ToldOutcome(Drain(s, queue, orders, n).hist, id)
    decreases |queue|
  {
    var cmd, s1 := queue[0], DrainOne(s, queue[0], orders(n));
    DrainGrows(s1, queue[1..], orders, n + 1);
    if cmd.ConnectResult? && cmd.iod == i {
      assert FirstConnect(s.pending, orders(n), i) == Some(id);
      assert s1.hist.log[|s.hist.log|].id == id;
      ToldStays(s1.hist, Drain(s, queue, orders, n).hist, id);
    } else {
      assert s1.pending[id] == s.pending[id];
      assert queue[1..][k - 1] == queue[k];
      FirstVisitedIsTold(s1, queue[1..], orders, n + 1, i, id, k - 1);
    }
  }

  /** The result of an attempt still outstanding can arrive if it is not in the channel already. */
  lemma ResultMayArrive(s: State, known: map<nat, bool>, i: nat, a: nat) returns (arrivals: seq<Cmd>, k: nat)
    requires ChannelOk(s, known) && IsAttempt(s, i, a) && a !in known
    ensures QueueOk(s, known, s.rx + arrivals)
    ensures k < |s.rx + arrivals| && (s.rx + arrivals)[k].ConnectResult? && (s.rx + arrivals)[k].iod == i
  {
    if j :| 0 <= j < |s.rx| && s.rx[j].ConnectResult? && s.rx[j].attempt == a {
      arrivals, k := [], j;
      assert s.rx + arrivals == s.rx;
    } else {
      arrivals, k := [ConnectResult(i, true, a)], |s.rx|;
    }
  }

  /** `p` may follow the run, and after it some Connect was told what its own attempt did not report. */
  ghost predicate Misleads(ops: seq<Op>, p: Pass) {
    var all := ops + [OpPass(0, None, p)];
    && Possible(all) && Honest(all)
    && exists k :: 0 <= k < |Exec(all).hist.log| && !AnsweredBy(Exec(all).hist, Handled(all), Exec(all).hist.log[k])
  }

  /** The new request's state: its own result cannot have arrived yet. */
  lemma FreshConnect(s: State, i: nat, timeoutMs: i32, now: nat) returns (id: nat)
    requires Inv(s) && s.hist.clock <= now
    ensures var s1 := ConnectTcp(s, i, timeoutMs, now);
            && id == s1.eventCounter && id !in s.hist.traces
            && Awaiting(s1, i, id) && !s1.pending[id].cancelled && IsAttempt(s1, i, id)
            && s1.hist.clock == now && s1.rx == s.rx && Settled(s, s1)
  {
    id := s.eventCounter + 1;
    InvIds(s);
    hide Inv;
    var e := ConnectTcp(s, i, timeoutMs, now).pending[id];
    IssueGrows(s, e, [], now);
    hide Grows, Settled;
    GrowsSettles(s, ConnectTcp(s, i, timeoutMs, now));
  }

  lemma ConnectSnoc(ops: seq<Op>, i: nat, timeoutMs: i32, now: nat)
    requires Possible(ops) && Honest(ops) && Exec(ops).hist.clock <= now
    ensures var again := ops + [OpConnectTcp(i, timeoutMs, now)];
            && Possible(again) && Honest(again) && Handled(again) == Handled(ops)
            && Exec(again) == ConnectTcp(Exec(ops), i, timeoutMs, now)
    ensures Inv(Exec(ops)) && Inv(ConnectTcp(Exec(ops), i, timeoutMs, now)) && ChannelOk(Exec(ops), Handled(ops))
  {
    var connect, s := OpConnectTcp(i, timeoutMs, now), Exec(ops);
    ExecOk(ops);
    ChannelThroughout(ops);
    ExecSnoc(ops, connect);
    RunSnoc(ops, connect);
    StepOk(s, connect);
    hide Exec, Possible, Honest, Serial, Handled, Inv, QueueOk;
    assert s.rx + Arriving(connect) == s.rx;
  }

  /** A connect requested while an earlier attempt on its descriptor is outstanding can be misled by the next pass. */
  lemma EarlyConnectMisled(ops: seq<Op>, i: nat, timeoutMs: i32, now: nat, a: nat) returns (p: Pass)
    requires Possible(ops) && Honest(ops) && Exec(ops).hist.clock <= now
    requires IsAttempt(Exec(ops), i, a) && a !in Handled(ops)
    ensures Misleads(ops + [OpConnectTcp(i, timeoutMs, now)], p)
  {
    hide Exec, Possible, Honest, Serial, Handled, Inv, QueueOk, Settled, Misleads, ChannelOk, ConnectTcp, IsAttempt;
    var s, known := Exec(ops), Handled(ops);
    var s1 := ConnectTcp(s, i, timeoutMs, now);
    ConnectSnoc(ops, i, timeoutMs, now);
    var id := FreshConnect(s, i, timeoutMs, now);
    var arrivals, k := ResultMayArrive(s, known, i, a);
    var order := IterationFrom(s1.pending.Keys, id);
    p := Pass(arrivals, _ => order, now, order, _ => ReadBlock, _ => WriteBlock, now, now);
    ChannelParts(s, known);
    QueueLater(s, s1, known, s.rx + arrivals);
    NotYetHandled(s, known, s.rx + arrivals, id);
    MisledBy(ops + [OpConnectTcp(i, timeoutMs, now)], s1, known, p, i, id, k);
  }

  lemma ChannelParts(s: State, known: map<nat, bool>)
    requires ChannelOk(s, known)
    ensures QueueOk(s, known, s.rx) && known.Keys <= s.hist.traces.Keys
  {
  }

  lemma MisledBy(ops: seq<Op>, s: State, known: map<nat, bool>, p: Pass, i: nat, id: nat, k: nat)
    requires Possible(ops) && Honest(ops) && s == Exec(ops) && known == Handled(ops) && Inv(s)
    requires Awaiting(s, i, id) && !s.pending[id].cancelled && IsAttempt(s, i, id)
    requires PassOk(s, p) && forall j: nat :: p.orders(j) != [] && p.orders(j)[0] == id
    requires QueueOk(s, known, s.rx + p.arrivals) && id !in Told(known, s.rx + p.arrivals)
    requires k < |s.rx + p.arrivals| && (s.rx + p.arrivals)[k].ConnectResult? && (s.rx + p.arrivals)[k].iod == i
    ensures Misleads(ops, p)
  {
    hide Exec, Possible, Honest, Serial, Handled, QueueOk, Told, PassOk, Inv, RunStep, IsAttempt, SerialStep;
    hide ToldOutcome, Misleads, AnsweredBy;
    PassTells(s, p, i, id, k);
    var op := OpPass(0, None, p);
    ExecSnoc(ops, op);
    RunSnoc(ops, op);
    var h := RunStep(s, 0, None, p).state.hist;
    var at := WrongAnswer(RunStep(s, 0, None, p).state, Told(known, s.rx + p.arrivals), i, id);
    MisleadsAt(ops, p, at);
  }

  lemma MisleadsAt(ops: seq<Op>, p: Pass, at: nat)
    requires var all := ops + [OpPass(0, None, p)];
             && Possible(all) && Honest(all) && at < |Exec(all).hist.log|
             && !AnsweredBy(Exec(all).hist, Handled(all), Exec(all).hist.log[at])
    ensures Misleads(ops, p)
  {
    hide Exec, Possible, Honest, Handled, AnsweredBy;
  }

  lemma WrongAnswer(s: State, known: map<nat, bool>, i: nat, id: nat) returns (at: nat)
    requires IsAttempt(s, i, id) && ToldOutcome(s.hist, id) && id !in known
    ensures at < |s.hist.log| && !AnsweredBy(s.hist, known, s.hist.log[at])
  {
    at :| 0 <= at < |s.hist.log| && s.hist.log[at].id == id
          && (s.hist.log[at].status == Success || s.hist.log[at].status == Error);
  }

  lemma NotYetHandled(s: State, known: map<nat, bool>, queue: seq<Cmd>, id: nat)
    requires QueueOk(s, known, queue) && known.Keys <= s.hist.traces.Keys && id !in s.hist.traces
    ensures id !in Told(known, queue)
  {
    ToldKeys(known, queue, id);
  }

  lemma PassTells(s: State, p: Pass, i: nat, id: nat, k: nat)
    requires Inv(s) && Awaiting(s, i, id) && !s.pending[id].cancelled && IsAttempt(s, i, id)
    requires PassOk(s, p) && forall j: nat :: p.orders(j) != [] && p.orders(j)[0] == id
    requires k < |s.rx + p.arrivals| && (s.rx + p.arrivals)[k].ConnectResult? && (s.rx + p.arrivals)[k].iod == i
    ensures ToldOutcome(RunStep(s, 0, None, p).state.hist, id)
    ensures IsAttempt(RunStep(s, 0, None, p).state, i, id)
  {
    hide Inv, PassBody, Nearest, NapFor, HasPending, RunStep, PassOk, Drained, Settled, Grows, ToldOutcome, IsAttempt;
    DrainTells(s, p, i, id, k);
    RestOfPass(s, p);
    PassSettles(s, p);
    SettledKeeps(Drained(s, p), PassBody(s, p), i, id);
    ToldStays(PassBody(s, p).hist, RunStep(s, 0, None, p).state.hist, id);
    SettledKeeps(s, RunStep(s, 0, None, p).state, i, id);
  }

  lemma PassSettles(s: State, p: Pass)
    requires Inv(s) && PassOk(s, p)
    ensures Settled(s, RunStep(s, 0, None, p).state)
    ensures RunStep(s, 0, None, p).state.hist.log == PassBody(s, p).hist.log
  {
    hide Inv, PassOk, RunStep, Settled, PassBody;
    OrderOk(s, p);
    RunStepOk(s, 0, None, p);
    SettledRefl(s);
    SettledStep(s, s, OpPass(0, None, p));
  }

  lemma OrderOk(s: State, p: Pass)
    requires PassOk(s, p)
    ensures NoDuplicates(p.order)
  {
  }

  lemma SettledKeeps(s: State, s': State, i: nat, id: nat)
    requires Settled(s, s')
    ensures ToldOutcome(s.hist, id) ==> ToldOutcome(s'.hist, id)
    ensures IsAttempt(s, i, id) ==> IsAttempt(s', i, id)
  {
    if ToldOutcome(s.hist, id) {
      ToldStays(s.hist, s'.hist, id);
    }
    if id in s.hist.traces {
      assert TraceGrows(s.hist.traces[id], s'.hist.traces[id]);
    }
  }

  lemma DrainTells(s: State, p: Pass, i: nat, id: nat, k: nat)
    requires Awaiting(s, i, id) && !s.pending[id].cancelled
    requires forall j: nat :: p.orders(j) != [] && p.orders(j)[0] == id
    requires k < |s.rx + p.arrivals| && (s.rx + p.arrivals)[k].ConnectResult? && (s.rx + p.arrivals)[k].iod == i
    ensures ToldOutcome(Drained(s, p).hist, id)
  {
    var start := s.(rx := [], hist := s.hist.(clock := p.now));
    hide ToldOutcome, Drain;
    FirstVisitedIsTold(start, s.rx + p.arrivals, p.orders, 0, i, id, k);
  }

  /**
   * Attribution, exactly. After a run in which every connect waited for the earlier attempts on its
   * descriptor, one more connect is safe from every pass that may come next if and only if it, too,
   * is requested with no earlier attempt outstanding.
   */
  lemma ConnectSafeExactly(ops: seq<Op>, i: nat, timeoutMs: i32, now: nat)
    requires Possible(ops) && Honest(ops) && Serial(ops) && Exec(ops).hist.clock <= now
    ensures (forall p :: !Misleads(ops + [OpConnectTcp(i, timeoutMs, now)], p))
            <==> forall a: nat | IsAttempt(Exec(ops), i, a) :: a in Handled(ops)
  {
    var connect := OpConnectTcp(i, timeoutMs, now);
    if forall a: nat | IsAttempt(Exec(ops), i, a) :: a in Handled(ops) {
      forall p
        ensures !Misleads(ops + [connect], p)
      {
        SerialNotMisled(ops, connect, p);
      }
    } else {
      var a: nat :| IsAttempt(Exec(ops), i, a) && a !in Handled(ops);
      var p := EarlyConnectMisled(ops, i, timeoutMs, now, a);
    }
  }

  lemma SerialNotMisled(ops: seq<Op>, op: Op, p: Pass)
    requires Possible(ops) && Serial(ops) && SerialStep(Exec(ops), Handled(ops), op)
    ensures !Misleads(ops + [op], p)
  {
    var all := ops + [op] + [OpPass(0, None, p)];
    RunSnoc(ops, op);
    RunSnoc(ops + [op], OpPass(0, None, p));
    assert Serial(all);
    hide Exec, Possible, Honest, Serial, Handled;
    if Possible(all) && Honest(all) {
      OwnedThroughout(all);
    }
  }

  /** A pass in which the result of attempt 1 arrives. */
  function LatePass(): Pass {
    Pass([ConnectResult(1, true, 1)], _ => [2, 1], 0, [2, 1], _ => ReadBlock, _ => WriteBlock, 0, 0)
  }

  /** A connect is cancelled and made again while its helper thread is still at work. */
  function Reconnect(): seq<Op> { GivenUp() + [OpConnectTcp(1, -1, 0)] }

  lemma RunSnoc(ops: seq<Op>, op: Op)
    ensures var all, s := ops + [op], Exec(ops);
            && (Honest(all) <==> Honest(ops) && QueueOk(s, Handled(ops), s.rx + Arriving(op)))
            && (Serial(all) <==> Serial(ops) && SerialStep(s, Handled(ops), op))
            && Handled(all) == if op.OpPass? then Told(Handled(ops), s.rx + op.p.arrivals) else Handled(ops)
  {
    assert (ops + [op])[..|ops|] == ops && (ops + [op])[|ops|] == op;
    hide QueueOk, SerialStep;
  }

  /** Otherwise it may not: here the second event is told of a success that was the first one's. */
  lemma LateResultMisleads()
    ensures var ops := Reconnect() + [OpPass(0, None, LatePass())];
            && Possible(ops) && Honest(ops) && !Serial(ops)
            && Exec(ops).hist.log == [Fire(2, Success, 0)] && Handled(ops) == map[1 := true]
  {
    var ops, s, cmd := Reconnect(), Exec(Reconnect()), ConnectResult(1, true, 1);
    var op := OpPass(0, None, LatePass());
    ReconnectIs();
    ExecSnoc(ops, op);
    RunSnoc(ops, op);
    LatePassIs(s);
    OneQueued(s, 1, true, 1);
    hide Exec, Possible, Honest, Serial, Handled, RunStep, Reconnect, QueueOk, PassOk;
    assert s.rx + Arriving(op) == [cmd];
  }

  lemma OneQueued(s: State, i: nat, ok: bool, attempt: nat)
    requires IsAttempt(s, i, attempt)
    ensures QueueOk(s, map[], [ConnectResult(i, ok, attempt)])
    ensures Told(map[], [ConnectResult(i, ok, attempt)]) == map[attempt := ok]
  {
    assert [ConnectResult(i, ok, attempt)][1..] == [];
  }

  /** Running one more operation that brings no message. */
  lemma QuietSnoc(ops: seq<Op>, s: State, op: Op)
    requires Possible(ops) && Honest(ops) && Handled(ops) == map[] && Exec(ops) == s
    requires s.rx == [] && !op.OpPass? && !op.OpArrive? && Enabled(s, op)
    ensures Possible(ops + [op]) && Honest(ops + [op]) && Handled(ops + [op]) == map[]
    ensures Exec(ops + [op]) == Step(s, op)
    ensures Serial(ops + [op]) ==> SerialStep(s, map[], op)
  {
    ExecSnoc(ops, op);
    RunSnoc(ops, op);
    hide Exec, Possible, Honest, Handled, Serial, Enabled, Step, SerialStep;
  }

  lemma ReconnectStates()
    ensures var s3 := GivenUpState();
            var s := ConnectTcp(s3, 1, -1, 0);
            && s3.hist.clock == 0 && s3.rx == [] && IsAttempt(s3, 1, 1)
            && s.pending.Keys == {1, 2} && s.pending[1].done && Awaiting(s, 1, 2) && !s.pending[2].cancelled
            && s.rx == [] && s.hist.log == [] && s.hist.clock == 0 && IsAttempt(s, 1, 1)
  {
  }

  /** One connect requested and cancelled. */
  function GivenUp(): seq<Op> { [OpCreateTcp] + [OpConnectTcp(1, -1, 0)] + [OpCancel(1, false)] }

  function GivenUpState(): State { Cancel(ConnectTcp(CreateIodTcp(EmptyPool()), 1, -1, 0), 1, false) }

  lemma GivenUpIs()
    ensures Possible(GivenUp()) && Honest(GivenUp()) && Handled(GivenUp()) == map[]
    ensures Exec(GivenUp()) == GivenUpState()
  {
    hide Exec, Possible, Honest, Serial, Handled, SerialStep, ConnectTcp, Cancel, CreateIodTcp;
    var connect, cancel := OpConnectTcp(1, -1, 0), OpCancel(1, false);
    var s1 := CreateIodTcp(EmptyPool());
    var s2 := ConnectTcp(s1, 1, -1, 0);
    NothingRun();
    QuietStates();
    assert [] + [OpCreateTcp] == [OpCreateTcp];
    QuietSnoc([], EmptyPool(), OpCreateTcp);
    QuietSnoc([OpCreateTcp], s1, connect);
    QuietSnoc([OpCreateTcp] + [connect], s2, cancel);
  }

  lemma NothingRun()
    ensures Exec([]) == EmptyPool() && Possible([]) && Honest([]) && Handled([]) == map[]
  {
  }

  lemma QuietStates()
    ensures var s1 := CreateIodTcp(EmptyPool());
            s1.rx == [] && s1.hist.clock == 0 && ConnectTcp(s1, 1, -1, 0).rx == []
  {
  }

  lemma ReconnectIs()
    ensures Possible(Reconnect()) && Honest(Reconnect()) && !Serial(Reconnect()) && Handled(Reconnect()) == map[]
    ensures var s := Exec(Reconnect());
            && s.pending.Keys == {1, 2} && s.pending[1].done && Awaiting(s, 1, 2) && !s.pending[2].cancelled
            && s.rx == [] && s.hist.log == [] && s.hist.clock == 0 && IsAttempt(s, 1, 1)
  {
    hide Exec, Possible, Honest, Serial, Handled, SerialStep, ConnectTcp, GivenUpState;
    GivenUpIs();
    ReconnectStates();
    QuietSnoc(GivenUp(), GivenUpState(), OpConnectTcp(1, -1, 0));
    NotSerialStep(GivenUpState(), 1, 1, OpConnectTcp(1, -1, 0));
  }

  lemma NotSerialStep(s: State, i: nat, id: nat, op: Op)
    requires IsAttempt(s, i, id) && op.OpConnectTcp? && op.iod == i
    ensures !SerialStep(s, map[], op)
  {
  }

  lemma LatePassIs(s: State)
    requires s.pending.Keys == {1, 2} && s.pending[1].done && Awaiting(s, 1, 2) && !s.pending[2].cancelled
    requires s.rx == [] && s.hist.log == [] && s.hist.clock == 0
    ensures PassOk(s, LatePass())
    ensures RunStep(s, 0, None, LatePass()).state.hist.log == [Fire(2, Success, 0)]
  {
    var p := LatePass();
    var start := s.(rx := [], hist := s.hist.(clock := 0));
    var cmds := s.rx + p.arrivals;
    assert cmds == [ConnectResult(1, true, 1)] && cmds[1..] == [];
    assert FirstConnect(start.pending, [2, 1], 1) == Some(2);
    var drained := DrainOne(start, ConnectResult(1, true, 1), [2, 1]);
    assert Drain(start, cmds, p.orders, 0) == drained by {
      hide DrainOne;
      assert Drain(drained, [], p.orders, 1) == drained;
    }
    assert drained.pending.Keys == {1} && drained.pending[1].done;
    assert drained.hist.log == [Fire(2, Success, 0)];
    hide DrainOne, Drain;
    assert LiveIds(drained.pending, [2, 1]) == [] by {
      assert [2, 1][1..] == [1] && [1][1..] == [];
      assert LiveIds(drained.pending, [1]) == [];
    }
    assert PassBody(s, p) == drained;
    assert !HasPending(drained);
  }
}
