/** When the loop ends and when deadlines fire. */
module PoolTiming {
  import opened Bytes
  import opened PoolModel
  import opened PoolInvariant
  import opened PoolSteps
  import opened PoolRuns
  import opened PoolHistory

  /** No timer and no timeout fires before its deadline. */
  lemma NothingFiresEarly(ops: seq<Op>, k: nat)
    requires Possible(ops) && k < |Exec(ops).hist.log|
    ensures var f := Exec(ops).hist.log[k];
            && f.id in Exec(ops).hist.traces
            && var t := Exec(ops).hist.traces[f.id];
               ByDeadline(t, f.status) ==> t.deadline.Some? && t.deadline.value <= f.at
  {
    LoggedFire(ops, k);
  }

  // ----- Termination -----

  function LiveSet(s: State): set<nat> { set id | id in s.pending && !s.pending[id].done }

  /** A live event's deadline has already been reached. */
  predicate Overdue(s: State) {
    exists id | id in s.pending :: Live(s, id) && IsDue(s.pending[id], s.hist.clock)
  }

  /** By `horizon` the loop must end: its own limit runs out, or every live event's deadline has passed. */
  predicate Bounded(s: State, start: nat, max: Option<nat>, horizon: nat) {
    (max.Some? && start + max.value <= horizon) || EndsBy(s, horizon)
  }

  predicate EndsBy(s: State, horizon: nat) {
    forall id | id in s.pending && !s.pending[id].done :: IsDue(s.pending[id], horizon)
  }

  function TimeLeft(s: State, horizon: nat): nat {
    if s.hist.clock >= horizon then 0 else horizon - s.hist.clock
  }

  /** Every pass that does not return lowers this number. */
  function Measure(s: State, horizon: nat): nat {
    2 * (TimeLeft(s, horizon) + |LiveSet(s)|) + if Overdue(s) then 0 else 1
  }

  lemma {:induction false} DrainKeeps(s: State, cmds: seq<Cmd>, orders: nat -> seq<nat>, k: nat)
    ensures var s' := Drain(s, cmds, orders, k);
            forall id | id in s'.pending :: id in s.pending && s'.pending[id] == s.pending[id]
    decreases |cmds|
  {
    if cmds != [] {
      DrainKeeps(DrainOne(s, cmds[0], orders(k)), cmds[1..], orders, k + 1);
    }
  }

  /** What survives a pass was live before it, with a deadline not yet reached. */
  lemma PassSurvivors(s: State, p: Pass)
    requires Inv(s) && PassOk(s, p)
    ensures var s' := PassBody(s, p);
            forall id | Live(s', id) ::
              && Live(s, id)
              && s'.pending[id].deadline == s.pending[id].deadline
              && !IsDue(s'.pending[id], p.now)
  {
    PassBodyOk(s, p);
    DrainKeeps(s.(rx := [], hist := s.hist.(clock := p.now)), s.rx + p.arrivals, p.orders, 0);
    hide Inv, PassBody, Drain;
  }

  lemma NearestIs(s: State)
    ensures Nearest(s).Some? ==> IsNearest(s, Nearest(s).value)
    ensures Nearest(s).None? ==> forall id | id in s.pending && !s.pending[id].done :: s.pending[id].deadline.None?
  {
    if exists id :: id in s.pending && !s.pending[id].done && s.pending[id].deadline.Some? {
      var id :| id in s.pending && !s.pending[id].done && s.pending[id].deadline.Some?;
      var d := EarliestOf(s, LiveSet(s), id);
      assert IsNearest(s, d);
    }
  }

  /** The minimum over a finite set of events. */
  lemma EarliestOf(s: State, ids: set<nat>, one: nat) returns (d: nat)
    requires ids <= s.pending.Keys
    requires one in ids && s.pending[one].deadline.Some?
    ensures exists id | id in ids :: s.pending[id].deadline == Some(d)
    ensures forall id | id in ids && s.pending[id].deadline.Some? :: d <= s.pending[id].deadline.value
    decreases |ids|
  {
    var others := set id | id in ids - {one} && s.pending[id].deadline.Some?;
    d := s.pending[one].deadline.value;
    assert forall id | id in ids && s.pending[id].deadline.Some? :: id == one || id in others;
    if others != {} {
      var next :| next in others;
      assert others <= ids - {one};
      SubsetSize(others, ids - {one});
      var least := EarliestOf(s, others, next);
      var holder :| holder in others && s.pending[holder].deadline == Some(least);
      assert holder in ids;
      if least < d {
        d := least;
      }
    }
  }

  lemma SubsetSize(a: set<nat>, b: set<nat>)
    requires a <= b
    ensures |a| <= |b|
  {
    if a != {} {
      var x :| x in a;
      SubsetSize(a - {x}, b - {x});
    }
  }

  /** A sleep of zero length means some live event is due. */
  lemma NapProgress(s: State, at: nat)
    ensures var nap := NapFor(Nearest(s), at);
            nap == 0 ==> exists id | id in s.pending :: Live(s, id) && IsDue(s.pending[id], at)
    ensures forall id |
              && id in s.pending && !s.pending[id].done
              && s.pending[id].deadline.Some? && s.pending[id].deadline.value > at ::
              at + NapFor(Nearest(s), at) <= s.pending[id].deadline.value
              || exists j | j in s.pending :: Live(s, j) && IsDue(s.pending[j], at)
  {
    NearestIs(s);
    hide Nearest;
    if Nearest(s).Some? {
      var id :| id in s.pending && Live(s, id) && s.pending[id].deadline == Some(Nearest(s).value);
    }
  }

  lemma PassProgress(s: State, start: nat, max: Option<nat>, p: Pass, horizon: nat)
    requires Inv(s) && PassOk(s, p) && Bounded(s, start, max, horizon)
    requires RunStep(s, start, max, p).Looping?
    ensures Inv(RunStep(s, start, max, p).state)
    ensures Bounded(RunStep(s, start, max, p).state, start, max, horizon)
    ensures Measure(RunStep(s, start, max, p).state, horizon) < Measure(s, horizon)
  {
    hide Inv, PassBody, Nearest, Bounded, Measure;
    RunStepOk(s, start, max, p);
    PassSurvivors(s, p);
    var body, s' := PassBody(s, p), RunStep(s, start, max, p).state;
    NapProgress(body, p.napAt);
    assert HasPending(body) && !(max.Some? && p.elapsed >= start + max.value);
    LoopingMeasure(s, s', p, start, max, horizon, NapFor(Nearest(body), p.napAt));
  }

  lemma LoopingMeasure(s: State, s': State, p: Pass, start: nat, max: Option<nat>, horizon: nat, nap: nat)
    requires Bounded(s, start, max, horizon)
    requires s.hist.clock <= p.now <= p.elapsed <= p.napAt && s'.hist.clock == p.napAt + nap
    requires HasPending(s') && !(max.Some? && p.elapsed >= start + max.value)
    requires forall id | Live(s', id) ::
      Live(s, id) && s'.pending[id].deadline == s.pending[id].deadline && !IsDue(s'.pending[id], p.now)
    requires nap == 0 ==> exists id | id in s'.pending :: Live(s', id) && IsDue(s'.pending[id], p.napAt)
    ensures Bounded(s', start, max, horizon)
    ensures Measure(s', horizon) < Measure(s, horizon)
  {
    var survivor :| survivor in s'.pending && Live(s', survivor);
    assert Live(s, survivor);
    assert p.now < horizon;
    assert LiveSet(s') <= LiveSet(s);
    SubsetSize(LiveSet(s'), LiveSet(s));
    if nap == 0 {
      assert Overdue(s');
      if Overdue(s) {
        var id :| id in s.pending && Live(s, id) && IsDue(s.pending[id], s.hist.clock);
        assert !Live(s', id);
        assert LiveSet(s') <= LiveSet(s) - {id};
        SubsetSize(LiveSet(s'), LiveSet(s) - {id});
      }
    }
  }

  /**
   * Termination. Given a horizon by which the limit of the run or all live deadlines expire, the
   * loop returns within `Measure` plus one passes, however connects, sockets and the clock behave.
   */
  lemma {:induction false} RunTerminates(
    s: State, start: nat, max: Option<nat>, env: nat -> Pass, i: nat, n: nat, horizon: nat)
    requires Inv(s) && Bounded(s, start, max, horizon)
    requires n > Measure(s, horizon)
    requires RunOk(s, start, max, env, i, n)
    ensures RunFrom(s, start, max, env, i, n).Returned?
    decreases n
  {
    hide Inv, Bounded, Measure, RunStep, PassOk;
    if RunStep(s, start, max, env(i)).Looping? {
      PassProgress(s, start, max, env(i), horizon);
      RunTerminates(RunStep(s, start, max, env(i)).state, start, max, env, i + 1, n - 1, horizon);
    }
  }

  /** If every live event has a deadline there is such a horizon, even for an unlimited run. */
  lemma HorizonExists(s: State, ids: set<nat>) returns (horizon: nat)
    requires forall id | id in ids :: id in s.pending && s.pending[id].deadline.Some?
    ensures forall id | id in ids :: IsDue(s.pending[id], horizon)
    decreases |ids|
  {
    horizon := 0;
    if ids != {} {
      var id :| id in ids;
      var rest := HorizonExists(s, ids - {id});
      var d := s.pending[id].deadline.value;
      horizon := if d > rest then d else rest;
    }
  }

  /** `run` terminates when a limit is given or every live event has a deadline. */
  lemma RunAlwaysTerminates(s: State, start: nat, max: Option<nat>, env: nat -> Pass)
    requires Inv(s)
    requires max.Some? || forall id | id in s.pending && !s.pending[id].done :: s.pending[id].deadline.Some?
    requires forall n: nat :: RunOk(s, start, max, env, 0, n)
    ensures exists n: nat :: RunFrom(s, start, max, env, 0, n).Returned?
  {
    var horizon: nat := if max.Some? then start + max.value else 0;
    if max.None? {
      horizon := HorizonExists(s, LiveSet(s));
    }
    assert Bounded(s, start, max, horizon);
    var n := Measure(s, horizon) + 1;
    RunTerminates(s, start, max, env, 0, n, horizon);
  }

  // ----- Exact timing -----

  /** A pass that takes no time and starts exactly when the last sleep ended. */
  predicate ExactPass(s: State, p: Pass) {
    p.now == s.hist.clock == p.elapsed == p.napAt
  }

  ghost predicate ExactRun(s: State, start: nat, max: Option<nat>, env: nat -> Pass, i: nat, n: nat)
    decreases n
  {
    n > 0 ==>
      && PassOk(s, env(i)) && ExactPass(s, env(i))
      && (RunStep(s, start, max, env(i)).Looping? ==>
            ExactRun(RunStep(s, start, max, env(i)).state, start, max, env, i + 1, n - 1))
  }

  /** No live event with a deadline at or after `from` has missed it. */
  predicate OnSchedule(s: State, from: nat) {
    forall id | id in s.pending && !s.pending[id].done && s.pending[id].deadline.Some? ::
      s.pending[id].deadline.value < from || s.pending[id].deadline.value >= s.hist.clock
  }

  /** A call made by deadline, for a deadline from `from` on, is made at that very instant. */
  predicate CalledOnTime(h: History, f: Fire, from: nat) {
    f.id in h.traces ==>
      var t := h.traces[f.id];
      ByDeadline(t, f.status) && t.deadline.Some? && t.deadline.value >= from ==> f.at == t.deadline.value
  }

  /** The calls from log position `n` on that were made by deadline, for deadlines from `from` on, were on time. */
  predicate OnTime(h: History, n: nat, from: nat) {
    forall k | n <= k < |h.log| :: CalledOnTime(h, h.log[k], from)
  }

  /** All handler calls of a pass carry its clock reading. */
  predicate StampedAt(log: seq<Fire>, n: nat, now: nat) { forall k | n <= k < |log| :: log[k].at == now }

  lemma DrainOneStamps(s: State, cmd: Cmd, order: seq<nat>, n: nat)
    requires StampedAt(s.hist.log, n, s.hist.clock)
    ensures StampedAt(DrainOne(s, cmd, order).hist.log, n, s.hist.clock)
    ensures DrainOne(s, cmd, order).hist.clock == s.hist.clock
    ensures DrainOne(s, cmd, order).eventCounter == s.eventCounter
  {
    hide FirstConnect, AwaitsConnect, StampedAt;
    var s' := DrainOne(s, cmd, order);
    assert s'.hist.log == s.hist.log
           || exists f: Fire :: s'.hist.log == s.hist.log + [f] && f.at == s.hist.clock;
    if f: Fire :| s'.hist.log == s.hist.log + [f] && f.at == s.hist.clock {
      StampMore(s.hist.log, f, n);
    }
  }

  lemma StampMore(log: seq<Fire>, f: Fire, n: nat)
    requires StampedAt(log, n, f.at)
    ensures StampedAt(log + [f], n, f.at)
  {
  }

  lemma {:induction false} DrainStamps(s: State, cmds: seq<Cmd>, orders: nat -> seq<nat>, k: nat, n: nat)
    requires StampedAt(s.hist.log, n, s.hist.clock)
    ensures StampedAt(Drain(s, cmds, orders, k).hist.log, n, s.hist.clock)
    ensures Drain(s, cmds, orders, k).hist.clock == s.hist.clock
    ensures Drain(s, cmds, orders, k).eventCounter == s.eventCounter
    decreases |cmds|
  {
    if cmds != [] {
      DrainOneStamps(s, cmds[0], orders(k), n);
      hide DrainOne, StampedAt;
      DrainStamps(DrainOne(s, cmds[0], orders(k)), cmds[1..], orders, k + 1, n);
    }
  }

  lemma TryIoLog(s: State, id: nat, p: Pass)
    ensures TryIo(s, id, p).0.hist.log == s.hist.log
    ensures TryIo(s, id, p).0.eventCounter == s.eventCounter
  {
  }

  lemma {:induction false} IoPhaseStamps(s: State, ids: seq<nat>, p: Pass, todo: seq<Fire>)
    requires StampedAt(todo, 0, p.now)
    ensures IoPhase(s, ids, p, todo).0.hist.log == s.hist.log
    ensures IoPhase(s, ids, p, todo).0.eventCounter == s.eventCounter
    ensures StampedAt(IoPhase(s, ids, p, todo).1, 0, p.now)
    decreases |ids|
  {
    if ids == [] {
    } else if Scheduled(todo, ids[0]) {
      IoPhaseStamps(s, ids[1..], p, todo);
    } else {
      TryIoLog(s, ids[0], p);
      hide TryIo;
      var (s', st) := TryIo(s, ids[0], p);
      IoPhaseStamps(s', ids[1..], p, if st.Some? then todo + [Fire(ids[0], st.value, p.now)] else todo);
    }
  }

  lemma {:induction false} DueStamps(pending: map<nat, Pending>, ids: seq<nat>, now: nat)
    ensures StampedAt(Due(pending, ids, now), 0, now)
  {
    if ids != [] {
      DueStamps(pending, ids[1..], now);
    }
  }

  lemma {:induction false} DeliverStamps(s: State, todo: seq<Fire>, n: nat, now: nat)
    requires StampedAt(s.hist.log, n, now) && StampedAt(todo, 0, now)
    ensures StampedAt(DeliverAll(s, todo).hist.log, n, now)
    ensures DeliverAll(s, todo).eventCounter == s.eventCounter
    decreases |todo|
  {
    if todo != [] {
      assert forall k | 0 <= k < |todo[1..]| :: todo[1..][k] == todo[k + 1];
      DeliverStamps(DeliverOne(s, todo[0]), todo[1..], n, now);
    }
  }

  lemma PassStamps(s: State, p: Pass)
    ensures StampedAt(PassBody(s, p).hist.log, |s.hist.log|, p.now)
    ensures PassBody(s, p).eventCounter == s.eventCounter
  {
    var start := s.(rx := [], hist := s.hist.(clock := p.now));
    DrainStamps(start, s.rx + p.arrivals, p.orders, 0, |s.hist.log|);
    var drained := Drained(s, p);
    var ids := LiveIds(drained.pending, p.order);
    var due := Due(drained.pending, ids, p.now);
    DueStamps(drained.pending, ids, p.now);
    IoPhaseStamps(drained, ids, p, due);
    var (resolved, todo) := IoPhase(drained, ids, p, due);
    DeliverStamps(resolved, todo, |s.hist.log|, p.now);
  }

  lemma EventFate(s: State, id: nat)
    requires Inv(s) && id in s.hist.traces
    ensures OneFate(s, id)
  {
    assert EventOk(s, id);
  }

  /** An event that a pass calls was live before the pass. */
  lemma CalledWasLive(s: State, s': State, k: nat)
    requires Inv(s) && Inv(s') && Grows(s, s') && |s.hist.log| <= k < |s'.hist.log|
    requires s'.hist.log[k].id in s.hist.traces
    ensures Live(s, s'.hist.log[k].id)
  {
    hide Inv, FiresOf, TraceGrows;
    var id := s'.hist.log[k].id;
    EventFate(s, id);
    EventFate(s', id);
    FiresCount(s.hist.log, id);
    FiresCount(s'.hist.log, id);
    assert forall j | 0 <= j < |s.hist.log| :: s'.hist.log[j] == s.hist.log[j];
  }

  lemma ExactPassOnTime(s: State, start: nat, max: Option<nat>, p: Pass, from: nat)
    requires Inv(s) && PassOk(s, p) && ExactPass(s, p) && OnSchedule(s, from)
    ensures var s' := RunStep(s, start, max, p).state;
            && Inv(s') && Grows(s, s')
            && OnTime(s'.hist, |s.hist.log|, from)
            && (RunStep(s, start, max, p).Looping? ==> OnSchedule(s', from))
  {
    hide Inv, PassBody, Nearest, Grows, OnSchedule, CalledOnTime, StampedAt;
    var body, s' := PassBody(s, p), RunStep(s, start, max, p).state;
    RunStepOk(s, start, max, p);
    PassBodyGrows(s, p);
    SameRecordGrows(s, body, s');
    PassStamps(s, p);
    forall k | |s.hist.log| <= k < |s'.hist.log|
      ensures CalledOnTime(s'.hist, s'.hist.log[k], from)
    {
      assert s'.hist.log[k].at == p.now by {
        StampedIs(body.hist.log, |s.hist.log|, p.now, k);
      }
      ExactCall(s, s', k, p.now, from);
    }
    if RunStep(s, start, max, p).Looping? {
      StillOnSchedule(s, start, max, p, from);
    }
  }

  lemma StampedIs(log: seq<Fire>, n: nat, now: nat, k: nat)
    requires StampedAt(log, n, now) && n <= k < |log|
    ensures log[k].at == now
  {
  }

  /** A sleep of the exact length misses no deadline. */
  lemma StillOnSchedule(s: State, start: nat, max: Option<nat>, p: Pass, from: nat)
    requires Inv(s) && PassOk(s, p) && ExactPass(s, p) && OnSchedule(s, from)
    requires RunStep(s, start, max, p).Looping?
    ensures OnSchedule(RunStep(s, start, max, p).state, from)
  {
    hide Inv, PassBody, Nearest;
    PassSurvivors(s, p);
    NapProgress(PassBody(s, p), p.napAt);
  }

  lemma ExactCall(s: State, s': State, k: nat, now: nat, from: nat)
    requires Inv(s) && Inv(s') && Grows(s, s') && OnSchedule(s, from) && s.hist.clock == now
    requires |s.hist.log| <= k < |s'.hist.log| && s'.hist.log[k].at == now
    requires s'.eventCounter == s.eventCounter
    ensures CalledOnTime(s'.hist, s'.hist.log[k], from)
  {
    var f := s'.hist.log[k];
    assert f.id in s.hist.traces;
    CalledWasLive(s, s', k);
    LiveEntry(s, f.id);
    LoggedIs(s', k);
    hide Inv;
  }

  lemma LoggedIs(s: State, k: nat)
    requires Inv(s) && k < |s.hist.log|
    ensures s.hist.log[k].id in s.hist.traces && FireOk(s.hist.traces[s.hist.log[k].id], s.hist.log[k])
  {
    var f := s.hist.log[k];
    assert EventOk(s, f.id);
    FiresCount(s.hist.log, f.id);
    hide FireOk, TraceOk, Agrees, IodsOk, ConnectionsOk, StrictBut;
  }

  /**
   * Exact timing. With exact sleeps and passes that take no time, every call a run makes by
   * deadline, for a deadline at or after the run's first pass, is made at that instant; and while
   * the loop goes on no such deadline has been missed.
   */
  lemma {:induction false} DeadlinesFireOnTime(
    s: State, start: nat, max: Option<nat>, env: nat -> Pass, i: nat, n: nat, from: nat)
    requires Inv(s) && OnSchedule(s, from) && ExactRun(s, start, max, env, i, n)
    ensures var out := RunFrom(s, start, max, env, i, n);
            && Inv(out.state) && Grows(s, out.state)
            && OnTime(out.state.hist, |s.hist.log|, from)
            && (out.Looping? ==> OnSchedule(out.state, from))
    decreases n
  {
    if n == 0 {
      GrowsRefl(s);
    } else {
      hide Inv, OnSchedule, RunStep, OnTime, Grows, PassOk, ExactPass;
      ExactPassOnTime(s, start, max, env(i), from);
      var s1 := RunStep(s, start, max, env(i)).state;
      if RunStep(s, start, max, env(i)).Looping? {
        DeadlinesFireOnTime(s1, start, max, env, i + 1, n - 1, from);
        var s2 := RunFrom(s, start, max, env, i, n).state;
        GrowsTrans(s, s1, s2);
        OnTimeJoins(s, s1, s2, from);
      }
    }
  }

  lemma OnTimeJoins(s: State, s1: State, s2: State, from: nat)
    requires Grows(s, s1) && Grows(s1, s2) && Inv(s1)
    requires OnTime(s1.hist, |s.hist.log|, from) && OnTime(s2.hist, |s1.hist.log|, from)
    ensures OnTime(s2.hist, |s.hist.log|, from)
  {
    forall k | |s.hist.log| <= k < |s2.hist.log|
      ensures CalledOnTime(s2.hist, s2.hist.log[k], from)
    {
      if k < |s1.hist.log| {
        assert s2.hist.log[k] == s1.hist.log[k];
        assert CalledOnTime(s1.hist, s1.hist.log[k], from);
        assert s1.hist.log[k].id in s1.hist.traces;
      }
    }
  }

  /**
   * For a run that starts afresh that covers every deadline not already past: each timer and timeout
   * the run makes for one is made at that instant, and while the loop goes on none is missed.
   */
  lemma FreshRunOnTime(s: State, start: nat, max: Option<nat>, env: nat -> Pass, n: nat)
    requires Inv(s) && ExactRun(s, start, max, env, 0, n)
    ensures var out, now := RunFrom(s, start, max, env, 0, n), s.hist.clock;
            && OnTime(out.state.hist, |s.hist.log|, now)
            && (out.Looping? ==> OnSchedule(out.state, now))
  {
    DeadlinesFireOnTime(s, start, max, env, 0, n, s.hist.clock);
  }

  // ----- Quitting -----

  lemma {:induction false} DrainQuits(s: State, cmds: seq<Cmd>, orders: nat -> seq<nat>, k: nat)
    ensures Drain(s, cmds, orders, k).quit <==> s.quit || Quit in cmds
    decreases |cmds|
  {
    if cmds != [] {
      DrainQuits(DrainOne(s, cmds[0], orders(k)), cmds[1..], orders, k + 1);
      assert Quit in cmds <==> cmds[0] == Quit || Quit in cmds[1..];
    }
  }

  lemma TryIoQuit(s: State, id: nat, p: Pass)
    ensures TryIo(s, id, p).0.quit == s.quit
  {
  }

  lemma {:induction false} IoPhaseQuit(s: State, ids: seq<nat>, p: Pass, todo: seq<Fire>)
    ensures IoPhase(s, ids, p, todo).0.quit == s.quit
    decreases |ids|
  {
    if ids == [] {
    } else if Scheduled(todo, ids[0]) {
      IoPhaseQuit(s, ids[1..], p, todo);
    } else {
      TryIoQuit(s, ids[0], p);
      hide TryIo;
      var (s', st) := TryIo(s, ids[0], p);
      IoPhaseQuit(s', ids[1..], p, if st.Some? then todo + [Fire(ids[0], st.value, p.now)] else todo);
    }
  }

  lemma {:induction false} DeliverQuit(s: State, todo: seq<Fire>)
    ensures DeliverAll(s, todo).quit == s.quit
    decreases |todo|
  {
    if todo != [] {
      DeliverQuit(DeliverOne(s, todo[0]), todo[1..]);
    }
  }

  /**
   * `run` clears the quit flag, yet a quit requested before it, or arriving during it, stops it
   * within one pass: the request also travels through the command channel.
   */
  lemma QuitStopsRun(s: State, start: nat, max: Option<nat>, p: Pass)
    requires Quit in s.rx || Quit in p.arrivals
    ensures var out := RunStep(s.(quit := false), start, max, p);
            out.Returned? && (out.status == NoEvents || out.status == LoopQuit)
    ensures RequestQuit(s).rx == s.rx + [Quit] && RequestQuit(s).quit
  {
    var s0 := s.(quit := false);
    var begin := s0.(rx := [], hist := s.hist.(clock := p.now));
    DrainQuits(begin, s.rx + p.arrivals, p.orders, 0);
    var drained := Drained(s0, p);
    var ids := LiveIds(drained.pending, p.order);
    var due := Due(drained.pending, ids, p.now);
    IoPhaseQuit(drained, ids, p, due);
    var (resolved, todo) := IoPhase(drained, ids, p, due);
    DeliverQuit(resolved, todo);
    assert PassBody(s0, p).quit;
  }
}
