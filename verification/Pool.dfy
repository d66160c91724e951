/**
 * The event pool object (wnr-nsock/src/pool.rs): the methods of `Pool`, each proved to take exactly
 * the step of the transition system and so to keep the pool invariant.
 */
module PoolObject {
  import opened Bytes
  import opened PoolModel
  import opened PoolInvariant
  import opened PoolSteps
  import opened PoolRuns
  import opened PoolTiming

  /** Acting on a message does not look at the channel. */
  lemma ChannelApart(s: State, cmd: Cmd, order: seq<nat>)
    ensures DrainOne(s.(rx := []), cmd, order) == DrainOne(s, cmd, order).(rx := [])
  {
    hide FirstConnect;
    match cmd
    case Quit =>
    case ConnectResult(i, ok, _) =>
      if FirstConnect(s.pending, order, i).Some? && i in s.iods {
        assert Connected(s.(rx := []), i) == Connected(s, i).(rx := []);
      }
  }

  lemma PassNoDuplicates(s: State, p: Pass)
    requires PassOk(s, p)
    ensures NoDuplicates(p.order)
  {
  }

  class Pool {
    var iodCounter: nat
    var eventCounter: nat
    var iods: map<nat, Iod>
    var pending: map<nat, Pending>
    var readBufs: map<nat, seq<byte>>
    var rx: seq<Cmd>
    var quit: bool
    /** The observer's record, including the log of handler calls. */
    ghost var hist: History

    ghost function View(): State
      reads this
    {
      State(iodCounter, eventCounter, iods, pending, readBufs, rx, quit, hist)
    }

    ghost predicate Valid()
      reads this
    {
      Inv(View())
    }

    constructor ()
      ensures View() == EmptyPool() && Valid()
    {
      iodCounter, eventCounter := 0, 0;
      iods, pending, readBufs := map[], map[], map[];
      rx, quit := [], false;
      hist := EmptyHistory();
      new;
      EmptyOk();
    }

    method CreateIodTcp() returns (id: nat)
      requires Valid()
      modifies this
      ensures Valid() && View() == Step(old(View()), OpCreateTcp)
      ensures id == iodCounter
    {
      ghost var s := View();
      hide Inv;
      StepOk(s, OpCreateTcp);
      iodCounter := iodCounter + 1;
      id := iodCounter;
      iods := iods[id := Iod(false, false, Tcp, 0, 0, false)];
      hist := Step(s, OpCreateTcp).hist;
    }

    method CreateIodUdp(bound: bool) returns (id: nat)
      requires Valid()
      modifies this
      ensures Valid() && View() == Step(old(View()), OpCreateUdp(bound))
      ensures id == iodCounter
    {
      ghost var s := View();
      hide Inv;
      StepOk(s, OpCreateUdp(bound));
      iodCounter := iodCounter + 1;
      id := iodCounter;
      if bound {
        iods := iods[id := Iod(false, true, Udp, 0, 0, false)];
      } else {
        var iod := Iod(false, false, Tcp, 0, 0, false);
        iods := iods[id := iod.(kind := Udp)];
      }
      hist := Step(s, OpCreateUdp(bound)).hist;
    }

    /** Register a new event under the next id. */
    method Insert(e: Pending, ghost data: seq<byte>, ghost now: nat) returns (id: nat)
      requires Valid() && FreshRequest(e, data)
      modifies this
      ensures Valid() && View() == Issue(old(View()), e, data, now)
      ensures id == eventCounter
    {
      hide Inv, FreshRequest;
      ghost var s := View();
      IssueOk(s, e, data, now);
      eventCounter := eventCounter + 1;
      id := eventCounter;
      pending := pending[id := e];
      hist := Issue(s, e, data, now).hist;
    }

    method ConnectTcp(iodId: nat, timeoutMs: i32, now: nat) returns (id: nat)
      requires Valid() && hist.clock <= now
      modifies this
      ensures Valid() && View() == Step(old(View()), OpConnectTcp(iodId, timeoutMs, now))
      ensures id == eventCounter
    {
      hide Inv, Issue;
      var timeout: nat := if timeoutMs < 0 then CONNECT_DEFAULT else timeoutMs * MILLI;
      id := Insert(Pending(Some(iodId), Connect, Some(now + timeout), [], None, 0, false, false, false), [], now);
    }

    method ConnectUdp(iodId: nat)
      requires Valid()
      modifies this
      ensures Valid() && View() == Step(old(View()), OpConnectUdp(iodId))
    {
      ghost var s := View();
      hide Inv;
      StepOk(s, OpConnectUdp(iodId));
      if iodId in iods {
        iods := iods[iodId := iods[iodId].(connected := true, kind := Udp)];
      }
      hist := Step(s, OpConnectUdp(iodId)).hist;
    }

    method Read(iodId: nat, timeoutMs: i32, now: nat) returns (id: nat)
      requires Valid() && hist.clock <= now
      modifies this
      ensures Valid() && View() == Step(old(View()), OpRead(iodId, timeoutMs, now))
      ensures id == eventCounter
    {
      hide Inv, Issue;
      var deadline := if timeoutMs < 0 then None else Some(now + timeoutMs * MILLI);
      id := Insert(Pending(Some(iodId), EventType.Read, deadline, [], None, 1, false, false, false), [], now);
    }

    method ReadBytes(iodId: nat, timeoutMs: i32, nbytes: nat, now: nat) returns (id: nat)
      requires Valid() && hist.clock <= now
      modifies this
      ensures Valid() && View() == Step(old(View()), OpReadBytes(iodId, timeoutMs, nbytes, now))
      ensures id == eventCounter
    {
      hide Inv, Issue;
      var deadline := if timeoutMs < 0 then None else Some(now + timeoutMs * MILLI);
      var target: nat := if nbytes > 1 then nbytes else 1;
      id := Insert(Pending(Some(iodId), EventType.Read, deadline, [], None, target, false, false, false), [], now);
    }

    method ReadLines(iodId: nat, timeoutMs: i32, maxline: nat, now: nat) returns (id: nat)
      requires Valid() && hist.clock <= now
      modifies this
      ensures Valid() && View() == Step(old(View()), OpReadLines(iodId, timeoutMs, maxline, now))
      ensures id == eventCounter
    {
      hide Inv, Issue;
      var deadline := if timeoutMs < 0 then None else Some(now + timeoutMs * MILLI);
      var target: nat := if maxline > 1 then maxline else 1;
      id := Insert(Pending(Some(iodId), EventType.Read, deadline, [], None, target, true, false, false), [], now);
    }

    method Write(iodId: nat, data: seq<byte>, timeoutMs: i32, now: nat) returns (id: nat)
      requires Valid() && hist.clock <= now
      modifies this
      ensures Valid() && View() == Step(old(View()), OpWrite(iodId, data, timeoutMs, now))
      ensures id == eventCounter
    {
      hide Inv, Issue;
      var deadline := if timeoutMs < 0 then None else Some(now + timeoutMs * MILLI);
      id := Insert(
        Pending(Some(iodId), EventType.Write, deadline, [], Some(data), |data|, false, false, false), data, now);
    }

    /** `send_udp`: associate the peer, then schedule a write. */
    method SendUdp(iodId: nat, data: seq<byte>, timeoutMs: i32, now: nat) returns (id: nat)
      requires Valid() && hist.clock <= now
      modifies this
      ensures Valid()
      ensures View() == Step(Step(old(View()), OpConnectUdp(iodId)), OpWrite(iodId, data, timeoutMs, now))
      ensures id == eventCounter
    {
      ConnectUdp(iodId);
      id := Write(iodId, data, timeoutMs, now);
    }

    method TimerCreate(timeoutMs: u32, now: nat) returns (id: nat)
      requires Valid() && hist.clock <= now
      modifies this
      ensures Valid() && View() == Step(old(View()), OpTimer(timeoutMs, now))
      ensures id == eventCounter
    {
      hide Inv, Issue;
      var deadline := now + timeoutMs * MILLI;
      id := Insert(Pending(None, Timer, Some(deadline), [], None, 0, false, false, false), [], now);
    }

    /** A handler call. */
    ghost method Call(id: nat, status: EventStatus)
      modifies this`hist
      ensures View() == LogFire(old(View()), id, status)
    {
      hist := hist.(log := hist.log + [Fire(id, status, hist.clock)]);
    }

    method Cancel(id: nat, notify: bool) returns (found: bool)
      requires Valid()
      modifies this
      ensures Valid() && View() == Step(old(View()), OpCancel(id, notify))
      ensures found == (id in old(pending))
    {
      hide Inv;
      StepOk(View(), OpCancel(id, notify));
      if id !in pending {
        return false;
      }
      var e := pending[id];
      if notify {
        if !e.done {
          Call(id, Cancelled);
        }
      } else if !e.done {
        hist := hist.(silenced := hist.silenced + {id});
      }
      pending := pending[id := e.(cancelled := true, done := true)];
      found := true;
    }

    /** Kill one event if it is live, and forget it. */
    method Kill(id: nat)
      modifies this
      ensures View() == KillOne(old(View()), id)
    {
      if id in pending {
        var e := pending[id];
        if !e.done && !e.cancelled {
          Call(id, EventStatus.Kill);
        }
      }
      readBufs := readBufs - {id};
      pending := pending - {id};
      assert id !in old(pending) ==> pending == old(pending);
    }

    /** Kill a list of events. */
    method KillEach(ids: seq<nat>)
      modifies this
      ensures View() == KillAll(old(View()), ids)
      ensures iods == old(iods)
    {
      ghost var s := View();
      for k := 0 to |ids|
        invariant KillAll(View(), ids[k..]) == KillAll(s, ids)
        invariant iods == s.iods
      {
        Kill(ids[k]);
      }
    }

    /** The events of a descriptor, in iteration order. */
    method EventsOf(iodId: nat, order: seq<nat>) returns (evIds: seq<nat>)
      ensures evIds == OnIod(pending, order, iodId)
    {
      evIds := [];
      for k := 0 to |order|
        invariant evIds + OnIod(pending, order[k..], iodId) == OnIod(pending, order, iodId)
      {
        if order[k] in pending && pending[order[k]].iod == Some(iodId) {
          evIds := evIds + [order[k]];
        }
      }
    }

    method DeleteIod(iodId: nat, order: seq<nat>) returns (existed: bool)
      requires Valid() && NoDuplicates(order) && Covers(order, pending.Keys)
      modifies this
      ensures Valid() && View() == Step(old(View()), OpDeleteIod(iodId, order))
      ensures existed == (iodId in old(iods))
    {
      hide Inv, KillAll, OnIod;
      StepOk(View(), OpDeleteIod(iodId, order));
      var evIds := EventsOf(iodId, order);
      KillEach(evIds);
      existed := iodId in iods;
      iods := iods - {iodId};
    }

    method Delete(iodOrder: seq<nat>, orders: nat -> seq<nat>, order: seq<nat>)
      requires Valid() && Enabled(View(), OpDelete(iodOrder, orders, order))
      modifies this
      ensures Valid() && View() == Step(old(View()), OpDelete(iodOrder, orders, order))
      ensures pending == map[] && iods == map[]
    {
      hide Inv, KillAll, PoolModel.DeleteIod, NoDuplicates;
      ghost var s := View();
      StepOk(s, OpDelete(iodOrder, orders, order));
      DeleteOk(s, iodOrder, orders, order);
      for k := 0 to |iodOrder|
        invariant Valid()
        invariant pending.Keys <= s.pending.Keys
        invariant DeleteIods(View(), iodOrder[k..], orders) == DeleteIods(s, iodOrder, orders)
      {
        DeleteIodOk(View(), iodOrder[k], orders(iodOrder[k]));
        var _ := DeleteIod(iodOrder[k], orders(iodOrder[k]));
      }
      KillEach(order);
      quit := true;
    }

    method TakeReadBuf(id: nat) returns (bytes: seq<byte>)
      requires Valid()
      modifies this
      ensures Valid() && View() == Step(old(View()), OpTake(id))
      ensures bytes == TakenBuf(old(View()), id)
    {
      hide Inv;
      StepOk(View(), OpTake(id));
      if id in readBufs {
        bytes := readBufs[id];
        readBufs := readBufs - {id};
        hist := hist.(taken := hist.taken + {id});
        return;
      }
      bytes := if id in pending then pending[id].buf else [];
    }

    method LoopQuit()
      requires Valid()
      modifies this
      ensures Valid() && View() == Step(old(View()), OpQuit)
    {
      hide Inv;
      StepOk(View(), OpQuit);
      quit := true;
      rx := rx + [Quit];
    }

    predicate HasPending()
      reads this
      ensures HasPending() <==> PoolModel.HasPending(View())
    {
      exists id :: id in pending && !pending[id].done
    }

    /** `drain_commands`: take messages off the channel until it is empty. */
    method DrainCommands(orders: nat -> seq<nat>)
      modifies this
      ensures View() == Drain(old(View()).(rx := []), old(rx), orders, 0)
    {
      hide DrainOne;
      ghost var s := View();
      var k := 0;
      while rx != []
        invariant Drain(View().(rx := []), rx, orders, k) == Drain(s.(rx := []), s.rx, orders, 0)
        decreases |rx|
      {
        var cmd := rx[0];
        rx := rx[1..];
        ChannelApart(View(), cmd, orders(k));
        Dispatch(cmd, orders(k));
        k := k + 1;
      }
    }

    /** Act on one message. */
    method Dispatch(cmd: Cmd, order: seq<nat>)
      modifies this
      ensures View() == DrainOne(old(View()), cmd, order)
      ensures rx == old(rx)
    {
      match cmd {
        case Quit => quit := true;
        case ConnectResult(iodId, ok, attempt) => Complete(iodId, ok, attempt, order);
      }
    }

    /** Complete a live Connect event of the descriptor, if there is one. */
    method Complete(iodId: nat, ok: bool, ghost attempt: nat, order: seq<nat>)
      modifies this
      ensures View() == DrainOne(old(View()), ConnectResult(iodId, ok, attempt), order)
      ensures rx == old(rx)
    {
      ghost var s := View();
      var j := 0;
      while j < |order| && !(order[j] in pending && AwaitsConnect(pending[order[j]], iodId))
        invariant 0 <= j <= |order| && View() == s
        invariant FirstConnect(pending, order[j..], iodId) == FirstConnect(s.pending, order, iodId)
      {
        j := j + 1;
      }
      if j == |order| {
        return;
      }
      var evid := order[j];
      if ok && iodId in iods {
        hist := Connected(s, iodId).hist;
        iods := iods[iodId := iods[iodId].(tcp := true, kind := Tcp, connected := true)];
      }
      var p := pending[evid];
      pending := pending - {evid};
      if p.cancelled {
        return;
      }
      Call(evid, if ok then Success else Error);
    }

    method TryRead(id: nat, r: ReadResult) returns (st: Option<EventStatus>)
      modifies this
      ensures (View(), st) == PoolModel.TryRead(old(View()), id, r)
    {
      if id !in pending || pending[id].iod.None? {
        return None;
      }
      var iodId := pending[id].iod.value;
      if iodId !in iods {
        return None;
      }
      ghost var s := View();
      var iod := iods[iodId];
      match iod.kind {
        case Tcp =>
          if !iod.tcp {
            return None;
          }
          match r {
            case Data(offered) =>
              var b := Take(offered, READ_CHUNK);
              if b == [] {
                return Some(Eof);
              }
              pending := pending[id := pending[id].(buf := pending[id].buf + b)];
              iods := iods[iodId := iod.(readCount := iod.readCount + |b|)];
              hist := CreditRead(s, id, iodId, Chunk(Tcp, b), pending[id].buf).hist;
              var e := pending[id];
              var complete := if e.lineRead then NEWLINE in e.buf || |e.buf| >= e.target else |e.buf| >= e.target;
              if complete {
                return Some(Success);
              }
              return None;
            case ReadBlock => return None;
            case ReadFailed => return Some(Error);
          }
        case Udp =>
          if !iod.udp {
            return None;
          }
          match r {
            case Data(offered) =>
              var b := Take(offered, DATAGRAM);
              pending := pending[id := pending[id].(buf := b)];
              iods := iods[iodId := iod.(readCount := iod.readCount + |b|)];
              hist := CreditRead(s, id, iodId, Chunk(Udp, b), b).hist;
              return Some(Success);
            case ReadBlock => return None;
            case ReadFailed => return Some(Error);
          }
      }
    }

    method TryWrite(id: nat, r: WriteResult) returns (st: Option<EventStatus>)
      modifies this
      ensures (View(), st) == PoolModel.TryWrite(old(View()), id, r)
    {
      if id !in pending || pending[id].iod.None? {
        return None;
      }
      var iodId := pending[id].iod.value;
      if iodId !in iods || pending[id].wbuf.None? {
        return None;
      }
      ghost var s := View();
      var iod := iods[iodId];
      var data := pending[id].wbuf.value;
      match iod.kind {
        case Tcp =>
          if !iod.tcp {
            return None;
          }
          match r {
            case Accepts(limit) =>
              var n := |Take(data, limit)|;
              if n == 0 {
                return Some(Eof);
              }
              var rem := data[n..];
              assert data[..n] == Take(data, limit);
              var wbuf := if rem == [] then None else Some(rem);
              pending := pending[id := pending[id].(wbuf := wbuf)];
              iods := iods[iodId := iod.(writeCount := iod.writeCount + n)];
              hist := CreditWrite(s, id, iodId, data[..n], wbuf).hist;
              if pending[id].wbuf.None? {
                return Some(Success);
              }
              return None;
            case WriteBlock => return None;
            case WriteFailed => return Some(Error);
          }
        case Udp =>
          if !iod.udp {
            return None;
          }
          match r {
            case Accepts(_) =>
              iods := iods[iodId := iod.(writeCount := iod.writeCount + |data|)];
              pending := pending[id := pending[id].(wbuf := None)];
              hist := CreditWrite(s, id, iodId, data, None).hist;
              return Some(Success);
            case WriteBlock => return None;
            case WriteFailed => return Some(Error);
          }
      }
    }

    /** The first two phases of a pass: deadlines, then I/O on what they left. */
    method Resolve(p: Pass) returns (todo: seq<Fire>)
      modifies this
      ensures var ids := LiveIds(old(pending), p.order);
              (View(), todo) == IoPhase(old(View()), ids, p, Due(old(pending), ids, p.now))
    {
      var ids := Undelivered(p.order);
      todo := ReachedDeadlines(ids, p.now);
      todo := AttemptIo(ids, p, todo);
    }

    method Undelivered(order: seq<nat>) returns (ids: seq<nat>)
      ensures ids == LiveIds(pending, order)
    {
      ids := [];
      for k := 0 to |order|
        invariant ids + LiveIds(pending, order[k..]) == LiveIds(pending, order)
      {
        if order[k] in pending && !pending[order[k]].done {
          ids := ids + [order[k]];
        }
      }
    }

    method ReachedDeadlines(ids: seq<nat>, now: nat) returns (todo: seq<Fire>)
      ensures todo == Due(pending, ids, now)
    {
      todo := [];
      for k := 0 to |ids|
        invariant todo + Due(pending, ids[k..], now) == Due(pending, ids, now)
      {
        var id := ids[k];
        if id in pending && IsDue(pending[id], now) {
          todo := todo + [Fire(id, if pending[id].kind == Timer then Success else Timeout, now)];
        }
      }
    }

    method AttemptIo(ids: seq<nat>, p: Pass, due: seq<Fire>) returns (todo: seq<Fire>)
      modifies this
      ensures (View(), todo) == IoPhase(old(View()), ids, p, due)
    {
      hide TryIo;
      ghost var s := View();
      todo := due;
      for k := 0 to |ids|
        invariant IoPhase(View(), ids[k..], p, todo) == IoPhase(s, ids, p, due)
      {
        var id := ids[k];
        if exists j :: 0 <= j < |todo| && todo[j].id == id {
          continue;
        }
        var st := AttemptOne(id, p);
        if st.Some? {
          todo := todo + [Fire(id, st.value, p.now)];
        }
      }
    }

    method AttemptOne(id: nat, p: Pass) returns (st: Option<EventStatus>)
      modifies this
      ensures (View(), st) == TryIo(old(View()), id, p)
    {
      hide PoolModel.TryRead, PoolModel.TryWrite;
      st := None;
      if id in pending {
        match pending[id].kind {
          case Read => st := TryRead(id, p.readable(id));
          case Write => st := TryWrite(id, p.writable(id));
          case _ =>
        }
      }
    }

    method Deliver(todo: seq<Fire>)
      modifies this
      ensures View() == DeliverAll(old(View()), todo)
    {
      ghost var s := View();
      for k := 0 to |todo|
        invariant DeliverAll(View(), todo[k..]) == DeliverAll(s, todo)
      {
        var f := todo[k];
        if f.id in pending {
          var e := pending[f.id];
          if e.done || e.cancelled {
            continue;
          }
          if e.kind == EventType.Read {
            readBufs := readBufs[f.id := e.buf];
          }
          hist := hist.(log := hist.log + [f]);
          pending := pending - {f.id};
        }
      }
    }

    method NearestDeadline() returns (best: Option<nat>)
      ensures best == Nearest(View())
    {
      best := None;
      var rest := pending.Keys;
      while rest != {}
        invariant rest <= pending.Keys
        invariant best.Some? ==> exists id | id in pending.Keys - rest ::
          !pending[id].done && pending[id].deadline == Some(best.value)
        invariant forall id | id in pending.Keys - rest ::
          !pending[id].done && pending[id].deadline.Some? ==> best.Some? && best.value <= pending[id].deadline.value
        decreases |rest|
      {
        var id :| id in rest;
        rest := rest - {id};
        var e := pending[id];
        if !e.done && e.deadline.Some? && (best.None? || e.deadline.value < best.value) {
          best := e.deadline;
          assert id in pending.Keys - rest;
        }
      }
      NearestIs(View());
      if best.Some? {
        assert IsNearest(View(), best.value);
      }
    }

    /**
     * `run`, for surroundings under which it returns: `n` bounds the passes it makes. Sleeping is
     * the environment's part: it resumes no earlier than `napAt` plus the nap.
     */
    method Run(msecTimeout: i32, start: nat, env: nat -> Pass, ghost n: nat) returns (status: LoopStatus)
      requires Valid() && hist.clock <= start
      requires RunOk(View().(quit := false), start, MaxWait(msecTimeout), env, 0, n)
      requires RunFrom(View().(quit := false), start, MaxWait(msecTimeout), env, 0, n).Returned?
      modifies this
      ensures Valid()
      ensures Returned(View(), status) == RunFrom(old(View()).(quit := false), start, MaxWait(msecTimeout), env, 0, n)
      ensures status == NoEvents <==> !HasPending()
      ensures status == LoopTimeout ==>
                msecTimeout >= 0 && hist.clock >= start + msecTimeout as int * 1_000_000 && !quit
    {
      hide Inv, RunStep, PassOk, HasPending;
      ghost var s0 := View().(quit := false);
      StepOk(View(), OpStartRun);
      quit := false;
      var max: Option<nat> := if msecTimeout < 0 then None else Some(msecTimeout * MILLI);
      var i := 0;
      ghost var left := n;
      while true
        invariant Inv(View())
        invariant left > 0
        invariant RunOk(View(), start, max, env, i, left)
        invariant RunFrom(View(), start, max, env, i, left) == RunFrom(s0, start, max, env, 0, n)
        invariant RunFrom(s0, start, max, env, 0, n).Returned?
        decreases left
      {
        var done := RunPass(start, max, env(i));
        if done.Some? {
          return done.value;
        }
        i := i + 1;
        left := left - 1;
      }
    }

    /** One pass of the loop: its status if it returns, else the sleep is over when it ends. */
    method RunPass(start: nat, max: Option<nat>, p: Pass) returns (done: Option<LoopStatus>)
      requires Valid() && PassOk(View(), p)
      modifies this
      ensures Valid()
      ensures RunStep(old(View()), start, max, p) ==
              if done.Some? then Returned(View(), done.value) else Looping(View())
      ensures done.Some? ==> (done == Some(NoEvents) <==> !HasPending())
      ensures done == Some(LoopTimeout) ==> max.Some? && hist.clock >= start + max.value && !quit
    {
      hide Inv, PassBody, Nearest, NapFor, PassOk, PoolModel.HasPending;
      ghost var s := View();
      assert Inv(RunStep(s, start, max, p).state) by {
        PassNoDuplicates(s, p);
        RunStepOk(s, start, max, p);
      }
      OnePass(p);
      if !HasPending() {
        hist := hist.(clock := p.elapsed);
        return Some(NoEvents);
      }
      if quit {
        quit := false;
        hist := hist.(clock := p.elapsed);
        return Some(LoopStatus.LoopQuit);
      }
      if max.Some? && p.elapsed >= start + max.value {
        hist := hist.(clock := p.elapsed);
        return Some(LoopTimeout);
      }
      var nearest := NearestDeadline();
      var nap := NapFor(nearest, p.napAt);
      hist := hist.(clock := p.napAt + nap);
      return None;
    }

    /** The body of the loop up to its exits. */
    method OnePass(p: Pass)
      modifies this
      ensures View() == PassBody(old(View()), p)
    {
      ghost var s := View();
      rx := rx + p.arrivals;
      hist := hist.(clock := p.now);
      DrainCommands(p.orders);
      var todo := Resolve(p);
      Deliver(todo);
    }
  }
}
