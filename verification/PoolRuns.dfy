/** What holds over every run of the event pool: any operations, passes and arrivals, in any order. */
module PoolRuns {
  import opened Bytes
  import opened PoolModel
  import opened PoolInvariant
  import opened PoolSteps

  /** One call on the pool, one pass of its loop, or one message from a helper thread. */
  datatype Op =
    | OpCreateTcp
    | OpCreateUdp(bound: bool)
    | OpConnectTcp(iod: nat, timeoutMs: i32, now: nat)
    | OpConnectUdp(iod: nat)
    | OpRead(iod: nat, timeoutMs: i32, now: nat)
    | OpReadBytes(iod: nat, timeoutMs: i32, nbytes: nat, now: nat)
    | OpReadLines(iod: nat, timeoutMs: i32, maxline: nat, now: nat)
    | OpWrite(iod: nat, data: seq<byte>, timeoutMs: i32, now: nat)
    | OpTimer(msec: u32, now: nat)
    | OpCancel(id: nat, notify: bool)
    | OpDeleteIod(iod: nat, order: seq<nat>)
    | OpDelete(iodOrder: seq<nat>, orders: nat -> seq<nat>, order: seq<nat>)
    | OpTake(id: nat)
    | OpQuit
    | OpArrive(cmd: Cmd)
    | OpStartRun
    | OpPass(start: nat, max: Option<nat>, p: Pass)

  ghost function Step(s: State, op: Op): State {
    match op
    case OpCreateTcp => CreateIodTcp(s)
    case OpCreateUdp(bound) => CreateIodUdp(s, bound)
    case OpConnectTcp(i, timeoutMs, now) => ConnectTcp(s, i, timeoutMs, now)
    case OpConnectUdp(i) => ConnectUdp(s, i)
    case OpRead(i, timeoutMs, now) => ReadEvent(s, i, timeoutMs, 1, false, now)
    case OpReadBytes(i, timeoutMs, nbytes, now) => ReadEvent(s, i, timeoutMs, AtLeastOne(nbytes), false, now)
    case OpReadLines(i, timeoutMs, maxline, now) => ReadEvent(s, i, timeoutMs, AtLeastOne(maxline), true, now)
    case OpWrite(i, data, timeoutMs, now) => WriteEvent(s, i, data, timeoutMs, now)
    case OpTimer(msec, now) => TimerCreate(s, msec, now)
    case OpCancel(id, notify) => Cancel(s, id, notify)
    case OpDeleteIod(i, order) => DeleteIod(s, i, order)
    case OpDelete(iodOrder, orders, order) => Delete(s, iodOrder, orders, order)
    case OpTake(id) => TakeReadBuf(s, id)
    case OpQuit => RequestQuit(s)
    case OpArrive(cmd) => s.(rx := s.rx + [cmd])
    case OpStartRun => s.(quit := false)
    case OpPass(start, max, p) => RunStep(s, start, max, p).state
  }

  /** What a hash map and a monotonic clock guarantee; nothing is asked of the caller. */
  ghost predicate Enabled(s: State, op: Op) {
    match op
    case OpConnectTcp(_, _, now) => s.hist.clock <= now
    case OpRead(_, _, now) => s.hist.clock <= now
    case OpReadBytes(_, _, _, now) => s.hist.clock <= now
    case OpReadLines(_, _, _, now) => s.hist.clock <= now
    case OpWrite(_, _, _, now) => s.hist.clock <= now
    case OpTimer(_, now) => s.hist.clock <= now
    case OpDeleteIod(_, order) => NoDuplicates(order) && Covers(order, s.pending.Keys)
    case OpDelete(iodOrder, orders, order) =>
      && Covers(iodOrder, s.iods.Keys)
      && (forall i :: NoDuplicates(orders(i)) && Covers(orders(i), s.pending.Keys))
      && var left := DeleteIods(s, iodOrder, orders).pending.Keys;
         NoDuplicates(order) && Covers(order, left) && forall id | id in order :: id in left
    case OpPass(_, _, p) => PassOk(s, p)
    case _ => true
  }

  lemma EmptyOk()
    ensures Inv(EmptyPool())
  {
  }

  lemma RunStepOk(s: State, start: nat, max: Option<nat>, p: Pass)
    requires Inv(s) && NoDuplicates(p.order)
    ensures Inv(RunStep(s, start, max, p).state)
    ensures RunStep(s, start, max, p).state.pending == PassBody(s, p).pending
    ensures RunStep(s, start, max, p).state.hist.log == PassBody(s, p).hist.log
  {
    PassBodyOk(s, p);
    hide Inv, PassBody, NapFor, Nearest, HasPending;
    InvIgnores(PassBody(s, p), RunStep(s, start, max, p).state);
    InvParts(PassBody(s, p), RunStep(s, start, max, p).state);
  }

  lemma InvParts(s: State, s': State)
    requires Inv(s)
    requires WeakInv(s) ==> WeakInv(s')
    requires ConnectionsOk(s) ==> ConnectionsOk(s')
    requires StrictBut(s, []) ==> StrictBut(s', [])
    ensures Inv(s')
  {
    hide WeakInv, ConnectionsOk, StrictBut;
  }

  lemma StepOk(s: State, op: Op)
    requires Inv(s) && Enabled(s, op)
    ensures Inv(Step(s, op))
  {
    hide IdsOk, EventsOk, IodsOk, ConnectionsOk, StrictBut;
    match op
    case OpCreateTcp => AddIodOk(s, Iod(false, false, Tcp, 0, 0, false));
    case OpCreateUdp(bound) => AddIodOk(s, Iod(false, bound, Udp, 0, 0, false));
    case OpConnectTcp(i, timeoutMs, now) => RequestOk(s, op);
    case OpConnectUdp(i) => ConnectUdpOk(s, i);
    case OpRead(i, timeoutMs, now) => RequestOk(s, op);
    case OpReadBytes(i, timeoutMs, nbytes, now) => RequestOk(s, op);
    case OpReadLines(i, timeoutMs, maxline, now) => RequestOk(s, op);
    case OpWrite(i, data, timeoutMs, now) => RequestOk(s, op);
    case OpTimer(msec, now) => RequestOk(s, op);
    case OpCancel(id, notify) => CancelOk(s, id, notify);
    case OpDeleteIod(i, order) => DeleteIodOk(s, i, order);
    case OpDelete(iodOrder, orders, order) => DeleteOk(s, iodOrder, orders, order);
    case OpTake(id) => TakeReadBufOk(s, id);
    case OpPass(start, max, p) => RunStepOk(s, start, max, p);
    case _ =>
      InvIgnores(s, Step(s, op));
  }

  predicate IsRequest(op: Op) {
    op.OpConnectTcp? || op.OpRead? || op.OpReadBytes? || op.OpReadLines? || op.OpWrite? || op.OpTimer?
  }

  /** Every request is the registration of one fresh event. */
  lemma RequestIs(s: State, op: Op) returns (e: Pending, data: seq<byte>, now: nat)
    requires IsRequest(op)
    ensures FreshRequest(e, data) && Step(s, op) == Issue(s, e, data, now)
  {
    hide Issue;
    data := [];
    match op
    case OpConnectTcp(i, timeoutMs, t) =>
      now := t;
      var wait: nat := if timeoutMs < 0 then CONNECT_DEFAULT else timeoutMs * MILLI;
      e := Pending(Some(i), Connect, Some(t + wait), [], None, 0, false, false, false);
    case OpRead(i, timeoutMs, t) =>
      now := t;
      e := Pending(Some(i), Read, Deadline(t, timeoutMs), [], None, 1, false, false, false);
    case OpReadBytes(i, timeoutMs, nbytes, t) =>
      now := t;
      e := Pending(Some(i), Read, Deadline(t, timeoutMs), [], None, AtLeastOne(nbytes), false, false, false);
    case OpReadLines(i, timeoutMs, maxline, t) =>
      now := t;
      e := Pending(Some(i), Read, Deadline(t, timeoutMs), [], None, AtLeastOne(maxline), true, false, false);
    case OpWrite(i, bytes, timeoutMs, t) =>
      now, data := t, bytes;
      e := Pending(Some(i), Write, Deadline(t, timeoutMs), [], Some(bytes), |bytes|, false, false, false);
    case OpTimer(msec, t) =>
      now := t;
      e := Pending(None, Timer, Some(t + msec * MILLI), [], None, 0, false, false, false);
  }

  lemma RequestOk(s: State, op: Op)
    requires Inv(s) && IsRequest(op)
    ensures Inv(Step(s, op))
  {
    hide Inv, Issue;
    var e, data, now := RequestIs(s, op);
    hide Step;
    IssueOk(s, e, data, now);
  }

  /** The state after a history of operations on a new pool. */
  ghost function Exec(ops: seq<Op>): State {
    if ops == [] then EmptyPool() else Step(Exec(ops[..|ops| - 1]), ops[|ops| - 1])
  }

  ghost predicate Possible(ops: seq<Op>) {
    ops != [] ==> Possible(ops[..|ops| - 1]) && Enabled(Exec(ops[..|ops| - 1]), ops[|ops| - 1])
  }

  lemma {:induction false} ExecOk(ops: seq<Op>)
    requires Possible(ops)
    ensures Inv(Exec(ops))
  {
    hide Inv, Enabled, Step;
    if ops == [] {
      EmptyOk();
    } else {
      ExecOk(ops[..|ops| - 1]);
      StepOk(Exec(ops[..|ops| - 1]), ops[|ops| - 1]);
    }
  }

  // ----- Conservation of events -----

  predicate NeverFiredYet(s: State, id: nat) { forall k | 0 <= k < |s.hist.log| :: s.hist.log[k].id != id }

  predicate FiredOnce(s: State, id: nat) {
    exists k | 0 <= k < |s.hist.log| :: s.hist.log[k].id == id
      && forall j | 0 <= j < |s.hist.log| && j != k :: s.hist.log[j].id != id
  }

  lemma {:induction false} FiresCount(log: seq<Fire>, id: nat)
    ensures FiresOf(log, id) == [] <==> forall k | 0 <= k < |log| :: log[k].id != id
    ensures |FiresOf(log, id)| == 1 ==>
      exists k | 0 <= k < |log| :: log[k] == FiresOf(log, id)[0] && log[k].id == id
        && forall j | 0 <= j < |log| && j != k :: log[j].id != id
  {
    if log != [] {
      var n := |log| - 1;
      FiresCount(log[..n], id);
      assert log[n].id == id ==> FiresOf(log, id) != [];
      if |FiresOf(log, id)| == 1 {
        if log[n].id == id {
          assert FiresOf(log[..n], id) == [];
          assert forall j | 0 <= j < |log| && j != n :: log[j] == log[..n][j];
        } else {
          var k :| 0 <= k < n && log[..n][k] == FiresOf(log[..n], id)[0] && log[..n][k].id == id
                   && forall j | 0 <= j < n && j != k :: log[..n][j].id != id;
          assert log[k] == log[..n][k];
          assert forall j | 0 <= j < n :: log[j] == log[..n][j];
        }
      }
      assert forall k | 0 <= k < n :: log[k] == log[..n][k];
    }
  }

  /**
   * Event conservation. In every reachable state each issued event is in exactly one of three
   * states: live and never fired, fired exactly once, or silently cancelled and never fired.
   */
  lemma EveryEventAccountedFor(ops: seq<Op>, id: nat)
    requires Possible(ops) && 1 <= id <= Exec(ops).eventCounter
    ensures var s := Exec(ops);
            || (Live(s, id) && NeverFiredYet(s, id) && id !in s.hist.silenced)
            || (!Live(s, id) && FiredOnce(s, id) && id !in s.hist.silenced)
            || (!Live(s, id) && NeverFiredYet(s, id) && id in s.hist.silenced)
    ensures var s := Exec(ops); !(NeverFiredYet(s, id) && FiredOnce(s, id))
  {
    ExecOk(ops);
    var s := Exec(ops);
    assert EventOk(s, id);
    FiresCount(s.hist.log, id);
  }

  /** No handler is ever called for an event that was not issued. */
  lemma OnlyIssuedEventsFire(ops: seq<Op>, k: nat)
    requires Possible(ops) && k < |Exec(ops).hist.log|
    ensures 1 <= Exec(ops).hist.log[k].id <= Exec(ops).eventCounter
  {
    ExecOk(ops);
  }

  /** When `run` returns `NoEvents`, every issued event has fired once or was silently cancelled. */
  lemma NoEventsMeansAllSettled(ops: seq<Op>, start: nat, max: Option<nat>, p: Pass, id: nat)
    requires Possible(ops) && PassOk(Exec(ops), p)
    requires RunStep(Exec(ops), start, max, p).Returned?
    requires RunStep(Exec(ops), start, max, p).status == NoEvents
    requires 1 <= id <= RunStep(Exec(ops), start, max, p).state.eventCounter
    ensures var s := RunStep(Exec(ops), start, max, p).state;
            !Live(s, id) && (FiredOnce(s, id) <==> id !in s.hist.silenced)
  {
    hide Inv, PassOk, RunStep, Exec, Possible, FiredOnce, NeverFiredYet;
    var op := OpPass(start, max, p);
    PassSnoc(ops, start, max, p);
    EveryEventAccountedFor(ops + [op], id);
    NoEventsLeft(Exec(ops), start, max, p, id);
  }

  lemma PassSnoc(ops: seq<Op>, start: nat, max: Option<nat>, p: Pass)
    requires Possible(ops) && PassOk(Exec(ops), p)
    ensures Possible(ops + [OpPass(start, max, p)])
    ensures Exec(ops + [OpPass(start, max, p)]) == RunStep(Exec(ops), start, max, p).state
  {
    assert (ops + [OpPass(start, max, p)])[..|ops|] == ops;
    hide PassOk, RunStep;
  }

  lemma NoEventsLeft(s: State, start: nat, max: Option<nat>, p: Pass, id: nat)
    requires RunStep(s, start, max, p).Returned? && RunStep(s, start, max, p).status == NoEvents
    ensures !Live(RunStep(s, start, max, p).state, id)
  {
    hide PassBody, Nearest, NapFor;
  }

  // ----- Bytes -----

  /** How far a handler call for `id` in the log speaks for the event. */
  lemma LoggedFire(ops: seq<Op>, k: nat)
    requires Possible(ops) && k < |Exec(ops).hist.log|
    ensures var s := Exec(ops);
            var f := s.hist.log[k];
            && f.id in s.hist.traces
            && !Live(s, f.id)
            && FireOk(s.hist.traces[f.id], f)
  {
    ExecOk(ops);
    var s := Exec(ops);
    var f := s.hist.log[k];
    assert EventOk(s, f.id);
    FiresCount(s.hist.log, f.id);
  }

  /**
   * Write conservation. The bytes accepted for a write are always a prefix of its data; while it is
   * live they and the unsent rest make up the data. A write told `Success` had all accepted, and one
   * with something to send that was told anything else had not.
   */
  lemma WritesConserved(ops: seq<Op>, id: nat)
    requires Possible(ops) && id in Exec(ops).hist.traces && Exec(ops).hist.traces[id].kind == Write
    ensures var s := Exec(ops);
            var t := s.hist.traces[id];
            && t.sent <= t.data
            && (Live(s, id) ==> s.pending[id].wbuf.Some? && t.sent + s.pending[id].wbuf.value == t.data)
            && (Live(s, id) && t.data != [] ==> |t.sent| < |t.data|)
            && forall k | 0 <= k < |s.hist.log| && s.hist.log[k].id == id ::
                 if s.hist.log[k].status == Success then t.sent == t.data else t.data != [] ==> |t.sent| < |t.data|
  {
    ExecOk(ops);
    var s := Exec(ops);
    assert EventOk(s, id);
    if id in s.pending {
      LiveUnfinished(s, id);
    }
    forall k | 0 <= k < |s.hist.log| && s.hist.log[k].id == id
      ensures FireOk(s.hist.traces[id], s.hist.log[k])
    {
      LoggedFire(ops, k);
    }
  }

  /** A write with nothing to send never succeeds over a stream: the socket accepts none and it ends in `Eof`. */
  lemma EmptyStreamWriteEof(s: State, id: nat, r: WriteResult)
    requires id in s.pending && s.pending[id].wbuf == Some([])
    requires s.pending[id].iod.Some? && s.pending[id].iod.value in s.iods
    requires s.iods[s.pending[id].iod.value].kind == Tcp
    ensures TryWrite(s, id, r).0 == s
    ensures TryWrite(s, id, r).1 ==
            if !s.iods[s.pending[id].iod.value].tcp || r.WriteBlock? then None
            else if r.WriteFailed? then Some(Error)
            else Some(Eof)
  {
  }

  /** What a successful read holds: one datagram, or everything that came over the stream. */
  predicate ReadDelivers(t: Trace) {
    && t.chunks != []
    && var last := t.chunks[|t.chunks| - 1];
       if last.via == Udp then t.buf == last.bytes
       else
         && t.buf == Joined(t.chunks)
         && Complete(t.lineRead, t.target, t.buf)
         && !Complete(t.lineRead, t.target, Joined(t.chunks[..|t.chunks| - 1]))
         && |t.buf| < t.target + READ_CHUNK
  }

  /**
   * Read conservation. A live read holds all its chunks in order and is still short of its
   * condition; one that succeeded over a stream holds all of them too, met the condition only with
   * the last one and overshoots by less than a chunk; a datagram is delivered alone. A read told
   * anything but `Success` was short of its condition.
   */
  lemma ReadsConserved(ops: seq<Op>, id: nat)
    requires Possible(ops) && id in Exec(ops).hist.traces && Exec(ops).hist.traces[id].kind == Read
    ensures var s := Exec(ops);
            var t := s.hist.traces[id];
            && (Live(s, id) ==>
                  s.pending[id].buf == t.buf == Joined(t.chunks) && !Complete(t.lineRead, t.target, t.buf))
            && forall k | 0 <= k < |s.hist.log| && s.hist.log[k].id == id ::
                 if s.hist.log[k].status == Success then ReadDelivers(t) else !Complete(t.lineRead, t.target, t.buf)
  {
    hide Inv, ReadDelivers, Joined, BufOf, Complete, Exec, Possible;
    ExecOk(ops);
    var s := Exec(ops);
    var t := s.hist.traces[id];
    if Live(s, id) {
      LiveRead(s, id);
    }
    forall k | 0 <= k < |s.hist.log| && s.hist.log[k].id == id
      ensures if s.hist.log[k].status == Success then ReadDelivers(t) else !Complete(t.lineRead, t.target, t.buf)
    {
      LoggedFire(ops, k);
      if s.hist.log[k].status == Success {
        SoundTrace(s, id);
        SatisfiedDelivers(t);
      }
    }
  }

  lemma SoundTrace(s: State, id: nat)
    requires Inv(s) && id in s.hist.traces
    ensures TraceOk(s.hist.traces[id])
  {
    assert EventOk(s, id);
  }

  lemma LiveRead(s: State, id: nat)
    requires Inv(s) && Live(s, id) && id in s.hist.traces && s.hist.traces[id].kind == Read
    ensures var t := s.hist.traces[id];
            s.pending[id].buf == t.buf == Joined(t.chunks) && !Complete(t.lineRead, t.target, t.buf)
  {
    SoundTrace(s, id);
    LiveEntry(s, id);
    LiveUnfinished(s, id);
    hide Inv;
    StreamJoins(s.hist.traces[id].chunks);
  }

  lemma SatisfiedDelivers(t: Trace)
    requires TraceOk(t) && ReadSatisfied(t)
    ensures ReadDelivers(t)
  {
    var n := |t.chunks| - 1;
    if t.chunks[n].via == Tcp {
      StreamJoins(t.chunks);
      StreamJoins(t.chunks[..n]);
    }
  }

  /** The buffer of every read the loop delivered is there to take, once: then it is gone. */
  lemma BufferTakenOnce(ops: seq<Op>, k: nat)
    requires Possible(ops) && k < |Exec(ops).hist.log|
    requires Exec(ops).hist.log[k].id in Exec(ops).hist.traces
    requires Exec(ops).hist.traces[Exec(ops).hist.log[k].id].kind == Read && Delivered(Exec(ops).hist.log[k].status)
    ensures var s := Exec(ops);
            var id := s.hist.log[k].id;
            && TakenBuf(s, id) == (if id in s.hist.taken then [] else s.hist.traces[id].buf)
            && TakenBuf(TakeReadBuf(s, id), id) == []
            && id in TakeReadBuf(s, id).hist.taken
  {
    ExecOk(ops);
    var s := Exec(ops);
    var id := s.hist.log[k].id;
    assert EventOk(s, id);
    FiresCount(s.hist.log, id);
    LoggedFire(ops, k);
    assert BufferOk(s, id);
  }

  // ----- Byte counters -----

  /** Bytes now or finally in the buffers of the read events of descriptor `i`. */
  function SumBuffers(traces: map<nat, Trace>, i: nat, n: nat): nat {
    if n == 0 then 0
    else SumBuffers(traces, i, n - 1) + if n in traces && traces[n].iod == Some(i) then |traces[n].buf| else 0
  }

  lemma {:induction false} UniformTotal(chunks: seq<Chunk>, kind: IodKind)
    requires Uniform(chunks, kind)
    ensures |BufOf(chunks)| == Total(chunks)
  {
    if chunks != [] {
      var n := |chunks| - 1;
      assert chunks[n].via == kind;
      assert forall k | 0 <= k < n :: chunks[..n][k] == chunks[k];
      UniformTotal(chunks[..n], kind);
      if kind == Udp {
        assert chunks[..n] == [];
      }
    }
  }

  lemma {:induction false} SumsAgree(traces: map<nat, Trace>, i: nat, n: nat, kind: IodKind)
    requires forall id | id in traces && traces[id].iod == Some(i) ::
      Uniform(traces[id].chunks, kind) && traces[id].buf == BufOf(traces[id].chunks)
    ensures SumBuffers(traces, i, n) == SumRead(traces, i, n)
  {
    if n > 0 {
      SumsAgree(traces, i, n - 1, kind);
      if n in traces && traces[n].iod == Some(i) {
        UniformTotal(traces[n].chunks, kind);
      }
    }
  }

  /**
   * A descriptor's counters are the bytes its events moved; on one whose kind never changed the
   * read counter is the total size of its read events' buffers.
   */
  lemma CountersConserved(ops: seq<Op>, i: nat)
    requires Possible(ops) && i in Exec(ops).iods
    ensures var s := Exec(ops);
            && s.iods[i].writeCount == SumSent(s.hist.traces, i, s.eventCounter)
            && s.iods[i].readCount == SumRead(s.hist.traces, i, s.eventCounter)
            && (i !in s.hist.switched ==> s.iods[i].readCount == SumBuffers(s.hist.traces, i, s.eventCounter))
  {
    ExecOk(ops);
    var s := Exec(ops);
    assert IodOk(s, i);
    if i !in s.hist.switched {
      forall id | id in s.hist.traces && s.hist.traces[id].iod == Some(i)
        ensures Uniform(s.hist.traces[id].chunks, s.iods[i].kind)
        ensures s.hist.traces[id].buf == BufOf(s.hist.traces[id].chunks)
      {
        assert EventOk(s, id);
      }
      SumsAgree(s.hist.traces, i, s.eventCounter, s.iods[i].kind);
    }
  }

  // ----- Connections -----

  /**
   * A descriptor never passed to `connect_udp` is connected exactly when a Connect event on it has
   * fired `Success` since it was created.
   */
  lemma ConnectedExactly(ops: seq<Op>, i: nat)
    requires Possible(ops) && i in Exec(ops).iods && i !in Exec(ops).hist.udpPeers
    ensures var s := Exec(ops);
            && i in s.hist.born
            && (s.iods[i].connected <==>
                  exists k | s.hist.born[i] <= k < |s.hist.log| :: IsConnectSuccess(s.hist.traces, s.hist.log[k], i))
  {
    ExecOk(ops);
    assert IodOk(Exec(ops), i);
  }

  /** An event requested on an existing descriptor is pending only while the descriptor exists. */
  lemma PendingNeedsIod(ops: seq<Op>, id: nat)
    requires Possible(ops) && id in Exec(ops).pending
    ensures var s := Exec(ops);
            && id in s.hist.traces
            && (s.pending[id].iod.Some? && !s.hist.traces[id].orphan ==> s.pending[id].iod.value in s.iods)
  {
    ExecOk(ops);
    assert EventOk(Exec(ops), id);
  }

  // ----- Deletion -----

  lemma {:induction false} KillAllFires(s: State, ids: seq<nat>, id: nat)
    requires NoDuplicates(ids)
    ensures FiresOf(KillAll(s, ids).hist.log, id) ==
            if id in ids && id in s.pending && !s.pending[id].done && !s.pending[id].cancelled
            then FiresOf(s.hist.log, id) + [Fire(id, Kill, s.hist.clock)]
            else FiresOf(s.hist.log, id)
    ensures KillAll(s, ids).hist.clock == s.hist.clock
    decreases |ids|
  {
    if ids != [] {
      var s1 := KillOne(s, ids[0]);
      FiresOfAppend(s.hist.log, Fire(ids[0], Kill, s.hist.clock), id);
      assert forall k | 0 <= k < |ids[1..]| :: ids[1..][k] == ids[k + 1];
      KillAllFires(s1, ids[1..], id);
    }
  }

  /** `delete_iod` kills exactly the live events of its descriptor: each fires `Kill` as its only call. */
  lemma DeleteIodKills(ops: seq<Op>, i: nat, order: seq<nat>, id: nat)
    requires Possible(ops) && NoDuplicates(order) && Covers(order, Exec(ops).pending.Keys)
    requires id in Exec(ops).hist.traces
    ensures var s := Exec(ops);
            var s' := DeleteIod(s, i, order);
            && i !in s'.iods
            && (if Live(s, id) && s.pending[id].iod == Some(i)
                then FiresOf(s'.hist.log, id) == [Fire(id, Kill, s.hist.clock)] && id !in s'.pending
                else FiresOf(s'.hist.log, id) == FiresOf(s.hist.log, id) && (Live(s', id) <==> Live(s, id)))
  {
    ExecOk(ops);
    var s := Exec(ops);
    assert EventOk(s, id);
    OnIodIs(s.pending, order, i);
    KillAllFires(s, OnIod(s.pending, order, i), id);
    DeleteIodOk(s, i, order);
  }

  /** `delete` leaves no descriptor and no event pending, and every event issued so far is settled. */
  lemma DeleteSettlesAll(ops: seq<Op>, iodOrder: seq<nat>, orders: nat -> seq<nat>, order: seq<nat>, id: nat)
    requires Possible(ops) && Enabled(Exec(ops), OpDelete(iodOrder, orders, order))
    requires 1 <= id <= Exec(ops + [OpDelete(iodOrder, orders, order)]).eventCounter
    ensures var s := Exec(ops + [OpDelete(iodOrder, orders, order)]);
            && s.pending == map[] && s.iods == map[] && s.quit
            && (FiredOnce(s, id) <==> id !in s.hist.silenced)
  {
    var op := OpDelete(iodOrder, orders, order);
    assert (ops + [op])[..|ops|] == ops;
    assert Possible(ops + [op]);
    ExecOk(ops);
    DeleteOk(Exec(ops), iodOrder, orders, order);
    EveryEventAccountedFor(ops + [op], id);
  }
}
