/**
 * What callers and handlers see of the pool, in numbers, octets and statuses: what a request asks
 * for, what a pass tells each event, and why the loop ends.
 */
module PoolOutcomes {
  import opened Bytes
  import opened PoolModel
  import opened PoolInvariant
  import opened PoolSteps
  import opened PoolRuns
  import opened PoolHistory
  import opened PoolTiming
  import opened PoolPolling
  import opened PoolConnects
  import opened PoolAttribution
  import opened PoolReconnects
  import opened PoolWire

  // ----- What a pass tells an event -----

  /** The event's descriptor has a stream socket, or a datagram socket, of its present kind. */
  predicate OnStream(s: State, id: nat)
    requires id in s.pending
  {
    var i := s.pending[id].iod;
    i.Some? && i.value in s.iods && s.iods[i.value].kind == Tcp && s.iods[i.value].tcp
  }

  predicate OnDatagrams(s: State, id: nat)
    requires id in s.pending
  {
    var i := s.pending[id].iod;
    i.Some? && i.value in s.iods && s.iods[i.value].kind == Udp && s.iods[i.value].udp
  }

  /** In the pass that ends in `s` the handler of event `id` was called with `status`, its first and only call. */
  predicate WasTold(s: State, id: nat, status: EventStatus, now: nat) {
    !Live(s, id) && FiresOf(s.hist.log, id) == [Fire(id, status, now)]
  }

  predicate NotTold(s: State, id: nat) { Live(s, id) && FiresOf(s.hist.log, id) == [] }

  /** The deadline of event `id` is reached. */
  predicate Reached(s: State, id: nat, now: nat)
    requires id in s.pending
  {
    s.pending[id].deadline.Some? && s.pending[id].deadline.value <= now
  }

  /** An event whose deadline is reached: a timer succeeds, anything else times out, and no byte moves. */
  lemma PassTellsDue(s: State, p: Pass, id: nat)
    requires Inv(s) && PassOk(s, p) && Live(Drained(s, p), id) && Reached(Drained(s, p), id, p.now)
    ensures var d, after := Drained(s, p), PassBody(s, p);
            && WasTold(after, id, if d.pending[id].kind == Timer then Success else Timeout, p.now)
            && TraceOf(after.hist, id) == TraceOf(d.hist, id)
  {
    PassDecidesEach(s, p, id);
    hide Inv, PassOk, PassBody, Drained, FiresOf, TraceOf, TryIo;
  }

  /** Before their deadlines timers and connects just wait. */
  lemma PassLeavesWaiting(s: State, p: Pass, id: nat)
    requires Inv(s) && PassOk(s, p) && Live(Drained(s, p), id) && !Reached(Drained(s, p), id, p.now)
    requires Drained(s, p).pending[id].kind == Timer || Drained(s, p).pending[id].kind == Connect
    ensures NotTold(PassBody(s, p), id) && PassBody(s, p).pending[id] == Drained(s, p).pending[id]
  {
    PassDecidesEach(s, p, id);
    hide Inv, PassOk, PassBody, Drained, FiresOf, TraceOf, TryRead, TryWrite;
  }

  function First(s: seq<byte>, n: nat): seq<byte> { if |s| <= n then s else s[..n] }

  /** What the socket hands a read: up to 4096 octets of a stream, or a datagram up to 65535 octets. */
  function Handed(s: State, id: nat, p: Pass): seq<Chunk> {
    if id in s.pending && s.pending[id].kind == Read && p.readable(id).Data? then
      var offered := p.readable(id).offered;
      if OnStream(s, id) then if offered == [] then [] else [Chunk(Tcp, First(offered, 4096))]
      else if OnDatagrams(s, id) then [Chunk(Udp, First(offered, 65535))]
      else []
    else []
  }

  /** Octets a read holds once handed `got`: a stream adds to them, a datagram replaces them. */
  function Held(buf: seq<byte>, got: seq<Chunk>): seq<byte> {
    if got == [] then buf else if got[0].via == Tcp then buf + got[0].bytes else got[0].bytes
  }

  /** The condition a read waits for: a line feed, for a line read, or enough octets. */
  predicate Enough(e: Pending, buf: seq<byte>) { (e.lineRead && 10 in buf) || |buf| >= e.target }

  /** How an attempt for a read ends, by what its socket does. */
  ghost predicate ReadEnds(d: State, id: nat, p: Pass, st: Option<EventStatus>)
    requires id in d.pending
  {
    var e, r, got := d.pending[id], p.readable(id), Handed(d, id, p);
    && (st == Some(Success) <==>
          got != [] && (got[0].via == Udp || Enough(e, e.buf + got[0].bytes)))
    && (st == Some(Eof) <==> OnStream(d, id) && r == Data([]))
    && (st == Some(Error) <==> (OnStream(d, id) || OnDatagrams(d, id)) && r.ReadFailed?)
    && (st.None? || st == Some(Success) || st == Some(Eof) || st == Some(Error))
  }

  lemma ReadAttempt(d: State, id: nat, p: Pass)
    requires id in d.pending && d.pending[id].kind == Read
    ensures ReadEnds(d, id, p, TryIo(d, id, p).1)
    ensures ReadMoves(d, id, p, TryIo(d, id, p).0)
  {
    if p.readable(id).Data? {
      TakeFirst(p.readable(id).offered, 4096);
      TakeFirst(p.readable(id).offered, 65535);
    }
    ReadStatus(d, id, p);
    hide ReadEnds, TryIo;
    ReadBuffers(d, id, p);
  }

  lemma TakeFirst(s: seq<byte>, n: nat)
    ensures Take(s, n) == First(s, n)
  {
  }

  lemma ReadStatus(d: State, id: nat, p: Pass)
    requires id in d.pending && d.pending[id].kind == Read
    requires p.readable(id).Data? ==> forall n | n == 4096 || n == 65535 ::
      Take(p.readable(id).offered, n) == First(p.readable(id).offered, n)
    ensures ReadEnds(d, id, p, TryIo(d, id, p).1)
  {
    hide CreditRead, Take;
  }

  /** The event is left with what it held and what it was handed. */
  ghost predicate ReadMoves(d: State, id: nat, p: Pass, after: State)
    requires id in d.pending
  {
    var got := Handed(d, id, p);
    && id in after.pending
    && after.pending[id] == d.pending[id].(buf := Held(d.pending[id].buf, got))
    && TraceOf(after.hist, id).chunks == TraceOf(d.hist, id).chunks + got
    && TraceOf(after.hist, id).buf == if got == [] then TraceOf(d.hist, id).buf else Held(d.pending[id].buf, got)
  }

  lemma ReadBuffers(d: State, id: nat, p: Pass)
    requires id in d.pending && d.pending[id].kind == Read
    ensures ReadMoves(d, id, p, TryIo(d, id, p).0)
  {
    hide ReadMoves, CreditRead, Take, First, Complete, Handed;
    var got := Handed(d, id, p);
    ReadCredits(d, id, p);
    if got == [] {
      NothingHeld(d, id, p);
    } else {
      HandedOne(d, id, p);
      CreditHolds(d, id, d.pending[id].iod.value, got[0], Held(d.pending[id].buf, got));
      ReadMovesBy(d, id, p, TryIo(d, id, p).0);
    }
  }

  lemma HandedOne(d: State, id: nat, p: Pass)
    requires id in d.pending && Handed(d, id, p) != []
    ensures d.pending[id].iod.Some? && d.pending[id].iod.value in d.iods && |Handed(d, id, p)| == 1
  {
  }

  /** What an attempt for a read does to the pool: credit the chunk handed over, if any. */
  lemma ReadCredits(d: State, id: nat, p: Pass)
    requires id in d.pending && d.pending[id].kind == Read
    ensures var got := Handed(d, id, p);
            if got == [] then TryIo(d, id, p).0 == d
            else
              && d.pending[id].iod.Some? && d.pending[id].iod.value in d.iods
              && TryIo(d, id, p).0 ==
                 CreditRead(d, id, d.pending[id].iod.value, got[0], Held(d.pending[id].buf, got))
  {
    hide CreditRead, Complete, Take, First;
    if p.readable(id).Data? {
      TakeFirst(p.readable(id).offered, 4096);
      TakeFirst(p.readable(id).offered, 65535);
      NothingTaken(p.readable(id).offered, 4096);
    }
  }

  lemma NothingHeld(d: State, id: nat, p: Pass)
    requires id in d.pending && Handed(d, id, p) == []
    ensures ReadMoves(d, id, p, d)
  {
    hide Handed, TraceOf;
    assert TraceOf(d.hist, id).chunks + [] == TraceOf(d.hist, id).chunks;
    assert d.pending[id].(buf := d.pending[id].buf) == d.pending[id];
  }

  lemma ReadMovesBy(d: State, id: nat, p: Pass, after: State)
    requires id in d.pending && id in after.pending && |Handed(d, id, p)| == 1
    requires after.pending[id] == d.pending[id].(buf := Held(d.pending[id].buf, Handed(d, id, p)))
    requires TraceOf(after.hist, id).chunks == TraceOf(d.hist, id).chunks + [Handed(d, id, p)[0]]
    requires TraceOf(after.hist, id).buf == Held(d.pending[id].buf, Handed(d, id, p))
    ensures ReadMoves(d, id, p, after)
  {
    hide Handed, TraceOf, Held;
  }

  lemma NothingTaken(s: seq<byte>, n: nat)
    requires n > 0
    ensures First(s, n) == [] <==> s == []
  {
  }

  lemma CreditHolds(d: State, id: nat, i: nat, c: Chunk, buf: seq<byte>)
    requires id in d.pending && i in d.iods
    ensures var after := CreditRead(d, id, i, c, buf);
            && id in after.pending && after.pending[id] == d.pending[id].(buf := buf)
            && TraceOf(after.hist, id).chunks == TraceOf(d.hist, id).chunks + [c]
            && TraceOf(after.hist, id).buf == buf
  {
  }

  /**
   * A read not yet due: told `Success` when what its socket hands over completes it, `Eof` when a
   * stream has no more, `Error` when the socket fails, and otherwise not at all; in each case it
   * holds exactly what it held before with what it was handed now.
   */
  lemma PassTellsReads(s: State, p: Pass, id: nat)
    requires Inv(s) && PassOk(s, p) && Live(Drained(s, p), id) && !Reached(Drained(s, p), id, p.now)
    requires Drained(s, p).pending[id].kind == Read
    ensures var d, after := Drained(s, p), PassBody(s, p);
            var got := Handed(d, id, p);
            (exists st ::
               && ReadEnds(d, id, p, st)
               && (if st.Some? then WasTold(after, id, st.value, p.now)
                   else NotTold(after, id) && after.pending[id] == d.pending[id].(buf := Held(d.pending[id].buf, got))))
            && TraceOf(after.hist, id).chunks == TraceOf(d.hist, id).chunks + got
            && TraceOf(after.hist, id).buf == Held(d.pending[id].buf, got)
  {
    hide Inv, PassOk, PassBody, Drained, FiresOf, TraceOf, TryIo, ReadEnds, Handed, Enough;
    PassDecidesEach(s, p, id);
    DrainedOk(s, p);
    EntryBuffer(Drained(s, p), id);
    ReadAttempt(Drained(s, p), id, p);
  }

  lemma EntryBuffer(s: State, id: nat)
    requires Inv(s) && id in s.pending
    ensures TraceOf(s.hist, id).buf == s.pending[id].buf
  {
    LiveEntry(s, id);
  }

  /** How many octets of what is left to send the socket accepts: a datagram goes whole. */
  function Accepted(s: State, id: nat, p: Pass): seq<byte> {
    if id in s.pending && s.pending[id].kind == Write && s.pending[id].wbuf.Some? && p.writable(id).Accepts? then
      if OnStream(s, id) then First(s.pending[id].wbuf.value, p.writable(id).n)
      else if OnDatagrams(s, id) then s.pending[id].wbuf.value
      else []
    else []
  }

  /** How an attempt for a write with something left to send ends. */
  ghost predicate WriteEnds(d: State, id: nat, p: Pass, st: Option<EventStatus>)
    requires id in d.pending && d.pending[id].wbuf.Some?
  {
    var rest, r := d.pending[id].wbuf.value, p.writable(id);
    && (st == Some(Success) <==> rest != [] && Accepted(d, id, p) == rest)
    && (st == Some(Eof) <==> OnStream(d, id) && r.Accepts? && r.n == 0)
    && (st == Some(Error) <==> (OnStream(d, id) || OnDatagrams(d, id)) && r.WriteFailed?)
    && (st.None? || st == Some(Success) || st == Some(Eof) || st == Some(Error))
  }

  lemma WriteAttempt(d: State, id: nat, p: Pass)
    requires id in d.pending && d.pending[id].kind == Write
    requires d.pending[id].wbuf.Some? && d.pending[id].wbuf.value != []
    ensures WriteEnds(d, id, p, TryIo(d, id, p).1)
    ensures var after, sent := TryIo(d, id, p).0, Accepted(d, id, p);
            && id in after.pending
            && (TryIo(d, id, p).1.None? ==>
                  after.pending[id] == d.pending[id].(wbuf := Some(d.pending[id].wbuf.value[|sent|..])))
            && TraceOf(after.hist, id).sent == TraceOf(d.hist, id).sent + sent
  {
    var sent, rest := Accepted(d, id, p), d.pending[id].wbuf.value;
    WriteStatus(d, id, p);
    WriteCredits(d, id, p);
    hide TryIo, WriteEnds, CreditWrite, Accepted, TraceOf;
    if sent == [] {
      assert rest[0..] == rest && TraceOf(d.hist, id).sent + [] == TraceOf(d.hist, id).sent;
    } else {
      CreditSent(d, id, d.pending[id].iod.value, sent, if sent == rest then None else Some(rest[|sent|..]));
    }
  }

  lemma WriteStatus(d: State, id: nat, p: Pass)
    requires id in d.pending && d.pending[id].kind == Write
    requires d.pending[id].wbuf.Some? && d.pending[id].wbuf.value != []
    ensures WriteEnds(d, id, p, TryIo(d, id, p).1)
    ensures TryIo(d, id, p).1.None? ==> Accepted(d, id, p) != d.pending[id].wbuf.value
  {
    hide CreditWrite, Take, First;
    if p.writable(id).Accepts? {
      TakeSome(d.pending[id].wbuf.value, p.writable(id).n);
    }
  }

  lemma TakeSome(s: seq<byte>, n: nat)
    ensures Take(s, n) == First(s, n) && |First(s, n)| <= |s|
    ensures First(s, n) == [] <==> s == [] || n == 0
    ensures s[|First(s, n)|..] == [] <==> First(s, n) == s
  {
  }

  /** What an attempt for a write does to the pool: credit the octets accepted, if any. */
  lemma WriteCredits(d: State, id: nat, p: Pass)
    requires id in d.pending && d.pending[id].kind == Write
    requires d.pending[id].wbuf.Some? && d.pending[id].wbuf.value != []
    ensures var sent, rest := Accepted(d, id, p), d.pending[id].wbuf.value;
            && |sent| <= |rest|
            && if sent == [] then TryIo(d, id, p).0 == d
               else
                 && d.pending[id].iod.Some? && d.pending[id].iod.value in d.iods
                 && TryIo(d, id, p).0 ==
                    CreditWrite(
                      d, id, d.pending[id].iod.value, sent, if sent == rest then None else Some(rest[|sent|..]))
  {
    hide CreditWrite, Take, First;
    if p.writable(id).Accepts? {
      TakeSome(d.pending[id].wbuf.value, p.writable(id).n);
    }
  }

  lemma CreditSent(d: State, id: nat, i: nat, bytes: seq<byte>, wbuf: Option<seq<byte>>)
    requires id in d.pending && i in d.iods
    ensures var after := CreditWrite(d, id, i, bytes, wbuf);
            && id in after.pending && after.pending[id] == d.pending[id].(wbuf := wbuf)
            && TraceOf(after.hist, id).sent == TraceOf(d.hist, id).sent + bytes
  {
  }

  /**
   * A write not yet due, with something left to send: told `Success` when its socket accepts all of
   * that, `Eof` when a stream accepts nothing, `Error` when the socket fails, and otherwise not at
   * all, keeping what was not accepted.
   */
  lemma PassTellsWrites(s: State, p: Pass, id: nat)
    requires Inv(s) && PassOk(s, p) && Live(Drained(s, p), id) && !Reached(Drained(s, p), id, p.now)
    requires Drained(s, p).pending[id].kind == Write
    requires Drained(s, p).pending[id].wbuf.Some? && Drained(s, p).pending[id].wbuf.value != []
    ensures var d, after := Drained(s, p), PassBody(s, p);
            var rest, sent := d.pending[id].wbuf.value, Accepted(d, id, p);
            (exists st ::
               && WriteEnds(d, id, p, st)
               && (if st.Some? then WasTold(after, id, st.value, p.now)
                   else NotTold(after, id) && after.pending[id] == d.pending[id].(wbuf := Some(rest[|sent|..]))))
            && TraceOf(after.hist, id).sent == TraceOf(d.hist, id).sent + sent
  {
    PassDecidesEach(s, p, id);
    hide Inv, PassOk, PassBody, Drained, FiresOf, TraceOf, TryIo, WriteEnds, Accepted;
    WriteAttempt(Drained(s, p), id, p);
  }

  // ----- What a request asks for -----

  /** The instant `timeoutMs` milliseconds after `now`, or none when it is negative. */
  function After(now: nat, timeoutMs: i32): Option<nat> {
    if timeoutMs < 0 then None else Some(now + timeoutMs as int * 1_000_000)
  }

  function Least1(n: nat): nat { if n >= 1 then n else 1 }

  /** The trace of an event is that of the request `op`. */
  predicate Asks(op: Op, t: Trace) {
    match op
    case OpConnectTcp(i, ms, now) =>
      && t.kind == Connect && t.iod == Some(i)
      && t.deadline == Some(now + if ms < 0 then 3600 * 1_000_000_000 else ms as int * 1_000_000)
    case OpRead(i, ms, now) =>
      t.kind == Read && t.iod == Some(i) && t.deadline == After(now, ms) && t.target == 1 && !t.lineRead
    case OpReadBytes(i, ms, n, now) =>
      t.kind == Read && t.iod == Some(i) && t.deadline == After(now, ms) && t.target == Least1(n) && !t.lineRead
    case OpReadLines(i, ms, n, now) =>
      t.kind == Read && t.iod == Some(i) && t.deadline == After(now, ms) && t.target == Least1(n) && t.lineRead
    case OpWrite(i, data, ms, now) =>
      t.kind == Write && t.iod == Some(i) && t.deadline == After(now, ms) && t.data == data
    case OpTimer(ms, now) =>
      t.kind == Timer && t.iod == None && t.deadline == Some(now + ms as int * 1_000_000)
    case _ => false
  }

  /** The entry a request leaves: live, with nothing read and everything still to send. */
  predicate Fresh(e: Pending, t: Trace) {
    && e.kind == t.kind && e.iod == t.iod && e.deadline == t.deadline
    && e.target == t.target && e.lineRead == t.lineRead
    && !e.done && !e.cancelled && e.buf == []
    && (e.kind == Write ==> e.wbuf == Some(t.data))
  }

  /** A request gets the next id, and registers what it asks for and nothing else. */
  lemma RequestRegisters(s: State, op: Op)
    requires IsRequest(op) && s.eventCounter + 1 !in s.pending
    ensures var s', id := Step(s, op), s.eventCounter + 1;
            && s'.eventCounter == id && id in s'.hist.traces && id in s'.pending
            && Asks(op, s'.hist.traces[id]) && Fresh(s'.pending[id], s'.hist.traces[id])
            && s'.pending - {id} == s.pending && s'.iods == s.iods && s'.readBufs == s.readBufs
            && s'.hist.log == s.hist.log && s'.hist.silenced == s.hist.silenced
  {
  }

  /** What a request asked for is remembered over the whole run, and its entry says so while it is there. */
  lemma RequestsRemembered(ops: seq<Op>, op: Op, more: seq<Op>)
    requires Possible(ops + [op] + more) && IsRequest(op)
    ensures var s, id := Exec(ops + [op] + more), Exec(ops).eventCounter + 1;
            && id in s.hist.traces && Asks(op, s.hist.traces[id])
            && (id in s.pending ==>
                  var e, t := s.pending[id], s.hist.traces[id];
                  && e.kind == t.kind && e.iod == t.iod && e.deadline == t.deadline
                  && e.target == t.target && e.lineRead == t.lineRead)
  {
    hide Exec, Possible, Inv, Step, Asks, Settled, Enabled, Agrees;
    RunsOnlyAdd(ops + [op], more);
    ExecSnoc(ops, op);
    ExecOk(ops);
    ExecOk(ops + [op] + more);
    FreshId(Exec(ops));
    RequestRegisters(Exec(ops), op);
    var s, id := Exec(ops + [op] + more), Exec(ops).eventCounter + 1;
    AsksSettled(op, Exec(ops + [op]), s, id);
    if id in s.pending {
      EntryAgrees(s, id);
    }
  }

  lemma AsksSettled(op: Op, s: State, s': State, id: nat)
    requires Settled(s, s') && id in s.hist.traces && Asks(op, s.hist.traces[id])
    ensures id in s'.hist.traces && Asks(op, s'.hist.traces[id])
  {
    hide Asks;
    AsksKept(op, s.hist.traces[id], s'.hist.traces[id]);
  }

  lemma EntryAgrees(s: State, id: nat)
    requires Inv(s) && id in s.pending
    ensures id in s.hist.traces
    ensures var e, t := s.pending[id], s.hist.traces[id];
            && e.kind == t.kind && e.iod == t.iod && e.deadline == t.deadline
            && e.target == t.target && e.lineRead == t.lineRead
  {
    LiveEntry(s, id);
  }

  lemma FreshId(s: State)
    requires Inv(s)
    ensures s.eventCounter + 1 !in s.pending
  {
  }

  lemma AsksKept(op: Op, t: Trace, t': Trace)
    requires Asks(op, t) && TraceGrows(t, t')
    ensures Asks(op, t')
  {
  }

  // ----- Cancelling -----

  /** A live event cancelled with notice is told `Cancelled`, once; nothing else is touched. */
  lemma CancelTells(s: State, id: nat)
    requires Inv(s) && Live(s, id)
    ensures var s' := Step(s, OpCancel(id, true));
            && WasTold(s', id, Cancelled, s.hist.clock)
            && s'.hist.log == s.hist.log + [Fire(id, Cancelled, s.hist.clock)]
            && s'.hist.silenced == s.hist.silenced && s'.hist.traces == s.hist.traces
            && s'.iods == s.iods && s'.readBufs == s.readBufs
            && s'.pending.Keys == s.pending.Keys
            && (forall j | j in s.pending && j != id :: s'.pending[j] == s.pending[j])
  {
    hide Inv, FiresOf;
    FiresNone(s, id);
    FiresOfAppend(s.hist.log, Fire(id, Cancelled, s.hist.clock), id);
    assert Step(s, OpCancel(id, true)) == PoolModel.Cancel(s, id, true);
    hide Step;
  }

  /** Cancelling an event that is not live tells no one anything. */
  lemma CancelOfSettled(s: State, id: nat, notify: bool)
    requires Inv(s) && !Live(s, id)
    ensures Step(s, OpCancel(id, notify)) == s
  {
    if id in s.pending {
      LiveEntry(s, id);
      assert s.pending[id].(cancelled := true, done := true) == s.pending[id];
      assert s.pending[id := s.pending[id]] == s.pending;
    }
    hide Inv;
  }

  // ----- Descriptors -----

  /** A new descriptor gets the next id: no stream, a datagram socket only if one was bound, no octets yet. */
  lemma DescriptorsStart(s: State, bound: bool)
    ensures var s' := Step(s, OpCreateTcp);
            s'.iodCounter == s.iodCounter + 1
            && s'.iods == s.iods[s.iodCounter + 1 := Iod(false, false, Tcp, 0, 0, false)]
            && s'.pending == s.pending && s'.hist.log == s.hist.log
    ensures var s' := Step(s, OpCreateUdp(bound));
            s'.iodCounter == s.iodCounter + 1
            && s'.iods == s.iods[s.iodCounter + 1 := Iod(false, bound, Udp, 0, 0, false)]
            && s'.pending == s.pending && s'.hist.log == s.hist.log
  {
  }

  /** `connect_udp` makes an existing descriptor a connected datagram one, and does nothing to any other. */
  lemma PeerSet(s: State, i: nat)
    ensures var s' := Step(s, OpConnectUdp(i));
            && s'.pending == s.pending && s'.hist.log == s.hist.log
            && s'.iods == if i in s.iods
                          then var d := s.iods[i];
                            s.iods[i := Iod(d.tcp, d.udp, Udp, d.readCount, d.writeCount, true)]
                          else s.iods
  {
  }

  /** Before it is delivered, a read's buffer can be looked at any number of times. */
  lemma BufferPeeked(s: State, id: nat)
    requires Inv(s)
    ensures id in s.pending ==> TakenBuf(s, id) == s.pending[id].buf && Step(s, OpTake(id)) == s
    ensures id !in s.pending && id !in s.readBufs ==> TakenBuf(s, id) == [] && Step(s, OpTake(id)) == s
  {
    if id in s.pending {
      LiveEntry(s, id);
    }
    hide Inv;
  }

  // ----- Messages -----

  /** Messages are handled one after the other, in the order they came. */
  lemma {:induction false} MessagesInOrder(s: State, cmds: seq<Cmd>, cmd: Cmd, orders: nat -> seq<nat>, k: nat)
    ensures Drain(s, cmds + [cmd], orders, k) == DrainOne(Drain(s, cmds, orders, k), cmd, orders(k + |cmds|))
    decreases |cmds|
  {
    hide DrainOne;
    if cmds == [] {
      assert [] + [cmd] == [cmd] && [cmd][1..] == [];
    } else {
      assert (cmds + [cmd])[1..] == cmds[1..] + [cmd];
      MessagesInOrder(DrainOne(s, cmds[0], orders(k)), cmds[1..], cmd, orders, k + 1);
    }
  }

  // ----- The end of the loop -----

  /** A pass leaves the quit flag set exactly when it was set or a quit message was handled. */
  lemma PassQuit(s: State, p: Pass)
    ensures PassBody(s, p).quit <==> s.quit || Quit in s.rx || Quit in p.arrivals
  {
    var begin := s.(rx := [], hist := s.hist.(clock := p.now));
    DrainQuits(begin, s.rx + p.arrivals, p.orders, 0);
    var drained := Drained(s, p);
    assert drained.quit <==> s.quit || Quit in s.rx || Quit in p.arrivals;
    var ids := LiveIds(drained.pending, p.order);
    var due := Due(drained.pending, ids, p.now);
    PassIsPhases(s, p);
    hide PassBody, Drained, Due, LiveIds, IoPhase, DeliverAll;
    IoPhaseQuit(drained, ids, p, due);
    DeliverQuit(IoPhase(drained, ids, p, due).0, IoPhase(drained, ids, p, due).1);
  }

  /** Some event is still waiting. */
  predicate SomeLive(s: State) { exists id | id in s.pending :: Live(s, id) }

  /** Why a pass that leaves the pool in `body` ends the run, or does not. */
  ghost predicate Ends(out: RunOutcome, body: State, quit: bool, start: nat, msec: i32, elapsed: nat) {
    var expired := msec >= 0 && elapsed >= start + msec as int * 1_000_000;
    && (out.Returned? && out.status == NoEvents <==> !SomeLive(body))
    && (out.Returned? && out.status == LoopStatus.LoopQuit <==> SomeLive(body) && quit)
    && (out.Returned? && out.status == LoopTimeout <==> SomeLive(body) && !quit && expired)
    && (out.Looping? <==> SomeLive(body) && !quit && !expired)
    && out.state.pending == body.pending && out.state.hist.log == body.hist.log
    && (out.Returned? ==> out.state.hist.clock == elapsed && (out.state.quit <==> quit && out.status == NoEvents))
  }

  lemma PassEnds(s: State, start: nat, msec: i32, p: Pass)
    ensures Ends(RunStep(s, start, MaxWait(msec), p), PassBody(s, p), PassBody(s, p).quit, start, msec, p.elapsed)
    ensures RunStep(s, start, MaxWait(msec), p).Looping? ==>
              !RunStep(s, start, MaxWait(msec), p).state.quit
              && RunStep(s, start, MaxWait(msec), p).state.rx == PassBody(s, p).rx
  {
    hide PassBody, Nearest, NapFor, Live;
    assert HasPending(PassBody(s, p)) <==> SomeLive(PassBody(s, p));
  }

  /** A run of `k + 1` passes is one of `k` passes and one more. */
  lemma {:induction false} RunSplit(s: State, start: nat, max: Option<nat>, env: nat -> Pass, i: nat, k: nat)
    requires RunFrom(s, start, max, env, i, k).Looping?
    ensures RunFrom(s, start, max, env, i, k + 1) ==
            RunStep(RunFrom(s, start, max, env, i, k).state, start, max, env(i + k))
    decreases k
  {
    hide RunStep;
    if k > 0 {
      RunSplit(RunStep(s, start, max, env(i)).state, start, max, env, i + 1, k - 1);
    } else {
      match RunStep(s, start, max, env(i))
      case Returned(_, _) =>
      case Looping(_) =>
    }
  }

  /** While the loop goes on no quit is pending. */
  lemma {:induction false} LoopingQuiet(s: State, start: nat, msec: i32, env: nat -> Pass, k: nat)
    requires !s.quit && RunFrom(s, start, MaxWait(msec), env, 0, k).Looping?
    ensures !RunFrom(s, start, MaxWait(msec), env, 0, k).state.quit
    ensures k > 0 ==> RunFrom(s, start, MaxWait(msec), env, 0, k).state.rx == []
  {
    hide RunStep;
    if k > 0 {
      EarlierLooping(s, start, MaxWait(msec), env, 0, k - 1);
      RunSplit(s, start, MaxWait(msec), env, 0, k - 1);
      var before := RunFrom(s, start, MaxWait(msec), env, 0, k - 1).state;
      PassEnds(before, start, msec, env(k - 1));
      PassChannel(before, env(k - 1));
      hide Ends, PassBody;
    }
  }

  lemma {:induction false} EarlierLooping(s: State, start: nat, max: Option<nat>, env: nat -> Pass, i: nat, k: nat)
    requires RunFrom(s, start, max, env, i, k + 1).Looping?
    ensures RunFrom(s, start, max, env, i, k).Looping?
    decreases k
  {
    hide RunStep;
    if k > 0 {
      EarlierLooping(RunStep(s, start, max, env(i)).state, start, max, env, i + 1, k - 1);
    }
  }

  /**
   * Why `run` returns. After `k` passes that did not end it, the next one returns `NoEvents` exactly
   * when no event is live any more; `Quit` exactly when some is and a quit request was handled in
   * that pass; `Timeout` exactly when some is, none was, a limit was given and the clock reading of
   * the pass is at or past `start` and that many milliseconds; and else it goes on.
   */
  lemma RunEndsExactly(s: State, start: nat, msec: i32, env: nat -> Pass, k: nat)
    requires !s.quit && RunFrom(s, start, MaxWait(msec), env, 0, k).Looping?
    ensures var before := RunFrom(s, start, MaxWait(msec), env, 0, k).state;
            var quit := Quit in env(k).arrivals || (k == 0 && Quit in s.rx);
            Ends(RunFrom(s, start, MaxWait(msec), env, 0, k + 1),
                 PassBody(before, env(k)), quit, start, msec, env(k).elapsed)
  {
    RunSplit(s, start, MaxWait(msec), env, 0, k);
    LoopingQuiet(s, start, msec, env, k);
    var before := RunFrom(s, start, MaxWait(msec), env, 0, k).state;
    PassEnds(before, start, msec, env(k));
    PassQuit(before, env(k));
    assert k == 0 ==> before == s;
    hide RunStep, RunFrom, PassBody, Ends;
  }

  /** Between passes the loop sleeps 5 ms, or less if the nearest deadline of a live event is closer. */
  lemma LoopSleeps(s: State, start: nat, max: Option<nat>, p: Pass, d: nat)
    requires RunStep(s, start, max, p).Looping?
    ensures var s', body := RunStep(s, start, max, p).state, PassBody(s, p);
            && p.napAt <= s'.hist.clock <= p.napAt + 5_000_000
            && (IsNearest(body, d) ==>
                  s'.hist.clock == if d <= p.napAt then p.napAt
                                   else if d <= p.napAt + 5_000_000 then d else p.napAt + 5_000_000)
            && ((forall id | Live(body, id) :: body.pending[id].deadline.None?) ==>
                  s'.hist.clock == p.napAt + 5_000_000)
  {
    var body := PassBody(s, p);
    NearestIs(body);
    hide PassBody, HasPending, Nearest;
    if IsNearest(body, d) {
      OneNearest(body, d);
    }
  }

  lemma OneNearest(s: State, d: nat)
    requires IsNearest(s, d)
    ensures Nearest(s) == Some(d)
  {
    NearestIs(s);
    var id :| id in s.pending && Live(s, id) && s.pending[id].deadline == Some(d);
    var n := Nearest(s).value;
    var other :| other in s.pending && Live(s, other) && s.pending[other].deadline == Some(n);
  }

  // ----- The order of the calls of a pass -----

  /** `a` comes before `b`. */
  predicate Before(order: seq<nat>, a: nat, b: nat) {
    exists x, y :: 0 <= x < y < |order| && order[x] == a && order[y] == b
  }

  lemma BeforeLater(order: seq<nat>, a: nat, b: nat)
    requires order != []
    ensures Before(order[1..], a, b) ==> Before(order, a, b)
    ensures a == order[0] && b in order[1..] ==> Before(order, a, b)
  {
    var rest := order[1..];
    if x, y :| 0 <= x < y < |rest| && rest[x] == a && rest[y] == b {
      assert order[x + 1] == a && order[y + 1] == b;
    }
    if a == order[0] && b in rest {
      var y :| 0 <= y < |rest| && rest[y] == b;
      assert order[0] == a && order[y + 1] == b;
    }
  }

  /** The calls from position `n` of the schedule on follow the order of `ids`. */
  ghost predicate Follows(todo: seq<Fire>, n: nat, ids: seq<nat>) {
    && (forall k | n <= k < |todo| :: todo[k].id in ids)
    && (forall j, k | n <= j < k < |todo| :: Before(ids, todo[j].id, todo[k].id))
  }

  lemma FollowsLater(todo: seq<Fire>, n: nat, ids: seq<nat>)
    requires ids != [] && Follows(todo, n, ids[1..])
    ensures Follows(todo, n, ids)
  {
    forall j, k | n <= j < k < |todo|
      ensures Before(ids, todo[j].id, todo[k].id)
    {
      BeforeLater(ids, todo[j].id, todo[k].id);
    }
  }

  lemma FollowsMore(todo: seq<Fire>, n: nat, ids: seq<nat>)
    requires ids != [] && n < |todo| && todo[n].id == ids[0] && Follows(todo, n + 1, ids[1..])
    ensures Follows(todo, n, ids)
  {
    FollowsLater(todo, n + 1, ids);
    forall k | n < k < |todo|
      ensures Before(ids, todo[n].id, todo[k].id)
    {
      BeforeLater(ids, todo[n].id, todo[k].id);
    }
  }

  lemma {:induction false} DueFollows(pending: map<nat, Pending>, ids: seq<nat>, now: nat)
    ensures Follows(Due(pending, ids, now), 0, ids)
  {
    if ids != [] {
      DueFollows(pending, ids[1..], now);
      hide Follows, IsDue;
      var rest, due := Due(pending, ids[1..], now), Due(pending, ids, now);
      if due == rest {
        FollowsLater(due, 0, ids);
      } else {
        FollowsShift(rest, due, ids[1..]);
        FollowsMore(due, 0, ids);
      }
    }
  }

  lemma FollowsShift(rest: seq<Fire>, all: seq<Fire>, ids: seq<nat>)
    requires all != [] && all[1..] == rest && Follows(rest, 0, ids)
    ensures Follows(all, 1, ids)
  {
    assert forall k | 1 <= k < |all| :: all[k] == rest[k - 1];
  }

  /** The attempts append to the schedule, in the order of the visit. */
  lemma {:induction false} IoPhaseFollows(s: State, ids: seq<nat>, p: Pass, todo: seq<Fire>)
    ensures todo <= IoPhase(s, ids, p, todo).1
    ensures Follows(IoPhase(s, ids, p, todo).1, |todo|, ids)
    decreases |ids|
  {
    hide TryIo, Follows, Scheduled;
    if ids == [] {
      NoneFollows(todo, ids);
    } else if Scheduled(todo, ids[0]) {
      IoPhaseFollows(s, ids[1..], p, todo);
      FollowsLater(IoPhase(s, ids, p, todo).1, |todo|, ids);
    } else {
      var (s', st) := TryIo(s, ids[0], p);
      var todo' := if st.Some? then todo + [Fire(ids[0], st.value, p.now)] else todo;
      IoPhaseFollows(s', ids[1..], p, todo');
      var all := IoPhase(s, ids, p, todo).1;
      if st.Some? {
        assert all[|todo|] == todo'[|todo|];
        FollowsMore(all, |todo|, ids);
      } else {
        FollowsLater(all, |todo|, ids);
      }
    }
  }

  lemma NoneFollows(todo: seq<Fire>, ids: seq<nat>)
    ensures Follows(todo, |todo|, ids)
  {
  }

  lemma {:induction false} LiveIdsFollow(pending: map<nat, Pending>, order: seq<nat>, a: nat, b: nat)
    requires Before(LiveIds(pending, order), a, b)
    ensures Before(order, a, b)
  {
    if order != [] {
      var rest, ids := LiveIds(pending, order[1..]), LiveIds(pending, order);
      BeforeLater(order, a, b);
      if ids != rest {
        assert ids[1..] == rest;
        var x, y :| 0 <= x < y < |ids| && ids[x] == a && ids[y] == b;
        if x > 0 {
          assert rest[x - 1] == a && rest[y - 1] == b;
          LiveIdsFollow(pending, order[1..], a, b);
        } else {
          assert rest[y - 1] == b;
          LiveIdsIn(pending, order[1..], b);
        }
      } else {
        LiveIdsFollow(pending, order[1..], a, b);
      }
    }
  }

  lemma {:induction false} LiveIdsIn(pending: map<nat, Pending>, order: seq<nat>, id: nat)
    requires id in LiveIds(pending, order)
    ensures id in order
  {
    if order != [] && id in LiveIds(pending, order[1..]) {
      LiveIdsIn(pending, order[1..], id);
    }
  }

  lemma {:induction false} DeliverAppends(s: State, todo: seq<Fire>)
    requires forall j, k | 0 <= j < k < |todo| :: todo[j].id != todo[k].id
    requires forall k | 0 <= k < |todo| ::
      todo[k].id in s.pending && !s.pending[todo[k].id].done && !s.pending[todo[k].id].cancelled
    ensures DeliverAll(s, todo).hist.log == s.hist.log + todo
    decreases |todo|
  {
    if todo != [] {
      var rest := todo[1..];
      assert forall k | 0 <= k < |rest| :: rest[k] == todo[k + 1];
      DeliverAppends(DeliverOne(s, todo[0]), rest);
      assert s.hist.log + [todo[0]] + rest == s.hist.log + todo;
    }
  }

  lemma PhaseAppends(s: State, todo: seq<Fire>)
    requires PhaseOk(s, todo)
    ensures DeliverAll(s, todo).hist.log == s.hist.log + todo
  {
    hide FireOk, StrictBut, ConnectionsOk, IodsOk;
    forall k | 0 <= k < |todo|
      ensures todo[k].id in s.pending && !s.pending[todo[k].id].done && !s.pending[todo[k].id].cancelled
    {
      LiveEntry(s, todo[k].id);
    }
    hide WeakInv;
    DeliverAppends(s, todo);
  }

  /**
   * The calls a pass makes after handling its messages: first the events whose deadline is reached,
   * then those their sockets decide, both in the order in which the pass visits them.
   */
  lemma PassCallsInOrder(s: State, p: Pass, j: nat, k: nat)
    requires Inv(s) && PassOk(s, p)
    requires |Drained(s, p).hist.log| <= j < k < |PassBody(s, p).hist.log|
    ensures var d, a, b := Drained(s, p), PassBody(s, p).hist.log[j].id, PassBody(s, p).hist.log[k].id;
            && Live(d, a) && Live(d, b)
            && (Reached(d, b, p.now) ==> Reached(d, a, p.now))
            && ((Reached(d, a, p.now) <==> Reached(d, b, p.now)) ==> Before(p.order, a, b))
  {
    hide Inv, PassOk, PassBody, Drained, LiveIds, Due, IoPhase, DeliverAll, Follows, Reached, PhaseOk, Scheduled;
    var d := Drained(s, p);
    var ids := LiveIds(d.pending, p.order);
    var due := Due(d.pending, ids, p.now);
    DrainedOk(s, p);
    VisitsLive(s, p);
    PassIsPhases(s, p);
    ScheduleOk(d, ids, p);
    var (resolved, todo) := IoPhase(d, ids, p, due);
    PhaseAppends(resolved, todo);
    DueFollows(d.pending, ids, p.now);
    IoPhaseFollows(d, ids, p, due);
    var n := |d.hist.log|;
    ScheduleOrder(d, ids, p, due, todo, j - n, k - n);
    var a, b := todo[j - n].id, todo[k - n].id;
    if Before(ids, a, b) {
      LiveIdsFollow(d.pending, p.order, a, b);
    }
  }

  predicate DueNow(s: State, id: nat, now: nat) { id in s.pending && IsDue(s.pending[id], now) }

  /** The schedule of a pass: what is due comes first and is just that. */
  lemma ScheduleOk(d: State, ids: seq<nat>, p: Pass)
    requires Inv(d) && NoDuplicates(ids) && forall id :: id in ids <==> Live(d, id)
    ensures var due := Due(d.pending, ids, p.now);
            var (resolved, todo) := IoPhase(d, ids, p, due);
            && PhaseOk(resolved, todo) && resolved.hist.log == d.hist.log && due <= todo
            && (forall k | 0 <= k < |due| :: due[k].id in ids && DueNow(d, due[k].id, p.now))
            && (forall k | |due| <= k < |todo| && todo[k].id in ids :: !DueNow(d, todo[k].id, p.now))
  {
    hide Inv, PhaseOk, Due, DueNow, StampedAt, IoPhase, Scheduled;
    var due := Due(d.pending, ids, p.now);
    assert forall k | 0 <= k < |ids| :: Live(d, ids[k]);
    DueOk(d, ids, p.now);
    DueExactly(d, ids, p.now);
    DueStamps(d.pending, ids, p.now);
    IoPhaseOk(d, ids, p, due);
    IoPhaseStamps(d, ids, p, due);
    SchedulesDistinct(IoPhase(d, ids, p, due).0, IoPhase(d, ids, p, due).1);
    LaterNotDue(d, ids, p.now, due, IoPhase(d, ids, p, due).1);
  }

  /** The scheduled deadlines are those of the overdue events. */
  lemma DueExactly(d: State, ids: seq<nat>, now: nat)
    requires NoDuplicates(ids) && forall k | 0 <= k < |ids| :: Live(d, ids[k])
    ensures forall k | 0 <= k < |Due(d.pending, ids, now)| ::
      Due(d.pending, ids, now)[k].id in ids && DueNow(d, Due(d.pending, ids, now)[k].id, now)
    ensures forall id | id in ids && DueNow(d, id, now) :: Scheduled(Due(d.pending, ids, now), id)
  {
    var due := Due(d.pending, ids, now);
    DueAre(d.pending, ids, now);
    hide Due, IsDue, Scheduled;
    forall k | 0 <= k < |due|
      ensures due[k].id in ids && DueNow(d, due[k].id, now)
    {
      assert DueEntry(d.pending, ids, now, due[k]);
    }
  }

  lemma LaterNotDue(d: State, ids: seq<nat>, now: nat, due: seq<Fire>, todo: seq<Fire>)
    requires due <= todo && forall j, k | 0 <= j < k < |todo| :: todo[j].id != todo[k].id
    requires forall id | id in ids && DueNow(d, id, now) :: Scheduled(due, id)
    ensures forall k | |due| <= k < |todo| && todo[k].id in ids :: !DueNow(d, todo[k].id, now)
  {
    hide DueNow;
    forall k | |due| <= k < |todo| && todo[k].id in ids
      ensures !DueNow(d, todo[k].id, now)
    {
      assert forall j | 0 <= j < |due| :: due[j] == todo[j];
      assert !Scheduled(due, todo[k].id);
    }
  }

  lemma SchedulesDistinct(s: State, todo: seq<Fire>)
    requires PhaseOk(s, todo)
    ensures forall j, k | 0 <= j < k < |todo| :: todo[j].id != todo[k].id
  {
  }

  lemma ScheduleOrder(d: State, ids: seq<nat>, p: Pass, due: seq<Fire>, todo: seq<Fire>, j: nat, k: nat)
    requires (forall id :: id in ids <==> Live(d, id)) && due <= todo && j < k < |todo|
    requires Follows(due, 0, ids) && Follows(todo, |due|, ids)
    requires forall m | 0 <= m < |due| :: due[m].id in ids && DueNow(d, due[m].id, p.now)
    requires forall m | |due| <= m < |todo| && todo[m].id in ids :: !DueNow(d, todo[m].id, p.now)
    ensures var a, b := todo[j].id, todo[k].id;
            && Live(d, a) && Live(d, b)
            && (Reached(d, a, p.now) <==> j < |due|) && (Reached(d, b, p.now) <==> k < |due|)
            && ((j < |due| <==> k < |due|) ==> Before(ids, a, b))
  {
    assert j < |due| ==> todo[j] == due[j];
    assert k < |due| ==> todo[k] == due[k];
    hide Before;
    assert todo[j].id in ids && todo[k].id in ids;
  }
}
