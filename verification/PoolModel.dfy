/**
 * The event pool as a transition system (wnr-nsock/src/pool.rs). Sockets, clock readings, helper
 * threads and hash-map iteration orders are inputs; a handler call is an entry appended to a log.
 */
module PoolModel {
  import opened Bytes

  /** Instants and durations are counted in nanoseconds. */
  const MILLI: nat := 1_000_000
  const CONNECT_DEFAULT: nat := 3_600_000 * 1_000_000
  const NAP_CAP: nat := 5 * 1_000_000
  const READ_CHUNK: nat := 4096
  const DATAGRAM: nat := 65535
  const NEWLINE: byte := 10

  datatype EventType = Connect | Read | Write | Timer

  datatype EventStatus = Success | Error | Timeout | Cancelled | Kill | Eof

  datatype LoopStatus = NoEvents | LoopTimeout | LoopQuit

  datatype IodKind = Tcp | Udp

  /** `tcp` and `udp` tell whether the descriptor holds such a socket. */
  datatype Iod = Iod(tcp: bool, udp: bool, kind: IodKind, readCount: nat, writeCount: nat, connected: bool)

  datatype Pending = Pending(
    iod: Option<nat>, kind: EventType, deadline: Option<nat>, buf: seq<byte>, wbuf: Option<seq<byte>>,
    target: nat, lineRead: bool, cancelled: bool, done: bool)

  /**
   * `attempt` is the Connect event whose helper thread sent the result, hence whose stream it
   * carries. No step of the pool looks at it.
   */
  datatype Cmd = ConnectResult(iod: nat, ok: bool, attempt: nat) | Quit

  /** A handler call: event, final status and the clock reading it was made under. */
  datatype Fire = Fire(id: nat, status: EventStatus, at: nat)

  /** One successful socket read. */
  datatype Chunk = Chunk(via: IodKind, bytes: seq<byte>)

  /** What an observer remembers of an event, from its request on. */
  datatype Trace = Trace(
    iod: Option<nat>, kind: EventType, deadline: Option<nat>, target: nat, lineRead: bool, data: seq<byte>,
    orphan: bool, chunks: seq<Chunk>, sent: seq<byte>, buf: seq<byte>)

  /**
   * The observer's record: latest clock reading, handler calls, events, events cancelled silently,
   * log length at the birth of each descriptor, descriptors whose kind changed, descriptors ever
   * passed to `connect_udp`, events whose retained buffer was taken.
   */
  datatype History = History(
    clock: nat, log: seq<Fire>, traces: map<nat, Trace>, silenced: set<nat>,
    born: map<nat, nat>, switched: set<nat>, udpPeers: set<nat>, taken: set<nat>)

  datatype State = State(
    iodCounter: nat, eventCounter: nat, iods: map<nat, Iod>, pending: map<nat, Pending>,
    readBufs: map<nat, seq<byte>>, rx: seq<Cmd>, quit: bool, hist: History)

  function EmptyHistory(): History { History(0, [], map[], {}, map[], {}, {}, {}) }

  function EmptyPool(): State { State(0, 0, map[], map[], map[], [], false, EmptyHistory()) }

  predicate Live(s: State, id: nat) { id in s.pending && !s.pending[id].done }

  predicate HasPending(s: State) { exists id | id in s.pending :: Live(s, id) }

  // ----- Descriptors -----

  function AddIod(s: State, iod: Iod): State {
    var id := s.iodCounter + 1;
    s.(iodCounter := id, iods := s.iods[id := iod], hist := s.hist.(born := s.hist.born[id := |s.hist.log|]))
  }

  function CreateIodTcp(s: State): State { AddIod(s, Iod(false, false, Tcp, 0, 0, false)) }

  /** `bound` tells whether the socket could be bound. */
  function CreateIodUdp(s: State, bound: bool): State { AddIod(s, Iod(false, bound, Udp, 0, 0, false)) }

  function SetKind(s: State, i: nat, iod: Iod): State
    requires i in s.iods
  {
    var switched := if s.iods[i].kind != iod.kind then s.hist.switched + {i} else s.hist.switched;
    s.(iods := s.iods[i := iod], hist := s.hist.(switched := switched))
  }

  function ConnectUdp(s: State, i: nat): State {
    if i in s.iods then
      var s' := SetKind(s, i, s.iods[i].(connected := true, kind := Udp));
      s'.(hist := s'.hist.(udpPeers := s.hist.udpPeers + {i}))
    else s
  }

  // ----- Requests -----

  function Issue(s: State, e: Pending, data: seq<byte>, now: nat): State {
    var id := s.eventCounter + 1;
    var orphan := e.iod.Some? && e.iod.value !in s.iods;
    var trace := Trace(e.iod, e.kind, e.deadline, e.target, e.lineRead, data, orphan, [], [], []);
    s.(eventCounter := id, pending := s.pending[id := e],
       hist := s.hist.(clock := now, traces := s.hist.traces[id := trace]))
  }

  /** A negative timeout means none. */
  function Deadline(now: nat, timeoutMs: i32): Option<nat> {
    if timeoutMs < 0 then None else Some(now + timeoutMs * MILLI)
  }

  function ConnectTcp(s: State, i: nat, timeoutMs: i32, now: nat): State {
    var deadline := if timeoutMs < 0 then now + CONNECT_DEFAULT else now + timeoutMs * MILLI;
    Issue(s, Pending(Some(i), Connect, Some(deadline), [], None, 0, false, false, false), [], now)
  }

  function ReadEvent(s: State, i: nat, timeoutMs: i32, target: nat, lineRead: bool, now: nat): State {
    Issue(s, Pending(Some(i), Read, Deadline(now, timeoutMs), [], None, target, lineRead, false, false), [], now)
  }

  function AtLeastOne(n: nat): nat { if n == 0 then 1 else n }

  function WriteEvent(s: State, i: nat, data: seq<byte>, timeoutMs: i32, now: nat): State {
    Issue(s, Pending(Some(i), Write, Deadline(now, timeoutMs), [], Some(data), |data|, false, false, false), data, now)
  }

  function TimerCreate(s: State, timeoutMs: u32, now: nat): State {
    Issue(s, Pending(None, Timer, Some(now + timeoutMs * MILLI), [], None, 0, false, false, false), [], now)
  }

  // ----- Leaving the pool -----

  function LogFire(s: State, id: nat, status: EventStatus): State {
    s.(hist := s.hist.(log := s.hist.log + [Fire(id, status, s.hist.clock)]))
  }

  function Cancel(s: State, id: nat, notify: bool): State {
    if id !in s.pending then s
    else
      var e := s.pending[id];
      var s' := s.(pending := s.pending[id := e.(cancelled := true, done := true)]);
      if e.done then s'
      else if notify then LogFire(s', id, Cancelled)
      else s'.(hist := s'.hist.(silenced := s'.hist.silenced + {id}))
  }

  function KillOne(s: State, id: nat): State {
    if id !in s.pending then s.(readBufs := s.readBufs - {id})
    else
      var e := s.pending[id];
      var s' := if !e.done && !e.cancelled then LogFire(s, id, Kill) else s;
      s'.(readBufs := s.readBufs - {id}, pending := s.pending - {id})
  }

  function KillAll(s: State, ids: seq<nat>): State
    decreases |ids|
  {
    if ids == [] then s else KillAll(KillOne(s, ids[0]), ids[1..])
  }

  /** The pending events of a descriptor in iteration order. */
  function OnIod(pending: map<nat, Pending>, order: seq<nat>, i: nat): seq<nat> {
    if order == [] then []
    else
      var rest := OnIod(pending, order[1..], i);
      if order[0] in pending && pending[order[0]].iod == Some(i) then [order[0]] + rest else rest
  }

  function DeleteIod(s: State, i: nat, order: seq<nat>): State {
    var s' := KillAll(s, OnIod(s.pending, order, i));
    s'.(iods := s'.iods - {i})
  }

  function DeleteIods(s: State, iodOrder: seq<nat>, orders: nat -> seq<nat>): State
    decreases |iodOrder|
  {
    if iodOrder == [] then s
    else DeleteIods(DeleteIod(s, iodOrder[0], orders(iodOrder[0])), iodOrder[1..], orders)
  }

  function Delete(s: State, iodOrder: seq<nat>, orders: nat -> seq<nat>, order: seq<nat>): State {
    KillAll(DeleteIods(s, iodOrder, orders), order).(quit := true)
  }

  function TakenBuf(s: State, id: nat): seq<byte> {
    if id in s.readBufs then s.readBufs[id] else if id in s.pending then s.pending[id].buf else []
  }

  function TakeReadBuf(s: State, id: nat): State {
    if id in s.readBufs then
      s.(readBufs := s.readBufs - {id}, hist := s.hist.(taken := s.hist.taken + {id}))
    else s
  }

  function RequestQuit(s: State): State { s.(quit := true, rx := s.rx + [Quit]) }

  // ----- Connect results -----

  predicate AwaitsConnect(e: Pending, i: nat) { e.kind == Connect && !e.done && e.iod == Some(i) }

  /** The first live Connect on descriptor `i` in iteration order. */
  function FirstConnect(pending: map<nat, Pending>, order: seq<nat>, i: nat): (r: Option<nat>)
    ensures r.Some? ==> r.value in order && r.value in pending && AwaitsConnect(pending[r.value], i)
    ensures r.None? ==> forall id | id in order && id in pending :: !AwaitsConnect(pending[id], i)
  {
    if order == [] then None
    else if order[0] in pending && AwaitsConnect(pending[order[0]], i) then Some(order[0])
    else FirstConnect(pending, order[1..], i)
  }

  function Connected(s: State, i: nat): State {
    if i in s.iods then SetKind(s, i, s.iods[i].(tcp := true, kind := Tcp, connected := true)) else s
  }

  function DrainOne(s: State, cmd: Cmd, order: seq<nat>): State {
    match cmd
    case Quit => s.(quit := true)
    case ConnectResult(i, ok, _) =>
      match FirstConnect(s.pending, order, i)
      case None => s
      case Some(id) =>
        var s' := if ok then Connected(s, i) else s;
        var fired := if s.pending[id].cancelled then s' else LogFire(s', id, if ok then Success else Error);
        fired.(pending := s.pending - {id})
  }

  function Drain(s: State, cmds: seq<Cmd>, orders: nat -> seq<nat>, k: nat): State
    decreases |cmds|
  {
    if cmds == [] then s else Drain(DrainOne(s, cmds[0], orders(k)), cmds[1..], orders, k + 1)
  }

  // ----- Socket I/O -----

  /** A readable socket offers bytes (none at end of stream); a read takes what fits its buffer. */
  datatype ReadResult = Data(offered: seq<byte>) | ReadBlock | ReadFailed

  /** A writable socket accepts up to `n` bytes. */
  datatype WriteResult = Accepts(n: nat) | WriteBlock | WriteFailed

  function Take(s: seq<byte>, n: nat): (r: seq<byte>)
    ensures |r| <= n && r <= s
  {
    if |s| <= n then s else s[..n]
  }

  function TraceOf(h: History, id: nat): Trace {
    if id in h.traces then h.traces[id]
    else Trace(None, Timer, None, 0, false, [], false, [], [], [])
  }

  /** A chunk arrives for read event `id` on descriptor `i`, leaving `buf` in the event. */
  function CreditRead(s: State, id: nat, i: nat, chunk: Chunk, buf: seq<byte>): State
    requires id in s.pending && i in s.iods
  {
    var t := TraceOf(s.hist, id);
    var iod := s.iods[i];
    s.(pending := s.pending[id := s.pending[id].(buf := buf)],
       iods := s.iods[i := iod.(readCount := iod.readCount + |chunk.bytes|)],
       hist := s.hist.(traces := s.hist.traces[id := t.(chunks := t.chunks + [chunk], buf := buf)]))
  }

  /** The socket of descriptor `i` accepts `bytes` for write event `id`, leaving `wbuf` to send. */
  function CreditWrite(s: State, id: nat, i: nat, bytes: seq<byte>, wbuf: Option<seq<byte>>): State
    requires id in s.pending && i in s.iods
  {
    var t := TraceOf(s.hist, id);
    var iod := s.iods[i];
    s.(pending := s.pending[id := s.pending[id].(wbuf := wbuf)],
       iods := s.iods[i := iod.(writeCount := iod.writeCount + |bytes|)],
       hist := s.hist.(traces := s.hist.traces[id := t.(sent := t.sent + bytes)]))
  }

  predicate Complete(lineRead: bool, target: nat, buf: seq<byte>) {
    (lineRead && NEWLINE in buf) || |buf| >= target
  }

  function TryRead(s: State, id: nat, r: ReadResult): (State, Option<EventStatus>) {
    if id !in s.pending || s.pending[id].iod.None? || s.pending[id].iod.value !in s.iods then (s, None)
    else
      var e := s.pending[id];
      var i := e.iod.value;
      match s.iods[i].kind
      case Tcp =>
        if !s.iods[i].tcp then (s, None)
        else (
          match r
          case Data(offered) =>
            var bytes := Take(offered, READ_CHUNK);
            var buf := e.buf + bytes;
            if bytes == [] then (s, Some(Eof))
            else (CreditRead(s, id, i, Chunk(Tcp, bytes), buf),
                  if Complete(e.lineRead, e.target, buf) then Some(Success) else None)
          case ReadBlock => (s, None)
          case ReadFailed => (s, Some(Error)))
      case Udp =>
        if !s.iods[i].udp then (s, None)
        else
          match r
          case Data(offered) =>
            var bytes := Take(offered, DATAGRAM);
            (CreditRead(s, id, i, Chunk(Udp, bytes), bytes), Some(Success))
          case ReadBlock => (s, None)
          case ReadFailed => (s, Some(Error))
  }

  function TryWrite(s: State, id: nat, r: WriteResult): (State, Option<EventStatus>) {
    if id !in s.pending || s.pending[id].iod.None? || s.pending[id].iod.value !in s.iods
       || s.pending[id].wbuf.None?
    then (s, None)
    else
      var i, data := s.pending[id].iod.value, s.pending[id].wbuf.value;
      match s.iods[i].kind
      case Tcp =>
        if !s.iods[i].tcp then (s, None)
        else (
          match r
          case Accepts(n) =>
            var bytes := Take(data, n);
            var rest := data[|bytes|..];
            if bytes == [] then (s, Some(Eof))
            else (CreditWrite(s, id, i, bytes, if rest == [] then None else Some(rest)),
                  if rest == [] then Some(Success) else None)
          case WriteBlock => (s, None)
          case WriteFailed => (s, Some(Error)))
      case Udp =>
        if !s.iods[i].udp then (s, None)
        else
          match r
          case Accepts(_) => (CreditWrite(s, id, i, data, None), Some(Success))
          case WriteBlock => (s, None)
          case WriteFailed => (s, Some(Error))
  }

  // ----- One pass of the loop -----

  /** The surroundings of one pass: commands that arrive, iteration orders, clock and sockets. */
  datatype Pass = Pass(
    arrivals: seq<Cmd>, orders: nat -> seq<nat>, now: nat, order: seq<nat>,
    readable: nat -> ReadResult, writable: nat -> WriteResult, elapsed: nat, napAt: nat)

  /** The undelivered events in iteration order. */
  function LiveIds(pending: map<nat, Pending>, order: seq<nat>): seq<nat> {
    if order == [] then []
    else
      var rest := LiveIds(pending, order[1..]);
      if order[0] in pending && !pending[order[0]].done then [order[0]] + rest else rest
  }

  predicate IsDue(e: Pending, now: nat) { e.deadline.Some? && now >= e.deadline.value }

  function DueStatus(e: Pending): EventStatus { if e.kind == Timer then Success else Timeout }

  /** Deadlines reached, in iteration order. */
  function Due(pending: map<nat, Pending>, ids: seq<nat>, now: nat): seq<Fire> {
    if ids == [] then []
    else
      var rest := Due(pending, ids[1..], now);
      if ids[0] in pending && IsDue(pending[ids[0]], now)
      then [Fire(ids[0], DueStatus(pending[ids[0]]), now)] + rest
      else rest
  }

  predicate Scheduled(todo: seq<Fire>, id: nat) { exists k :: 0 <= k < |todo| && todo[k].id == id }

  function TryIo(s: State, id: nat, p: Pass): (State, Option<EventStatus>) {
    if id !in s.pending then (s, None)
    else
      match s.pending[id].kind
      case Read => TryRead(s, id, p.readable(id))
      case Write => TryWrite(s, id, p.writable(id))
      case _ => (s, None)
  }

  /** Attempt I/O on the events not already scheduled, scheduling those it resolves. */
  function IoPhase(s: State, ids: seq<nat>, p: Pass, todo: seq<Fire>): (State, seq<Fire>)
    decreases |ids|
  {
    if ids == [] then (s, todo)
    else if Scheduled(todo, ids[0]) then IoPhase(s, ids[1..], p, todo)
    else
      var (s', st) := TryIo(s, ids[0], p);
      IoPhase(s', ids[1..], p, if st.Some? then todo + [Fire(ids[0], st.value, p.now)] else todo)
  }

  function DeliverOne(s: State, f: Fire): State {
    if f.id !in s.pending then s
    else
      var e := s.pending[f.id];
      if e.done || e.cancelled then s
      else
        s.(readBufs := if e.kind == Read then s.readBufs[f.id := e.buf] else s.readBufs,
           pending := s.pending - {f.id},
           hist := s.hist.(log := s.hist.log + [f]))
  }

  function DeliverAll(s: State, todo: seq<Fire>): State
    decreases |todo|
  {
    if todo == [] then s else DeliverAll(DeliverOne(s, todo[0]), todo[1..])
  }

  /** Everything a pass does before it decides whether to return. */
  function PassBody(s: State, p: Pass): State {
    var start := s.(rx := [], hist := s.hist.(clock := p.now));
    var drained := Drain(start, s.rx + p.arrivals, p.orders, 0);
    var ids := LiveIds(drained.pending, p.order);
    var (resolved, todo) := IoPhase(drained, ids, p, Due(drained.pending, ids, p.now));
    DeliverAll(resolved, todo)
  }

  function Decide(s: State, start: nat, max: Option<nat>, p: Pass): Option<LoopStatus> {
    if !HasPending(s) then Some(NoEvents)
    else if s.quit then Some(LoopQuit)
    else if max.Some? && p.elapsed >= start + max.value then Some(LoopTimeout)
    else None
  }

  /** `d` is the earliest deadline of a live event. */
  ghost predicate IsNearest(s: State, d: nat) {
    && (exists id | id in s.pending :: Live(s, id) && s.pending[id].deadline == Some(d))
    && (forall id | id in s.pending ::
          Live(s, id) && s.pending[id].deadline.Some? ==> d <= s.pending[id].deadline.value)
  }

  ghost function Nearest(s: State): Option<nat> {
    if d: nat :| IsNearest(s, d) then Some(d) else None
  }

  /** How long the loop sleeps when it reads the clock at `at`. */
  function NapFor(nearest: Option<nat>, at: nat): nat {
    match nearest
    case None => NAP_CAP
    case Some(d) => if d <= at then 0 else if d - at < NAP_CAP then d - at else NAP_CAP
  }

  datatype RunOutcome = Returned(state: State, status: LoopStatus) | Looping(state: State)

  /** One pass with its ending: return, or sleep until `napAt` plus the nap. */
  ghost function RunStep(s: State, start: nat, max: Option<nat>, p: Pass): RunOutcome {
    var s' := PassBody(s, p);
    match Decide(s', start, max, p)
    case Some(status) =>
      Returned(s'.(quit := if status == LoopQuit then false else s'.quit, hist := s'.hist.(clock := p.elapsed)), status)
    case None => Looping(s'.(hist := s'.hist.(clock := p.napAt + NapFor(Nearest(s'), p.napAt))))
  }

  /** At most `n` passes, the first one under `env(i)`. */
  ghost function RunFrom(s: State, start: nat, max: Option<nat>, env: nat -> Pass, i: nat, n: nat): RunOutcome
    decreases n
  {
    if n == 0 then Looping(s)
    else
      match RunStep(s, start, max, env(i))
      case Returned(s', status) => Returned(s', status)
      case Looping(s') => RunFrom(s', start, max, env, i + 1, n - 1)
  }

  function MaxWait(timeoutMs: i32): Option<nat> { if timeoutMs < 0 then None else Some(timeoutMs * MILLI) }

  predicate NoDuplicates(order: seq<nat>) { forall j, k | 0 <= j < k < |order| :: order[j] != order[k] }

  predicate Covers(order: seq<nat>, keys: set<nat>) { forall id | id in keys :: id in order }

  /**
   * What the surroundings guarantee: an iteration visits every key and none twice, and the clock
   * never goes back, not even behind the end of the last sleep.
   */
  ghost predicate PassOk(s: State, p: Pass) {
    && NoDuplicates(p.order)
    && Covers(p.order, s.pending.Keys)
    && (forall k: nat :: Covers(p.orders(k), s.pending.Keys))
    && s.hist.clock <= p.now <= p.elapsed <= p.napAt
  }

  ghost predicate RunOk(s: State, start: nat, max: Option<nat>, env: nat -> Pass, i: nat, n: nat)
    decreases n
  {
    n > 0 ==>
      && PassOk(s, env(i))
      && (RunStep(s, start, max, env(i)).Looping? ==>
            RunOk(RunStep(s, start, max, env(i)).state, start, max, env, i + 1, n - 1))
  }
}
