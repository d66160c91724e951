/** What one pass does with every live event: no event is skipped, none is served twice. */
module PoolPolling {
  import opened Bytes
  import opened PoolModel
  import opened PoolInvariant
  import opened PoolSteps
  import opened PoolRuns
  import opened PoolTiming

  /** Event `id` and the socket it is polled on look the same in both states. */
  ghost predicate SameView(s: State, s': State, id: nat) {
    && (id in s.pending <==> id in s'.pending)
    && (id in s.pending ==> s.pending[id] == s'.pending[id])
    && TraceOf(s.hist, id) == TraceOf(s'.hist, id)
    && s.iods.Keys == s'.iods.Keys
    && forall i | i in s.iods ::
         s.iods[i].tcp == s'.iods[i].tcp && s.iods[i].udp == s'.iods[i].udp && s.iods[i].kind == s'.iods[i].kind
  }

  lemma CreditReadLocal(s: State, s': State, id: nat, i: nat, chunk: Chunk, buf: seq<byte>)
    requires SameView(s, s', id) && id in s.pending && i in s.iods
    ensures id in s'.pending && i in s'.iods
    ensures SameView(CreditRead(s, id, i, chunk, buf), CreditRead(s', id, i, chunk, buf), id)
  {
  }

  lemma CreditWriteLocal(s: State, s': State, id: nat, i: nat, bytes: seq<byte>, wbuf: Option<seq<byte>>)
    requires SameView(s, s', id) && id in s.pending && i in s.iods
    ensures id in s'.pending && i in s'.iods
    ensures SameView(CreditWrite(s, id, i, bytes, wbuf), CreditWrite(s', id, i, bytes, wbuf), id)
  {
  }

  lemma TryReadLocal(s: State, s': State, id: nat, r: ReadResult)
    requires SameView(s, s', id)
    ensures SameView(TryRead(s, id, r).0, TryRead(s', id, r).0, id)
    ensures TryRead(s, id, r).1 == TryRead(s', id, r).1
  {
    if id in s.pending && s.pending[id].iod.Some? && s.pending[id].iod.value in s.iods {
      var e, i := s.pending[id], s.pending[id].iod.value;
      assert s'.pending[id] == e && s'.iods[i].kind == s.iods[i].kind;
      assert s'.iods[i].tcp == s.iods[i].tcp && s'.iods[i].udp == s.iods[i].udp;
      hide SameView, CreditRead, Complete, Take;
      if r.Data? {
        CreditReadLocal(s, s', id, i, Chunk(Tcp, Take(r.offered, READ_CHUNK)), e.buf + Take(r.offered, READ_CHUNK));
        CreditReadLocal(s, s', id, i, Chunk(Udp, Take(r.offered, DATAGRAM)), Take(r.offered, DATAGRAM));
      }
    }
  }

  lemma TryWriteLocal(s: State, s': State, id: nat, r: WriteResult)
    requires SameView(s, s', id)
    ensures SameView(TryWrite(s, id, r).0, TryWrite(s', id, r).0, id)
    ensures TryWrite(s, id, r).1 == TryWrite(s', id, r).1
  {
    if id in s.pending && s.pending[id].iod.Some? && s.pending[id].iod.value in s.iods && s.pending[id].wbuf.Some? {
      var i, data := s.pending[id].iod.value, s.pending[id].wbuf.value;
      assert s'.pending[id] == s.pending[id] && s'.iods[i].kind == s.iods[i].kind;
      assert s'.iods[i].tcp == s.iods[i].tcp && s'.iods[i].udp == s.iods[i].udp;
      hide SameView, CreditWrite, Take;
      if r.Accepts? {
        var bytes := Take(data, r.n);
        var rest := data[|bytes|..];
        CreditWriteLocal(s, s', id, i, bytes, if rest == [] then None else Some(rest));
        CreditWriteLocal(s, s', id, i, data, None);
      }
    }
  }

  /** An attempt depends on nothing but its own event and socket. */
  lemma TryIoLocal(s: State, s': State, id: nat, p: Pass)
    requires SameView(s, s', id)
    ensures SameView(TryIo(s, id, p).0, TryIo(s', id, p).0, id)
    ensures TryIo(s, id, p).1 == TryIo(s', id, p).1
  {
    assert id in s.pending ==> s.pending[id].kind == s'.pending[id].kind;
    if id in s.pending {
      TryReadLocal(s, s', id, p.readable(id));
      TryWriteLocal(s, s', id, p.writable(id));
      hide SameView, TryRead, TryWrite;
    }
  }

  lemma TryReadApart(s: State, id: nat, r: ReadResult, other: nat)
    requires other != id
    ensures SameView(s, TryRead(s, id, r).0, other)
  {
  }

  lemma TryWriteApart(s: State, id: nat, r: WriteResult, other: nat)
    requires other != id
    ensures SameView(s, TryWrite(s, id, r).0, other)
  {
  }

  /** An attempt for one event does not show in any other. */
  lemma TryIoApart(s: State, id: nat, p: Pass, other: nat)
    requires other != id
    ensures SameView(s, TryIo(s, id, p).0, other)
  {
    hide SameView, TryRead, TryWrite;
    TryReadApart(s, id, p.readable(id), other);
    TryWriteApart(s, id, p.writable(id), other);
    SameViewRefl(s, other);
  }

  lemma SameViewRefl(s: State, id: nat)
    ensures SameView(s, s, id)
  {
  }

  lemma SameViewTrans(a: State, b: State, c: State, id: nat)
    requires SameView(a, b, id) && SameView(b, c, id)
    ensures SameView(a, c, id)
  {
  }

  /** The status the schedule gives an event, if any. */
  function StatusIn(todo: seq<Fire>, id: nat): Option<Fire> {
    if todo == [] then None
    else if todo[|todo| - 1].id == id then Some(todo[|todo| - 1])
    else StatusIn(todo[..|todo| - 1], id)
  }

  lemma StatusSnoc(todo: seq<Fire>, f: Fire, id: nat)
    ensures StatusIn(todo + [f], id) == if f.id == id then Some(f) else StatusIn(todo, id)
  {
    assert (todo + [f])[..|todo|] == todo;
  }

  lemma {:induction false} StatusScheduled(todo: seq<Fire>, id: nat)
    ensures StatusIn(todo, id).Some? <==> Scheduled(todo, id)
    ensures StatusIn(todo, id).Some? ==> StatusIn(todo, id).value in todo && StatusIn(todo, id).value.id == id
  {
    if todo != [] {
      var n := |todo| - 1;
      StatusScheduled(todo[..n], id);
      if k :| 0 <= k < n && todo[k].id == id {
        assert todo[..n][k].id == id;
      }
      if k :| 0 <= k < n && todo[..n][k].id == id {
        assert todo[k].id == id;
      }
      assert Scheduled(todo, id) <==> todo[n].id == id || Scheduled(todo[..n], id);
    }
  }

  /** What a poll of event `id` from state `s` schedules. */
  function PollFire(s: State, id: nat, p: Pass): Option<Fire> {
    match TryIo(s, id, p).1
    case Some(status) => Some(Fire(id, status, p.now))
    case None => None
  }

  /**
   * The I/O part of a pass: each event of `ids` not yet scheduled is attempted exactly once, with
   * the effect and status it would have if it were the only one, whatever the order.
   */
  lemma {:induction false} EachPolledOnce(s: State, ids: seq<nat>, p: Pass, todo: seq<Fire>, id: nat)
    requires NoDuplicates(ids)
    ensures var (s', todo') := IoPhase(s, ids, p, todo);
            if id in ids && !Scheduled(todo, id)
            then SameView(TryIo(s, id, p).0, s', id) && StatusIn(todo', id) == PollFire(s, id, p)
            else SameView(s, s', id) && StatusIn(todo', id) == StatusIn(todo, id)
    decreases |ids|
  {
    if ids == [] {
      assert SameView(s, s, id);
    } else {
      var first, rest := ids[0], ids[1..];
      assert forall k | 0 <= k < |rest| :: rest[k] == ids[k + 1];
      assert id in ids <==> id == first || id in rest;
      assert first !in rest;
      hide SameView, TryIo;
      if Scheduled(todo, first) {
        EachPolledOnce(s, rest, p, todo, id);
      } else {
        var (s1, st) := TryIo(s, first, p);
        var todo1 := if st.Some? then todo + [Fire(first, st.value, p.now)] else todo;
        EachPolledOnce(s1, rest, p, todo1, id);
        StatusScheduled(todo, id);
        StatusScheduled(todo1, id);
        if st.Some? {
          StatusSnoc(todo, Fire(first, st.value, p.now), id);
        }
        hide StatusIn, Scheduled;
        if id != first {
          TryIoApart(s, first, p, id);
          TryIoLocal(s, s1, id, p);
          var s' := IoPhase(s1, rest, p, todo1).0;
          if id in rest && !Scheduled(todo, id) {
            SameViewTrans(TryIo(s, id, p).0, TryIo(s1, id, p).0, s', id);
          } else {
            SameViewTrans(s, s1, s', id);
          }
        }
      }
    }
  }

  // ----- Deliveries -----

  lemma {:induction false} DeliveredStatus(s: State, todo: seq<Fire>, id: nat)
    requires forall j, k | 0 <= j < k < |todo| :: todo[j].id != todo[k].id
    requires forall k | 0 <= k < |todo| ::
      todo[k].id in s.pending && !s.pending[todo[k].id].done && !s.pending[todo[k].id].cancelled
    ensures FiresOf(DeliverAll(s, todo).hist.log, id) ==
            FiresOf(s.hist.log, id) + if StatusIn(todo, id).Some? then [StatusIn(todo, id).value] else []
    decreases |todo|
  {
    if todo != [] {
      var f, rest := todo[0], todo[1..];
      assert forall k | 0 <= k < |rest| :: rest[k] == todo[k + 1];
      DeliveredStatus(DeliverOne(s, f), rest, id);
      FiresOfAppend(s.hist.log, f, id);
      StatusFirst(todo, id);
      StatusScheduled(rest, id);
    }
  }

  lemma {:induction false} StatusFirst(todo: seq<Fire>, id: nat)
    requires todo != []
    ensures StatusIn(todo, id) == if StatusIn(todo[1..], id).Some? then StatusIn(todo[1..], id)
                                  else if todo[0].id == id then Some(todo[0]) else None
  {
    var n := |todo| - 1;
    if n > 0 {
      StatusFirst(todo[..n], id);
      assert todo[..n][1..] == todo[1..][..n - 1];
    }
  }

  // ----- A whole pass -----

  /** What a pass has in store for a live event: its deadline, else its own socket's answer. */
  function Verdict(s: State, id: nat, p: Pass): Option<Fire>
    requires id in s.pending
  {
    if IsDue(s.pending[id], p.now) then Some(Fire(id, DueStatus(s.pending[id]), p.now)) else PollFire(s, id, p)
  }

  lemma DueVerdict(s: State, ids: seq<nat>, p: Pass, id: nat)
    requires NoDuplicates(ids) && id in ids && forall k | 0 <= k < |ids| :: ids[k] in s.pending
    ensures id in s.pending
    ensures StatusIn(Due(s.pending, ids, p.now), id) ==
            if IsDue(s.pending[id], p.now) then Some(Fire(id, DueStatus(s.pending[id]), p.now)) else None
  {
    var due := Due(s.pending, ids, p.now);
    DueAre(s.pending, ids, p.now);
    StatusScheduled(due, id);
    hide Due, IsDue, DueStatus, StatusIn;
    if StatusIn(due, id).Some? {
      var k :| 0 <= k < |due| && due[k] == StatusIn(due, id).value;
      assert DueEntry(s.pending, ids, p.now, due[k]);
    }
  }

  /** What the pass does to event `id`: one attempt, unless its deadline is reached. */
  function AfterPoll(d: State, id: nat, p: Pass): State
    requires id in d.pending
  {
    if IsDue(d.pending[id], p.now) then d else TryIo(d, id, p).0
  }

  /** The pass from `d` to `s'` gave event `id` its verdict in one call, or left it with what one attempt moved. */
  ghost predicate Decided(d: State, s': State, id: nat, p: Pass)
    requires id in d.pending
  {
    var attempt := AfterPoll(d, id, p);
    && TraceOf(s'.hist, id) == TraceOf(attempt.hist, id)
    && match Verdict(d, id, p)
       case Some(f) => !Live(s', id) && FiresOf(s'.hist.log, id) == [f]
       case None =>
         && Live(s', id) && FiresOf(s'.hist.log, id) == []
         && id in attempt.pending && s'.pending[id] == attempt.pending[id]
  }

  /**
   * No starvation, and no favour: once its messages are handled, a pass decides every live event
   * by itself. An event whose deadline is reached is told so; any other is attempted exactly once
   * on its own socket, leaves with the attempt's status, or stays with what the attempt moved. The
   * order in which the events are visited does not matter.
   */
  lemma PassDecidesEach(s: State, p: Pass, id: nat)
    requires Inv(s) && PassOk(s, p) && Live(Drained(s, p), id)
    ensures Decided(Drained(s, p), PassBody(s, p), id, p)
  {
    var d := Drained(s, p);
    var ids := LiveIds(d.pending, p.order);
    DrainedOk(s, p);
    VisitsLive(s, p);
    hide Inv, PassOk, LiveIds;
    PassIsPhases(s, p);
    hide PassBody, Drained, Decided;
    LiveDecided(d, ids, p, id);
  }

  /** A pass visits every live event once. */
  lemma VisitsLive(s: State, p: Pass)
    requires Inv(s) && PassOk(s, p)
    ensures var d := Drained(s, p);
            var ids := LiveIds(d.pending, p.order);
            NoDuplicates(ids) && forall id :: id in ids <==> Live(d, id)
  {
    DrainedOk(s, p);
    LiveIdsAre(Drained(s, p).pending, p.order);
    hide Inv, Drained, LiveIds;
  }

  lemma LiveDecided(d: State, ids: seq<nat>, p: Pass, id: nat)
    requires Inv(d) && NoDuplicates(ids) && (forall j :: j in ids <==> Live(d, j)) && Live(d, id)
    ensures var out := IoPhase(d, ids, p, Due(d.pending, ids, p.now));
            Decided(d, DeliverAll(out.0, out.1), id, p)
  {
    ScheduledVerdict(d, ids, p, id);
    FiresNone(d, id);
    var out := IoPhase(d, ids, p, Due(d.pending, ids, p.now));
    hide Inv, PhaseOk, Due, IoPhase, TryIo, StatusIn, Verdict, AfterPoll, SameView, FiresOf, Decided, Live;
    VerdictDelivered(d, out.0, out.1, id, p);
  }

  lemma VerdictDelivered(d: State, resolved: State, todo: seq<Fire>, id: nat, p: Pass)
    requires Live(d, id) && PhaseOk(resolved, todo) && Live(resolved, id)
    requires resolved.hist.log == d.hist.log && FiresOf(d.hist.log, id) == []
    requires StatusIn(todo, id) == Verdict(d, id, p)
    requires SameView(AfterPoll(d, id, p), resolved, id)
    ensures Decided(d, DeliverAll(resolved, todo), id, p)
  {
    hide PhaseOk, TryIo, StatusIn, Verdict, AfterPoll, SameView, FiresOf, TraceOf, Scheduled, DeliverAll;
    StatusScheduled(todo, id);
    PhaseDelivers(resolved, todo);
    PhaseFires(resolved, todo, id);
    SameViewEntry(AfterPoll(d, id, p), resolved, id);
  }

  /** The schedule of a pass holds every verdict; events without one stay with what they got. */
  lemma ScheduledVerdict(d: State, ids: seq<nat>, p: Pass, id: nat)
    requires Inv(d) && NoDuplicates(ids) && (forall j :: j in ids <==> Live(d, j)) && Live(d, id)
    ensures var (resolved, todo) := IoPhase(d, ids, p, Due(d.pending, ids, p.now));
            && PhaseOk(resolved, todo) && Live(resolved, id) && resolved.hist.log == d.hist.log
            && StatusIn(todo, id) == Verdict(d, id, p)
            && SameView(AfterPoll(d, id, p), resolved, id)
  {
    var due := Due(d.pending, ids, p.now);
    assert forall k | 0 <= k < |ids| :: Live(d, ids[k]);
    DueOk(d, ids, p.now);
    DueVerdict(d, ids, p, id);
    DueStamps(d.pending, ids, p.now);
    StatusScheduled(due, id);
    hide Inv, PhaseOk, Due, TryIo, StatusIn, IsDue, DueStatus, SameView, StampedAt, Scheduled, IoPhase;
    IoPhaseOk(d, ids, p, due);
    IoPhaseStamps(d, ids, p, due);
    EachPolledOnce(d, ids, p, due, id);
  }

  lemma SameViewEntry(s: State, s': State, id: nat)
    requires SameView(s, s', id) && id in s'.pending
    ensures id in s.pending && s'.pending[id] == s.pending[id]
    ensures TraceOf(s'.hist, id) == TraceOf(s.hist, id)
  {
  }

  /** Delivering the schedule calls each scheduled event once, with its status. */
  lemma PhaseFires(s: State, todo: seq<Fire>, id: nat)
    requires PhaseOk(s, todo)
    ensures FiresOf(DeliverAll(s, todo).hist.log, id) ==
            FiresOf(s.hist.log, id) + if StatusIn(todo, id).Some? then [StatusIn(todo, id).value] else []
    ensures TraceOf(DeliverAll(s, todo).hist, id) == TraceOf(s.hist, id)
  {
    hide FireOk, StrictBut, ConnectionsOk, IodsOk, FiresOf;
    forall k | 0 <= k < |todo|
      ensures todo[k].id in s.pending && !s.pending[todo[k].id].done && !s.pending[todo[k].id].cancelled
    {
      LiveEntry(s, todo[k].id);
    }
    hide WeakInv, TodoOk;
    DeliveredStatus(s, todo, id);
    DeliverTraces(s, todo);
  }

  lemma {:induction false} DeliverTraces(s: State, todo: seq<Fire>)
    ensures DeliverAll(s, todo).hist.traces == s.hist.traces
    decreases |todo|
  {
    if todo != [] {
      DeliverTraces(DeliverOne(s, todo[0]), todo[1..]);
    }
  }

  lemma FiresNone(s: State, id: nat)
    requires Inv(s) && Live(s, id)
    ensures FiresOf(s.hist.log, id) == []
  {
    assert EventOk(s, id);
  }

  /**
   * A write with nothing to send, though all of it is accepted from the start, is told `Success` by
   * a pass only over a datagram socket that accepts it; a stream ends it in `Eof`.
   */
  lemma EmptyWriteSucceedsExactly(s: State, p: Pass, id: nat)
    requires Inv(s) && PassOk(s, p) && Live(Drained(s, p), id)
    requires Drained(s, p).pending[id].kind == Write && !IsDue(Drained(s, p).pending[id], p.now)
    requires id in Drained(s, p).hist.traces && Drained(s, p).hist.traces[id].data == []
    ensures var d, iod := Drained(s, p), Drained(s, p).pending[id].iod;
            FiresOf(PassBody(s, p).hist.log, id) == [Fire(id, Success, p.now)] <==>
              && iod.Some? && iod.value in d.iods
              && d.iods[iod.value].kind == Udp && d.iods[iod.value].udp && p.writable(id).Accepts?
  {
    hide Inv, PassOk, PassBody, Drained, FiresOf, IsDue, TryIo, TraceOf;
    PassDecidesEach(s, p, id);
    DrainedOk(s, p);
    EmptyUnsent(Drained(s, p), id);
    EmptyAttempt(Drained(s, p), p, id);
  }

  lemma EmptyAttempt(s: State, p: Pass, id: nat)
    requires id in s.pending && s.pending[id].kind == Write && s.pending[id].wbuf == Some([])
    ensures var iod := s.pending[id].iod;
            TryIo(s, id, p).1 == Some(Success) <==>
              && iod.Some? && iod.value in s.iods
              && s.iods[iod.value].kind == Udp && s.iods[iod.value].udp && p.writable(id).Accepts?
  {
    hide CreditWrite;
  }

  lemma EmptyUnsent(s: State, id: nat)
    requires Inv(s) && Live(s, id) && s.pending[id].kind == Write
    requires id in s.hist.traces && s.hist.traces[id].data == []
    ensures s.pending[id].wbuf == Some([])
  {
    LiveEntry(s, id);
    LiveUnfinished(s, id);
  }
}
