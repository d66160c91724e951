/** Offline capture: a savefile read through a filter (wnr-pcap/src/capture.rs). */
module Captures {
  import opened Bytes
  import opened Bpf
  import opened FilterCompiler
  import opened Savefile
  import opened SavefileProperties

  datatype PacketHeader = PacketHeader(tsSec: u32, tsFrac: u32, caplen: u32, len: u32)

  datatype Delivery = Delivery(hdr: PacketHeader, data: seq<byte>)

  datatype LoopControl = Continue | Break

  /** A delivery hands on the packet's data and, in its header, the record's four numbers. */
  predicate Relays(d: Delivery, p: Packet) {
    && d.data == p.data
    && d.hdr.tsSec == p.tsSec && d.hdr.tsFrac == p.tsFrac
    && d.hdr.caplen == p.caplen && d.hdr.len == p.origlen
  }

  // ----- What a filtered capture delivers -----

  ghost predicate FilterEnds(filter: Option<seq<Insn>>) {
    filter.Some? ==> forall pkt :: Halts(filter.value, pkt)
  }

  ghost predicate Passes(filter: Option<seq<Insn>>, data: seq<byte>)
    requires FilterEnds(filter)
  {
    filter.Some? ==> Result(filter.value, data) != BPF_REJECT
  }

  /** The next packet the filter lets through. */
  ghost function NextPassing(h: FileHeader, filter: Option<seq<Insn>>, bytes: seq<byte>): (r: Next)
    requires FilterEnds(filter)
    ensures r.Got? ==> |r.rest| < |bytes|
    decreases |bytes|
  {
    match NextRecord(h, bytes)
    case Got(p, rest) => if Passes(filter, p.data) then Got(p, rest) else NextPassing(h, filter, rest)
    case other => other
  }

  /** Everything `next_packet` delivers until it reports the end or an error. */
  ghost function Delivered(h: FileHeader, filter: Option<seq<Insn>>, bytes: seq<byte>): Contents
    requires FilterEnds(filter)
    decreases |bytes|
  {
    match NextPassing(h, filter, bytes)
    case End => Contents([], None)
    case Failed(error, _) => Contents([], Some(error))
    case Got(p, rest) =>
      var more := Delivered(h, filter, rest);
      more.(packets := [p] + more.packets)
  }

  ghost function Filtered(filter: Option<seq<Insn>>, ps: seq<Packet>): seq<Packet>
    requires FilterEnds(filter)
  {
    if ps == [] then []
    else if Passes(filter, ps[0].data) then [ps[0]] + Filtered(filter, ps[1..])
    else Filtered(filter, ps[1..])
  }

  /** The capture delivers exactly the accepted packets of the file, in order, and the file's own ending. */
  lemma {:induction false} DeliveredExactly(h: FileHeader, filter: Option<seq<Insn>>, bytes: seq<byte>)
    requires FilterEnds(filter)
    ensures Delivered(h, filter, bytes) ==
            Contents(Filtered(filter, ReadAll(h, bytes).packets), ReadAll(h, bytes).error)
    decreases |bytes|
  {
    hide FilterEnds, Passes;
    match NextRecord(h, bytes)
    case End =>
    case Failed(_, _) =>
    case Got(p, rest) =>
      DeliveredExactly(h, filter, rest);
      var more := ReadAll(h, rest).packets;
      assert ([p] + more)[0] == p && ([p] + more)[1..] == more;
      if !Passes(filter, p.data) {
        assert Delivered(h, filter, bytes) == Delivered(h, filter, rest);
      }
  }

  /** With a compiled filter the packets delivered are the selected ones. */
  lemma CompiledFilterPasses(p: Option<Primitive>, linktype: i32, data: seq<byte>)
    ensures FilterEnds(Some(Compile(p, linktype)))
    ensures Passes(Some(Compile(p, linktype)), data) <==> Selects(p, linktype, data)
  {
    forall pkt
      ensures Halts(Compile(p, linktype), pkt)
    {
      CompileCorrect(p, linktype, pkt);
    }
    CompileCorrect(p, linktype, data);
  }

  // ----- The capture object -----

  class Capture {
    const reader: SavefileReader
    const snaplen: u32
    const linktype: i32
    var filter: Option<seq<Insn>>
    var filterVm: BpfVm

    ghost predicate Valid()
      reads this, reader, reader.reader, filterVm
    {
      reader.Valid() && filterVm.Valid() && FilterEnds(filter) && snaplen == reader.header.snaplen
    }

    ghost function Rest(): seq<byte>
      reads this, reader, reader.reader, filterVm
      requires Valid()
    {
      reader.Rest()
    }

    /** What is still to be delivered. */
    ghost function Pending(): Contents
      reads this, reader, reader.reader, filterVm
      requires Valid()
    {
      Delivered(reader.header, filter, Rest())
    }

    constructor (reader: SavefileReader)
      requires reader.Valid()
      ensures Valid() && this.reader == reader && filter == None && fresh(filterVm) && fresh(filterVm.mem)
      ensures linktype == AsI32(reader.header.linktype)
    {
      this.reader := reader;
      snaplen := reader.header.snaplen;
      linktype := AsI32(reader.header.linktype);
      filter := None;
      filterVm := new BpfVm();
    }

    method SetFilter(p: Option<Primitive>)
      requires Valid()
      modifies this
      ensures Valid() && filter == Some(Compile(p, linktype))
      ensures fresh(filterVm) && fresh(filterVm.mem)
      ensures Rest() == old(Rest())
    {
      CompiledFilterPasses(p, linktype, []);
      filter := Some(Compile(p, linktype));
      filterVm := new BpfVm();
    }

    method NextPacket() returns (delivery: Option<Delivery>, error: Option<IoError>)
      requires Valid()
      modifies reader.reader, filterVm, filterVm.mem
      ensures Valid()
      ensures match NextPassing(reader.header, filter, old(Rest()))
              case End => delivery == None && error == None && Rest() == []
              case Got(p, rest) =>
                delivery.Some? && Relays(delivery.value, p) && error == None && Rest() == rest
              case Failed(e, rest) => delivery == None && error == Some(e) && Rest() == rest
      decreases |Rest()|
    {
      hide NextRecord;
      var fetched, e := reader.NextPacket();
      if e.Some? {
        return None, e;
      }
      if fetched.None? {
        return None, None;
      }
      var pkt := fetched.value;
      if filter.Some? {
        var ok := filterVm.FilterOk(filter.value, pkt.data);
        if !ok {
          delivery, error := NextPacket();
          return;
        }
      }
      return Some(Delivery(PacketHeader(pkt.tsSec, pkt.tsFrac, pkt.caplen, pkt.origlen), pkt.data)), None;
    }

    /**
     * `loop_`: call back on deliveries until one asks to stop, `count` is reached (never, when it
     * is not positive, short of 2^32 - 1) or the capture ends. `cb` sees the calls so far.
     */
    method Loop(count: i32, cb: seq<Delivery> -> LoopControl)
      returns (processed: u32, error: Option<IoError>, ghost calls: seq<Delivery>)
      requires Valid()
      modifies reader.reader, filterVm, filterVm.mem
      ensures Valid()
      ensures LoopOutcome(old(Pending()), if count <= 0 then 0xffff_ffff else count, cb, processed, error, calls)
    {
      hide Delivered, NextPassing, FilterEnds, Relays;
      var limit: u32 := if count <= 0 then 0xffff_ffff else count;
      processed, error, calls := 0, None, [];
      var seen: seq<Delivery> := [];
      ghost var all := Pending();
      while true
        invariant Valid() && error == None && processed as int == |seen| <= limit && calls == seen
        invariant |seen| <= |all.packets|
        invariant Pending() == Contents(all.packets[|seen|..], all.error)
        invariant forall j | 0 <= j < |seen| :: Relays(seen[j], all.packets[j])
        invariant forall j | 0 < j <= |seen| :: cb(seen[..j]) == Continue
        decreases |Rest()|
      {
        assert seen[..|seen|] == seen;
        if processed >= limit {
          return;
        }
        DeliveredStep(reader.header, filter, Rest());
        ghost var before := Pending();
        var delivery, e := NextPacket();
        if e.Some? {
          error := e;
          return;
        }
        if delivery.None? {
          return;
        }
        processed := processed + 1;
        assert before.packets != [] && before.packets == all.packets[|seen|..];
        OneMoreCall(all.packets, seen, delivery.value, cb);
        seen := seen + [delivery.value];
        calls := seen;
        if cb(seen) == Break {
          return;
        }
        assert seen[..|seen|] == seen;
      }
    }

    /** `capture_to_file`: write what is delivered to a new savefile; an error just ends the copy. */
    method CaptureToFile(outLinktype: u32) returns (out: seq<byte>, count: u32)
      requires Valid()
      modifies reader.reader, filterVm, filterVm.mem
      ensures Valid()
      ensures out == WrittenFile(snaplen, outLinktype, FramesOf(old(Pending()).packets))
      ensures count as int == |old(Pending()).packets| % 0x1_0000_0000
    {
      hide Delivered, NextPassing, FilterEnds, EncodeHeader, EncodeRecord, Stored, WrittenFile, FramesOf, Low32;
      Low32Count(0);
      WrittenNone(snaplen, outLinktype);
      var w := new SavefileWriter(snaplen, outLinktype);
      count := 0;
      ghost var all := Pending().packets;
      ghost var done: seq<Packet> := [];
      while true
        invariant Valid() && w.header.snaplen == snaplen && fresh(w)
        invariant all == done + Pending().packets
        invariant w.out == WrittenFile(snaplen, outLinktype, FramesOf(done))
        invariant count == Low32(|done|)
        decreases |Rest()|
      {
        DeliveredStep(reader.header, filter, Rest());
        ghost var before := Pending().packets;
        var delivery, e := NextPacket();
        if delivery.None? {
          break;
        }
        var hdr, data := delivery.value.hdr, delivery.value.data;
        w.WritePacket(hdr.tsSec, hdr.tsFrac, data);
        WrittenSnoc(snaplen, outLinktype, done, before[0]);
        done := done + [before[0]];
        Low32Count(|done| - 1);
        count := Low32(count + 1);
      }
      assert all == done;
      Low32Count(|done|);
      out := w.out;
    }
  }

  method OpenOffline(file: seq<byte>) returns (capture: Option<Capture>, error: Option<IoError>)
    ensures match OpenFile(file)
            case Accepted(h) =>
              && capture.Some? && error == None
              && fresh(capture.value) && fresh(capture.value.reader) && fresh(capture.value.reader.reader)
              && fresh(capture.value.filterVm) && fresh(capture.value.filterVm.mem)
              && capture.value.Valid() && capture.value.reader.header == h && capture.value.filter == None
              && capture.value.linktype == AsI32(h.linktype)
              && capture.value.Rest() == file[HEADER_SIZE..]
            case Refused(e) => capture == None && error == Some(e)
  {
    var reader, e := Savefile.Open(file);
    if reader.None? {
      return None, e;
    }
    var c := new Capture(reader.value);
    return Some(c), None;
  }

  /** One delivery taken off what is pending. */
  lemma DeliveredStep(h: FileHeader, filter: Option<seq<Insn>>, bytes: seq<byte>)
    requires FilterEnds(filter)
    ensures match NextPassing(h, filter, bytes)
            case End => Delivered(h, filter, bytes) == Contents([], None)
            case Failed(e, _) => Delivered(h, filter, bytes) == Contents([], Some(e))
            case Got(p, rest) =>
              Delivered(h, filter, bytes) ==
              Contents([p] + Delivered(h, filter, rest).packets, Delivered(h, filter, rest).error)
  {
  }

  lemma OneMoreCall(ps: seq<Packet>, seen: seq<Delivery>, d: Delivery, cb: seq<Delivery> -> LoopControl)
    requires |seen| < |ps|
    requires forall j | 0 < j <= |seen| :: cb(seen[..j]) == Continue
    ensures ps[|seen|..] == [ps[|seen|]] + ps[|seen| + 1..]
    ensures forall j | 0 < j < |seen| + 1 :: cb((seen + [d])[..j]) == Continue
  {
    assert forall j | 0 < j < |seen| + 1 :: (seen + [d])[..j] == seen[..j];
  }

  /**
   * The callback runs on the longest permitted prefix of the deliveries: it ends at the first call
   * that breaks, at the limit, or with the capture, whose error is reported only if it is reached.
   */
  ghost predicate LoopOutcome(
    all: Contents, limit: u32, cb: seq<Delivery> -> LoopControl,
    processed: u32, error: Option<IoError>, calls: seq<Delivery>)
  {
    && processed as int == |calls| <= limit && |calls| <= |all.packets|
    && (forall j | 0 <= j < |calls| :: Relays(calls[j], all.packets[j]))
    && (forall j | 0 < j < |calls| :: cb(calls[..j]) == Continue)
    && var stopped := |calls| == limit || (calls != [] && cb(calls) == Break);
       && (!stopped ==> |calls| == |all.packets| && error == all.error)
       && (stopped ==> error == None)
  }

  // ----- Copying a capture -----

  function FramesOf(ps: seq<Packet>): seq<Frame> {
    seq(|ps|, i requires 0 <= i < |ps| => Frame(ps[i].tsSec, ps[i].tsFrac, ps[i].data))
  }

  lemma WrittenSnoc(snaplen: u32, linktype: u32, ps: seq<Packet>, p: Packet)
    ensures WrittenFile(snaplen, linktype, FramesOf(ps + [p])) ==
            WrittenFile(snaplen, linktype, FramesOf(ps))
            + EncodeRecord(false, Stored(snaplen, p.tsSec, p.tsFrac, p.data))
  {
    hide EncodeRecord, Stored, EncodeHeader;
    var stored := Stored(snaplen, p.tsSec, p.tsFrac, p.data);
    assert StoredAll(snaplen, FramesOf(ps + [p])) == StoredAll(snaplen, FramesOf(ps)) + [stored];
    EncodeSnoc(false, StoredAll(snaplen, FramesOf(ps)), stored);
  }

  lemma WrittenNone(snaplen: u32, linktype: u32)
    ensures WrittenFile(snaplen, linktype, FramesOf([])) == EncodeHeader(false, NewHeader(snaplen, linktype))
  {
    hide EncodeHeader;
    assert StoredAll(snaplen, FramesOf([])) == [];
  }

  /** The packets a filtered reading of a whole file delivers. */
  ghost function FileDelivers(file: seq<byte>, filter: Option<seq<Insn>>): seq<Packet>
    requires FilterEnds(filter) && OpenFile(file).Accepted?
  {
    Delivered(OpenFile(file).header, filter, file[HEADER_SIZE..]).packets
  }

  /** The savefile that opening `file`, setting `filter` and calling `capture_to_file` produces. */
  ghost function Copied(file: seq<byte>, filter: Option<seq<Insn>>, linktype: u32): seq<byte>
    requires FilterEnds(filter) && OpenFile(file).Accepted?
  {
    WrittenFile(OpenFile(file).header.snaplen, linktype, FramesOf(FileDelivers(file, filter)))
  }

  lemma {:induction false} ReadAllStorable(h: FileHeader, bytes: seq<byte>, k: nat)
    requires k < |ReadAll(h, bytes).packets|
    ensures Storable(ReadAll(h, bytes).packets[k])
    decreases |bytes|
  {
    match NextRecord(h, bytes)
    case Got(p, rest) =>
      if k > 0 {
        ReadAllStorable(h, rest, k - 1);
      }
  }

  lemma {:induction false} FilteredAre(filter: Option<seq<Insn>>, ps: seq<Packet>, p: Packet)
    requires FilterEnds(filter)
    ensures p in Filtered(filter, ps) <==> p in ps && Passes(filter, p.data)
  {
    hide FilterEnds, Passes;
    if ps != [] {
      FilteredAre(filter, ps[1..], p);
      assert p in ps <==> p == ps[0] || p in ps[1..];
    }
  }

  lemma {:induction false} FilteredAll(filter: Option<seq<Insn>>, ps: seq<Packet>)
    requires FilterEnds(filter) && forall k | 0 <= k < |ps| :: Passes(filter, ps[k].data)
    ensures Filtered(filter, ps) == ps
  {
    hide FilterEnds, Passes;
    if ps != [] {
      assert forall k | 0 <= k < |ps[1..]| :: ps[1..][k] == ps[k + 1];
      FilteredAll(filter, ps[1..]);
    }
  }

  /** Every delivered packet is whole and passed the filter. */
  lemma DeliveredPackets(file: seq<byte>, filter: Option<seq<Insn>>, k: nat)
    requires FilterEnds(filter) && OpenFile(file).Accepted? && k < |FileDelivers(file, filter)|
    ensures Storable(FileDelivers(file, filter)[k]) && Passes(filter, FileDelivers(file, filter)[k].data)
  {
    var h, bytes := OpenFile(file).header, file[HEADER_SIZE..];
    DeliveredExactly(h, filter, bytes);
    var p, ps := FileDelivers(file, filter)[k], ReadAll(h, bytes).packets;
    FilteredAre(filter, ps, p);
    var j :| 0 <= j < |ps| && ps[j] == p;
    ReadAllStorable(h, bytes, j);
  }

  /** What a copy delivers: the stored packets that still pass the filter. */
  lemma CopyDelivers(file: seq<byte>, filter: Option<seq<Insn>>, linktype: u32)
    requires FilterEnds(filter) && OpenFile(file).Accepted?
    ensures var snaplen := OpenFile(file).header.snaplen;
            var copy := Copied(file, filter, linktype);
            && OpenFile(copy) == Accepted(NewHeader(snaplen, linktype))
            && FileDelivers(copy, filter) == Filtered(filter, StoredAll(snaplen, FramesOf(FileDelivers(file, filter))))
  {
    var snaplen := OpenFile(file).header.snaplen;
    hide OpenFile, WrittenFile, StoredAll, FramesOf, Filtered, Delivered, FilterEnds, ReadAll;
    WrittenFileReads(snaplen, linktype, FramesOf(FileDelivers(file, filter)));
    DeliveredExactly(NewHeader(snaplen, linktype), filter, Copied(file, filter, linktype)[HEADER_SIZE..]);
  }

  /** The captured lengths of everything delivered stay within the file's snapshot length. */
  ghost predicate WithinSnaplen(file: seq<byte>, filter: Option<seq<Insn>>)
    requires FilterEnds(filter) && OpenFile(file).Accepted?
  {
    forall k | 0 <= k < |FileDelivers(file, filter)| ::
      FileDelivers(file, filter)[k].caplen <= OpenFile(file).header.snaplen
  }

  /**
   * Copying the copy again, with the same filter and link type, reproduces it byte for byte exactly
   * when no delivered record was longer than the snapshot length.
   */
  lemma CopyTwiceExactly(file: seq<byte>, filter: Option<seq<Insn>>, linktype: u32)
    requires FilterEnds(filter) && OpenFile(file).Accepted?
    ensures OpenFile(Copied(file, filter, linktype)).Accepted?
    ensures Copied(Copied(file, filter, linktype), filter, linktype) == Copied(file, filter, linktype)
            <==> WithinSnaplen(file, filter)
  {
    CopyDelivers(file, filter, linktype);
    if WithinSnaplen(file, filter) {
      UnclippedCopySame(file, filter, linktype);
    }
    if Copied(Copied(file, filter, linktype), filter, linktype) == Copied(file, filter, linktype) {
      SameCopyUnclipped(file, filter, linktype);
    }
  }

  /** A 2-byte record in a file with snapshot length 1. */
  function OversizedFile(): seq<byte> {
    EncodeHeader(false, NewHeader(1, 1)) + EncodeRecords(false, [Packet(0, 0, 2, 2, 0, [7, 7])])
  }

  /** Its first copy clips the record, and the second copy loses the record's original length. */
  lemma OversizedCopiesDiffer(linktype: u32)
    ensures OpenFile(OversizedFile()).Accepted? && OpenFile(Copied(OversizedFile(), None, linktype)).Accepted?
    ensures !WithinSnaplen(OversizedFile(), None)
    ensures Copied(Copied(OversizedFile(), None, linktype), None, linktype) != Copied(OversizedFile(), None, linktype)
  {
    var h, p, file := NewHeader(1, 1), Packet(0, 0, 2, 2, 0, [7, 7]), OversizedFile();
    var records := EncodeRecords(false, [p]);
    SeenMagicValues();
    HeaderRoundTrip(false, h, records);
    assert file[HEADER_SIZE..] == records == EncodeRecord(false, p) + [];
    assert records[..|records|] == records;
    NextOfRecord(h, false, p, [], |records|);
    NextOfNothing(h);
    assert FileDelivers(file, None)[0] == p by {
      hide NextRecord, EncodeRecord, EncodeHeader;
      assert NextRecord(h, records) == Got(p, []);
    }
    CopyTwiceExactly(file, None, linktype);
  }

  lemma UnclippedCopySame(file: seq<byte>, filter: Option<seq<Insn>>, linktype: u32)
    requires FilterEnds(filter) && OpenFile(file).Accepted? && WithinSnaplen(file, filter)
    ensures OpenFile(Copied(file, filter, linktype)).Accepted?
    ensures Copied(Copied(file, filter, linktype), filter, linktype) == Copied(file, filter, linktype)
  {
    var snaplen, ps := OpenFile(file).header.snaplen, FileDelivers(file, filter);
    var stored := StoredAll(snaplen, FramesOf(ps));
    CopyDelivers(file, filter, linktype);
    forall k | 0 <= k < |ps|
      ensures stored[k].data == ps[k].data && Passes(filter, ps[k].data)
      ensures stored[k].tsSec == ps[k].tsSec && stored[k].tsFrac == ps[k].tsFrac
    {
      DeliveredPackets(file, filter, k);
      assert ps[k].data[..|ps[k].data|] == ps[k].data;
    }
    FilteredAll(filter, stored);
    assert FramesOf(stored) == FramesOf(ps);
  }

  lemma SameCopyUnclipped(file: seq<byte>, filter: Option<seq<Insn>>, linktype: u32)
    requires FilterEnds(filter) && OpenFile(file).Accepted?
    requires OpenFile(Copied(file, filter, linktype)).Accepted?
    requires Copied(Copied(file, filter, linktype), filter, linktype) == Copied(file, filter, linktype)
    ensures WithinSnaplen(file, filter)
  {
    var snaplen, ps := OpenFile(file).header.snaplen, FileDelivers(file, filter);
    var qs := FileDelivers(Copied(file, filter, linktype), filter);
    CopyDelivers(file, filter, linktype);
    hide OpenFile, FilterEnds, Passes, FileDelivers, WrittenFile, StoredAll, FramesOf, Filtered;
    SameFilesSameFrames(snaplen, linktype, FramesOf(ps), FramesOf(qs));
    StillStored(snaplen, filter, ps);
    forall k | 0 <= k < |ps|
      ensures Storable(ps[k])
    {
      DeliveredPackets(file, filter, k);
    }
    EqualStoresUnclipped(snaplen, ps, qs);
  }

  lemma EqualStoresUnclipped(snaplen: u32, ps: seq<Packet>, qs: seq<Packet>)
    requires StoredAll(snaplen, FramesOf(ps)) == StoredAll(snaplen, FramesOf(qs))
    requires forall q | q in qs :: |q.data| <= snaplen
    requires forall k | 0 <= k < |ps| :: Storable(ps[k])
    ensures forall k | 0 <= k < |ps| :: ps[k].caplen <= snaplen
  {
    StoredAt(snaplen, qs);
    StoredAt(snaplen, ps);
    hide StoredAll, FramesOf;
    forall k | 0 <= k < |ps|
      ensures ps[k].caplen <= snaplen
    {
      assert Storable(ps[k]) && qs[k] in qs;
      assert Low32(|ps[k].data|) == Low32(|qs[k].data|);
    }
  }

  lemma StillStored(snaplen: u32, filter: Option<seq<Insn>>, ps: seq<Packet>)
    requires FilterEnds(filter)
    ensures forall q | q in Filtered(filter, StoredAll(snaplen, FramesOf(ps))) :: |q.data| <= snaplen
  {
    var stored := StoredAll(snaplen, FramesOf(ps));
    hide FilterEnds, Passes, Filtered;
    forall q | q in Filtered(filter, stored)
      ensures |q.data| <= snaplen
    {
      FilteredAre(filter, stored, q);
    }
  }

  lemma StoredAt(snaplen: u32, ps: seq<Packet>)
    ensures |StoredAll(snaplen, FramesOf(ps))| == |ps|
    ensures forall k | 0 <= k < |ps| :: StoredAll(snaplen, FramesOf(ps))[k].origlen == Low32(|ps[k].data|)
  {
  }

  lemma SameFilesSameFrames(snaplen: u32, linktype: u32, fs: seq<Frame>, gs: seq<Frame>)
    requires WrittenFile(snaplen, linktype, fs) == WrittenFile(snaplen, linktype, gs)
    ensures StoredAll(snaplen, fs) == StoredAll(snaplen, gs)
  {
    WrittenFileReads(snaplen, linktype, fs);
    WrittenFileReads(snaplen, linktype, gs);
  }

  /** Clipped or not, the second copy is the last one that can differ. */
  lemma CopiesSettle(file: seq<byte>, filter: Option<seq<Insn>>, linktype: u32)
    requires FilterEnds(filter) && OpenFile(file).Accepted?
    ensures OpenFile(Copied(file, filter, linktype)).Accepted?
    ensures var once := Copied(file, filter, linktype);
            && OpenFile(Copied(once, filter, linktype)).Accepted?
            && Copied(Copied(once, filter, linktype), filter, linktype) == Copied(once, filter, linktype)
  {
    var once := Copied(file, filter, linktype);
    var snaplen, ps := OpenFile(file).header.snaplen, FileDelivers(file, filter);
    CopyDelivers(file, filter, linktype);
    forall k | 0 <= k < |FileDelivers(once, filter)|
      ensures FileDelivers(once, filter)[k].caplen <= snaplen
    {
      var stored := StoredAll(snaplen, FramesOf(ps));
      FilteredAre(filter, stored, FileDelivers(once, filter)[k]);
      var j :| 0 <= j < |stored| && stored[j] == FileDelivers(once, filter)[k];
    }
    CopyTwiceExactly(once, filter, linktype);
  }
}
