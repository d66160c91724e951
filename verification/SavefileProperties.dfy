/** Reading undoes writing: whole files, cut files, either byte order. */
module SavefileProperties {
  import opened Bytes
  import opened Savefile

  /** The magic number a reader sees for a header written in the given byte order. */
  function SeenMagic(big: bool, magic: u32): u32 { Get32(false, Put32(big, magic)) }

  function Seen(big: bool, h: FileHeader): FileHeader { h.(magic := SeenMagic(big, h.magic)) }

  /** A magic number as the machine that wrote it meant it. */
  predicate NativeMagic(magic: u32) { magic == PCAP_MAGIC_NUMBER || magic == PCAP_MAGIC_NUMBER_NANO }

  lemma SeenMagicValues()
    ensures SeenMagic(false, PCAP_MAGIC_NUMBER) == PCAP_MAGIC_NUMBER
    ensures SeenMagic(false, PCAP_MAGIC_NUMBER_NANO) == PCAP_MAGIC_NUMBER_NANO
    ensures SeenMagic(true, PCAP_MAGIC_NUMBER) == PCAP_MAGIC_NUMBER_BE
    ensures SeenMagic(true, PCAP_MAGIC_NUMBER_NANO) == PCAP_MAGIC_NUMBER_NANO_BE
  {
    GetPut32(false, PCAP_MAGIC_NUMBER);
    GetPut32(false, PCAP_MAGIC_NUMBER_NANO);
    assert Put32(true, PCAP_MAGIC_NUMBER) == [0xa1, 0xb2, 0xc3, 0xd4];
    assert Put32(true, PCAP_MAGIC_NUMBER_NANO) == [0xa1, 0xb2, 0x3c, 0x4d];
  }

  lemma SeenMagics(big: bool, magic: u32)
    requires NativeMagic(magic)
    ensures AcceptedMagic(SeenMagic(big, magic))
    ensures OpenSwap(SeenMagic(big, magic)) == big
    ensures forall h: FileHeader :: h.magic == magic ==> Seen(big, h).NeedsSwap() == big
    ensures forall h: FileHeader :: h.magic == magic ==> (Seen(big, h).IsNano() <==> magic == PCAP_MAGIC_NUMBER_NANO)
  {
    SeenMagicValues();
    hide SeenMagic;
  }

  /** `open` and `next_packet` decode in the same byte order, for every magic number accepted. */
  lemma SwapAgrees(h: FileHeader)
    requires AcceptedMagic(h.magic)
    ensures OpenSwap(h.magic) == h.NeedsSwap()
  {
  }

  lemma SignRoundTrip(x: i32)
    ensures AsI32(AsU32(x)) == x
  {
  }

  /** A header read back is the header written, but for the magic number's own byte order. */
  lemma HeaderRoundTrip(big: bool, h: FileHeader, rest: seq<byte>)
    requires NativeMagic(h.magic)
    ensures OpenFile(EncodeHeader(big, h) + rest) == Accepted(Seen(big, h))
  {
    var raw := EncodeHeader(big, h);
    assert (raw + rest)[..HEADER_SIZE] == raw;
    assert raw[0..4] == Put32(big, h.magic);
    assert raw[4..6] == Put16(big, h.versionMajor) && raw[6..8] == Put16(big, h.versionMinor);
    assert raw[8..12] == Put32(big, AsU32(h.thiszone)) && raw[12..16] == Put32(big, h.sigfigs);
    assert raw[16..20] == Put32(big, h.snaplen) && raw[20..24] == Put32(big, h.linktype);
    SeenMagics(big, h.magic);
    GetPut16(big, h.versionMajor);
    GetPut16(big, h.versionMinor);
    GetPut32(big, AsU32(h.thiszone));
    SignRoundTrip(h.thiszone);
    GetPut32(big, h.sigfigs);
    GetPut32(big, h.snaplen);
    GetPut32(big, h.linktype);
    hide Get32, Put32, Get16, Put16;
  }

  /** Where the parts of a record lie. */
  lemma RecordParts(big: bool, p: Packet, rest: seq<byte>)
    ensures var s := EncodeRecord(big, p) + rest;
            && s[0..4] == Put32(big, p.tsSec) && s[4..8] == Put32(big, p.tsFrac)
            && s[8..12] == Put32(big, p.caplen) && s[12..16] == Put32(big, p.origlen)
            && s[16..] == p.data + rest
  {
    hide Put32;
    var a, b, c, d := Put32(big, p.tsSec), Put32(big, p.tsFrac), Put32(big, p.caplen), Put32(big, p.origlen);
    assert EncodeRecord(big, p) + rest == a + b + c + d + (p.data + rest);
  }

  lemma CutParts(s: seq<byte>, cut: nat, data: seq<byte>, rest: seq<byte>)
    requires 16 <= cut <= |s| && s[16..] == data + rest
    ensures forall a, b | 0 <= a <= b <= 16 :: s[..cut][a..b] == s[a..b]
    ensures s[..cut][16..] == (data + rest)[..cut - 16]
    ensures cut >= 16 + |data| ==> s[..cut][16..16 + |data|] == data
    ensures cut >= 16 + |data| ==> s[..cut][16 + |data|..] == rest[..cut - 16 - |data|]
  {
    var t := s[..cut];
    assert t[16..] == s[16..][..cut - 16];
    if cut >= 16 + |data| {
      assert t[16..16 + |data|] == t[16..][..|data|];
      assert t[16 + |data|..] == t[16..][|data|..];
    }
  }

  /** One record of a stream whose first `cut` bytes are left. */
  lemma NextOfRecord(h: FileHeader, big: bool, p: Packet, rest: seq<byte>, cut: nat)
    requires h.NeedsSwap() == big && Storable(p) && cut <= RECORD_SIZE + |p.data| + |rest|
    ensures NextRecord(h, (EncodeRecord(big, p) + rest)[..cut]) ==
            if cut < RECORD_SIZE then End
            else if TooLarge(h, p.caplen) then Failed(CaplenTooLarge, (p.data + rest)[..cut - RECORD_SIZE])
            else if cut < RECORD_SIZE + |p.data| then Failed(UnexpectedEof, [])
            else Got(p, rest[..cut - RECORD_SIZE - |p.data|])
  {
    if cut >= RECORD_SIZE {
      hide Get32, Put32, TooLarge, EncodeRecord;
      RecordParts(big, p, rest);
      CutParts(EncodeRecord(big, p) + rest, cut, p.data, rest);
      GetPut32(big, p.tsSec);
      GetPut32(big, p.tsFrac);
      GetPut32(big, p.caplen);
      GetPut32(big, p.origlen);
    }
  }

  /** What reading the first `cut` bytes of the records should give. */
  function Expected(h: FileHeader, ps: seq<Packet>, cut: nat): Contents {
    if ps == [] || cut < RECORD_SIZE then Contents([], None)
    else if TooLarge(h, ps[0].caplen) then Contents([], Some(CaplenTooLarge))
    else if cut < RECORD_SIZE + |ps[0].data| then Contents([], Some(UnexpectedEof))
    else
      var more := Expected(h, ps[1..], cut - RECORD_SIZE - |ps[0].data|);
      more.(packets := [ps[0]] + more.packets)
  }

  /** Reading any prefix of any encoded records, in either byte order. */
  lemma {:induction false} ReadsPrefix(h: FileHeader, big: bool, ps: seq<Packet>, cut: nat)
    requires h.NeedsSwap() == big && AllStorable(ps)
    requires cut <= |EncodeRecords(big, ps)|
    ensures ReadAll(h, EncodeRecords(big, ps)[..cut]) == Expected(h, ps, cut)
    decreases |ps|
  {
    hide NextRecord, EncodeRecord, TooLarge;
    if ps != [] {
      var p, rest := ps[0], EncodeRecords(big, ps[1..]);
      assert Storable(p) && EncodeRecords(big, ps) == EncodeRecord(big, p) + rest;
      NextOfRecord(h, big, p, rest, cut);
      if cut >= RECORD_SIZE && !TooLarge(h, p.caplen) && cut >= RECORD_SIZE + |p.data| {
        assert forall k | 0 <= k < |ps[1..]| :: ps[1..][k] == ps[k + 1];
        hide Storable, EncodeRecords;
        ReadsPrefix(h, big, ps[1..], cut - RECORD_SIZE - |p.data|);
      }
    } else {
      assert NextRecord(h, []) == End by {
        NextOfNothing(h);
      }
    }
  }

  lemma NextOfNothing(h: FileHeader)
    ensures NextRecord(h, []) == End
  {
  }

  /**
   * Byte-order independence. The little- and big-endian encodings of one capture, cut at the same
   * place, open with equal headers but for the raw magic and read as equal packets and endings.
   */
  lemma ByteOrderIrrelevant(h: FileHeader, ps: seq<Packet>, cut: nat)
    requires NativeMagic(h.magic) && AllStorable(ps)
    requires cut <= |EncodeRecords(false, ps)|
    ensures |EncodeRecords(true, ps)| == |EncodeRecords(false, ps)|
    ensures var little := EncodeHeader(false, h) + EncodeRecords(false, ps)[..cut];
            var big := EncodeHeader(true, h) + EncodeRecords(true, ps)[..cut];
            && OpenFile(little) == Accepted(h)
            && OpenFile(big).Accepted?
            && OpenFile(big).header.(magic := h.magic) == h
            && ReadAll(OpenFile(big).header, big[HEADER_SIZE..]) == ReadAll(h, little[HEADER_SIZE..])
  {
    SameLength(ps);
    HeaderRoundTrip(false, h, EncodeRecords(false, ps)[..cut]);
    HeaderRoundTrip(true, h, EncodeRecords(true, ps)[..cut]);
    GetPut32(false, h.magic);
    SeenMagics(false, h.magic);
    SeenMagics(true, h.magic);
    ReadsPrefix(h, false, ps, cut);
    ReadsPrefix(Seen(true, h), true, ps, cut);
    SameExpected(h, Seen(true, h), ps, cut);
    assert (EncodeHeader(false, h) + EncodeRecords(false, ps)[..cut])[HEADER_SIZE..] == EncodeRecords(false, ps)[..cut];
    assert (EncodeHeader(true, h) + EncodeRecords(true, ps)[..cut])[HEADER_SIZE..] == EncodeRecords(true, ps)[..cut];
  }

  lemma {:induction false} SameLength(ps: seq<Packet>)
    ensures |EncodeRecords(true, ps)| == |EncodeRecords(false, ps)|
  {
    if ps != [] {
      SameLength(ps[1..]);
    }
  }

  lemma {:induction false} SameExpected(h: FileHeader, h': FileHeader, ps: seq<Packet>, cut: nat)
    requires h.snaplen == h'.snaplen && h.IsNano() == h'.IsNano()
    ensures Expected(h, ps, cut) == Expected(h', ps, cut)
  {
    if ps != [] && cut >= RECORD_SIZE + |ps[0].data| {
      SameExpected(h, h', ps[1..], cut - RECORD_SIZE - |ps[0].data|);
    }
  }

  // ----- Files the writer produces -----

  /** A frame handed to the writer. */
  datatype Frame = Frame(tsSec: u32, tsFrac: u32, data: seq<byte>)

  function StoredAll(snaplen: u32, frames: seq<Frame>): seq<Packet> {
    seq(|frames|, i requires 0 <= i < |frames| =>
      Stored(snaplen, frames[i].tsSec, frames[i].tsFrac, frames[i].data))
  }

  /** The file left by `create` followed by one `write_packet` per frame. */
  function WrittenFile(snaplen: u32, linktype: u32, frames: seq<Frame>): seq<byte> {
    EncodeHeader(false, NewHeader(snaplen, linktype)) + EncodeRecords(false, StoredAll(snaplen, frames))
  }

  lemma {:induction false} EncodeSnoc(big: bool, ps: seq<Packet>, p: Packet)
    ensures EncodeRecords(big, ps + [p]) == EncodeRecords(big, ps) + EncodeRecord(big, p)
  {
    if ps == [] {
      assert [p][1..] == [];
    } else {
      assert (ps + [p])[1..] == ps[1..] + [p];
      EncodeSnoc(big, ps[1..], p);
    }
  }

  /** Writing a list of frames leaves exactly the described file. */
  method WriteFrames(snaplen: u32, linktype: u32, frames: seq<Frame>) returns (file: seq<byte>)
    ensures file == WrittenFile(snaplen, linktype, frames)
  {
    hide EncodeHeader, EncodeRecord, Stored;
    var w := new SavefileWriter(snaplen, linktype);
    assert StoredAll(snaplen, frames[..0]) == [];
    for k := 0 to |frames|
      invariant w.header.snaplen == snaplen
      invariant w.out == WrittenFile(snaplen, linktype, frames[..k])
    {
      var f := frames[k];
      w.WritePacket(f.tsSec, f.tsFrac, f.data);
      var p := Stored(snaplen, f.tsSec, f.tsFrac, f.data);
      assert StoredAll(snaplen, frames[..k + 1]) == StoredAll(snaplen, frames[..k]) + [p];
      EncodeSnoc(false, StoredAll(snaplen, frames[..k]), p);
    }
    assert frames[..|frames|] == frames;
    file := w.out;
  }

  /** Where record `k` starts among the records. */
  function Offset(ps: seq<Packet>, k: nat): nat
    requires k <= |ps|
  {
    if k == 0 then 0 else RECORD_SIZE + |ps[0].data| + Offset(ps[1..], k - 1)
  }

  lemma {:induction false} OffsetOfEnd(big: bool, ps: seq<Packet>)
    ensures Offset(ps, |ps|) == |EncodeRecords(big, ps)|
  {
    if ps != [] {
      OffsetOfEnd(big, ps[1..]);
    }
  }

  lemma {:induction false} ExpectedAt(h: FileHeader, ps: seq<Packet>, k: nat, cut: nat)
    requires k <= |ps| && Offset(ps, k) <= cut
    requires k < |ps| ==> cut < Offset(ps, k) + RECORD_SIZE + |ps[k].data|
    requires k == |ps| ==> cut == Offset(ps, k)
    requires forall j | 0 <= j < |ps| :: ps[j].caplen <= h.snaplen
    ensures Expected(h, ps, cut) ==
            Contents(ps[..k], if k < |ps| && cut >= Offset(ps, k) + RECORD_SIZE then Some(UnexpectedEof) else None)
  {
    if ps != [] && k > 0 {
      var n := RECORD_SIZE + |ps[0].data|;
      assert k < |ps| ==> ps[k] == ps[1..][k - 1];
      ExpectedAt(h, ps[1..], k - 1, cut - n);
      assert ps[..k] == [ps[0]] + ps[1..][..k - 1];
    }
  }

  lemma StoredFits(snaplen: u32, frames: seq<Frame>)
    ensures AllStorable(StoredAll(snaplen, frames))
    ensures forall j | 0 <= j < |frames| :: StoredAll(snaplen, frames)[j].caplen <= snaplen
  {
  }

  /**
   * Savefile truncation. A written file cut `cut` bytes into its records, `k` whole records in,
   * still opens and yields exactly the first `k` packets; then the end if the cut falls on a
   * boundary or inside a record header, and an error exactly when the header is whole but its
   * frame is not.
   */
  lemma TruncatedFileReads(snaplen: u32, linktype: u32, frames: seq<Frame>, k: nat, cut: nat)
    requires var ps := StoredAll(snaplen, frames);
             && k <= |frames| && Offset(ps, k) <= cut
             && (k < |frames| ==> cut < Offset(ps, k) + RECORD_SIZE + |ps[k].data|)
             && (k == |frames| ==> cut == Offset(ps, k))
    ensures HEADER_SIZE + cut <= |WrittenFile(snaplen, linktype, frames)|
    ensures var ps := StoredAll(snaplen, frames);
            var file := WrittenFile(snaplen, linktype, frames)[..HEADER_SIZE + cut];
            && OpenFile(file) == Accepted(NewHeader(snaplen, linktype))
            && ReadAll(NewHeader(snaplen, linktype), file[HEADER_SIZE..]) ==
               Contents(
                 ps[..k], if k < |frames| && cut >= Offset(ps, k) + RECORD_SIZE then Some(UnexpectedEof) else None)
  {
    var ps, h := StoredAll(snaplen, frames), NewHeader(snaplen, linktype);
    StoredFits(snaplen, frames);
    OffsetOfEnd(false, ps);
    OffsetNext(ps, k);
    OpensCut(snaplen, linktype, frames, cut);
    hide EncodeHeader, EncodeRecords, ReadAll, OpenFile, Stored, WrittenFile, Storable;
    ReadsPrefix(h, false, ps, cut);
    ExpectedAt(h, ps, k, cut);
  }

  lemma OpensCut(snaplen: u32, linktype: u32, frames: seq<Frame>, cut: nat)
    requires cut <= |EncodeRecords(false, StoredAll(snaplen, frames))|
    ensures HEADER_SIZE + cut <= |WrittenFile(snaplen, linktype, frames)|
    ensures var file := WrittenFile(snaplen, linktype, frames)[..HEADER_SIZE + cut];
            && OpenFile(file) == Accepted(NewHeader(snaplen, linktype))
            && file[HEADER_SIZE..] == EncodeRecords(false, StoredAll(snaplen, frames))[..cut]
  {
    var ps, h := StoredAll(snaplen, frames), NewHeader(snaplen, linktype);
    HeaderRoundTrip(false, h, EncodeRecords(false, ps)[..cut]);
    GetPut32(false, h.magic);
    hide OpenFile, EncodeRecords, Put32, Get32;
    assert WrittenFile(snaplen, linktype, frames)[..HEADER_SIZE + cut] ==
           EncodeHeader(false, h) + EncodeRecords(false, ps)[..cut];
  }

  lemma {:induction false} OffsetNext(ps: seq<Packet>, k: nat)
    requires k <= |ps|
    ensures Offset(ps, k) + (if k < |ps| then RECORD_SIZE + |ps[k].data| else 0) <= Offset(ps, |ps|)
  {
    if ps != [] && k > 0 {
      OffsetNext(ps[1..], k - 1);
      assert k < |ps| ==> ps[k] == ps[1..][k - 1];
    }
  }

  /** A file cut inside its global header does not open. */
  lemma HeaderCutRefused(file: seq<byte>, cut: nat)
    requires cut < HEADER_SIZE && cut <= |file|
    ensures OpenFile(file[..cut]) == Refused(UnexpectedEof)
  {
  }

  /**
   * Savefile round trip. Reading a written file yields its header, then every frame in order with
   * its timestamps, its data clipped to `snaplen` and its original length modulo 2^32, then the end.
   */
  lemma WrittenFileReads(snaplen: u32, linktype: u32, frames: seq<Frame>)
    ensures var file := WrittenFile(snaplen, linktype, frames);
            && OpenFile(file) == Accepted(NewHeader(snaplen, linktype))
            && ReadAll(NewHeader(snaplen, linktype), file[HEADER_SIZE..]) ==
               Contents(StoredAll(snaplen, frames), None)
  {
    hide OpenFile, ReadAll, EncodeRecords, EncodeHeader, Stored;
    var ps := StoredAll(snaplen, frames);
    OffsetOfEnd(false, ps);
    TruncatedFileReads(snaplen, linktype, frames, |frames|, Offset(ps, |ps|));
    var file := WrittenFile(snaplen, linktype, frames);
    assert file[..|file|] == file;
    assert ps[..|ps|] == ps;
  }

  /** The original length survives exactly for frames shorter than 2^32 bytes. */
  lemma OriginalLengthKept(snaplen: u32, f: Frame)
    ensures Stored(snaplen, f.tsSec, f.tsFrac, f.data).origlen == |f.data| <==> |f.data| < TWO_32
  {
  }
}
