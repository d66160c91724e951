/** The pcap savefile format, its writer and its reader (wnr-pcap/src/savefile.rs). */
module Savefile {
  import opened Bytes

  const PCAP_MAGIC_NUMBER: u32 := 0xa1b2_c3d4
  const PCAP_MAGIC_NUMBER_NANO: u32 := 0xa1b2_3c4d
  const PCAP_MAGIC_NUMBER_BE: u32 := 0xd4c3_b2a1
  const PCAP_MAGIC_NUMBER_NANO_BE: u32 := 0x4d3c_b2a1

  const HEADER_SIZE: nat := 24
  const RECORD_SIZE: nat := 16
  const MAX_CAPLEN: u32 := 0x100_0000

  datatype FileHeader = FileHeader(
    magic: u32, versionMajor: u16, versionMinor: u16, thiszone: i32, sigfigs: u32, snaplen: u32, linktype: u32)
  {
    predicate IsNano() { magic == PCAP_MAGIC_NUMBER_NANO || magic == PCAP_MAGIC_NUMBER_NANO_BE }

    predicate NeedsSwap() { magic == PCAP_MAGIC_NUMBER_BE || magic == PCAP_MAGIC_NUMBER_NANO_BE }
  }

  function NewHeader(snaplen: u32, linktype: u32): FileHeader {
    FileHeader(PCAP_MAGIC_NUMBER, 2, 4, 0, 0, snaplen, linktype)
  }

  datatype Packet = Packet(tsSec: u32, tsFrac: u32, caplen: u32, origlen: u32, pkttype: u16, data: seq<byte>)

  datatype IoError = UnexpectedEof | BadMagic | CaplenTooLarge

  datatype Opened = Accepted(header: FileHeader) | Refused(error: IoError)

  predicate AcceptedMagic(magic: u32) {
    || magic == PCAP_MAGIC_NUMBER || magic == PCAP_MAGIC_NUMBER_NANO
    || magic == PCAP_MAGIC_NUMBER_BE || magic == PCAP_MAGIC_NUMBER_NANO_BE
  }

  /** The byte order chosen while opening. */
  predicate OpenSwap(magic: u32) {
    magic == PCAP_MAGIC_NUMBER_BE || magic == PCAP_MAGIC_NUMBER_NANO_BE || !AcceptedMagic(magic)
  }

  function ParseHeader(raw: seq<byte>): Opened
    requires |raw| == HEADER_SIZE
  {
    var magic := Get32(false, raw[0..4]);
    var swap := OpenSwap(magic);
    if !AcceptedMagic(magic) then Refused(BadMagic)
    else
      Accepted(FileHeader(
        magic, Get16(swap, raw[4..6]), Get16(swap, raw[6..8]), AsI32(Get32(swap, raw[8..12])),
        Get32(swap, raw[12..16]), Get32(swap, raw[16..20]), Get32(swap, raw[20..24])))
  }

  function OpenFile(file: seq<byte>): Opened {
    if |file| < HEADER_SIZE then Refused(UnexpectedEof) else ParseHeader(file[..HEADER_SIZE])
  }

  /** The corruption check on a record's captured length. */
  predicate TooLarge(h: FileHeader, caplen: u32) { caplen > h.snaplen && !h.IsNano() && caplen > MAX_CAPLEN }

  datatype Next = End | Got(packet: Packet, rest: seq<byte>) | Failed(error: IoError, rest: seq<byte>)

  /** The next record of the bytes still unread, and what remains unread after it. */
  function NextRecord(h: FileHeader, bytes: seq<byte>): (r: Next)
    ensures r.Got? ==> |r.rest| < |bytes|
  {
    if |bytes| < RECORD_SIZE then End
    else
      var swap := h.NeedsSwap();
      var tsSec, tsFrac := Get32(swap, bytes[0..4]), Get32(swap, bytes[4..8]);
      var caplen, origlen := Get32(swap, bytes[8..12]), Get32(swap, bytes[12..16]);
      if TooLarge(h, caplen) then Failed(CaplenTooLarge, bytes[16..])
      else if |bytes| - RECORD_SIZE < caplen then Failed(UnexpectedEof, [])
      else Got(Packet(tsSec, tsFrac, caplen, origlen, 0, bytes[16..16 + caplen]), bytes[16 + caplen..])
  }

  /** Every packet up to the end or the first error. */
  datatype Contents = Contents(packets: seq<Packet>, error: Option<IoError>)

  function ReadAll(h: FileHeader, bytes: seq<byte>): Contents
    decreases |bytes|
  {
    match NextRecord(h, bytes)
    case End => Contents([], None)
    case Failed(error, _) => Contents([], Some(error))
    case Got(p, rest) =>
      var more := ReadAll(h, rest);
      more.(packets := [p] + more.packets)
  }

  // ----- Encoding -----

  /** A header in either byte order; `magic` is the number as its own machine writes it. */
  function EncodeHeader(big: bool, h: FileHeader): (s: seq<byte>)
    ensures |s| == HEADER_SIZE
  {
    Put32(big, h.magic) + Put16(big, h.versionMajor) + Put16(big, h.versionMinor) + Put32(big, AsU32(h.thiszone))
    + Put32(big, h.sigfigs) + Put32(big, h.snaplen) + Put32(big, h.linktype)
  }

  function EncodeRecord(big: bool, p: Packet): (s: seq<byte>)
    ensures |s| == RECORD_SIZE + |p.data|
  {
    Put32(big, p.tsSec) + Put32(big, p.tsFrac) + Put32(big, p.caplen) + Put32(big, p.origlen) + p.data
  }

  function EncodeRecords(big: bool, ps: seq<Packet>): seq<byte> {
    if ps == [] then [] else EncodeRecord(big, ps[0]) + EncodeRecords(big, ps[1..])
  }

  /** A packet as the format can hold it. */
  predicate Storable(p: Packet) { |p.data| == p.caplen && p.pkttype == 0 }

  predicate AllStorable(ps: seq<Packet>) { forall k | 0 <= k < |ps| :: Storable(ps[k]) }

  /** What the writer stores for a frame: clipped to `snaplen`, with its length before clipping. */
  function Stored(snaplen: u32, tsSec: u32, tsFrac: u32, data: seq<byte>): (p: Packet)
    ensures Storable(p)
  {
    var caplen: u32 := if |data| <= snaplen then |data| else snaplen;
    Packet(tsSec, tsFrac, caplen, Low32(|data|), 0, data[..caplen])
  }

  // ----- Streams -----

  /** A file being read: a byte sequence and a cursor. */
  class ByteReader {
    const file: seq<byte>
    var pos: nat

    ghost predicate Valid()
      reads this
    {
      pos <= |file|
    }

    function Rest(): seq<byte>
      reads this
      requires Valid()
    {
      file[pos..]
    }

    constructor (file: seq<byte>)
      ensures Valid() && Rest() == file
    {
      this.file := file;
      pos := 0;
    }

    /** Fill the buffer; running out of bytes uses up what was left. */
    method ReadExact(buf: array<byte>) returns (ok: bool)
      requires Valid()
      modifies this, buf
      ensures Valid()
      ensures ok == (|old(Rest())| >= buf.Length)
      ensures if ok then buf[..] == old(Rest())[..buf.Length] && Rest() == old(Rest())[buf.Length..] else Rest() == []
    {
      var n := if |file| - pos < buf.Length then |file| - pos else buf.Length;
      for i := 0 to n
        invariant pos == old(pos)
        invariant forall j | 0 <= j < i :: buf[j] == file[pos + j]
      {
        buf[i] := file[pos + i];
      }
      pos := pos + n;
      ok := n == buf.Length;
    }
  }

  class SavefileReader {
    const header: FileHeader
    const reader: ByteReader

    ghost predicate Valid()
      reads this, reader
    {
      reader.Valid()
    }

    /** The bytes not yet read. */
    ghost function Rest(): seq<byte>
      reads this, reader
      requires Valid()
    {
      reader.Rest()
    }

    constructor (header: FileHeader, reader: ByteReader)
      requires reader.Valid()
      ensures Valid() && this.header == header && this.reader == reader
    {
      this.header := header;
      this.reader := reader;
    }

    /** The next packet, `None` when less than a record header is left. */
    method NextPacket() returns (packet: Option<Packet>, error: Option<IoError>)
      requires Valid()
      modifies reader
      ensures Valid()
      ensures match NextRecord(header, old(Rest()))
              case End => packet == None && error == None && Rest() == []
              case Got(p, rest) => packet == Some(p) && error == None && Rest() == rest
              case Failed(e, rest) => packet == None && error == Some(e) && Rest() == rest
    {
      ghost var bytes := Rest();
      var rh := new byte[16];
      var ok := reader.ReadExact(rh);
      if !ok {
        return None, None;
      }
      assert rh[0..4] == bytes[0..4] && rh[4..8] == bytes[4..8];
      assert rh[8..12] == bytes[8..12] && rh[12..16] == bytes[12..16];
      var swap := header.NeedsSwap();
      var tsSec := Get32(swap, rh[0..4]);
      var tsFrac := Get32(swap, rh[4..8]);
      var caplen := Get32(swap, rh[8..12]);
      var origlen := Get32(swap, rh[12..16]);
      if caplen > header.snaplen && !header.IsNano() && caplen > MAX_CAPLEN {
        return None, Some(CaplenTooLarge);
      }
      var data := new byte[caplen];
      ok := reader.ReadExact(data);
      if !ok {
        return None, Some(UnexpectedEof);
      }
      assert bytes[16..][..caplen] == bytes[16..16 + caplen];
      assert bytes[16..][caplen..] == bytes[16 + caplen..];
      return Some(Packet(tsSec, tsFrac, caplen, origlen, 0, data[..])), None;
    }
  }

  /** Open a savefile: the reader stands after the global header. */
  method Open(file: seq<byte>) returns (reader: Option<SavefileReader>, error: Option<IoError>)
    ensures match OpenFile(file)
            case Accepted(h) =>
              reader.Some? && error == None && fresh(reader.value) && fresh(reader.value.reader)
              && reader.value.Valid() && reader.value.header == h && reader.value.Rest() == file[HEADER_SIZE..]
            case Refused(e) => reader == None && error == Some(e)
  {
    var stream := new ByteReader(file);
    var raw := new byte[24];
    var ok := stream.ReadExact(raw);
    if !ok {
      return None, Some(UnexpectedEof);
    }
    var head := raw[..];
    assert head == file[..HEADER_SIZE];
    var magic := Get32(false, head[0..4]);
    var swap := magic == PCAP_MAGIC_NUMBER_BE || magic == PCAP_MAGIC_NUMBER_NANO_BE || !AcceptedMagic(magic);
    if !AcceptedMagic(magic) {
      return None, Some(BadMagic);
    }
    var header := FileHeader(
      magic, Get16(swap, head[4..6]), Get16(swap, head[6..8]), AsI32(Get32(swap, head[8..12])),
      Get32(swap, head[12..16]), Get32(swap, head[16..20]), Get32(swap, head[20..24]));
    var r := new SavefileReader(header, stream);
    return Some(r), None;
  }

  /** `copy_from_slice` at an offset. */
  method Fill(buf: array<byte>, at: nat, bytes: seq<byte>)
    requires at + |bytes| <= buf.Length
    modifies buf
    ensures buf[..at + |bytes|] == old(buf[..at]) + bytes
    ensures buf[at + |bytes|..] == old(buf[at + |bytes|..])
  {
    for i := 0 to |bytes|
      invariant forall j | 0 <= j < buf.Length ::
        buf[j] == if at <= j < at + i then bytes[j - at] else old(buf[j])
    {
      buf[at + i] := bytes[i];
    }
  }

  class SavefileWriter {
    const header: FileHeader
    /** The file written so far. */
    var out: seq<byte>

    constructor (snaplen: u32, linktype: u32)
      ensures header == NewHeader(snaplen, linktype)
      ensures out == EncodeHeader(false, NewHeader(snaplen, linktype))
    {
      var h := NewHeader(snaplen, linktype);
      header := h;
      out := [];
      new;
      hide Put32, Put16;
      var raw := new byte[24](_ => 0);
      Fill(raw, 0, Put32(false, h.magic));
      Fill(raw, 4, Put16(false, h.versionMajor));
      Fill(raw, 6, Put16(false, h.versionMinor));
      Fill(raw, 8, Put32(false, AsU32(h.thiszone)));
      Fill(raw, 12, Put32(false, h.sigfigs));
      Fill(raw, 16, Put32(false, h.snaplen));
      Fill(raw, 20, Put32(false, h.linktype));
      assert raw[..] == raw[..24];
      out := raw[..];
    }

    method WritePacket(tsSec: u32, tsFrac: u32, data: seq<byte>)
      modifies this
      ensures out == old(out) + EncodeRecord(false, Stored(header.snaplen, tsSec, tsFrac, data))
    {
      var caplen: u32 := if |data| < header.snaplen then |data| else header.snaplen;
      var origlen := Low32(|data|);
      hide Put32;
      var rh := new byte[16](_ => 0);
      Fill(rh, 0, Put32(false, tsSec));
      Fill(rh, 4, Put32(false, tsFrac));
      Fill(rh, 8, Put32(false, caplen));
      Fill(rh, 12, Put32(false, origlen));
      assert rh[..16] == rh[..];
      assert rh[..] == Put32(false, tsSec) + Put32(false, tsFrac) + Put32(false, caplen) + Put32(false, origlen);
      out := out + rh[..];
      out := out + data[..caplen];
    }
  }
}
