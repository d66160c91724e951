/** Savefiles octet by octet: what the writer leaves in a file and what the reader makes of one. */
module SavefileOctets {
  import opened Bytes
  import opened Savefile
  import opened SavefileProperties

  /** The `n` octets from `at` on as a number, least significant first, or first octet first when `big`. */
  function NumberAt(big: bool, s: seq<byte>, at: nat, n: nat): (v: nat)
    requires at + n <= |s|
    decreases n
  {
    if n == 0 then 0
    else if big then NumberAt(big, s, at, n - 1) * 0x100 + s[at + n - 1] as int
    else NumberAt(big, s, at + 1, n - 1) * 0x100 + s[at] as int
  }

  lemma NumberOfTwo(big: bool, s: seq<byte>, at: nat)
    requires at + 2 <= |s|
    ensures Get16(big, s[at..at + 2]) as int == NumberAt(big, s, at, 2)
  {
    if big {
      assert NumberAt(big, s, at, 1) == s[at] as int;
    } else {
      assert NumberAt(big, s, at + 1, 1) == s[at + 1] as int;
    }
  }

  lemma NumberOfFour(big: bool, s: seq<byte>, at: nat)
    requires at + 4 <= |s|
    ensures Get32(big, s[at..at + 4]) as int == NumberAt(big, s, at, 4)
  {
    var t := s[at..at + 4];
    assert t[0] == s[at] && t[1] == s[at + 1] && t[2] == s[at + 2] && t[3] == s[at + 3];
    if big {
      assert NumberAt(big, s, at, 2) == s[at] as int * 0x100 + s[at + 1] as int by {
        assert NumberAt(big, s, at, 1) == s[at] as int;
      }
      assert NumberAt(big, s, at, 3) == NumberAt(big, s, at, 2) * 0x100 + s[at + 2] as int;
    } else {
      assert NumberAt(big, s, at + 2, 2) == s[at + 3] as int * 0x100 + s[at + 2] as int by {
        assert NumberAt(big, s, at + 3, 1) == s[at + 3] as int;
      }
      assert NumberAt(big, s, at + 1, 3) == NumberAt(big, s, at + 2, 2) * 0x100 + s[at + 1] as int;
    }
  }

  // ----- Writing -----

  /** The number `v` stands at `at`, least significant octet first. */
  predicate StandsAt(s: seq<byte>, at: nat, v: nat) { at + 4 <= |s| && NumberAt(false, s, at, 4) == v }

  lemma {:induction false} NumberIn(big: bool, s: seq<byte>, t: seq<byte>, at: nat, n: nat)
    requires at + n <= |s|
    ensures NumberAt(big, s + t, at, n) == NumberAt(big, s, at, n)
    decreases n
  {
    if n > 0 {
      NumberIn(big, s, t, at, n - 1);
      NumberIn(big, s, t, at + 1, n - 1);
    }
  }

  lemma PutStands(before: seq<byte>, v: u32, after: seq<byte>)
    ensures StandsAt(before + Put32(false, v) + after, |before|, v)
  {
    var s := before + Put32(false, v) + after;
    assert s[|before|..|before| + 4] == Put32(false, v);
    NumberOfFour(false, s, |before|);
    GetPut32(false, v);
    hide Put32, Get32;
  }

  /** The first 24 octets `create` writes. */
  ghost predicate HeaderOctets(s: seq<byte>, snaplen: u32, linktype: u32) {
    && |s| >= 24
    && s[..8] == [0xd4, 0xc3, 0xb2, 0xa1, 0x02, 0x00, 0x04, 0x00]
    && (forall i | 8 <= i < 16 :: s[i] == 0)
    && StandsAt(s, 16, snaplen)
    && StandsAt(s, 20, linktype)
  }

  lemma HeaderIs(snaplen: u32, linktype: u32)
    ensures HeaderOctets(EncodeHeader(false, NewHeader(snaplen, linktype)), snaplen, linktype)
  {
    var s := EncodeHeader(false, NewHeader(snaplen, linktype));
    assert Put32(false, 0xa1b2_c3d4) == [0xd4, 0xc3, 0xb2, 0xa1];
    assert Put16(false, 2) == [2, 0] && Put16(false, 4) == [4, 0] && Put32(false, 0) == [0, 0, 0, 0];
    var front: seq<byte> := [0xd4, 0xc3, 0xb2, 0xa1, 0x02, 0x00, 0x04, 0x00, 0, 0, 0, 0, 0, 0, 0, 0];
    var length, link := Put32(false, snaplen), Put32(false, linktype);
    assert s == front + length + link;
    PutStands(front, snaplen, link);
    assert s == (front + length) + link + [];
    PutStands(front + length, linktype, []);
  }

  function Clipped(snaplen: u32, data: seq<byte>): nat { if |data| <= snaplen then |data| else snaplen }

  /** Where the record of frame `k` starts. */
  function RecordStart(snaplen: u32, frames: seq<Frame>, k: nat): nat
    requires k <= |frames|
  {
    if k == 0 then 24 else RecordStart(snaplen, frames, k - 1) + 16 + Clipped(snaplen, frames[k - 1].data)
  }

  /** The record of a frame: four numbers and the clipped data. */
  ghost predicate RecordOctets(s: seq<byte>, at: nat, snaplen: u32, f: Frame) {
    var n := Clipped(snaplen, f.data);
    && at + 16 + n <= |s|
    && StandsAt(s, at, f.tsSec) && StandsAt(s, at + 4, f.tsFrac)
    && StandsAt(s, at + 8, n) && StandsAt(s, at + 12, |f.data| % 0x1_0000_0000)
    && s[at + 16..at + 16 + n] == f.data[..n]
  }

  lemma RecordIs(before: seq<byte>, snaplen: u32, f: Frame)
    ensures var s := before + EncodeRecord(false, Stored(snaplen, f.tsSec, f.tsFrac, f.data));
            RecordOctets(s, |before|, snaplen, f) && |s| == |before| + 16 + Clipped(snaplen, f.data)
  {
    var p := Stored(snaplen, f.tsSec, f.tsFrac, f.data);
    var a, b, c, d := Put32(false, p.tsSec), Put32(false, p.tsFrac), Put32(false, p.caplen), Put32(false, p.origlen);
    var s := before + EncodeRecord(false, p);
    hide Put32;
    assert s == before + a + (b + c + d + p.data);
    PutStands(before, p.tsSec, b + c + d + p.data);
    assert s == (before + a) + b + (c + d + p.data);
    PutStands(before + a, p.tsFrac, c + d + p.data);
    assert s == (before + a + b) + c + (d + p.data);
    PutStands(before + a + b, p.caplen, d + p.data);
    assert s == (before + a + b + c) + d + p.data;
    PutStands(before + a + b + c, p.origlen, p.data);
    assert s[|before| + 16..] == p.data;
  }

  lemma FileGrows(snaplen: u32, linktype: u32, frames: seq<Frame>, f: Frame)
    ensures WrittenFile(snaplen, linktype, frames + [f]) ==
            WrittenFile(snaplen, linktype, frames)
            + EncodeRecord(false, Stored(snaplen, f.tsSec, f.tsFrac, f.data))
  {
    var stored := Stored(snaplen, f.tsSec, f.tsFrac, f.data);
    hide EncodeRecord, Stored, EncodeHeader;
    assert StoredAll(snaplen, frames + [f]) == StoredAll(snaplen, frames) + [stored];
    EncodeSnoc(false, StoredAll(snaplen, frames), stored);
  }

  lemma {:induction false} StartSame(snaplen: u32, frames: seq<Frame>, f: Frame, k: nat)
    requires k <= |frames|
    ensures RecordStart(snaplen, frames + [f], k) == RecordStart(snaplen, frames, k)
  {
    if k > 0 {
      StartSame(snaplen, frames, f, k - 1);
    }
  }

  lemma StartNext(snaplen: u32, frames: seq<Frame>, k: nat)
    requires k < |frames|
    ensures RecordStart(snaplen, frames, k + 1) ==
            RecordStart(snaplen, frames, k) + 16 + Clipped(snaplen, frames[k].data)
  {
  }

  lemma StandsIn(s: seq<byte>, t: seq<byte>, at: nat, v: nat)
    requires StandsAt(s, at, v)
    ensures StandsAt(s + t, at, v)
  {
    NumberIn(false, s, t, at, 4);
  }

  lemma RecordIn(s: seq<byte>, t: seq<byte>, at: nat, snaplen: u32, f: Frame)
    requires RecordOctets(s, at, snaplen, f)
    ensures RecordOctets(s + t, at, snaplen, f)
  {
    var n := Clipped(snaplen, f.data);
    StandsIn(s, t, at, f.tsSec);
    StandsIn(s, t, at + 4, f.tsFrac);
    StandsIn(s, t, at + 8, n);
    StandsIn(s, t, at + 12, |f.data| % 0x1_0000_0000);
    assert (s + t)[at + 16..at + 16 + n] == s[at + 16..at + 16 + n];
  }

  /** What is known of the octets of a written file. */
  ghost predicate FileOctets(file: seq<byte>, snaplen: u32, linktype: u32, frames: seq<Frame>) {
    && HeaderOctets(file, snaplen, linktype)
    && |file| == RecordStart(snaplen, frames, |frames|)
    && forall k | 0 <= k < |frames| :: RecordOctets(file, RecordStart(snaplen, frames, k), snaplen, frames[k])
  }

  lemma FileOctetsMore(file: seq<byte>, snaplen: u32, linktype: u32, frames: seq<Frame>, f: Frame)
    requires FileOctets(file, snaplen, linktype, frames)
    ensures FileOctets(
              file + EncodeRecord(false, Stored(snaplen, f.tsSec, f.tsFrac, f.data)), snaplen, linktype, frames + [f])
  {
    hide EncodeRecord, Stored, RecordOctets, HeaderOctets, RecordStart, Clipped;
    var n, all := |frames|, frames + [f];
    StartNext(snaplen, all, n);
    var record := EncodeRecord(false, Stored(snaplen, f.tsSec, f.tsFrac, f.data));
    RecordIs(file, snaplen, f);
    HeaderIn(file, record, snaplen, linktype);
    StartSame(snaplen, frames, f, n);
    forall k | 0 <= k < |all|
      ensures RecordOctets(file + record, RecordStart(snaplen, all, k), snaplen, all[k])
    {
      if k < n {
        StartSame(snaplen, frames, f, k);
        RecordIn(file, record, RecordStart(snaplen, frames, k), snaplen, frames[k]);
      }
    }
  }

  /**
   * A written file, octet by octet: the little-endian microsecond magic number, version 2.4, eight
   * zeros, the snapshot length and the link type, then each frame's record where the one before ends.
   */
  lemma {:induction false} WrittenOctets(snaplen: u32, linktype: u32, frames: seq<Frame>)
    ensures FileOctets(WrittenFile(snaplen, linktype, frames), snaplen, linktype, frames)
  {
    hide WrittenFile, FileOctets, EncodeRecord, Stored;
    if frames == [] {
      NoRecords(snaplen, linktype);
    } else {
      var n := |frames| - 1;
      WrittenOctets(snaplen, linktype, frames[..n]);
      FileGrows(snaplen, linktype, frames[..n], frames[n]);
      FileOctetsMore(WrittenFile(snaplen, linktype, frames[..n]), snaplen, linktype, frames[..n], frames[n]);
      assert frames == frames[..n] + [frames[n]];
    }
  }

  lemma NoRecords(snaplen: u32, linktype: u32)
    ensures FileOctets(WrittenFile(snaplen, linktype, []), snaplen, linktype, [])
  {
    HeaderIs(snaplen, linktype);
    hide HeaderOctets, EncodeHeader;
    assert StoredAll(snaplen, []) == [];
    assert WrittenFile(snaplen, linktype, []) == EncodeHeader(false, NewHeader(snaplen, linktype));
  }

  lemma HeaderIn(s: seq<byte>, t: seq<byte>, snaplen: u32, linktype: u32)
    requires HeaderOctets(s, snaplen, linktype)
    ensures HeaderOctets(s + t, snaplen, linktype)
  {
    StandsIn(s, t, 16, snaplen);
    StandsIn(s, t, 20, linktype);
    assert (s + t)[..8] == s[..8];
  }

  // ----- Reading -----

  /** The magic numbers as they stand in a file, first octet first. */
  function LittleMicro(): seq<byte> { [0xd4, 0xc3, 0xb2, 0xa1] }

  function LittleNano(): seq<byte> { [0x4d, 0x3c, 0xb2, 0xa1] }

  function BigMicro(): seq<byte> { [0xa1, 0xb2, 0xc3, 0xd4] }

  function BigNano(): seq<byte> { [0xa1, 0xb2, 0x3c, 0x4d] }

  predicate OpensBig(file: seq<byte>)
    requires |file| >= 4
  {
    file[..4] == BigMicro() || file[..4] == BigNano()
  }

  /** The fields of an opened header are the numbers in the file, read in the order its magic number shows. */
  ghost predicate HeaderFields(h: FileHeader, file: seq<byte>, big: bool)
    requires |file| >= 24
  {
    && h.versionMajor as int == NumberAt(big, file, 4, 2) && h.versionMinor as int == NumberAt(big, file, 6, 2)
    && h.thiszone as int ==
       (if NumberAt(big, file, 8, 4) < 0x8000_0000 then NumberAt(big, file, 8, 4)
        else NumberAt(big, file, 8, 4) - 0x1_0000_0000)
    && h.sigfigs as int == NumberAt(big, file, 12, 4)
    && h.snaplen as int == NumberAt(big, file, 16, 4)
    && h.linktype as int == NumberAt(big, file, 20, 4)
  }

  lemma MagicOctets(m: seq<byte>)
    requires |m| == 4
    ensures Get32(false, m) == 0xa1b2_c3d4 <==> m == LittleMicro()
    ensures Get32(false, m) == 0xa1b2_3c4d <==> m == LittleNano()
    ensures Get32(false, m) == 0xd4c3_b2a1 <==> m == BigMicro()
    ensures Get32(false, m) == 0x4d3c_b2a1 <==> m == BigNano()
  {
    forall t: seq<byte> | |t| == 4
      ensures Get32(false, m) == Get32(false, t) ==> m == t
    {
      if Get32(false, m) == Get32(false, t) {
        Get32IsInjective(false, m, t);
      }
    }
    assert Get32(false, LittleMicro()) == 0xa1b2_c3d4 && Get32(false, LittleNano()) == 0xa1b2_3c4d;
    assert Get32(false, BigMicro()) == 0xd4c3_b2a1 && Get32(false, BigNano()) == 0x4d3c_b2a1;
  }

  /**
   * Opening a file: fewer than 24 octets end it, four magic numbers are accepted, any other refused;
   * the timestamps are in nanoseconds exactly for two of the four.
   */
  lemma OpenedOctets(file: seq<byte>)
    ensures |file| < 24 ==> OpenFile(file) == Refused(UnexpectedEof)
    ensures |file| >= 24 ==>
              var known := file[..4] == LittleMicro() || file[..4] == LittleNano() || OpensBig(file);
              if known then
                && OpenFile(file).Accepted?
                && HeaderFields(OpenFile(file).header, file, OpensBig(file))
                && (OpenFile(file).header.IsNano() <==> file[..4] == LittleNano() || file[..4] == BigNano())
                && (OpenFile(file).header.NeedsSwap() <==> OpensBig(file))
              else OpenFile(file) == Refused(BadMagic)
  {
    if |file| >= 24 {
      SameOctets(file, 0, 4);
      MagicOctets(file[..4]);
      hide Get32, HeaderFields, BigMicro, BigNano, LittleMicro, LittleNano, Get16;
      assert Get32(false, file[..24][0..4]) == Get32(false, file[..4]);
      if AcceptedMagic(Get32(false, file[..4])) {
        FieldsOpened(file);
      }
    }
  }

  lemma FieldsOpened(file: seq<byte>)
    requires |file| >= 24 && AcceptedMagic(Get32(false, file[..24][0..4]))
    requires OpenSwap(Get32(false, file[..24][0..4])) == OpensBig(file)
    ensures OpenFile(file).Accepted? && HeaderFields(OpenFile(file).header, file, OpensBig(file))
  {
    hide Get32, Get16, NumberAt, OpensBig, AcceptedMagic, OpenSwap;
    var big := OpensBig(file);
    SameOctets(file, 4, 2);
    NumberOfTwo(big, file, 4);
    SameOctets(file, 6, 2);
    NumberOfTwo(big, file, 6);
    SameOctets(file, 8, 4);
    NumberOfFour(big, file, 8);
    SameOctets(file, 12, 4);
    NumberOfFour(big, file, 12);
    SameOctets(file, 16, 4);
    NumberOfFour(big, file, 16);
    SameOctets(file, 20, 4);
    NumberOfFour(big, file, 20);
  }

  lemma SameOctets(file: seq<byte>, at: nat, n: nat)
    requires |file| >= 24 && at + n <= 24
    ensures file[..24][at..at + n] == file[at..at + n]
  {
  }

  /**
   * The next record of the octets still unread: none when fewer than 16 are left, corrupt when a
   * microsecond file claims more than the snapshot length and more than 16 MiB, cut short when the
   * frame is not all there, else its four numbers and the octets they announce.
   */
  lemma NextOctets(h: FileHeader, bytes: seq<byte>)
    ensures |bytes| < 16 ==> NextRecord(h, bytes) == End
    ensures |bytes| >= 16 ==>
              var big := h.NeedsSwap();
              var n := NumberAt(big, bytes, 8, 4);
              if n > h.snaplen && !h.IsNano() && n > 16 * 1024 * 1024 then
                NextRecord(h, bytes) == Failed(CaplenTooLarge, bytes[16..])
              else if |bytes| < 16 + n then NextRecord(h, bytes) == Failed(UnexpectedEof, [])
              else
                && NextRecord(h, bytes).Got?
                && NextRecord(h, bytes).rest == bytes[16 + n..]
                && var p := NextRecord(h, bytes).packet;
                   && p.tsSec as int == NumberAt(big, bytes, 0, 4) && p.tsFrac as int == NumberAt(big, bytes, 4, 4)
                   && p.caplen as int == n && p.origlen as int == NumberAt(big, bytes, 12, 4)
                   && p.pkttype == 0 && p.data == bytes[16..16 + n]
  {
    if |bytes| >= 16 {
      var big := h.NeedsSwap();
      NumberOfFour(big, bytes, 0);
      NumberOfFour(big, bytes, 4);
      NumberOfFour(big, bytes, 8);
      NumberOfFour(big, bytes, 12);
      hide Get32, NumberAt;
    }
  }

  /** A file the writer leaves opens as one in microseconds. */
  lemma WrittenInMicroseconds(snaplen: u32, linktype: u32, frames: seq<Frame>)
    ensures var r := OpenFile(WrittenFile(snaplen, linktype, frames));
            && r.Accepted? && !r.header.IsNano() && !r.header.NeedsSwap()
            && r.header.snaplen == snaplen && r.header.linktype == linktype
  {
    var file := WrittenFile(snaplen, linktype, frames);
    WrittenOctets(snaplen, linktype, frames);
    OpenedOctets(file);
    assert file[..4] == file[..8][..4] == LittleMicro();
    assert !OpensBig(file) by {
      assert LittleMicro()[0] != BigMicro()[0] && LittleMicro()[0] != BigNano()[0];
    }
    assert LittleMicro()[0] != LittleNano()[0];
    hide WrittenFile, OpenFile, NumberAt;
  }
}
