/** The filter compiler and the packet predicates its programs decide (wnr-pcap/src/bpf.rs, datalink.rs). */
module FilterCompiler {
  import opened Bytes
  import opened Bpf
  import opened BpfProperties

  const DLT_NULL: int := 0
  const DLT_EN10MB: int := 1
  const DLT_RAW: int := 12
  const DLT_LOOP: int := 108
  const DLT_LINUX_SLL: int := 113
  const DLT_IEEE802_11_RADIO: int := 127
  const DLT_IPV4: int := 228
  const DLT_IPV6: int := 229

  const ETHERTYPE_OFFSET: u32 := 12

  datatype Ipv4 = Ipv4(a: byte, b: byte, c: byte, d: byte)

  datatype Primitive =
    | Proto(proto: u32)
    | Port(port: u16)
    | PortRange(first: u16, last: u16)
    | HostIpv4(ip: Ipv4)
    | Broadcast
    | Multicast
    | All

  function LinkHeaderLen(dlt: i32): u32 {
    if dlt == DLT_EN10MB then 14
    else if dlt == DLT_LINUX_SLL then 16
    else if dlt == DLT_IEEE802_11_RADIO then 32
    else if dlt == DLT_RAW || dlt == DLT_IPV4 || dlt == DLT_IPV6 || dlt == DLT_LOOP || dlt == DLT_NULL then 0
    else 14
  }

  function LoadInsn(cls: bv16, size: bv16, k: u32): Insn { Insn(cls | size | BPF_ABS, 0, 0, k) }

  function JmpInsn(op: bv16, k: u32, jt: byte, jf: byte): Insn { Insn(BPF_JMP | op, jt, jf, k) }

  function Ret(k: u32): Insn { Insn(BPF_RET, 0, 0, k) }

  /** Load a field, accept when it equals `v`. */
  function TestEqual(size: bv16, k: u32, v: u32): seq<Insn> {
    [LoadInsn(BPF_LD, size, k), JmpInsn(BPF_JEQ, v, 1, 0), Ret(BPF_REJECT), Ret(BPF_ACCEPT)]
  }

  predicate IsEtherType(proto: u32) { proto == 0x0806 || proto == 0x0800 || proto == 0x86dd }

  function HostWord(ip: Ipv4): u32 { Get32(true, [ip.a, ip.b, ip.c, ip.d]) }

  function CompilePrimitive(p: Primitive, linktype: i32): seq<Insn> {
    var ipHdr := LinkHeaderLen(linktype);
    match p
    case All => [Ret(BPF_ACCEPT)]
    case Proto(proto) =>
      if IsEtherType(proto) then TestEqual(BPF_H, ETHERTYPE_OFFSET, proto)
      else TestEqual(BPF_B, ipHdr + 9, proto)
    case Port(_) => [Ret(BPF_ACCEPT)]
    case PortRange(_, _) => [Ret(BPF_ACCEPT)]
    case HostIpv4(ip) =>
      TestEqual(BPF_W, ipHdr + 16, HostWord(ip)) + TestEqual(BPF_W, ipHdr + 12, HostWord(ip))
    case Broadcast => TestEqual(BPF_W, ipHdr + 16, 0xffff_ffff)
    case Multicast =>
      [ LoadInsn(BPF_LD, BPF_B, ipHdr + 16),
        JmpInsn(BPF_JGE, 224, 0, 1),
        JmpInsn(BPF_JGT, 239, 0, 1),
        Ret(BPF_REJECT),
        Ret(BPF_ACCEPT) ]
  }

  /** `None` is the empty expression; every other program gets an implicit trailing accept. */
  function Compile(p: Option<Primitive>, linktype: i32): seq<Insn> {
    match p
    case None => [Ret(BPF_ACCEPT)]
    case Some(prim) => CompilePrimitive(prim, linktype) + [Ret(BPF_ACCEPT)]
  }

  // ----- What the filters mean -----

  /** The frame carries the octets `bytes` at offset `at`. */
  predicate FieldIs(pkt: seq<byte>, at: nat, bytes: seq<byte>) {
    at + |bytes| <= |pkt| && pkt[at..at + |bytes|] == bytes
  }

  /** Where IPv4 keeps its protocol octet in a frame of link type number `linktype`. */
  function ProtocolAt(linktype: i32): nat {
    if linktype == 0 || linktype == 12 || linktype == 108 || linktype == 228 || linktype == 229 then 9
    else if linktype == 113 then 25
    else if linktype == 127 then 41
    else 23
  }

  /** Where IPv4 keeps its source address. */
  function SourceAt(linktype: i32): nat {
    if linktype == 0 || linktype == 12 || linktype == 108 || linktype == 228 || linktype == 229 then 12
    else if linktype == 113 then 28
    else if linktype == 127 then 44
    else 26
  }

  /** Where IPv4 keeps its destination address. */
  function DestinationAt(linktype: i32): nat {
    if linktype == 0 || linktype == 12 || linktype == 108 || linktype == 228 || linktype == 229 then 16
    else if linktype == 113 then 32
    else if linktype == 127 then 48
    else 30
  }

  /**
   * The packets a filter selects, in terms of the frame's octets alone. EtherType values (ARP, IPv4,
   * IPv6) are looked for at offset 12, any other protocol number in the IPv4 header.
   */
  predicate Selects(p: Option<Primitive>, linktype: i32, pkt: seq<byte>) {
    match p
    case None => true
    case Some(All) => true
    case Some(Port(_)) => true
    case Some(PortRange(_, _)) => true
    case Some(Proto(proto)) =>
      if proto == 0x0806 then FieldIs(pkt, 12, [0x08, 0x06])
      else if proto == 0x0800 then FieldIs(pkt, 12, [0x08, 0x00])
      else if proto == 0x86dd then FieldIs(pkt, 12, [0x86, 0xdd])
      else ProtocolAt(linktype) < |pkt| % 0x1_0000_0000 && pkt[ProtocolAt(linktype)] == proto
    case Some(HostIpv4(ip)) => FieldIs(pkt, DestinationAt(linktype), [ip.a, ip.b, ip.c, ip.d])
    case Some(Broadcast) => FieldIs(pkt, DestinationAt(linktype), [255, 255, 255, 255])
    case Some(Multicast) =>
      DestinationAt(linktype) < |pkt| % 0x1_0000_0000 && 224 <= pkt[DestinationAt(linktype)] <= 239
  }

  /** The field offsets of the compiler are those of the link types. */
  lemma OffsetsAre(linktype: i32)
    ensures LinkHeaderLen(linktype) as int + 9 == ProtocolAt(linktype)
    ensures LinkHeaderLen(linktype) as int + 12 == SourceAt(linktype)
    ensures LinkHeaderLen(linktype) as int + 16 == DestinationAt(linktype)
  {
  }

  /** The compiled instructions, opcode by opcode, up to the trailing accept. */
  lemma BytecodeIs(p: Primitive, linktype: i32)
    ensures var word, half, octet, equal := 0x20, 0x28, 0x30, 0x15;
            var reject, accept := Insn(0x06, 0, 0, 0), Insn(0x06, 0, 0, 0xffff_ffff);
            var at: u32, from: u32 := DestinationAt(linktype), SourceAt(linktype);
            CompilePrimitive(p, linktype) ==
            match p
            case All => [accept]
            case Port(_) => [accept]
            case PortRange(_, _) => [accept]
            case Proto(v) =>
              [ if v == 0x0806 || v == 0x0800 || v == 0x86dd then Insn(half, 0, 0, 12)
                else Insn(octet, 0, 0, ProtocolAt(linktype)),
                Insn(equal, 1, 0, v), reject, accept ]
            case HostIpv4(ip) =>
              var v := ip.a as int * 0x100_0000 + ip.b as int * 0x1_0000 + ip.c as int * 0x100 + ip.d as int;
              [ Insn(word, 0, 0, at), Insn(equal, 1, 0, v), reject, accept,
                Insn(word, 0, 0, from), Insn(equal, 1, 0, v), reject, accept ]
            case Broadcast => [Insn(word, 0, 0, at), Insn(equal, 1, 0, 0xffff_ffff), reject, accept]
            case Multicast =>
              [Insn(octet, 0, 0, at), Insn(0x35, 0, 1, 224), Insn(0x25, 0, 1, 239), reject, accept]
    ensures Compile(Some(p), linktype) == CompilePrimitive(p, linktype) + [Insn(0x06, 0, 0, 0xffff_ffff)]
    ensures Compile(None, linktype) == [Insn(0x06, 0, 0, 0xffff_ffff)]
  {
    OffsetsAre(linktype);
    assert BPF_LD | BPF_W | BPF_ABS == 0x20 && BPF_LD | BPF_H | BPF_ABS == 0x28 && BPF_LD | BPF_B | BPF_ABS == 0x30;
    assert BPF_JMP | BPF_JEQ == 0x15 && BPF_JMP | BPF_JGE == 0x35 && BPF_JMP | BPF_JGT == 0x25;
  }

  lemma DecodesLoad(size: bv16, k: u32, regs: Regs, pkt: seq<byte>)
    requires size == BPF_W || size == BPF_H || size == BPF_B
    ensures Exec(LoadInsn(BPF_LD, size, k), 0, regs, pkt) ==
            match Load(pkt, k, size)
            case Some(v) => Goto(1, regs.(acc := v))
            case None => Halt(0)
  {
    var code := BPF_LD | size | BPF_ABS;
    assert code & 0x07 == BPF_LD && code & 0x18 == size && code & 0xe0 == BPF_ABS;
  }

  lemma JumpCode(op: bv16)
    requires IsConditional(op)
    ensures (BPF_JMP | op) & 0x07 == BPF_JMP && (BPF_JMP | op) & 0x70 == op && (BPF_JMP | op) & 0x08 == 0
  {
    if op == BPF_JEQ {
    } else if op == BPF_JGT {
    } else if op == BPF_JGE {
    } else {
      assert op == BPF_JSET;
    }
  }

  lemma JumpExec(ins: Insn, op: bv16, pc: nat, regs: Regs, pkt: seq<byte>)
    requires ins.code & 0x07 == BPF_JMP && ins.code & 0x70 == op && ins.code & 0x08 == 0
    requires IsConditional(op) && pc < 0x100
    ensures Exec(ins, pc, regs, pkt) == Goto(pc + 1 + if Taken(op, regs.acc, ins.k) then ins.jt else ins.jf, regs)
    ensures StaysInside(ins, pc, pc + 2 + if ins.jt > ins.jf then ins.jt else ins.jf)
  {
    assert Target(pc, ins.jt) == pc + 1 + ins.jt && Target(pc, ins.jf) == pc + 1 + ins.jf;
    assert Exec(ins, pc, regs, pkt) == ExecJump(ins, pc, regs);
    hide Exec, Taken;
  }

  lemma DecodesJump(op: bv16, k: u32, jt: byte, jf: byte, pc: nat, regs: Regs, pkt: seq<byte>)
    requires IsConditional(op) && pc < 0x100
    ensures Exec(JmpInsn(op, k, jt, jf), pc, regs, pkt) ==
            Goto(pc + 1 + if Taken(op, regs.acc, k) then jt else jf, regs)
    ensures StaysInside(JmpInsn(op, k, jt, jf), pc, pc + 2 + if jt > jf then jt else jf)
  {
    JumpCode(op);
    hide Exec, StaysInside;
    JumpExec(JmpInsn(op, k, jt, jf), op, pc, regs, pkt);
  }

  lemma DecodesRet(k: u32, pc: nat, regs: Regs, pkt: seq<byte>)
    ensures Exec(Ret(k), pc, regs, pkt) == Halt(k)
  {
  }

  lemma TestEqualClosed(size: bv16, k: u32, v: u32)
    requires size == BPF_W || size == BPF_H || size == BPF_B
    ensures Closed(TestEqual(size, k, v))
  {
    var program := TestEqual(size, k, v);
    DecodesJump(BPF_JEQ, v, 1, 0, 1, InitRegs(), []);
    var code := BPF_LD | size | BPF_ABS;
    assert code & 0x07 == BPF_LD;
  }

  /** The four-instruction test accepts exactly when the field is present and equal. */
  lemma TestEqualDecides(size: bv16, k: u32, v: u32, pkt: seq<byte>)
    requires size == BPF_W || size == BPF_H || size == BPF_B
    ensures ResultWithin(TestEqual(size, k, v), pkt, 3) ==
            Some(if Load(pkt, k, size) == Some(v) then BPF_ACCEPT else BPF_REJECT)
  {
    var program := TestEqual(size, k, v);
    var regs := InitRegs();
    DecodesLoad(size, k, regs, pkt);
    match Load(pkt, k, size)
    case None =>
    case Some(w) =>
      var loaded := regs.(acc := w);
      DecodesJump(BPF_JEQ, v, 1, 0, 1, loaded, pkt);
      var next := if w == v then 3 else 2;
      DecodesRet(program[next].k, next, loaded, pkt);
      assert RunFor(program, next, loaded, pkt, 1) == Some(program[next].k);
      assert RunFor(program, 1, loaded, pkt, 2) == Some(program[next].k);
  }

  lemma MulticastDecides(linktype: i32, pkt: seq<byte>)
    ensures Closed(CompilePrimitive(Multicast, linktype))
    ensures ResultWithin(CompilePrimitive(Multicast, linktype), pkt, 4) ==
            Some(if Selects(Some(Multicast), linktype, pkt) then BPF_ACCEPT else BPF_REJECT)
  {
    var program := CompilePrimitive(Multicast, linktype);
    var k := LinkHeaderLen(linktype) + 16;
    OffsetsAre(linktype);
    var regs := InitRegs();
    DecodesLoad(BPF_B, k, regs, pkt);
    assert (BPF_LD | BPF_B | BPF_ABS) & 0x07 == BPF_LD;
    DecodesJump(BPF_JGE, 224, 0, 1, 1, regs, pkt);
    DecodesJump(BPF_JGT, 239, 0, 1, 2, regs, pkt);
    match Load(pkt, k, BPF_B)
    case None =>
    case Some(w) =>
      var loaded := regs.(acc := w);
      DecodesJump(BPF_JGE, 224, 0, 1, 1, loaded, pkt);
      DecodesJump(BPF_JGT, 239, 0, 1, 2, loaded, pkt);
      DecodesRet(BPF_REJECT, 3, loaded, pkt);
      DecodesRet(BPF_ACCEPT, 4, loaded, pkt);
      assert RunFor(program, 3, loaded, pkt, 2) == RunFor(program, 3, loaded, pkt, 1) == Some(BPF_REJECT);
      assert RunFor(program, 4, loaded, pkt, 1) == Some(BPF_ACCEPT);
      assert w >= 224 ==> RunFor(program, 2, loaded, pkt, 2) == Some(if w > 239 then BPF_REJECT else BPF_ACCEPT);
      assert RunFor(program, 1, loaded, pkt, 3) ==
             Some(if 224 <= w <= 239 then BPF_ACCEPT else BPF_REJECT);
  }

  lemma AcceptAllDecides(pkt: seq<byte>)
    ensures Closed([Ret(BPF_ACCEPT)])
    ensures ResultWithin([Ret(BPF_ACCEPT)], pkt, 1) == Some(BPF_ACCEPT)
  {
    DecodesRet(BPF_ACCEPT, 0, InitRegs(), pkt);
  }

  lemma WordFieldIs(pkt: seq<byte>, at: u32, a: byte, b: byte, c: byte, d: byte)
    ensures Load(pkt, at, BPF_W) == Some(Get32(true, [a, b, c, d])) <==> FieldIs(pkt, at, [a, b, c, d])
  {
    if at + 4 <= |pkt| && Get32(true, pkt[at..at + 4]) == Get32(true, [a, b, c, d]) {
      Get32IsInjective(true, pkt[at..at + 4], [a, b, c, d]);
    }
  }

  lemma HalfFieldIs(pkt: seq<byte>, at: u32, v: u16)
    ensures Load(pkt, at, BPF_H) == Some(v) <==> FieldIs(pkt, at, [v / 0x100, v % 0x100])
  {
    if at + 2 <= |pkt| {
      var field := pkt[at..at + 2];
      assert Get16(true, field) == v <==> field[0] == v / 0x100 && field[1] == v % 0x100;
      assert FieldIs(pkt, at, [v / 0x100, v % 0x100]) ==> field[0] == v / 0x100 && field[1] == v % 0x100;
      if field[0] == v / 0x100 && field[1] == v % 0x100 {
        assert field == [v / 0x100, v % 0x100];
      }
    }
  }

  /** The part of a compiled primitive that can run: only `host` has more after it. */
  lemma PrimitiveDecides(p: Primitive, linktype: i32, pkt: seq<byte>) returns (live: seq<Insn>, dead: seq<Insn>)
    ensures CompilePrimitive(p, linktype) == live + dead
    ensures !p.HostIpv4? ==> dead == []
    ensures Closed(live)
    ensures Halts(live, pkt)
    ensures Result(live, pkt) == if Selects(Some(p), linktype, pkt) then BPF_ACCEPT else BPF_REJECT
  {
    var ipHdr := LinkHeaderLen(linktype);
    OffsetsAre(linktype);
    live, dead := CompilePrimitive(p, linktype), [];
    var steps: nat := 3;
    match p {
      case Proto(proto) =>
        if IsEtherType(proto) {
          TestEqualClosed(BPF_H, ETHERTYPE_OFFSET, proto);
          TestEqualDecides(BPF_H, ETHERTYPE_OFFSET, proto, pkt);
          HalfFieldIs(pkt, ETHERTYPE_OFFSET, proto);
        } else {
          TestEqualClosed(BPF_B, ipHdr + 9, proto);
          TestEqualDecides(BPF_B, ipHdr + 9, proto, pkt);
        }
      case HostIpv4(ip) =>
        live := TestEqual(BPF_W, ipHdr + 16, HostWord(ip));
        dead := TestEqual(BPF_W, ipHdr + 12, HostWord(ip));
        TestEqualClosed(BPF_W, ipHdr + 16, HostWord(ip));
        TestEqualDecides(BPF_W, ipHdr + 16, HostWord(ip), pkt);
        WordFieldIs(pkt, ipHdr + 16, ip.a, ip.b, ip.c, ip.d);
      case Broadcast =>
        TestEqualClosed(BPF_W, ipHdr + 16, 0xffff_ffff);
        TestEqualDecides(BPF_W, ipHdr + 16, 0xffff_ffff, pkt);
        WordFieldIs(pkt, ipHdr + 16, 255, 255, 255, 255);
      case Multicast =>
        MulticastDecides(linktype, pkt);
        steps := 4;
      case _ =>
        AcceptAllDecides(pkt);
        steps := 1;
    }
    ResultIs(live, pkt, steps);
  }

  /**
   * Compiler correctness: the compiled program always ends, accepts exactly the selected packets
   * and rejects all others.
   */
  lemma CompileCorrect(p: Option<Primitive>, linktype: i32, pkt: seq<byte>)
    ensures Halts(Compile(p, linktype), pkt)
    ensures Result(Compile(p, linktype), pkt) == if Selects(p, linktype, pkt) then 0xffff_ffff else 0
  {
    match p
    case None =>
      AcceptAllDecides(pkt);
      ResultIs([Ret(BPF_ACCEPT)], pkt, 1);
    case Some(prim) =>
      var live, dead := PrimitiveDecides(prim, linktype, pkt);
      assert Compile(p, linktype) == live + (dead + [Ret(BPF_ACCEPT)]);
      ClosedNeverFallsOff(live, pkt);
      SuffixIrrelevant(live, dead + [Ret(BPF_ACCEPT)], pkt);
  }

  /** The implicit accept pushed by `compile` can be anything, or nothing. */
  lemma ImplicitAcceptIsInert(p: Primitive, linktype: i32, suffix: seq<Insn>, pkt: seq<byte>)
    ensures Halts(CompilePrimitive(p, linktype) + suffix, pkt) && Halts(Compile(Some(p), linktype), pkt)
    ensures Result(CompilePrimitive(p, linktype) + suffix, pkt) == Result(Compile(Some(p), linktype), pkt)
  {
    var live, dead := PrimitiveDecides(p, linktype, pkt);
    assert CompilePrimitive(p, linktype) + suffix == live + (dead + suffix);
    ClosedNeverFallsOff(live, pkt);
    SuffixIrrelevant(live, dead + suffix, pkt);
    CompileCorrect(Some(p), linktype, pkt);
  }

  /** `host`: instructions 4 to 7, the source test, never run: any replacement acts the same. */
  lemma HostSourceTestUnreachable(ip: Ipv4, linktype: i32, replacement: seq<Insn>, pkt: seq<byte>)
    ensures |CompilePrimitive(HostIpv4(ip), linktype)| == 8
    ensures Halts(CompilePrimitive(HostIpv4(ip), linktype)[..4] + replacement, pkt)
    ensures Halts(Compile(Some(HostIpv4(ip)), linktype), pkt)
    ensures Result(CompilePrimitive(HostIpv4(ip), linktype)[..4] + replacement, pkt) ==
            Result(Compile(Some(HostIpv4(ip)), linktype), pkt)
  {
    var at := LinkHeaderLen(linktype) + 16;
    var live := TestEqual(BPF_W, at, HostWord(ip));
    assert CompilePrimitive(HostIpv4(ip), linktype)[..4] == live;
    TestEqualClosed(BPF_W, at, HostWord(ip));
    TestEqualDecides(BPF_W, at, HostWord(ip), pkt);
    WordFieldIs(pkt, at, ip.a, ip.b, ip.c, ip.d);
    ResultIs(live, pkt, 3);
    ClosedNeverFallsOff(live, pkt);
    SuffixIrrelevant(live, replacement, pkt);
    CompileCorrect(Some(HostIpv4(ip)), linktype, pkt);
  }

  /** `host` is documented as matching either address; a frame from the host to another is dropped. */
  lemma HostIgnoresSource(ip: Ipv4, linktype: i32, pkt: seq<byte>)
    requires !FieldIs(pkt, DestinationAt(linktype), [ip.a, ip.b, ip.c, ip.d])
    ensures Halts(Compile(Some(HostIpv4(ip)), linktype), pkt)
    ensures Result(Compile(Some(HostIpv4(ip)), linktype), pkt) == 0
  {
    CompileCorrect(Some(HostIpv4(ip)), linktype, pkt);
  }

  /** What `host` is documented to match. */
  predicate DocumentedHost(ip: Ipv4, linktype: i32, pkt: seq<byte>) {
    || FieldIs(pkt, DestinationAt(linktype), [ip.a, ip.b, ip.c, ip.d])
    || FieldIs(pkt, SourceAt(linktype), [ip.a, ip.b, ip.c, ip.d])
  }

  /** The filter does what is documented exactly on the frames to the host and those not from it. */
  lemma HostAsDocumentedExactly(ip: Ipv4, linktype: i32, pkt: seq<byte>)
    ensures Halts(Compile(Some(HostIpv4(ip)), linktype), pkt)
    ensures (Result(Compile(Some(HostIpv4(ip)), linktype), pkt) == 0xffff_ffff <==> DocumentedHost(ip, linktype, pkt))
            <==> || FieldIs(pkt, DestinationAt(linktype), [ip.a, ip.b, ip.c, ip.d])
                 || !FieldIs(pkt, SourceAt(linktype), [ip.a, ip.b, ip.c, ip.d])
  {
    CompileCorrect(Some(HostIpv4(ip)), linktype, pkt);
  }

  /** An Ethernet frame from 10.0.0.5 to 10.0.0.9 is rejected by `host 10.0.0.5`. */
  lemma HostDropsOwnFrame()
    ensures var ip := Ipv4(10, 0, 0, 5);
            var frame: seq<byte> := seq(26, _ => 0) + [10, 0, 0, 5] + [10, 0, 0, 9];
            && DocumentedHost(ip, 1, frame)
            && Halts(Compile(Some(HostIpv4(ip)), 1), frame)
            && Result(Compile(Some(HostIpv4(ip)), 1), frame) == 0
  {
    var frame: seq<byte> := seq(26, _ => 0) + [10, 0, 0, 5] + [10, 0, 0, 9];
    assert frame[26..30] == [10, 0, 0, 5];
    assert frame[30..34][3] == 9;
    HostIgnoresSource(Ipv4(10, 0, 0, 5), 1, frame);
  }

  /** A compiled filter that accepts a clipped frame accepts the whole frame. */
  lemma FiltersExtend(p: Option<Primitive>, linktype: i32, pkt: seq<byte>, tail: seq<byte>)
    requires PktLen(pkt) <= PktLen(pkt + tail)
    ensures Halts(Compile(p, linktype), pkt) && Halts(Compile(p, linktype), pkt + tail)
    ensures Result(Compile(p, linktype), pkt) == BPF_ACCEPT ==> Result(Compile(p, linktype), pkt + tail) == BPF_ACCEPT
  {
    CompileCorrect(p, linktype, pkt);
    CompileCorrect(p, linktype, pkt + tail);
    CompiledLoadsNoLength(p, linktype);
    if Result(Compile(p, linktype), pkt) == BPF_ACCEPT {
      AcceptedPacketsExtend(Compile(p, linktype), pkt, tail);
    }
  }

  lemma CompiledLoadsNoLength(p: Option<Primitive>, linktype: i32)
    ensures NoLengthLoads(Compile(p, linktype))
  {
    assert (BPF_LD | BPF_W | BPF_ABS) & 0xe0 == BPF_ABS;
    assert (BPF_LD | BPF_H | BPF_ABS) & 0xe0 == BPF_ABS;
    assert (BPF_LD | BPF_B | BPF_ABS) & 0xe0 == BPF_ABS;
    assert (BPF_JMP | BPF_JEQ) & 0x07 == BPF_JMP;
    assert (BPF_JMP | BPF_JGE) & 0x07 == BPF_JMP;
    assert (BPF_JMP | BPF_JGT) & 0x07 == BPF_JMP;
  }
}
