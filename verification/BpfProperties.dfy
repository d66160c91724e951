/** What every BPF program does: termination, meaning, longer packets, longer programs. */
module BpfProperties {
  import opened Bytes
  import opened Bpf

  // ----- Forward programs -----

  predicate IsJump(ins: Insn) { ins.code & 0x07 == BPF_JMP }

  predicate IsJa(ins: Insn) { IsJump(ins) && ins.code & 0x70 == BPF_JA }

  /** Every target the instruction at `pc` can jump to lies strictly ahead. */
  predicate ForwardAt(ins: Insn, pc: nat) {
    IsJump(ins) ==>
      if ins.code & 0x70 == BPF_JA then ins.k > pc
      else IsConditional(ins.code & 0x70) ==> Target(pc, ins.jt) > pc && Target(pc, ins.jf) > pc
  }

  predicate Forward(rest: seq<Insn>, base: nat) {
    forall i | 0 <= i < |rest| :: ForwardAt(rest[i], base + i)
  }

  lemma ExecMovesForward(ins: Insn, pc: nat, regs: Regs, pkt: seq<byte>)
    requires ForwardAt(ins, pc)
    ensures Exec(ins, pc, regs, pkt).Goto? ==> Exec(ins, pc, regs, pkt).pc > pc
  {
  }

  /** Below 2^32 - 256 instructions only `BPF_JA` can jump backwards. */
  lemma ForwardIffJaAhead(program: seq<Insn>)
    requires |program| <= TWO_32 - 0x100
    ensures Forward(program, 0) <==> forall i | 0 <= i < |program| :: IsJa(program[i]) ==> program[i].k > i
  {
    forall i | 0 <= i < |program|
      ensures ForwardAt(program[i], 0 + i) <==> (IsJa(program[i]) ==> program[i].k > i)
    {
      assert Target(i, program[i].jt) == i + program[i].jt + 1;
      assert Target(i, program[i].jf) == i + program[i].jf + 1;
    }
    if forall i | 0 <= i < |program| :: IsJa(program[i]) ==> program[i].k > i {
      assert Forward(program, 0);
    }
    if Forward(program, 0) {
      forall i | 0 <= i < |program|
        ensures IsJa(program[i]) ==> program[i].k > i
      {
        assert ForwardAt(program[i], 0 + i);
      }
    }
  }

  /**
   * The meaning of a forward program, by recursion on the instructions still ahead: `rest` is what
   * remains from address `base` on, and leaving it yields the accumulator.
   */
  function Meaning(rest: seq<Insn>, base: nat, regs: Regs, pkt: seq<byte>): u32
    requires Forward(rest, base)
    decreases |rest|
  {
    if rest == [] then regs.acc
    else
      assert ForwardAt(rest[0], base + 0);
      ExecMovesForward(rest[0], base, regs, pkt);
      match Exec(rest[0], base, regs, pkt)
      case Halt(r) => r
      case Goto(pc, regs') =>
        if pc - base >= |rest| then regs'.acc
        else
          ForwardDrop(rest, base, pc - base);
          Meaning(rest[pc - base..], pc, regs', pkt)
  }

  lemma ForwardDrop(rest: seq<Insn>, base: nat, n: nat)
    requires Forward(rest, base) && n <= |rest|
    ensures Forward(rest[n..], base + n)
  {
    forall i | 0 <= i < |rest| - n
      ensures ForwardAt(rest[n..][i], base + n + i)
    {
      assert ForwardAt(rest[n + i], base + (n + i));
    }
  }

  lemma {:induction false} RunRefinesMeaning(program: seq<Insn>, pc: nat, regs: Regs, pkt: seq<byte>)
    requires Forward(program, 0) && pc <= |program|
    ensures Forward(program[pc..], pc)
    ensures RunFor(program, pc, regs, pkt, |program| - pc) == Some(Meaning(program[pc..], pc, regs, pkt))
    decreases |program| - pc
  {
    hide Exec, Forward;
    ForwardDrop(program, 0, pc);
    if pc < |program| {
      hide Meaning;
      MeaningStep(program, pc, regs, pkt);
      match Exec(program[pc], pc, regs, pkt)
      case Halt(_) =>
      case Goto(pc', regs') =>
        if pc' < |program| {
          RunRefinesMeaning(program, pc', regs', pkt);
          MoreFuel(program, pc', regs', pkt, |program| - pc', |program| - pc - 1);
        }
    }
  }

  /** The meaning of what remains, by the instruction it starts with. */
  lemma MeaningStep(program: seq<Insn>, pc: nat, regs: Regs, pkt: seq<byte>)
    requires Forward(program, 0) && pc < |program| && Forward(program[pc..], pc)
    ensures match Exec(program[pc], pc, regs, pkt)
            case Halt(r) => Meaning(program[pc..], pc, regs, pkt) == r
            case Goto(pc', regs') =>
              && pc' > pc
              && (pc' >= |program| ==> Meaning(program[pc..], pc, regs, pkt) == regs'.acc)
              && (pc' < |program| ==>
                    Forward(program[pc'..], pc')
                    && Meaning(program[pc..], pc, regs, pkt) == Meaning(program[pc'..], pc', regs', pkt))
  {
    var rest := program[pc..];
    assert rest[0] == program[pc] && ForwardAt(rest[0], pc + 0);
    ExecMovesForward(rest[0], pc, regs, pkt);
    hide Exec, ForwardAt;
    match Exec(rest[0], pc, regs, pkt)
    case Halt(_) =>
    case Goto(pc', _) =>
      if pc' < |program| {
        ForwardDrop(program, 0, pc');
        assert rest[pc' - pc..] == program[pc'..];
      }
  }

  /** A forward program ends within `program.len()` steps, and its result is its meaning. */
  lemma ForwardProgramsHalt(program: seq<Insn>, pkt: seq<byte>)
    requires Forward(program, 0)
    ensures ResultWithin(program, pkt, |program|).Some?
    ensures Halts(program, pkt)
    ensures Result(program, pkt) == Meaning(program, 0, InitRegs(), pkt)
  {
    RunRefinesMeaning(program, 0, InitRegs(), pkt);
    assert program[0..] == program;
    assert ResultWithin(program, pkt, |program|).Some?;
    ResultIs(program, pkt, |program|);
  }

  /** Without that restriction programs may loop: `BPF_JA` sets `pc` to `k` itself. */
  lemma {:induction false} AbsoluteJumpLoops(pkt: seq<byte>, regs: Regs, fuel: nat)
    ensures RunFor([Insn(BPF_JMP | BPF_JA, 0, 0, 0)], 0, regs, pkt, fuel) == None
  {
    if fuel > 0 {
      assert Exec(Insn(BPF_JMP | BPF_JA, 0, 0, 0), 0, regs, pkt) == Goto(0, regs);
      AbsoluteJumpLoops(pkt, regs, fuel - 1);
    }
  }

  // ----- Longer packets -----

  predicate LoadsLength(ins: Insn) {
    (ins.code & 0x07 == BPF_LD || ins.code & 0x07 == BPF_LDX) && ins.code & 0xe0 == BPF_LEN
  }

  predicate NoLengthLoads(program: seq<Insn>) {
    forall i | 0 <= i < |program| :: !LoadsLength(program[i])
  }

  lemma LoadExtends(p: seq<byte>, tail: seq<byte>, idx: u32, size: bv16)
    requires PktLen(p) <= PktLen(p + tail)
    ensures Load(p, idx, size).Some? ==> Load(p + tail, idx, size) == Load(p, idx, size)
  {
    if size == BPF_W && idx + 4 <= |p| {
      assert (p + tail)[idx..idx + 4] == p[idx..idx + 4];
    } else if size == BPF_H && idx + 2 <= |p| {
      assert (p + tail)[idx..idx + 2] == p[idx..idx + 2];
    }
  }

  /** On a longer packet an instruction does the same, unless it aborted with 0 on the shorter one. */
  lemma ExecExtends(ins: Insn, pc: nat, regs: Regs, p: seq<byte>, tail: seq<byte>)
    requires !LoadsLength(ins)
    requires PktLen(p) <= PktLen(p + tail)
    ensures Exec(ins, pc, regs, p) == Halt(0) || Exec(ins, pc, regs, p + tail) == Exec(ins, pc, regs, p)
  {
    var size := ins.code & 0x18;
    LoadExtends(p, tail, ins.k, size);
    LoadExtends(p, tail, ins.k, BPF_B);
    LoadExtends(p, tail, Low32(regs.x + ins.k), size);
  }

  lemma {:induction false} RunExtends(program: seq<Insn>, pc: nat, regs: Regs, p: seq<byte>, tail: seq<byte>, fuel: nat)
    requires NoLengthLoads(program)
    requires PktLen(p) <= PktLen(p + tail)
    requires RunFor(program, pc, regs, p, fuel).Some? && RunFor(program, pc, regs, p, fuel) != Some(0)
    ensures RunFor(program, pc, regs, p + tail, fuel) == RunFor(program, pc, regs, p, fuel)
    decreases fuel
  {
    if pc < |program| {
      ExecExtends(program[pc], pc, regs, p, tail);
      match Exec(program[pc], pc, regs, p)
      case Halt(_) =>
      case Goto(pc', regs') => RunExtends(program, pc', regs', p, tail, fuel - 1);
    }
  }

  /** Whatever a program without length loads accepts on `p`, it accepts alike on `p + tail`. */
  ghost predicate AcceptanceExtends(p: seq<byte>, tail: seq<byte>) {
    forall program | NoLengthLoads(program) && Halts(program, p) && Result(program, p) != 0 ::
      Halts(program, p + tail) && Result(program, p + tail) == Result(program, p)
  }

  lemma AcceptedPacketsExtend(program: seq<Insn>, p: seq<byte>, tail: seq<byte>)
    requires NoLengthLoads(program) && Halts(program, p) && Result(program, p) != 0
    requires PktLen(p) <= PktLen(p + tail)
    ensures Halts(program, p + tail) && Result(program, p + tail) == Result(program, p)
  {
    var fuel: nat :| ResultWithin(program, p, fuel) == Some(Result(program, p));
    RunExtends(program, 0, InitRegs(), p, tail, fuel);
    assert ResultWithin(program, p + tail, fuel) == ResultWithin(program, p, fuel);
    ResultIs(program, p + tail, fuel);
  }

  /** `ldb [k]; ret #1` accepts exactly the packets whose 32-bit length exceeds `k`. */
  function ByteProbe(k: u32): seq<Insn> {
    [Insn(BPF_LD | BPF_B | BPF_ABS, 0, 0, k), Insn(BPF_RET, 0, 0, 1)]
  }

  lemma ByteProbeMeaning(k: u32, p: seq<byte>)
    ensures NoLengthLoads(ByteProbe(k)) && Halts(ByteProbe(k), p)
    ensures Result(ByteProbe(k), p) == if k < PktLen(p) then 1 else 0
  {
    var program := ByteProbe(k);
    assert program[0].code & 0xe0 == BPF_ABS && program[1].code & 0x07 == BPF_RET;
    var regs := InitRegs();
    match Exec(program[0], 0, regs, p)
    case Halt(_) =>
      assert ResultWithin(program, p, 2) == Some(0);
      ResultIs(program, p, 2);
    case Goto(pc, regs') =>
      assert pc == 1 && Exec(program[1], 1, regs', p) == Halt(1);
      assert RunFor(program, 1, regs', p, 1) == Some(1);
      assert ResultWithin(program, p, 2) == Some(1);
      ResultIs(program, p, 2);
  }

  /**
   * Packet-extension monotonicity, exactly: acceptance survives appending `tail` for every program
   * without length loads if and only if the packet's length, truncated to 32 bits, does not shrink.
   * It always holds when `p + tail` is shorter than 2^32 bytes.
   */
  lemma AcceptanceExtendsExactly(p: seq<byte>, tail: seq<byte>)
    ensures AcceptanceExtends(p, tail) <==> PktLen(p) <= PktLen(p + tail)
    ensures |p + tail| < TWO_32 ==> AcceptanceExtends(p, tail)
  {
    if PktLen(p) <= PktLen(p + tail) {
      forall program | NoLengthLoads(program) && Halts(program, p) && Result(program, p) != 0
        ensures Halts(program, p + tail) && Result(program, p + tail) == Result(program, p)
      {
        AcceptedPacketsExtend(program, p, tail);
      }
    } else {
      var probe := ByteProbe(PktLen(p + tail));
      ByteProbeMeaning(PktLen(p + tail), p);
      ByteProbeMeaning(PktLen(p + tail), p + tail);
      assert NoLengthLoads(probe) && Halts(probe, p) && Result(probe, p) != 0;
    }
  }

  /** It does fail: with 2^32 bytes the longer packet has 32-bit length 0, and a load finds nothing. */
  lemma AcceptanceMayShrink()
    ensures var p: seq<byte> := [0];
            var tail: seq<byte> := seq(0xffff_ffff, _ => 0);
            && Halts(ByteProbe(0), p) && Result(ByteProbe(0), p) == 1
            && Halts(ByteProbe(0), p + tail) && Result(ByteProbe(0), p + tail) == 0
            && !AcceptanceExtends(p, tail)
  {
    var p: seq<byte> := [0];
    var tail: seq<byte> := seq(0xffff_ffff, _ => 0);
    assert |p + tail| == TWO_32;
    ByteProbeMeaning(0, p);
    ByteProbeMeaning(0, p + tail);
    AcceptanceExtendsExactly(p, tail);
  }

  // ----- Longer programs -----

  /** Within `fuel` instructions the run from `pc` goes past the last instruction. */
  predicate LeavesWithin(program: seq<Insn>, pc: nat, regs: Regs, pkt: seq<byte>, fuel: nat)
    decreases fuel
  {
    if pc >= |program| then true
    else if fuel == 0 then false
    else
      match Exec(program[pc], pc, regs, pkt)
      case Halt(_) => false
      case Goto(pc', regs') => LeavesWithin(program, pc', regs', pkt, fuel - 1)
  }

  /** The program's path on this packet runs off its end instead of returning or looping inside. */
  ghost predicate FallsOff(program: seq<Insn>, pkt: seq<byte>) {
    exists fuel: nat :: LeavesWithin(program, 0, InitRegs(), pkt, fuel)
  }

  /** Both programs end on the packet, with one result, or neither does. */
  ghost predicate SameOutcome(a: seq<Insn>, b: seq<Insn>, pkt: seq<byte>) {
    && (Halts(a, pkt) <==> Halts(b, pkt))
    && (Halts(a, pkt) && Halts(b, pkt) ==> Result(a, pkt) == Result(b, pkt))
  }

  lemma {:induction false} SuffixUnreached(
    program: seq<Insn>, suffix: seq<Insn>, pc: nat, regs: Regs, pkt: seq<byte>, fuel: nat)
    requires !LeavesWithin(program, pc, regs, pkt, fuel)
    ensures RunFor(program + suffix, pc, regs, pkt, fuel) == RunFor(program, pc, regs, pkt, fuel)
    decreases fuel
  {
    hide Exec;
    if fuel > 0 {
      match Exec(program[pc], pc, regs, pkt)
      case Halt(_) =>
      case Goto(pc', regs') => SuffixUnreached(program, suffix, pc', regs', pkt, fuel - 1);
    }
  }

  /** Where the path of the packet does not run off the end, appended instructions change nothing. */
  lemma SuffixIrrelevant(program: seq<Insn>, suffix: seq<Insn>, pkt: seq<byte>)
    requires !FallsOff(program, pkt)
    ensures SameOutcome(program + suffix, program, pkt)
  {
    hide LeavesWithin, RunFor;
    forall fuel: nat
      ensures ResultWithin(program + suffix, pkt, fuel) == ResultWithin(program, pkt, fuel)
    {
      assert !LeavesWithin(program, 0, InitRegs(), pkt, fuel);
      SuffixUnreached(program, suffix, 0, InitRegs(), pkt, fuel);
    }
    if Halts(program, pkt) {
      var fuel: nat :| ResultWithin(program, pkt, fuel).Some?;
      ResultIs(program, pkt, fuel);
      ResultIs(program + suffix, pkt, fuel);
    }
  }

  /** The address at which a run that leaves the program leaves it. */
  function ExitAddress(program: seq<Insn>, pc: nat, regs: Regs, pkt: seq<byte>, fuel: nat): (at: nat)
    requires LeavesWithin(program, pc, regs, pkt, fuel)
    ensures at >= |program|
    decreases fuel
  {
    if pc >= |program| then pc
    else
      match Exec(program[pc], pc, regs, pkt)
      case Goto(pc', regs') => ExitAddress(program, pc', regs', pkt, fuel - 1)
  }

  /** `n` instructions that return `k`. */
  function Returns(n: nat, k: u32): seq<Insn> { seq(n, _ => Insn(BPF_RET, 0, 0, k)) }

  lemma {:induction false} ReturnsReached(
    program: seq<Insn>, pc: nat, regs: Regs, pkt: seq<byte>, fuel: nat, n: nat, k: u32)
    requires LeavesWithin(program, pc, regs, pkt, fuel)
    requires ExitAddress(program, pc, regs, pkt, fuel) < |program| + n
    ensures RunFor(program, pc, regs, pkt, fuel).Some?
    ensures RunFor(program + Returns(n, k), pc, regs, pkt, fuel + 1) == Some(k)
    decreases fuel
  {
    if pc >= |program| {
      var ret := Insn(BPF_RET, 0, 0, k);
      assert (program + Returns(n, k))[pc] == ret;
      assert Exec(ret, pc, regs, pkt) == Halt(k);
    } else {
      hide Exec;
      match Exec(program[pc], pc, regs, pkt)
      case Goto(pc', regs') => ReturnsReached(program, pc', regs', pkt, fuel - 1, n, k);
    }
  }

  /**
   * Suffix irrelevance, exactly: no appended instructions can change what the program does with the
   * packet if and only if the packet's path never runs off the end. That is so whenever the path
   * ends in a return, however the instructions it does not reach look.
   */
  lemma SuffixIrrelevantExactly(program: seq<Insn>, pkt: seq<byte>)
    ensures (forall suffix :: SameOutcome(program + suffix, program, pkt)) <==> !FallsOff(program, pkt)
  {
    if FallsOff(program, pkt) {
      var fuel: nat :| LeavesWithin(program, 0, InitRegs(), pkt, fuel);
      var n := ExitAddress(program, 0, InitRegs(), pkt, fuel) + 1;
      ReturnsReached(program, 0, InitRegs(), pkt, fuel, n, 0);
      ResultIs(program, pkt, fuel);
      var k := if Result(program, pkt) == 0 then 1 else 0;
      ReturnsReached(program, 0, InitRegs(), pkt, fuel, n, k);
      ResultIs(program + Returns(n, k), pkt, fuel + 1);
      assert !SameOutcome(program + Returns(n, k), program, pkt);
    } else {
      forall suffix
        ensures SameOutcome(program + suffix, program, pkt)
      {
        SuffixIrrelevant(program, suffix, pkt);
      }
    }
  }

  /** The instruction at `pc` either returns or continues at an address below `size`. */
  predicate StaysInside(ins: Insn, pc: nat, size: nat) {
    if IsJump(ins) then
      if ins.code & 0x70 == BPF_JA then ins.k < size
      else IsConditional(ins.code & 0x70) ==> Target(pc, ins.jt) < size && Target(pc, ins.jf) < size
    else ins.code & 0x07 == BPF_RET || pc + 1 < size
  }

  /** No instruction, reachable or not, continues past the end. */
  predicate Closed(program: seq<Insn>) {
    program != [] && forall i | 0 <= i < |program| :: StaysInside(program[i], i, |program|)
  }

  lemma {:induction false} ClosedStays(program: seq<Insn>, pc: nat, regs: Regs, pkt: seq<byte>, fuel: nat)
    requires Closed(program) && pc < |program|
    ensures !LeavesWithin(program, pc, regs, pkt, fuel)
    decreases fuel
  {
    if fuel > 0 {
      assert StaysInside(program[pc], pc, |program|);
      match Exec(program[pc], pc, regs, pkt)
      case Halt(_) =>
      case Goto(pc', regs') => ClosedStays(program, pc', regs', pkt, fuel - 1);
    }
  }

  /** What can be read off the instructions alone: a closed program runs off its end on no packet. */
  lemma ClosedNeverFallsOff(program: seq<Insn>, pkt: seq<byte>)
    requires Closed(program)
    ensures !FallsOff(program, pkt)
  {
    forall fuel: nat
      ensures !LeavesWithin(program, 0, InitRegs(), pkt, fuel)
    {
      ClosedStays(program, 0, InitRegs(), pkt, fuel);
    }
  }

  // ----- Arithmetic -----

  /** Subtraction undoes addition whatever wrapped around, and negation is subtraction from zero. */
  lemma AddSubCancel(a: u32, v: u32)
    ensures Alu(BPF_SUB, Alu(BPF_ADD, a, v), v) == a
    ensures Alu(BPF_ADD, Alu(BPF_SUB, a, v), v) == a
    ensures Alu(BPF_NEG, a, v) == Alu(BPF_SUB, 0, a)
  {
    assert Alu(BPF_ADD, a, v) == Low32(a + v);
    assert Alu(BPF_SUB, a, v) == Low32(a + TWO_32 - v);
    assert Alu(BPF_NEG, a, v) == Low32(TWO_32 - a);
  }

  /** Quotient and remainder recompose; dividing by zero gives zero for both. */
  lemma DivModRecompose(a: u32, v: u32)
    ensures v != 0 ==> Alu(BPF_DIV, a, v) * v + Alu(BPF_MOD, a, v) == a && Alu(BPF_MOD, a, v) < v
    ensures v == 0 ==> Alu(BPF_DIV, a, v) == 0 && Alu(BPF_MOD, a, v) == 0
  {
    if v != 0 {
      assert Alu(BPF_DIV, a, v) == a / v && Alu(BPF_MOD, a, v) == a % v;
    }
  }
}
