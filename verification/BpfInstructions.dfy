/**
 * What every instruction does, in numbers: opcodes as written in a program, packet octets by their
 * index, arithmetic modulo 2^32 and bits as binary digits.
 */
module BpfInstructions {
  import opened Bits
  import opened Bytes
  import opened Bpf

  /** Bit `i` of a number. */
  predicate Bit(x: nat, i: nat) { Digit(x, i) == 1 }

  // ----- Arithmetic, class 4 -----

  /** The accumulator after the arithmetic operation `op` on `a` and the operand `v`. */
  ghost predicate Computes(op: bv16, a: u32, v: u32, r: u32) {
    && (op == 0x00 ==> r as int == (a + v) % 0x1_0000_0000)
    && (op == 0x10 ==> r as int == (a - v) % 0x1_0000_0000)
    && (op == 0x20 ==> r as int == (a * v) % 0x1_0000_0000)
    && (op == 0x30 ==> r as int == if v == 0 then 0 else a / v)
    && (op == 0x40 ==> forall i: nat | i < 32 :: Bit(r, i) <==> Bit(a, i) || Bit(v, i))
    && (op == 0x50 ==> forall i: nat | i < 32 :: Bit(r, i) <==> Bit(a, i) && Bit(v, i))
    && (op == 0x60 ==> r as int == if v < 32 then a * Pow2(v) % 0x1_0000_0000 else 0)
    && (op == 0x70 ==> r as int == if v < 32 then a / Pow2(v) else 0)
    && (op == 0x80 ==> r as int == (0x1_0000_0000 - a) % 0x1_0000_0000)
    && (op == 0x90 ==> r as int == if v == 0 then 0 else a % v)
    && (op == 0xa0 ==> forall i: nat | i < 32 :: Bit(r, i) <==> Bit(a, i) != Bit(v, i))
    && (op > 0xa0 ==> r == a)
  }

  lemma BitwiseAlu(op: bv16, a: u32, v: u32)
    requires op == 0x40 || op == 0x50 || op == 0xa0
    ensures Computes(op, a, v, Alu(op, a, v))
  {
    forall i: nat | i < 32
      ensures Bit(OrBits(a, v, 32), i) <==> Bit(a, i) || Bit(v, i)
      ensures Bit(AndBits(a, v, 32), i) <==> Bit(a, i) && Bit(v, i)
      ensures Bit(XorBits(a, v, 32), i) <==> Bit(a, i) != Bit(v, i)
    {
      BitsDigit(a, v, 32, i);
    }
  }

  lemma ShiftAlu(op: bv16, a: u32, v: u32)
    requires op == 0x60 || op == 0x70
    ensures Computes(op, a, v, Alu(op, a, v))
  {
    Pow2Of32();
    ShiftLeftIs(a, v, 32);
    ShiftRightIs(a, v);
    hide Pow2, ShiftLeft, ShiftRight;
  }

  lemma NumberAlu(op: bv16, a: u32, v: u32)
    requires op < 0x40 || op == 0x80 || op == 0x90 || op > 0xa0
    requires op & 0x0f == 0
    ensures Computes(op, a, v, Alu(op, a, v))
  {
    assert op < 0x40 ==> op == 0x00 || op == 0x10 || op == 0x20 || op == 0x30;
  }

  lemma AluComputes(op: bv16, a: u32, v: u32)
    requires op & 0x0f == 0
    ensures Computes(op, a, v, Alu(op, a, v))
  {
    if op == 0x40 || op == 0x50 || op == 0xa0 {
      BitwiseAlu(op, a, v);
    } else if op == 0x60 || op == 0x70 {
      ShiftAlu(op, a, v);
    } else {
      assert op < 0x40 || op == 0x80 || op == 0x90 || op > 0xa0;
      NumberAlu(op, a, v);
    }
  }

  /** Class 4: the accumulator takes the value of the operation, nothing else changes. */
  lemma AluInstruction(ins: Insn, pc: nat, regs: Regs, pkt: seq<byte>)
    requires ins.code & 0x07 == 0x04
    ensures var v := if ins.code & 0x08 != 0 then regs.x else ins.k;
            var out := Exec(ins, pc, regs, pkt);
            && out.Goto? && out.pc == pc + 1 && out.regs.x == regs.x && out.regs.mem == regs.mem
            && Computes(ins.code & 0xf0, regs.acc, v, out.regs.acc)
  {
    assert (ins.code & 0xf0) & 0x0f == 0;
    AluComputes(ins.code & 0xf0, regs.acc, if ins.code & 0x08 != 0 then regs.x else ins.k);
    hide Computes, Alu;
  }

  // ----- Loads, classes 0 and 1 -----

  /** What a load at offset `at` finds: four octets, two or one, most significant first. */
  function Found(pkt: seq<byte>, at: u32, size: bv16): Option<nat> {
    if size == 0x00 then
      if at + 4 > |pkt| then None
      else
        var b0: nat, b1: nat, b2: nat, b3: nat := pkt[at], pkt[at + 1], pkt[at + 2], pkt[at + 3];
        Some(b0 * 0x100_0000 + b1 * 0x1_0000 + b2 * 0x100 + b3)
    else if size == 0x08 then
      if at + 2 > |pkt| then None
      else
        var b0: nat, b1: nat := pkt[at], pkt[at + 1];
        Some(b0 * 0x100 + b1)
    else if at >= |pkt| % 0x1_0000_0000 then None
    else Some(pkt[at])
  }

  lemma LoadFinds(pkt: seq<byte>, at: u32, size: bv16)
    ensures Load(pkt, at, size).Some? <==> Found(pkt, at, size).Some?
    ensures Load(pkt, at, size).Some? ==> Load(pkt, at, size).value as int == Found(pkt, at, size).value
  {
  }

  /** Class 0 loads the accumulator, class 1 the index register; a failed check ends the run with 0. */
  ghost predicate Loads(ins: Insn, pc: nat, regs: Regs, out: Outcome, value: Option<nat>) {
    match value
    case None => out == Halt(0)
    case Some(v) =>
      && v < 0x1_0000_0000
      && out == Goto(pc + 1, if ins.code & 0x07 == 0x00 then regs.(acc := v) else regs.(x := v))
  }

  lemma LoadInstruction(ins: Insn, pc: nat, regs: Regs, pkt: seq<byte>)
    requires ins.code & 0x07 == 0x00 || ins.code & 0x07 == 0x01
    ensures var mode, size, out := ins.code & 0xe0, ins.code & 0x18, Exec(ins, pc, regs, pkt);
            && (mode == 0x00 ==> Loads(ins, pc, regs, out, Some(ins.k)))
            && (mode == 0x20 ==> Loads(ins, pc, regs, out, Found(pkt, ins.k, size)))
            && (mode == 0x40 ==> Loads(ins, pc, regs, out, Found(pkt, (regs.x + ins.k) % 0x1_0000_0000, size)))
            && (mode == 0x60 ==> Loads(ins, pc, regs, out, if ins.k < 16 then Some(regs.mem[ins.k]) else None))
            && (mode == 0x80 ==> Loads(ins, pc, regs, out, Some(|pkt| % 0x1_0000_0000)))
            && (mode == 0xc0 || mode == 0xe0 ==> out == Halt(0))
  {
    var size := ins.code & 0x18;
    LoadFinds(pkt, ins.k, size);
    LoadFinds(pkt, (regs.x + ins.k) % 0x1_0000_0000, size);
    hide Load, Found;
  }

  /** Mode 0xa0: four times the low half of the octet at `k`, into the index register whatever the class. */
  lemma HeaderLengthInstruction(ins: Insn, pc: nat, regs: Regs, pkt: seq<byte>)
    requires (ins.code & 0x07 == 0x00 || ins.code & 0x07 == 0x01) && ins.code & 0xe0 == 0xa0
    ensures var size: nat := |pkt| % 0x1_0000_0000;
            Exec(ins, pc, regs, pkt) ==
            if ins.k < size && 4 * (pkt[ins.k] % 16) <= size
            then Goto(pc + 1, regs.(x := 4 * (pkt[ins.k] % 16))) else Halt(0)
  {
  }

  // ----- Stores, classes 2 and 3 -----

  lemma StoreInstruction(ins: Insn, pc: nat, regs: Regs, pkt: seq<byte>)
    requires ins.code & 0x07 == 0x02 || ins.code & 0x07 == 0x03
    ensures Exec(ins, pc, regs, pkt) ==
            if ins.k < 16
            then Goto(pc + 1, regs.(mem := regs.mem[ins.k := if ins.code & 0x07 == 0x02 then regs.acc else regs.x]))
            else Halt(0)
  {
  }

  // ----- Jumps, class 5 -----

  /** The condition of a jump on the accumulator `a` and the operand `v`. */
  ghost predicate Holds(op: bv16, a: u32, v: u32) {
    if op == 0x10 then a == v
    else if op == 0x20 then a > v
    else if op == 0x30 then a >= v
    else exists i: nat :: i < 32 && Bit(a, i) && Bit(v, i)
  }

  lemma BitsMeet(a: u32, v: u32)
    ensures Holds(0x40, a, v) <==> AndBits(a, v, 32) != 0
  {
    CommonDigit(a, v, 32);
    hide AndBits;
    if AndBits(a, v, 32) != 0 {
      var i: nat :| i < 32 && Digit(a, i) == 1 && Digit(v, i) == 1;
      assert Bit(a, i) && Bit(v, i);
    } else {
      forall i: nat | i < 32
        ensures !(Bit(a, i) && Bit(v, i))
      {
        assert !(Digit(a, i) == 1 && Digit(v, i) == 1);
      }
    }
  }

  lemma Comparisons(op: bv16, a: u32, v: u32)
    requires op == 0x10 || op == 0x20 || op == 0x30
    ensures Holds(op, a, v) <==> Taken(op, a, v)
  {
  }

  /** Operation 0 jumps to the address `k`, 1 to 4 to one of two offsets from the next instruction. */
  lemma JumpInstruction(ins: Insn, pc: nat, regs: Regs, pkt: seq<byte>)
    requires ins.code & 0x07 == 0x05
    ensures var op := ins.code & 0x70;
            var v := if ins.code & 0x08 != 0 then regs.x else ins.k;
            var offset: nat := if Holds(op, regs.acc, v) then ins.jt else ins.jf;
            Exec(ins, pc, regs, pkt) ==
            if op == 0x00 then Goto(ins.k, regs)
            else if op <= 0x40 then Goto((pc % 0x1_0000_0000 + offset + 1) % 0x1_0000_0000, regs)
            else Halt(0)
  {
    var v := if ins.code & 0x08 != 0 then regs.x else ins.k;
    var op := ins.code & 0x70;
    assert op == 0x00 || op == 0x10 || op == 0x20 || op == 0x30 || op == 0x40 || op > 0x40;
    BitsMeet(regs.acc, v);
    hide AndBits, Bit, Holds;
    if op == 0x10 || op == 0x20 || op == 0x30 {
      Comparisons(op, regs.acc, v);
    }
  }

  // ----- Returns and transfers, classes 6 and 7 -----

  lemma ReturnInstruction(ins: Insn, pc: nat, regs: Regs, pkt: seq<byte>)
    requires ins.code & 0x07 == 0x06
    ensures Exec(ins, pc, regs, pkt) == Halt(if ins.code & 0x08 != 0 then regs.x else ins.k)
  {
  }

  lemma TransferInstruction(ins: Insn, pc: nat, regs: Regs, pkt: seq<byte>)
    requires ins.code & 0x07 == 0x07
    ensures Exec(ins, pc, regs, pkt) ==
            Goto(pc + 1, if ins.code & 0xf0 == 0x00 then regs.(x := regs.acc)
                         else if ins.code & 0xf0 == 0x80 then regs.(acc := regs.x) else regs)
  {
  }

  // ----- Runs -----

  /**
   * A run starts at the first instruction with everything zero and follows the instructions until
   * one returns, or past the last one with the accumulator for its result.
   */
  lemma RunFollowsInstructions(program: seq<Insn>, pkt: seq<byte>, pc: nat, regs: Regs, fuel: nat)
    ensures InitRegs().acc == 0 && InitRegs().x == 0 && forall i | 0 <= i < 16 :: InitRegs().mem[i] == 0
    ensures ResultWithin(program, pkt, fuel) == RunFor(program, 0, InitRegs(), pkt, fuel)
    ensures pc >= |program| ==> RunFor(program, pc, regs, pkt, fuel) == Some(regs.acc)
    ensures pc < |program| && fuel > 0 ==>
              match Exec(program[pc], pc, regs, pkt)
              case Halt(r) => RunFor(program, pc, regs, pkt, fuel) == Some(r)
              case Goto(pc', regs') =>
                RunFor(program, pc, regs, pkt, fuel) == RunFor(program, pc', regs', pkt, fuel - 1)
  {
  }
}
