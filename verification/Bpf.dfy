/** The classic BPF instruction set and its interpreter (wnr-pcap/src/bpf.rs). */
module Bpf {
  import opened Bytes

  const BPF_LD: bv16 := 0x00
  const BPF_LDX: bv16 := 0x01
  const BPF_ST: bv16 := 0x02
  const BPF_STX: bv16 := 0x03
  const BPF_ALU: bv16 := 0x04
  const BPF_JMP: bv16 := 0x05
  const BPF_RET: bv16 := 0x06
  const BPF_MISC: bv16 := 0x07

  const BPF_W: bv16 := 0x00
  const BPF_H: bv16 := 0x08
  const BPF_B: bv16 := 0x10
  const BPF_IMM: bv16 := 0x00
  const BPF_ABS: bv16 := 0x20
  const BPF_IND: bv16 := 0x40
  const BPF_MEM: bv16 := 0x60
  const BPF_LEN: bv16 := 0x80
  const BPF_MSH: bv16 := 0xa0

  const BPF_ADD: bv16 := 0x00
  const BPF_SUB: bv16 := 0x10
  const BPF_MUL: bv16 := 0x20
  const BPF_DIV: bv16 := 0x30
  const BPF_OR: bv16 := 0x40
  const BPF_AND: bv16 := 0x50
  const BPF_LSH: bv16 := 0x60
  const BPF_RSH: bv16 := 0x70
  const BPF_NEG: bv16 := 0x80
  const BPF_MOD: bv16 := 0x90
  const BPF_XOR: bv16 := 0xa0

  const BPF_JA: bv16 := 0x00
  const BPF_JEQ: bv16 := 0x10
  const BPF_JGT: bv16 := 0x20
  const BPF_JGE: bv16 := 0x30
  const BPF_JSET: bv16 := 0x40

  const BPF_TAX: bv16 := 0x00
  const BPF_TXA: bv16 := 0x80

  const BPF_ACCEPT: u32 := 0xffff_ffff
  const BPF_REJECT: u32 := 0

  const MEM_WORDS: nat := 16

  datatype Insn = Insn(code: bv16, jt: byte, jf: byte, k: u32)

  type Memory = m: seq<u32> | |m| == 16 witness seq(16, _ => 0)

  /** The machine state between two instructions. */
  datatype Regs = Regs(acc: u32, x: u32, mem: Memory)

  /** `acc`, `x` and `mem` zeroed, as at the start of every run. */
  function InitRegs(): Regs { Regs(0, 0, seq(16, _ => 0)) }

  /** `pkt.len() as u32`. */
  function PktLen(pkt: seq<byte>): u32 { Low32(|pkt|) }

  /** Word and half-word loads are bounded by the slice, byte loads by its 32-bit length. */
  function Load(pkt: seq<byte>, idx: u32, size: bv16): Option<u32> {
    if size == BPF_W then
      if idx + 4 > |pkt| then None else Some(Get32(true, pkt[idx..idx + 4]))
    else if size == BPF_H then
      if idx + 2 > |pkt| then None else Some(Get16(true, pkt[idx..idx + 2]))
    else if idx >= PktLen(pkt) then None
    else Some(pkt[idx])
  }

  function Alu(op: bv16, acc: u32, v: u32): u32 {
    if op == BPF_ADD then Low32(acc + v)
    else if op == BPF_SUB then Low32(acc + TWO_32 - v)
    else if op == BPF_MUL then Low32(acc * v)
    else if op == BPF_DIV then if v != 0 then acc / v else 0
    else if op == BPF_OR then Or32(acc, v)
    else if op == BPF_AND then And32(acc, v)
    else if op == BPF_LSH then if v < 32 then Shl32(acc, v) else 0
    else if op == BPF_RSH then if v < 32 then Shr32(acc, v) else 0
    else if op == BPF_NEG then Low32(TWO_32 - acc)
    else if op == BPF_MOD then if v != 0 then acc % v else 0
    else if op == BPF_XOR then Xor32(acc, v)
    else acc
  }

  /** A conditional jump target: 32-bit arithmetic on the truncated program counter. */
  function Target(pc: nat, offset: byte): nat { Low32(Low32(pc) + offset + 1) }

  predicate IsConditional(op: bv16) {
    op == BPF_JEQ || op == BPF_JGT || op == BPF_JGE || op == BPF_JSET
  }

  predicate Taken(op: bv16, acc: u32, v: u32)
    requires IsConditional(op)
  {
    if op == BPF_JEQ then acc == v
    else if op == BPF_JGT then acc > v
    else if op == BPF_JGE then acc >= v
    else And32(acc, v) != 0
  }

  datatype Outcome = Goto(pc: nat, regs: Regs) | Halt(result: u32)

  function WithLoaded(cls: bv16, regs: Regs, v: u32): Regs {
    if cls == BPF_LD then regs.(acc := v) else regs.(x := v)
  }

  function ExecLoad(ins: Insn, pc: nat, regs: Regs, pkt: seq<byte>): Outcome {
    var cls := ins.code & 0x07;
    var size := ins.code & 0x18;
    var mode := ins.code & 0xe0;
    if mode == BPF_IMM then Goto(pc + 1, WithLoaded(cls, regs, ins.k))
    else if mode == BPF_ABS || mode == BPF_IND then
      var idx := if mode == BPF_IND then Low32(regs.x + ins.k) else ins.k;
      match Load(pkt, idx, size)
      case Some(v) => Goto(pc + 1, WithLoaded(cls, regs, v))
      case None => Halt(0)
    else if mode == BPF_MEM then
      if ins.k >= MEM_WORDS then Halt(0)
      else Goto(pc + 1, WithLoaded(cls, regs, regs.mem[ins.k]))
    else if mode == BPF_LEN then Goto(pc + 1, WithLoaded(cls, regs, PktLen(pkt)))
    else if mode == BPF_MSH then
      match Load(pkt, ins.k, BPF_B)
      case Some(v) =>
        var hlen := (v % 16) * 4;
        if hlen > PktLen(pkt) then Halt(0) else Goto(pc + 1, regs.(x := hlen))
      case None => Halt(0)
    else Halt(0)
  }

  function ExecStore(ins: Insn, pc: nat, regs: Regs): Outcome {
    if ins.k >= MEM_WORDS then Halt(0)
    else
      var v := if ins.code & 0x07 == BPF_ST then regs.acc else regs.x;
      Goto(pc + 1, regs.(mem := regs.mem[ins.k := v]))
  }

  function Operand(ins: Insn, regs: Regs): u32 {
    if ins.code & 0x08 != 0 then regs.x else ins.k
  }

  function ExecJump(ins: Insn, pc: nat, regs: Regs): Outcome {
    var op := ins.code & 0x70;
    if op == BPF_JA then Goto(ins.k, regs)
    else if IsConditional(op) then
      Goto(Target(pc, if Taken(op, regs.acc, Operand(ins, regs)) then ins.jt else ins.jf), regs)
    else Halt(0)
  }

  function ExecMisc(ins: Insn, pc: nat, regs: Regs): Outcome {
    if ins.code & 0xf0 == BPF_TAX then Goto(pc + 1, regs.(x := regs.acc))
    else if ins.code & 0xf0 == BPF_TXA then Goto(pc + 1, regs.(acc := regs.x))
    else Goto(pc + 1, regs)
  }

  /** One instruction at `pc`. */
  function Exec(ins: Insn, pc: nat, regs: Regs, pkt: seq<byte>): Outcome {
    var cls := ins.code & 0x07;
    if cls == BPF_LD || cls == BPF_LDX then ExecLoad(ins, pc, regs, pkt)
    else if cls == BPF_ST || cls == BPF_STX then ExecStore(ins, pc, regs)
    else if cls == BPF_ALU then
      Goto(pc + 1, regs.(acc := Alu(ins.code & 0xf0, regs.acc, Operand(ins, regs))))
    else if cls == BPF_JMP then ExecJump(ins, pc, regs)
    else if cls == BPF_RET then Halt(if ins.code & 0x08 != 0 then regs.x else ins.k)
    else ExecMisc(ins, pc, regs)
  }

  /** The result of at most `fuel` instructions, or `None` while the program still runs. */
  function RunFor(program: seq<Insn>, pc: nat, regs: Regs, pkt: seq<byte>, fuel: nat): Option<u32>
    decreases fuel
  {
    if pc >= |program| then Some(regs.acc)
    else if fuel == 0 then None
    else
      match Exec(program[pc], pc, regs, pkt)
      case Halt(r) => Some(r)
      case Goto(pc', regs') => RunFor(program, pc', regs', pkt, fuel - 1)
  }

  /** The result after at most `fuel` instructions from the initial state. */
  function ResultWithin(program: seq<Insn>, pkt: seq<byte>, fuel: nat): Option<u32> {
    RunFor(program, 0, InitRegs(), pkt, fuel)
  }

  /** The program ends on this packet. */
  ghost predicate Halts(program: seq<Insn>, pkt: seq<byte>) {
    exists fuel: nat :: ResultWithin(program, pkt, fuel).Some?
  }

  ghost function Result(program: seq<Insn>, pkt: seq<byte>): (r: u32)
    requires Halts(program, pkt)
    ensures exists fuel: nat :: ResultWithin(program, pkt, fuel) == Some(r)
  {
    var fuel: nat :| ResultWithin(program, pkt, fuel).Some?;
    ResultWithin(program, pkt, fuel).value
  }

  /** More fuel never changes a result. */
  lemma {:induction false} MoreFuel(program: seq<Insn>, pc: nat, regs: Regs, pkt: seq<byte>, fuel: nat, more: nat)
    requires RunFor(program, pc, regs, pkt, fuel).Some?
    requires fuel <= more
    ensures RunFor(program, pc, regs, pkt, more) == RunFor(program, pc, regs, pkt, fuel)
    decreases fuel
  {
    if pc < |program| {
      match Exec(program[pc], pc, regs, pkt)
      case Halt(_) =>
      case Goto(pc', regs') => MoreFuel(program, pc', regs', pkt, fuel - 1, more - 1);
    }
  }

  /** The result does not depend on how much fuel exhibits it. */
  lemma ResultIs(program: seq<Insn>, pkt: seq<byte>, fuel: nat)
    requires ResultWithin(program, pkt, fuel).Some?
    ensures Halts(program, pkt)
    ensures ResultWithin(program, pkt, fuel) == Some(Result(program, pkt))
  {
    var r := Result(program, pkt);
    var other: nat :| ResultWithin(program, pkt, other) == Some(r);
    if fuel <= other {
      MoreFuel(program, 0, InitRegs(), pkt, fuel, other);
    } else {
      MoreFuel(program, 0, InitRegs(), pkt, other, fuel);
    }
  }

  /** The interpreter object, reused from one packet to the next. */
  class BpfVm {
    var acc: u32
    var x: u32
    const mem: array<u32>

    ghost predicate Valid()
      reads this
    {
      mem.Length == MEM_WORDS
    }

    ghost function State(): Regs
      reads this, mem
      requires Valid()
    {
      Regs(acc, x, mem[..])
    }

    constructor ()
      ensures Valid() && fresh(mem)
      ensures State() == InitRegs()
    {
      acc, x := 0, 0;
      mem := new u32[16](_ => 0);
    }

    method Reset()
      requires Valid()
      modifies this, mem
      ensures Valid() && State() == InitRegs()
    {
      acc, x := 0, 0;
      forall i | 0 <= i < mem.Length {
        mem[i] := 0;
      }
      assert mem[..] == seq(16, _ => 0);
    }

    /** Arithmetic on the accumulator; an unknown operation leaves it alone. */
    method ApplyAlu(op: bv16, useX: bool, k: u32)
      requires Valid()
      modifies this
      ensures Valid()
      ensures State() == old(State()).(acc := Alu(op, old(acc), if useX then old(x) else k))
    {
      var v := if useX then x else k;
      acc := Alu(op, acc, v);
    }

    method SetLoaded(cls: bv16, v: u32)
      requires Valid()
      modifies this
      ensures Valid() && State() == WithLoaded(cls, old(State()), v)
    {
      if cls == BPF_LD {
        acc := v;
      } else {
        x := v;
      }
    }

    /** The load branch of the interpreter loop; `false` is the early `return 0`. */
    method LoadBranch(ins: Insn, pc: nat, pkt: seq<byte>) returns (go: bool)
      requires Valid()
      modifies this
      ensures Valid()
      ensures ExecLoad(ins, pc, old(State()), pkt) == if go then Goto(pc + 1, State()) else Halt(0)
    {
      var cls := ins.code & 0x07;
      var size := ins.code & 0x18;
      var mode := ins.code & 0xe0;
      go := true;
      if mode == BPF_IMM {
        SetLoaded(cls, ins.k);
      } else if mode == BPF_ABS || mode == BPF_IND {
        var idx := if mode == BPF_IND then Low32(x + ins.k) else ins.k;
        match Load(pkt, idx, size) {
          case Some(v) => SetLoaded(cls, v);
          case None => go := false;
        }
      } else if mode == BPF_MEM {
        if ins.k >= mem.Length {
          go := false;
        } else {
          SetLoaded(cls, mem[ins.k]);
        }
      } else if mode == BPF_LEN {
        SetLoaded(cls, PktLen(pkt));
      } else if mode == BPF_MSH {
        match Load(pkt, ins.k, BPF_B) {
          case Some(v) =>
            var hlen := (v % 16) * 4;
            if hlen > PktLen(pkt) {
              go := false;
            } else {
              x := hlen;
            }
          case None => go := false;
        }
      } else {
        go := false;
      }
    }

    /** Interpret a program that ends on this packet, whatever an earlier packet left behind. */
    method Run(program: seq<Insn>, pkt: seq<byte>) returns (r: u32)
      requires Valid() && Halts(program, pkt)
      modifies this, mem
      ensures Valid()
      ensures r == Result(program, pkt)
    {
      Reset();
      ghost var fuel: nat :| ResultWithin(program, pkt, fuel) == Some(Result(program, pkt));
      var pc: nat := 0;
      while pc < |program|
        invariant Valid()
        invariant RunFor(program, pc, State(), pkt, fuel) == Some(Result(program, pkt))
        decreases fuel
      {
        var ins := program[pc];
        var cls := ins.code & 0x07;
        ghost var before := State();
        if cls == BPF_LD || cls == BPF_LDX {
          var go := LoadBranch(ins, pc, pkt);
          if !go {
            return 0;
          }
        } else if cls == BPF_ST || cls == BPF_STX {
          if ins.k >= mem.Length {
            return 0;
          }
          mem[ins.k] := if cls == BPF_ST then acc else x;
          assert State() == ExecStore(ins, pc, before).regs;
        } else if cls == BPF_ALU {
          ApplyAlu(ins.code & 0xf0, ins.code & 0x08 != 0, ins.k);
        } else if cls == BPF_JMP {
          var op := ins.code & 0x70;
          if op == BPF_JA {
            pc := ins.k;
          } else if IsConditional(op) {
            var v := if ins.code & 0x08 != 0 then x else ins.k;
            pc := if Taken(op, acc, v) then Target(pc, ins.jt) else Target(pc, ins.jf);
          } else {
            return 0;
          }
          fuel := fuel - 1;
          continue;
        } else if cls == BPF_RET {
          return if ins.code & 0x08 != 0 then x else ins.k;
        } else if ins.code & 0xf0 == BPF_TAX {
          x := acc;
        } else if ins.code & 0xf0 == BPF_TXA {
          acc := x;
        }
        assert Exec(ins, pc, before, pkt) == Goto(pc + 1, State());
        pc := pc + 1;
        fuel := fuel - 1;
      }
      r := acc;
    }

    method FilterOk(program: seq<Insn>, pkt: seq<byte>) returns (ok: bool)
      requires Valid() && Halts(program, pkt)
      modifies this, mem
      ensures Valid()
      ensures ok == (Result(program, pkt) != BPF_REJECT)
    {
      var r := Run(program, pkt);
      ok := r != 0;
    }
  }
}
