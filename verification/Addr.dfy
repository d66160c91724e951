/** Addresses, prefix masks and subnet arithmetic (wnr-dnet/src/addr.rs). */
module Addresses {
  import opened Bits
  import opened Bytes

  const ADDR_TYPE_NONE: u32 := 0
  const ADDR_LEN: nat := 16

  type Octets = s: seq<byte> | |s| == 16 witness seq(16, _ => 0)

  datatype Addr = Addr(addrType: u32, addrBits: u16, data: Octets)

  // ----- Numbers -----

  /** The octets read as one big-endian number. */
  function Value(s: seq<byte>): nat {
    if s == [] then 0 else Value(s[..|s| - 1]) * 0x100 + s[|s| - 1] as int
  }

  lemma ValueSnoc(s: seq<byte>)
    requires s != []
    ensures Value(s) == Value(s[..|s| - 1]) * 0x100 + s[|s| - 1] as int
  {
  }

  lemma {:induction false} ValueBound(s: seq<byte>)
    ensures Value(s) < Pow2(8 * |s|)
  {
    if s != [] {
      ValueBound(s[..|s| - 1]);
      Pow2Add(8 * (|s| - 1), 8);
      Pow2Small();
    }
  }

  lemma {:induction false} ValueInjective(s: seq<byte>, t: seq<byte>)
    requires |s| == |t| && Value(s) == Value(t)
    ensures s == t
  {
    if s != [] {
      var n := |s| - 1;
      ValueInjective(s[..n], t[..n]);
      assert s == s[..n] + [s[n]] && t == t[..n] + [t[n]];
    }
  }

  /** The first bit weighs half the range. */
  lemma {:induction false} TopBitWeight(s: seq<byte>, t: seq<byte>)
    requires s != [] && |s| == |t| && s[0] as int == t[0] as int + 128
    requires forall k | 0 < k < |s| :: s[k] == t[k]
    ensures Value(s) == Value(t) + Pow2(8 * |s| - 1)
  {
    Pow2Small();
    var n := |s| - 1;
    if n > 0 {
      TopBitWeight(s[..n], t[..n]);
      Pow2Add(8 * n - 1, 8);
    }
  }

  // ----- Bit operations on octets, by binary digits -----

  function And8(a: byte, b: byte): byte {
    BitsBound(a, b, 8);
    Pow2Small();
    AndBits(a, b, 8)
  }

  function Or8(a: byte, b: byte): byte {
    BitsBound(a, b, 8);
    Pow2Small();
    OrBits(a, b, 8)
  }

  function Not8(a: byte): byte { 0xff - a }

  /** `a << k` on `u8`: bits shifted past the top are lost. */
  function Shl8(a: byte, k: nat): byte { a * Pow2(k) % 0x100 }

  /** Halving a remainder. */
  lemma HalfMod(a: nat, m: nat)
    requires m > 0
    ensures a % (2 * m) == (a / 2 % m) * 2 + a % 2
  {
    var q, r := a / 2 / m, a / 2 % m;
    assert a == (q * m + r) * 2 + a % 2;
    assert (q * m) * 2 == q * (2 * m);
    ModUnique(a, 2 * m, q, r * 2 + a % 2);
  }

  /** Keeping the bits from `z` up rounds down to a multiple of 2^z. */
  lemma AndHighBits(a: nat, n: nat, z: nat)
    requires z <= n && a < Pow2(n)
    ensures Pow2(z) <= Pow2(n)
    ensures AndBits(a, Pow2(n) - Pow2(z), n) == a - a % Pow2(z)
  {
    Pow2Monotone(z, n);
    AndClearsLow(a, n, z);
    LowBitsIsMod(a, z);
  }

  /** The number in the `z` lowest binary digits. */
  function LowBits(a: nat, z: nat): nat {
    if z == 0 then 0 else LowBits(a / 2, z - 1) * 2 + a % 2
  }

  lemma {:induction false} LowBitsIsMod(a: nat, z: nat)
    ensures LowBits(a, z) == a % Pow2(z)
  {
    if z > 0 {
      LowBitsIsMod(a / 2, z - 1);
      HalfMod(a, Pow2(z - 1));
    }
  }

  lemma {:induction false} AndClearsLow(a: nat, n: nat, z: nat)
    requires z <= n && a < Pow2(n) && Pow2(z) <= Pow2(n)
    ensures AndBits(a, Pow2(n) - Pow2(z), n) == a - LowBits(a, z)
  {
    if n > 0 {
      AndClearsLow(a / 2, n - 1, if z > 0 then z - 1 else 0);
    }
  }

  lemma {:induction false} OrSetsLow(a: nat, n: nat, z: nat)
    requires z <= n && a < Pow2(n)
    ensures OrBits(a, Pow2(z) - 1, n) == a - LowBits(a, z) + Pow2(z) - 1
  {
    if n > 0 {
      var half := if z > 0 then z - 1 else 0;
      OrSetsLow(a / 2, n - 1, half);
      assert (Pow2(z) - 1) / 2 == Pow2(half) - 1;
      hide Pow2;
    }
  }

  /** Setting the bits below `z` rounds up to the next multiple of 2^z, less one. */
  lemma OrLowBits(a: nat, n: nat, z: nat)
    requires z <= n && a < Pow2(n)
    ensures OrBits(a, Pow2(z) - 1, n) == a - a % Pow2(z) + Pow2(z) - 1
  {
    OrSetsLow(a, n, z);
    LowBitsIsMod(a, z);
  }

  // ----- Masks -----

  /** The byte of a mask that holds `k` leading ones, `k` clipped to 0..8. */
  function MaskByte(k: int): byte {
    if k >= 8 then 0xff else if k <= 0 then 0 else Shl8(0xff, 8 - k)
  }

  lemma MaskByteValue(k: int)
    requires 0 <= k <= 8
    ensures MaskByte(k) == 0x100 - Pow2(8 - k)
  {
    Pow2Small();
  }

  /** `bits` leading ones in `size` bytes. */
  function Mask(bits: nat, size: nat): seq<byte> {
    seq(size, i => MaskByte(bits - 8 * i))
  }

  /** Fill the mask byte by byte; `None` when the prefix does not fit. */
  method BitsToMaskLen(bits: u16, size: nat) returns (r: Option<seq<byte>>)
    ensures r == if bits > size * 8 then None else Some(Mask(bits, size))
  {
    if bits > size * 8 {
      return None;
    }
    var mask := new byte[size](_ => 0);
    var full: nat := bits / 8;
    var rem: nat := bits % 8;
    var i := 0;
    while i < full
      invariant 0 <= i <= full <= size
      invariant forall j | 0 <= j < size :: mask[j] == if j < i then 0xff else 0
    {
      mask[i] := 0xff;
      i := i + 1;
    }
    if rem > 0 && full < size {
      mask[full] := Shl8(0xff, 8 - rem);
    }
    assert mask[..] == Mask(bits, size);
    r := Some(mask[..]);
  }

  /** A prefix longer than the address gives the all-zero mask. */
  function EffectiveBits(bits: u16): nat { if bits <= 128 then bits else 0 }

  method BitsToMask(bits: u16) returns (mask: Octets)
    ensures mask == Mask(EffectiveBits(bits), ADDR_LEN)
  {
    var m := BitsToMaskLen(bits, ADDR_LEN);
    if m.Some? {
      mask := m.value;
    } else {
      mask := seq(16, _ => 0);
      assert mask == Mask(0, ADDR_LEN);
    }
  }

  // ----- Networks -----

  function NetworkData(data: Octets, bits: u16): Octets {
    seq(16, i requires 0 <= i < 16 => And8(data[i], Mask(EffectiveBits(bits), ADDR_LEN)[i]))
  }

  function BroadcastData(data: Octets, bits: u16): Octets {
    seq(16, i requires 0 <= i < 16 => Or8(data[i], Not8(Mask(EffectiveBits(bits), ADDR_LEN)[i])))
  }

  function Network(a: Addr): Addr { a.(data := NetworkData(a.data, a.addrBits)) }

  function BroadcastOf(a: Addr): Addr { a.(data := BroadcastData(a.data, a.addrBits)) }

  /** Only the octets change. */
  lemma SubnetKeepsPrefix(a: Addr)
    ensures Network(a).addrType == BroadcastOf(a).addrType == a.addrType
    ensures Network(a).addrBits == BroadcastOf(a).addrBits == a.addrBits
  {
  }

  method ComputeNetwork(a: Addr) returns (out: Addr)
    ensures out == Network(a)
  {
    var mask := BitsToMask(a.addrBits);
    var data := new byte[16](i requires 0 <= i < 16 => a.data[i]);
    for i := 0 to 16
      invariant forall j | 0 <= j < 16 :: data[j] == if j < i then And8(a.data[j], mask[j]) else a.data[j]
    {
      data[i] := And8(data[i], mask[i]);
    }
    assert data[..] == NetworkData(a.data, a.addrBits);
    out := a.(data := data[..]);
  }

  method ComputeBroadcast(a: Addr) returns (out: Addr)
    ensures out == BroadcastOf(a)
  {
    var mask := BitsToMask(a.addrBits);
    var data := new byte[16](i requires 0 <= i < 16 => a.data[i]);
    for i := 0 to 16
      invariant forall j | 0 <= j < 16 :: data[j] == if j < i then Or8(a.data[j], Not8(mask[j])) else a.data[j]
    {
      data[i] := Or8(data[i], Not8(mask[i]));
    }
    assert data[..] == BroadcastData(a.data, a.addrBits);
    out := a.(data := data[..]);
  }

  /** One octet: masking rounds down to a multiple of 2^(8-k), inverting fills the gap. */
  lemma MaskedByte(b: byte, k: int)
    requires 0 <= k <= 8
    ensures And8(b, MaskByte(k)) == b - b % Pow2(8 - k)
    ensures Or8(b, Not8(MaskByte(k))) == b - b % Pow2(8 - k) + Pow2(8 - k) - 1
  {
    MaskByteValue(k);
    Pow2Small();
    AndHighBits(b, 8, 8 - k);
    OrLowBits(b, 8, 8 - k);
  }

  // ----- Value of a network -----

  /** Splitting a number below its last octet. */
  lemma ModSplit(hi: nat, lo: byte, m: nat)
    requires m > 0
    ensures (hi * 0x100 + lo) % (0x100 * m) == (hi % m) * 0x100 + lo
  {
    var q, r := hi / m, hi % m;
    assert hi == q * m + r;
    assert hi * 0x100 + lo == q * (0x100 * m) + (r * 0x100 + lo) by {
      assert (q * m) * 0x100 == q * (0x100 * m);
    }
    assert r * 0x100 + lo < 0x100 * m;
    ModUnique(hi * 0x100 + lo, 0x100 * m, q, r * 0x100 + lo);
  }

  /** A modulus dividing 256 only sees the last octet. */
  lemma ModLow(hi: nat, lo: nat, f: nat, m: nat)
    requires m > 0 && f * m == 0x100
    ensures (hi * 0x100 + lo) % m == lo % m
  {
    var q, r, w := lo / m, lo % m, hi * f;
    assert hi * 0x100 == w * m by {
      MulAssoc(hi, f, m);
    }
    assert hi * 0x100 + lo == (w + q) * m + r by {
      DistributeLeft(w, q, m);
    }
    ModUnique(hi * 0x100 + lo, m, w + q, r);
  }

  function Masked(s: seq<byte>, bits: nat): seq<byte> {
    seq(|s|, i requires 0 <= i < |s| => And8(s[i], MaskByte(bits - 8 * i)))
  }

  function Filled(s: seq<byte>, bits: nat): seq<byte> {
    seq(|s|, i requires 0 <= i < |s| => Or8(s[i], Not8(MaskByte(bits - 8 * i))))
  }

  /** Masking an octet string rounds its number down to a multiple of the host range. */
  ghost predicate RoundsDown(s: seq<byte>, bits: nat)
    requires bits <= 8 * |s|
  {
    var v, m := Value(s), Pow2(8 * |s| - bits);
    Value(Masked(s, bits)) == v - v % m && Value(Filled(s, bits)) == v - v % m + m - 1
  }

  lemma {:induction false} MaskedValue(s: seq<byte>, bits: nat)
    requires bits <= 8 * |s|
    ensures RoundsDown(s, bits)
  {
    if s == [] {
      assert Pow2(0) == 1;
    } else {
      var n := |s| - 1;
      if bits <= 8 * n {
        MaskedValue(s[..n], bits);
        MaskedStepAbove(s, bits);
      } else {
        MaskedValue(s[..n], 8 * n);
        MaskedStepBelow(s, bits);
      }
    }
  }

  lemma MaskedStepAbove(s: seq<byte>, bits: nat)
    requires s != [] && bits <= 8 * (|s| - 1)
    requires RoundsDown(s[..|s| - 1], bits)
    ensures RoundsDown(s, bits)
  {
    hide And8, Or8, Not8, MaskByte, Masked, Filled, Value, Pow2;
    var n := |s| - 1;
    MaskedSnoc(s, bits);
    ValueSnoc(s);
    MaskedValueAbove(Value(s[..n]), s[n], 8 * n - bits);
    assert Pow2(8 * n - bits + 8) == Pow2(8 * |s| - bits);
  }

  lemma WholePrefix(s: seq<byte>)
    requires RoundsDown(s, 8 * |s|)
    ensures Value(Masked(s, 8 * |s|)) == Value(s) && Value(Filled(s, 8 * |s|)) == Value(s)
  {
    hide Masked, Filled, Value;
    assert Pow2(8 * |s| - 8 * |s|) == 1;
  }

  lemma MaskedStepBelow(s: seq<byte>, bits: nat)
    requires s != [] && 8 * (|s| - 1) < bits <= 8 * |s|
    requires RoundsDown(s[..|s| - 1], 8 * (|s| - 1))
    ensures RoundsDown(s, bits)
  {
    var n := |s| - 1;
    WholePrefix(s[..n]);
    MaskedSnoc(s, bits);
    ValueSnoc(s);
    MaskedValueBelow(Value(s[..n]), s[n], bits - 8 * n);
    hide And8, Or8, Not8, MaskByte, Masked, Filled, Value, Pow2;
    assert 8 - (bits - 8 * n) == 8 * |s| - bits;
  }

  lemma MaskedSnoc(s: seq<byte>, bits: nat)
    requires s != []
    ensures var n := |s| - 1;
            var b, k := if bits <= 8 * n then bits else 8 * n, if bits <= 8 * n then 0 else bits - 8 * n;
            && Value(Masked(s, bits)) == Value(Masked(s[..n], b)) * 0x100 + And8(s[n], MaskByte(k))
            && Value(Filled(s, bits)) == Value(Filled(s[..n], b)) * 0x100 + Or8(s[n], Not8(MaskByte(k)))
  {
    SplitMasked(s, bits);
    ValueSnoc(Masked(s, bits));
    ValueSnoc(Filled(s, bits));
  }

  /** The prefix ends before the last octet. */
  lemma MaskedValueAbove(hi: nat, last: byte, host: nat)
    ensures And8(last, MaskByte(0)) == 0 && Or8(last, Not8(MaskByte(0))) == 0xff
    ensures var v := hi * 0x100 + last;
            && (hi - hi % Pow2(host)) * 0x100 == v - v % Pow2(host + 8)
            && (hi - hi % Pow2(host) + Pow2(host) - 1) * 0x100 + 0xff == v - v % Pow2(host + 8) + Pow2(host + 8) - 1
  {
    Pow2Small();
    Pow2Add(8, host);
    ModSplit(hi, last, Pow2(host));
    MaskedByte(last, 0);
  }

  /** The prefix ends inside or after the last octet. */
  lemma MaskedValueBelow(hi: nat, last: byte, k: nat)
    requires 0 < k <= 8
    ensures var v := hi * 0x100 + last;
            && hi * 0x100 + And8(last, MaskByte(k)) == v - v % Pow2(8 - k)
            && hi * 0x100 + Or8(last, Not8(MaskByte(k))) == v - v % Pow2(8 - k) + Pow2(8 - k) - 1
  {
    Pow2Small();
    Pow2Add(k, 8 - k);
    ModLow(hi, last, Pow2(k), Pow2(8 - k));
    MaskedByte(last, k);
  }

  lemma SplitMasked(s: seq<byte>, bits: nat)
    requires s != []
    ensures var n := |s| - 1;
            var b := if bits <= 8 * n then bits else 8 * n;
            && Masked(s, bits)[..n] == Masked(s[..n], b)
            && Filled(s, bits)[..n] == Filled(s[..n], b)
            && Masked(s, bits)[n] == And8(s[n], MaskByte(bits - 8 * n))
            && Filled(s, bits)[n] == Or8(s[n], Not8(MaskByte(bits - 8 * n)))
            && MaskByte(bits - 8 * n) == MaskByte(if bits <= 8 * n then 0 else bits - 8 * n)
  {
  }

  /** The size of the host range of a prefix. */
  function HostRange(bits: u16): (m: nat)
    ensures m > 0
  {
    Pow2(128 - EffectiveBits(bits))
  }

  /**
   * `network` is the address number rounded down to the host range and `broadcast` is the last
   * number of that range, over all 128 bits whatever the family.
   */
  lemma SubnetValues(a: Addr)
    ensures var v, m := Value(a.data), HostRange(a.addrBits);
            && Value(Network(a).data) == v - v % m
            && Value(BroadcastOf(a).data) == v - v % m + m - 1
  {
    var bits := EffectiveBits(a.addrBits);
    assert NetworkData(a.data, a.addrBits) == Masked(a.data, bits);
    assert BroadcastData(a.data, a.addrBits) == Filled(a.data, bits);
    MaskedValue(a.data, bits);
  }

  /** A prefix longer than 128 bits acts as the empty prefix. */
  lemma OverlongPrefix(a: Addr)
    requires a.addrBits > 128
    ensures Value(Network(a).data) == 0 && Value(BroadcastOf(a).data) == Pow2(128) - 1
  {
    SubnetValues(a);
    ValueBound(a.data);
    ModUnique(Value(a.data), Pow2(128), 0, Value(a.data));
  }

  /** `broadcast` of an IPv4 address also sets the twelve unused octets. */
  lemma BroadcastFillsPadding(a: Addr, i: nat)
    requires a.addrBits <= 32 && 4 <= i < ADDR_LEN
    ensures BroadcastOf(a).data[i] == 0xff
  {
    var k := EffectiveBits(a.addrBits) - 8 * i;
    assert Mask(EffectiveBits(a.addrBits), ADDR_LEN)[i] == MaskByte(k) == MaskByte(0);
    MaskedByte(a.data[i], 0);
    Pow2Small();
  }

  lemma RoundDownTwice(v: nat, m: nat)
    requires m > 0
    ensures v - v % m >= 0 && (v - v % m) % m == 0
  {
    ModUnique(v - v % m, m, v / m, 0);
  }

  lemma NetworkIdempotent(a: Addr)
    ensures Network(Network(a)) == Network(a)
  {
    hide NetworkData, BroadcastData, HostRange;
    SubnetValues(a);
    SubnetValues(Network(a));
    RoundDownTwice(Value(a.data), HostRange(a.addrBits));
    ValueInjective(Network(Network(a)).data, Network(a).data);
  }

  /** Two numbers share a block exactly when one lies in the block of the other. */
  lemma SameBlock(v: nat, w: nat, m: nat)
    requires m > 0
    ensures v - v % m == w - w % m <==> v - v % m <= w <= v - v % m + m - 1
  {
    if v - v % m <= w <= v - v % m + m - 1 {
      ModUnique(w, m, v / m, w - (v - v % m));
    }
  }

  // ----- Masks and prefix lengths -----

  /** Bit `i` of a mask, counted from the most significant bit of the first octet. */
  predicate BitSet(mask: seq<byte>, i: nat)
    requires i < 8 * |mask|
  {
    ByteBit(mask[i / 8], i % 8)
  }

  /** Bit `j` of an octet, counted from its most significant bit. */
  predicate ByteBit(b: byte, j: nat)
    requires j < 8
  {
    Digit(b, 7 - j) == 1
  }

  /** The first `k` bits are one and all others zero: a contiguous mask. */
  ghost predicate LeadingOnes(mask: seq<byte>, k: nat) {
    k <= 8 * |mask| && forall i | 0 <= i < 8 * |mask| :: BitSet(mask, i) <==> i < k
  }

  lemma {:induction false} HighDigits(n: nat, z: nat, i: nat)
    requires z <= n && i < n
    ensures Pow2(z) <= Pow2(n)
    ensures Digit(Pow2(n) - Pow2(z), i) == if i >= z then 1 else 0
  {
    AndHighBits(0, n, z);
    if i > 0 {
      if z > 0 {
        HighDigits(n - 1, z - 1, i - 1);
      } else {
        HighDigits(n - 1, 0, i - 1);
      }
    }
  }

  lemma MaskByteBit(k: int, j: nat)
    requires j < 8
    ensures ByteBit(MaskByte(k), j) <==> j < k
  {
    var c := if k >= 8 then 8 else if k <= 0 then 0 else k;
    MaskByteValue(c);
    Pow2Small();
    HighDigits(8, 8 - c, 7 - j);
    assert MaskByte(k) == MaskByte(c);
  }

  lemma ByteBitsDetermine(a: byte, b: byte)
    requires forall j: nat | j < 8 :: ByteBit(a, j) <==> ByteBit(b, j)
    ensures a == b
  {
    Pow2Small();
    forall i: nat | i < 8
      ensures Digit(a, i) == Digit(b, i)
    {
      assert ByteBit(a, 7 - i) <==> ByteBit(b, 7 - i);
    }
    DigitsDetermine(a, b, 8);
  }

  /** The bits of a mask say exactly what `Mask` builds. */
  lemma LeadingOnesIsMask(mask: seq<byte>, k: nat)
    requires k <= 8 * |mask|
    ensures LeadingOnes(mask, k) <==> mask == Mask(k, |mask|)
  {
    forall i: nat | i < 8 * |mask|
      ensures BitSet(Mask(k, |mask|), i) <==> i < k
    {
      MaskByteBit(k - 8 * (i / 8), i % 8);
    }
    if LeadingOnes(mask, k) {
      forall b | 0 <= b < |mask|
        ensures mask[b] == Mask(k, |mask|)[b]
      {
        forall j: nat | j < 8
          ensures ByteBit(mask[b], j) <==> ByteBit(Mask(k, |mask|)[b], j)
        {
          assert (8 * b + j) / 8 == b && (8 * b + j) % 8 == j;
          assert BitSet(mask, 8 * b + j) <==> BitSet(Mask(k, |mask|), 8 * b + j);
        }
        ByteBitsDetermine(mask[b], Mask(k, |mask|)[b]);
      }
    }
  }

  lemma LeadingOnesUnique(mask: seq<byte>, k: nat, k': nat)
    requires LeadingOnes(mask, k) && LeadingOnes(mask, k')
    ensures k == k'
  {
    if k < 8 * |mask| {
      assert !BitSet(mask, k);
    }
    if k' < 8 * |mask| {
      assert !BitSet(mask, k');
    }
  }

  /** The prefix length of a contiguous mask. */
  ghost function PrefixLength(mask: seq<byte>): (r: Option<nat>)
    ensures r.Some? ==> LeadingOnes(mask, r.value)
    ensures r.None? ==> forall k: nat :: !LeadingOnes(mask, k)
  {
    if k: nat :| LeadingOnes(mask, k) then Some(k) else None
  }

  /** `addr_mtob` undoes `addr_btom`. */
  lemma MaskRoundTrip(bits: nat, size: nat)
    requires bits <= 8 * size
    ensures PrefixLength(Mask(bits, size)) == Some(bits)
  {
    LeadingOnesIsMask(Mask(bits, size), bits);
    LeadingOnesUnique(Mask(bits, size), bits, PrefixLength(Mask(bits, size)).value);
  }

  /** `addr_btom` undoes `addr_mtob` on every contiguous mask. */
  lemma PrefixRoundTrip(mask: seq<byte>)
    requires PrefixLength(mask).Some?
    ensures PrefixLength(mask).value <= 8 * |mask|
    ensures Mask(PrefixLength(mask).value, |mask|) == mask
  {
    LeadingOnesIsMask(mask, PrefixLength(mask).value);
  }

  lemma MaskByteInjective(j: nat, k: nat)
    requires j <= 8 && k <= 8 && MaskByte(j) == MaskByte(k)
    ensures j == k
  {
    MaskByteValue(j);
    MaskByteValue(k);
    Pow2Small();
  }

  /** `v & 0x80 != 0` and `v << 1` on an octet. */
  lemma TopBit(v: byte)
    ensures And8(v, 0x80) != 0 <==> v >= 128
    ensures Shl8(v, 1) == if v >= 128 then 2 * v - 256 else 2 * v
  {
    Pow2Small();
    AndHighBits(v, 8, 7);
    assert And8(v, 0x80) as int == v - v % 128;
    hide Pow2, AndBits, And8;
  }

  /** How far the octet `b` has been shifted: `run` leading ones seen, `v` left. */
  predicate ShiftedBy(b: byte, run: nat, v: byte) {
    run <= 8 && b as int * Pow2(run) == v as int + 0x100 * (Pow2(run) - 1)
  }

  lemma ShiftStep(b: byte, run: nat, v: byte)
    requires ShiftedBy(b, run, v) && v >= 128
    ensures run < 8
    ensures ShiftedBy(b, run + 1, 2 * v - 256)
  {
    Pow2Small();
    assert b as int * Pow2(run + 1) == 2 * (b as int * Pow2(run));
  }

  /** Once the top bit is clear, `v` is zero exactly when `b` was a run of ones and nothing else. */
  lemma ShiftEnd(b: byte, run: nat, v: byte)
    requires ShiftedBy(b, run, v) && v < 128
    ensures v == 0 ==> b == MaskByte(run)
    ensures v != 0 ==> forall k: int :: b != MaskByte(k)
  {
    Pow2Small();
    var p := Pow2(run);
    Pow2Add(run, 8 - run);
    MaskByteValue(run);
    if v == 0 {
      MulAssoc(b as int, 1, p);
      DistributeLeft(MaskByte(run) as int, Pow2(8 - run), p);
      SameProduct(b as int, MaskByte(run) as int, p);
    } else {
      forall k: int
        ensures b != MaskByte(k)
      {
        var c := if k >= 8 then 8 else if k <= 0 then 0 else k;
        assert MaskByte(k) == MaskByte(c);
        MaskByteValue(c);
        ShiftBounds(b, run, v);
        if c > run {
          Pow2Monotone(8 - c, 8 - run - 1);
        } else {
          Pow2Monotone(8 - run, 8 - c);
        }
      }
    }
  }

  lemma SameProduct(a: int, b: int, m: nat)
    requires m > 0 && a * m == b * m
    ensures a == b
  {
    if a > b {
      MulStep(a, b, m);
    } else if b > a {
      MulStep(b, a, m);
    }
  }

  /** With `v` between 1 and 127 the octet lies strictly between two mask octets. */
  lemma ShiftBounds(b: byte, run: nat, v: byte)
    requires ShiftedBy(b, run, v) && 0 < v < 128
    ensures run < 8
    ensures 0x100 - Pow2(8 - run) < b < 0x100 - Pow2(8 - run - 1)
  {
    Pow2Small();
    assert run == 0 || run == 1 || run == 2 || run == 3 || run == 4 || run == 5 || run == 6 || run == 7;
  }

  /** Exactly the `run` most significant bits of the octet come before its first zero. */
  ghost predicate LeadsWith(b: byte, run: nat) {
    && run <= 8
    && (forall j: nat | j < run :: ByteBit(b, j))
    && (run < 8 ==> !ByteBit(b, run))
  }

  /** Binary digits of a number that starts with `run` ones and a zero. */
  lemma {:induction false} LeadingDigits(v: nat, n: nat, run: nat)
    requires run < n && Pow2(n) - Pow2(n - run) <= v < Pow2(n) - Pow2(n - run - 1)
    ensures forall i: nat | n - run <= i < n :: Digit(v, i) == 1
    ensures Digit(v, n - run - 1) == 0
  {
    if n - run - 1 > 0 {
      LeadingDigits(v / 2, n - 1, run);
      forall i: nat | n - run <= i < n
        ensures Digit(v, i) == 1
      {
        assert Digit(v / 2, i - 1) == 1;
      }
    } else {
      assert Pow2(1) == 2;
      assert v == Pow2(n) - 2;
      forall i: nat | n - run <= i < n
        ensures Digit(v, i) == 1
      {
        HighDigits(n - 1, 0, i - 1);
        assert Digit(v, i) == Digit(v / 2, i - 1);
      }
    }
  }

  /** Once the top bit is clear, the shifts are the leading ones of the octet. */
  lemma ShiftCounts(b: byte, run: nat, v: byte)
    requires ShiftedBy(b, run, v) && v < 128
    ensures LeadsWith(b, run)
  {
    Pow2Small();
    if run < 8 {
      assert 0x100 - Pow2(8 - run) <= b < 0x100 - Pow2(8 - run - 1) by {
        assert run == 0 || run == 1 || run == 2 || run == 3 || run == 4 || run == 5 || run == 6 || run == 7;
      }
      LeadingDigits(b, 8, run);
      forall j: nat | j < run
        ensures ByteBit(b, j)
      {
        assert Digit(b, 7 - j) == 1;
      }
    } else {
      assert b == MaskByte(8);
      forall j: nat | j < 8
        ensures ByteBit(b, j)
      {
        MaskByteBit(8, j);
      }
    }
  }

  /** The inner loop of both mask readers: leading ones of an octet and what is left after them. */
  method LeadingRun(b: byte) returns (run: nat, rest: byte)
    ensures LeadsWith(b, run)
    ensures rest == 0 ==> b == MaskByte(run)
    ensures rest != 0 ==> forall k: int :: b != MaskByte(k)
  {
    run, rest := 0, b;
    while And8(rest, 0x80) != 0
      invariant ShiftedBy(b, run, rest)
      decreases 8 - run
    {
      TopBit(rest);
      ShiftStep(b, run, rest);
      rest := Shl8(rest, 1);
      run := run + 1;
    }
    TopBit(rest);
    ShiftCounts(b, run, rest);
    ShiftEnd(b, run, rest);
  }

  lemma MaskPrefix(mask: seq<byte>, i: nat, k: nat)
    requires i <= |mask| && k <= 8 * |mask|
    requires mask == Mask(k, |mask|)
    ensures mask[..i] == Mask(k, i)
  {
  }

  /** The octets before `i` fix the prefix length once the run of ones has ended before `i`. */
  lemma MaskEndedBefore(i: nat, k: nat, k': nat)
    requires k < 8 * i && Mask(k, i) == Mask(k', i)
    ensures k' == k
  {
    var b := k / 8;
    assert Mask(k, i)[b] == Mask(k', i)[b];
    assert MaskByte(k - 8 * b) == MaskByte(k' - 8 * b);
    var c := if k' - 8 * b >= 8 then 8 else if k' - 8 * b <= 0 then 0 else k' - 8 * b;
    assert MaskByte(k' - 8 * b) == MaskByte(c);
    MaskByteInjective(k - 8 * b, c);
    if k' < 8 * b {
      assert Mask(k, i)[b - 1] == Mask(k', i)[b - 1];
      var d := if k' - 8 * (b - 1) <= 0 then 0 else k' - 8 * (b - 1);
      assert MaskByte(k' - 8 * (b - 1)) == MaskByte(d);
      MaskByteInjective(8, d);
    }
  }

  /** A mask with an octet out of place is no mask. */
  lemma NotAMask(mask: seq<byte>, i: nat, k: nat)
    requires i < |mask| && k <= 8 * i && mask[..i] == Mask(k, i)
    requires if k == 8 * i then forall j: int :: mask[i] != MaskByte(j) else mask[i] != 0
    ensures PrefixLength(mask) == None
  {
    if PrefixLength(mask).Some? {
      var k' := PrefixLength(mask).value;
      LeadingOnesIsMask(mask, k');
      assert mask[i] == MaskByte(k' - 8 * i);
      if k < 8 * i {
        MaskPrefix(mask, i, k');
        MaskEndedBefore(i, k, k');
      }
    }
  }

  lemma MaskLengthIs(mask: seq<byte>, k: nat)
    requires k <= 8 * |mask| && mask == Mask(k, |mask|)
    ensures PrefixLength(mask) == Some(k)
  {
    LeadingOnesIsMask(mask, k);
    LeadingOnesUnique(mask, k, PrefixLength(mask).value);
  }

  lemma MaskByteEnds(k: int)
    ensures k >= 8 ==> MaskByte(k) == 0xff
    ensures k <= 0 ==> MaskByte(k) == 0
  {
  }

  lemma MaskExtends(mask: seq<byte>, i: nat, k: nat, k': nat)
    requires i < |mask| && mask[..i] == Mask(k, i)
    requires if k == 8 * i then k <= k' else k < 8 * i && k' == k
    requires mask[i] == MaskByte(k' - 8 * i)
    ensures mask[..i + 1] == Mask(k', i + 1)
  {
  }

  /**
   * `addr_mtob`: the prefix length of a contiguous mask, kept in 16 bits, and `None` for every
   * other byte string. The length is exact for masks of at most 8191 octets.
   */
  method AddrMtob(mask: seq<byte>) returns (r: Option<u16>)
    ensures r.None? <==> PrefixLength(mask).None?
    ensures r.Some? ==> r.value == Low16(PrefixLength(mask).value)
    ensures r.Some? && |mask| <= 8191 ==> r.value == PrefixLength(mask).value
  {
    assert Mask(0, 0) == [];
    assert Low16(0) == 0;
    hide LeadingOnes, MaskByte, Mask, PrefixLength, Low16;
    var bits: u16 := 0;
    var inOnes := true;
    ghost var k: nat := 0;
    for i := 0 to |mask|
      invariant mask[..i] == Mask(k, i)
      invariant if inOnes then k == 8 * i else k < 8 * i
      invariant bits == Low16(k)
    {
      ghost var before := k;
      var b := mask[i];
      if inOnes {
        if b == 0xff {
          Low16Add(k, 8);
          bits := Low16(bits + 8);
          k := k + 8;
          MaskByteEnds(8);
        } else {
          var run, v := LeadingRun(b);
          if v != 0 {
            NotAMask(mask, i, k);
            return None;
          }
          MaskByteEnds(run);
          Low16Add(k, run);
          bits := Low16(bits + run);
          inOnes := false;
          k := k + run;
        }
      } else if b != 0 {
        NotAMask(mask, i, k);
        return None;
      } else {
        MaskByteEnds(k - 8 * i);
      }
      MaskExtends(mask, i, before, k);
    }
    assert mask == mask[..|mask|];
    MaskLengthIs(mask, k);
    Low16Exact(k);
    r := Some(bits);
  }

  /** Index of the first octet that is not 0xff. */
  function FirstPartial(mask: seq<byte>): (i: nat)
    ensures i <= |mask|
    ensures i < |mask| ==> mask[i] != 0xff
    ensures forall j | 0 <= j < i :: mask[j] == 0xff
  {
    if mask == [] || mask[0] != 0xff then 0 else 1 + FirstPartial(mask[1..])
  }

  predicate IsMaskByte(b: byte) { exists k: nat :: k <= 8 && b == MaskByte(k) }

  /** Where a contiguous mask ends. */
  lemma ContiguousEnds(mask: seq<byte>)
    requires PrefixLength(mask).Some?
    ensures var i, n := FirstPartial(mask), PrefixLength(mask).value;
            if i == |mask| then n == 8 * i
            else
              && 8 * i <= n < 8 * i + 8
              && mask[i] == MaskByte(n - 8 * i)
              && forall j | i < j < |mask| :: mask[j] == 0
  {
    var i, n := FirstPartial(mask), PrefixLength(mask).value;
    LeadingOnesIsMask(mask, n);
    if i > 0 {
      assert mask[i - 1] == MaskByte(n - 8 * (i - 1));
      PartialMaskByte(n - 8 * (i - 1));
    }
    if i < |mask| {
      assert mask[i] == MaskByte(n - 8 * i);
    }
  }

  lemma ContiguousBuilds(mask: seq<byte>, i: nat, k: nat)
    requires i <= |mask| && k <= 8 && forall j | 0 <= j < i :: mask[j] == 0xff
    requires if i == |mask| then k == 0 else mask[i] == MaskByte(k)
    requires forall j | i < j < |mask| :: mask[j] == 0
    ensures LeadingOnes(mask, 8 * i + k)
  {
    forall j | 0 <= j < |mask|
      ensures mask[j] == MaskByte(8 * i + k - 8 * j)
    {
    }
    assert mask == Mask(8 * i + k, |mask|);
    LeadingOnesIsMask(mask, 8 * i + k);
  }

  /** A mask is contiguous when its first partial octet is a mask octet and the rest is zero. */
  lemma ContiguousExactly(mask: seq<byte>)
    ensures PrefixLength(mask).Some? <==>
            var i := FirstPartial(mask);
            i < |mask| ==> IsMaskByte(mask[i]) && forall j | i < j < |mask| :: mask[j] == 0
  {
    var i := FirstPartial(mask);
    if PrefixLength(mask).Some? {
      ContiguousEnds(mask);
    }
    if i == |mask| {
      ContiguousBuilds(mask, i, 0);
    } else if IsMaskByte(mask[i]) && forall j | i < j < |mask| :: mask[j] == 0 {
      var k: nat :| k <= 8 && mask[i] == MaskByte(k);
      ContiguousBuilds(mask, i, k);
    }
  }

  lemma PartialMaskByte(k: int)
    ensures MaskByte(k) == 0xff <==> k >= 8
  {
    if 0 <= k < 8 {
      MaskByteValue(k);
      Pow2Add(8 - k - 1, 1);
      Pow2Small();
    }
  }

  lemma {:induction false} FirstPartialIs(mask: seq<byte>, i: nat)
    requires i <= |mask| && forall j | 0 <= j < i :: mask[j] == 0xff
    requires i < |mask| ==> mask[i] != 0xff
    ensures FirstPartial(mask) == i
  {
    if i > 0 {
      FirstPartialIs(mask[1..], i - 1);
    }
  }

  /** The leading ones of a mask octet. */
  ghost function OnesIn(b: byte): (k: nat)
    requires IsMaskByte(b)
    ensures k <= 8 && b == MaskByte(k)
  {
    var k: nat :| k <= 8 && b == MaskByte(k);
    k
  }

  /**
   * What `mask_to_bits` answers. It reads only up to the first octet that is not 0xff: its leading
   * ones count when nothing else is set in it, and the answer is 0 otherwise.
   */
  ghost function MaskBits(mask: Octets): nat {
    var i := FirstPartial(mask);
    if i == ADDR_LEN then 128
    else if IsMaskByte(mask[i]) then 8 * i + OnesIn(mask[i])
    else 0
  }

  /** On a contiguous mask the answer is its prefix length. */
  lemma MaskBitsOfPrefix(mask: Octets)
    requires PrefixLength(mask).Some?
    ensures MaskBits(mask) == PrefixLength(mask).value
  {
    ContiguousEnds(mask);
    var i, n := FirstPartial(mask), PrefixLength(mask).value;
    if i < ADDR_LEN {
      assert IsMaskByte(mask[i]);
      MaskByteInjective(OnesIn(mask[i]), n - 8 * i);
    }
  }

  /** A mask with gaps gets 0 exactly when its first partial octet is no mask octet or its first octet is zero. */
  lemma MaskBitsRejectsExactly(mask: Octets)
    requires PrefixLength(mask).None?
    ensures FirstPartial(mask) < ADDR_LEN
    ensures MaskBits(mask) == 0 <==> !IsMaskByte(mask[FirstPartial(mask)]) || mask[0] == 0
  {
    var i := FirstPartial(mask);
    ContiguousExactly(mask);
    assert MaskByte(0) == 0;
    if IsMaskByte(mask[i]) {
      if mask[0] == 0 {
        assert i == 0;
        MaskByteInjective(OnesIn(mask[i]), 0);
      } else if i == 0 {
        assert OnesIn(mask[i]) != 0;
      }
    }
  }

  /** `mask_to_bits`, the exact answer on every mask and the prefix length on contiguous ones. */
  method MaskToBits(mask: Octets) returns (bits: u16)
    ensures bits as int == MaskBits(mask)
    ensures PrefixLength(mask).Some? ==> bits as int == PrefixLength(mask).value
  {
    bits := 0;
    if PrefixLength(mask).Some? {
      MaskBitsOfPrefix(mask);
    }
    for i := 0 to 16
      invariant bits == 8 * i
      invariant forall j | 0 <= j < i :: mask[j] == 0xff
    {
      var b := mask[i];
      if b == 0xff {
        bits := bits + 8;
        continue;
      }
      FirstPartialIs(mask, i);
      var count, v := LeadingRun(b);
      if v != 0 && b != 0 {
        assert !IsMaskByte(b);
        return 0;
      }
      assert MaskByte(0) == 0;
      assert IsMaskByte(b);
      MaskByteInjective(count, OnesIn(b));
      bits := bits + count;
      return;
    }
    FirstPartialIs(mask, 16);
  }

  /** Where `addr_mtob` answers `None`, `mask_to_bits` may still report a length: here 8. */
  lemma MaskToBitsAcceptsGaps()
    ensures var mask: Octets := [0xff, 0, 0xff] + seq(13, _ => 0);
            PrefixLength(mask).None? && MaskBits(mask) == 8
  {
    var mask: Octets := [0xff, 0, 0xff] + seq(13, _ => 0);
    FirstPartialIs(mask, 1);
    ContiguousExactly(mask);
    assert mask[2] != 0;
    assert MaskByte(0) == 0;
    assert IsMaskByte(mask[1]);
    MaskByteInjective(OnesIn(mask[1]), 0);
  }
}
