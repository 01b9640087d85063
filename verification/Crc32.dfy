/** The checksum of src/persistence/rdb.cpp: a table of 256 entries against division one bit at a time
    (section 8 of RFC 1952).  Words are sequences of bits, lowest first. */
module Crc32 {
  import opened Common
  import opened Words

  type Bits = seq<bool>

  /** The k low bits of a number. */
  function NatBits(n: nat, k: nat): (r: Bits)
    ensures |r| == k
    decreases k, n
  {
    if k == 0 then [] else [n % 2 == 1] + NatBits(n / 2, k - 1)
  }

  lemma {:induction false} NatBitsVal(bits: Bits)
    ensures NatBits(Val(bits), |bits|) == bits
  {
    if bits != [] { NatBitsVal(bits[1..]); }
  }

  function Zeros(n: nat): (r: Bits)
    ensures |r| == n && forall i :: 0 <= i < n ==> !r[i]
  {
    seq(n, _ => false)
  }

  function Ones32(): (r: Bits)
    ensures |r| == 32
  {
    seq(32, _ => true)
  }

  function Xor(a: Bits, b: Bits): (r: Bits)
    requires |a| == |b|
    ensures |r| == |a| && forall i :: 0 <= i < |a| ==> r[i] == (a[i] != b[i])
  {
    seq(|a|, i requires 0 <= i < |a| => a[i] != b[i])
  }

  /** `c >> n` */
  function Shr(c: Bits, n: nat): (r: Bits)
    requires n <= |c|
    ensures |r| == |c|
  {
    c[n..] + Zeros(n)
  }

  const POLY := 0xEDB8_8320

  function Poly(): (r: Bits)
    ensures |r| == 32
  {
    NatBits(POLY, 32)
  }

  // ---- the reference: one bit at a time -------------------------------------------------

  type Word32 = w: Bits | |w| == 32 witness Zeros(32)

  /** The low bit leaves; if it differs from the message bit, the polynomial is subtracted. */
  function DivideBit(c: Word32, bit: bool): Word32 {
    if c[0] != bit then Xor(Shr(c, 1), Poly()) else Shr(c, 1)
  }

  function DivideBits(c: Word32, bits: Bits): Word32
    decreases |bits|
  {
    if bits == [] then c else DivideBits(DivideBit(c, bits[0]), bits[1..])
  }

  /** Every byte gives its bits lowest first. */
  function Message(data: Bytes): Bits {
    if data == [] then [] else Message(data[..|data| - 1]) + NatBits(data[|data| - 1], 8)
  }

  /** The checksum as the RFC defines it: complemented before and after. */
  function Reference(data: Bytes): Word32 {
    Xor(DivideBits(Ones32(), Message(data)), Ones32())
  }

  // ---- the code ----------------------------------------------------------------------------

  function Shift(c: Word32): Word32 {
    if c[0] then Xor(Shr(c, 1), Poly()) else Shr(c, 1)
  }

  function Shifts(c: Word32, k: nat): Word32
    decreases k, c
  {
    if k == 0 then c else Shifts(Shift(c), k - 1)
  }

  lemma {:induction false} ShiftsSnoc(c: Word32, k: nat)
    ensures Shifts(c, k + 1) == Shift(Shifts(c, k))
    decreases k
  {
    if k > 0 { ShiftsSnoc(Shift(c), k - 1); }
  }

  /** Bits in the low places of a word. */
  function Pad(bits: Bits): (w: Word32)
    requires |bits| <= 32
  {
    bits + Zeros(32 - |bits|)
  }

  function Entry(i: nat): Word32 {
    Shifts(Pad(NatBits(i, 8)), 8)
  }

  ghost predicate IsTable(table: seq<Word32>) {
    forall i :: 0 <= i < |table| ==> table[i] == Entry(i)
  }

  /** `crc32_init` */
  method Init() returns (table: seq<Word32>)
    ensures |table| == 256 && IsTable(table)
  {
    hide NatBits, Poly, Pad, Xor, Shr;
    table := [];
    while |table| < 256
      invariant |table| <= 256 && IsTable(table)
    {
      var start := Pad(NatBits(|table|, 8));
      var crc, j := start, 0;
      while j < 8
        invariant 0 <= j <= 8 && crc == Shifts(start, j)
      {
        ShiftsSnoc(start, j);
        crc := if crc[0] then Xor(Shr(crc, 1), Poly()) else Shr(crc, 1);
        j := j + 1;
      }
      table := table + [crc];
    }
  }

  /** `(crc ^ b) & 0xFF` */
  function Index(crc: Word32, b: Byte): (i: nat)
    ensures i < 256
  {
    assert Pow2(8) == 256;
    Val(Xor(crc[..8], NatBits(b, 8)))
  }

  /** `crc32_compute` */
  method Compute(table: seq<Word32>, data: Bytes) returns (crc: Word32)
    requires |table| == 256 && IsTable(table)
    ensures crc == Reference(data)
  {
    crc := Ones32();
    var i := 0;
    while i < |data|
      invariant 0 <= i <= |data| && crc == DivideBits(Ones32(), Message(data[..i]))
    {
      TableStep(crc, data[i]);
      NextByte(data, i, crc);
      crc := Xor(Shr(crc, 8), table[Index(crc, data[i])]);
      i := i + 1;
    }
    assert data[..i] == data;
    crc := Xor(crc, Ones32());
  }

  lemma NextByte(data: Bytes, i: nat, crc: Word32)
    requires i < |data| && crc == DivideBits(Ones32(), Message(data[..i]))
    ensures DivideBits(Ones32(), Message(data[..i + 1])) == DivideBits(crc, NatBits(data[i], 8))
  {
    DividedInTurn(Ones32(), Message(data[..i]), NatBits(data[i], 8));
    assert data[..i + 1][..i] == data[..i];
  }

  lemma {:induction false} DividedInTurn(c: Word32, a: Bits, b: Bits)
    ensures DivideBits(c, a + b) == DivideBits(DivideBits(c, a), b)
    decreases |a|
  {
    if a == [] {
      assert a + b == b;
    } else {
      assert (a + b)[1..] == a[1..] + b;
      DividedInTurn(DivideBit(c, a[0]), a[1..], b);
    }
  }

  // ---- linearity of the shift over xor ---------------------------------------------------------

  lemma ShiftLinear(a: Word32, b: Word32)
    ensures Shift(Xor(a, b)) == Xor(Shift(a), Shift(b))
  {
  }

  lemma {:induction false} ShiftsLinear(a: Word32, b: Word32, k: nat)
    ensures Shifts(Xor(a, b), k) == Xor(Shifts(a, k), Shifts(b, k))
    decreases k
  {
    if k > 0 {
      ShiftLinear(a, b);
      ShiftsLinear(Shift(a), Shift(b), k - 1);
    }
  }

  /** Adding a message before the shift or its first bit during it. */
  lemma ShiftFeeds(c: Word32, p: Word32)
    ensures Shift(Xor(c, p)) == Xor(DivideBit(c, p[0]), Shr(p, 1))
  {
  }

  /** Feeding bits one by one is the same as adding them all first and shifting then. */
  lemma {:induction false} FeedBits(c: Word32, bits: Bits)
    requires |bits| <= 32
    ensures DivideBits(c, bits) == Shifts(Xor(c, Pad(bits)), |bits|)
    decreases |bits|
  {
    if bits == [] {
      assert Xor(c, Pad(bits)) == c;
    } else {
      FeedOne(c, bits);
      FeedBits(DivideBit(c, bits[0]), bits[1..]);
    }
  }

  lemma FeedOne(c: Word32, bits: Bits)
    requires 0 < |bits| <= 32
    ensures Shift(Xor(c, Pad(bits))) == Xor(DivideBit(c, bits[0]), Pad(bits[1..]))
  {
    ShiftFeeds(c, Pad(bits));
    assert Shr(Pad(bits), 1) == Pad(bits[1..]);
  }

  /** A value without low bits is only shifted. */
  lemma {:induction false} HighShifts(a: Word32, k: nat)
    requires k <= 32 && forall i :: 0 <= i < k ==> !a[i]
    ensures Shifts(a, k) == Shr(a, k)
    decreases k
  {
    if k == 0 {
      assert Shr(a, 0) == a;
    } else {
      ShiftPlain(a, k);
      HighShifts(Shr(a, 1), k - 1);
    }
  }

  lemma ShiftPlain(a: Word32, k: nat)
    requires 0 < k <= 32 && forall i :: 0 <= i < k ==> !a[i]
    ensures Shift(a) == Shr(a, 1) && (forall i :: 0 <= i < k - 1 ==> !Shr(a, 1)[i])
    ensures Shr(Shr(a, 1), k - 1) == Shr(a, k)
  {
  }

  lemma XorParts(c: Word32, bits: Bits)
    requires |bits| <= 32
    ensures var hi: Word32 := Zeros(|bits|) + c[|bits|..];
            Xor(c, Pad(bits)) == Xor(hi, Pad(Xor(c[..|bits|], bits))) && Shr(hi, |bits|) == Shr(c, |bits|)
  {
  }

  /** The low bits and the rest of a word go their own ways. */
  lemma LowStep(c: Word32, bits: Bits)
    requires |bits| <= 32
    ensures DivideBits(c, bits) == Xor(Shr(c, |bits|), Shifts(Pad(Xor(c[..|bits|], bits)), |bits|))
  {
    var k := |bits|;
    var hi: Word32, low := Zeros(k) + c[k..], Pad(Xor(c[..k], bits));
    FeedBits(c, bits);
    XorParts(c, bits);
    ShiftsLinear(hi, low, k);
    HighShifts(hi, k);
  }

  /** One lookup does the work of eight bits. */
  lemma TableStep(c: Word32, b: Byte)
    ensures DivideBits(c, NatBits(b, 8)) == Xor(Shr(c, 8), Entry(Index(c, b)))
  {
    LowStep(c, NatBits(b, 8));
    NatBitsVal(Xor(c[..8], NatBits(b, 8)));
  }
}
