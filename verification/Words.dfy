/** 64-bit words as sequences of bits, lowest bit first. */
module Words {
  type Word = w: seq<bool> | |w| == 64 witness seq(64, i => false)

  function Pow2(k: nat): (p: nat)
    ensures p >= 1
  {
    if k == 0 then 1 else 2 * Pow2(k - 1)
  }

  function Bit(b: bool): nat { if b then 1 else 0 }

  /** The number a bit string denotes, lowest bit first. */
  function Val(w: seq<bool>): (v: nat)
    ensures v < Pow2(|w|)
  {
    if w == [] then 0 else Bit(w[0]) + 2 * Val(w[1..])
  }

  /** The number denoted by the reversed bit string. */
  function RVal(w: seq<bool>): (v: nat)
    ensures v < Pow2(|w|)
  {
    if w == [] then 0 else Bit(w[0]) * Pow2(|w| - 1) + RVal(w[1..])
  }

  lemma {:induction false} PowAdd(a: nat, b: nat)
    ensures Pow2(a + b) == Pow2(a) * Pow2(b)
  {
    if a > 0 { PowAdd(a - 1, b); }
  }

  lemma Distribute(a: int, b: int, c: int)
    ensures (a + b) * c == a * c + b * c
  {
  }

  lemma RValHead(w: seq<bool>)
    requires w != []
    ensures RVal(w) == (if w[0] then Pow2(|w| - 1) else 0) + RVal(w[1..])
  {
  }

  lemma {:induction false} RValSplit(u: seq<bool>, v: seq<bool>)
    ensures RVal(u + v) == RVal(u) * Pow2(|v|) + RVal(v)
  {
    if u == [] {
      assert u + v == v;
    } else {
      var high := if u[0] then Pow2(|u| - 1) else 0;
      RValHead(u);
      RValHead(u + v);
      assert (u + v)[1..] == u[1..] + v;
      PowAdd(|u| - 1, |v|);
      Distribute(high, RVal(u[1..]), Pow2(|v|));
      RValSplit(u[1..], v);
    }
  }

  function Reverse(w: seq<bool>): seq<bool> {
    seq(|w|, i requires 0 <= i < |w| => w[|w| - 1 - i])
  }

  lemma {:induction false} ValSnoc(u: seq<bool>, b: bool)
    ensures Val(u + [b]) == Val(u) + Bit(b) * Pow2(|u|)
  {
    if u == [] {
      assert [b][1..] == [];
    } else {
      assert (u + [b])[1..] == u[1..] + [b];
      ValSnoc(u[1..], b);
    }
  }

  lemma {:induction false} ValReverse(w: seq<bool>)
    ensures Val(Reverse(w)) == RVal(w)
  {
    if w != [] {
      ValReverse(w[1..]);
      assert Reverse(w) == Reverse(w[1..]) + [w[0]];
      ValSnoc(Reverse(w[1..]), w[0]);
    }
  }

  /** Adding one, wrapping around. */
  function Inc(w: seq<bool>): (r: seq<bool>)
    ensures |r| == |w|
  {
    if w == [] then [] else if w[0] then [false] + Inc(w[1..]) else [true] + w[1..]
  }

  lemma {:induction false} IncVal(w: seq<bool>)
    ensures Val(Inc(w)) == (if Val(w) + 1 == Pow2(|w|) then 0 else Val(w) + 1)
  {
    if w != [] {
      IncVal(w[1..]);
      if w[0] {
        assert Inc(w)[1..] == Inc(w[1..]);
      } else {
        assert Inc(w)[1..] == w[1..];
      }
    }
  }

  // ---- rev_bits ----------------------------------------------------------------

  /** `v >> s`, `v << s`, `a & b` and `a | b` on words of one length. */
  function Shr(v: seq<bool>, s: nat): (r: seq<bool>)
    ensures |r| == |v|
  {
    seq(|v|, i requires 0 <= i < |v| => i + s < |v| && v[i + s])
  }

  function Shl(v: seq<bool>, s: nat): (r: seq<bool>)
    ensures |r| == |v|
  {
    seq(|v|, i requires 0 <= i < |v| => i >= s && v[i - s])
  }

  function And(a: seq<bool>, b: seq<bool>): (r: seq<bool>)
    requires |a| == |b|
    ensures |r| == |a|
  {
    seq(|a|, i requires 0 <= i < |a| => a[i] && b[i])
  }

  function Or(a: seq<bool>, b: seq<bool>): (r: seq<bool>)
    requires |a| == |b|
    ensures |r| == |a|
  {
    seq(|a|, i requires 0 <= i < |a| => a[i] || b[i])
  }

  /** Every second block of s bits, in n bits. */
  function Mask(s: nat, n: nat): (r: seq<bool>)
    requires s > 0
    ensures |r| == n
  {
    seq(n, i requires 0 <= i < n => i % (2 * s) < s)
  }

  /** `((v >> s) & M) | ((v & M) << s)` */
  function MaskSwap(v: seq<bool>, s: nat): (r: seq<bool>)
    requires s > 0
    ensures |r| == |v|
  {
    var m := Mask(s, |v|);
    Or(And(Shr(v, s), m), Shl(And(v, m), s))
  }

  /** Neighbouring blocks of s bits change places. */
  function SwapBlocks(v: seq<bool>, s: nat): (r: seq<bool>)
    requires s > 0
    ensures |r| == |v|
  {
    if |v| < 2 * s then v else v[s..2 * s] + v[..s] + SwapBlocks(v[2 * s..], s)
  }

  lemma ModUnique(x: nat, d: nat, q: nat, j: nat)
    requires d > 0 && j < d && x == q * d + j
    ensures x % d == j && x / d == q
  {
    var q', j' := x / d, x % d;
    assert x == q' * d + j';
    if q' < q { LessTimes(q', q, d); } else if q < q' { LessTimes(q, q', d); }
  }

  /** Bit j of the even block q takes the bit s places up, the odd one the bit s places down. */
  lemma {:induction false} SwapBlocksAt(v: seq<bool>, s: nat, d: nat, q: nat, j: nat, at: nat)
    requires s > 0 && d == 2 * s && j < s && at == q * d + j && at - j + d <= |v|
    ensures var r := SwapBlocks(v, s); r[at] == v[at + s] && r[at + s] == v[at]
    decreases q
  {
    if q > 0 {
      Distribute(q - 1, 1, d);
      SwapBlocksAt(v[d..], s, d, q - 1, j, at - d);
      LaterBlock(v, s, d, at - d);
    }
  }

  lemma LaterBlock(v: seq<bool>, s: nat, d: nat, at: nat)
    requires s > 0 && d == 2 * s && at + d + s < |v|
    ensures var r, rest := SwapBlocks(v, s), SwapBlocks(v[d..], s);
            r[at + d] == rest[at] && r[at + d + s] == rest[at + s] && v[d..][at] == v[at + d]
            && v[d..][at + s] == v[at + d + s]
  {
    var first, rest := v[s..d] + v[..s], SwapBlocks(v[d..], s);
    assert SwapBlocks(v, s) == first + rest;
    assert |first| == d;
  }

  /** The masks and shifts swap the blocks. */
  lemma MaskSwaps(v: seq<bool>, s: nat, n: nat)
    requires s > 0 && |v| == n * (2 * s)
    ensures MaskSwap(v, s) == SwapBlocks(v, s)
  {
    forall i | 0 <= i < |v| ensures MaskSwap(v, s)[i] == SwapBlocks(v, s)[i] { MaskSwapAt(v, s, 2 * s, n, i); }
  }

  lemma MaskSwapBit(v: seq<bool>, s: nat, i: nat)
    requires s > 0 && i < |v|
    ensures MaskSwap(v, s)[i] ==
            ((i % (2 * s) < s && i + s < |v| && v[i + s]) || (i >= s && (i - s) % (2 * s) < s && v[i - s]))
  {
  }

  /** Bit i of an even block, and the bit s places up. */
  lemma MaskSwapPair(v: seq<bool>, s: nat, d: nat, q: nat, j: nat, i: nat)
    requires s > 0 && d == 2 * s && i == q * d + j && j < s && i + s < |v|
    ensures MaskSwap(v, s)[i] == v[i + s] && MaskSwap(v, s)[i + s] == v[i]
  {
    MaskSwapBit(v, s, i);
    MaskSwapBit(v, s, i + s);
    ModUnique(i, d, q, j);
    ModUnique(i + s, d, q, j + s);
    if i >= s { LowBefore(i, s, d, q, j); }
  }

  lemma MaskSwapAt(v: seq<bool>, s: nat, d: nat, n: nat, i: nat)
    requires s > 0 && d == 2 * s && |v| == n * d && i < |v|
    ensures MaskSwap(v, s)[i] == SwapBlocks(v, s)[i]
  {
    var q, j := i / d, i % d;
    DivMod(i, d);
    InBlock(i, d, n, q, j);
    if j < s { PairAgrees(v, s, d, q, j, i); } else { PairAgrees(v, s, d, q, j - s, i - s); }
  }

  lemma DivMod(i: nat, d: nat)
    requires d > 0
    ensures i == (i / d) * d + i % d && 0 <= i % d < d && i / d >= 0
  {
  }

  lemma PairAgrees(v: seq<bool>, s: nat, d: nat, q: nat, j: nat, at: nat)
    requires s > 0 && d == 2 * s && j < s && at == q * d + j && at - j + d <= |v|
    ensures MaskSwap(v, s)[at] == SwapBlocks(v, s)[at] && MaskSwap(v, s)[at + s] == SwapBlocks(v, s)[at + s]
  {
    MaskSwapPair(v, s, d, q, j, at);
    SwapBlocksAt(v, s, d, q, j, at);
  }

  lemma InBlock(i: nat, d: nat, n: nat, q: nat, j: nat)
    requires d > 0 && i == q * d + j && j < d && i < n * d
    ensures q * d + d <= n * d
  {
    if q >= n { if q > n { LessTimes(n, q, d); } } else { LessTimes(q, n, d); }
  }

  /** s places below a bit of an even block is a bit of an odd one. */
  lemma LowBefore(i: nat, s: nat, d: nat, q: nat, j: nat)
    requires s > 0 && d == 2 * s && i == q * d + j && j < s <= i
    ensures (i - s) % d >= s
  {
    assert q > 0;
    Distribute(q - 1, 1, d);
    ModUnique(i - s, d, q - 1, j + s);
  }

  /** `rev_bits`: five masked swaps, and a sixth that needs no mask. */
  function RevBits(v: seq<bool>): (r: seq<bool>)
    ensures |r| == |v|
  {
    var w := MaskSwap(MaskSwap(MaskSwap(MaskSwap(MaskSwap(v, 1), 2), 4), 8), 16);
    Or(Shr(w, 32), Shl(w, 32))
  }

  /** Every block of s bits reversed in itself. */
  function RevEach(v: seq<bool>, s: nat): (r: seq<bool>)
    requires s > 0
    ensures |r| == |v|
  {
    if |v| < s then v else Reverse(v[..s]) + RevEach(v[s..], s)
  }

  lemma Chunk(u: seq<bool>, w: seq<bool>, rest: seq<bool>, s: nat)
    requires s > 0 && |u| == s && |w| == s
    ensures SwapBlocks(u + (w + rest), s) == w + u + SwapBlocks(rest, s)
  {
    var v := u + (w + rest);
    assert v[s..2 * s] == w && v[..s] == u && v[2 * s..] == rest;
  }

  lemma ReverseConcat(u: seq<bool>, w: seq<bool>)
    ensures Reverse(u + w) == Reverse(w) + Reverse(u)
  {
  }

  /** Swapping reversed blocks of s gives reversed blocks of 2 * s. */
  lemma {:induction false} SwapRevEach(v: seq<bool>, s: nat, n: nat)
    requires s > 0 && |v| == n * (2 * s)
    ensures SwapBlocks(RevEach(v, s), s) == RevEach(v, 2 * s)
    decreases n
  {
    if n > 0 {
      Distribute(n - 1, 1, 2 * s);
      var a, b, rest := v[..s], v[s..2 * s], v[2 * s..];
      assert v[s..][..s] == b && v[s..][s..] == rest && v[..2 * s] == a + b;
      Chunk(Reverse(a), Reverse(b), RevEach(rest, s), s);
      ReverseConcat(a, b);
      SwapRevEach(rest, s, n - 1);
    }
  }

  lemma {:induction false} RevEachOne(v: seq<bool>)
    ensures RevEach(v, 1) == v
  {
    if v != [] {
      RevEachOne(v[1..]);
      assert Reverse(v[..1]) == v[..1];
    }
  }

  /** The halves of a word change places. */
  lemma HalvesSwap(w: Word)
    ensures Or(Shr(w, 32), Shl(w, 32)) == SwapBlocks(w, 32)
  {
    assert w[64..] == [] && SwapBlocks([], 32) == [];
    assert SwapBlocks(w, 32) == w[32..64] + w[..32] + SwapBlocks(w[64..], 32);
  }

  /** One swap of `rev_bits`, on blocks that are already reversed. */
  lemma RevStep(v: Word, s: nat, n: nat)
    requires s > 0 && n * (2 * s) == 64
    ensures MaskSwap(RevEach(v, s), s) == RevEach(v, 2 * s)
  {
    MaskSwaps(RevEach(v, s), s, n);
    SwapRevEach(v, s, n);
  }

  /** `rev_bits` reverses the 64 bits. */
  lemma RevBitsReverses(v: Word)
    ensures RevBits(v) == Reverse(v)
  {
    RevEachOne(v);
    RevStep(v, 1, 32);
    RevStep(v, 2, 16);
    RevStep(v, 4, 8);
    RevStep(v, 8, 4);
    RevStep(v, 16, 2);
    HalvesSwap(RevEach(v, 32));
    SwapRevEach(v, 32, 1);
    assert v[..64] == v && v[64..] == [];
  }

  /** The masks are the constants of the source. */
  lemma MasksAre()
    ensures Val(Mask(1, 64)) == 0x5555_5555_5555_5555 && Val(Mask(2, 64)) == 0x3333_3333_3333_3333
    ensures Val(Mask(4, 64)) == 0x0F0F_0F0F_0F0F_0F0F && Val(Mask(8, 64)) == 0x00FF_00FF_00FF_00FF
    ensures Val(Mask(16, 64)) == 0x0000_FFFF_0000_FFFF
  {
    Widths();
    MaskBase(1);
    MaskBase(2);
    MaskBase(4);
    MaskBase(8);
    MaskBase(16);
    MaskTwice(1, 2, 1);
    MaskTwice(1, 4, 2);
    MaskTwice(1, 8, 4);
    MaskTwice(1, 16, 8);
    MaskTwice(1, 32, 16);
    MaskTwice(2, 4, 1);
    MaskTwice(2, 8, 2);
    MaskTwice(2, 16, 4);
    MaskTwice(2, 32, 8);
    MaskTwice(4, 8, 1);
    MaskTwice(4, 16, 2);
    MaskTwice(4, 32, 4);
    MaskTwice(8, 16, 1);
    MaskTwice(8, 32, 2);
    MaskTwice(16, 32, 1);
  }

  lemma Widths()
    ensures Pow2(1) == 2 && Pow2(2) == 4 && Pow2(4) == 16 && Pow2(8) == 256 && Pow2(16) == 0x1_0000
    ensures Pow2(32) == 0x1_0000_0000
  {
    assert Pow2(2) == 2 * Pow2(1) && Pow2(1) == 2 * Pow2(0);
    PowAdd(2, 2);
    PowAdd(4, 4);
    PowAdd(8, 8);
    PowAdd(16, 16);
  }

  lemma {:induction false} ValConcat(u: seq<bool>, v: seq<bool>)
    ensures Val(u + v) == Val(u) + Val(v) * Pow2(|u|)
  {
    if u == [] {
      assert u + v == v;
    } else {
      assert (u + v)[1..] == u[1..] + v;
      ValConcat(u[1..], v);
      ConsVal(u, v);
      ValStep(Bit(u[0]), Val(u[1..]), Val(v), Pow2(|u| - 1), Val(u[1..] + v));
    }
  }

  lemma ConsVal(u: seq<bool>, v: seq<bool>)
    requires u != []
    ensures Val(u) == Bit(u[0]) + 2 * Val(u[1..]) && Val(u + v) == Bit(u[0]) + 2 * Val(u[1..] + v)
    ensures Pow2(|u|) == 2 * Pow2(|u| - 1)
  {
    assert (u + v)[1..] == u[1..] + v;
  }

  lemma ValStep(b: nat, a: nat, x: nat, p: nat, r: nat)
    requires r == a + x * p
    ensures b + 2 * r == b + 2 * a + x * (2 * p)
  {
  }

  lemma {:induction false} ValZeros(n: nat)
    ensures Val(seq(n, i => false)) == 0
  {
    if n > 0 {
      assert seq(n, i => false)[1..] == seq(n - 1, i => false);
      ValZeros(n - 1);
    }
  }

  lemma {:induction false} ValOnes(n: nat)
    ensures Val(Ones(n)) == Pow2(n) - 1
  {
    if n > 0 {
      assert Ones(n)[1..] == Ones(n - 1);
      ValOnes(n - 1);
    }
  }

  lemma MaskBase(s: nat)
    requires s > 0
    ensures Val(Mask(s, 2 * s)) == Pow2(s) - 1
  {
    var z := seq(s, i => false);
    forall i | 0 <= i < 2 * s ensures i % (2 * s) == i { ModUnique(i, 2 * s, 0, i); }
    assert Mask(s, 2 * s) == Ones(s) + z;
    ValConcat(Ones(s), z);
    ValOnes(s);
    ValZeros(s);
  }

  lemma MaskTwice(s: nat, n: nat, k: nat)
    requires s > 0 && n == k * (2 * s)
    ensures Val(Mask(s, 2 * n)) == Val(Mask(s, n)) + Val(Mask(s, n)) * Pow2(n)
  {
    forall i | 0 <= i < n ensures (i + n) % (2 * s) == i % (2 * s) { ModShift(i, k, 2 * s); }
    assert Mask(s, 2 * n) == Mask(s, n) + Mask(s, n);
    ValConcat(Mask(s, n), Mask(s, n));
  }

  lemma ModShift(i: nat, k: nat, d: nat)
    requires d > 0
    ensures (i + k * d) % d == i % d
  {
    var q, j := i / d, i % d;
    assert i == q * d + j;
    Distribute(q, k, d);
    ModUnique(i + k * d, d, q + k, j);
  }

  // ---- the reversed cursor -----------------------------------------------------

  function Ones(n: nat): (r: seq<bool>)
    ensures |r| == n
  {
    seq(n, i => true)
  }

  /** `c | ~(2^k - 1)` */
  function SetAbove(c: Word, k: nat): Word
    requires k <= 64
  {
    c[..k] + Ones(64 - k)
  }

  /** `cursor |= ~mbig; cursor = rev_bits(cursor); cursor += 1; cursor = rev_bits(cursor);` */
  function NextCursor(c: Word, k: nat): Word
    requires k <= 64
  {
    RevBitsReverses(SetAbove(c, k));
    RevBitsReverses(Inc(RevBits(SetAbove(c, k))));
    RevBits(Inc(RevBits(SetAbove(c, k))))
  }

  lemma {:induction false} RValOnes(n: nat)
    ensures RVal(Ones(n)) == Pow2(n) - 1
  {
    if n > 0 {
      assert Ones(n)[1..] == Ones(n - 1);
      RValOnes(n - 1);
    }
  }

  lemma {:induction false} RValInjective(u: seq<bool>, v: seq<bool>)
    requires |u| == |v| && RVal(u) == RVal(v)
    ensures u == v
  {
    if u != [] {
      assert u[0] == v[0];
      RValInjective(u[1..], v[1..]);
    }
  }

  /** The high-order part of a reversed word is the reversed low-order part of the word. */
  lemma RValHigh(w: Word, k: nat)
    requires k <= 64
    ensures RVal(w) == RVal(w[..k]) * Pow2(64 - k) + RVal(w[k..]) && RVal(w[k..]) < Pow2(64 - k)
  {
    assert w == w[..k] + w[k..];
    RValSplit(w[..k], w[k..]);
  }

  lemma LessTimes(a: int, b: int, q: int)
    requires a < b && q > 0
    ensures a * q + q <= b * q
  {
    var d := b - a - 1;
    Distribute(a, 1, q);
    Distribute(a + 1, d, q);
    assert d * q >= 0;
  }

  lemma ByHigh(p: int, r: int, p': int, r': int, q: int)
    requires 0 <= r < q && 0 <= r' < q && p < p'
    ensures p * q + r < p' * q + r'
  {
    LessTimes(p, p', q);
  }

  lemma RValSetAbove(c: Word, k: nat)
    requires k <= 64
    ensures RVal(SetAbove(c, k)) + 1 == (RVal(c[..k]) + 1) * Pow2(64 - k)
  {
    RValSplit(c[..k], Ones(64 - k));
    RValOnes(64 - k);
    Distribute(RVal(c[..k]), 1, Pow2(64 - k));
  }

  lemma RValReverse(w: seq<bool>)
    ensures RVal(Reverse(w)) == Val(w)
  {
    ValReverse(Reverse(w));
    assert Reverse(Reverse(w)) == w;
  }

  lemma RValReverseInc(w: seq<bool>)
    ensures RVal(Reverse(Inc(Reverse(w)))) == if RVal(w) + 1 == Pow2(|w|) then 0 else RVal(w) + 1
  {
    ValReverse(w);
    IncVal(Reverse(w));
    RValReverse(Inc(Reverse(w)));
  }

  lemma NextCursorIs(c: Word, k: nat)
    requires k <= 64
    ensures NextCursor(c, k) == Reverse(Inc(Reverse(SetAbove(c, k))))
  {
    var w: Word := SetAbove(c, k);
    assert RevBits(w) == Reverse(w) by { RevBitsReverses(w); }
    var n: Word := Inc(Reverse(w));
    assert RevBits(n) == Reverse(n) by { RevBitsReverses(n); }
  }

  /** The start, in reversed order, of the bucket after the one of c, or 0 after the last one. */
  ghost function NextStart(c: Word, k: nat): nat
    requires k <= 64
  {
    if RVal(c[..k]) + 1 == Pow2(k) then 0 else (RVal(c[..k]) + 1) * Pow2(64 - k)
  }

  lemma AfterSetAbove(c: Word, k: nat)
    requires k <= 64
    ensures var w: Word := SetAbove(c, k); (if RVal(w) + 1 == Pow2(|w|) then 0 else RVal(w) + 1) == NextStart(c, k)
  {
    RValSetAbove(c, k);
    StartOrZero(RVal(SetAbove(c, k)), RVal(c[..k]), k, |SetAbove(c, k)|);
  }

  lemma StartOrZero(top: nat, p: nat, k: nat, n: nat)
    requires k <= n && p < Pow2(k) && top + 1 == (p + 1) * Pow2(n - k)
    ensures (if top + 1 == Pow2(n) then 0 else top + 1) == if p + 1 == Pow2(k) then 0 else (p + 1) * Pow2(n - k)
  {
    LastStart(p, k, n);
  }

  /** In reversed order the next cursor is the start of the next bucket, or 0 after the last one. */
  lemma NextCursorVal(c: Word, k: nat)
    requires k <= 64
    ensures RVal(NextCursor(c, k)) == NextStart(c, k)
  {
    NextCursorIs(c, k);
    RValReverseInc(SetAbove(c, k));
    AfterSetAbove(c, k);
  }

  lemma LastStart(p: nat, k: nat, n: nat)
    requires k <= n && p < Pow2(k)
    ensures (p + 1) * Pow2(n - k) == Pow2(n) <==> p + 1 == Pow2(k)
  {
    PowAdd(k, n - k);
    if p + 1 < Pow2(k) { LessTimes(p + 1, Pow2(k), Pow2(n - k)); }
  }

  /** n is the start of the interval after p, in units of q, or 0 after the last of m intervals. */
  lemma NextInterval(p: nat, m: nat, q: nat, n: nat, rc: nat, ph: nat, rh: nat)
    requires p < m && ph < m && rc < q && rh < q
    requires n == if p + 1 == m then 0 else (p + 1) * q
    ensures (n == 0 || ph * q + rh < n) && ph != p ==> ph * q + rh < p * q + rc
    ensures n == 0 || n > p * q + rc
  {
    Distribute(p, 1, q);
    if ph < p { ByHigh(ph, rh, p, rc, q); }
    if p < ph { LessTimes(p, ph, q); }
  }

  lemma StartCovers(c: Word, k: nat, h: Word)
    requires k <= 64 && (NextStart(c, k) == 0 || RVal(h) < NextStart(c, k))
    ensures RVal(h) < RVal(c) || h[..k] == c[..k]
  {
    RValHigh(h, k);
    RValHigh(c, k);
    NextInterval(RVal(c[..k]), Pow2(k), Pow2(64 - k), NextStart(c, k), RVal(c[k..]), RVal(h[..k]), RVal(h[k..]));
    if RVal(h[..k]) == RVal(c[..k]) { RValInjective(h[..k], c[..k]); }
  }

  /** A word that reverses to less than the next cursor reversed to less than this one, or shares
      the low k bits with it: its bucket is the one just visited. */
  lemma CursorCovers(c: Word, k: nat, h: Word)
    requires k <= 64
    requires var n := RVal(NextCursor(c, k)); n == 0 || RVal(h) < n
    ensures RVal(h) < RVal(c) || h[..k] == c[..k]
  {
    NextCursorVal(c, k);
    StartCovers(c, k, h);
  }

  lemma StartAdvances(c: Word, k: nat)
    requires k <= 64
    ensures NextStart(c, k) == 0 || NextStart(c, k) > RVal(c)
  {
    RValHigh(c, k);
    NextInterval(RVal(c[..k]), Pow2(k), Pow2(64 - k), NextStart(c, k), RVal(c[k..]), 0, 0);
  }

  /** The reversed cursor strictly advances until it wraps to 0. */
  lemma CursorAdvances(c: Word, k: nat)
    requires k <= 64
    ensures RVal(NextCursor(c, k)) == 0 || RVal(NextCursor(c, k)) > RVal(c)
  {
    NextCursorVal(c, k);
    StartAdvances(c, k);
  }

  /** A word is 0 exactly when its reversal is. */
  function Zero(): Word { seq(64, i => false) }

  lemma ZeroWord(w: Word)
    ensures RVal(w) == 0 <==> w == Zero()
  {
    RValZeros(64);
    if RVal(w) == 0 { RValInjective(w, seq(64, i => false)); }
  }

  lemma {:induction false} RValZeros(n: nat)
    ensures RVal(seq(n, i => false)) == 0
  {
    if n > 0 {
      assert seq(n, i => false)[1..] == seq(n - 1, i => false);
      RValZeros(n - 1);
    }
  }
}
