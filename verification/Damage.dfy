/** What the checks of an image are for: what loads was sealed, and a damaged image does not load. */
module Damage {
  import opened Common
  import opened Words
  import opened Crc32
  import opened Rdb

  // ---- the checksum tells messages apart that differ in up to four bytes in a row --------------------

  lemma {:induction false} TopBit(n: nat, k: nat)
    requires k > 0 && Pow2(k - 1) <= n < Pow2(k)
    ensures NatBits(n, k)[k - 1]
  {
    if k > 1 {
      TopBit(n / 2, k - 1);
      assert NatBits(n, k)[k - 1] == NatBits(n / 2, k - 1)[k - 2];
    }
  }

  /** The highest coefficient of the polynomial is there, so a shift loses nothing. */
  lemma PolyTop()
    ensures Poly()[31]
  {
    Words.Widths();
    TopBit(POLY, 32);
  }

  lemma ShiftInjective(a: Word32, b: Word32)
    requires Shift(a) == Shift(b)
    ensures a == b
  {
    PolyTop();
    hide Poly;
    assert Shift(a)[31] == a[0] && Shift(b)[31] == b[0];
    forall i | 1 <= i < 32 ensures a[i] == b[i] {
      assert Shift(a)[i - 1] == Shift(b)[i - 1];
      assert Crc32.Shr(a, 1)[i - 1] == a[i] && Crc32.Shr(b, 1)[i - 1] == b[i];
    }
  }

  lemma {:induction false} ShiftsInjective(a: Word32, b: Word32, k: nat)
    requires Shifts(a, k) == Shifts(b, k)
    ensures a == b
    decreases k
  {
    hide Shift;
    if k > 0 {
      ShiftsInjective(Shift(a), Shift(b), k - 1);
      ShiftInjective(a, b);
    }
  }

  lemma XorCancels(a: Bits, b: Bits, c: Bits)
    requires |a| == |b| == |c|
    ensures Xor(a, c) == Xor(b, c) ==> a == b
    ensures Xor(c, a) == Xor(c, b) ==> a == b
  {
    if Xor(a, c) == Xor(b, c) {
      forall i | 0 <= i < |a| ensures a[i] == b[i] { assert Xor(a, c)[i] == Xor(b, c)[i]; }
    }
    if Xor(c, a) == Xor(c, b) {
      forall i | 0 <= i < |a| ensures a[i] == b[i] { assert Xor(c, a)[i] == Xor(c, b)[i]; }
    }
  }

  /** From two states the same bits lead to two states. */
  lemma {:induction false} StatesApart(c: Word32, d: Word32, bits: Bits)
    requires DivideBits(c, bits) == DivideBits(d, bits)
    ensures c == d
    decreases |bits|
  {
    if bits != [] {
      StatesApart(DivideBit(c, bits[0]), DivideBit(d, bits[0]), bits[1..]);
      FeedBits(c, [bits[0]]);
      FeedBits(d, [bits[0]]);
      assert [bits[0]][1..] == [];
      ShiftsInjective(Xor(c, Pad([bits[0]])), Xor(d, Pad([bits[0]])), 1);
      XorCancels(c, d, Pad([bits[0]]));
    }
  }

  /** From one state two runs of up to 32 bits lead to two states. */
  lemma BitsApart(c: Word32, u: Bits, v: Bits)
    requires |u| == |v| <= 32 && DivideBits(c, u) == DivideBits(c, v)
    ensures u == v
  {
    FeedBits(c, u);
    FeedBits(c, v);
    ShiftsInjective(Xor(c, Pad(u)), Xor(c, Pad(v)), |u|);
    XorCancels(Pad(u), Pad(v), c);
    assert u == Pad(u)[..|u|] && v == Pad(v)[..|v|];
  }

  lemma {:induction false} MessageJoin(a: Bytes, b: Bytes)
    ensures Message(a + b) == Message(a) + Message(b) && |Message(b)| == 8 * |b|
    decreases |b|
  {
    hide NatBits;
    if b == [] {
      assert a + b == a;
    } else {
      var n := |b| - 1;
      MessageJoin(a, b[..n]);
      assert (a + b)[..|a + b| - 1] == a + b[..n];
    }
  }

  lemma {:induction false} NatBitsBack(n: nat, k: nat)
    requires n < Pow2(k)
    ensures Val(NatBits(n, k)) == n
    decreases k
  {
    if k > 0 {
      NatBitsBack(n / 2, k - 1);
      assert NatBits(n, k)[1..] == NatBits(n / 2, k - 1);
    }
  }

  lemma ByteInjective(a: Byte, b: Byte)
    requires NatBits(a, 8) == NatBits(b, 8)
    ensures a == b
  {
    hide NatBits, Val, Pow2;
    Words.Widths();
    NatBitsBack(a, 8);
    NatBitsBack(b, 8);
  }

  lemma LastByte(u: Bytes) returns (init: Bytes, b: Byte)
    requires u != []
    ensures u == init + [b] && Message(u) == Message(init) + NatBits(b, 8) && |Message(init)| == 8 * |init|
  {
    hide NatBits;
    init, b := u[..|u| - 1], u[|u| - 1];
    MessageJoin([], init);
    assert u == init + [b];
  }

  lemma {:induction false} MessageInjective(u: Bytes, v: Bytes)
    requires |u| == |v| && Message(u) == Message(v)
    ensures u == v
    decreases |u|
  {
    hide NatBits, Message;
    if u != [] {
      var u', a := LastByte(u);
      var v', b := LastByte(v);
      SameHalves(Message(u'), NatBits(a, 8), Message(v'), NatBits(b, 8));
      ByteInjective(a, b);
      MessageInjective(u', v');
    }
  }

  lemma SameHalves(a: Bits, b: Bits, c: Bits, d: Bits)
    requires |a| == |c| && a + b == c + d
    ensures a == c && b == d
  {
    assert a == (a + b)[..|a|] && c == (c + d)[..|a|] && b == (a + b)[|a|..] && d == (c + d)[|a|..];
  }

  /** Two messages that differ only in up to four bytes in a row have different checksums. */
  lemma BurstFound(a: Bytes, u: Bytes, v: Bytes, b: Bytes)
    requires |u| == |v| <= 4 && u != v
    ensures Crc(a + u + b) != Crc(a + v + b)
  {
    var c := DivideBits(Ones32(), Message(a));
    MessageJoin(a, u);
    MessageJoin(a, v);
    MessageJoin(a + u, b);
    MessageJoin(a + v, b);
    DividedInTurn(Ones32(), Message(a) + Message(u), Message(b));
    DividedInTurn(Ones32(), Message(a) + Message(v), Message(b));
    DividedInTurn(Ones32(), Message(a), Message(u));
    DividedInTurn(Ones32(), Message(a), Message(v));
    if Crc(a + u + b) == Crc(a + v + b) {
      SumsApart(DivideBits(Ones32(), Message(a + u + b)), DivideBits(Ones32(), Message(a + v + b)));
      StatesApart(DivideBits(c, Message(u)), DivideBits(c, Message(v)), Message(b));
      BitsApart(c, Message(u), Message(v));
      MessageInjective(u, v);
    }
  }

  lemma SumsApart(c: Word32, d: Word32)
    requires Val(Xor(c, Ones32())) == Val(Xor(d, Ones32()))
    ensures c == d
  {
    NatBitsVal(Xor(c, Ones32()));
    NatBitsVal(Xor(d, Ones32()));
    XorCancels(c, d, Ones32());
  }

  // ---- images ----------------------------------------------------------------------------------------

  lemma {:induction false} LENum(b: Bytes)
    ensures LE(Num(b), |b|) == b
  {
    if b != [] {
      LENum(b[1..]);
      assert Num(b) % 256 == b[0] && Num(b) / 256 == Num(b[1..]);
    }
  }

  /** The checks an image has to pass. */
  ghost predicate Checks(data: Bytes) {
    && |data| >= 19 && data[..5] == MAGIC && Num(data[5..9]) == VERSION
    && Num(data[|data| - 4..]) == Crc(data[..|data| - 4])
  }

  lemma LoadedChecks(data: Bytes, wall: int, z: Zlib)
    ensures LoadImage(data, wall, z).ok ==> Checks(data)
  {
    hide Num, Crc, LoadPayload, Parser;
  }

  lemma HeadIs(data: Bytes, n: nat)
    requires 14 <= n <= |data| && data[..5] == MAGIC && data[5..9] == LE(VERSION, 4)
    ensures data[..n] == Head(data[9], Num(data[10..14])) + data[14..n]
  {
    hide Num, LE;
    LENum(data[10..14]);
    assert data[..n] == data[..5] + data[5..9] + [data[9]] + data[10..14] + data[14..n];
  }

  /** What loads begins with the magic and the version and ends in the checksum of all that is before it. */
  lemma LoadedIsSealed(data: Bytes, wall: int, z: Zlib)
    requires LoadImage(data, wall, z).ok
    ensures |data| >= 19
    ensures data == Seal(Crc, Head(data[9], Num(data[10..14])) + data[14..|data| - 4])
  {
    hide LoadImage, Num, LE, Crc, Head;
    LoadedChecks(data, wall, z);
    var n := |data| - 4;
    LENum(data[5..9]);
    LENum(data[n..]);
    HeadIs(data, n);
    assert data == data[..n] + data[n..];
  }

  /** An image that loads does not load any more when up to four bytes in a row are changed, in what the
      checksum is of or in the checksum. */
  lemma DamageFound(data: Bytes, i: nat, v: Bytes, wall: int, wall': int, z: Zlib)
    requires LoadImage(data, wall, z).ok && |v| <= 4 && i + |v| <= |data| && v != data[i..i + |v|]
    requires i + |v| <= |data| - 4 || i >= |data| - 4
    ensures !LoadImage(data[..i] + v + data[i + |v|..], wall', z).ok
  {
    hide LoadImage, Num, LE, Crc;
    var n, bad, u := |data| - 4, data[..i] + v + data[i + |v|..], data[i..i + |v|];
    LoadedChecks(data, wall, z);
    LoadedChecks(bad, wall', z);
    if i + |v| <= n {
      ContentChanged(data, i, v, n);
      BurstFound(data[..i], u, v, data[i + |v|..n]);
    } else {
      TailChanged(data, i, v, n);
      LENum(bad[n..]);
      LENum(data[n..]);
    }
  }

  lemma ContentChanged(data: Bytes, i: nat, v: Bytes, n: nat)
    requires i + |v| <= n <= |data|
    ensures var bad := data[..i] + v + data[i + |v|..];
            && |bad| == |data| && data[..n] == data[..i] + data[i..i + |v|] + data[i + |v|..n]
            && bad[..n] == data[..i] + v + data[i + |v|..n] && bad[n..] == data[n..]
  {
  }

  lemma TailChanged(data: Bytes, i: nat, v: Bytes, n: nat)
    requires n <= i && i + |v| <= |data| && v != data[i..i + |v|]
    ensures var bad := data[..i] + v + data[i + |v|..];
            |bad| == |data| && bad[..n] == data[..n] && bad[n..] != data[n..]
  {
    var bad := data[..i] + v + data[i + |v|..];
    assert bad[i..i + |v|] == v;
    assert bad[n..][i - n..i - n + |v|] == v && data[n..][i - n..i - n + |v|] == data[i..i + |v|];
  }
}
