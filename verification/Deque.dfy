/** The ring buffer behind lists (src/ds/deque.cpp) and the list commands that shift, remove and trim in
    place (src/commands/commands.cpp). */
module Deques {
  import opened Words

  type Elem = string
  type Elems = seq<Elem>

  // ---- indices ------------------------------------------------------------------------------

  /** Bitwise and of two numbers. */
  function BitAnd(a: nat, b: nat): nat {
    if a == 0 || b == 0 then 0 else (a % 2) * (b % 2) + 2 * BitAnd(a / 2, b / 2)
  }

  /** Masking with a power of two less one wraps around; it is what makes the power of two matter. */
  lemma {:induction false} MaskWraps(x: nat, k: nat)
    requires x < 2 * Pow2(k)
    ensures BitAnd(x, Pow2(k) - 1) == if x < Pow2(k) then x else x - Pow2(k)
    decreases k
  {
    if k > 0 && x > 0 {
      MaskWraps(x / 2, k - 1);
      assert (Pow2(k) - 1) / 2 == Pow2(k - 1) - 1 && (Pow2(k) - 1) % 2 == 1;
    }
  }

  /** Where logical position i is. */
  function At(head: nat, cap: nat, i: nat): (p: nat)
    requires head < cap && i <= cap
    ensures p < cap
  {
    if head + i < cap then head + i else head + i - cap
  }

  /** The n elements from `head` on, around the ring. */
  function Ring(b: Elems, head: nat, n: nat): (r: Elems)
    requires n <= |b| && (n > 0 ==> head < |b|)
    ensures |r| == n
  {
    seq(n, i requires 0 <= i < n => b[At(head, |b|, i)])
  }

  lemma RingSet(b: Elems, head: nat, n: nat, i: nat, v: Elem)
    requires i < n <= |b| && head < |b|
    ensures Ring(b[At(head, |b|, i) := v], head, n) == Ring(b, head, n)[i := v]
  {
  }

  lemma RingBack(b: Elems, head: nat, n: nat, v: Elem)
    requires n < |b| && head < |b|
    ensures Ring(b[At(head, |b|, n) := v], head, n + 1) == Ring(b, head, n) + [v]
  {
  }

  lemma RingFront(b: Elems, head: nat, n: nat, v: Elem)
    requires n < |b| && head < |b|
    ensures var h := At(head, |b|, |b| - 1); Ring(b[h := v], h, n + 1) == [v] + Ring(b, head, n)
  {
  }

  /** n elements from logical position k on. */
  lemma RingFrom(b: Elems, head: nat, n: nat, k: nat, m: nat)
    requires k + m <= n <= |b| && head < |b|
    ensures Ring(b, At(head, |b|, k), m) == Ring(b, head, n)[k..k + m]
  {
  }

  /** The first i + 1 elements of r, moved down by one. */
  function DownTo(r: Elems, i: nat): Elems
    requires i < |r|
  {
    r[1..i + 1] + r[i..]
  }

  lemma DownStep(r: Elems, i: nat)
    requires i + 1 < |r|
    ensures DownTo(r, i)[i := DownTo(r, i)[i + 1]] == DownTo(r, i + 1)
  {
  }

  /** The elements of r from i on, but for the last, moved up by one. */
  function UpFrom(r: Elems, i: nat): Elems
    requires i < |r|
  {
    r[..i + 1] + r[i..|r| - 1]
  }

  lemma UpStep(r: Elems, i: nat)
    requires 0 < i < |r|
    ensures UpFrom(r, i)[i := UpFrom(r, i)[i - 1]] == UpFrom(r, i - 1)
  {
  }

  /** The elements of r after idx, up to i, moved down by one. */
  function DownFrom(r: Elems, idx: nat, i: nat): Elems
    requires idx <= i < |r|
  {
    r[..idx] + r[idx + 1..i + 1] + r[i..]
  }

  lemma DownFromStep(r: Elems, idx: nat, i: nat)
    requires idx <= i && i + 1 < |r|
    ensures DownFrom(r, idx, i)[i := DownFrom(r, idx, i)[i + 1]] == DownFrom(r, idx, i + 1)
  {
  }

  lemma RingOneMore(b: Elems, head: nat, n: nat)
    requires n < |b| && head < |b|
    ensures var h := At(head, |b|, |b| - 1); Ring(b, h, n + 1) == [b[h]] + Ring(b, head, n)
    ensures Ring(b, head, n + 1) == Ring(b, head, n) + [b[At(head, |b|, n)]]
  {
    var h, t := At(head, |b|, |b| - 1), At(head, |b|, n);
    RingFront(b, head, n, b[h]);
    RingBack(b, head, n, b[t]);
    assert b[h := b[h]] == b && b[t := b[t]] == b;
  }

  lemma GapFront(c: Elems, x: Elem, idx: nat)
    requires idx <= |c|
    ensures var r := DownTo([x] + c, idx); r[..idx] == c[..idx] && r[idx + 1..] == c[idx..]
  {
  }

  lemma GapBack(c: Elems, x: Elem, idx: nat)
    requires idx <= |c|
    ensures var r := UpFrom(c + [x], idx); r[..idx] == c[..idx] && r[idx + 1..] == c[idx..]
  {
  }

  lemma ClosedFront(c: Elems, idx: nat)
    requires idx < |c|
    ensures (UpFrom(c[..idx + 1], 0) + c[idx + 1..])[1..] == c[..idx] + c[idx + 1..]
  {
  }

  lemma ClosedBack(c: Elems, idx: nat)
    requires idx < |c|
    ensures DownFrom(c, idx, |c| - 1)[..|c| - 1] == c[..idx] + c[idx + 1..]
  {
  }

  /** The capacity with room for one more element, and the capacity after one was taken. */
  function CapFor(cap: nat, count: nat): nat {
    if count < cap then cap else if cap == 0 then 8 else cap * 2
  }

  function CapLeft(cap: nat, count: nat): nat {
    if cap > 8 && count < cap / 4 then cap / 2 else cap
  }

  /** The capacity always has room for one more, doubles only when it is full, halves only when three quarters
      are empty, and neither is undone by the next operation. */
  lemma Capacities(cap: nat, count: nat)
    requires count <= cap && (cap == 0 || cap >= 8)
    ensures CapFor(cap, count) > count && (CapFor(cap, count) != cap <==> count == cap)
    ensures cap > 0 ==> (CapFor(cap, count) == cap || CapFor(cap, count) == 2 * cap)
    ensures CapLeft(cap, count) != cap <==> cap > 8 && 4 * (count + 1) <= cap
    ensures CapLeft(cap, count) != cap ==> CapLeft(cap, count) == cap / 2 > count
    ensures count == cap ==> CapLeft(CapFor(cap, count), count) == CapFor(cap, count)
  {
  }

  class Deque {
    var buf: array<Elem>
    var head: nat
    var count: nat
    ghost var bits: nat

    /** Capacity zero, or a power of two of at least eight. */
    ghost predicate Valid()
      reads this
    {
      && count <= buf.Length && (if buf.Length == 0 then head == 0 else head < buf.Length)
      && (buf.Length != 0 ==> bits >= 3 && buf.Length == Pow2(bits))
    }

    /** The list, first to last. */
    ghost function Contents(): (s: Elems)
      requires Valid()
      reads this, buf
      ensures |s| == count
    {
      Ring(buf[..], head, count)
    }

    constructor ()
      ensures Valid() && Contents() == [] && fresh(buf)
    {
      buf := new Elem[0];
      head, count, bits := 0, 0, 0;
    }

    /** `deque_phys`, also for a head that is about to be set. */
    method Phys(h: nat, i: nat) returns (p: nat)
      requires Valid() && h < buf.Length && i <= buf.Length
      ensures p == At(h, buf.Length, i)
    {
      MaskWraps(h + i, bits);
      p := BitAnd(h + i, buf.Length - 1);
    }

    /** The elements in logical order at the start of a new buffer; `deque_grow` and `deque_maybe_shrink`. */
    method Rebuild(newCap: nat, ghost newBits: nat)
      requires Valid() && count <= newCap && newBits >= 3 && newCap == Pow2(newBits)
      modifies this
      ensures Valid() && fresh(buf) && buf.Length == newCap && count == old(count) && Contents() == old(Contents())
    {
      var b := new Elem[newCap];
      var i := 0;
      while i < count
        invariant 0 <= i <= count && Valid() && buf == old(buf) && head == old(head) && count == old(count)
        invariant bits == old(bits)
        invariant b.Length == newCap && fresh(b) && Contents() == old(Contents()) && b[..i] == Contents()[..i]
      {
        var p := Phys(head, i);
        b[i] := buf[p];
        i := i + 1;
      }
      ghost var c := Contents();
      assert b[..count] == c;
      buf, head, bits := b, 0, newBits;
      assert Contents() == c;
    }

    /** `deque_grow` */
    method Grow()
      requires Valid() && count == buf.Length
      modifies this
      ensures Valid() && fresh(buf) && count < buf.Length && count == old(count) && Contents() == old(Contents())
      ensures buf.Length == CapFor(old(buf.Length), old(count))
    {
      if buf.Length == 0 {
        assert Pow2(3) == 8;
        Rebuild(8, 3);
      } else {
        Rebuild(buf.Length * 2, bits + 1);
      }
    }

    method Shrink()
      requires Valid() && buf.Length > 8 && count < buf.Length / 4
      modifies this
      ensures Valid() && fresh(buf) && count == old(count) && Contents() == old(Contents())
      ensures buf.Length == CapLeft(old(buf.Length), count)
    {
      assert Pow2(3) == 8;
      Rebuild(buf.Length / 2, bits - 1);
    }

    /** `deque_push_back` */
    method PushBack(v: Elem)
      requires Valid()
      modifies this, buf
      ensures Valid() && (buf == old(buf) || fresh(buf)) && Contents() == old(Contents()) + [v]
      ensures buf.Length == CapFor(old(buf.Length), old(count))
    {
      if count == buf.Length { Grow(); }
      var tail := Phys(head, count);
      RingBack(buf[..], head, count, v);
      buf[tail] := v;
      count := count + 1;
    }

    /** `deque_push_front` */
    method PushFront(v: Elem)
      requires Valid()
      modifies this, buf
      ensures Valid() && (buf == old(buf) || fresh(buf)) && Contents() == [v] + old(Contents())
      ensures buf.Length == CapFor(old(buf.Length), old(count))
    {
      if count == buf.Length { Grow(); }
      var h := Phys(head, buf.Length - 1);
      RingFront(buf[..], head, count, v);
      head := h;
      buf[h] := v;
      count := count + 1;
    }
  
    /** The head slot is cleared and left behind. */
    method DropFirst()
      requires Valid() && count > 0
      modifies this, buf
      ensures Valid() && buf == old(buf) && count == old(count) - 1 && Contents() == old(Contents())[1..]
    {
      var h := Phys(head, 1);
      RingFrom(buf[..][head := ""], head, count, 1, count - 1);
      RingSet(buf[..], head, count, 0, "");
      buf[head] := "";
      head, count := h, count - 1;
    }

    method DropLast()
      requires Valid() && count > 0
      modifies this, buf
      ensures Valid() && buf == old(buf) && count == old(count) - 1 && Contents() == old(Contents())[..count]
    {
      var tail := Phys(head, count - 1);
      RingSet(buf[..], head, count, count - 1, "");
      buf[tail] := "";
      count := count - 1;
    }

    /** `deque_pop_front` */
    method PopFront() returns (ok: bool, v: Elem)
      requires Valid()
      modifies this, buf
      ensures Valid() && (buf == old(buf) || fresh(buf)) && ok == (old(count) > 0)
      ensures if ok then [v] + Contents() == old(Contents()) else Contents() == old(Contents())
      ensures buf.Length == if ok then CapLeft(old(buf.Length), count) else old(buf.Length)
    {
      if count == 0 { return false, ""; }
      v := buf[head];
      DropFirst();
      if buf.Length > 8 && count < buf.Length / 4 { Shrink(); }
      ok := true;
    }

    /** `deque_pop_back` */
    method PopBack() returns (ok: bool, v: Elem)
      requires Valid()
      modifies this, buf
      ensures Valid() && (buf == old(buf) || fresh(buf)) && ok == (old(count) > 0)
      ensures if ok then Contents() + [v] == old(Contents()) else Contents() == old(Contents())
      ensures buf.Length == if ok then CapLeft(old(buf.Length), count) else old(buf.Length)
    {
      if count == 0 { return false, ""; }
      var tail := Phys(head, count - 1);
      v := buf[tail];
      DropLast();
      if buf.Length > 8 && count < buf.Length / 4 { Shrink(); }
      ok := true;
    }

    /** `deque_get` */
    method Get(i: nat) returns (found: bool, v: Elem)
      requires Valid()
      ensures found == (i < count) && (found ==> v == Contents()[i])
    {
      if i >= count { return false, ""; }
      var p := Phys(head, i);
      return true, buf[p];
    }

    /** `buf[phys(to)] = std::move(buf[phys(from)])`, seen as n elements from h on. */
    method Move(h: nat, n: nat, to: nat, from: nat)
      requires Valid() && h < buf.Length && n <= buf.Length && to < n && from < n
      modifies buf
      ensures var r := old(Ring(buf[..], h, n)); Ring(buf[..], h, n) == r[to := r[from]]
    {
      var p := Phys(h, from);
      var q := Phys(h, to);
      RingSet(buf[..], h, n, to, buf[p]);
      buf[q] := buf[p];
    }
  
    method MoveDown(h: nat, n: nat, i: nat, ghost r0: Elems)
      requires Valid() && h < buf.Length && i + 1 < n <= buf.Length && |r0| == n && Ring(buf[..], h, n) == DownTo(r0, i)
      modifies buf
      ensures Ring(buf[..], h, n) == DownTo(r0, i + 1)
    {
      DownStep(r0, i);
      Move(h, n, i, i + 1);
    }

    /** The front part of `deque_open_gap`: [1, idx] moves down by one. */
    method ShiftDown(h: nat, n: nat, idx: nat)
      requires Valid() && h < buf.Length && idx < n <= buf.Length
      modifies buf
      ensures Ring(buf[..], h, n) == DownTo(old(Ring(buf[..], h, n)), idx)
    {
      ghost var r0 := Ring(buf[..], h, n);
      assert DownTo(r0, 0) == r0;
      var i := 0;
      while i < idx
        invariant 0 <= i <= idx && Ring(buf[..], h, n) == DownTo(r0, i)
      {
        MoveDown(h, n, i, r0);
        i := i + 1;
      }
    }

    method MoveUp(h: nat, n: nat, i: nat, ghost r0: Elems)
      requires Valid() && h < buf.Length && 0 < i < n <= buf.Length && |r0| == n && Ring(buf[..], h, n) == UpFrom(r0, i)
      modifies buf
      ensures Ring(buf[..], h, n) == UpFrom(r0, i - 1)
    {
      UpStep(r0, i);
      Move(h, n, i, i - 1);
    }

    /** The back part: [idx, n - 1) moves up by one. */
    method ShiftUp(h: nat, n: nat, idx: nat)
      requires Valid() && h < buf.Length && idx < n <= buf.Length
      modifies buf
      ensures Ring(buf[..], h, n) == UpFrom(old(Ring(buf[..], h, n)), idx)
    {
      ghost var r0 := Ring(buf[..], h, n);
      assert UpFrom(r0, n - 1) == r0;
      var i := n - 1;
      while i > idx
        invariant idx <= i < n && Ring(buf[..], h, n) == UpFrom(r0, i)
      {
        MoveUp(h, n, i, r0);
        i := i - 1;
      }
    }

    /** A free slot before the first element becomes the gap. */
    method OpenFront(idx: nat)
      requires Valid() && count < buf.Length && idx <= count
      modifies this, buf
      ensures Valid() && buf == old(buf) && count == old(count) + 1
      ensures Contents()[..idx] == old(Contents())[..idx] && Contents()[idx + 1..] == old(Contents())[idx..]
    {
      RingOneMore(buf[..], head, count);
      var h := Phys(head, buf.Length - 1);
      GapFront(Contents(), buf[h], idx);
      ShiftDown(h, count + 1, idx);
      head, count := h, count + 1;
    }

    /** A free slot after the last element becomes the gap. */
    method OpenBack(idx: nat)
      requires Valid() && count < buf.Length && idx <= count
      modifies this, buf
      ensures Valid() && buf == old(buf) && count == old(count) + 1
      ensures Contents()[..idx] == old(Contents())[..idx] && Contents()[idx + 1..] == old(Contents())[idx..]
    {
      RingOneMore(buf[..], head, count);
      GapBack(Contents(), buf[At(head, buf.Length, count)], idx);
      ShiftUp(head, count + 1, idx);
      count := count + 1;
    }

    /** `deque_open_gap`: the elements on either side of the gap stay in order. */
    method OpenGap(idx: nat)
      requires Valid() && count < buf.Length && idx <= count
      modifies this, buf
      ensures Valid() && buf == old(buf) && count == old(count) + 1
      ensures Contents()[..idx] == old(Contents())[..idx] && Contents()[idx + 1..] == old(Contents())[idx..]
    {
      if idx < count / 2 { OpenFront(idx); } else { OpenBack(idx); }
    }

    method MoveFront(i: nat, ghost front: Elems, ghost rest: Elems)
      requires Valid() && 0 < i < |front| && count == |front| + |rest|
      requires Ring(buf[..], head, count) == UpFrom(front, i) + rest
      modifies buf
      ensures Ring(buf[..], head, count) == UpFrom(front, i - 1) + rest
    {
      UpStep(front, i);
      Move(head, count, i, i - 1);
    }

    method CloseFront(idx: nat)
      requires Valid() && idx < count
      modifies buf
      ensures Contents() == UpFrom(old(Contents())[..idx + 1], 0) + old(Contents())[idx + 1..]
    {
      ghost var r0 := Contents();
      assert UpFrom(r0[..idx + 1], idx) + r0[idx + 1..] == r0;
      var i := idx;
      while i > 0
        invariant 0 <= i <= idx && Ring(buf[..], head, count) == UpFrom(r0[..idx + 1], i) + r0[idx + 1..]
      {
        MoveFront(i, r0[..idx + 1], r0[idx + 1..]);
        i := i - 1;
      }
    }

    method MoveBack(idx: nat, i: nat, ghost r0: Elems)
      requires Valid() && idx <= i && i + 1 < count == |r0| && Ring(buf[..], head, count) == DownFrom(r0, idx, i)
      modifies buf
      ensures Ring(buf[..], head, count) == DownFrom(r0, idx, i + 1)
    {
      DownFromStep(r0, idx, i);
      Move(head, count, i, i + 1);
    }

    method CloseBack(idx: nat)
      requires Valid() && idx < count
      modifies buf
      ensures Contents() == DownFrom(old(Contents()), idx, count - 1)
    {
      ghost var r0 := Contents();
      assert DownFrom(r0, idx, idx) == r0;
      var i := idx;
      while i + 1 < count
        invariant idx <= i < count && Ring(buf[..], head, count) == DownFrom(r0, idx, i)
      {
        MoveBack(idx, i, r0);
        i := i + 1;
      }
    }

    /** `deque_close_gap`: one element goes, the others keep their order. */
    method CloseGap(idx: nat)
      requires Valid() && idx < count
      modifies this, buf
      ensures Valid() && buf == old(buf) && count == old(count) - 1
      ensures Contents() == old(Contents())[..idx] + old(Contents())[idx + 1..]
    {
      ghost var c := Contents();
      if idx < count / 2 {
        ClosedFront(c, idx);
        CloseFront(idx);
        DropFirst();
      } else {
        ClosedBack(c, idx);
        CloseBack(idx);
        DropLast();
      }
    }
  }
}
