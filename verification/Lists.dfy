/** LINSERT, LREM and LTRIM on the ring (src/commands/commands.cpp). */
module Lists {
  import opened Deques

  // ---- what LREM removes ----------------------------------------------------------------------

  function CountOf(s: Elems, v: Elem): (n: nat)
    ensures n <= |s|
  {
    if s == [] then 0 else (if s[0] == v then 1 else 0) + CountOf(s[1..], v)
  }

  /** s without any v. */
  function Without(s: Elems, v: Elem): Elems {
    if s == [] then [] else (if s[0] == v then [] else [s[0]]) + Without(s[1..], v)
  }

  /** s without its first k matches. */
  function RemoveFirst(s: Elems, v: Elem, k: nat): Elems {
    if s == [] then []
    else if s[0] == v && k > 0 then RemoveFirst(s[1..], v, k - 1)
    else [s[0]] + RemoveFirst(s[1..], v, k)
  }

  /** s without its last k matches. */
  function RemoveLast(s: Elems, v: Elem, k: nat): Elems {
    if s == [] then []
    else
      var front, last := s[..|s| - 1], s[|s| - 1];
      if last == v && k > 0 then RemoveLast(front, v, k - 1) else RemoveLast(front, v, k) + [last]
  }

  /** Some prefix that holds just the matches to go loses them; behind it nothing changes. */
  lemma {:induction false} RemoveFirstIs(s: Elems, v: Elem, k: nat) returns (p: nat)
    ensures p <= |s| && RemoveFirst(s, v, k) == Without(s[..p], v) + s[p..]
    ensures CountOf(s[..p], v) == if k < CountOf(s, v) then k else CountOf(s, v)
  {
    if s == [] || k == 0 {
      p := 0;
      NothingToRemove(s, v);
      assert s[..0] == [] && [] + s == s;
    } else {
      var k' := if s[0] == v then k - 1 else k;
      var q := RemoveFirstIs(s[1..], v, k');
      RemoveFirstStep(s, v, k, q);
      p := q + 1;
    }
  }

  lemma RemoveFirstStep(s: Elems, v: Elem, k: nat, q: nat)
    requires s != [] && k > 0 && q < |s|
    requires RemoveFirst(s[1..], v, if s[0] == v then k - 1 else k) == Without(s[1..][..q], v) + s[1..][q..]
    ensures RemoveFirst(s, v, k) == Without(s[..q + 1], v) + s[q + 1..]
    ensures CountOf(s[..q + 1], v) == (if s[0] == v then 1 else 0) + CountOf(s[1..][..q], v)
  {
    PrefixCons(s, v, q);
    if s[0] != v { Regroup([s[0]], Without(s[1..][..q], v), s[q + 1..]); }
  }

  lemma Regroup(a: Elems, b: Elems, c: Elems)
    ensures (a + b) + c == a + (b + c)
  {
  }

  lemma PrefixCons(s: Elems, v: Elem, q: nat)
    requires s != [] && q < |s|
    ensures s[q + 1..] == s[1..][q..]
    ensures Without(s[..q + 1], v) == (if s[0] == v then [] else [s[0]]) + Without(s[1..][..q], v)
    ensures CountOf(s[..q + 1], v) == (if s[0] == v then 1 else 0) + CountOf(s[1..][..q], v)
  {
    assert s[..q + 1][1..] == s[1..][..q];
  }

  lemma {:induction false} NothingToRemove(s: Elems, v: Elem)
    ensures RemoveFirst(s, v, 0) == s && RemoveLast(s, v, 0) == s
  {
    if s != [] {
      NothingToRemove(s[1..], v);
      NothingToRemove(s[..|s| - 1], v);
    }
  }

  lemma {:induction false} RemoveAll(s: Elems, v: Elem, k: nat)
    requires k >= |s|
    ensures RemoveFirst(s, v, k) == Without(s, v)
  {
    if s != [] { RemoveAll(s[1..], v, if s[0] == v then k - 1 else k); }
  }

  function Reversed(s: Elems): (r: Elems)
    ensures |r| == |s|
  {
    seq(|s|, i requires 0 <= i < |s| => s[|s| - 1 - i])
  }

  /** From the back it is the same on the list read backwards. */
  lemma {:induction false} RemoveLastIs(s: Elems, v: Elem, k: nat)
    ensures RemoveLast(s, v, k) == Reversed(RemoveFirst(Reversed(s), v, k))
    decreases |s|
  {
    if s == [] {
      assert Reversed(s) == [];
    } else {
      var front, last, r := s[..|s| - 1], s[|s| - 1], Reversed(s);
      assert r[0] == last && r[1..] == Reversed(front);
      if last == v && k > 0 {
        RemoveLastIs(front, v, k - 1);
      } else {
        RemoveLastIs(front, v, k);
        var w := RemoveFirst(Reversed(front), v, k);
        assert Reversed([last] + w) == Reversed(w) + [last];
      }
    }
  }

  // ---- LREM -----------------------------------------------------------------------------------------

  /** The scan from the front stands before position i with k matches still to remove. */
  ghost predicate FrontScan(c: Elems, i: nat, v: Elem, k: nat, all: Elems) {
    i <= |c| && c[..i] + RemoveFirst(c[i..], v, k) == all
  }

  lemma FrontStart(c: Elems, v: Elem, k: nat)
    ensures FrontScan(c, 0, v, k, RemoveFirst(c, v, k))
  {
    assert c[0..] == c && c[..0] + RemoveFirst(c, v, k) == RemoveFirst(c, v, k);
  }

  lemma FrontStep(c: Elems, i: nat, v: Elem, k: nat, all: Elems)
    requires FrontScan(c, i, v, k, all) && i < |c|
    ensures c[i] == v && k > 0 ==> FrontScan(c[..i] + c[i + 1..], i, v, k - 1, all)
    ensures c[i] != v ==> FrontScan(c, i + 1, v, k, all)
  {
    var rest := c[i..];
    assert rest[0] == c[i] && rest[1..] == c[i + 1..];
    if c[i] == v {
      var d := c[..i] + c[i + 1..];
      assert d[..i] == c[..i] && d[i..] == c[i + 1..];
    } else {
      var w := RemoveFirst(c[i + 1..], v, k);
      assert c[..i] + ([c[i]] + w) == c[..i + 1] + w;
    }
  }

  /** The scan from the back has positions below i to go. */
  ghost predicate BackScan(c: Elems, i: nat, v: Elem, k: nat, all: Elems) {
    i <= |c| && RemoveLast(c[..i], v, k) + c[i..] == all
  }

  lemma BackStart(c: Elems, v: Elem, k: nat)
    ensures BackScan(c, |c|, v, k, RemoveLast(c, v, k))
  {
    assert c[..|c|] == c && RemoveLast(c, v, k) + c[|c|..] == RemoveLast(c, v, k);
  }

  lemma BackStep(c: Elems, i: nat, v: Elem, k: nat, all: Elems)
    requires BackScan(c, i + 1, v, k, all) && i < |c|
    ensures c[i] == v && k > 0 ==> BackScan(c[..i] + c[i + 1..], i, v, k - 1, all)
    ensures c[i] != v ==> BackScan(c, i, v, k, all)
  {
    var front := c[..i + 1];
    assert front[..i] == c[..i] && front[|front| - 1] == c[i];
    if c[i] == v {
      var d := c[..i] + c[i + 1..];
      assert d[..i] == c[..i] && d[i..] == c[i + 1..];
    } else {
      var w := RemoveLast(c[..i], v, k);
      assert (w + [c[i]]) + c[i + 1..] == w + c[i..];
    }
  }

  /** The element at i goes if it matches. */
  method RemoveIf(d: Deque, i: nat, v: Elem) returns (hit: bool)
    requires d.Valid() && i < d.count
    modifies d, d.buf
    ensures d.Valid() && d.buf == old(d.buf) && hit == (old(d.Contents())[i] == v)
    ensures d.Contents() == (var c := old(d.Contents()); if hit then c[..i] + c[i + 1..] else c)
  {
    var _, x := d.Get(i);
    hit := x == v;
    if hit { d.CloseGap(i); }
  }

  lemma FrontDone(c: Elems, i: nat, v: Elem, k: nat, all: Elems)
    requires FrontScan(c, i, v, k, all) && (i == |c| || k == 0)
    ensures c == all
  {
    if k == 0 {
      NothingToRemove(c[i..], v);
      assert c[..i] + c[i..] == c;
    } else {
      assert c[i..] == [] && c[..i] + [] == c;
    }
  }

  lemma BackDone(c: Elems, i: nat, v: Elem, k: nat, all: Elems)
    requires BackScan(c, i, v, k, all) && (i == 0 || k == 0)
    ensures c == all
  {
    NothingToRemove(c[..i], v);
    assert c[..i] + c[i..] == c;
    if i == 0 { assert c[..i] == []; }
  }

  method FrontTurn(d: Deque, i: nat, v: Elem, ghost left: nat, ghost all: Elems) returns (hit: bool)
    requires d.Valid() && i < d.count && left > 0 && FrontScan(d.Contents(), i, v, left, all)
    modifies d, d.buf
    ensures d.Valid() && d.buf == old(d.buf) && d.count == old(d.count) - if hit then 1 else 0
    ensures if hit then FrontScan(d.Contents(), i, v, left - 1, all) else FrontScan(d.Contents(), i + 1, v, left, all)
  {
    FrontStep(d.Contents(), i, v, left, all);
    hit := RemoveIf(d, i, v);
  }

  method RemoveFromFront(d: Deque, v: Elem, limit: nat) returns (removed: nat)
    requires d.Valid()
    modifies d, d.buf
    ensures d.Valid() && d.buf == old(d.buf) && removed + d.count == old(d.count)
    ensures d.Contents() == RemoveFirst(old(d.Contents()), v, if limit == 0 then old(d.count) else limit)
  {
    hide RemoveFirst, FrontScan;
    ghost var left: nat := if limit == 0 then d.count else limit;
    ghost var all := RemoveFirst(d.Contents(), v, left);
    ghost var n := d.count;
    removed := 0;
    var i := 0;
    FrontStart(d.Contents(), v, left);
    while i < d.count
      invariant d.Valid() && d.buf == old(d.buf) && i <= d.count && removed + d.count == n
      invariant if limit == 0 then left == d.count else removed + left == limit && left > 0
      invariant FrontScan(d.Contents(), i, v, left, all)
      decreases d.count - i
    {
      var hit := FrontTurn(d, i, v, left, all);
      if hit {
        removed := removed + 1;
        left := left - 1;
        if limit > 0 && removed >= limit { break; }
      } else {
        i := i + 1;
      }
    }
    FrontDone(d.Contents(), i, v, left, all);
  }

  method RemoveFromBack(d: Deque, v: Elem, limit: nat) returns (removed: nat)
    requires d.Valid() && limit > 0
    modifies d, d.buf
    ensures d.Valid() && d.buf == old(d.buf) && removed + d.count == old(d.count)
    ensures d.Contents() == RemoveLast(old(d.Contents()), v, limit)
  {
    hide RemoveLast, BackScan;
    ghost var all := RemoveLast(d.Contents(), v, limit);
    ghost var n := d.count;
    removed := 0;
    var i := d.count;
    BackStart(d.Contents(), v, limit);
    while i > 0
      invariant d.Valid() && d.buf == old(d.buf) && 0 <= i <= d.count && removed + d.count == n
      invariant removed < limit && BackScan(d.Contents(), i, v, limit - removed, all)
      decreases i
    {
      i := i - 1;
      BackStep(d.Contents(), i, v, limit - removed, all);
      var hit := RemoveIf(d, i, v);
      if hit {
        removed := removed + 1;
        if removed >= limit {
          BackDone(d.Contents(), i, v, limit - removed, all);
          return;
        }
      }
    }
    BackDone(d.Contents(), i, v, limit - removed, all);
  }

  /** `do_lrem` on a list that exists; the key goes with the last element.  A count of INT64_MIN has no
      positive counterpart. */
  method DoLrem(d: Deque, v: Elem, count: int) returns (removed: nat, deleted: bool)
    requires d.Valid()
    modifies d, d.buf
    ensures d.Valid() && d.buf == old(d.buf) && removed == |old(d.Contents())| - |d.Contents()|
    ensures var s := old(d.Contents());
            d.Contents() == if count > 0 then RemoveFirst(s, v, count)
                            else if count < 0 then RemoveLast(s, v, -count)
                            else Without(s, v)
    ensures deleted <==> d.Contents() == []
  {
    RemoveAll(d.Contents(), v, d.count);
    if count < 0 {
      removed := RemoveFromBack(d, v, -count);
    } else {
      removed := RemoveFromFront(d, v, count);
    }
    deleted := d.count == 0;
  }

  // ---- LINSERT ---------------------------------------------------------------------------------------

  /** The first position of x, or the length. */
  function IndexOf(s: Elems, x: Elem): (i: nat)
    ensures i <= |s| && x !in s[..i] && (i < |s| ==> s[i] == x)
  {
    if s == [] || s[0] == x then 0
    else
      var i := IndexOf(s[1..], x) + 1;
      assert s[..i] == [s[0]] + s[1..][..i - 1];
      i
  }

  lemma {:induction false} FirstIndex(s: Elems, x: Elem, i: nat)
    requires i <= |s| && x !in s[..i] && (i < |s| ==> s[i] == x)
    ensures IndexOf(s, x) == i
  {
    if i > 0 {
      assert s[..i][0] == s[0] && s[..i][1..] == s[1..][..i - 1];
      FirstIndex(s[1..], x, i - 1);
    }
  }

  method FindPivot(d: Deque, pivot: Elem) returns (i: nat)
    requires d.Valid()
    ensures d.Valid() && i == IndexOf(d.Contents(), pivot)
  {
    ghost var c := d.Contents();
    i := 0;
    while i < d.count
      invariant i <= d.count && d.Valid() && d.Contents() == c && pivot !in c[..i]
    {
      var _, x := d.Get(i);
      if x == pivot { break; }
      assert c[..i + 1] == c[..i] + [c[i]];
      i := i + 1;
    }
    FirstIndex(c, pivot, i);
  }

  /** A new element at a logical position. */
  method InsertAt(d: Deque, at: nat, value: Elem)
    requires d.Valid() && at <= d.count
    modifies d, d.buf
    ensures d.Valid() && (d.buf == old(d.buf) || fresh(d.buf))
    ensures d.Contents() == old(d.Contents())[..at] + [value] + old(d.Contents())[at..]
  {
    ghost var c := d.Contents();
    if d.count == d.buf.Length { d.Grow(); }
    d.OpenGap(at);
    var p := d.Phys(d.head, at);
    ghost var e := d.Contents();
    RingSet(d.buf[..], d.head, d.count, at, value);
    d.buf[p] := value;
    assert d.Contents() == e[at := value];
    assert e[at := value] == e[..at] + [value] + e[at + 1..];
  }

  /** `do_linsert`: the new length, or -1 when the pivot is not there. */
  method DoLinsert(d: Deque, before: bool, pivot: Elem, value: Elem) returns (r: int)
    requires d.Valid()
    modifies d, d.buf
    ensures d.Valid() && (d.buf == old(d.buf) || fresh(d.buf))
    ensures var s := old(d.Contents());
            if pivot !in s then r == -1 && d.Contents() == s
            else
              var at := if before then IndexOf(s, pivot) else IndexOf(s, pivot) + 1;
              at <= |s| && r == |s| + 1 && d.Contents() == s[..at] + [value] + s[at..]
  {
    ghost var s := d.Contents();
    var i := FindPivot(d, pivot);
    if i == d.count {
      assert s[..i] == s;
      return -1;
    }
    InsertAt(d, if before then i else i + 1, value);
    r := d.count;
  }

  // ---- LTRIM -----------------------------------------------------------------------------------------

  /** `deque_normalize` */
  function Normal(i: int, n: nat): int { if i < 0 then i + n else i }

  /** The positions LTRIM keeps; one that is negative is a distance from the end, where the last is -1. */
  predicate Keeps(n: nat, start: int, stop: int, i: int) {
    (if start < 0 then start <= i - n else start <= i) && (if stop < 0 then i - n <= stop else i <= stop)
  }

  /** Slots from `from` up to `to` are emptied; the others keep their elements. */
  method Release(d: Deque, from: nat, to: nat)
    requires d.Valid() && from <= to <= d.count
    modifies d.buf
    ensures d.Valid() && forall i :: 0 <= i < d.count && !(from <= i < to) ==> d.Contents()[i] == old(d.Contents())[i]
  {
    var i := from;
    while i < to
      invariant from <= i <= to && d.Valid()
      invariant forall j :: 0 <= j < d.count && !(from <= j < to) ==> d.Contents()[j] == old(d.Contents())[j]
    {
      var p := d.Phys(d.head, i);
      RingSet(d.buf[..], d.head, d.count, i, "");
      d.buf[p] := "";
      i := i + 1;
    }
  }

  /** The elements from lo to hi stay: the others' slots are emptied, then the head and the count move. */
  method TrimTo(d: Deque, lo: nat, hi: nat)
    requires d.Valid() && lo <= hi < d.count
    modifies d, d.buf
    ensures d.Valid() && d.buf == old(d.buf) && d.Contents() == old(d.Contents())[lo..hi + 1]
  {
    ghost var c := d.Contents();
    var n := d.count;
    Release(d, 0, lo);
    Release(d, hi + 1, n);
    RingFrom(d.buf[..], d.head, d.count, lo, hi - lo + 1);
    var h := d.Phys(d.head, lo);
    d.head, d.count := h, hi - lo + 1;
    assert d.Contents() == c[lo..hi + 1];
  }

  /** `do_ltrim`: the key goes when nothing is kept; else exactly the kept positions stay, in order. */
  method DoLtrim(d: Deque, start0: int, stop0: int) returns (deleted: bool, ghost a: nat, ghost b: nat)
    requires d.Valid()
    modifies d, d.buf
    ensures d.Valid() && d.buf == old(d.buf)
    ensures deleted <==> forall i :: 0 <= i < old(d.count) ==> !Keeps(old(d.count), start0, stop0, i)
    ensures !deleted ==> a <= b <= old(d.count) && d.Contents() == old(d.Contents())[a..b]
    ensures !deleted ==> forall i :: 0 <= i < old(d.count) ==> (a <= i < b <==> Keeps(old(d.count), start0, stop0, i))
  {
    var n := d.count;
    var start, stop := Normal(start0, n), Normal(stop0, n);
    if start < 0 { start := 0; }
    if stop >= n { stop := n - 1; }
    if start > stop || start >= n {
      return true, 0, 0;
    }
    assert Keeps(n, start0, stop0, start);
    deleted, a, b := false, start, stop + 1;
    if start == 0 && stop + 1 == n {
      assert d.Contents()[0..n] == d.Contents();
      return;
    }
    TrimTo(d, start, stop);
  }
}
