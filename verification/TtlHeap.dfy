/** The expiry heap: src/ds/heap.cpp, `entry_set_ttl` and its helpers in src/core/state.cpp, and the sweep
    of src/server/server.cpp. */
module TtlHeap {
  import opened Common

  type EntryId = nat

  /** A deadline and the entry whose `heap_idx` refers back to it. */
  datatype Item = Item(val: nat, ref: EntryId)

  /** `heap_idx` of the entries that have one; the others hold NO_TTL. */
  type Index = map<EntryId, nat>

  function Parent(i: nat): (p: nat)
    requires i > 0
    ensures i == Left(p) || i == Right(p)
  {
    (i + 1) / 2 - 1
  }

  function Left(i: nat): nat { i * 2 + 1 }

  function Right(i: nat): nat { i * 2 + 2 }

  /** One item per entry with a TTL, and each back-reference is its item's index. */
  ghost predicate Linked(a: seq<Item>, x: Index) {
    && (forall i :: 0 <= i < |a| ==> a[i].ref in x && x[a[i].ref] == i)
    && (forall e :: e in x ==> x[e] < |a| && a[x[e]].ref == e)
  }

  /** The deadlines the heap holds. */
  ghost function Deadlines(a: seq<Item>, x: Index): map<EntryId, nat>
    requires Linked(a, x)
  {
    map e | e in x :: a[x[e]].val
  }

  /** The order between i and its parent. */
  ghost predicate Below(a: seq<Item>, i: nat)
    requires i < |a|
  {
    i > 0 ==> a[Parent(i)].val <= a[i].val
  }

  ghost predicate Heap(a: seq<Item>) {
    forall i :: 0 <= i < |a| ==> Below(a, i)
  }

  /** i neither is `pos` nor hangs from it. */
  predicate Away(i: nat, pos: nat) { i != pos && !Child(i, pos) }

  predicate Child(i: nat, pos: nat) { i == Left(pos) || i == Right(pos) }

  /** In order but for the item at `pos`: its parent and its children would be in order without it. */
  ghost predicate HeapBut(a: seq<Item>, pos: nat)
    requires pos < |a|
  {
    && (forall i :: 0 <= i < |a| && Away(i, pos) ==> Below(a, i))
    && (forall i :: 0 <= i < |a| && Child(i, pos) && pos > 0 ==> a[Parent(pos)].val <= a[i].val)
  }

  ghost predicate ChildrenOk(a: seq<Item>, pos: nat)
    requires pos < |a|
  {
    forall i :: 0 <= i < |a| && Child(i, pos) ==> a[pos].val <= a[i].val
  }

  function Swap(a: seq<Item>, i: nat, j: nat): seq<Item>
    requires i < |a| && j < |a|
  {
    a[i := a[j]][j := a[i]]
  }

  lemma SwapLinked(a: seq<Item>, x: Index, i: nat, j: nat)
    requires Linked(a, x) && i < |a| && j < |a| && i != j
    ensures var x' := x[a[j].ref := i][a[i].ref := j];
            Linked(Swap(a, i, j), x') && Deadlines(Swap(a, i, j), x') == Deadlines(a, x)
  {
  }

  /** The item at `pos` is below its parent, and in order with its children. */
  ghost predicate Rises(a: seq<Item>, pos: nat) {
    0 < pos < |a| && HeapBut(a, pos) && ChildrenOk(a, pos) && a[Parent(pos)].val > a[pos].val
  }

  lemma RaisedAt(a: seq<Item>, pos: nat, i: nat)
    requires Rises(a, pos) && i < |a| && Away(i, Parent(pos))
    ensures Below(Swap(a, pos, Parent(pos)), i)
  {
    if i > 0 {
      if Child(i, pos) {
        assert Parent(i) == pos;
      } else {
        assert Away(i, pos) && Below(a, i) && Parent(i) != pos && Parent(i) != Parent(pos);
      }
    }
  }

  lemma RaisedAbove(a: seq<Item>, pos: nat, i: nat)
    requires Rises(a, pos) && i < |a| && Child(i, Parent(pos))
    ensures var p := Parent(pos);
            var b := Swap(a, pos, p); b[p].val <= b[i].val && (p > 0 ==> b[Parent(p)].val <= b[i].val)
  {
    var p := Parent(pos);
    assert p < pos && Parent(i) == p;
    assert Below(a, p) by { assert Away(p, pos); }
    if i != pos {
      assert Below(a, i) by { assert Away(i, pos); }
    }
  }

  lemma SwapUp(a: seq<Item>, pos: nat)
    requires Rises(a, pos)
    ensures var b := Swap(a, pos, Parent(pos)); HeapBut(b, Parent(pos)) && ChildrenOk(b, Parent(pos))
  {
    var p := Parent(pos);
    var b := Swap(a, pos, p);
    forall i | 0 <= i < |b| && Away(i, p) ensures Below(b, i) { RaisedAt(a, pos, i); }
    forall i | 0 <= i < |b| && Child(i, p)
      ensures b[p].val <= b[i].val && (p > 0 ==> b[Parent(p)].val <= b[i].val)
    {
      RaisedAbove(a, pos, i);
    }
  }

  /** The item at `pos` is above its smaller child c. */
  ghost predicate Sinks(a: seq<Item>, pos: nat, c: nat) {
    && pos < c < |a| && Child(c, pos) && HeapBut(a, pos) && Below(a, pos) && a[c].val < a[pos].val
    && forall i :: 0 <= i < |a| && Child(i, pos) ==> a[c].val <= a[i].val
  }

  lemma SunkAt(a: seq<Item>, pos: nat, c: nat, i: nat)
    requires Sinks(a, pos, c) && i < |a| && Away(i, c)
    ensures Below(Swap(a, pos, c), i)
  {
    if i > 0 && i != pos {
      if Child(i, pos) {
        assert Parent(i) == pos;
      } else {
        assert Away(i, pos) && Below(a, i) && Parent(i) != pos && Parent(i) != c;
      }
    }
  }

  lemma SunkBelow(a: seq<Item>, pos: nat, c: nat, i: nat)
    requires Sinks(a, pos, c) && i < |a| && Child(i, c)
    ensures a[c].val <= a[i].val
  {
    assert Away(i, pos) && Below(a, i) && Parent(i) == c;
  }

  lemma SwapDown(a: seq<Item>, pos: nat, c: nat)
    requires Sinks(a, pos, c)
    ensures var b := Swap(a, pos, c); HeapBut(b, c) && Below(b, c)
  {
    var b := Swap(a, pos, c);
    assert Parent(c) == pos;
    forall i | 0 <= i < |b| && Away(i, c) ensures Below(b, i) { SunkAt(a, pos, c, i); }
    forall i | 0 <= i < |b| && Child(i, c) ensures b[pos].val <= b[i].val { SunkBelow(a, pos, c, i); }
  }

  /** An item that is in order with its parent and its children leaves a heap. */
  lemma Whole(a: seq<Item>, pos: nat)
    requires pos < |a| && HeapBut(a, pos) && ChildrenOk(a, pos) && Below(a, pos)
    ensures Heap(a)
  {
    forall i | 0 <= i < |a| ensures Below(a, i) {
      if Child(i, pos) { assert Parent(i) == pos; } else if i != pos { assert Away(i, pos); }
    }
  }

  /** Another value at one place. */
  lemma Replaced(a: seq<Item>, pos: nat, t: Item)
    requires Heap(a) && pos < |a|
    ensures HeapBut(a[pos := t], pos)
  {
    var b := a[pos := t];
    forall i | 0 <= i < |b| && Away(i, pos) ensures Below(b, i) { assert Below(a, i); }
    forall i | 0 <= i < |b| && Child(i, pos) && pos > 0 ensures b[Parent(pos)].val <= b[i].val {
      assert Below(a, i) && Below(a, pos) && Parent(i) == pos;
    }
  }

  /** A new last item. */
  lemma Pushed(a: seq<Item>, t: Item)
    requires Heap(a)
    ensures HeapBut(a + [t], |a|)
  {
    var b := a + [t];
    forall i | 0 <= i < |b| && Away(i, |a|) ensures Below(b, i) { assert Below(a, i); }
  }

  lemma Popped(a: seq<Item>)
    requires Heap(a) && a != []
    ensures Heap(a[..|a| - 1])
  {
    var b := a[..|a| - 1];
    forall i | 0 <= i < |b| ensures Below(b, i) { assert Below(a, i); }
  }

  /** The root is a minimum. */
  lemma {:induction false} RootMin(a: seq<Item>, i: nat)
    requires Heap(a) && i < |a|
    ensures a[0].val <= a[i].val
    decreases i
  {
    if i > 0 {
      assert Below(a, i);
      RootMin(a, Parent(i));
    }
  }

  // ---- the sifts, which move a hole and store the item at the end -------------------------------

  /** The heap and the index once the item t in hand is stored at `pos`; entries in `gone` are being
      removed and do not count. */
  ghost predicate InHand(a: seq<Item>, x: Index, pos: nat, t: Item, gone: set<EntryId>, m: map<EntryId, nat>) {
    && pos < |a| && t.ref !in gone
    && Linked(a[pos := t], (x - gone)[t.ref := pos]) && Deadlines(a[pos := t], (x - gone)[t.ref := pos]) == m
  }

  /** Moving the hole is swapping the item in hand with its neighbour. */
  lemma MoveHole(a: seq<Item>, x: Index, pos: nat, to: nat, t: Item, gone: set<EntryId>, m: map<EntryId, nat>)
    requires InHand(a, x, pos, t, gone, m) && to < |a| && to != pos
    ensures var a' := a[pos := a[to]]; InHand(a', x[a[to].ref := pos], to, t, gone, m)
    ensures a[pos := a[to]][to := t] == Swap(a[pos := t], pos, to)
  {
    var b, y := a[pos := t], (x - gone)[t.ref := pos];
    SwapLinked(b, y, pos, to);
    assert b[to] == a[to] && a[to].ref in y && a[to].ref != t.ref && a[to].ref !in gone;
    assert a[pos := a[to]][to := t] == Swap(b, pos, to);
    assert (x[a[to].ref := pos] - gone)[t.ref := to] == y[b[to].ref := pos][b[pos].ref := to];
  }

  lemma StoreItem(a: seq<Item>, x: Index, pos: nat, t: Item, gone: set<EntryId>, m: map<EntryId, nat>)
    requires InHand(a, x, pos, t, gone, m)
    ensures Linked(a[pos := t], x[t.ref := pos] - gone) && Deadlines(a[pos := t], x[t.ref := pos] - gone) == m
  {
    assert x[t.ref := pos] - gone == (x - gone)[t.ref := pos];
  }

  class Timers {
    var heap: seq<Item>
    var idx: Index
    var db: set<EntryId>      // every entry of the keyspace

    ghost predicate Valid()
      reads this
    {
      Heap(heap) && Linked(heap, idx) && forall e :: e in idx ==> e in db
    }

    /** The deadline of every entry that has one. */
    ghost function Ttls(): map<EntryId, nat>
      requires Valid()
      reads this
    {
      Deadlines(heap, idx)
    }

    constructor ()
      ensures Valid() && Ttls() == map[] && db == {}
    {
      heap, idx, db := [], map[], {};
    }

    /** `heap_up` */
    method HeapUp(pos0: nat, ghost gone: set<EntryId>, ghost m: map<EntryId, nat>)
      requires pos0 < |heap| && InHand(heap, idx, pos0, heap[pos0], gone, m) && HeapBut(heap, pos0)
      requires ChildrenOk(heap, pos0)
      modifies this`heap, this`idx
      ensures Heap(heap) && Linked(heap, idx - gone) && Deadlines(heap, idx - gone) == m
    {
      var t, pos := heap[pos0], pos0;
      assert heap[pos := t] == heap;
      while pos > 0 && heap[Parent(pos)].val > t.val
        invariant InHand(heap, idx, pos, t, gone, m) && HeapBut(heap[pos := t], pos) && ChildrenOk(heap[pos := t], pos)
      {
        var p := Parent(pos);
        SwapUp(heap[pos := t], pos);
        MoveHole(heap, idx, pos, p, t, gone, m);
        heap := heap[pos := heap[p]];
        idx := idx[heap[pos].ref := pos];
        pos := p;
      }
      StoreItem(heap, idx, pos, t, gone, m);
      Whole(heap[pos := t], pos);
      heap := heap[pos := t];
      idx := idx[t.ref := pos];
    }

    /** The smallest of the item in hand and the children of its place. */
    method MinOf(pos: nat, t: Item) returns (min: nat)
      requires pos < |heap|
      ensures min == pos ==> ChildrenOk(heap[pos := t], pos)
      ensures min != pos ==> min < |heap| && Child(min, pos) && heap[min].val < t.val
      ensures min != pos ==> forall i :: 0 <= i < |heap| && Child(i, pos) ==> heap[min].val <= heap[i].val
    {
      var l, r := Left(pos), Right(pos);
      min := pos;
      var v := t.val;
      if l < |heap| && heap[l].val < v { min, v := l, heap[l].val; }
      if r < |heap| && heap[r].val < v { min, v := r, heap[r].val; }
    }

    /** `heap_down` */
    method HeapDown(pos0: nat, ghost gone: set<EntryId>, ghost m: map<EntryId, nat>)
      requires pos0 < |heap| && InHand(heap, idx, pos0, heap[pos0], gone, m) && HeapBut(heap, pos0) && Below(heap, pos0)
      modifies this`heap, this`idx
      ensures Heap(heap) && Linked(heap, idx - gone) && Deadlines(heap, idx - gone) == m
    {
      var t, pos := heap[pos0], pos0;
      assert heap[pos := t] == heap;
      while true
        invariant InHand(heap, idx, pos, t, gone, m) && HeapBut(heap[pos := t], pos) && Below(heap[pos := t], pos)
        decreases |heap| - pos
      {
        var min := MinOf(pos, t);
        if min == pos { break; }
        SwapDown(heap[pos := t], pos, min);
        MoveHole(heap, idx, pos, min, t, gone, m);
        heap := heap[pos := heap[min]];
        idx := idx[heap[pos].ref := pos];
        pos := min;
      }
      StoreItem(heap, idx, pos, t, gone, m);
      Whole(heap[pos := t], pos);
      heap := heap[pos := t];
      idx := idx[t.ref := pos];
    }

    /** `heap_update` */
    method HeapUpdate(pos: nat, ghost gone: set<EntryId>, ghost m: map<EntryId, nat>)
      requires pos < |heap| && InHand(heap, idx, pos, heap[pos], gone, m) && HeapBut(heap, pos)
      modifies this`heap, this`idx
      ensures Heap(heap) && Linked(heap, idx - gone) && Deadlines(heap, idx - gone) == m
    {
      if pos > 0 && heap[Parent(pos)].val > heap[pos].val {
        HeapUp(pos, gone, m);
      } else {
        HeapDown(pos, gone, m);
      }
    }
  
    /** `heap_delete`: the last item takes the place of the one that goes. */
    method HeapDelete(pos: nat)
      requires Valid() && pos < |heap|
      modifies this`heap, this`idx
      ensures var e := old(heap[pos]).ref;
              Heap(heap) && Linked(heap, idx - {e}) && Deadlines(heap, idx - {e}) == old(Ttls()) - {e}
    {
      ghost var a, x, e, last := heap, idx, heap[pos].ref, |heap| - 1;
      heap := heap[pos := heap[|heap| - 1]];
      heap := heap[..|heap| - 1];
      Shrunk(a, x, pos);
      if pos < |heap| {
        assert heap == a[..last][pos := a[last]];
        HeapUpdate(pos, {e}, Deadlines(a, x) - {e});
      }
    }

    /** `heap_upsert` */
    method HeapUpsert(pos0: Option<nat>, t: Item)
      requires Valid() && (if pos0.Some? then t.ref in idx && idx[t.ref] == pos0.value else t.ref !in idx)
      modifies this`heap, this`idx
      ensures Heap(heap) && Linked(heap, idx) && Deadlines(heap, idx) == old(Ttls())[t.ref := t.val]
    {
      ghost var a, x := heap, idx;
      var pos;
      if pos0.Some? {
        pos := pos0.value;
        heap := heap[pos := t];
        Replaced(a, pos, t);
      } else {
        pos := |heap|;
        heap := heap + [t];
        Pushed(a, t);
      }
      Upserted(a, x, pos, t);
      HeapUpdate(pos, {}, Deadlines(a, x)[t.ref := t.val]);
      assert idx - {} == idx;
    }

    /** `entry_set_ttl` */
    method SetTtl(e: EntryId, ttlMs: int, now: nat)
      requires Valid() && e in db
      modifies this`heap, this`idx
      ensures Valid()
      ensures Ttls() == if ttlMs < 0 then old(Ttls()) - {e} else old(Ttls())[e := now + ttlMs]
    {
      if ttlMs < 0 && e in idx {
        HeapDelete(idx[e]);
        idx := idx - {e};
        assert forall k :: k in idx ==> k in Deadlines(heap, idx);
      } else if ttlMs >= 0 {
        HeapUpsert(if e in idx then Some(idx[e]) else None, Item(now + ttlMs, e));
        assert forall k :: k in idx ==> k in Deadlines(heap, idx);
      } else {
        assert Ttls() - {e} == Ttls();
      }
    }

    /** `hm_delete` and `entry_del` */
    method DeleteEntry(e: EntryId)
      requires Valid() && e in db
      modifies this
      ensures Valid() && db == old(db) - {e} && Ttls() == old(Ttls()) - {e}
    {
      SetTtl(e, -1, 0);
      db := db - {e};
    }

    /** The expiry sweep of `process_timers`: overdue keys go, until none is left or the batch is spent. */
    method Sweep(now: nat) returns (works: nat)
      requires Valid()
      modifies this
      ensures Valid() && db <= old(db) && works <= 2001 && |db| + works == |old(db)|
      ensures Swept(old(db), old(Ttls()), db, Ttls(), now)
      ensures works < 2001 ==> forall e :: e in Ttls() ==> Ttls()[e] > now
    {
      works := 0;
      ghost var m := Ttls();
      while heap != [] && heap[0].val <= now
        invariant Valid() && db <= old(db) && works <= 2000 && |db| + works == |old(db)|
        invariant Swept(old(db), m, db, Ttls(), now)
        decreases |db|
      {
        var e := heap[0].ref;
        assert e in Ttls() && Ttls()[e] == heap[0].val;
        DeleteEntry(e);
        works := works + 1;
        if works - 1 >= 2000 { return; }
      }
      if heap != [] { forall e | e in Ttls() ensures Ttls()[e] > now { RootMin(heap, idx[e]); } }
    }
  }

  /** Only overdue entries have gone, the others kept their deadlines, and none got one. */
  ghost predicate Swept(db: set<EntryId>, m: map<EntryId, nat>, db': set<EntryId>, m': map<EntryId, nat>, now: nat) {
    && (forall e :: e in db - db' ==> e in m && m[e] <= now)
    && (forall e :: e in db' && e in m ==> e in m' && m'[e] == m[e])
    && (forall e :: e in m' ==> e in m && m'[e] == m[e])
  }

  lemma Shrunk(a: seq<Item>, x: Index, pos: nat)
    requires Heap(a) && Linked(a, x) && pos < |a|
    ensures var e, last := a[pos].ref, |a| - 1; var b := a[..last];
            if pos < last then HeapBut(b[pos := a[last]], pos) && InHand(b, x, pos, a[last], {e}, Deadlines(a, x) - {e})
            else Heap(b) && Linked(b, x - {e}) && Deadlines(b, x - {e}) == Deadlines(a, x) - {e}
  {
    var e, last := a[pos].ref, |a| - 1;
    var b := a[..last];
    Popped(a);
    if pos < last { Replaced(b, pos, a[last]); }
  }

  lemma Upserted(a: seq<Item>, x: Index, pos: nat, t: Item)
    requires Linked(a, x) && (if pos < |a| then t.ref in x && x[t.ref] == pos else pos == |a| && t.ref !in x)
    ensures var b := if pos < |a| then a[pos := t] else a + [t];
            InHand(b, x, pos, t, {}, Deadlines(a, x)[t.ref := t.val])
  {
    var b := if pos < |a| then a[pos := t] else a + [t];
    assert b[pos := t] == b && x - {} == x;
  }
}
