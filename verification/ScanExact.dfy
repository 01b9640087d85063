/** How often a scan reports a node: the other half of `Scan.ScanComplete`. */
module ScanExact {
  import opened Common
  import opened Words
  import opened HashMap
  import opened Scan

  // ---- tables that hold each node once -----------------------------------------------------------

  /** Every node of N is once in the bucket of its hash, and nothing else is in the table. */
  ghost predicate Each(b: Buckets, bits: nat, N: set<HNode>) {
    && bits <= 64 && (b == [] ==> N == {})
    && (forall i :: 0 <= i < |b| ==> Unique(b[i]) && forall n :: n in b[i] ==> n in N && Slot(n.hcode, bits) == i)
    && forall n :: n in N ==> Slot(n.hcode, bits) < |b| && n in b[Slot(n.hcode, bits)]
  }

  /** What a call sees: the nodes NN in the newer table and ON in the older one. */
  ghost predicate Exact(v: Snap, NN: set<HNode>, ON: set<HNode>) {
    Sized(v) && NN !! ON && Each(v.nb, v.nbits, NN) && Each(v.ob, v.obits, ON)
  }

  lemma {:induction false} UniqueOnce(c: seq<HNode>, n: HNode)
    requires Unique(c)
    ensures multiset(c)[n] == if n in c then 1 else 0
  {
    if c != [] {
      var m := |c| - 1;
      assert c == c[..m] + [c[m]];
      UniqueOnce(c[..m], n);
    }
  }

  lemma EachTimes(b: Buckets, bits: nat, N: set<HNode>, i: nat, n: HNode)
    requires Each(b, bits, N) && i < |b|
    ensures multiset(b[i])[n] == if n in N && Slot(n.hcode, bits) == i then 1 else 0
  {
    UniqueOnce(b[i], n);
  }

  lemma TableEach(h: HTab, nx: Links, heads: seq<HNode?>, b: Buckets, N: set<HNode>)
    requires HTabOk(h, nx, heads, b, N) && h.bits <= 64
    ensures Each(b, h.bits, N)
  {
    forall i | 0 <= i < |b| ensures Unique(b[i]) && forall n :: n in b[i] ==> n in N && Slot(n.hcode, h.bits) == i {
      assert BucketOk(nx, heads[i], b[i], i, h.bits, N);
    }
  }

  /** What the map's invariant gives a scan. */
  lemma TablesExact(nw: HTab, od: HTab, S: set<HNode>, g: Ghosts)
    requires Tables(nw, od, S, g) && (nw.tab == null ==> od.tab == null)
    ensures Exact(SnapOf(nw, od, g), g.NN, g.ON)
  {
    SnapSized(nw, od, S, g);
    TableEach(nw, NextView(S), Heads(nw), g.nb, g.NN);
    TableEach(od, NextView(S), Heads(od), g.ob, g.ON);
  }

  // ---- positions ---------------------------------------------------------------------------------

  /** The place of the cursor's bucket in the order of the walk, among 2^k. */
  ghost function Pos(c: Word, k: nat): (p: nat)
    requires k <= 64
    ensures p < Pow2(k)
  {
    RVal(c[..k])
  }

  /** Of the 2^k places, the first that belongs to the bucket of h in a table of 2^bits; there are 2^(k - bits). */
  ghost function First(h: Word, bits: nat, k: nat): nat
    requires bits <= k <= 64
  {
    Pos(h, bits) * Pow2(k - bits)
  }

  lemma PosSplit(c: Word, bits: nat, k: nat)
    requires bits <= k <= 64
    ensures Pos(c, k) == Pos(c, bits) * Pow2(k - bits) + RVal(c[bits..k]) && RVal(c[bits..k]) < Pow2(k - bits)
  {
    hide RVal, Pow2;
    assert c[..k] == c[..bits] + c[bits..k];
    RValSplit(c[..bits], c[bits..k]);
  }

  lemma SameSlot(c: Word, h: Word, bits: nat)
    requires bits <= 64
    ensures Slot(c, bits) == Slot(h, bits) <==> Pos(c, bits) == Pos(h, bits)
  {
    if Pos(c, bits) == Pos(h, bits) { RValInjective(c[..bits], h[..bits]); }
    if Slot(c, bits) == Slot(h, bits) { ValInjective(c[..bits], h[..bits]); }
  }

  lemma {:induction false} ValInjective(u: seq<bool>, v: seq<bool>)
    requires |u| == |v| && Val(u) == Val(v)
    ensures u == v
  {
    if u != [] {
      assert u[0] == v[0];
      ValInjective(u[1..], v[1..]);
    }
  }

  /** The cursor's bucket in a table of 2^bits is the one of h exactly on h's stretch of places. */
  lemma SlotByPlace(c: Word, h: Word, bits: nat, k: nat)
    requires bits <= k <= 64
    ensures Slot(c, bits) == Slot(h, bits) <==> First(h, bits, k) <= Pos(c, k) < First(h, bits, k) + Pow2(k - bits)
  {
    SameSlot(c, h, bits);
    PosSplit(c, bits, k);
    var p, q, w := Pos(c, bits), Pos(h, bits), Pow2(k - bits);
    if p < q { LessTimes(p, q, w); }
    if q < p { LessTimes(q, p, w); }
  }

  /** How many places two stretches have in common. */
  function Overlap(a: int, b: int, x: int, y: int): nat {
    var lo, hi := if a < x then x else a, if b < y then b else y;
    if lo < hi then hi - lo else 0
  }

  // ---- one call ----------------------------------------------------------------------------------

  /** How many buckets a call visits: `count` or what is left, and at least one. */
  ghost function Visits(v: Snap, c: Word, count: nat): (m: nat)
    requires Sized(v) && SnapBig(v) <= 64
    ensures 1 <= m && Pos(c, SnapBig(v)) + m <= Pow2(SnapBig(v))
  {
    if count <= 1 then 1 else Min(count, Pow2(SnapBig(v)) - Pos(c, SnapBig(v)))
  }

  lemma NextPlace(c: Word, k: nat)
    requires k <= 64
    ensures NextCursor(c, k) == Zero() <==> Pos(c, k) + 1 == Pow2(k)
    ensures NextCursor(c, k) != Zero() ==> AtPlace(NextCursor(c, k), k, Pos(c, k) + 1)
  {
    hide NextCursor, RVal, Pow2, Zero;
    var next := NextCursor(c, k);
    NextCursorVal(c, k);
    ZeroWord(next);
    RValHigh(next, k);
    if Pos(c, k) + 1 != Pow2(k) { Places(Pos(c, k) + 1, Pos(next, k), RVal(next[k..]), Pow2(64 - k)); }
  }

  lemma Places(p: nat, q: nat, r: nat, w: nat)
    requires p > 0 && r < w && q * w + r == p * w
    ensures q == p && p * w > 0
  {
    if q < p { LessTimes(q, p, w); }
    if p < q { LessTimes(p, q, w); }
  }

  /** The cursor is the start of the p-th bucket in the order of the walk. */
  ghost predicate AtPlace(c: Word, k: nat, p: nat)
    requires k <= 64
  {
    Pos(c, k) == p && RVal(c) == p * Pow2(64 - k)
  }

  /** The cursor a call returns is as many buckets on as it visited, or 0 after the last one. */
  lemma {:induction false} CallPlace(v: Snap, c: Word, count: nat)
    requires Sized(v) && v.nb != [] && SnapBig(v) <= 64
    ensures var k, r, p := SnapBig(v), Call(v, c, count).0, Pos(c, SnapBig(v)) + Visits(v, c, count);
            (r == Zero() <==> p == Pow2(k)) && (r != Zero() ==> AtPlace(r, k, p))
    decreases count
  {
    hide NextCursor, RVal, Pow2, Zero, Visit, Due;
    var k := SnapBig(v);
    var next := NextCursor(c, k);
    NextPlace(c, k);
    if next != Zero() && count > 1 {
      CallPlace(v, next, count - 1);
    }
  }

  /** The places of node n, among the places a call passes. */
  ghost function Due(v: Snap, NN: set<HNode>, ON: set<HNode>, n: HNode, a: int, b: int): nat
    requires Sized(v) && SnapBig(v) <= 64 && (v.ob == [] ==> ON == {})
  {
    var k := SnapBig(v);
    if n in NN then Overlap(a, b, First(n.hcode, v.nbits, k), First(n.hcode, v.nbits, k) + Pow2(k - v.nbits))
    else if n in ON then Overlap(a, b, First(n.hcode, v.obits, k), First(n.hcode, v.obits, k) + Pow2(k - v.obits))
    else 0
  }

  lemma DueThen(v: Snap, NN: set<HNode>, ON: set<HNode>, n: HNode, a: int, b: int, c: int)
    requires Sized(v) && SnapBig(v) <= 64 && (v.ob == [] ==> ON == {}) && a <= b <= c
    ensures Due(v, NN, ON, n, a, b) + Due(v, NN, ON, n, b, c) == Due(v, NN, ON, n, a, c)
  {
    hide RVal, Pow2, First;
  }

  lemma VisitTimes(v: Snap, NN: set<HNode>, ON: set<HNode>, c: Word, n: HNode)
    requires Exact(v, NN, ON) && v.nb != []
    ensures var p := Pos(c, SnapBig(v)); multiset(Visit(v, c))[n] == Due(v, NN, ON, n, p, p + 1)
  {
    var k := SnapBig(v);
    SlotByPlace(c, n.hcode, v.nbits, k);
    EachTimes(v.nb, v.nbits, NN, Slot(c, v.nbits), n);
    if v.ob != [] {
      SlotByPlace(c, n.hcode, v.obits, k);
      EachTimes(v.ob, v.obits, ON, Slot(c, v.obits), n);
    }
  }

  /** A call reports a node as often as it passes a place of it: nothing else, and nothing too often. */
  lemma {:induction false} CallTimes(v: Snap, NN: set<HNode>, ON: set<HNode>, c: Word, count: nat, n: HNode)
    requires Exact(v, NN, ON) && v.nb != []
    ensures var p := Pos(c, SnapBig(v));
            multiset(Call(v, c, count).1)[n] == Due(v, NN, ON, n, p, p + Visits(v, c, count))
    decreases count
  {
    hide NextCursor, RVal, Pow2, Zero, Visit, Due;
    var k := SnapBig(v);
    var next := NextCursor(c, k);
    VisitTimes(v, NN, ON, c, n);
    NextPlace(c, k);
    if next != Zero() && count > 1 {
      CallTimes(v, NN, ON, next, count - 1, n);
      DueThen(v, NN, ON, n, Pos(c, k), Pos(c, k) + 1, Pos(c, k) + Visits(v, c, count));
    }
  }

  // ---- a whole scan of tables that stay as they are ------------------------------------------------

  ghost predicate AllOf(calls: seq<Request>, v: Snap) {
    forall i :: 0 <= i < |calls| ==> calls[i].v == v
  }

  lemma {:induction false} RunTimes(calls: seq<Request>, v: Snap, NN: set<HNode>, ON: set<HNode>, c: Word, n: HNode)
    requires Exact(v, NN, ON) && v.nb != [] && AllOf(calls, v) && AllSized(calls) && Complete(calls, c)
    ensures multiset(Run(calls, c).1)[n] == Due(v, NN, ON, n, Pos(c, SnapBig(v)), Pow2(SnapBig(v)))
    decreases |calls|
  {
    hide NextCursor, RVal, Pow2, Zero, Call, Visits, Due;
    var count := calls[0].count;
    var next := Call(v, c, count).0;
    CallTimes(v, NN, ON, c, count, n);
    CallPlace(v, c, count);
    if next == Zero() {
      assert calls[1..] == [];
    } else {
      RunTimes(calls[1..], v, NN, ON, next, n);
      DueThen(v, NN, ON, n, Pos(c, SnapBig(v)), Pos(next, SnapBig(v)), Pow2(SnapBig(v)));
    }
  }

  /** A complete scan of tables that stay as they are, in calls of any size, reports each node of the larger
      table once, each node of a smaller one as often as the larger is larger, and nothing else. */
  lemma ScanTimes(calls: seq<Request>, v: Snap, NN: set<HNode>, ON: set<HNode>, n: HNode)
    requires Exact(v, NN, ON) && AllOf(calls, v) && AllSized(calls) && Complete(calls, Zero())
    ensures multiset(Run(calls, Zero()).1)[n] ==
              if n in NN then Pow2(SnapBig(v) - v.nbits) else if n in ON then Pow2(SnapBig(v) - v.obits) else 0
  {
    hide NextCursor, RVal, Pow2, Call, Run, First, Complete;
    if v.nb != [] {
      var k := SnapBig(v);
      RunTimes(calls, v, NN, ON, Zero(), n);
      RValZeros(k);
      assert Zero()[..k] == seq(k, i => false);
      if n in NN { Stretch(n.hcode, v.nbits, k); }
      if n in ON { Stretch(n.hcode, v.obits, k); }
    } else {
      NothingThere(calls, v, Zero());
    }
  }

  lemma NothingThere(calls: seq<Request>, v: Snap, c: Word)
    requires Sized(v) && v.nb == [] && AllOf(calls, v) && AllSized(calls) && Complete(calls, c)
    ensures Run(calls, c).1 == []
  {
    assert calls[1..] == [];
  }

  /** A node's stretch lies within the walk. */
  lemma Stretch(h: Word, bits: nat, k: nat)
    requires bits <= k <= 64
    ensures First(h, bits, k) + Pow2(k - bits) <= Pow2(k)
  {
    LessTimes(Pos(h, bits), Pow2(bits), Pow2(k - bits));
    PowAdd(bits, k - bits);
  }

  lemma OnceUnique(c: seq<HNode>)
    requires forall n :: n in c ==> multiset(c)[n] == 1
    ensures Unique(c)
  {
    forall i, j | 0 <= i < j < |c| ensures c[i] != c[j] {
      assert c == c[..j] + c[j..] && c[i] == c[..j][i] && c[j] == c[j..][0];
      assert multiset(c)[c[i]] == multiset(c[..j])[c[i]] + multiset(c[j..])[c[i]];
    }
  }

  /** Without an older table, that is the map's nodes, each once. */
  lemma ScanOnce(calls: seq<Request>, v: Snap, NN: set<HNode>)
    requires Exact(v, NN, {}) && v.ob == [] && AllOf(calls, v) && AllSized(calls) && Complete(calls, Zero())
    ensures var out := Run(calls, Zero()).1; Unique(out) && forall n :: n in out <==> n in NN
  {
    hide NextCursor, RVal, Call, Run, Complete, Exact;
    var out := Run(calls, Zero()).1;
    forall n | n in out ensures multiset(out)[n] == 1 && n in NN {
      assert n in multiset(out);
      ScanTimes(calls, v, NN, {}, n);
    }
    forall n | n in NN ensures n in out {
      ScanTimes(calls, v, NN, {}, n);
      assert n in multiset(out);
    }
    OnceUnique(out);
  }
}
