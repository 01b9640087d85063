/** `hm_scan` of src/ds/hashtable.cpp: the cursor walk that survives rehashing. */
module Scan {
  import opened Common
  import opened Words
  import opened HashMap

  /** What one call sees: the chains of the newer table and, while rehashing, of the older one. */
  datatype Snap = Snap(nb: Buckets, nbits: nat, ob: Buckets, obits: nat)

  ghost predicate Sized(v: Snap) {
    && v.nbits <= 64 && v.obits <= 64
    && (v.nb == [] || |v.nb| == Pow2(v.nbits)) && (v.ob == [] || |v.ob| == Pow2(v.obits))
    && (v.nb == [] ==> v.ob == [])
  }

  /** The bits of `mbig`, the larger mask. */
  function Big(nbits: nat, rehashing: bool, obits: nat): nat {
    if rehashing && obits > nbits then obits else nbits
  }

  ghost function SnapBig(v: Snap): nat {
    Big(v.nbits, v.ob != [], v.obits)
  }

  /** The nodes one turn of the loop reports. */
  ghost function Visit(v: Snap, c: Word): seq<HNode>
    requires Sized(v) && v.nb != []
  {
    v.nb[Slot(c, v.nbits)] + if v.ob == [] then [] else v.ob[Slot(c, v.obits)]
  }

  /** One call: the returned cursor, and the nodes reported.  At least one bucket is visited. */
  ghost function Call(v: Snap, c: Word, count: nat): (Word, seq<HNode>)
    requires Sized(v)
    decreases count
  {
    if v.nb == [] then (Zero(), [])
    else
      var next := NextCursor(c, SnapBig(v));
      if next != Zero() && count > 1 then var r := Call(v, next, count - 1); (r.0, Visit(v, c) + r.1)
      else (next, Visit(v, c))
  }

  /** The node is in the bucket of its hash, in one of the tables. */
  ghost predicate Holds(v: Snap, n: HNode) {
    && Sized(v) && v.nb != []
    && (n in v.nb[Slot(n.hcode, v.nbits)] || (v.ob != [] && n in v.ob[Slot(n.hcode, v.obits)]))
  }

  lemma SlotAgrees(c: Word, h: Word, k: nat, bits: nat)
    requires bits <= k <= 64 && h[..k] == c[..k]
    ensures Slot(c, bits) == Slot(h, bits)
  {
    assert c[..bits] == c[..k][..bits] && h[..bits] == h[..k][..bits];
  }

  /** A turn reports the node, or the node's reversed hash is outside the interval the cursor passes. */
  lemma VisitCovers(v: Snap, c: Word, n: HNode)
    requires Holds(v, n)
    ensures var next := NextCursor(c, SnapBig(v));
            n in Visit(v, c) || RVal(n.hcode) < RVal(c) || (next != Zero() && RVal(n.hcode) >= RVal(next))
  {
    var k := SnapBig(v);
    var next := NextCursor(c, k);
    ZeroWord(next);
    if next == Zero() || RVal(n.hcode) < RVal(next) {
      CursorCovers(c, k, n.hcode);
      if n.hcode[..k] == c[..k] {
        SlotAgrees(c, n.hcode, k, v.nbits);
        if v.ob != [] { SlotAgrees(c, n.hcode, k, v.obits); }
      }
    }
  }

  lemma {:induction false} CallCovers(v: Snap, c: Word, count: nat, n: HNode)
    requires Holds(v, n)
    ensures var r := Call(v, c, count);
            n in r.1 || RVal(n.hcode) < RVal(c) || (r.0 != Zero() && RVal(n.hcode) >= RVal(r.0))
    decreases count
  {
    var next := NextCursor(c, SnapBig(v));
    VisitCovers(v, c, n);
    if next != Zero() && count > 1 { CallCovers(v, next, count - 1, n); }
  }

  lemma {:induction false} CallAdvances(v: Snap, c: Word, count: nat)
    requires Sized(v)
    ensures var r := Call(v, c, count).0; r == Zero() || RVal(r) > RVal(c)
    decreases count
  {
    if v.nb != [] {
      var next := NextCursor(c, SnapBig(v));
      CursorAdvances(c, SnapBig(v));
      ZeroWord(next);
      if next != Zero() && count > 1 { CallAdvances(v, next, count - 1); }
    }
  }

  // ---- a whole scan -------------------------------------------------------------

  datatype Request = Request(v: Snap, count: nat)

  ghost predicate AllSized(calls: seq<Request>) {
    forall i :: 0 <= i < |calls| ==> Sized(calls[i].v)
  }

  /** Calls chained by their cursors: the last cursor, and everything reported. */
  ghost function Run(calls: seq<Request>, c: Word): (Word, seq<HNode>)
    requires AllSized(calls)
  {
    if calls == [] then (c, [])
    else
      var r := Call(calls[0].v, c, calls[0].count);
      var rest := Run(calls[1..], r.0);
      (rest.0, r.1 + rest.1)
  }

  /** The client goes on until it is given the cursor 0. */
  ghost predicate Complete(calls: seq<Request>, c: Word)
    requires AllSized(calls)
  {
    && calls != []
    && var next := Call(calls[0].v, c, calls[0].count).0;
       if next == Zero() then |calls| == 1 else Complete(calls[1..], next)
  }

  ghost predicate AlwaysThere(calls: seq<Request>, n: HNode) {
    forall i :: 0 <= i < |calls| ==> Holds(calls[i].v, n)
  }

  lemma {:induction false} RunCovers(calls: seq<Request>, c: Word, n: HNode)
    requires AllSized(calls) && Complete(calls, c) && AlwaysThere(calls, n)
    ensures RVal(n.hcode) < RVal(c) || n in Run(calls, c).1
    decreases |calls|
  {
    var call := calls[0];
    var next := Call(call.v, c, call.count).0;
    CallCovers(call.v, c, call.count, n);
    if next != Zero() { RunCovers(calls[1..], next, n); }
  }

  /** Whatever happens to the tables between the calls, a scan from cursor 0 until it returns 0
      reports every node that was in the map at each of them. */
  lemma ScanComplete(calls: seq<Request>, n: HNode)
    requires AllSized(calls) && Complete(calls, Zero()) && AlwaysThere(calls, n)
    ensures n in Run(calls, Zero()).1
  {
    RunCovers(calls, Zero(), n);
    ZeroWord(Zero());
  }

  /** No cursor of the run is 0 yet. */
  ghost predicate Unfinished(calls: seq<Request>, c: Word)
    requires AllSized(calls)
  {
    calls == [] || var next := Call(calls[0].v, c, calls[0].count).0; next != Zero() && Unfinished(calls[1..], next)
  }

  /** The reversed cursor grows with every call, so no scan goes on for ever. */
  lemma {:induction false} ScanEnds(calls: seq<Request>, c: Word)
    requires AllSized(calls) && Unfinished(calls, c)
    ensures RVal(c) + |calls| < Pow2(64)
    decreases |calls|
  {
    if calls != [] {
      var next := Call(calls[0].v, c, calls[0].count).0;
      CallAdvances(calls[0].v, c, calls[0].count);
      ScanEnds(calls[1..], next);
    }
  }

  // ---- the code -----------------------------------------------------------------

  ghost function SnapOf(nw: HTab, od: HTab, g: Ghosts): Snap {
    Snap(g.nb, nw.bits, g.ob, od.bits)
  }

  /** What the map's invariant gives a scan. */
  lemma SnapHolds(nw: HTab, od: HTab, S: set<HNode>, g: Ghosts, n: HNode)
    requires Tables(nw, od, S, g) && (nw.tab == null ==> od.tab == null)
    ensures n in g.NN + g.ON ==> Holds(SnapOf(nw, od, g), n)
  {
  }

  lemma SnapSized(nw: HTab, od: HTab, S: set<HNode>, g: Ghosts)
    requires Tables(nw, od, S, g) && (nw.tab == null ==> od.tab == null)
    ensures var v := SnapOf(nw, od, g); Sized(v) && SnapBig(v) <= 64
    ensures var v := SnapOf(nw, od, g); (v.nb == [] <==> nw.tab == null) && (v.ob == [] <==> od.tab == null)
  {
  }

  /** The callback on every node of one chain. */
  method EmitChain(h: HTab, c: Word, ghost S: set<HNode>, ghost b: Buckets, ghost N: set<HNode>)
    returns (out: seq<HNode>)
    requires On(h, S, b, N) && h.tab != null
    ensures out == b[Slot(c, h.bits)]
  {
    ghost var nx, heads := NextView(S), h.tab[..];
    var pos := Slot(c, h.bits);
    ghost var j := 0;
    out := [];
    ChainStep(h.bits, h.size, nx, heads, b, N, pos, 0);
    var n := h.tab[pos];
    while n != null
      invariant j <= |b[pos]| && n == Elem(b[pos], j) && out == b[pos][..j]
      decreases |b[pos]| - j
    {
      ChainStep(h.bits, h.size, nx, heads, b, N, pos, j);
      out := out + [n];
      n := n.next;
      j := j + 1;
    }
  }

  /** Both chains of one turn. */
  method EmitBoth(nw: HTab, od: HTab, c: Word, ghost S: set<HNode>, ghost g: Ghosts) returns (out: seq<HNode>)
    requires Tables(nw, od, S, g) && nw.tab != null
    ensures Tables(nw, od, S, g)
    ensures var v := SnapOf(nw, od, g); Sized(v) && v.nb != [] && out == Visit(v, c)
  {
    ghost var nx, nh, oh := NextView(S), Heads(nw), Heads(od);
    out := EmitChain(nw, c, S, g.nb, g.NN);
    if od.tab != null {
      var e := EmitChain(od, c, S, g.ob, g.ON);
      out := out + e;
    }
    assert NextView(S) == nx && Heads(nw) == nh && Heads(od) == oh;
  }

  /** With `left` turns to go from cursor c, the call as a whole reports `out` first. */
  ghost predicate Going(v: Snap, c0: Word, count: nat, c: Word, left: nat, out: seq<HNode>) {
    && Sized(v) && v.nb != []
    && forall n: nat {:trigger Shown(OfState, n)} :: Shown(OfState, n) ==>
         Call(v, c0, count) == (Call(v, c, left).0, out + Call(v, c, left).1)
  }

  ghost predicate Called(v: Snap, c0: Word, count: nat, c: Word, out: seq<HNode>) {
    Sized(v) && forall n: nat {:trigger Shown(OfState, n)} :: Shown(OfState, n) ==> Call(v, c0, count) == (c, out)
  }

  lemma CallIs(v: Snap, c0: Word, count: nat, c: Word, out: seq<HNode>)
    requires Called(v, c0, count, c, out)
    ensures Call(v, c0, count) == (c, out)
  {
    assert Shown(OfState, 0);
  }

  lemma GoingStart(v: Snap, c: Word, count: nat)
    requires Sized(v) && v.nb != []
    ensures Going(v, c, count, c, count, [])
  {
    NothingBefore(Call(v, c, count));
  }

  lemma NothingBefore(r: (Word, seq<HNode>))
    ensures r == (r.0, [] + r.1)
  {
    assert [] + r.1 == r.1;
  }

  lemma GoingNext(v: Snap, c0: Word, count: nat, c: Word, left: nat, out: seq<HNode>)
    requires Going(v, c0, count, c, left, out)
    ensures var next := NextCursor(c, SnapBig(v)); var out' := out + Visit(v, c);
            if next != Zero() && left > 1 then Going(v, c0, count, next, left - 1, out')
            else Called(v, c0, count, next, out')
  {
    assert Shown(OfState, 0);
    var next := NextCursor(c, SnapBig(v));
    if next != Zero() && left > 1 {
      var r := Call(v, next, left - 1);
      assert out + (Visit(v, c) + r.1) == (out + Visit(v, c)) + r.1;
    }
  }

  /** The loop is over, or has `left` turns to go. */
  ghost predicate Scanning(v: Snap, c0: Word, count: nat, c: Word, left: int, out: seq<HNode>) {
    if c != Zero() && left > 0 then Going(v, c0, count, c, left, out)
    else Called(v, c0, count, c, out)
  }

  /** One turn of the loop. */
  method Turn(nw: HTab, od: HTab, big: nat, ghost c0: Word, ghost count: nat, c: Word, ghost left: nat, out: seq<HNode>,
              ghost S: set<HNode>, ghost g: Ghosts)
    returns (c': Word, out': seq<HNode>)
    requires Tables(nw, od, S, g) && nw.tab != null && big == SnapBig(SnapOf(nw, od, g)) <= 64
    requires Going(SnapOf(nw, od, g), c0, count, c, left, out)
    ensures Tables(nw, od, S, g) && Scanning(SnapOf(nw, od, g), c0, count, c', left - 1, out')
  {
    var e := EmitBoth(nw, od, c, S, g);
    GoingNext(SnapOf(nw, od, g), c0, count, c, left, out);
    c', out' := NextCursor(c, big), out + e;
  }

  /** The do-while loop of `hm_scan`. */
  method ScanLoop(nw: HTab, od: HTab, big: nat, cursor0: Word, count: nat, ghost S: set<HNode>, ghost g: Ghosts)
    returns (cursor: Word, out: seq<HNode>)
    requires Tables(nw, od, S, g) && nw.tab != null && big == SnapBig(SnapOf(nw, od, g)) <= 64
    requires Going(SnapOf(nw, od, g), cursor0, count, cursor0, count, [])
    ensures Call(SnapOf(nw, od, g), cursor0, count) == (cursor, out)
  {
    cursor, out := Turn(nw, od, big, cursor0, count, cursor0, count, [], S, g);
    var scanned := 1;
    while cursor != Zero() && scanned < count
      invariant Tables(nw, od, S, g) && Scanning(SnapOf(nw, od, g), cursor0, count, cursor, count - scanned, out)
      decreases count - scanned
    {
      cursor, out := Turn(nw, od, big, cursor0, count, cursor, count - scanned, out, S, g);
      scanned := scanned + 1;
    }
    CallIs(SnapOf(nw, od, g), cursor0, count, cursor, out);
  }

  /** `hm_scan` */
  method ScanTables(nw: HTab, od: HTab, cursor0: Word, count: nat, ghost S: set<HNode>, ghost g: Ghosts)
    returns (cursor: Word, out: seq<HNode>)
    requires Tables(nw, od, S, g) && (nw.tab == null ==> od.tab == null)
    ensures Sized(SnapOf(nw, od, g)) && Call(SnapOf(nw, od, g), cursor0, count) == (cursor, out)
  {
    SnapSized(nw, od, S, g);
    if nw.tab == null { return Zero(), []; }
    GoingStart(SnapOf(nw, od, g), cursor0, count);
    cursor, out := ScanLoop(nw, od, Big(nw.bits, od.tab != null, od.bits), cursor0, count, S, g);
  }
}
