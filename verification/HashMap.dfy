/** The chained hash map with progressive rehashing of src/ds/hashtable.cpp. */
module HashMap {
  import opened Words

  class HNode {
    var next: HNode?
    const hcode: Word

    constructor (hcode: Word)
      ensures this.hcode == hcode && next == null
    {
      this.hcode, next := hcode, null;
    }
  }

  /** A fixed-size table.  `mask` is 2^bits - 1; a null array is the empty `HTab{}`. */
  datatype HTab = HTab(tab: array?<HNode?>, bits: nat, size: nat)

  const NoTab := HTab(null, 0, 0)

  /** `hcode & mask` */
  function Slot(h: Word, bits: nat): (i: nat)
    requires bits <= 64
    ensures i < Pow2(bits)
  {
    Val(h[..bits])
  }

  // ---- chains ------------------------------------------------------------------

  type Links = map<HNode, HNode?>

  ghost function NextView(S: set<HNode>): (nx: Links)
    reads S`next
    ensures nx.Keys == S
  {
    map x | x in S :: x.next
  }

  ghost function Elem(c: seq<HNode>, j: nat): HNode? {
    if j < |c| then c[j] else null
  }

  /** The chain that starts at `head` is c. */
  ghost predicate Chain(nx: Links, head: HNode?, c: seq<HNode>) {
    && head == Elem(c, 0)
    && forall j :: 0 <= j < |c| ==> c[j] in nx && nx[c[j]] == Elem(c, j + 1)
  }

  ghost predicate Unique(c: seq<HNode>) {
    forall i, j :: 0 <= i < j < |c| ==> c[i] != c[j]
  }

  type Buckets = seq<seq<HNode>>

  /** Bucket i: a chain of distinct nodes of N that hash to i. */
  ghost predicate BucketOk(nx: Links, head: HNode?, c: seq<HNode>, i: int, bits: nat, N: set<HNode>) {
    && bits <= 64 && Chain(nx, head, c) && Unique(c)
    && forall n :: n in c ==> n in N && Slot(n.hcode, bits) == i
  }

  /** The table's chains are b, and they hold exactly the nodes N, each in the bucket of its hash. */
  ghost predicate TabOk(bits: nat, size: nat, nx: Links, heads: seq<HNode?>, b: Buckets, N: set<HNode>) {
    && bits <= 64 && |heads| == |b| == Pow2(bits) && size == |N|
    && (forall i :: 0 <= i < |b| ==> BucketOk(nx, heads[i], b[i], i, bits, N))
    && (forall n :: n in N ==> n in b[Slot(n.hcode, bits)])
  }

  ghost predicate NextSame(nx: Links, nx': Links, s: set<HNode>) {
    forall x :: x in s && x in nx ==> x in nx' && nx'[x] == nx[x]
  }

  lemma BucketFrame(nx: Links, nx': Links, head: HNode?, c: seq<HNode>, i: int, bits: nat, N: set<HNode>,
      N': set<HNode>)
    requires BucketOk(nx, head, c, i, bits, N)
    requires forall j :: 0 <= j < |c| ==> c[j] in N' && c[j] in nx' && nx'[c[j]] == nx[c[j]]
    ensures BucketOk(nx', head, c, i, bits, N')
  {
  }

  lemma TabFrame(bits: nat, size: nat, nx: Links, nx': Links, heads: seq<HNode?>, b: Buckets, N: set<HNode>)
    requires TabOk(bits, size, nx, heads, b, N) && NextSame(nx, nx', N)
    ensures TabOk(bits, size, nx', heads, b, N)
  {
    forall i | 0 <= i < |b| ensures BucketOk(nx', heads[i], b[i], i, bits, N) {
      var c := b[i];
      forall j | 0 <= j < |c| ensures c[j] in N && c[j] in nx' && nx'[c[j]] == nx[c[j]] { assert c[j] in c; }
      BucketFrame(nx, nx', heads[i], c, i, bits, N, N);
    }
  }

  lemma BucketPush(nx: Links, head: HNode?, c: seq<HNode>, i: int, bits: nat, N: set<HNode>, n: HNode)
    requires BucketOk(nx, head, c, i, bits, N) && n !in N && Slot(n.hcode, bits) == i
    ensures BucketOk(nx[n := head], n, [n] + c, i, bits, N + {n})
  {
    var nx', c' := nx[n := head], [n] + c;
    forall j | 0 <= j < |c'| ensures c'[j] in nx' && nx'[c'[j]] == Elem(c', j + 1) {
      if j > 0 { assert c'[j] == c[j - 1] && c[j - 1] in c; }
    }
    forall k, j | 0 <= k < j < |c'| ensures c'[k] != c'[j] {
      assert c'[j] == c[j - 1] && c[j - 1] in c;
      if k > 0 { assert c'[k] == c[k - 1]; }
    }
  }

  /** `h_insert`: the node becomes the head of its chain. */
  lemma TabPush(bits: nat, size: nat, nx: Links, heads: seq<HNode?>, b: Buckets, N: set<HNode>, n: HNode)
    requires TabOk(bits, size, nx, heads, b, N) && n !in N
    ensures var i := Slot(n.hcode, bits);
            TabOk(bits, size + 1, nx[n := heads[i]], heads[i := n], b[i := [n] + b[i]], N + {n})
  {
    var i := Slot(n.hcode, bits);
    var nx', heads', b' := nx[n := heads[i]], heads[i := n], b[i := [n] + b[i]];
    forall k | 0 <= k < |b| ensures BucketOk(nx', heads'[k], b'[k], k, bits, N + {n}) {
      var c := b[k];
      assert BucketOk(nx, heads[k], c, k, bits, N);
      if k == i {
        BucketPush(nx, heads[i], c, i, bits, N, n);
      } else {
        forall j | 0 <= j < |c| ensures c[j] in N && c[j] in nx' && nx'[c[j]] == nx[c[j]] { assert c[j] in c; }
        BucketFrame(nx, nx', heads[k], c, k, bits, N, N + {n});
      }
    }
  }

  /** Where the k-th node of a chain without its j-th was before, and what it links to now. */
  lemma PoppedAt(nx: Links, c: seq<HNode>, j: nat, k: nat)
    requires Chain(nx, Elem(c, 0), c) && Unique(c) && j < |c| && k < |c| - 1
    ensures var c' := c[..j] + c[j + 1..];
            var nx' := if j == 0 then nx else nx[c[j - 1] := nx[c[j]]];
            c'[k] in c && c'[k] != c[j] && c'[k] in nx' && nx'[c'[k]] == Elem(c', k + 1)
  {
    var i := if k < j then k else k + 1;
    assert (c[..j] + c[j + 1..])[k] == c[i];
  }

  lemma UniquePop(c: seq<HNode>, j: nat)
    requires Unique(c) && j < |c|
    ensures Unique(c[..j] + c[j + 1..])
  {
  }

  lemma BucketPop(nx: Links, head: HNode?, c: seq<HNode>, i: int, bits: nat, N: set<HNode>, j: nat)
    requires BucketOk(nx, head, c, i, bits, N) && j < |c|
    ensures var n := c[j];
            var nx' := if j == 0 then nx else nx[c[j - 1] := nx[n]];
            BucketOk(nx', if j == 0 then nx[n] else head, c[..j] + c[j + 1..], i, bits, N - {n})
  {
    var n, c' := c[j], c[..j] + c[j + 1..];
    var nx' := if j == 0 then nx else nx[c[j - 1] := nx[n]];
    forall k | 0 <= k < |c'| ensures c'[k] in c && c'[k] != n && c'[k] in nx' && nx'[c'[k]] == Elem(c', k + 1) {
      PoppedAt(nx, c, j, k);
    }
    UniquePop(c, j);
  }

  lemma StillThere(c: seq<HNode>, j: nat, x: HNode)
    requires j < |c| && x in c && x != c[j]
    ensures x in c[..j] + c[j + 1..]
  {
    var k :| 0 <= k < |c| && c[k] == x;
    assert (c[..j] + c[j + 1..])[if k < j then k else k - 1] == x;
  }

  /** `h_detach`: the link to the node is replaced by the node's own link. */
  lemma TabPop(bits: nat, size: nat, nx: Links, heads: seq<HNode?>, b: Buckets, N: set<HNode>, i: nat, j: nat)
    requires TabOk(bits, size, nx, heads, b, N) && i < |b| && j < |b[i]|
    ensures size > 0 && b[i][j] in N
    ensures var c := b[i]; var n := c[j];
            var heads' := if j == 0 then heads[i := nx[n]] else heads;
            var nx' := if j == 0 then nx else nx[c[j - 1] := nx[n]];
            TabOk(bits, size - 1, nx', heads', b[i := c[..j] + c[j + 1..]], N - {n})
  {
    var c := b[i];
    var n, c' := c[j], c[..j] + c[j + 1..];
    assert BucketOk(nx, heads[i], c, i, bits, N) && n in c;
    assert n in N;
    var heads', b' := if j == 0 then heads[i := nx[n]] else heads, b[i := c'];
    var nx' := if j == 0 then nx else nx[c[j - 1] := nx[n]];
    forall k | 0 <= k < |b| ensures BucketOk(nx', heads'[k], b'[k], k, bits, N - {n}) {
      assert BucketOk(nx, heads[k], b[k], k, bits, N);
      if k == i {
        BucketPop(nx, heads[i], c, i, bits, N, j);
      } else {
        forall l | 0 <= l < |b[k]| ensures b[k][l] in N - {n} && b[k][l] in nx' && nx'[b[k][l]] == nx[b[k][l]] {
          assert b[k][l] in b[k];
          if j > 0 { assert c[j - 1] in c; }
        }
        BucketFrame(nx, nx', heads[k], b[k], k, bits, N, N - {n});
      }
    }
    forall x | x in N - {n} ensures x in b'[Slot(x.hcode, bits)] {
      assert x in b[Slot(x.hcode, bits)];
      if Slot(x.hcode, bits) == i { StillThere(c, j, x); }
    }
  }

  // ---- one table in the heap ---------------------------------------------------

  ghost function Heads(h: HTab): seq<HNode?>
    reads h.tab
  {
    if h.tab == null then [] else h.tab[..]
  }

  ghost predicate HTabOk(h: HTab, nx: Links, heads: seq<HNode?>, b: Buckets, N: set<HNode>) {
    if h.tab == null then h == NoTab && b == [] && N == {}
    else N <= nx.Keys && TabOk(h.bits, h.size, nx, heads, b, N)
  }

  ghost predicate On(h: HTab, S: set<HNode>, b: Buckets, N: set<HNode>)
    reads S`next, h.tab
  {
    HTabOk(h, NextView(S), Heads(h), b, N)
  }

  /** `h_insert` */
  method HInsert(h: HTab, node: HNode, ghost S: set<HNode>, ghost b: Buckets, ghost N: set<HNode>)
    returns (h': HTab, ghost b': Buckets)
    requires On(h, S, b, N) && h.tab != null && node in S && node !in N
    modifies node`next, h.tab
    ensures h' == h.(size := h.size + 1) && On(h', S, b', N + {node})
    ensures b' == b[Slot(node.hcode, h.bits) := [node] + b[Slot(node.hcode, h.bits)]]
    ensures NextSame(old(NextView(S)), NextView(S), S - {node})
  {
    ghost var nx, heads := NextView(S), h.tab[..];
    TabPush(h.bits, h.size, nx, heads, b, N, node);
    var pos := Slot(node.hcode, h.bits);
    node.next := h.tab[pos];
    assert NextView(S) == nx[node := heads[pos]];
    StoreLink(h, AtHead(pos), node, S);
    h' := h.(size := h.size + 1);
    b' := b[pos := [node] + b[pos]];
  }

  /** What a `HNode **` points to: a slot of the table, or the `next` field of a node. */
  datatype Link = Missing | AtHead(pos: nat) | AfterNode(prev: HNode)

  /** The link points to the j-th node of chain i. */
  ghost predicate PointsAt(link: Link, b: Buckets, i: nat, j: nat) {
    && i < |b| && j < |b[i]|
    && if j == 0 then link == AtHead(i) else link == AfterNode(b[i][j - 1])
  }

  predicate Matches(n: HNode, hcode: Word, eq: HNode -> bool) {
    n.hcode == hcode && eq(n)
  }

  /** What a search of the nodes N may answer: null exactly when none matches. */
  ghost predicate Found(node: HNode?, N: set<HNode>, hcode: Word, eq: HNode -> bool) {
    if node == null then forall n :: n in N ==> !Matches(n, hcode, eq)
    else node in N && Matches(node, hcode, eq)
  }

  lemma FoundEither(a: HNode?, b: HNode?, NN: set<HNode>, ON: set<HNode>, hcode: Word, eq: HNode -> bool)
    requires Found(a, NN, hcode, eq)
    ensures a != null ==> Found(a, NN + ON, hcode, eq)
    ensures a == null && Found(b, ON, hcode, eq) ==> Found(b, NN + ON, hcode, eq)
  {
  }

  lemma ChainStep(bits: nat, size: nat, nx: Links, heads: seq<HNode?>, b: Buckets, N: set<HNode>, i: nat, j: nat)
    requires TabOk(bits, size, nx, heads, b, N) && i < |b| && j <= |b[i]|
    ensures heads[i] == Elem(b[i], 0)
    ensures j < |b[i]| ==> b[i][j] in nx && b[i][j] in N && nx[b[i][j]] == Elem(b[i], j + 1)
  {
    assert BucketOk(nx, heads[i], b[i], i, bits, N);
    if j < |b[i]| { assert b[i][j] in b[i]; }
  }

  lemma NoMatch(bits: nat, size: nat, nx: Links, heads: seq<HNode?>, b: Buckets, N: set<HNode>, hcode: Word,
      eq: HNode -> bool)
    requires TabOk(bits, size, nx, heads, b, N)
    requires forall n :: n in b[Slot(hcode, bits)] ==> !Matches(n, hcode, eq)
    ensures forall n :: n in N ==> !Matches(n, hcode, eq)
  {
    forall n | n in N ensures !Matches(n, hcode, eq) { assert n in b[Slot(n.hcode, bits)]; }
  }

  /** `h_lookup`: the link to the first node of the chain with this hash that eq accepts. */
  method HLookup(h: HTab, hcode: Word, eq: HNode -> bool, ghost S: set<HNode>, ghost b: Buckets, ghost N: set<HNode>)
    returns (link: Link, node: HNode?, ghost i: nat, ghost j: nat)
    requires On(h, S, b, N)
    ensures link.Missing? <==> node == null
    ensures Found(node, N, hcode, eq)
    ensures node != null ==> h.tab != null && PointsAt(link, b, i, j) && node == b[i][j]
  {
    i, j := 0, 0;
    if h.tab == null {
      return Missing, null, 0, 0;
    }
    ghost var nx, heads := NextView(S), h.tab[..];
    var pos := Slot(hcode, h.bits);
    i := pos;
    link := AtHead(pos);
    node := h.tab[pos];
    ChainStep(h.bits, h.size, nx, heads, b, N, pos, 0);
    while node != null
      invariant j <= |b[pos]| && node == Elem(b[pos], j)
      invariant j < |b[pos]| ==> PointsAt(link, b, pos, j)
      invariant forall k :: 0 <= k < j ==> !Matches(b[pos][k], hcode, eq)
      decreases |b[pos]| - j
    {
      ChainStep(h.bits, h.size, nx, heads, b, N, pos, j);
      if node.hcode == hcode && eq(node) {
        return;
      }
      link := AfterNode(node);
      node := node.next;
      j := j + 1;
    }
    link := Missing;
    NoMatch(h.bits, h.size, nx, heads, b, N, hcode, eq);
  }

  /** `*from = v` */
  method StoreLink(h: HTab, link: Link, v: HNode?, ghost S: set<HNode>)
    requires h.tab != null && !link.Missing?
    requires link.AtHead? ==> link.pos < h.tab.Length
    requires link.AfterNode? ==> link.prev in S
    modifies h.tab, (if link.AfterNode? then {link.prev} else {})`next
    ensures h.tab[..] == if link.AtHead? then old(h.tab[..])[link.pos := v] else old(h.tab[..])
    ensures NextView(S) == if link.AtHead? then old(NextView(S)) else old(NextView(S))[link.prev := v]
  {
    if link.AtHead? {
      h.tab[link.pos] := v;
    } else {
      link.prev.next := v;
    }
  }

  /** `h_detach` */
  method HDetach(h: HTab, link: Link, ghost S: set<HNode>, ghost b: Buckets, ghost N: set<HNode>, ghost i: nat,
      ghost j: nat)
    returns (h': HTab, node: HNode, ghost b': Buckets)
    requires On(h, S, b, N) && h.tab != null && PointsAt(link, b, i, j)
    modifies h.tab, N`next
    ensures node == b[i][j] && node in N && h.size > 0 && h' == h.(size := h.size - 1)
    ensures b' == b[i := b[i][..j] + b[i][j + 1..]] && On(h', S, b', N - {node})
    ensures NextSame(old(NextView(S)), NextView(S), S - N)
  {
    ghost var nx, heads := NextView(S), h.tab[..];
    ChainStep(h.bits, h.size, nx, heads, b, N, i, j);
    if j > 0 { ChainStep(h.bits, h.size, nx, heads, b, N, i, j - 1); }
    TabPop(h.bits, h.size, nx, heads, b, N, i, j);
    node := if link.AtHead? then h.tab[link.pos] else link.prev.next;
    StoreLink(h, link, node.next, S);
    h' := h.(size := h.size - 1);
    b' := b[i := b[i][..j] + b[i][j + 1..]];
  }

  // ---- the two tables ----------------------------------------------------------

  /** The chains and the nodes of the newer and of the older table. */
  datatype Ghosts = G(nb: Buckets, NN: set<HNode>, ob: Buckets, ON: set<HNode>)

  /** Each node is in exactly one of the two tables. */
  ghost predicate Tables(nw: HTab, od: HTab, S: set<HNode>, g: Ghosts)
    reads S`next, nw.tab, od.tab
  {
    && On(nw, S, g.nb, g.NN) && On(od, S, g.ob, g.ON) && g.NN !! g.ON
    && (nw.tab != null ==> nw.tab != od.tab)
  }

  /** `h_detach` on one table leaves the other alone. */
  method Detach(h: HTab, link: Link, o: HTab, ghost S: set<HNode>, ghost b: Buckets, ghost N: set<HNode>,
                ghost i: nat, ghost j: nat, ghost ob: Buckets, ghost ON: set<HNode>)
    returns (h': HTab, node: HNode, ghost b': Buckets)
    requires On(h, S, b, N) && h.tab != null && PointsAt(link, b, i, j)
    requires On(o, S, ob, ON) && N !! ON && o.tab != h.tab
    modifies h.tab, N`next
    ensures node == b[i][j] && node in N && h.size > 0 && h' == h.(size := h.size - 1)
    ensures On(h', S, b', N - {node}) && On(o, S, ob, ON)
  {
    ghost var nx, oh := NextView(S), if o.tab == null then [] else o.tab[..];
    h', node, b' := HDetach(h, link, S, b, N, i, j);
    if o.tab != null { TabFrame(o.bits, o.size, nx, NextView(S), oh, ob, ON); }
  }

  /** `h_insert` on one table leaves the other alone. */
  method Push(h: HTab, node: HNode, o: HTab, ghost S: set<HNode>, ghost b: Buckets, ghost N: set<HNode>,
              ghost ob: Buckets, ghost ON: set<HNode>)
    returns (h': HTab, ghost b': Buckets)
    requires On(h, S, b, N) && h.tab != null && node in S && node !in N
    requires On(o, S, ob, ON) && node !in ON && o.tab != h.tab
    modifies node`next, h.tab
    ensures h' == h.(size := h.size + 1) && On(h', S, b', N + {node}) && On(o, S, ob, ON)
  {
    ghost var nx, oh := NextView(S), if o.tab == null then [] else o.tab[..];
    h', b' := HInsert(h, node, S, b, N);
    if o.tab != null { TabFrame(o.bits, o.size, nx, NextView(S), oh, ob, ON); }
  }

  /** `h_insert(&newer, h_detach(&older, from))` on the first node of a bucket. */
  method MoveOne(nw: HTab, od: HTab, pos: nat, ghost S: set<HNode>, ghost g: Ghosts)
    returns (nw': HTab, od': HTab, ghost g': Ghosts)
    requires Tables(nw, od, S, g) && nw.tab != null && od.tab != null && pos < |g.ob| && g.ob[pos] != []
    modifies nw.tab, od.tab, S`next
    ensures Tables(nw', od', S, g') && g'.NN + g'.ON == g.NN + g.ON
    ensures od.size > 0 && nw' == nw.(size := nw.size + 1) && od' == od.(size := od.size - 1)
    ensures g'.ON <= g.ON
  {
    var node; ghost var ob, nb;
    od', node, ob := Detach(od, AtHead(pos), nw, S, g.ob, g.ON, pos, 0, g.nb, g.NN);
    nw', nb := Push(nw, node, od', S, g.nb, g.NN, ob, g.ON - {node});
    g' := G(nb, g.NN + {node}, ob, g.ON - {node});
    MoveSets(g.NN, g.ON, node);
  }

  lemma MoveSets(NN: set<HNode>, ON: set<HNode>, node: HNode)
    requires NN !! ON && node in ON
    ensures (NN + {node}) + (ON - {node}) == NN + ON && (NN + {node}) !! (ON - {node})
  {
  }

  /** The invariant of a rehash, scaled: every insertion adds 128, every migrated node takes 1. */
  function Slack(nw: HTab, od: HTab): int {
    128 * (nw.size + od.size - 8 * Pow2(od.bits)) + od.size - 8 * Pow2(od.bits)
  }

  /** The older table has no node left in the buckets before `migrate_pos`. */
  ghost predicate Drained(bits: nat, ON: set<HNode>, mp: nat) {
    bits <= 64 && forall n :: n in ON ==> Slot(n.hcode, bits) >= mp
  }

  ghost predicate Shape(nw: HTab, od: HTab, mp: nat, ON: set<HNode>, extra: int) {
    if od.tab == null then nw.tab != null ==> nw.bits >= 2 && nw.size < 8 * Pow2(nw.bits)
    else
      && nw.tab != null && nw.bits == od.bits + 1 && od.bits >= 2
      && Drained(od.bits, ON, mp) && Slack(nw, od) <= extra
  }

  /** While nodes are left in the older table, one of them is at or after `migrate_pos`, so the
      cursor never runs off the end. */
  lemma NotPastEnd(bits: nat, N: set<HNode>, mp: nat)
    requires |N| > 0 && Drained(bits, N, mp)
    ensures mp < Pow2(bits)
  {
    var n :| n in N;
  }

  lemma DrainedEmpty(bits: nat, size: nat, nx: Links, heads: seq<HNode?>, b: Buckets, N: set<HNode>, mp: nat, i: nat)
    requires TabOk(bits, size, nx, heads, b, N) && i < |b|
    ensures Drained(bits, N, mp) && i < mp ==> b[i] == []
    ensures Drained(bits, N, mp) && i == mp && heads[i] == null ==> Drained(bits, N, mp + 1)
    ensures heads[i] == null <==> b[i] == []
  {
    assert BucketOk(nx, heads[i], b[i], i, bits, N);
    if b[i] != [] { assert b[i][0] in b[i]; }
    forall n | n in N && Slot(n.hcode, bits) == i ensures n in b[i] {}
  }

  lemma LoadAfter(nw: HTab, od: HTab, mp: nat, ON: set<HNode>)
    requires od.tab != null && od.size == 0 && Shape(nw, od, mp, ON, 128)
    ensures nw.size < 8 * Pow2(nw.bits)
  {
    assert Pow2(nw.bits) == 2 * Pow2(od.bits);
    assert Pow2(od.bits) >= 4 by { assert Pow2(2) == 4; PowMono(2, od.bits); }
  }

  lemma {:induction false} PowMono(a: nat, b: nat)
    requires a <= b
    ensures Pow2(a) <= Pow2(b)
    decreases b
  {
    if a < b { PowMono(a, b - 1); }
  }

  /** What one turn of the loop of `hm_help_rehashing` keeps. */
  ghost predicate Helping(nw: HTab, od: HTab, mp: nat, S: set<HNode>, g: Ghosts, nw0: HTab, od0: HTab, all: set<HNode>,
      nwork: int)
    reads S`next, nw.tab, od.tab
  {
    && 0 <= nwork <= 128 && Tables(nw, od, S, g) && g.NN + g.ON == all
    && nw.tab == nw0.tab && nw.bits == nw0.bits && nw.size + od.size == nw0.size + od0.size
    && od.tab == od0.tab && od.bits == od0.bits
    && Shape(nw, od, mp, g.ON, 128 - nwork)
  }

  method HelpOne(nw0: HTab, od0: HTab, mp0: nat, ghost S: set<HNode>, ghost g0: Ghosts, ghost all: set<HNode>,
      nwork0: int)
    returns (nw: HTab, od: HTab, mp: nat, ghost g: Ghosts, nwork: int)
    requires Helping(nw0, od0, mp0, S, g0, nw0, od0, all, nwork0) && nwork0 < 128 && od0.size > 0
    modifies nw0.tab, od0.tab, S`next
    ensures Helping(nw, od, mp, S, g, nw0, od0, all, nwork)
    ensures (nwork == nwork0 && mp == mp0 + 1 <= Pow2(od0.bits)) || nwork == nwork0 + 1
  {
    nw, od, mp, g, nwork := nw0, od0, mp0, g0, nwork0;
    NotPastEnd(od.bits, g.ON, mp);
    if mp >= od.tab.Length {
      assert false;
      return;
    }
    DrainedEmpty(od.bits, od.size, NextView(S), od.tab[..], g.ob, g.ON, mp, mp);
    if od.tab[mp] == null {
      mp := mp + 1;
    } else {
      nw, od, g := MoveOne(nw, od, mp, S, g);
      nwork := nwork + 1;
    }
  }

  /** A completed rehash step: no debt is left, and the tables are the same arrays or dropped. */
  ghost predicate Helped(nw: HTab, od: HTab, nw0: HTab, od0: HTab) {
    && nw.tab == nw0.tab && nw.bits == nw0.bits && nw.size + od.size == nw0.size + od0.size
    && (od == NoTab || (od.tab == od0.tab && od.bits == od0.bits))
  }

  lemma Discarded(nw: HTab, od: HTab, mp: nat, b: Buckets, N: set<HNode>)
    requires |N| == od.size == 0 && Shape(nw, od, mp, N, 128)
    ensures N == {} && Shape(nw, NoTab, mp, {}, 0)
  {
    if od.tab != null { LoadAfter(nw, od, mp, N); }
  }

  /** `hm_help_rehashing` */
  method HelpRehashing(nw0: HTab, od0: HTab, mp0: nat, ghost S: set<HNode>, ghost g0: Ghosts)
    returns (nw: HTab, od: HTab, mp: nat, ghost g: Ghosts)
    requires Tables(nw0, od0, S, g0) && Shape(nw0, od0, mp0, g0.ON, 128)
    modifies nw0.tab, od0.tab, S`next
    ensures Tables(nw, od, S, g) && g.NN + g.ON == g0.NN + g0.ON
    ensures Shape(nw, od, mp, g.ON, 0) && Helped(nw, od, nw0, od0)
  {
    ghost var all := g0.NN + g0.ON;
    nw, od, mp, g := nw0, od0, mp0, g0;
    var nwork := 0;
    while nwork < 128 && od.size > 0
      invariant Helping(nw, od, mp, S, g, nw0, od0, all, nwork)
      decreases 128 - nwork, Pow2(od0.bits) - mp
    {
      nw, od, mp, g, nwork := HelpOne(nw, od, mp, S, g, all, nwork);
    }
    if od.size == 0 && od.tab != null {
      Discarded(nw, od, mp, g.ob, g.ON);
      od := NoTab;
      g := G(g.nb, g.NN, [], {});
    }
  }

  // ---- the operations of the map -----------------------------------------------

  /** `h_init`: calloc zeroes every slot. */
  method HInit(bits: nat, ghost S: set<HNode>) returns (h: HTab, ghost b: Buckets)
    requires bits <= 64
    ensures h.tab != null && fresh(h.tab) && h.bits == bits && h.size == 0 && On(h, S, b, {})
  {
    var a := new HNode?[Pow2(bits)](_ => null);
    h := HTab(a, bits, 0);
    b := seq(Pow2(bits), _ => []);
  }

  /** The sizes leave room for a rehash: the shift count stays below the word width. */
  lemma RoomToGrow(nw: HTab)
    requires nw.size >= 8 * Pow2(nw.bits) && nw.size <= Pow2(60)
    ensures nw.bits < 60
  {
    if nw.bits >= 60 { PowMono(60, nw.bits); }
  }

  lemma InsertShape(nw: HTab, od: HTab, mp: nat, ON: set<HNode>)
    requires od.tab != null && Shape(nw, od, mp, ON, 0)
    ensures Shape(nw.(size := nw.size + 1), od, mp, ON, 128)
  {
  }

  lemma TriggerShape(nw: HTab, fresh': HTab, N: set<HNode>)
    requires nw.tab != null && fresh'.tab != null && 2 <= nw.bits < 64 && fresh'.bits == nw.bits + 1 && fresh'.size == 0
    requires nw.size <= 8 * Pow2(nw.bits)
    ensures Shape(fresh', nw, 0, N, 0)
  {
  }

  lemma ShapeMore(nw: HTab, od: HTab, mp: nat, ON: set<HNode>, a: int, b: int)
    requires Shape(nw, od, mp, ON, a) && a <= b
    ensures Shape(nw, od, mp, ON, b)
  {
  }

  /** The first half of `hm_insert`: make the table if there is none, and link the node in. */
  method InsertNewer(nw0: HTab, od0: HTab, mp: nat, node: HNode, ghost S: set<HNode>, ghost g0: Ghosts)
    returns (nw: HTab, ghost g: Ghosts)
    requires Tables(nw0, od0, S, g0) && Shape(nw0, od0, mp, g0.ON, 0) && node in S && node !in g0.NN + g0.ON
    modifies nw0.tab, S`next
    ensures Tables(nw, od0, S, g) && g.NN == g0.NN + {node} && g.ON == g0.ON
    ensures nw.tab != null && (nw.tab == nw0.tab || fresh(nw.tab)) && nw.size == nw0.size + 1
    ensures if od0.tab == null then nw.bits >= 2 && nw.size <= 8 * Pow2(nw.bits) else Shape(nw, od0, mp, g.ON, 128)
  {
    nw := nw0;
    ghost var nb := g0.nb;
    if nw.tab == null {
      nw, nb := HInit(2, S);
    } else if od0.tab != null {
      InsertShape(nw, od0, mp, g0.ON);
    }
    nw, nb := Push(nw, node, od0, S, nb, g0.NN, g0.ob, g0.ON);
    g := G(nb, g0.NN + {node}, g0.ob, g0.ON);
  }

  lemma TriggerSets(NN: set<HNode>, ON: set<HNode>)
    requires ON == {}
    ensures {} + NN == NN + ON && {} !! NN
  {
  }

  /** The load check of `hm_insert` and `hm_trigger_rehashing`. */
  method Trigger(nw0: HTab, od0: HTab, mp0: nat, ghost S: set<HNode>, ghost g0: Ghosts)
    returns (nw: HTab, od: HTab, mp: nat, ghost g: Ghosts)
    requires Tables(nw0, od0, S, g0) && nw0.tab != null && nw0.size <= Pow2(60)
    requires if od0.tab == null then nw0.bits >= 2 && nw0.size <= 8 * Pow2(nw0.bits)
             else Shape(nw0, od0, mp0, g0.ON, 128)
    ensures Tables(nw, od, S, g) && Shape(nw, od, mp, g.ON, 128) && g.NN + g.ON == g0.NN + g0.ON
    ensures (nw.tab == nw0.tab && od.tab == od0.tab) || (nw.tab != null && fresh(nw.tab) && od.tab == nw0.tab)
  {
    nw, od, mp, g := nw0, od0, mp0, g0;
    if od.tab == null {
      if nw.size >= 8 * Pow2(nw.bits) {
        RoomToGrow(nw);
        var h; ghost var b;
        h, b := HInit(nw.bits + 1, S);
        TriggerShape(nw, h, g.NN);
        ShapeMore(h, nw, 0, g.NN, 0, 128);
        TriggerSets(g.NN, g.ON);
        nw, od, mp, g := h, nw, 0, G(b, {}, g.nb, g.NN);
      }
    }
  }

  /** `hm_insert` */
  method InsertTables(nw0: HTab, od0: HTab, mp0: nat, node: HNode, ghost S: set<HNode>, ghost g0: Ghosts)
    returns (nw: HTab, od: HTab, mp: nat, ghost g: Ghosts)
    requires Tables(nw0, od0, S, g0) && Shape(nw0, od0, mp0, g0.ON, 0) && node in S && node !in g0.NN + g0.ON
    requires nw0.size + od0.size < Pow2(60)
    modifies nw0.tab, od0.tab, S`next
    ensures Tables(nw, od, S, g) && Shape(nw, od, mp, g.ON, 0) && g.NN + g.ON == g0.NN + g0.ON + {node}
    ensures nw.tab != null && (nw.tab == nw0.tab || fresh(nw.tab))
    ensures od.tab == null || od.tab == od0.tab || od.tab == nw0.tab || fresh(od.tab)
  {
    nw, g := InsertNewer(nw0, od0, mp0, node, S, g0);
    InsertSets(g0.NN, g0.ON, node);
    od, mp := od0, mp0;
    nw, od, mp, g := Trigger(nw, od, mp, S, g);
    nw, od, mp, g := HelpRehashing(nw, od, mp, S, g);
  }

  lemma InsertSets(NN: set<HNode>, ON: set<HNode>, node: HNode)
    ensures NN + {node} + ON == NN + ON + {node}
  {
  }

  /** `hm_lookup`: the node with this hash that eq accepts, in whichever table it is. */
  method LookupTables(nw0: HTab, od0: HTab, mp0: nat, hcode: Word, eq: HNode -> bool, ghost S: set<HNode>,
      ghost g0: Ghosts)
    returns (nw: HTab, od: HTab, mp: nat, ghost g: Ghosts, node: HNode?)
    requires Tables(nw0, od0, S, g0) && Shape(nw0, od0, mp0, g0.ON, 0)
    modifies nw0.tab, od0.tab, S`next
    ensures Tables(nw, od, S, g) && Shape(nw, od, mp, g.ON, 0)
    ensures nw.tab == nw0.tab && (od.tab == null || od.tab == od0.tab)
    ensures g.NN + g.ON == g0.NN + g0.ON
    ensures Found(node, g0.NN + g0.ON, hcode, eq)
  {
    hide Tables, Shape, Found;
    ShapeMore(nw0, od0, mp0, g0.ON, 0, 128);
    nw, od, mp, g := HelpRehashing(nw0, od0, mp0, S, g0);
    var at, link; ghost var i, j;
    at, link, node, i, j := Find(nw, od, hcode, eq, S, g);
  }

  datatype Where = Nowhere | InNewer | InOlder

  /** The newer table first, then the older one. */
  method Find(nw: HTab, od: HTab, hcode: Word, eq: HNode -> bool, ghost S: set<HNode>, ghost g: Ghosts)
    returns (at: Where, link: Link, node: HNode?, ghost i: nat, ghost j: nat)
    requires Tables(nw, od, S, g)
    ensures Found(node, g.NN + g.ON, hcode, eq) && (at.Nowhere? <==> node == null)
    ensures at.InNewer? ==> nw.tab != null && PointsAt(link, g.nb, i, j) && node == g.nb[i][j]
    ensures at.InOlder? ==> od.tab != null && PointsAt(link, g.ob, i, j) && node == g.ob[i][j]
  {
    link, node, i, j := HLookup(nw, hcode, eq, S, g.nb, g.NN);
    FoundEither(node, null, g.NN, g.ON, hcode, eq);
    at := InNewer;
    if link.Missing? {
      var other;
      link, other, i, j := HLookup(od, hcode, eq, S, g.ob, g.ON);
      FoundEither(node, other, g.NN, g.ON, hcode, eq);
      node := other;
      at := if link.Missing? then Nowhere else InOlder;
    }
  }

  lemma DeleteShape(nw: HTab, od: HTab, mp: nat, ON: set<HNode>, node: HNode)
    requires Shape(nw, od, mp, ON, 0)
    ensures nw.size > 0 ==> Shape(nw.(size := nw.size - 1), od, mp, ON, 0)
    ensures od.size > 0 ==> Shape(nw, od.(size := od.size - 1), mp, ON - {node}, 0)
  {
  }

  lemma DeleteSets(NN: set<HNode>, ON: set<HNode>, node: HNode)
    requires NN !! ON
    ensures node in NN ==> (NN - {node}) + ON == NN + ON - {node} && (NN - {node}) !! ON
    ensures node in ON ==> NN + (ON - {node}) == NN + ON - {node} && NN !! (ON - {node})
  {
  }

  method DetachNewer(nw0: HTab, od: HTab, mp: nat, link: Link, ghost S: set<HNode>, ghost g0: Ghosts, ghost i: nat,
      ghost j: nat)
    returns (nw: HTab, node: HNode, ghost g: Ghosts)
    requires Tables(nw0, od, S, g0) && Shape(nw0, od, mp, g0.ON, 0) && nw0.tab != null && PointsAt(link, g0.nb, i, j)
    modifies nw0.tab, S`next
    ensures Tables(nw, od, S, g) && Shape(nw, od, mp, g.ON, 0) && nw.tab == nw0.tab
    ensures node == g0.nb[i][j] && g.NN + g.ON == g0.NN + g0.ON - {node}
  {
    ghost var b;
    nw, node, b := Detach(nw0, link, od, S, g0.nb, g0.NN, i, j, g0.ob, g0.ON);
    DeleteShape(nw0, od, mp, g0.ON, node);
    DeleteSets(g0.NN, g0.ON, node);
    g := G(b, g0.NN - {node}, g0.ob, g0.ON);
  }

  method DetachOlder(nw: HTab, od0: HTab, mp: nat, link: Link, ghost S: set<HNode>, ghost g0: Ghosts, ghost i: nat,
      ghost j: nat)
    returns (od: HTab, node: HNode, ghost g: Ghosts)
    requires Tables(nw, od0, S, g0) && Shape(nw, od0, mp, g0.ON, 0) && od0.tab != null && PointsAt(link, g0.ob, i, j)
    modifies od0.tab, S`next
    ensures Tables(nw, od, S, g) && Shape(nw, od, mp, g.ON, 0) && od.tab == od0.tab
    ensures node == g0.ob[i][j] && g.NN + g.ON == g0.NN + g0.ON - {node}
  {
    ghost var b;
    od, node, b := Detach(od0, link, nw, S, g0.ob, g0.ON, i, j, g0.nb, g0.NN);
    DeleteShape(nw, od0, mp, g0.ON, node);
    DeleteSets(g0.NN, g0.ON, node);
    g := G(g0.nb, g0.NN, b, g0.ON - {node});
  }

  method DeleteFound(nw0: HTab, od0: HTab, mp: nat, hcode: Word, eq: HNode -> bool, ghost S: set<HNode>,
      ghost g0: Ghosts)
    returns (nw: HTab, od: HTab, ghost g: Ghosts, node: HNode?)
    requires Tables(nw0, od0, S, g0) && Shape(nw0, od0, mp, g0.ON, 0)
    modifies nw0.tab, od0.tab, S`next
    ensures Tables(nw, od, S, g) && Shape(nw, od, mp, g.ON, 0) && nw.tab == nw0.tab && od.tab == od0.tab
    ensures Found(node, g0.NN + g0.ON, hcode, eq)
    ensures g.NN + g.ON == if node == null then g0.NN + g0.ON else g0.NN + g0.ON - {node}
  {
    hide Tables, Shape, Found;
    nw, od, g := nw0, od0, g0;
    var at, link; ghost var i, j;
    at, link, node, i, j := Find(nw, od, hcode, eq, S, g);
    match at
    case Nowhere =>
    case InNewer => nw, node, g := DetachNewer(nw, od, mp, link, S, g, i, j);
    case InOlder => od, node, g := DetachOlder(nw, od, mp, link, S, g, i, j);
  }

  /** `hm_delete`: detaches the node with this hash that eq accepts, from whichever table it is in. */
  method DeleteTables(nw0: HTab, od0: HTab, mp0: nat, hcode: Word, eq: HNode -> bool, ghost S: set<HNode>,
      ghost g0: Ghosts)
    returns (nw: HTab, od: HTab, mp: nat, ghost g: Ghosts, node: HNode?)
    requires Tables(nw0, od0, S, g0) && Shape(nw0, od0, mp0, g0.ON, 0)
    modifies nw0.tab, od0.tab, S`next
    ensures Tables(nw, od, S, g) && Shape(nw, od, mp, g.ON, 0)
    ensures nw.tab == nw0.tab && (od.tab == null || od.tab == od0.tab)
    ensures Found(node, g0.NN + g0.ON, hcode, eq)
    ensures g.NN + g.ON == if node == null then g0.NN + g0.ON else g0.NN + g0.ON - {node}
  {
    hide Tables, Shape, Found;
    ShapeMore(nw0, od0, mp0, g0.ON, 0, 128);
    nw, od, mp, g := HelpRehashing(nw0, od0, mp0, S, g0);
    nw, od, g, node := DeleteFound(nw, od, mp, hcode, eq, S, g);
  }

  /** The load never reaches the limit between operations: a rehash ends before the next is due. */
  lemma LoadBound(nw: HTab, od: HTab, mp: nat, ON: set<HNode>)
    requires nw.tab != null && Shape(nw, od, mp, ON, 0) && (od.tab == null ==> od == NoTab)
    ensures nw.size + od.size < 8 * Pow2(nw.bits)
  {
    if od.tab != null {
      assert Pow2(nw.bits) == 2 * Pow2(od.bits);
      assert Pow2(od.bits) >= 4 by { assert Pow2(2) == 4; PowMono(2, od.bits); }
    }
  }

  /** Nodes outside the tables do not matter to them. */
  lemma TablesIn(nw: HTab, od: HTab, S: set<HNode>, S': set<HNode>, g: Ghosts)
    requires Tables(nw, od, S, g) && g.NN + g.ON <= S'
    ensures Tables(nw, od, S', g)
  {
    if nw.tab != null { TabFrame(nw.bits, nw.size, NextView(S), NextView(S'), nw.tab[..], g.nb, g.NN); }
    if od.tab != null { TabFrame(od.bits, od.size, NextView(S), NextView(S'), od.tab[..], g.ob, g.ON); }
  }

  class HMap {
    var newer: HTab
    var older: HTab
    var migratePos: nat
    ghost var g: Ghosts
    ghost var repr: set<HNode>

    ghost predicate Valid()
      reads this, repr, newer.tab, older.tab
    {
      Tables(newer, older, repr, g) && Shape(newer, older, migratePos, g.ON, 0)
    }

    /** The nodes of the map. */
    ghost function Nodes(): set<HNode>
      reads this
    {
      g.NN + g.ON
    }

    constructor ()
      ensures Valid() && Nodes() == {} && repr == {} && newer.tab == null && older.tab == null
    {
      newer, older, migratePos, g, repr := NoTab, NoTab, 0, G([], {}, [], {}), {};
    }

    method Assign(nw: HTab, od: HTab, mp: nat, ghost g': Ghosts, ghost S: set<HNode>)
      modifies this
      ensures newer == nw && older == od && migratePos == mp && g == g' && repr == S
    {
      newer, older, migratePos, g, repr := nw, od, mp, g', S;
    }

    method Store(nw: HTab, od: HTab, mp: nat, ghost g': Ghosts, ghost S: set<HNode>)
      requires Tables(nw, od, S, g') && Shape(nw, od, mp, g'.ON, 0)
      modifies this
      ensures Valid() && g == g' && repr == S && newer == nw && older == od
    {
      ghost var nx, nh, oh := NextView(S), Heads(nw), Heads(od);
      Assign(nw, od, mp, g', S);
      assert NextView(S) == nx && Heads(nw) == nh && Heads(od) == oh;
    }

    lemma Room(node: HNode)
      requires Valid() && |Nodes()| < Pow2(60)
      ensures Tables(newer, older, repr + {node}, g) && newer.size + older.size < Pow2(60)
    {
      TablesIn(newer, older, repr, repr + {node}, g);
      TwoSizes(newer, older, repr, g);
    }

    /** `hm_insert`; the caller hands over a node that is not in the map. */
    method Insert(node: HNode)
      requires Valid() && node !in Nodes() && |Nodes()| < Pow2(60)
      modifies this, node`next, repr`next, newer.tab, older.tab
      ensures Valid() && Nodes() == old(Nodes()) + {node} && repr == old(repr) + {node}
    {
      ghost var S := repr + {node};
      Room(node);
      var nw, od, mp; ghost var g';
      nw, od, mp, g' := InsertTables(newer, older, migratePos, node, S, g);
      Store(nw, od, mp, g', S);
    }

    /** `hm_lookup` */
    method Lookup(hcode: Word, eq: HNode -> bool) returns (node: HNode?)
      requires Valid()
      modifies this, repr`next, newer.tab, older.tab
      ensures Valid() && Nodes() == old(Nodes()) && repr == old(repr)
      ensures Found(node, Nodes(), hcode, eq)
    {
      var nw, od, mp; ghost var g';
      nw, od, mp, g', node := LookupTables(newer, older, migratePos, hcode, eq, repr, g);
      Store(nw, od, mp, g', repr);
    }

    /** `hm_delete` */
    method Delete(hcode: Word, eq: HNode -> bool) returns (node: HNode?)
      requires Valid()
      modifies this, repr`next, newer.tab, older.tab
      ensures Valid() && Found(node, old(Nodes()), hcode, eq)
      ensures Nodes() == if node == null then old(Nodes()) else old(Nodes()) - {node}
      ensures repr == if node == null then old(repr) else old(repr) - {node}
    {
      ghost var S := repr;
      var nw, od, mp; ghost var g';
      nw, od, mp, g', node := DeleteTables(newer, older, migratePos, hcode, eq, S, g);
      if node != null {
        TablesIn(nw, od, S, S - {node}, g');
        Store(nw, od, mp, g', S - {node});
      } else {
        Store(nw, od, mp, g', S);
      }
    }

    /** `hm_size`, and the load it can never pass. */
    method Size() returns (n: nat)
      requires Valid()
      ensures n == |Nodes()| && (newer.tab != null ==> n < 8 * newer.tab.Length)
    {
      TwoSizes(newer, older, repr, g);
      if newer.tab != null { LoadBound(newer, older, migratePos, g.ON); }
      n := newer.size + older.size;
    }
  }

  lemma TwoSizes(nw: HTab, od: HTab, S: set<HNode>, g: Ghosts)
    requires Tables(nw, od, S, g)
    ensures nw.size + od.size == |g.NN + g.ON|
    ensures nw.tab != null ==> nw.tab.Length == Pow2(nw.bits)
  {
    if nw.tab != null { assert |nw.tab[..]| == nw.tab.Length; }
    DisjointSizes(g.NN, g.ON);
  }

  lemma DisjointSizes(a: set<HNode>, b: set<HNode>)
    requires a !! b
    ensures |a + b| == |a| + |b|
  {
  }
}
