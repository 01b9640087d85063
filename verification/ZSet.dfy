/** The sorted set of src/types/zset.cpp: one AVL tree ordered by (score, name) and one index by
    name over the same nodes. */
module ZSets {
  import opened ZOrder
  import opened Avl

  type Keys = map<Node, Key>

  ghost function KeyView(S: set<Node>): (k: Keys)
    reads S`score
    ensures k.Keys == S
  {
    map x | x in S :: Key(x.score, x.name)
  }

  ghost predicate SortedBy(k: Keys, s: seq<Node>) {
    && (forall i :: 0 <= i < |s| ==> s[i] in k)
    && (forall i, j :: 0 <= i < j < |s| ==> KeyLess(k[s[i]], k[s[j]]))
  }

  /** Every member of s is below / above key x. */
  ghost predicate AllBelow(k: Keys, s: seq<Node>, x: Key) {
    forall i :: 0 <= i < |s| ==> s[i] in k && KeyLess(k[s[i]], x)
  }

  ghost predicate AllAbove(k: Keys, s: seq<Node>, x: Key) {
    forall i :: 0 <= i < |s| ==> s[i] in k && KeyLess(x, k[s[i]])
  }

  lemma SortedSplit(k: Keys, a: seq<Node>, n: Node, b: seq<Node>)
    requires SortedBy(k, a + [n] + b)
    ensures n in k && AllBelow(k, a, k[n]) && AllAbove(k, b, k[n])
  {
    var s := a + [n] + b;
    assert s[|a|] == n;
    forall i | 0 <= i < |a| ensures a[i] in k && KeyLess(k[a[i]], k[n]) { assert s[i] == a[i]; }
    forall i | 0 <= i < |b| ensures b[i] in k && KeyLess(k[n], k[b[i]]) { assert s[|a| + 1 + i] == b[i]; }
  }

  lemma SortedJoin(k: Keys, a: seq<Node>, n: Node, b: seq<Node>)
    requires SortedBy(k, a + b) && n in k && AllBelow(k, a, k[n]) && AllAbove(k, b, k[n])
    ensures SortedBy(k, a + [n] + b)
  {
    var s, s0 := a + [n] + b, a + b;
    forall i | 0 <= i < |s| ensures s[i] == if i < |a| then s0[i] else if i == |a| then n else s0[i - 1] {}
    forall i, j | 0 <= i < j < |s| ensures KeyLess(k[s[i]], k[s[j]]) {
      if i == |a| {
        assert s[j] == b[j - |a| - 1];
      } else if j == |a| {
        assert s[i] == a[i];
      } else {
        var i', j' := if i < |a| then i else i - 1, if j < |a| then j else j - 1;
        assert s[i] == s0[i'] && s[j] == s0[j'] && i' < j';
      }
    }
  }

  lemma SortedCut(k: Keys, s: seq<Node>, i: nat)
    requires SortedBy(k, s) && i < |s|
    ensures SortedBy(k, s[..i] + s[i + 1..])
  {
    var s' := s[..i] + s[i + 1..];
    forall j | 0 <= j < |s'| ensures s'[j] == s[if j < i then j else j + 1] {}
  }

  lemma AllBelowTrans(k: Keys, s: seq<Node>, x: Key, y: Key)
    requires AllBelow(k, s, x) && KeyLess(x, y)
    ensures AllBelow(k, s, y)
  {
    forall i | 0 <= i < |s| ensures s[i] in k && KeyLess(k[s[i]], y) { KeyLessTransitive(k[s[i]], x, y); }
  }

  lemma AllAboveTrans(k: Keys, s: seq<Node>, x: Key, y: Key)
    requires AllAbove(k, s, x) && KeyLess(y, x)
    ensures AllAbove(k, s, y)
  {
    forall i | 0 <= i < |s| ensures s[i] in k && KeyLess(y, k[s[i]]) { KeyLessTransitive(y, x, k[s[i]]); }
  }

  /** One step of the descent of `tree_insert`: the side not taken joins the path on the right side. */
  lemma Descend(k: Keys, c: Ctx, l: Tree, p: Node, r: Tree, x: Key)
    requires Distinct(Plug(c, Bin(l, p, r))) && SortedBy(k, InOrder(Plug(c, Bin(l, p, r))))
    requires AllBelow(k, Before(c), x) && AllAbove(k, After(c), x)
    ensures p in k
    ensures KeyLess(x, k[p]) ==> AllAbove(k, After(Step(c, p, r, true)), x)
    ensures KeyLess(k[p], x) ==> AllBelow(k, Before(Step(c, p, l, false)), x)
  {
    SplitAt(c, l, p, r);
    SortedSplit(k, LeftOf(c, l), p, RightOf(c, r));
    if KeyLess(x, k[p]) {
      AllAboveTrans(k, RightOf(c, r), k[p], x);
      assert After(Step(c, p, r, true)) == [p] + RightOf(c, r);
    }
    if KeyLess(k[p], x) {
      AllBelowTrans(k, LeftOf(c, l), k[p], x);
      assert Before(Step(c, p, l, false)) == LeftOf(c, l) + [p];
    }
  }

  /** The hash index as the map that src/ds/hashtable.cpp implements. */
  type Index = map<Name, Node>

  ghost predicate Indexes(index: Index, s: set<Node>) {
    && (forall n :: n in s ==> n.name in index && index[n.name] == n)
    && (forall k :: k in index ==> index[k] in s && index[k].name == k)
  }

  /** The tree below `root` is an AVL tree sorted by (score, name). */
  ghost predicate Ordered(root: Node?, m: Mem, k: Keys, t: Tree) {
    m.Keys == Nodes(t) && root == Root(t) && IsAvl(m, t) && SortedBy(k, InOrder(t))
  }

  ghost predicate TreeOk(root: Node?, S: set<Node>, t: Tree)
    reads S
  {
    Ordered(root, View(S), KeyView(S), t)
  }

  predicate ZLess(a: Node, b: Node)
    reads a, b
  {
    KeyLess(Key(a.score, a.name), Key(b.score, b.name))
  }

  /** The search of `tree_insert` for the empty slot. */
  method FindSlot(root: Node?, node: Node, ghost S: set<Node>, ghost t: Tree)
    returns (parent: Node?, left: bool, ghost c: Ctx)
    requires TreeOk(root, S, t) && node !in S && (forall n :: n in S ==> n.name != node.name)
    ensures Plug(c, Nil) == t && parent == Above(c) && (c.Step? ==> left == c.left)
    ensures var k, x := KeyView(S), Key(node.score, node.name);
            AllBelow(k, Before(c), x) && AllAbove(k, After(c), x)
  {
    ghost var m, k, x := View(S), KeyView(S), Key(node.score, node.name);
    parent, left, c := null, false, Top;
    var cur := root;
    ghost var sub := t;
    while cur != null
      invariant cur == Root(sub) && Plug(c, sub) == t && Rep(m, sub, Above(c))
      invariant parent == Above(c) && (c.Step? ==> left == c.left)
      invariant AllBelow(k, Before(c), x) && AllAbove(k, After(c), x)
      decreases sub
    {
      PlugNodes(c, sub);
      Descend(k, c, sub.l, cur, sub.r, x);
      KeyLessTotal(x, k[cur]);
      parent := cur;
      left := ZLess(node, cur);
      cur := if left then cur.left else cur.right;
      c, sub := Step(c, sub.n, if left then sub.r else sub.l, left), if left then sub.l else sub.r;
    }
  }

  /** `tree_insert`: the old order with the node at its place. */
  method TreeInsert(root0: Node?, node: Node, ghost S: set<Node>, ghost t0: Tree)
    returns (root: Node, ghost t: Tree, ghost k: nat)
    requires TreeOk(root0, S, t0) && node !in S && (forall n :: n in S ==> n.name != node.name)
    requires node.left == null && node.right == null
    modifies (S + {node})`left, (S + {node})`right, (S + {node})`parent, (S + {node})`height, (S + {node})`cnt
    ensures TreeOk(root, S + {node}, t)
    ensures k <= |InOrder(t0)| && InOrder(t) == InOrder(t0)[..k] + [node] + InOrder(t0)[k..]
    ensures KeyView(S + {node}) == old(KeyView(S + {node}))
  {
    ghost var keys, c := KeyView(S + {node}), Top;
    root, t, c := PlaceNode(root0, node, S, t0);
    PlugInOrder(c, Nil);
    SlotIn(keys - {node}, keys, InOrder(t0), Before(c), node, After(c));
    k := |Before(c)|;
  }

  /** The walk down, and the node hung there. */
  method PlaceNode(root0: Node?, node: Node, ghost S: set<Node>, ghost t0: Tree)
    returns (root: Node, ghost t: Tree, ghost c: Ctx)
    requires TreeOk(root0, S, t0) && node !in S && (forall n :: n in S ==> n.name != node.name)
    requires node.left == null && node.right == null
    modifies (S + {node})`left, (S + {node})`right, (S + {node})`parent, (S + {node})`height, (S + {node})`cnt
    ensures root == Root(t) && IsAvl(View(S + {node}), t) && Nodes(t) == S + {node}
    ensures Plug(c, Nil) == t0 && InOrder(t) == Before(c) + [node] + After(c)
    ensures KeyView(S + {node}) == old(KeyView(S + {node}))
    ensures var k, x := old(KeyView(S + {node}) - {node}), Key(node.score, node.name);
            SortedBy(k, InOrder(t0)) && AllBelow(k, Before(c), x) && AllAbove(k, After(c), x)
  {
    hide IsAvl, SortedBy, AllBelow, AllAbove, InOrder, Plug;
    ghost var keys := KeyView(S + {node});
    assert keys - {node} == KeyView(S);
    var parent, left;
    parent, left, c := FindSlot(root0, node, S, t0);
    root, t := InsertAt(node, parent, left, S, c);
    assert KeyView(S + {node}) == keys;
  }

  /** A new node at its place in a sorted list. */
  lemma SlotIn(k: Keys, k': Keys, s: seq<Node>, a: seq<Node>, n: Node, b: seq<Node>)
    requires s == a + [] + b && SortedBy(k, s) && n in k' && n !in k
    requires forall x :: x in k ==> x in k' && k'[x] == k[x]
    requires AllBelow(k, a, k'[n]) && AllAbove(k, b, k'[n])
    ensures a + b == s && s[..|a|] == a && s[|a|..] == b && SortedBy(k', a + [n] + b)
  {
    assert a + [] + b == a + b;
    SortedFrame(k, k', a + b);
    SortedJoin(k', a, n, b);
  }

  lemma SortedFrame(k: Keys, k': Keys, s: seq<Node>)
    requires SortedBy(k, s) && (forall x :: x in s ==> x in k' && (x in k ==> k'[x] == k[x]))
    ensures SortedBy(k', s)
  {
    forall i | 0 <= i < |s| ensures s[i] in k' && s[i] in k && k'[s[i]] == k[s[i]] { assert s[i] in s; }
  }

  /** `avl_del` of a member: the old order without it. */
  method TreeDelete(node: Node, ghost S: set<Node>, ghost t0: Tree) returns (root: Node?, ghost t: Tree)
    requires TreeOk(Root(t0), S, t0) && node in S
    modifies S`left, S`right, S`parent, S`height, S`cnt
    ensures TreeOk(root, S - {node}, t)
    ensures |InOrder(t0)| == Size(t0)
    ensures InOrder(t) == InOrder(t0)[..Place(t0, node)] + InOrder(t0)[Place(t0, node) + 1..]
    ensures KeyView(S - {node}) == old(KeyView(S)) - {node}
  {
    ghost var keys := KeyView(S);
    root, t := Delete(node, S, t0);
    InOrderNodes(t);
    SortedCut(keys, InOrder(t0), Place(t0, node));
    SortedFrame(keys, KeyView(S - {node}), InOrder(t));
  }

  /** Scores below a bound: `score < s`, or `score <= s` if inclusive. */
  predicate BelowBound(score: Score, bound: Score, inclusive: bool) {
    ScoreLess(score, bound) || (inclusive && score == bound)
  }

  /** n members are below the bound, and they are the first n. */
  ghost predicate CutsAt(k: Keys, s: seq<Node>, bound: Score, inclusive: bool, n: int) {
    && 0 <= n <= |s|
    && (forall i :: 0 <= i < n ==> s[i] in k && BelowBound(k[s[i]].score, bound, inclusive))
    && (forall i :: n <= i < |s| ==> s[i] in k && !BelowBound(k[s[i]].score, bound, inclusive))
  }

  /** In a sorted sequence, one member decides for everything before or after it. */
  lemma CutAt(k: Keys, s: seq<Node>, at: nat, bound: Score, inclusive: bool)
    requires SortedBy(k, s) && at < |s|
    ensures BelowBound(k[s[at]].score, bound, inclusive) ==>
              forall i :: 0 <= i <= at ==> BelowBound(k[s[i]].score, bound, inclusive)
    ensures !BelowBound(k[s[at]].score, bound, inclusive) ==>
              forall i :: at <= i < |s| ==> !BelowBound(k[s[i]].score, bound, inclusive)
  {
    forall i | 0 <= i < |s|
      ensures i <= at && BelowBound(k[s[at]].score, bound, inclusive) ==> BelowBound(k[s[i]].score, bound, inclusive)
      ensures i >= at && !BelowBound(k[s[at]].score, bound, inclusive) ==> !BelowBound(k[s[i]].score, bound, inclusive)
    {
      if i < at { assert KeyLess(k[s[i]], k[s[at]]); }
      if i > at { assert KeyLess(k[s[at]], k[s[i]]); }
    }
  }

  lemma NodeAt(t: Tree, c: Ctx, sub: Tree)
    requires Plug(c, sub) == t && sub.Bin? && Distinct(t)
    ensures |InOrder(t)| == |Before(c)| + Size(sub) + |After(c)|
    ensures InOrder(t)[|Before(c)| + Size(sub.l)] == sub.n
  {
    PlugSize(c, sub);
    InOrderNodes(t);
    InOrderNodes(sub.l);
    SplitAt(c, sub.l, sub.n, sub.r);
    assert |LeftOf(c, sub.l)| == |Before(c)| + Size(sub.l);
  }

  /** `zset_count_below`: one descent that reads subtree sizes. */
  method CountBelow(root: Node?, bound: Score, inclusive: bool, ghost S: set<Node>, ghost t: Tree) returns (n: int)
    requires TreeOk(root, S, t)
    ensures CutsAt(KeyView(S), InOrder(t), bound, inclusive, n)
  {
    ghost var m, k := View(S), KeyView(S);
    ghost var c, sub := Top, t;
    InOrderNodes(t);
    n := 0;
    var node := root;
    while node != null
      invariant node == Root(sub) && Plug(c, sub) == t && Rep(m, sub, Above(c))
      invariant n == |Before(c)| && |InOrder(t)| == |Before(c)| + Size(sub) + |After(c)|
      invariant forall i :: 0 <= i < n ==> BelowBound(k[InOrder(t)[i]].score, bound, inclusive)
      invariant forall i :: n + Size(sub) <= i < |InOrder(t)| ==> !BelowBound(k[InOrder(t)[i]].score, bound, inclusive)
      decreases sub
    {
      PlugNodes(c, sub);
      NodeAt(t, c, sub);
      CutAt(k, InOrder(t), n + Size(sub.l), bound, inclusive);
      Stored(S, sub.l, node);
      InOrderNodes(sub.l);
      if ScoreLess(node.score, bound) || (inclusive && node.score == bound) {
        n := n + CntOf(node.left) + 1;
        node := node.right;
        c, sub := Step(c, sub.n, sub.l, false), sub.r;
      } else {
        node := node.left;
        c, sub := Step(c, sub.n, sub.r, true), sub.l;
      }
      PlugSize(c, sub);
    }
  }

  /** `avl_init(&node->tree); node->score = score;` */
  method Reinit(node: Node, score: Score, ghost S: set<Node>)
    requires node in S
    modifies node
    ensures node.left == null && node.right == null
    ensures KeyView(S) == old(KeyView(S))[node := Key(score, node.name)]
    ensures View(S - {node}) == old(View(S - {node})) && KeyView(S - {node}) == old(KeyView(S - {node}))
  {
    node.parent, node.left, node.right, node.height, node.cnt := null, null, null, 1, 1;
    node.score := score;
  }

  /** `zset_update`: detach, re-initialise, change the score, insert again. */
  method TreeMove(node: Node, score: Score, ghost S: set<Node>, ghost t0: Tree) returns (root: Node, ghost t: Tree)
    requires TreeOk(Root(t0), S, t0) && node in S
    requires forall n :: n in S && n != node ==> n.name != node.name
    modifies S
    ensures TreeOk(root, S, t)
    ensures KeyView(S) == old(KeyView(S))[node := Key(score, node.name)]
  {
    var root1; ghost var t1, at;
    root1, t1 := TreeDelete(node, S, t0);
    assert KeyView(S) == old(KeyView(S));
    Reinit(node, score, S);
    assert S - {node} + {node} == S;
    root, t, at := TreeInsert(root1, node, S - {node}, t1);
  }

  /** The sorted set as a mapping from member to score. */
  ghost function ContentsOf(index: Index, k: Keys): map<Name, Score> {
    map n | n in index && index[n] in k :: k[index[n]].score
  }

  lemma ContentsMove(index: Index, k: Keys, n: Node, x: Score)
    requires Indexes(index, k.Keys) && n in k
    ensures ContentsOf(index, k[n := Key(x, n.name)]) == ContentsOf(index, k)[n.name := x]
  {
  }

  lemma ContentsAdd(index: Index, k: Keys, k': Keys, n: Node)
    requires Indexes(index, k.Keys) && n !in k && n.name !in index
    requires k'.Keys == k.Keys + {n} && k' - {n} == k
    ensures Indexes(index[n.name := n], k'.Keys)
    ensures ContentsOf(index[n.name := n], k') == ContentsOf(index, k)[n.name := k'[n].score]
  {
    assert forall x :: x in k ==> k'[x] == (k' - {n})[x];
  }

  lemma ContentsDrop(index: Index, k: Keys, n: Node)
    requires Indexes(index, k.Keys) && n in k
    ensures Indexes(index - {n.name}, k.Keys - {n})
    ensures ContentsOf(index - {n.name}, k - {n}) == ContentsOf(index, k) - {n.name}
  {
  }

  /** Tree and index hold the same nodes, the tree in key order. */
  ghost predicate ZOk(root: Node?, index: Index, S: set<Node>, t: Tree)
    reads S
  {
    TreeOk(root, S, t) && Indexes(index, S)
  }

  method AddNode(root0: Node?, index0: Index, node: Node, ghost S: set<Node>, ghost t0: Tree)
    returns (root: Node, index: Index, ghost t: Tree)
    requires ZOk(root0, index0, S, t0) && node !in S && node.name !in index0
    requires node.left == null && node.right == null
    modifies (S + {node})`left, (S + {node})`right, (S + {node})`parent, (S + {node})`height, (S + {node})`cnt
    ensures ZOk(root, index, S + {node}, t)
    ensures ContentsOf(index, KeyView(S + {node})) == old(ContentsOf(index0, KeyView(S))[node.name := node.score])
  {
    ContentsAdd(index0, KeyView(S), KeyView(S + {node}), node);
    index := index0[node.name := node];
    ghost var at;
    root, t, at := TreeInsert(root0, node, S, t0);
  }

  method MoveNode(node: Node, score: Score, ghost index: Index, ghost S: set<Node>, ghost t0: Tree)
    returns (root: Node, ghost t: Tree)
    requires ZOk(Root(t0), index, S, t0) && node in S
    modifies S
    ensures ZOk(root, index, S, t)
    ensures ContentsOf(index, KeyView(S)) == old(ContentsOf(index, KeyView(S)))[node.name := score]
  {
    ContentsMove(index, KeyView(S), node, score);
    root, t := TreeMove(node, score, S, t0);
  }

  method DropNode(index0: Index, node: Node, ghost S: set<Node>, ghost t0: Tree)
    returns (root: Node?, index: Index, ghost t: Tree)
    requires ZOk(Root(t0), index0, S, t0) && node in S
    modifies S`left, S`right, S`parent, S`height, S`cnt
    ensures ZOk(root, index, S - {node}, t) && index == index0 - {node.name}
    ensures ContentsOf(index, KeyView(S - {node})) == old(ContentsOf(index0, KeyView(S))) - {node.name}
    ensures |InOrder(t0)| == Size(t0)
    ensures InOrder(t) == InOrder(t0)[..Place(t0, node)] + InOrder(t0)[Place(t0, node) + 1..]
  {
    ContentsDrop(index0, KeyView(S), node);
    index := index0 - {node.name};
    root, t := TreeDelete(node, S, t0);
  }

  class ZSet {
    var root: Node?
    var index: Index
    ghost var nodes: set<Node>
    ghost var tree: Tree

    ghost predicate Valid()
      reads this, nodes
    {
      ZOk(root, index, nodes, tree)
    }

    ghost function Contents(): map<Name, Score>
      reads this, nodes
    {
      ContentsOf(index, KeyView(nodes))
    }

    constructor ()
      ensures Valid() && Contents() == map[] && fresh(nodes)
    {
      root, index, nodes, tree := null, map[], {}, Nil;
    }

    method Store(root: Node?, index: Index, ghost nodes: set<Node>, ghost tree: Tree)
      requires ZOk(root, index, nodes, tree)
      modifies this
      ensures this.root == root && this.index == index && this.nodes == nodes && this.tree == tree
      ensures Valid() && Contents() == old(ContentsOf(index, KeyView(nodes)))
    {
      hide TreeOk, Indexes;
      ghost var m, k := View(nodes), KeyView(nodes);
      this.root, this.index, this.nodes, this.tree := root, index, nodes, tree;
      assert View(nodes) == m && KeyView(nodes) == k;
    }

    method Lookup(name: Name) returns (node: Node?)
      requires Valid()
      ensures node == null <==> name !in Contents()
      ensures node != null ==> node in nodes && node.name == name && node.score == Contents()[name]
    {
      if root == null {
        assert nodes == {};
        return null;
      }
      node := if name in index then index[name] else null;
    }

    /** `zset_update`: the node moves to its new place; the index is not touched. */
    method Update(node: Node, score: Score)
      requires Valid() && node in nodes
      modifies this, nodes
      ensures Valid() && Contents() == old(Contents())[node.name := score] && nodes == old(nodes)
    {
      if node.score == score {
        return;
      }
      var root'; ghost var tree';
      root', tree' := MoveNode(node, score, index, nodes, tree);
      Store(root', index, nodes, tree');
    }

    /** `zset_insert`: add a member or move it to a new score. */
    method Insert(name: Name, score: Score) returns (added: bool)
      requires Valid()
      modifies this, nodes
      ensures Valid() && Contents() == old(Contents())[name := score]
      ensures added == (name !in old(Contents()))
      ensures old(nodes) <= nodes && fresh(nodes - old(nodes)) && (!added ==> nodes == old(nodes))
    {
      var found := Lookup(name);
      if found != null {
        Update(found, score);
        return false;
      }
      Add(name, score);
      added := true;
    }

    method Add(name: Name, score: Score)
      requires Valid() && name !in Contents()
      modifies this, nodes
      ensures Valid() && Contents() == old(Contents())[name := score]
      ensures old(nodes) <= nodes && fresh(nodes - old(nodes))
    {
      var node := new Node(name, score);
      var root', index'; ghost var tree';
      root', index', tree' := AddNode(root, index, node, nodes, tree);
      Store(root', index', nodes + {node}, tree');
    }

    /** `zset_delete`: out of the index and out of the tree. */
    method Remove(node: Node)
      requires Valid() && node in nodes
      modifies this, nodes`left, nodes`right, nodes`parent, nodes`height, nodes`cnt
      ensures Valid() && Contents() == old(Contents()) - {node.name}
      ensures nodes == old(nodes) - {node}
    {
      var root', index'; ghost var tree';
      root', index', tree' := DropNode(index, node, nodes, tree);
      Store(root', index', nodes - {node}, tree');
    }
  }
}
