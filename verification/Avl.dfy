/** The intrusive AVL tree of src/ds/avl.cpp.

    A `Node` is the ZNode of the source: the tree links are embedded in it, so the
    object that carries the links also carries the score and the name.  The heap
    structure is described by a ghost `Tree` of the very same node references, and a
    position inside a tree by a ghost path `Ctx` from the root down to a hole. */
module Avl {
  import opened ZOrder

  /** What the tree code stores in a node. */
  datatype Cell = Cell(parent: Node?, left: Node?, right: Node?, height: nat, cnt: nat)

  class Node {
    var parent: Node?
    var left: Node?
    var right: Node?
    var height: nat
    var cnt: nat
    var score: Score
    const name: Name

    constructor (name: Name, score: Score)
      ensures this.name == name && this.score == score
      ensures parent == null && left == null && right == null && height == 1 && cnt == 1
    {
      this.name := name;
      this.score := score;
      parent, left, right := null, null, null;
      height, cnt := 1, 1;
    }

    ghost function Links(): Cell
      reads this
    {
      Cell(parent, left, right, height, cnt)
    }
  }

  datatype Tree = Nil | Bin(l: Tree, n: Node, r: Tree)

  ghost function Root(t: Tree): (r: Node?)
    ensures r != null <==> t.Bin?
    ensures r != null ==> r in Nodes(t)
  {
    if t.Nil? then null else t.n
  }

  ghost function Nodes(t: Tree): set<Node> {
    match t
    case Nil => {}
    case Bin(l, n, r) => Nodes(l) + {n} + Nodes(r)
  }

  ghost function InOrder(t: Tree): seq<Node> {
    match t
    case Nil => []
    case Bin(l, n, r) => InOrder(l) + [n] + InOrder(r)
  }

  function Max(a: nat, b: nat): nat {
    if a < b then b else a
  }

  ghost function Height(t: Tree): nat {
    match t
    case Nil => 0
    case Bin(l, _, r) => 1 + Max(Height(l), Height(r))
  }

  ghost function Size(t: Tree): nat {
    match t
    case Nil => 0
    case Bin(l, _, r) => 1 + Size(l) + Size(r)
  }

  /** No node occurs twice. */
  ghost predicate Distinct(t: Tree) {
    match t
    case Nil => true
    case Bin(l, n, r) =>
      && n !in Nodes(l) && n !in Nodes(r) && Nodes(l) !! Nodes(r)
      && Distinct(l) && Distinct(r)
  }

  predicate Near(a: nat, b: nat) {
    a <= b + 1 && b <= a + 1
  }

  ghost predicate Balanced(t: Tree) {
    match t
    case Nil => true
    case Bin(l, _, r) =>
      Near(Height(l), Height(r)) && Balanced(l) && Balanced(r)
  }

  /** The links of a set of nodes, as a value. */
  type Mem = map<Node, Cell>

  ghost function View(S: set<Node>): (m: Mem)
    reads S
    ensures m.Keys == S
  {
    map x | x in S :: x.Links()
  }

  /** The memory below `Root(t)` is `t`: parent and child links mirror each other, and every
      stored height and subtree size is exact.  `p` is the parent of the root. */
  ghost predicate Rep(m: Mem, t: Tree, p: Node?) {
    match t
    case Nil => true
    case Bin(l, n, r) =>
      && n in m && m[n] == Cell(p, Root(l), Root(r), Height(t), Size(t))
      && Rep(m, l, n) && Rep(m, r, n)
  }

  ghost predicate SameOn(m: Mem, m': Mem, s: set<Node>) {
    forall x :: x in s && x in m ==> x in m' && m'[x] == m[x]
  }

  lemma {:induction false} RepFrame(m: Mem, m': Mem, t: Tree, p: Node?)
    requires Rep(m, t, p) && SameOn(m, m', Nodes(t))
    ensures Rep(m', t, p)
    decreases t
  {
    match t
    case Nil =>
    case Bin(l, n, r) => RepFrame(m, m', l, n); RepFrame(m, m', r, n);
  }

  /** A correct AVL tree. */
  ghost predicate IsAvl(m: Mem, t: Tree) {
    Rep(m, t, null) && Balanced(t) && Distinct(t)
  }

  // ---- paths -------------------------------------------------------------------

  /** The way from the root down to a hole.  Each step is a node, the subtree on the other side
      of it, and whether the hole is to its left. */
  datatype Ctx = Top | Step(up: Ctx, n: Node, sib: Tree, left: bool)

  ghost function Join(t: Tree, n: Node, sib: Tree, left: bool): Tree {
    if left then Bin(t, n, sib) else Bin(sib, n, t)
  }

  ghost function Plug(c: Ctx, t: Tree): Tree {
    if c.Top? then t else Plug(c.up, Join(t, c.n, c.sib, c.left))
  }

  /** The node whose child is the hole. */
  ghost function Above(c: Ctx): Node? {
    if c.Top? then null else c.n
  }

  ghost function CtxNodes(c: Ctx): set<Node> {
    if c.Top? then {} else CtxNodes(c.up) + {c.n} + Nodes(c.sib)
  }

  /** The nodes before and after the hole, in order. */
  ghost function Before(c: Ctx): seq<Node> {
    if c.Top? then [] else if c.left then Before(c.up) else Before(c.up) + InOrder(c.sib) + [c.n]
  }

  ghost function After(c: Ctx): seq<Node> {
    if c.Top? then [] else if c.left then [c.n] + InOrder(c.sib) + After(c.up) else After(c.up)
  }

  /** The nodes before and after a node with subtrees l and r at the hole. */
  ghost function LeftOf(c: Ctx, l: Tree): seq<Node> { Before(c) + InOrder(l) }

  ghost function RightOf(c: Ctx, r: Tree): seq<Node> { InOrder(r) + After(c) }

  ghost predicate CtxDistinct(c: Ctx) {
    c.Step? ==>
      && c.n !in Nodes(c.sib) && Distinct(c.sib) && CtxDistinct(c.up)
      && CtxNodes(c.up) !! Nodes(c.sib) + {c.n}
  }

  /** The links along the path are right and the heights and sizes stored on it exact, if the
      hole is filled by `child`, of height h and size s. */
  ghost predicate CtxRep(m: Mem, c: Ctx, child: Node?, h: nat, s: nat) {
    c.Step? ==>
      var h', s' := 1 + Max(h, Height(c.sib)), 1 + s + Size(c.sib);
      && c.n in m
      && m[c.n] == (if c.left then Cell(Above(c.up), child, Root(c.sib), h', s')
                    else Cell(Above(c.up), Root(c.sib), child, h', s'))
      && Rep(m, c.sib, c.n) && CtxRep(m, c.up, c.n, h', s')
  }

  lemma {:induction false} CtxFrame(m: Mem, m': Mem, c: Ctx, child: Node?, h: nat, s: nat)
    requires CtxRep(m, c, child, h, s) && SameOn(m, m', CtxNodes(c))
    ensures CtxRep(m', c, child, h, s)
    decreases c
  {
    if c.Step? {
      RepFrame(m, m', c.sib, c.n);
      CtxFrame(m, m', c.up, c.n, 1 + Max(h, Height(c.sib)), 1 + s + Size(c.sib));
    }
  }

  /** Every subtree off the path is balanced, and so is every node on it if the hole has height h. */
  ghost predicate CtxBalanced(c: Ctx, h: nat) {
    c.Step? ==>
      && Near(h, Height(c.sib)) && Balanced(c.sib)
      && CtxBalanced(c.up, 1 + Max(h, Height(c.sib)))
  }

  lemma {:induction false} PlugNodes(c: Ctx, t: Tree)
    ensures Nodes(Plug(c, t)) == CtxNodes(c) + Nodes(t)
    decreases c
  {
    if c.Step? { PlugNodes(c.up, Join(t, c.n, c.sib, c.left)); }
  }

  lemma {:induction false} PlugInOrder(c: Ctx, t: Tree)
    ensures InOrder(Plug(c, t)) == Before(c) + InOrder(t) + After(c)
    decreases c
  {
    if c.Step? { PlugInOrder(c.up, Join(t, c.n, c.sib, c.left)); }
  }

  lemma {:induction false} PlugDistinct(c: Ctx, t: Tree)
    ensures Distinct(Plug(c, t)) <==> Distinct(t) && CtxDistinct(c) && CtxNodes(c) !! Nodes(t)
    decreases c
  {
    if c.Step? { PlugDistinct(c.up, Join(t, c.n, c.sib, c.left)); }
  }

  lemma {:induction false} PlugBalanced(c: Ctx, t: Tree)
    ensures Balanced(Plug(c, t)) <==> Balanced(t) && CtxBalanced(c, Height(t))
    decreases c
  {
    if c.Step? {
      var t' := Join(t, c.n, c.sib, c.left);
      PlugBalanced(c.up, t');
      assert Height(t') == 1 + Max(Height(t), Height(c.sib));
      assert Balanced(t') <==> Near(Height(t), Height(c.sib)) && Balanced(t) && Balanced(c.sib);
    }
  }

  /** A tree with a hole in it is in memory exactly when the path and the subtree are. */
  lemma {:induction false} PlugRep(m: Mem, c: Ctx, t: Tree)
    ensures Rep(m, Plug(c, t), null) <==> Rep(m, t, Above(c)) && CtxRep(m, c, Root(t), Height(t), Size(t))
    decreases c
  {
    if c.Step? {
      PlugRep(m, c.up, Join(t, c.n, c.sib, c.left));
      JoinRep(m, t, c.n, c.sib, c.left, Above(c.up));
    }
  }

  lemma JoinRep(m: Mem, t: Tree, n: Node, sib: Tree, left: bool, p: Node?)
    ensures var j := Join(t, n, sib, left);
            && Root(j) == n && Height(j) == 1 + Max(Height(t), Height(sib)) && Size(j) == 1 + Size(t) + Size(sib)
            && (Rep(m, j, p) <==>
                && n in m && Rep(m, t, n) && Rep(m, sib, n)
                && m[n] == if left then Cell(p, Root(t), Root(sib), Height(j), Size(j))
                           else Cell(p, Root(sib), Root(t), Height(j), Size(j)))
  {
  }

  /** The path to a node of a tree. */
  ghost function PathTo(t: Tree, x: Node, c: Ctx): (r: (Ctx, Tree))
    requires x in Nodes(t)
    ensures Plug(r.0, r.1) == Plug(c, t) && r.1.Bin? && r.1.n == x
    decreases t
  {
    if t.n == x then (c, t)
    else if x in Nodes(t.l) then PathTo(t.l, x, Step(c, t.n, t.r, true))
    else PathTo(t.r, x, Step(c, t.n, t.l, false))
  }

  lemma {:induction false} InOrderNodes(t: Tree)
    ensures |InOrder(t)| == Size(t)
    ensures forall x :: x in InOrder(t) <==> x in Nodes(t)
  {
    match t
    case Nil =>
    case Bin(l, _, r) => InOrderNodes(l); InOrderNodes(r);
  }

  // ---- single writes -----------------------------------------------------------

  /** `x` is null or one of `m`. */
  ghost predicate Ok(m: Mem, x: Node?) {
    x != null ==> x in m
  }

  ghost function At(m: Mem, x: Node?): Cell {
    if x != null && x in m then m[x] else Cell(null, null, null, 0, 0)
  }

  method SetLeft(n: Node, v: Node?, ghost S: set<Node>)
    requires n in S
    modifies n`left
    ensures View(S) == old(View(S))[n := old(View(S))[n].(left := v)]
  {
    n.left := v;
  }

  method SetRight(n: Node, v: Node?, ghost S: set<Node>)
    requires n in S
    modifies n`right
    ensures View(S) == old(View(S))[n := old(View(S))[n].(right := v)]
  {
    n.right := v;
  }

  ghost function MAdopt(m: Mem, n: Node?, p: Node?): Mem {
    if n == null then m else m[n := At(m, n).(parent := p)]
  }

  /** `if (n) { n->parent = p; }` */
  method Adopt(n: Node?, p: Node?, ghost S: set<Node>)
    requires Ok(View(S), n)
    modifies S`parent
    ensures View(S) == MAdopt(old(View(S)), n, p)
  {
    if n != null { n.parent := p; }
  }

  lemma {:induction false} AdoptRep(m: Mem, t: Tree, was: Node?, p: Node?)
    requires Rep(m, t, was) && Distinct(t)
    ensures Ok(m, Root(t)) && Rep(MAdopt(m, Root(t), p), t, p)
  {
    if t.Bin? {
      var m' := MAdopt(m, Root(t), p);
      RepFrame(m, m', t.l, t.n);
      RepFrame(m, m', t.r, t.n);
    }
  }

  function HeightOf(n: Node?): nat
    reads n
  {
    if n == null then 0 else n.height
  }

  function CntOf(n: Node?): nat
    reads n
  {
    if n == null then 0 else n.cnt
  }

  ghost function MUpdate(m: Mem, n: Node): Mem {
    var c := At(m, n);
    m[n := c.(height := 1 + Max(At(m, c.left).height, At(m, c.right).height),
              cnt := 1 + At(m, c.left).cnt + At(m, c.right).cnt)]
  }

  method Update(node: Node, ghost S: set<Node>)
    requires node in S && Ok(View(S), node.left) && Ok(View(S), node.right)
    modifies node`height, node`cnt
    ensures View(S) == MUpdate(old(View(S)), node)
  {
    node.height, node.cnt :=
      1 + Max(HeightOf(node.left), HeightOf(node.right)), 1 + CntOf(node.left) + CntOf(node.right);
  }

  /** `avl_update` makes a subtree whose children are right, right. */
  lemma {:induction false} UpdateRep(m: Mem, l: Tree, n: Node, r: Tree)
    requires n in m && m[n].left == Root(l) && m[n].right == Root(r) && Rep(m, l, n) && Rep(m, r, n)
    requires n !in Nodes(l) && n !in Nodes(r)
    ensures Ok(m, Root(l)) && Ok(m, Root(r))
    ensures Rep(MUpdate(m, n), Bin(l, n, r), m[n].parent) && MUpdate(m, n).Keys == m.Keys
  {
    RepFrame(m, MUpdate(m, n), l, n);
    RepFrame(m, MUpdate(m, n), r, n);
  }

  // ---- rotations ---------------------------------------------------------------

  ghost predicate Apart(a: Tree, n: Node, b: Tree, x: Node, c: Tree) {
    && n != x && n !in Nodes(a) + Nodes(b) + Nodes(c) && x !in Nodes(a) + Nodes(b) + Nodes(c)
    && Nodes(a) !! Nodes(b) && Nodes(a) !! Nodes(c) && Nodes(b) !! Nodes(c)
    && Distinct(a) && Distinct(b) && Distinct(c)
  }

  lemma Rotated(a: Tree, n: Node, b: Tree, x: Node, c: Tree)
    ensures Distinct(Bin(a, n, Bin(b, x, c))) <==> Apart(a, n, b, x, c)
    ensures Distinct(Bin(Bin(a, n, b), x, c)) <==> Apart(a, n, b, x, c)
    ensures InOrder(Bin(a, n, Bin(b, x, c))) == InOrder(Bin(Bin(a, n, b), x, c))
    ensures Nodes(Bin(a, n, Bin(b, x, c))) == Nodes(Bin(Bin(a, n, b), x, c))
  {
    assert Nodes(Bin(b, x, c)) == Nodes(b) + {x} + Nodes(c);
    assert Nodes(Bin(a, n, b)) == Nodes(a) + {n} + Nodes(b);
    assert InOrder(Bin(b, x, c)) == InOrder(b) + [x] + InOrder(c);
    assert InOrder(Bin(a, n, b)) == InOrder(a) + [n] + InOrder(b);
    assert Distinct(Bin(b, x, c)) <==>
             x !in Nodes(b) && x !in Nodes(c) && Nodes(b) !! Nodes(c) && Distinct(b) && Distinct(c);
  }

  /** The links that rot_left rewrites, before it recomputes heights and sizes. */
  ghost function MTurnLeft(m: Mem, n: Node, x: Node): Mem {
    var i := At(m, x).left;
    var m1 := m[n := At(m, n).(right := i)];
    var m2 := MAdopt(m1, i, n);
    var m3 := m2[x := At(m2, x).(parent := At(m, n).parent)];
    var m4 := m3[x := At(m3, x).(left := n)];
    m4[n := At(m4, n).(parent := x)]
  }

  method TurnLeft(node: Node, ghost S: set<Node>) returns (top: Node)
    requires node in S && node.right != null && node.right in S && Ok(View(S), node.right.left)
    modifies S`left, S`right, S`parent
    ensures top == old(node.right) && View(S) == MTurnLeft(old(View(S)), node, top)
  {
    var parent := node.parent;
    var newNode := node.right;
    var inner := newNode.left;
    SetRight(node, inner, S);
    Adopt(inner, node, S);
    Adopt(newNode, parent, S);
    SetLeft(newNode, node, S);
    Adopt(node, newNode, S);
    top := newNode;
  }

  lemma {:induction false} TurnLeftRep(m: Mem, a: Tree, b: Tree, c: Tree, n: Node, x: Node)
    requires n in m && m[n].left == Root(a) && m[n].right == x && Apart(a, n, b, x, c)
    requires Rep(m, a, n) && Rep(m, Bin(b, x, c), n)
    ensures x in m && Ok(m, m[x].left)
    ensures var m' := MTurnLeft(m, n, x);
            && Rep(m', a, n) && Rep(m', b, n) && Rep(m', c, x) && n in m' && x in m'
            && m'[n].parent == x && m'[n].left == Root(a) && m'[n].right == Root(b)
            && m'[x].parent == m[n].parent && m'[x].left == n && m'[x].right == Root(c)
            && m'.Keys == m.Keys && SameOn(m, m', m.Keys - {n, x} - Nodes(b))
  {
    var m1 := m[n := At(m, n).(right := Root(b))];
    RepFrame(m, m1, b, x);
    AdoptRep(m1, b, x, n);
    var m' := MTurnLeft(m, n, x);
    RepFrame(MAdopt(m1, Root(b), n), m', b, n);
    RepFrame(m, m', a, n);
    RepFrame(m, m', c, x);
  }

  ghost function MRotLeft(m: Mem, n: Node, x: Node): Mem {
    MUpdate(MUpdate(MTurnLeft(m, n, x), n), x)
  }

  lemma {:induction false} RotLeftRep(m: Mem, a: Tree, b: Tree, c: Tree, n: Node, x: Node)
    requires n in m && m[n].left == Root(a) && m[n].right == x && Apart(a, n, b, x, c)
    requires Rep(m, a, n) && Rep(m, Bin(b, x, c), n)
    ensures var m' := MRotLeft(m, n, x);
            && Rep(m', Bin(Bin(a, n, b), x, c), m[n].parent)
            && m'.Keys == m.Keys && SameOn(m, m', m.Keys - {n, x} - Nodes(b))
  {
    TurnLeftRep(m, a, b, c, n, x);
    var m1 := MTurnLeft(m, n, x);
    UpdateRep(m1, a, n, b);
    var m2 := MUpdate(m1, n);
    RepFrame(m1, m2, c, x);
    UpdateRep(m2, Bin(a, n, b), x, c);
  }

  method RotLeft(node: Node, ghost S: set<Node>, ghost a: Tree, ghost b: Tree, ghost c: Tree) returns (top: Node)
    requires node in S && node.right != null && Apart(a, node, b, node.right, c)
    requires node.left == Root(a) && Rep(View(S), a, node) && Rep(View(S), Bin(b, node.right, c), node)
    modifies S`left, S`right, S`parent, S`height, S`cnt
    ensures top == old(node.right)
    ensures Rep(View(S), Bin(Bin(a, node, b), top, c), old(node.parent))
    ensures SameOn(old(View(S)), View(S), S - {node, top} - Nodes(b))
  {
    TurnLeftRep(View(S), a, b, c, node, node.right);
    RotLeftRep(View(S), a, b, c, node, node.right);
    top := TurnLeft(node, S);
    Update(node, S);
    Update(top, S);
  }

  /** The links that rot_right rewrites, before it recomputes heights and sizes. */
  ghost function MTurnRight(m: Mem, n: Node, x: Node): Mem {
    var i := At(m, x).right;
    var m1 := m[n := At(m, n).(left := i)];
    var m2 := MAdopt(m1, i, n);
    var m3 := m2[x := At(m2, x).(parent := At(m, n).parent)];
    var m4 := m3[x := At(m3, x).(right := n)];
    m4[n := At(m4, n).(parent := x)]
  }

  method TurnRight(node: Node, ghost S: set<Node>) returns (top: Node)
    requires node in S && node.left != null && node.left in S && Ok(View(S), node.left.right)
    modifies S`left, S`right, S`parent
    ensures top == old(node.left) && View(S) == MTurnRight(old(View(S)), node, top)
  {
    var parent := node.parent;
    var newNode := node.left;
    var inner := newNode.right;
    SetLeft(node, inner, S);
    Adopt(inner, node, S);
    Adopt(newNode, parent, S);
    SetRight(newNode, node, S);
    Adopt(node, newNode, S);
    top := newNode;
  }

  lemma {:induction false} TurnRightRep(m: Mem, a: Tree, b: Tree, c: Tree, n: Node, x: Node)
    requires n in m && m[n].right == Root(c) && m[n].left == x && Apart(a, x, b, n, c)
    requires Rep(m, c, n) && Rep(m, Bin(a, x, b), n)
    ensures x in m && Ok(m, m[x].right)
    ensures var m' := MTurnRight(m, n, x);
            && Rep(m', c, n) && Rep(m', b, n) && Rep(m', a, x) && n in m' && x in m'
            && m'[n].parent == x && m'[n].right == Root(c) && m'[n].left == Root(b)
            && m'[x].parent == m[n].parent && m'[x].right == n && m'[x].left == Root(a)
            && m'.Keys == m.Keys && SameOn(m, m', m.Keys - {n, x} - Nodes(b))
  {
    var m1 := m[n := At(m, n).(left := Root(b))];
    RepFrame(m, m1, b, x);
    AdoptRep(m1, b, x, n);
    var m' := MTurnRight(m, n, x);
    RepFrame(MAdopt(m1, Root(b), n), m', b, n);
    RepFrame(m, m', c, n);
    RepFrame(m, m', a, x);
  }

  ghost function MRotRight(m: Mem, n: Node, x: Node): Mem {
    MUpdate(MUpdate(MTurnRight(m, n, x), n), x)
  }

  lemma {:induction false} RotRightRep(m: Mem, a: Tree, b: Tree, c: Tree, n: Node, x: Node)
    requires n in m && m[n].right == Root(c) && m[n].left == x && Apart(a, x, b, n, c)
    requires Rep(m, c, n) && Rep(m, Bin(a, x, b), n)
    ensures var m' := MRotRight(m, n, x);
            && Rep(m', Bin(a, x, Bin(b, n, c)), m[n].parent)
            && m'.Keys == m.Keys && SameOn(m, m', m.Keys - {n, x} - Nodes(b))
  {
    TurnRightRep(m, a, b, c, n, x);
    var m1 := MTurnRight(m, n, x);
    UpdateRep(m1, b, n, c);
    var m2 := MUpdate(m1, n);
    RepFrame(m1, m2, a, x);
    UpdateRep(m2, a, x, Bin(b, n, c));
  }

  method RotRight(node: Node, ghost S: set<Node>, ghost a: Tree, ghost b: Tree, ghost c: Tree) returns (top: Node)
    requires node in S && node.left != null && Apart(a, node.left, b, node, c)
    requires node.right == Root(c) && Rep(View(S), c, node) && Rep(View(S), Bin(a, node.left, b), node)
    modifies S`left, S`right, S`parent, S`height, S`cnt
    ensures top == old(node.left)
    ensures Rep(View(S), Bin(a, top, Bin(b, node, c)), old(node.parent))
    ensures SameOn(old(View(S)), View(S), S - {node, top} - Nodes(b))
  {
    TurnRightRep(View(S), a, b, c, node, node.left);
    RotRightRep(View(S), a, b, c, node, node.left);
    top := TurnRight(node, S);
    Update(node, S);
    Update(top, S);
  }

  // ---- rebalancing -------------------------------------------------------------

  /** What rebalancing one node does: the same nodes in the same order, balanced, at most one
      level lower, and nothing outside the subtree written. */
  ghost predicate Fixed(m: Mem, m': Mem, t: Tree, t': Tree, p: Node?) {
    && m'.Keys == m.Keys && SameOn(m, m', m.Keys - Nodes(t))
    && Rep(m', t', p) && Balanced(t') && Distinct(t')
    && InOrder(t') == InOrder(t) && Nodes(t') == Nodes(t)
    && Height(t') <= Height(t) <= Height(t') + 1
  }

  /** The stored height and size of a subtree are what the memory says. */
  lemma Stored(S: set<Node>, t: Tree, p: Node?)
    requires Rep(View(S), t, p)
    ensures HeightOf(Root(t)) == Height(t) && CntOf(Root(t)) == Size(t)
  {
  }

  /** A single rotation is enough if the outer grandchild is as tall as the inner one. */
  lemma LeftOuter(m: Mem, m': Mem, l: Tree, n: Node, r: Tree, p: Node?)
    requires Distinct(Bin(l, n, r)) && Balanced(l) && Balanced(r) && Height(l) == Height(r) + 2
    requires Height(l.l) >= Height(l.r)
    requires Rep(m', Bin(l.l, l.n, Bin(l.r, n, r)), p)
    requires m'.Keys == m.Keys && SameOn(m, m', m.Keys - Nodes(Bin(l, n, r)))
    ensures Fixed(m, m', Bin(l, n, r), Bin(l.l, l.n, Bin(l.r, n, r)), p)
  {
    Rotated(l.l, l.n, l.r, n, r);
    assert Near(Height(l.l), Height(l.r));
  }

  lemma LeftInner(m: Mem, m': Mem, l: Tree, n: Node, r: Tree, p: Node?)
    requires Distinct(Bin(l, n, r)) && Balanced(l) && Balanced(r) && Height(l) == Height(r) + 2
    requires Height(l.l) < Height(l.r)
    requires Rep(m', Bin(Bin(l.l, l.n, l.r.l), l.r.n, Bin(l.r.r, n, r)), p)
    requires m'.Keys == m.Keys && SameOn(m, m', m.Keys - Nodes(Bin(l, n, r)))
    ensures Fixed(m, m', Bin(l, n, r), Bin(Bin(l.l, l.n, l.r.l), l.r.n, Bin(l.r.r, n, r)), p)
  {
    var b, y, c := l.r.l, l.r.n, l.r.r;
    assert l.r == Bin(b, y, c);
    Rotated(l.l, l.n, l.r, n, r);
    Rotated(l.l, l.n, b, y, c);
    Rotated(Bin(l.l, l.n, b), y, c, n, r);
    assert Near(Height(l.l), Height(l.r));
    assert Near(Height(b), Height(c));
  }

  /** After a child slot of n is written, the subtrees that do not hold n stay as they were. */
  lemma BendFrame(m: Mem, m1: Mem, m2: Mem, n: Node, sub: Tree, other: Tree, s: set<Node>)
    requires Rep(m1, sub, n) && Rep(m, other, n) && Nodes(sub) == s && n !in s && n !in Nodes(other)
    requires s !! Nodes(other)
    requires m.Keys == m1.Keys == m2.Keys && SameOn(m, m1, m.Keys - s) && SameOn(m1, m2, m1.Keys - {n})
    ensures Rep(m2, sub, n) && Rep(m2, other, n) && SameOn(m, m2, m.Keys - s - {n})
  {
    RepFrame(m1, m2, sub, n);
    assert SameOn(m, m2, Nodes(other));
    RepFrame(m, m2, other, n);
  }

  /** `node->left = rot_left(node->left)` */
  method BendLeft(node: Node, ghost S: set<Node>, ghost l: Tree, ghost r: Tree)
    requires node in S && l.Bin? && l.r.Bin? && Apart(l.l, l.n, l.r, node, r) && Distinct(l)
    requires node.left == l.n && node.right == Root(r) && Rep(View(S), l, node) && Rep(View(S), r, node)
    modifies S`left, S`right, S`parent, S`height, S`cnt
    ensures var l' := Bin(Bin(l.l, l.n, l.r.l), l.r.n, l.r.r);
            && Rep(View(S), l', node) && Rep(View(S), r, node)
            && node.left == l.r.n && node.right == Root(r) && node.parent == old(node.parent)
            && SameOn(old(View(S)), View(S), S - Nodes(l) - {node})
  {
    ghost var m := View(S);
    Rotated(l.l, l.n, l.r.l, l.r.n, l.r.r);
    var y := RotLeft(node.left, S, l.l, l.r.l, l.r.r);
    ghost var m1 := View(S);
    SetLeft(node, y, S);
    BendFrame(m, m1, View(S), node, Bin(Bin(l.l, l.n, l.r.l), l.r.n, l.r.r), r, Nodes(l));
  }

  /** The double rotation, for an inner grandchild that is the taller. */
  method FixLeftInner(node: Node, ghost S: set<Node>, ghost l: Tree, ghost r: Tree) returns (top: Node, ghost t: Tree)
    requires node in S && Rep(View(S), Bin(l, node, r), node.parent) && Distinct(Bin(l, node, r))
    requires Balanced(l) && Balanced(r) && Height(l) == Height(r) + 2 && Height(l.l) < Height(l.r)
    modifies S`left, S`right, S`parent, S`height, S`cnt
    ensures top == Root(t) && Fixed(old(View(S)), View(S), Bin(l, node, r), t, old(node.parent))
  {
    hide Balanced, Fixed, InOrder;
    ghost var m, p := View(S), node.parent;
    ghost var a, x, b, y, c := l.l, l.n, l.r.l, l.r.n, l.r.r;
    Rotated(a, x, l.r, node, r);
    BendLeft(node, S, l, r);
    Rotated(a, x, b, y, c);
    Rotated(Bin(a, x, b), y, c, node, r);
    top := RotRight(node, S, Bin(a, x, b), c, r);
    t := Bin(Bin(a, x, b), y, Bin(c, node, r));
    LeftInner(m, View(S), l, node, r, p);
  }

  method FixLeft(node: Node, ghost S: set<Node>, ghost l: Tree, ghost r: Tree) returns (top: Node, ghost t: Tree)
    requires node in S && Rep(View(S), Bin(l, node, r), node.parent) && Distinct(Bin(l, node, r))
    requires Balanced(l) && Balanced(r) && Height(l) == Height(r) + 2
    modifies S`left, S`right, S`parent, S`height, S`cnt
    ensures top == Root(t) && Fixed(old(View(S)), View(S), Bin(l, node, r), t, old(node.parent))
  {
    ghost var m, p := View(S), node.parent;
    var x := node.left;
    assert Rep(m, l, node);
    Stored(S, l.l, x);
    Stored(S, l.r, x);
    Rotated(l.l, l.n, l.r, node, r);
    if HeightOf(x.left) < HeightOf(x.right) {
      top, t := FixLeftInner(node, S, l, r);
    } else {
      top := RotRight(node, S, l.l, l.r, r);
      t := Bin(l.l, x, Bin(l.r, node, r));
      LeftOuter(m, View(S), l, node, r, p);
    }
  }

  lemma RightOuter(m: Mem, m': Mem, l: Tree, n: Node, r: Tree, p: Node?)
    requires Distinct(Bin(l, n, r)) && Balanced(l) && Balanced(r) && Height(r) == Height(l) + 2
    requires Height(r.r) >= Height(r.l)
    requires Rep(m', Bin(Bin(l, n, r.l), r.n, r.r), p)
    requires m'.Keys == m.Keys && SameOn(m, m', m.Keys - Nodes(Bin(l, n, r)))
    ensures Fixed(m, m', Bin(l, n, r), Bin(Bin(l, n, r.l), r.n, r.r), p)
  {
    Rotated(l, n, r.l, r.n, r.r);
    assert Near(Height(r.l), Height(r.r));
  }

  lemma RightInner(m: Mem, m': Mem, l: Tree, n: Node, r: Tree, p: Node?)
    requires Distinct(Bin(l, n, r)) && Balanced(l) && Balanced(r) && Height(r) == Height(l) + 2
    requires Height(r.r) < Height(r.l)
    requires Rep(m', Bin(Bin(l, n, r.l.l), r.l.n, Bin(r.l.r, r.n, r.r)), p)
    requires m'.Keys == m.Keys && SameOn(m, m', m.Keys - Nodes(Bin(l, n, r)))
    ensures Fixed(m, m', Bin(l, n, r), Bin(Bin(l, n, r.l.l), r.l.n, Bin(r.l.r, r.n, r.r)), p)
  {
    var b, y, c := r.l.l, r.l.n, r.l.r;
    assert r.l == Bin(b, y, c);
    Rotated(l, n, r.l, r.n, r.r);
    Rotated(b, y, c, r.n, r.r);
    Rotated(l, n, b, y, Bin(c, r.n, r.r));
    assert Near(Height(r.l), Height(r.r));
    assert Near(Height(b), Height(c));
  }

  /** `node->right = rot_right(node->right)` */
  method BendRight(node: Node, ghost S: set<Node>, ghost l: Tree, ghost r: Tree)
    requires node in S && r.Bin? && r.l.Bin? && Apart(l, node, r.l, r.n, r.r) && Distinct(r)
    requires node.left == Root(l) && node.right == r.n && Rep(View(S), l, node) && Rep(View(S), r, node)
    modifies S`left, S`right, S`parent, S`height, S`cnt
    ensures var r' := Bin(r.l.l, r.l.n, Bin(r.l.r, r.n, r.r));
            && Rep(View(S), l, node) && Rep(View(S), r', node)
            && node.left == Root(l) && node.right == r.l.n && node.parent == old(node.parent)
            && SameOn(old(View(S)), View(S), S - Nodes(r) - {node})
  {
    ghost var m := View(S);
    Rotated(r.l.l, r.l.n, r.l.r, r.n, r.r);
    var y := RotRight(node.right, S, r.l.l, r.l.r, r.r);
    ghost var m1 := View(S);
    SetRight(node, y, S);
    BendFrame(m, m1, View(S), node, Bin(r.l.l, r.l.n, Bin(r.l.r, r.n, r.r)), l, Nodes(r));
  }

  method FixRightInner(node: Node, ghost S: set<Node>, ghost l: Tree, ghost r: Tree) returns (top: Node, ghost t: Tree)
    requires node in S && Rep(View(S), Bin(l, node, r), node.parent) && Distinct(Bin(l, node, r))
    requires Balanced(l) && Balanced(r) && Height(r) == Height(l) + 2 && Height(r.r) < Height(r.l)
    modifies S`left, S`right, S`parent, S`height, S`cnt
    ensures top == Root(t) && Fixed(old(View(S)), View(S), Bin(l, node, r), t, old(node.parent))
  {
    hide Balanced, Fixed, InOrder;
    ghost var m, p := View(S), node.parent;
    ghost var b, y, c, x, d := r.l.l, r.l.n, r.l.r, r.n, r.r;
    Rotated(l, node, r.l, x, d);
    BendRight(node, S, l, r);
    Rotated(b, y, c, x, d);
    Rotated(l, node, b, y, Bin(c, x, d));
    top := RotLeft(node, S, l, b, Bin(c, x, d));
    t := Bin(Bin(l, node, b), y, Bin(c, x, d));
    RightInner(m, View(S), l, node, r, p);
  }

  method FixRight(node: Node, ghost S: set<Node>, ghost l: Tree, ghost r: Tree) returns (top: Node, ghost t: Tree)
    requires node in S && Rep(View(S), Bin(l, node, r), node.parent) && Distinct(Bin(l, node, r))
    requires Balanced(l) && Balanced(r) && Height(r) == Height(l) + 2
    modifies S`left, S`right, S`parent, S`height, S`cnt
    ensures top == Root(t) && Fixed(old(View(S)), View(S), Bin(l, node, r), t, old(node.parent))
  {
    ghost var m, p := View(S), node.parent;
    var x := node.right;
    assert Rep(m, r, node);
    Stored(S, r.l, x);
    Stored(S, r.r, x);
    Rotated(l, node, r.l, r.n, r.r);
    if HeightOf(x.right) < HeightOf(x.left) {
      top, t := FixRightInner(node, S, l, r);
    } else {
      top := RotLeft(node, S, l, r.l, r.r);
      t := Bin(Bin(l, node, r.l), x, r.r);
      RightOuter(m, View(S), l, node, r, p);
    }
  }

  /** Updating and, if need be, rebalancing one node whose children are AVL trees at most two
      levels apart. */
  method FixNode(node: Node, ghost S: set<Node>, ghost l: Tree, ghost r: Tree)
    returns (top: Node, ghost t: Tree)
    requires node in S && Distinct(Bin(l, node, r)) && Balanced(l) && Balanced(r)
    requires Height(l) <= Height(r) + 2 && Height(r) <= Height(l) + 2
    requires node.left == Root(l) && node.right == Root(r) && Rep(View(S), l, node) && Rep(View(S), r, node)
    modifies S`left, S`right, S`parent, S`height, S`cnt
    ensures top == Root(t) && Fixed(old(View(S)), View(S), Bin(l, node, r), t, old(node.parent))
    ensures Near(Height(l), Height(r)) ==> t == Bin(l, node, r)
  {
    ghost var m, p := View(S), node.parent;
    UpdateRep(m, l, node, r);
    Update(node, S);
    Stored(S, l, node);
    Stored(S, r, node);
    var hl, hr := HeightOf(node.left), HeightOf(node.right);
    if hl == hr + 2 {
      top, t := FixLeft(node, S, l, r);
    } else if hl + 2 == hr {
      top, t := FixRight(node, S, l, r);
    } else {
      top, t := node, Bin(l, node, r);
    }
    assert SameOn(m, View(S), S - Nodes(Bin(l, node, r)));
  }

  /** The state of the walk up to the root at `n`: its two subtrees and everything off the path are
      AVL trees in memory, and the path still records what it did before the change, when the
      subtree at `n` had height h and size s. */
  ghost predicate Pending(m: Mem, n: Node, l: Tree, r: Tree, c: Ctx, h: nat, s: nat) {
    && Distinct(Plug(c, Bin(l, n, r)))
    && n in m && m[n].parent == Above(c) && m[n].left == Root(l) && m[n].right == Root(r)
    && Rep(m, l, n) && Rep(m, r, n) && Balanced(l) && Balanced(r)
    && CtxRep(m, c, n, h, s) && CtxBalanced(c, h)
    && Height(l) <= Height(r) + 2 && Height(r) <= Height(l) + 2
    && var now := 1 + Max(Height(l), Height(r));
       if Near(Height(l), Height(r)) then Near(now, h) else h <= now <= h + 1
  }

  /** How far the walk of `avl_fix` has come. */
  datatype Walk = Walk(l: Tree, r: Tree, c: Ctx, h: nat, s: nat)

  ghost predicate Walking(m: Mem, n: Node, w: Walk, S: set<Node>, order: seq<Node>) {
    && Pending(m, n, w.l, w.r, w.c, w.h, w.s)
    && Nodes(Plug(w.c, Bin(w.l, n, w.r))) == S && InOrder(Plug(w.c, Bin(w.l, n, w.r))) == order
  }

  /** The subtree at the hole of the path has been rebalanced to `t`. */
  ghost predicate Settled(m: Mem, t: Tree, w: Walk, S: set<Node>, order: seq<Node>) {
    && Rep(m, t, Above(w.c)) && CtxRep(m, w.c, Root(t), w.h, w.s)
    && Balanced(t) && Near(Height(t), w.h) && CtxBalanced(w.c, w.h)
    && Distinct(Plug(w.c, t)) && Nodes(Plug(w.c, t)) == S && InOrder(Plug(w.c, t)) == order
  }

  ghost function Up(w: Walk, t: Tree): Walk
    requires w.c.Step?
  {
    var c := w.c;
    Walk(if c.left then t else c.sib, if c.left then c.sib else t, c.up,
         1 + Max(w.h, Height(c.sib)), 1 + w.s + Size(c.sib))
  }

  /** The parent of a rebalanced subtree is the next node to look at. */
  lemma SettledUp(m: Mem, t: Tree, w: Walk, S: set<Node>, order: seq<Node>)
    requires w.c.Step? && Settled(m, t, w, S, order)
    ensures Walking(m, w.c.n, Up(w, t), S, order)
  {
    var c, u := w.c, Up(w, t);
    assert Plug(c, t) == Plug(c.up, Bin(u.l, c.n, u.r));
    PendingUp(m, t, c, w.h, w.s);
  }

  lemma PendingUp(m: Mem, t: Tree, c: Ctx, h: nat, s: nat)
    requires c.Step? && Rep(m, t, c.n) && CtxRep(m, c, Root(t), h, s) && Balanced(t) && Near(Height(t), h)
    requires CtxBalanced(c, h)
    requires Distinct(Plug(c, t))
    ensures var l, r := if c.left then t else c.sib, if c.left then c.sib else t;
            Pending(m, c.n, l, r, c.up, 1 + Max(h, Height(c.sib)), 1 + s + Size(c.sib))
  {
    HeightsUp(Height(t), h, Height(c.sib));
  }

  /** How far apart two subtrees can be once one of them has changed by a level. */
  lemma HeightsUp(now: nat, was: nat, sib: nat)
    requires Near(now, was) && Near(was, sib)
    ensures now <= sib + 2 && sib <= now + 2
    ensures var top, old' := 1 + Max(now, sib), 1 + Max(was, sib);
            if Near(now, sib) then Near(top, old') else old' <= top <= old' + 1
  {
  }

  lemma SettledTop(m: Mem, t: Tree, w: Walk, S: set<Node>, order: seq<Node>)
    requires w.c.Top? && Settled(m, t, w, S, order)
    ensures IsAvl(m, t) && InOrder(t) == order && Nodes(t) == S
  {
  }

  lemma SamePlug(c: Ctx, t: Tree, t': Tree)
    requires InOrder(t) == InOrder(t') && Nodes(t) == Nodes(t')
    ensures InOrder(Plug(c, t)) == InOrder(Plug(c, t'))
    ensures Nodes(Plug(c, t)) == Nodes(Plug(c, t')) == CtxNodes(c) + Nodes(t)
  {
    PlugNodes(c, t);
    PlugNodes(c, t');
    PlugInOrder(c, t);
    PlugInOrder(c, t');
  }

  ghost function Slot(m: Mem, n: Node, left: bool, child: Node?): Mem
    requires n in m
  {
    m[n := if left then m[n].(left := child) else m[n].(right := child)]
  }

  lemma SlotRep(m: Mem, c: Ctx, was: Node?, child: Node?, h: nat, s: nat)
    requires c.Step? && CtxDistinct(c) && CtxRep(m, c, was, h, s)
    ensures CtxRep(Slot(m, c.n, c.left, child), c, child, h, s)
  {
    var m' := Slot(m, c.n, c.left, child);
    RepFrame(m, m', c.sib, c.n);
    CtxFrame(m, m', c.up, c.n, 1 + Max(h, Height(c.sib)), 1 + s + Size(c.sib));
  }

  /** `*from = child`, where `from` is the slot of the parent on the path. */
  method Attach(parent: Node, child: Node?, left: bool, ghost S: set<Node>, ghost c: Ctx, ghost was: Node?,
                ghost h: nat, ghost s: nat)
    requires c.Step? && parent == c.n && left == c.left && parent in S && CtxDistinct(c)
    requires CtxRep(View(S), c, was, h, s)
    modifies parent`left, parent`right
    ensures CtxRep(View(S), c, child, h, s) && SameOn(old(View(S)), View(S), S - {parent})
  {
    SlotRep(View(S), c, was, child, h, s);
    if left { SetLeft(parent, child, S); } else { SetRight(parent, child, S); }
  }

  /** One turn of the loop of `avl_fix`: rebalance, and store the new top in the parent's slot. */
  method FixStep(node: Node, ghost S: set<Node>, ghost N: set<Node>, ghost w: Walk, ghost order: seq<Node>)
    returns (top: Node, ghost t: Tree)
    requires N <= S && Walking(View(S), node, w, N, order)
    modifies S`left, S`right, S`parent, S`height, S`cnt
    ensures top == Root(t) && Settled(View(S), t, w, N, order)
  {
    var parent := node.parent;
    var fromLeft := parent != null && parent.left == node;
    ghost var m := View(S);
    ghost var c := w.c;
    PlugDistinct(c, Bin(w.l, node, w.r));
    PlugNodes(c, Bin(w.l, node, w.r));
    top, t := FixNode(node, S, w.l, w.r);
    ghost var m1 := View(S);
    CtxFrame(m, m1, c, node, w.h, w.s);
    PlugDistinct(c, t);
    SamePlug(c, Bin(w.l, node, w.r), t);
    if parent != null && top != node {
      assert c.sib.Bin? ==> Root(c.sib) in Nodes(c.sib);
      Attach(parent, top, fromLeft, S, c, node, w.h, w.s);
      RepFrame(m1, View(S), t, Above(c));
    }
  }

  /** `avl_fix`: after a change at one place, the walk to the root leaves an AVL tree of exactly
      the nodes that hang together, in the order they had.  S is the memory that may be written, N the
      nodes of the tree. */
  method Fix(start: Node, ghost S: set<Node>, ghost N: set<Node>, ghost w0: Walk, ghost order: seq<Node>)
    returns (root: Node, ghost t: Tree)
    requires N <= S && Walking(View(S), start, w0, N, order)
    modifies S`left, S`right, S`parent, S`height, S`cnt
    ensures root == Root(t) && IsAvl(View(S), t) && InOrder(t) == order && Nodes(t) == N
  {
    var node: Node := start;
    ghost var w := w0;
    while true
      invariant Walking(View(S), node, w, N, order)
      decreases w.c
    {
      var parent := node.parent;
      root, t := FixStep(node, S, N, w, order);
      if parent == null {
        SettledTop(View(S), t, w, N, order);
        return;
      }
      SettledUp(View(S), t, w, N, order);
      node, w := parent, Up(w, t);
    }
  }

  // ---- deletion ----------------------------------------------------------------

  lemma {:induction false} PathOrder(c: Ctx, x: Node)
    requires x in Before(c) || x in After(c)
    ensures x in CtxNodes(c)
  {
    InOrderNodes(c.sib);
    if x in Before(c.up) || x in After(c.up) { PathOrder(c.up, x); }
  }

  lemma Regroup(a: seq<Node>, b: seq<Node>, n: Node, c: seq<Node>, d: seq<Node>)
    ensures a + (b + [n] + c) + d == (a + b) + [n] + (c + d)
    ensures a + (b + c) + d == (a + b) + (c + d)
  {
  }

  lemma NotBefore(c: Ctx, l: Tree, n: Node, r: Tree)
    requires Distinct(Plug(c, Bin(l, n, r)))
    ensures n !in LeftOf(c, l)
  {
    PlugDistinct(c, Bin(l, n, r));
    InOrderNodes(l);
    if n in Before(c) { PathOrder(c, n); }
  }

  /** Where a node sits in the order of its tree. */
  lemma SplitAt(c: Ctx, l: Tree, n: Node, r: Tree)
    requires Distinct(Plug(c, Bin(l, n, r)))
    ensures InOrder(Plug(c, Bin(l, n, r))) == LeftOf(c, l) + [n] + RightOf(c, r)
    ensures n !in LeftOf(c, l)
  {
    NotBefore(c, l, n, r);
    PlugInOrder(c, Bin(l, n, r));
    Regroup(Before(c), InOrder(l), n, InOrder(r), After(c));
  }

  ghost function Only(l: Tree, r: Tree): Tree {
    if l.Bin? then l else r
  }

  lemma SpliceOrder(c: Ctx, l: Tree, n: Node, r: Tree)
    requires Distinct(Plug(c, Bin(l, n, r))) && (l.Nil? || r.Nil?)
    ensures var t := Plug(c, Only(l, r));
            && Distinct(t) && InOrder(t) == LeftOf(c, l) + RightOf(c, r)
            && Nodes(t) == Nodes(Plug(c, Bin(l, n, r))) - {n}
  {
    var k := Only(l, r);
    PlugDistinct(c, Bin(l, n, r));
    PlugDistinct(c, k);
    PlugNodes(c, Bin(l, n, r));
    PlugNodes(c, k);
    PlugInOrder(c, k);
    assert InOrder(k) == InOrder(l) + InOrder(r);
    Regroup(Before(c), InOrder(l), n, InOrder(r), After(c));
  }

  /** Once a one-child node is spliced out, its child is ready for the walk up. */
  lemma SpliceSettled(m: Mem, m': Mem, c: Ctx, l: Tree, n: Node, r: Tree)
    requires IsAvl(m, Plug(c, Bin(l, n, r))) && (l.Nil? || r.Nil?)
    requires Rep(m', Only(l, r), Above(c))
    requires CtxRep(m', c, Root(Only(l, r)), Height(Bin(l, n, r)), Size(Bin(l, n, r)))
    ensures Settled(m', Only(l, r), Walk(l, r, c, Height(Bin(l, n, r)), Size(Bin(l, n, r))),
                    Nodes(Plug(c, Bin(l, n, r))) - {n}, LeftOf(c, l) + RightOf(c, r))
  {
    PlugBalanced(c, Bin(l, n, r));
    SpliceOrder(c, l, n, r);
  }

  /** The part of `avl_del_easy` before it rebalances. */
  method Splice(node: Node, ghost S: set<Node>, ghost c: Ctx, ghost l: Tree, ghost r: Tree) returns (child: Node?)
    requires Nodes(Plug(c, Bin(l, node, r))) == S && IsAvl(View(S), Plug(c, Bin(l, node, r)))
    requires l.Nil? || r.Nil?
    modifies S`left, S`right, S`parent
    ensures var k, sub := Only(l, r), Bin(l, node, r);
            && child == Root(k)
            && Rep(View(S), k, Above(c)) && CtxRep(View(S), c, Root(k), Height(sub), Size(sub))
  {
    ghost var sub := Bin(l, node, r);
    ghost var k := Only(l, r);
    ghost var m := View(S);
    PlugRep(m, c, sub);
    PlugDistinct(c, sub);
    PlugNodes(c, sub);
    child := if node.left != null then node.left else node.right;
    var parent := node.parent;
    AdoptRep(m, k, node, parent);
    Adopt(child, parent, S);
    ghost var m1 := View(S);
    CtxFrame(m, m1, c, node, Height(sub), Size(sub));
    if parent != null {
      Attach(parent, child, parent.left == node, S, c, node, Height(sub), Size(sub));
      RepFrame(m1, View(S), k, parent);
    }
  }

  /** `avl_del_easy`: unlink a node that misses a child, then rebalance from its parent. */
  method DelEasy(node: Node, ghost S: set<Node>, ghost c: Ctx, ghost l: Tree, ghost r: Tree)
    returns (root: Node?, ghost t: Tree)
    requires Nodes(Plug(c, Bin(l, node, r))) == S && IsAvl(View(S), Plug(c, Bin(l, node, r)))
    requires l.Nil? || r.Nil?
    modifies S`left, S`right, S`parent, S`height, S`cnt
    ensures root == Root(t) && IsAvl(View(S), t) && Nodes(t) == S - {node}
    ensures InOrder(t) == LeftOf(c, l) + RightOf(c, r)
  {
    ghost var k := Only(l, r);
    ghost var w := Walk(l, r, c, Height(Bin(l, node, r)), Size(Bin(l, node, r)));
    ghost var order := LeftOf(c, l) + RightOf(c, r);
    ghost var m := View(S);
    PlugRep(m, c, Bin(l, node, r));
    var parent := node.parent;
    var child := Splice(node, S, c, l, r);
    SpliceSettled(m, View(S), c, l, node, r);
    if parent == null {
      SettledTop(View(S), k, w, S - {node}, order);
      root, t := child, k;
    } else {
      SettledUp(View(S), k, w, S - {node}, order);
      root, t := Fix(parent, S, S - {node}, Up(w, k), order);
    }
  }

  method CopyCell(to: Node, from: Node, ghost S: set<Node>)
    requires to in S && from in S
    modifies to`left, to`right, to`parent, to`height, to`cnt
    ensures View(S) == old(View(S))[to := old(View(S))[from]]
  {
    to.parent, to.left, to.right, to.height, to.cnt := from.parent, from.left, from.right, from.height, from.cnt;
  }

  ghost function MReplace(m: Mem, n: Node, v: Node): Mem {
    var m1 := m[v := At(m, n)];
    MAdopt(MAdopt(m1, At(m1, v).left, v), At(m1, v).right, v)
  }

  lemma {:induction false} ReplaceRep(m: Mem, l: Tree, n: Node, r: Tree, v: Node, p: Node?)
    requires Rep(m, Bin(l, n, r), p) && Distinct(Bin(l, n, r)) && v !in Nodes(Bin(l, n, r)) && v in m
    ensures Ok(m, m[n].left) && Ok(m, m[n].right)
    ensures var m' := MReplace(m, n, v);
            && Rep(m', Bin(l, v, r), p) && Distinct(Bin(l, v, r))
            && m'.Keys == m.Keys && SameOn(m, m', m.Keys - Nodes(l) - Nodes(r) - {v})
  {
    var m1 := m[v := m[n]];
    RepFrame(m, m1, l, n);
    RepFrame(m, m1, r, n);
    AdoptRep(m1, l, n, v);
    var m2 := MAdopt(m1, Root(l), v);
    RepFrame(m1, m2, r, n);
    AdoptRep(m2, r, n, v);
    RepFrame(m2, MAdopt(m2, Root(r), v), l, v);
  }

  lemma {:induction false} PlugRoot(c: Ctx, t: Tree, t': Tree)
    requires t.Bin? && t'.Bin?
    ensures c.Step? ==> Root(Plug(c, t)) == Root(Plug(c, t'))
    decreases c
  {
    if c.Step? { PlugRoot(c.up, Join(t, c.n, c.sib, c.left), Join(t', c.n, c.sib, c.left)); }
  }

  /** The second half of `avl_del`: the detached successor takes over the links of the node. */
  method Replace(node: Node, victim: Node, root0: Node, ghost S: set<Node>, ghost c: Ctx, ghost l: Tree, ghost r: Tree)
    returns (root: Node)
    requires IsAvl(View(S), Plug(c, Bin(l, node, r))) && Nodes(Plug(c, Bin(l, node, r))) <= S
    requires victim in S && victim !in Nodes(Plug(c, Bin(l, node, r))) && root0 == Root(Plug(c, Bin(l, node, r)))
    modifies S`left, S`right, S`parent, S`height, S`cnt
    ensures root == Root(Plug(c, Bin(l, victim, r)))
    ensures IsAvl(View(S), Plug(c, Bin(l, victim, r)))
  {
    ghost var m, sub, sub' := View(S), Bin(l, node, r), Bin(l, victim, r);
    PlugRep(m, c, sub);
    PlugDistinct(c, sub);
    PlugDistinct(c, sub');
    PlugNodes(c, sub);
    PlugBalanced(c, sub);
    PlugBalanced(c, sub');
    PlugRoot(c, sub, sub');
    ReplaceRep(m, l, node, r, victim, Above(c));
    var parent := node.parent;
    CopyCell(victim, node, S);
    Adopt(victim.left, victim, S);
    Adopt(victim.right, victim, S);
    ghost var m1 := View(S);
    CtxFrame(m, m1, c, node, Height(sub), Size(sub));
    if parent != null {
      Attach(parent, victim, parent.left == node, S, c, node, Height(sub), Size(sub));
      RepFrame(m1, View(S), sub', parent);
      root := root0;
    } else {
      root := victim;
    }
    PlugRep(View(S), c, sub');
  }

  lemma SplitUnique(a: seq<Node>, b: seq<Node>, a': seq<Node>, b': seq<Node>, x: Node)
    requires a + [x] + b == a' + [x] + b' && x !in a && x !in a'
    ensures a == a' && b == b'
  {
    var s := a + [x] + b;
    assert s[|a|] == x && s[|a'|] == x;
    assert forall i :: 0 <= i < |a| ==> a[i] == s[i];
    assert forall i :: 0 <= i < |a'| ==> a'[i] == s[i];
    assert |a| == |a'|;
    assert a == s[..|a|] && a' == s[..|a|] && b == s[|a| + 1..] && b' == s[|a| + 1..];
  }

  /** The leftmost node of the right subtree: the successor. */
  method Successor(node: Node, ghost S: set<Node>, ghost c: Ctx, ghost l: Tree, ghost r: Tree)
    returns (victim: Node, ghost cv: Ctx, ghost vr: Tree)
    requires Nodes(Plug(c, Bin(l, node, r))) == S && Rep(View(S), Plug(c, Bin(l, node, r)), null) && r.Bin?
    ensures Plug(cv, Bin(Nil, victim, vr)) == Plug(c, Bin(l, node, r))
    ensures LeftOf(cv, Nil) == LeftOf(c, l) + [node]
  {
    ghost var whole := Plug(c, Bin(l, node, r));
    PlugRep(View(S), c, Bin(l, node, r));
    PlugRep(View(S), Step(c, node, l, false), r);
    victim := node.right;
    ghost var sub := r;
    cv := Step(c, node, l, false);
    while victim.left != null
      invariant sub.Bin? && victim == sub.n && Plug(cv, sub) == whole
      invariant Rep(View(S), sub, Above(cv))
      invariant Before(cv) == LeftOf(c, l) + [node]
      decreases sub
    {
      victim := victim.left;
      cv, sub := Step(cv, sub.n, sub.r, true), sub.l;
    }
    vr := sub.r;
  }

  lemma SwapSeq(a: seq<Node>, q: seq<Node>, b: seq<Node>, a1: seq<Node>, b1: seq<Node>, n: Node, v: Node)
    requires a + [n] + q == a + [n] + ([v] + b) && a + [n] + b == a1 + [n] + b1
    requires n !in a && n !in a1
    ensures a1 + [v] + b1 == a + q
  {
    SplitUnique(a, q, a, [v] + b, n);
    SplitUnique(a, b, a1, b1, n);
  }

  /** Taking the successor out and giving it the place of the node is taking the node out. */
  lemma SwapOrder(c: Ctx, l: Tree, n: Node, r: Tree, cv: Ctx, v: Node, vr: Tree, c1: Ctx, l1: Tree, r1: Tree)
    requires Plug(cv, Bin(Nil, v, vr)) == Plug(c, Bin(l, n, r)) && LeftOf(cv, Nil) == LeftOf(c, l) + [n]
    requires Distinct(Plug(c, Bin(l, n, r))) && Distinct(Plug(c1, Bin(l1, n, r1))) && Distinct(Plug(c1, Bin(l1, v, r1)))
    requires InOrder(Plug(c1, Bin(l1, n, r1))) == LeftOf(cv, Nil) + RightOf(cv, vr)
    ensures InOrder(Plug(c1, Bin(l1, v, r1))) == LeftOf(c, l) + RightOf(c, r)
  {
    SplitAt(c, l, n, r);
    SplitAt(cv, Nil, v, vr);
    SplitAt(c1, l1, n, r1);
    SplitAt(c1, l1, v, r1);
    SwapLists(LeftOf(c, l), RightOf(c, r), LeftOf(cv, Nil), RightOf(cv, vr), LeftOf(c1, l1), RightOf(c1, r1), n, v);
  }

  /** The same on the lists of nodes alone. */
  lemma SwapLists(a: seq<Node>, q: seq<Node>, av: seq<Node>, b: seq<Node>, a1: seq<Node>, b1: seq<Node>, n: Node,
      v: Node)
    requires av + [v] + b == a + [n] + q && av == a + [n] && n !in a
    requires a1 + [n] + b1 == av + b && n !in a1
    ensures a1 + [v] + b1 == a + q
  {
    assert av + [v] + b == a + [n] + ([v] + b);
    SwapSeq(a, q, b, a1, b1, n, v);
  }

  lemma SwapNodes(c: Ctx, l: Tree, n: Node, v: Node, r: Tree, S: set<Node>)
    requires Distinct(Plug(c, Bin(l, n, r))) && Nodes(Plug(c, Bin(l, n, r))) == S - {v} && v in S && n != v
    ensures Nodes(Plug(c, Bin(l, v, r))) == S - {n}
  {
    PlugNodes(c, Bin(l, v, r));
    PlugNodes(c, Bin(l, n, r));
    PlugDistinct(c, Bin(l, n, r));
  }

  /** The successor of a node with two children is taken out first. */
  method DelVictim(node: Node, ghost S: set<Node>, ghost c: Ctx, ghost l: Tree, ghost r: Tree)
    returns (victim: Node, root: Node?, ghost t: Tree, ghost cv: Ctx, ghost vr: Tree)
    requires Nodes(Plug(c, Bin(l, node, r))) == S && IsAvl(View(S), Plug(c, Bin(l, node, r)))
    requires l.Bin? && r.Bin?
    modifies S`left, S`right, S`parent, S`height, S`cnt
    ensures Plug(cv, Bin(Nil, victim, vr)) == Plug(c, Bin(l, node, r)) && LeftOf(cv, Nil) == LeftOf(c, l) + [node]
    ensures node != victim && victim in S && node in S
    ensures root == Root(t) && IsAvl(View(S), t) && Nodes(t) == S - {victim}
    ensures InOrder(t) == LeftOf(cv, Nil) + RightOf(cv, vr)
  {
    PlugNodes(c, Bin(l, node, r));
    victim, cv, vr := Successor(node, S, c, l, r);
    assert node in LeftOf(cv, Nil) && victim !in LeftOf(cv, Nil) by {
      PlugDistinct(cv, Bin(Nil, victim, vr));
      SplitAt(cv, Nil, victim, vr);
    }
    PlugNodes(cv, Bin(Nil, victim, vr));
    root, t := DelEasy(victim, S, cv, Nil, vr);
  }

  /** `avl_del` of a node with two children. */
  method DelInner(node: Node, ghost S: set<Node>, ghost c: Ctx, ghost l: Tree, ghost r: Tree)
    returns (root: Node, ghost t: Tree)
    requires Nodes(Plug(c, Bin(l, node, r))) == S && IsAvl(View(S), Plug(c, Bin(l, node, r)))
    requires l.Bin? && r.Bin?
    modifies S`left, S`right, S`parent, S`height, S`cnt
    ensures root == Root(t) && IsAvl(View(S), t) && Nodes(t) == S - {node}
    ensures InOrder(t) == LeftOf(c, l) + RightOf(c, r)
  {
    PlugDistinct(c, Bin(l, node, r));
    var victim, root1; ghost var t1, cv, vr;
    victim, root1, t1, cv, vr := DelVictim(node, S, c, l, r);
    ghost var at := PathTo(t1, node, Top);
    ghost var c1, l1, r1 := at.0, at.1.l, at.1.r;
    root := Replace(node, victim, root1, S, c1, l1, r1);
    t := Plug(c1, Bin(l1, victim, r1));
    SwapOrder(c, l, node, r, cv, victim, vr, c1, l1, r1);
    SwapNodes(c1, l1, node, victim, r1, S);
  }

  /** `avl_del`: exactly the node is gone, every other node keeps its identity and its place. */
  method Del(node: Node, ghost S: set<Node>, ghost c: Ctx, ghost l: Tree, ghost r: Tree)
    returns (root: Node?, ghost t: Tree)
    requires Nodes(Plug(c, Bin(l, node, r))) == S && IsAvl(View(S), Plug(c, Bin(l, node, r)))
    modifies S`left, S`right, S`parent, S`height, S`cnt
    ensures root == Root(t) && IsAvl(View(S), t) && Nodes(t) == S - {node}
    ensures InOrder(t) == LeftOf(c, l) + RightOf(c, r)
  {
    PlugRep(View(S), c, Bin(l, node, r));
    PlugNodes(c, Bin(l, node, r));
    if node.left == null || node.right == null {
      root, t := DelEasy(node, S, c, l, r);
    } else {
      root, t := DelInner(node, S, c, l, r);
    }
  }

  // ---- ranks -------------------------------------------------------------------

  /** The number of nodes before x. */
  ghost function Place(t: Tree, x: Node): (k: nat)
    requires x in Nodes(t)
    ensures k < Size(t)
  {
    if x == t.n then Size(t.l)
    else if x in Nodes(t.l) then Place(t.l, x)
    else Size(t.l) + 1 + Place(t.r, x)
  }

  lemma {:induction false} PlaceInOrder(t: Tree, x: Node)
    requires x in Nodes(t)
    ensures |InOrder(t)| == Size(t) && InOrder(t)[Place(t, x)] == x
  {
    InOrderNodes(t);
    InOrderNodes(t.l);
    InOrderNodes(t.r);
    if x == t.n {
    } else if x in Nodes(t.l) {
      PlaceInOrder(t.l, x);
    } else {
      PlaceInOrder(t.r, x);
    }
  }

  lemma {:induction false} PlacePlug(c: Ctx, t: Tree, x: Node)
    requires x in Nodes(t) && Distinct(Plug(c, t))
    ensures x in Nodes(Plug(c, t)) && Place(Plug(c, t), x) == |Before(c)| + Place(t, x)
    decreases c
  {
    PlugNodes(c, t);
    if c.Step? {
      var t' := Join(t, c.n, c.sib, c.left);
      PlugDistinct(c.up, t');
      PlacePlug(c.up, t', x);
      InOrderNodes(c.sib);
    }
  }

  lemma {:induction false} PlugSize(c: Ctx, t: Tree)
    ensures Size(Plug(c, t)) == |Before(c)| + Size(t) + |After(c)|
    decreases c
  {
    if c.Step? {
      PlugSize(c.up, Join(t, c.n, c.sib, c.left));
      InOrderNodes(c.sib);
    }
  }

  /** Nodes are told apart by their rank. */
  lemma PlaceInjective(t: Tree, k: nat, x: Node)
    requires Distinct(t) && k < Size(t) && |InOrder(t)| == Size(t) && x == InOrder(t)[k]
    ensures x in Nodes(t) && Place(t, x) == k
    decreases t
  {
    InOrderNodes(t);
    InOrderNodes(t.l);
    InOrderNodes(t.r);
    if k < Size(t.l) {
      PlaceInjective(t.l, k, x);
    } else if k > Size(t.l) {
      PlaceInjective(t.r, k - Size(t.l) - 1, x);
    }
  }

  ghost function Depth(c: Ctx): nat {
    if c.Top? then 0 else 1 + Depth(c.up)
  }

  /** What the loops that walk the tree know: the node at the end of the path and its rank. */
  ghost predicate Cursor(m: Mem, t: Tree, c: Ctx, sub: Tree, node: Node, rank: int) {
    && Plug(c, sub) == t && sub.Bin? && sub.n == node && rank == |Before(c)| + Size(sub.l)
    && Rep(m, sub, Above(c)) && CtxRep(m, c, node, Height(sub), Size(sub))
  }

  lemma CursorDown(m: Mem, t: Tree, c: Ctx, sub: Tree, node: Node, rank: int)
    requires Cursor(m, t, c, sub, node, rank)
    ensures var l, r := sub.l, sub.r;
            && (l.Bin? ==> Cursor(m, t, Step(c, node, r, true), l, l.n, rank - Size(l.r) - 1))
            && (r.Bin? ==> Cursor(m, t, Step(c, node, l, false), r, r.n, rank + Size(r.l) + 1))
  {
    InOrderNodes(sub.l);
  }

  lemma CursorUp(m: Mem, t: Tree, c: Ctx, sub: Tree, node: Node, rank: int)
    requires Cursor(m, t, c, sub, node, rank) && c.Step? && Distinct(t)
    ensures c.n in m && (m[c.n].right == node <==> !c.left)
    ensures Cursor(m, t, c.up, Join(sub, c.n, c.sib, c.left), c.n,
                   if c.left then rank + Size(sub.r) + 1 else rank - Size(sub.l) - 1)
  {
    PlugDistinct(c, sub);
    InOrderNodes(c.sib);
  }

  lemma CursorStart(m: Mem, t: Tree, node: Node) returns (c: Ctx, sub: Tree)
    requires Rep(m, t, null) && Distinct(t) && node in Nodes(t)
    ensures Cursor(m, t, c, sub, node, Place(t, node))
  {
    var at := PathTo(t, node, Top);
    c, sub := at.0, at.1;
    PlugRep(m, c, sub);
    PlacePlug(c, sub, node);
  }

  lemma CursorPlace(m: Mem, t: Tree, c: Ctx, sub: Tree, node: Node, rank: int)
    requires Cursor(m, t, c, sub, node, rank) && Distinct(t)
    ensures node in Nodes(t) && Place(t, node) == rank && Size(t) == |Before(c)| + Size(sub) + |After(c)|
  {
    PlacePlug(c, sub, node);
    PlugSize(c, sub);
  }

  /** The rank k is that of a node at or below the cursor. */
  ghost predicate Inside(c: Ctx, sub: Tree, k: int) {
    |Before(c)| <= k < |Before(c)| + Size(sub)
  }

  /** `avl_offset`: climb until the target is below, then descend to it. */
  method Offset(start: Node, offset: int, ghost S: set<Node>, ghost t: Tree) returns (r: Node?)
    requires Nodes(t) == S && IsAvl(View(S), t) && start in S
    ensures r == null <==> !(0 <= Place(t, start) + offset < Size(t))
    ensures r != null ==> r in S && Place(t, r) == Place(t, start) + offset
  {
    ghost var m := View(S);
    ghost var goal := Place(t, start) + offset;
    ghost var c, sub := CursorStart(m, t, start);
    CursorPlace(m, t, c, sub, start, goal - offset);
    var node: Node := start;
    var pos := 0;
    while offset != pos
      invariant Cursor(m, t, c, sub, node, goal - offset + pos) && node in S
      invariant Size(t) == |Before(c)| + Size(sub) + |After(c)|
      decreases if Inside(c, sub, goal) then Size(sub) else Size(t) + 1 + Depth(c)
    {
      ghost var rank := goal - offset + pos;
      Stored(S, sub.l, node);
      Stored(S, sub.r, node);
      CursorDown(m, t, c, sub, node, rank);
      if pos < offset && pos + CntOf(node.right) >= offset {
        node := node.right;
        c, sub := Step(c, sub.n, sub.l, false), sub.r;
        Stored(S, sub.l, node);
        pos := pos + CntOf(node.left) + 1;
      } else if pos > offset && pos - CntOf(node.left) <= offset {
        node := node.left;
        c, sub := Step(c, sub.n, sub.r, true), sub.l;
        Stored(S, sub.r, node);
        pos := pos - (CntOf(node.right) + 1);
      } else {
        var parent := node.parent;
        if parent == null {
          return null;
        }
        CursorUp(m, t, c, sub, node, rank);
        if parent.right == node {
          pos := pos - (CntOf(node.left) + 1);
        } else {
          pos := pos + (CntOf(node.right) + 1);
        }
        node := parent;
        c, sub := c.up, Join(sub, c.n, c.sib, c.left);
      }
      CursorPlace(m, t, c, sub, node, goal - offset + pos);
    }
    CursorPlace(m, t, c, sub, node, goal);
    r := node;
  }

  /** `avl_rank`: the left sizes added up on the way to the root. */
  method RankOf(start: Node, ghost S: set<Node>, ghost t: Tree) returns (rank: int)
    requires Nodes(t) == S && IsAvl(View(S), t) && start in S
    ensures rank == Place(t, start)
  {
    ghost var m := View(S);
    ghost var c, sub := CursorStart(m, t, start);
    ghost var at := Place(t, start);
    var node: Node := start;
    Stored(S, sub.l, node);
    rank := CntOf(node.left);
    while node.parent != null
      invariant node in S && Cursor(m, t, c, sub, node, at) && rank + |Before(c)| == Place(t, start)
      decreases c
    {
      CursorUp(m, t, c, sub, node, at);
      Stored(S, c.sib, c.n);
      InOrderNodes(c.sib);
      if node.parent.right == node {
        rank := rank + CntOf(node.parent.left) + 1;
      }
      node := node.parent;
      at := if c.left then at + Size(sub.r) + 1 else at - Size(sub.l) - 1;
      c, sub := c.up, Join(sub, c.n, c.sib, c.left);
    }
  }

  /** `zset_at_rank`: the descent that undoes `avl_rank`. */
  method AtRank(root: Node?, rank: int, ghost S: set<Node>, ghost t: Tree) returns (r: Node?)
    requires Nodes(t) == S && IsAvl(View(S), t) && root == Root(t)
    ensures r == null <==> !(0 <= rank < Size(t))
    ensures r != null ==> r in S && Place(t, r) == rank
  {
    ghost var m := View(S);
    ghost var c, sub := Top, t;
    PlugRep(m, c, sub);
    var node, k := root, rank;
    while node != null
      invariant node == Root(sub) && Plug(c, sub) == t && Rep(m, sub, Above(c))
      invariant rank == |Before(c)| + k
      invariant 0 <= rank < Size(t) <==> 0 <= k < Size(sub)
      decreases sub
    {
      PlugSize(c, sub);
      PlugNodes(c, sub);
      Stored(S, sub.l, node);
      InOrderNodes(sub.l);
      var left := CntOf(node.left);
      if k < left {
        node := node.left;
        c, sub := Step(c, sub.n, sub.r, true), sub.l;
      } else if k == left {
        PlacePlug(c, sub, node);
        return node;
      } else {
        k := k - (left + 1);
        node := node.right;
        c, sub := Step(c, sub.n, sub.l, false), sub.r;
      }
    }
    r := null;
  }

  lemma Located(t: Tree, x: Node) returns (c: Ctx, l: Tree, r: Tree)
    requires Distinct(t) && x in Nodes(t)
    ensures Plug(c, Bin(l, x, r)) == t && |InOrder(t)| == Size(t)
    ensures LeftOf(c, l) + RightOf(c, r) == InOrder(t)[..Place(t, x)] + InOrder(t)[Place(t, x) + 1..]
  {
    InOrderNodes(t);
    var at := PathTo(t, x, Top);
    c, l, r := at.0, at.1.l, at.1.r;
    PlacePlug(c, Bin(l, x, r), x);
    InOrderNodes(l);
    SplitAt(c, l, x, r);
    var k := Place(t, x);
    assert |LeftOf(c, l)| == k;
    assert InOrder(t)[..k] == LeftOf(c, l) && InOrder(t)[k + 1..] == RightOf(c, r);
  }

  /** `avl_del` seen from the order: exactly the node at that rank is gone. */
  method Delete(node: Node, ghost S: set<Node>, ghost t: Tree) returns (root: Node?, ghost t': Tree)
    requires Nodes(t) == S && IsAvl(View(S), t) && node in S
    modifies S`left, S`right, S`parent, S`height, S`cnt
    ensures root == Root(t') && IsAvl(View(S - {node}), t') && Nodes(t') == S - {node}
    ensures |InOrder(t)| == Size(t)
    ensures InOrder(t') == InOrder(t)[..Place(t, node)] + InOrder(t)[Place(t, node) + 1..]
  {
    ghost var c, l, r := Located(t, node);
    root, t' := Del(node, S, c, l, r);
    RepFrame(View(S), View(S - {node}), t', null);
  }

  /** A fresh leaf in an empty slot is a walk that starts. */
  lemma LeafWalking(m: Mem, m': Mem, c: Ctx, n: Node)
    requires IsAvl(m, Plug(c, Nil)) && n !in Nodes(Plug(c, Nil))
    requires n in m' && m'[n].parent == Above(c) && m'[n].left == null && m'[n].right == null
    requires CtxRep(m', c, n, 0, 0)
    ensures Walking(m', n, Walk(Nil, Nil, c, 0, 0), Nodes(Plug(c, Nil)) + {n}, Before(c) + [n] + After(c))
  {
    PlugNodes(c, Nil);
    PlugNodes(c, Bin(Nil, n, Nil));
    PlugDistinct(c, Nil);
    PlugDistinct(c, Bin(Nil, n, Nil));
    PlugBalanced(c, Nil);
    PlugInOrder(c, Bin(Nil, n, Nil));
    assert InOrder(Bin(Nil, n, Nil)) == [n];
  }

  /** `*from = node; node->parent = parent;` */
  method Hang(node: Node, parent: Node?, left: bool, ghost S: set<Node>, ghost c: Ctx)
    requires CtxNodes(c) <= S && CtxRep(View(S), c, null, 0, 0) && CtxDistinct(c)
    requires node in S && node !in CtxNodes(c)
    requires parent == Above(c) && (c.Step? ==> left == c.left)
    modifies S`left, S`right, S`parent
    ensures CtxRep(View(S), c, node, 0, 0)
    ensures node.parent == Above(c) && node.left == old(node.left) && node.right == old(node.right)
  {
    if parent != null {
      Attach(parent, node, left, S, c, null, 0, 0);
    }
    ghost var m := View(S);
    Adopt(node, parent, S);
    CtxFrame(m, View(S), c, node, 0, 0);
  }

  /** The end of `tree_insert`: hang the node into the empty slot and rebalance. */
  method InsertAt(node: Node, parent: Node?, left: bool, ghost S: set<Node>, ghost c: Ctx)
    returns (root: Node, ghost t: Tree)
    requires Nodes(Plug(c, Nil)) == S && IsAvl(View(S), Plug(c, Nil)) && node !in S
    requires parent == Above(c) && (c.Step? ==> left == c.left)
    requires node.left == null && node.right == null
    modifies (S + {node})`left, (S + {node})`right, (S + {node})`parent, (S + {node})`height, (S + {node})`cnt
    ensures root == Root(t) && IsAvl(View(S + {node}), t) && Nodes(t) == S + {node}
    ensures InOrder(t) == Before(c) + [node] + After(c)
  {
    ghost var S' := S + {node};
    ghost var m := View(S);
    PlugNodes(c, Nil);
    PlugRep(m, c, Nil);
    PlugDistinct(c, Nil);
    CtxFrame(m, View(S'), c, null, 0, 0);
    Hang(node, parent, left, S', c);
    LeafWalking(m, View(S'), c, node);
    root, t := Fix(node, S', S', Walk(Nil, Nil, c, 0, 0), Before(c) + [node] + After(c));
  }
}
