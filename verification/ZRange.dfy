/** The range commands of src/commands/commands.cpp: every spelling of a range is one interval of
    ascending ranks.  The reference meaning is a filter, a reversal and a cut of the member list. */
module ZRange {
  import opened ZOrder
  import opened Avl
  import opened ZSets

  datatype Spec = Spec(byScore: bool, rev: bool, hasLimit: bool, offset: int, count: int,
                       start: int, stop: int, lo: Score, hi: Score, loExcl: bool, hiExcl: bool)

  // ---- reference meaning -------------------------------------------------------

  predicate InBounds(sp: Spec, x: Score) {
    && (if sp.loExcl then ScoreLess(sp.lo, x) else !ScoreLess(x, sp.lo))
    && (if sp.hiExcl then ScoreLess(x, sp.hi) else !ScoreLess(sp.hi, x))
  }

  ghost function Filter(sp: Spec, k: Keys, s: seq<Node>): seq<Node> {
    if s == [] then []
    else if s[0] in k && InBounds(sp, k[s[0]].score) then [s[0]] + Filter(sp, k, s[1..])
    else Filter(sp, k, s[1..])
  }

  ghost function Reverse(s: seq<Node>): (r: seq<Node>) {
    seq(|s|, i requires 0 <= i < |s| => s[|s| - 1 - i])
  }

  /** The first and last index of `[start, stop]` in n items, negative ones counted from the end. */
  function Ends(n: nat, start: int, stop: int): (int, int) {
    var a := if start < 0 then start + n else start;
    var b := if stop < 0 then stop + n else stop;
    (if a < 0 then 0 else a, if b >= n then n - 1 else b)
  }

  ghost function RankSlice(s: seq<Node>, start: int, stop: int): seq<Node> {
    var (first, last) := Ends(|s|, start, stop);
    if first > last then [] else s[first..last + 1]
  }

  ghost function Limit(sp: Spec, s: seq<Node>): seq<Node> {
    if !sp.hasLimit then s
    else if sp.offset < 0 || sp.offset >= |s| then []
    else if 0 <= sp.count < |s| - sp.offset then s[sp.offset..sp.offset + sp.count]
    else s[sp.offset..]
  }

  /** What the request selects, in the order it is answered, before LIMIT. */
  ghost function Selected(sp: Spec, k: Keys, s: seq<Node>): seq<Node> {
    if sp.byScore then
      var f := Filter(sp, k, s);
      if sp.rev then Reverse(f) else f
    else RankSlice(if sp.rev then Reverse(s) else s, sp.start, sp.stop)
  }

  ghost function Answer(sp: Spec, k: Keys, s: seq<Node>): seq<Node> {
    Limit(sp, Selected(sp, k, s))
  }

  /** The position is in a range of ranks; a negative end is a distance from the end, where the last is -1. */
  predicate InRanks(n: nat, start: int, stop: int, i: int) {
    (if start < 0 then start <= i - n else start <= i) && (if stop < 0 then i - n <= stop else i <= stop)
  }

  /** The position is past `offset` and, unless `count` is negative, among the next `count`. */
  predicate InLimit(sp: Spec, i: int) {
    0 <= sp.offset <= i && (sp.count >= 0 ==> i < sp.offset + sp.count)
  }

  /** A range of ranks, position by position. */
  lemma RankMeans(s: seq<Node>, start: int, stop: int) returns (a: nat, b: nat)
    ensures a <= b <= |s| && RankSlice(s, start, stop) == s[a..b]
    ensures forall i :: 0 <= i < |s| ==> (a <= i < b <==> InRanks(|s|, start, stop, i))
  {
    var (first, last) := Ends(|s|, start, stop);
    a, b := if first > last then 0 else first, if first > last then 0 else last + 1;
  }

  /** LIMIT, position by position. */
  lemma LimitMeans(sp: Spec, s: seq<Node>) returns (a: nat, b: nat)
    ensures a <= b <= |s| && Limit(sp, s) == s[a..b]
    ensures forall i :: 0 <= i < |s| ==> (a <= i < b <==> !sp.hasLimit || InLimit(sp, i))
  {
    a, b := 0, |s|;
    if sp.hasLimit {
      if sp.offset < 0 || sp.offset >= |s| { b := 0; }
      else {
        a := sp.offset;
        if 0 <= sp.count < |s| - sp.offset { b := a + sp.count; }
      }
    }
    assert s[0..|s|] == s;
  }

  // ---- the interval ------------------------------------------------------------

  ghost function Slice(s: seq<Node>, lo: int, hi: int): seq<Node> {
    if 0 <= lo < hi <= |s| then s[lo..hi] else []
  }

  /** The bounds are those of an interval, each taken in unless it is said to be exclusive. */
  lemma BoundsMean(sp: Spec, x: Score)
    ensures InBounds(sp, x) <==>
              && (ScoreLess(sp.lo, x) || (x == sp.lo && !sp.loExcl))
              && (ScoreLess(x, sp.hi) || (x == sp.hi && !sp.hiExcl))
  {
  }

  lemma BoundsAreCuts(sp: Spec, x: Score)
    ensures InBounds(sp, x) <==> !BelowBound(x, sp.lo, sp.loExcl) && BelowBound(x, sp.hi, !sp.hiExcl)
  {
  }

  lemma {:induction false} FilterSlice(sp: Spec, k: Keys, s: seq<Node>, lo: int, hi: int)
    requires 0 <= lo <= |s| && 0 <= hi <= |s|
    requires forall i :: 0 <= i < |s| ==> s[i] in k && (InBounds(sp, k[s[i]].score) <==> lo <= i < hi)
    ensures Filter(sp, k, s) == Slice(s, lo, hi)
  {
    if s != [] {
      var lo', hi' := if lo == 0 then 0 else lo - 1, if hi == 0 then 0 else hi - 1;
      forall i | 0 <= i < |s[1..]|
        ensures s[1..][i] in k && (InBounds(sp, k[s[1..][i]].score) <==> lo' <= i < hi')
      {
        assert s[1..][i] == s[i + 1];
      }
      FilterSlice(sp, k, s[1..], lo', hi');
      var rest := Slice(s[1..], lo', hi');
      if lo == 0 < hi {
        assert Slice(s, lo, hi) == [s[0]] + rest;
      } else {
        assert Slice(s, lo, hi) == rest;
      }
    }
  }

  lemma ReverseSlice(s: seq<Node>, a: nat, b: nat)
    requires a <= b <= |s|
    ensures Reverse(s)[a..b] == Reverse(s[|s| - b..|s| - a])
  {
    forall i | 0 <= i < b - a ensures Reverse(s)[a..b][i] == Reverse(s[|s| - b..|s| - a])[i] {}
  }

  /** The ranks [lo, hi), from the bottom or from the top. */
  ghost function Read(s: seq<Node>, lo: int, hi: int, rev: bool): seq<Node> {
    if rev then Reverse(Slice(s, lo, hi)) else Slice(s, lo, hi)
  }

  /** The selection is the slice of the ranks [lo, hi), read from the right end. */
  ghost predicate Covers(sp: Spec, k: Keys, s: seq<Node>, lo: int, hi: int) {
    && (lo < hi ==> 0 <= lo && hi <= |s|)
    && Selected(sp, k, s) == Read(s, lo, hi, sp.rev)
  }

  /** The by-rank half of `zrange_interval`. */
  function RankInterval(sp: Spec, card: int): (int, int) {
    var s0, e0 := if sp.start < 0 then sp.start + card else sp.start, if sp.stop < 0 then sp.stop + card else sp.stop;
    var s := if s0 < 0 then 0 else s0;
    if s > e0 || s >= card then (0, 0)
    else
      var e := if e0 >= card then card - 1 else e0;
      if sp.rev then (card - 1 - e, card - s) else (s, e + 1)
  }

  lemma RankArithmetic(sp: Spec, n: nat)
    ensures var (lo, hi) := RankInterval(sp, n);
            var (first, last) := Ends(n, sp.start, sp.stop);
            if lo < hi then
              && 0 <= first <= last < n
              && lo == (if sp.rev then n - 1 - last else first) && hi == (if sp.rev then n - first else last + 1)
            else first > last
  {
  }

  lemma RankIntervalCovers(sp: Spec, k: Keys, s: seq<Node>)
    requires !sp.byScore
    ensures Covers(sp, k, s, RankInterval(sp, |s|).0, RankInterval(sp, |s|).1)
  {
    RankArithmetic(sp, |s|);
    var (lo, hi) := RankInterval(sp, |s|);
    var (first, last) := Ends(|s|, sp.start, sp.stop);
    if lo >= hi {
      assert Slice(s, lo, hi) == [] && |Reverse([])| == 0;
    } else if sp.rev {
      ReverseSlice(s, first, last + 1);
      assert Slice(s, lo, hi) == s[|s| - (last + 1)..|s| - first];
    }
  }

  lemma ScoreIntervalCovers(sp: Spec, k: Keys, s: seq<Node>, lo: int, hi: int)
    requires sp.byScore && CutsAt(k, s, sp.lo, sp.loExcl, lo) && CutsAt(k, s, sp.hi, !sp.hiExcl, hi)
    ensures Covers(sp, k, s, lo, hi)
  {
    forall i | 0 <= i < |s| ensures s[i] in k && (InBounds(sp, k[s[i]].score) <==> lo <= i < hi) {
      BoundsAreCuts(sp, k[s[i]].score);
    }
    FilterSlice(sp, k, s, lo, hi);
  }

  /** `zrange_interval`: the ascending ranks [lo, hi) that the request covers. */
  method Interval(root: Node?, sp: Spec, ghost S: set<Node>, ghost t: Tree) returns (lo: int, hi: int)
    requires TreeOk(root, S, t)
    ensures Covers(sp, KeyView(S), InOrder(t), lo, hi)
  {
    if sp.byScore {
      lo := CountBelow(root, sp.lo, sp.loExcl, S, t);
      hi := CountBelow(root, sp.hi, !sp.hiExcl, S, t);
      ScoreIntervalCovers(sp, KeyView(S), InOrder(t), lo, hi);
    } else {
      InOrderNodes(t);
      Stored(S, t, null);
      RankIntervalCovers(sp, KeyView(S), InOrder(t));
      var r := RankInterval(sp, CntOf(root));
      lo, hi := r.0, r.1;
    }
  }

  /** ZCOUNT: two descents give the number of members in bounds. */
  method Count(root: Node?, sp: Spec, ghost S: set<Node>, ghost t: Tree) returns (n: int)
    requires TreeOk(root, S, t) && sp.byScore
    ensures n == |Filter(sp, KeyView(S), InOrder(t))|
  {
    var lo, hi := Interval(root, sp, S, t);
    n := if hi > lo then hi - lo else 0;
  }

  /** How LIMIT turns n selected members into a number to skip and a number to send. */
  function SkipTake(sp: Spec, n: nat): (r: (nat, nat))
    ensures r.0 + r.1 <= n
  {
    if !sp.hasLimit then (0, n)
    else if sp.offset < 0 || sp.offset >= n then (0, 0)
    else
      var rest := n - sp.offset;
      (sp.offset, if 0 <= sp.count < rest then sp.count else rest)
  }

  lemma SkipTakeIsLimit(sp: Spec, s: seq<Node>)
    ensures var (skip, take) := SkipTake(sp, |s|); Limit(sp, s) == s[skip..skip + take]
  {
  }

  lemma ReadAt(s: seq<Node>, lo: int, hi: int, rev: bool, out: seq<Node>, skip: nat, n: nat)
    requires lo < hi ==> 0 <= lo && hi <= |s|
    requires skip + n <= if lo < hi then hi - lo else 0
    requires |out| == n && forall i :: 0 <= i < n ==> out[i] == s[if rev then hi - 1 - skip - i else lo + skip + i]
    ensures |Read(s, lo, hi, rev)| == if lo < hi then hi - lo else 0
    ensures out == Read(s, lo, hi, rev)[skip..skip + n]
  {
    var r := Read(s, lo, hi, rev);
    if lo < hi {
      var sl := s[lo..hi];
      assert Slice(s, lo, hi) == sl;
      forall i | 0 <= i < n ensures out[i] == r[skip + i] {
        if rev { assert r[skip + i] == sl[hi - lo - 1 - skip - i]; }
      }
    }
  }

  /** The n nodes from rank `first`, upwards or downwards. */
  ghost predicate WalkedFrom(out: seq<Node>, s: seq<Node>, first: int, n: nat, back: bool) {
    && |out| == n && (n > 0 ==> 0 <= first < |s| && (if back then n <= first + 1 else first + n <= |s|))
    && forall i :: 0 <= i < n ==> out[i] == s[if back then first - i else first + i]
  }

  lemma EmitDone(sp: Spec, k: Keys, s: seq<Node>, lo: int, hi: int, first: int, out: seq<Node>)
    requires Covers(sp, k, s, lo, hi)
    requires var (skip, n) := SkipTake(sp, if hi > lo then hi - lo else 0);
             first == (if sp.rev then hi - 1 - skip else lo + skip) && WalkedFrom(out, s, first, n, sp.rev)
    ensures out == Answer(sp, k, s)
  {
    hide Selected, Limit, Slice, Reverse;
    var (skip, n) := SkipTake(sp, if hi > lo then hi - lo else 0);
    ReadAt(s, lo, hi, sp.rev, out, skip, n);
    SkipTakeIsLimit(sp, Read(s, lo, hi, sp.rev));
  }

  /** Walk n nodes up or down from the node of rank `first`. */
  method WalkFrom(root: Node?, first: int, n: nat, back: bool, ghost S: set<Node>, ghost t: Tree)
    returns (out: seq<Node>)
    requires TreeOk(root, S, t) && |InOrder(t)| == Size(t)
    requires n > 0 ==> 0 <= first < Size(t) && (if back then n <= first + 1 else first + n <= Size(t))
    ensures WalkedFrom(out, InOrder(t), first, n, back)
  {
    var zn: Node? := null;
    if n > 0 { zn := AtRank(root, first, S, t); }
    out := [];
    var i := 0;
    while i < n && zn != null
      invariant 0 <= i <= n && |out| == i
      invariant forall j :: 0 <= j < i ==> out[j] == InOrder(t)[if back then first - j else first + j]
      invariant i < n ==> zn != null && zn in S && Place(t, zn) == if back then first - i else first + i
    {
      PlaceInOrder(t, zn);
      out := out + [zn];
      zn := Offset(zn, if back then -1 else 1, S, t);
      i := i + 1;
    }
  }

  lemma EmitStart(sp: Spec, lo: int, hi: int, len: nat)
    requires lo < hi ==> 0 <= lo && hi <= len
    ensures var (skip, n) := SkipTake(sp, if hi > lo then hi - lo else 0);
            var first := if sp.rev then hi - 1 - skip else lo + skip;
            n > 0 ==> 0 <= first < len && (if sp.rev then n <= first + 1 else first + n <= len)
  {
  }

  /** `zrange_emit`: apply LIMIT, then walk from the right end of the interval. */
  method Emit(root: Node?, sp: Spec, ghost S: set<Node>, ghost t: Tree) returns (out: seq<Node>)
    requires TreeOk(root, S, t)
    ensures out == Answer(sp, KeyView(S), InOrder(t))
  {
    InOrderNodes(t);
    var lo, hi := Interval(root, sp, S, t);
    EmitStart(sp, lo, hi, |InOrder(t)|);
    var r := SkipTake(sp, if hi > lo then hi - lo else 0);
    var first := if sp.rev then hi - 1 - r.0 else lo + r.0;
    out := WalkFrom(root, first, r.1, sp.rev, S, t);
    EmitDone(sp, KeyView(S), InOrder(t), lo, hi, first, out);
  }

  // ---- removal -----------------------------------------------------------------

  ghost function Names(s: seq<Node>): set<Name> {
    set x | x in s :: x.name
  }

  /** What the removal started from: the order, the index, the contents and the first rank to go. */
  datatype Start = Start(all: seq<Node>, lo: nat, index: Index, contents: map<Name, Score>)

  /** What is left after the first i of the doomed nodes have been deleted. */
  ghost predicate Left(from: Start, doomed: seq<Node>, i: int, order: seq<Node>, index: Index,
      contents: map<Name, Score>)
  {
    && 0 <= i <= |doomed| && from.lo + |doomed| <= |from.all|
    && doomed == from.all[from.lo..from.lo + |doomed|]
    && order == from.all[..from.lo] + from.all[from.lo + i..]
    && index == from.index - Names(doomed[..i]) && contents == from.contents - Names(doomed[..i])
  }

  lemma LeftNext(from: Start, doomed: seq<Node>, i: nat, order: seq<Node>, index: Index, contents: map<Name, Score>)
    requires i < |doomed| && Left(from, doomed, i, order, index, contents)
    ensures from.lo < |order| && order[from.lo] == doomed[i]
    ensures var n := doomed[i].name;
            Left(from, doomed, i + 1, order[..from.lo] + order[from.lo + 1..], index - {n}, contents - {n})
  {
    assert doomed[..i + 1] == doomed[..i] + [doomed[i]];
    assert Names(doomed[..i + 1]) == Names(doomed[..i]) + {doomed[i].name};
  }

  ghost predicate Removing(from: Start, doomed: seq<Node>, i: int, root: Node?, index: Index, S: set<Node>, t: Tree)
    reads S
  {
    ZOk(root, index, S, t) && Left(from, doomed, i, InOrder(t), index, ContentsOf(index, KeyView(S)))
  }

  method RemoveOne(ghost from: Start, doomed: seq<Node>, i: nat, root0: Node?, index0: Index, ghost S: set<Node>,
      ghost t0: Tree)
    returns (root: Node?, index: Index, ghost t: Tree)
    requires i < |doomed| && Removing(from, doomed, i, root0, index0, S, t0)
    modifies S`left, S`right, S`parent, S`height, S`cnt
    ensures Removing(from, doomed, i + 1, root, index, S - {doomed[i]}, t)
  {
    LeftNext(from, doomed, i, InOrder(t0), index0, ContentsOf(index0, KeyView(S)));
    InOrderNodes(t0);
    PlaceInjective(t0, from.lo, doomed[i]);
    root, index, t := DropNode(index0, doomed[i], S, t0);
  }

  /** The second loop of `zremrange_generic`: delete every collected node.  Each delete rebalances
      the tree, yet the nodes still to go keep their identity and move down one rank. */
  method RemoveAll(ghost from: Start, doomed: seq<Node>, root0: Node?, index0: Index, ghost S0: set<Node>,
      ghost t0: Tree)
    returns (root: Node?, index: Index, ghost S: set<Node>, ghost t: Tree)
    requires Removing(from, doomed, 0, root0, index0, S0, t0)
    modifies S0`left, S0`right, S0`parent, S0`height, S0`cnt
    ensures S <= S0 && Removing(from, doomed, |doomed|, root, index, S, t)
  {
    root, index, S, t := root0, index0, S0, t0;
    for i := 0 to |doomed|
      invariant S <= S0 && Removing(from, doomed, i, root, index, S, t)
    {
      root, index, t := RemoveOne(from, doomed, i, root, index, S, t);
      S := S - {doomed[i]};
    }
  }

  /** Exactly the selected members are gone: a stretch of the order, from the tree, the index and
      the contents. */
  ghost predicate Gone(sp: Spec, k: Keys, s: seq<Node>, index0: Index, contents0: map<Name, Score>,
                       s': seq<Node>, index: Index, contents: map<Name, Score>) {
    var gone := Selected(sp, k, s);
    && index == index0 - Names(gone) && contents == contents0 - Names(gone)
    && exists lo :: 0 <= lo <= lo + |gone| <= |s| && gone == s[lo..lo + |gone|] && s' == s[..lo] + s[lo + |gone|..]
  }

  lemma GoneNone(sp: Spec, k: Keys, s: seq<Node>, index: Index, contents: map<Name, Score>)
    requires Selected(sp, k, s) == []
    ensures Gone(sp, k, s, index, contents, s, index, contents)
  {
    assert s[0..0] == [] && s == s[..0] + s[0..];
  }

  lemma GoneAll(sp: Spec, k: Keys, from: Start, lo: nat, hi: nat, s': seq<Node>, index: Index,
      contents: map<Name, Score>)
    requires Covers(sp, k, from.all, lo, hi) && !sp.rev && lo < hi <= |from.all| && from.lo == lo
    requires Left(from, from.all[lo..hi], hi - lo, s', index, contents)
    ensures Gone(sp, k, from.all, from.index, from.contents, s', index, contents)
    ensures |Selected(sp, k, from.all)| == hi - lo
  {
    var doomed := from.all[lo..hi];
    assert doomed[..hi - lo] == doomed;
    assert Selected(sp, k, from.all) == doomed;
  }

  lemma LeftNone(from: Start, lo: nat, hi: nat, doomed: seq<Node>)
    requires lo < hi <= |from.all| && from.lo == lo && WalkedFrom(doomed, from.all, lo, hi - lo, false)
    ensures doomed == from.all[lo..hi] && Left(from, doomed, 0, from.all, from.index, from.contents)
  {
    assert from.all == from.all[..lo] + from.all[lo..];
  }

  /** Collect the ranks [lo, hi) first, delete them second. */
  method RemoveSlice(root0: Node?, index0: Index, lo: nat, hi: nat, ghost S0: set<Node>, ghost t0: Tree)
    returns (root: Node?, index: Index, ghost S: set<Node>, ghost t: Tree)
    requires ZOk(root0, index0, S0, t0) && lo < hi <= |InOrder(t0)|
    modifies S0`left, S0`right, S0`parent, S0`height, S0`cnt
    ensures ZOk(root, index, S, t) && S <= S0
    ensures Left(Start(InOrder(t0), lo, index0, old(ContentsOf(index0, KeyView(S0)))), InOrder(t0)[lo..hi], hi - lo,
                 InOrder(t), index, ContentsOf(index, KeyView(S)))
  {
    ghost var from := Start(InOrder(t0), lo, index0, ContentsOf(index0, KeyView(S0)));
    InOrderNodes(t0);
    var doomed := WalkFrom(root0, lo, hi - lo, false, S0, t0);
    LeftNone(from, lo, hi, doomed);
    root, index, S, t := RemoveAll(from, doomed, root0, index0, S0, t0);
  }

  /** `zremrange_generic` on a set that exists; the key goes with its last member. */
  method RemRange(root0: Node?, index0: Index, sp: Spec, ghost S0: set<Node>, ghost t0: Tree)
    returns (root: Node?, index: Index, removed: int, deleted: bool, ghost S: set<Node>, ghost t: Tree)
    requires ZOk(root0, index0, S0, t0) && !sp.rev
    modifies S0`left, S0`right, S0`parent, S0`height, S0`cnt
    ensures ZOk(root, index, S, t) && S <= S0
    ensures Gone(sp, old(KeyView(S0)), InOrder(t0), index0, old(ContentsOf(index0, KeyView(S0))),
                 InOrder(t), index, ContentsOf(index, KeyView(S)))
    ensures removed == |Selected(sp, old(KeyView(S0)), InOrder(t0))|
    ensures deleted <==> removed > 0 && index == map[]
  {
    ghost var k, s, c := KeyView(S0), InOrder(t0), ContentsOf(index0, KeyView(S0));
    var lo, hi := Interval(root0, sp, S0, t0);
    if hi <= lo {
      root, index, S, t, removed, deleted := root0, index0, S0, t0, 0, false;
      GoneNone(sp, k, s, index0, c);
    } else {
      root, index, S, t := RemoveSlice(root0, index0, lo, hi, S0, t0);
      GoneAll(sp, k, Start(s, lo, index0, c), lo, hi, InOrder(t), index, ContentsOf(index, KeyView(S)));
      removed := hi - lo;
      deleted := index == map[];
    }
  }
}
