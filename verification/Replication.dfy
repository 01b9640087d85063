/** The replication protocol of src/server/server.cpp and src/commands/commands.cpp as a state
    machine: any number of nodes, links that carry bytes in order and may be lost at either end. */
module Replication {
  import opened Common
  import opened Resp
  import opened Requests

  type NodeId = nat
  type Id = nat          // a repl_id; a new one is one that was never used

  datatype Phase = Idle | Handshake | Loading | Streaming
  datatype Failover = NoFailover | WaitForSync(target: NodeId) | InProgress

  /** The replication fields of one server.  `hist` is its stream up to `master_repl_offset`; the
      backlog holds the last `histlen` bytes of it in a ring of `cap` bytes.  `data` is the dataset, as
      the commands that lead to it. */
  datatype Node = Node(
    id: Id, id2: Option<Id>, second: nat,
    hist: string, data: string, histlen: nat, cap: nat,
    replica: bool, link: Option<ConnId>, phase: Phase, failover: Failover)

  datatype Header = Continue(id: Id) | FullResync(id: Id, hist: string) | Error

  /** A connection dialled by `src` to `dst`.  `want` and `failover` are the PSYNC arguments; `header`
      and `bytes` are on the way to `src`, with the `image` between them after a full resync, `acks` on
      the way to `dst`.  `attached` says that `dst` counts
      it among its replicas, `closed` that `dst` has closed it; `got` records how far `src` came on it. */
  datatype Conn = Conn(
    src: NodeId, dst: NodeId, want: Option<(Id, nat)>, failover: bool,
    answered: bool, header: Option<Header>, image: string, bytes: string,
    attached: bool, closed: bool, acks: seq<nat>, ack: nat, got: nat)

  /** Every stream ever written: its bytes so far, the one server that may extend it, and the dataset
      it started from. */
  datatype Stream = Stream(bytes: string, author: NodeId, base: string)
  type World = map<Id, Stream>

  function BaseOf(w: World, z: Id): string { if z in w then w[z].base else "" }

  datatype State = State(nodes: map<NodeId, Node>, conns: map<ConnId, Conn>, world: World)

  // ---- the pieces of the code ---------------------------------------------------------

  /** `repl_backlog_feed` */
  function Feed(v: Node, f: string): Node {
    v.(hist := v.hist + f, data := v.data + f, histlen := Min(v.histlen + |f|, v.cap))
  }

  /** `repl_stop` */
  function Stop(v: Node): Node {
    v.(replica := false, link := None, phase := Idle)
  }

  /** `repl_shift_id` */
  function Shift(v: Node, z: Id): Node {
    v.(id2 := Some(v.id), second := |v.hist| + 1, id := z)
  }

  /** The test of `do_psync` for a partial resync. */
  predicate Partial(v: Node, want: Option<(Id, nat)>) {
    && want.Some? && v.cap > 0 && want.value.1 > 0
    && (want.value.0 == v.id || (v.id2 == Some(want.value.0) && want.value.1 <= v.second))
    && want.value.1 <= |v.hist| + 1 && |v.hist| + 1 - want.value.1 <= v.histlen
  }

  /** `repl_backlog_copy`: the last bytes of the stream. */
  function Last(v: Node, need: nat): string
    requires need <= |v.hist|
  {
    v.hist[|v.hist| - need..]
  }

  const PingFrame := Encode(["PING"])

  datatype Step =
    | Write(n: NodeId, f: string)              // propagate: whatever bytes a write puts into the stream
    | Ping(n: NodeId)                          // repl_ping_replicas
    | Dial(n: NodeId, m: NodeId, c: ConnId)    // repl_start: REPLICAOF, or repl_cron redialling
    | Promote(n: NodeId, z: Id)                // REPLICAOF NO ONE
    | Answer(c: ConnId, z: Id)                 // do_psync
    | TakeHeader(c: ConnId)                    // repl_master_data, HANDSHAKE
    | TakeImage(c: ConnId)                     // repl_master_data, RDB_BODY, all of it arrived
    | FailImage(c: ConnId, rest: string)       // the same, but it fails to load: `rest` is what is there then
    | TakeFrame(c: ConnId, k: nat)             // repl_master_data, STREAMING, k bytes arrived
    | SendAck(c: ConnId)                       // repl_cron on a replica
    | RecvAck(c: ConnId)                       // do_replconf ACK
    | LoseLink(n: NodeId)                      // the replica's end goes away
    | LoseReplica(c: ConnId)                   // the master's end goes away
    | StartFailover(n: NodeId, t: NodeId)      // do_failover
    | AbortFailover(n: NodeId)                 // do_failover ABORT, or failover_cron giving up
    | Demote(n: NodeId, c: ConnId, c': ConnId) // failover_cron, target caught up
    | DemoteFails(n: NodeId, c: ConnId)        // the same, but the target cannot be dialled

  /** The connection is the replica end's current master link. */
  predicate Live(s: State, c: ConnId) {
    c in s.conns && s.conns[c].src in s.nodes && s.nodes[s.conns[c].src].link == Some(c)
  }

  predicate Streams(s: State, c: ConnId) {
    Live(s, c) && s.nodes[s.conns[c].src].phase == Streaming
  }

  predicate HasReplica(s: State, n: NodeId, c: ConnId) {
    c in s.conns && s.conns[c].attached && s.conns[c].dst == n
  }

  /** When the code can take the step. */
  ghost predicate Enabled(s: State, step: Step) {
    match step
    case Write(n, f) => n in s.nodes && !s.nodes[n].replica && s.nodes[n].failover.NoFailover?
    case Ping(n) => n in s.nodes && exists c :: HasReplica(s, n, c)
    case Dial(n, m, c) => n in s.nodes && m in s.nodes && c !in s.conns
    case Promote(n, z) => n in s.nodes && s.nodes[n].replica && z !in s.world
    case Answer(c, z) => c in s.conns && !s.conns[c].answered && !s.conns[c].closed && s.conns[c].dst in s.nodes
                         && z !in s.world
    case TakeHeader(c) => Live(s, c) && s.conns[c].header.Some?
    case TakeImage(c) => Live(s, c) && s.nodes[s.conns[c].src].phase == Loading
    case FailImage(c, _) => Live(s, c) && s.nodes[s.conns[c].src].phase == Loading
    case TakeFrame(c, k) => Streams(s, c) && k <= |s.conns[c].bytes| && Next(s.conns[c].bytes[..k]) > 0
    case SendAck(c) => Streams(s, c)
    case RecvAck(c) => c in s.conns && s.conns[c].acks != [] && !s.conns[c].closed
    case LoseLink(n) => n in s.nodes
    case LoseReplica(c) => c in s.conns
    case StartFailover(n, t) => n in s.nodes && !s.nodes[n].replica && s.nodes[n].failover.NoFailover?
                                && exists c :: HasReplica(s, n, c) && s.conns[c].src == t
    case AbortFailover(n) => n in s.nodes && s.nodes[n].failover.WaitForSync?
    case Demote(n, c, c') =>
      && n in s.nodes && s.nodes[n].failover.WaitForSync? && HasReplica(s, n, c)
      && s.conns[c].src == s.nodes[n].failover.target
      && s.conns[c].src in s.nodes && s.conns[c].ack >= |s.nodes[n].hist| && c' !in s.conns
    case DemoteFails(n, c) => n in s.nodes && s.nodes[n].failover.WaitForSync? && HasReplica(s, n, c)
  }

  /** The star: a server with replicas is not made a replica, and a replica serves no PSYNC but the
      one that promotes it. */
  ghost predicate Star(s: State, step: Step)
    requires Enabled(s, step)
  {
    match step
    case Dial(n, m, c) => forall c' :: !HasReplica(s, n, c')
    case Answer(c, z) => s.nodes[s.conns[c].dst].replica ==> s.conns[c].failover
    case _ => true
  }

  /** The write stream grows: into the backlog, and to every attached replica. */
  function Extend(s: State, n: NodeId, f: string): State
    requires n in s.nodes && s.nodes[n].id in s.world
  {
    var v := s.nodes[n];
    var w := s.world[v.id];
    s.(nodes := s.nodes[n := Feed(v, f)],
       world := s.world[v.id := w.(bytes := w.bytes + f)],
       conns := map c | c in s.conns ::
                  if s.conns[c].attached && s.conns[c].dst == n then s.conns[c].(bytes := s.conns[c].bytes + f)
                  else s.conns[c])
  }

  /** `repl_start` */
  function DialTo(s: State, n: NodeId, m: NodeId, c: ConnId): State
    requires n in s.nodes
  {
    var v := s.nodes[n];
    var failover := v.failover.InProgress?;
    var want := if failover || v.replica then Some((v.id, |v.hist| + 1)) else None;
    s.(nodes := s.nodes[n := Stop(v).(replica := true, phase := Handshake, link := Some(c))],
       conns := s.conns[c := Conn(n, m, want, failover, false, None, "", "", false, false, [], 0, 0)])
  }

  /** `repl_stop` and `repl_shift_id` */
  function PromoteAt(s: State, n: NodeId, z: Id): State
    requires n in s.nodes
  {
    var v := s.nodes[n];
    s.(nodes := s.nodes[n := Shift(Stop(v), z)], world := s.world[z := Stream(v.hist, n, BaseOf(s.world, v.id))])
  }

  /** The answer of `do_psync`, once the role is settled. */
  function AnswerWith(k: Conn, v: Node): Conn {
    if Partial(v, k.want) then
      k.(answered := true, attached := true, header := Some(Continue(v.id)),
         bytes := Last(v, |v.hist| + 1 - k.want.value.1))
    else
      k.(answered := true, attached := true, header := Some(FullResync(v.id, v.hist)), image := v.data, bytes := "")
  }

  function AnswerAt(s: State, c: ConnId): State
    requires c in s.conns && s.conns[c].dst in s.nodes
  {
    SetConn(s, c, AnswerWith(s.conns[c], s.nodes[s.conns[c].dst]))
  }

  /** `do_psync` */
  function Psync(s: State, c: ConnId, z: Id): State
    requires c in s.conns && s.conns[c].dst in s.nodes
  {
    var k := s.conns[c];
    if k.failover && !s.nodes[k.dst].replica then SetConn(s, c, k.(answered := true, header := Some(Error)))
    else AnswerAt(if k.failover then PromoteAt(s, k.dst, z) else s, c)
  }

  /** `repl_master_data` on the answer line. */
  function Header'(v: Node, h: Header): Node {
    match h
    case Error => v.(link := None, phase := Idle)
    case Continue(z) =>
      (if z != v.id then v.(id := z, id2 := None, second := 0) else v).(phase := Streaming, failover := NoFailover)
    case FullResync(z, hist) =>
      v.(id := z, id2 := None, second := 0, hist := hist, histlen := 0, phase := Loading, failover := NoFailover)
  }

  function TakeLine(s: State, c: ConnId): State
    requires Live(s, c) && s.conns[c].header.Some?
  {
    var k := s.conns[c];
    var v := Header'(s.nodes[k.src], k.header.value);
    s.(nodes := s.nodes[k.src := v],
       conns := s.conns[c := k.(header := None, got := if v.phase == Streaming then |v.hist| else 0)])
  }

  /** `repl_master_data` once the image is there: it replaces the dataset. */
  function LoadImage(s: State, c: ConnId): State
    requires Live(s, c)
  {
    var k := s.conns[c];
    var v := s.nodes[k.src].(data := k.image, phase := Streaming);
    s.(nodes := s.nodes[k.src := v], conns := s.conns[c := k.(got := |v.hist|)])
  }

  /** The link is gone, and `data` is what the server has. */
  function Unlink(s: State, n: NodeId, data: string): State
    requires n in s.nodes
  {
    s.(nodes := s.nodes[n := s.nodes[n].(link := None, phase := Idle, data := data)])
  }

  /** `repl_master_data` while streaming. */
  function TakeBytes(s: State, c: ConnId, n: nat): State
    requires Live(s, c) && n <= |s.conns[c].bytes|
  {
    var k := s.conns[c];
    var v := Feed(s.nodes[k.src], k.bytes[..n]);
    s.(nodes := s.nodes[k.src := v], conns := s.conns[c := k.(bytes := k.bytes[n..], got := |v.hist|)])
  }

  /** `conn_destroy` of every replica. */
  function DropReplicas(s: State, n: NodeId): State {
    s.(conns := map c | c in s.conns ::
                  if s.conns[c].attached && s.conns[c].dst == n then s.conns[c].(attached := false, closed := true)
                  else s.conns[c])
  }

  function SetFailover(s: State, n: NodeId, fo: Failover): State
    requires n in s.nodes
  {
    s.(nodes := s.nodes[n := s.nodes[n].(failover := fo)])
  }

  function SetConn(s: State, c: ConnId, k: Conn): State {
    s.(conns := s.conns[c := k])
  }

  function Apply(s: State, step: Step): State
    requires Enabled(s, step) && forall n :: n in s.nodes ==> s.nodes[n].id in s.world
  {
    match step
    case Write(n, f) => Extend(s, n, f)
    case Ping(n) => Extend(s, n, PingFrame)
    case Dial(n, m, c) => DialTo(s, n, m, c)
    case Promote(n, z) => PromoteAt(s, n, z)
    case Answer(c, z) => Psync(s, c, z)
    case TakeHeader(c) => TakeLine(s, c)
    case TakeImage(c) => LoadImage(s, c)
    case FailImage(c, rest) => Unlink(s, s.conns[c].src, rest)
    case TakeFrame(c, k) => TakeBytes(s, c, Next(s.conns[c].bytes[..k]))
    case SendAck(c) => SetConn(s, c, s.conns[c].(acks := s.conns[c].acks + [|s.nodes[s.conns[c].src].hist|]))
    case RecvAck(c) => SetConn(s, c, s.conns[c].(ack := s.conns[c].acks[0], acks := s.conns[c].acks[1..]))
    case LoseLink(n) => Unlink(s, n, s.nodes[n].data)
    case LoseReplica(c) => SetConn(s, c, s.conns[c].(attached := false, closed := true))
    case StartFailover(n, t) => SetFailover(s, n, WaitForSync(t))
    case AbortFailover(n) => SetFailover(s, n, NoFailover)
    case Demote(n, c, c') => DialTo(SetFailover(DropReplicas(s, n), n, InProgress), n, s.conns[c].src, c')
    case DemoteFails(n, c) => SetFailover(DropReplicas(s, n), n, NoFailover)
  }

  // ---- the invariant ---------------------------------------------------------------------

  /** What the streams may consist of: whole frames one after another, or anything. */
  type Framing = iset<string>

  ghost predicate Closed(F: Framing) {
    "" in F && forall a, b {:trigger a + b in F} :: a in F ==> (a + b in F <==> b in F)
  }

  /** A server holds a prefix of the stream it names, all of it if it is the author; its retired
      history is common with that stream up to the promotion. */
  ghost predicate NodeOk(n: NodeId, v: Node, w: World, F: Framing) {
    && v.id in w && v.hist <= w[v.id].bytes && v.histlen <= |v.hist| && v.hist in F
    && (w[v.id].author == n ==> v.hist == w[v.id].bytes)
    && (!v.replica ==> w[v.id].author == n && v.link.None?)
    && (v.failover.InProgress? ==> w[v.id].author == n)
    && (v.id2.Some? ==>
          v.id2.value in w && 1 <= v.second <= |v.hist| + 1 && v.hist[..v.second - 1] <= w[v.id2.value].bytes)
  }

  /** A request on the way says what the replica holds. */
  ghost predicate RequestOk(k: Conn, src: Node, w: World) {
    && src.phase == Handshake && k.header.None? && !k.attached && src.id in w
    && (k.want.Some? ==> k.want.value == (src.id, |src.hist| + 1))
    && (k.failover ==> k.want.Some? && w[src.id].author == k.src)
  }

  ghost function BaseId(k: Conn, src: Node): Id {
    if k.header.None? || k.header.value.Error? then src.id else k.header.value.id
  }

  ghost function Base(k: Conn, src: Node): string {
    if k.header.Some? && k.header.value.FullResync? then k.header.value.hist else src.hist
  }

  /** What was recorded of a replica that has taken its answer. */
  ghost predicate Arrived(k: Conn, src: Node) {
    (src.phase == Streaming && k.got == |src.hist|) || (src.phase == Loading && k.got == 0)
  }

  /** What the replica holds, then what is on the way, continues the master's stream. */
  ghost predicate StreamOk(k: Conn, src: Node, dst: Node, w: World, F: Framing) {
    && k.src != k.dst && (if k.header.None? then Arrived(k, src) else src.phase == Handshake)
    && BaseId(k, src) in w && w[BaseId(k, src)].author == k.dst
    && Base(k, src) + k.bytes <= w[BaseId(k, src)].bytes && Base(k, src) in F && k.bytes in F
    && (k.attached ==> dst.id == BaseId(k, src) && Base(k, src) + k.bytes == dst.hist)
  }

  ghost predicate LinkOk(k: Conn, src: Node, dst: Node, w: World, F: Framing) {
    if !k.answered then RequestOk(k, src, w)
    else if k.header == Some(Error) then src.phase == Handshake
    else StreamOk(k, src, dst, w, F)
  }

  ghost predicate ConnOk(c: ConnId, k: Conn, src: Node, dst: Node, w: World, F: Framing) {
    && (k.attached ==> k.answered && !dst.replica && k.got <= |dst.hist|)
    && (!k.answered || k.header.Some? ==> k.got == 0) && (k.header == Some(Error) ==> !k.attached)
    && k.ack <= k.got && (forall i :: 0 <= i < |k.acks| ==> k.acks[i] <= k.got)
    && (src.link == Some(c) ==> LinkOk(k, src, dst, w, F))
  }

  /** Links lead to connections, and connections to servers. */
  ghost predicate Linked(s: State) {
    && (forall n :: n in s.nodes && s.nodes[n].link.Some? ==>
          s.nodes[n].link.value in s.conns && s.conns[s.nodes[n].link.value].src == n)
    && (forall c :: c in s.conns ==> s.conns[c].src in s.nodes && s.conns[c].dst in s.nodes)
  }

  ghost predicate Inv(s: State, F: Framing) {
    && (forall n :: n in s.nodes ==> NodeOk(n, s.nodes[n], s.world, F))
    && Linked(s)
    && (forall c :: c in s.conns ==>
          ConnOk(c, s.conns[c], s.nodes[s.conns[c].src], s.nodes[s.conns[c].dst], s.world, F))
  }

  // ---- streams only grow -------------------------------------------------------------------

  /** Every stream of w is still there, by the same author, with at least its bytes. */
  ghost predicate Grows(w: World, w': World) {
    forall x :: x in w ==> x in w' && w'[x].author == w[x].author && w[x].bytes <= w'[x].bytes
  }

  /** A change to the streams of `n` alone. */
  ghost predicate GrowsBy(w: World, w': World, n: NodeId) {
    Grows(w, w') && forall x :: x in w && w[x].author != n ==> w'[x] == w[x]
  }

  lemma PrefixTrans(a: string, b: string, c: string)
    requires a <= b <= c
    ensures a <= c
  {
  }

  lemma NodeGrows(m: NodeId, v: Node, w: World, w': World, n: NodeId, F: Framing)
    requires NodeOk(m, v, w, F) && GrowsBy(w, w', n) && (m == n ==> w'[v.id] == w[v.id])
    ensures NodeOk(m, v, w', F)
  {
    PrefixTrans(v.hist, w[v.id].bytes, w'[v.id].bytes);
    if v.id2.Some? { PrefixTrans(v.hist[..v.second - 1], w[v.id2.value].bytes, w'[v.id2.value].bytes); }
  }

  lemma ConnGrows(c: ConnId, k: Conn, src: Node, dst: Node, w: World, w': World, F: Framing)
    requires ConnOk(c, k, src, dst, w, F) && Grows(w, w')
    ensures ConnOk(c, k, src, dst, w', F)
  {
    if src.link == Some(c) && k.answered && k.header != Some(Error) {
      var z := BaseId(k, src);
      PrefixTrans(Base(k, src) + k.bytes, w[z].bytes, w'[z].bytes);
    }
  }

  // ---- writes and keepalives ---------------------------------------------------------------

  lemma FedNode(n: NodeId, v: Node, f: string, w: World, F: Framing)
    requires NodeOk(n, v, w, F) && !v.replica && f in F && Closed(F)
    ensures NodeOk(n, Feed(v, f), w[v.id := w[v.id].(bytes := w[v.id].bytes + f)], F)
  {
    assert v.hist + f in F;
    if v.id2.Some? {
      assert (v.hist + f)[..v.second - 1] == v.hist[..v.second - 1];
    }
  }

  lemma FedConn(c: ConnId, k: Conn, src: Node, dst: Node, f: string, w: World, w': World, F: Framing)
    requires ConnOk(c, k, src, dst, w, F) && k.attached && NodeOk(k.dst, dst, w, F) && f in F && Closed(F)
    requires Grows(w, w')
    requires w'[dst.id].bytes == w[dst.id].bytes + f
    ensures ConnOk(c, k.(bytes := k.bytes + f), src, Feed(dst, f), w', F)
  {
    if src.link == Some(c) && k.header != Some(Error) {
      assert k.bytes + f in F;
      assert Base(k, src) + (k.bytes + f) == Base(k, src) + k.bytes + f;
    }
  }

  lemma ExtendKeeps(s: State, n: NodeId, f: string, F: Framing)
    requires Inv(s, F) && n in s.nodes && !s.nodes[n].replica && f in F && Closed(F)
    ensures Inv(Extend(s, n, f), F)
  {
    var s' := Extend(s, n, f);
    forall m | m in s'.nodes ensures NodeOk(m, s'.nodes[m], s'.world, F) {
      ExtendNode(s, n, f, m, F);
    }
    forall c | c in s'.conns
      ensures ConnOk(c, s'.conns[c], s'.nodes[s'.conns[c].src], s'.nodes[s'.conns[c].dst], s'.world, F)
    {
      ExtendConn(s, n, f, c, F);
    }
    ExtendLinks(s, n, f, F);
  }

  /** Who is linked to whom stays as it is. */
  lemma ExtendLinks(s: State, n: NodeId, f: string, F: Framing)
    requires Inv(s, F) && n in s.nodes && !s.nodes[n].replica
    ensures Linked(Extend(s, n, f))
  {
    var s' := Extend(s, n, f);
    assert NodeOk(n, s.nodes[n], s.world, F);
    assert s'.conns.Keys == s.conns.Keys
           && forall c :: c in s.conns ==> s'.conns[c].src == s.conns[c].src && s'.conns[c].dst == s.conns[c].dst;
  }

  lemma ExtendNode(s: State, n: NodeId, f: string, m: NodeId, F: Framing)
    requires Inv(s, F) && n in s.nodes && !s.nodes[n].replica && f in F && Closed(F) && m in s.nodes
    ensures var s' := Extend(s, n, f); NodeOk(m, s'.nodes[m], s'.world, F)
  {
    var s' := Extend(s, n, f);
    assert NodeOk(n, s.nodes[n], s.world, F) && NodeOk(m, s.nodes[m], s.world, F);
    if m == n { FedNode(n, s.nodes[n], f, s.world, F); } else { NodeGrows(m, s.nodes[m], s.world, s'.world, n, F); }
  }

  lemma ExtendConn(s: State, n: NodeId, f: string, c: ConnId, F: Framing)
    requires Inv(s, F) && n in s.nodes && !s.nodes[n].replica && f in F && Closed(F) && c in s.conns
    ensures var s' := Extend(s, n, f);
            ConnOk(c, s'.conns[c], s'.nodes[s'.conns[c].src], s'.nodes[s'.conns[c].dst], s'.world, F)
  {
    var k, v := s.conns[c], s.nodes[n];
    assert ConnOk(c, k, s.nodes[k.src], s.nodes[k.dst], s.world, F) && NodeOk(n, v, s.world, F);
    var w := s.world[v.id := s.world[v.id].(bytes := s.world[v.id].bytes + f)];
    ExtendedConn(c, k, s.nodes[k.src], s.nodes[k.dst], n, v, f, s.world, w, F);
  }

  /** The same for one connection and its two ends. */
  lemma ExtendedConn(c: ConnId, k: Conn, src: Node, dst: Node, n: NodeId, v: Node, f: string, w: World, w': World,
      F: Framing)
    requires ConnOk(c, k, src, dst, w, F) && NodeOk(n, v, w, F) && v.link.None? && f in F && Closed(F)
    requires w' == w[v.id := w[v.id].(bytes := w[v.id].bytes + f)]
    requires (k.src == n ==> src == v) && (k.dst == n ==> dst == v)
    ensures ConnOk(c, if k.attached && k.dst == n then k.(bytes := k.bytes + f) else k,
                   if k.src == n then Feed(v, f) else src, if k.dst == n then Feed(v, f) else dst, w', F)
  {
    if k.attached && k.dst == n {
      FedConn(c, k, src, v, f, w, w', F);
      if k.src == n { SelfFed(c, k.(bytes := k.bytes + f), v, f, w', F); }
    } else {
      ConnGrows(c, k, src, dst, w, w', F);
      FedEnds(c, k, src, dst, n, v, f, w', F);
    }
  }

  /** A master has no link of its own, so a connection it dialled does not see it fed. */
  lemma SelfFed(c: ConnId, k: Conn, v: Node, f: string, w: World, F: Framing)
    requires ConnOk(c, k, v, Feed(v, f), w, F) && v.link.None?
    ensures ConnOk(c, k, Feed(v, f), Feed(v, f), w, F)
  {
  }

  lemma FedEnds(c: ConnId, k: Conn, src: Node, dst: Node, n: NodeId, v: Node, f: string, w: World, F: Framing)
    requires ConnOk(c, k, src, dst, w, F) && v.link.None? && !(k.attached && k.dst == n)
    requires (k.src == n ==> src == v) && (k.dst == n ==> dst == v)
    ensures ConnOk(c, k, if k.src == n then Feed(v, f) else src, if k.dst == n then Feed(v, f) else dst, w, F)
  {
  }

  // ---- roles ---------------------------------------------------------------------------------

  /** A change to one server that keeps it well formed and leaves its connections as they were. */
  ghost predicate Replaces(s: State, n: NodeId, v: Node, w: World, F: Framing) {
    && n in s.nodes && GrowsBy(s.world, w, n) && NodeOk(n, v, w, F)
    && (v.link.None? || v.link == s.nodes[n].link)
    && (forall c :: c in s.conns && s.conns[c].src == n && s.conns[c].dst in s.nodes && v.link == Some(c) ==>
          LinkOk(s.conns[c], v, s.nodes[s.conns[c].dst], w, F))
    && (forall c :: HasReplica(s, n, c) ==> !v.replica && v.hist == s.nodes[n].hist && v.id == s.nodes[n].id)
  }

  lemma ReplacedConn(s: State, n: NodeId, v: Node, w: World, F: Framing, c: ConnId)
    requires Inv(s, F) && Replaces(s, n, v, w, F) && c in s.conns
    ensures var nodes := s.nodes[n := v]; ConnOk(c, s.conns[c], nodes[s.conns[c].src], nodes[s.conns[c].dst], w, F)
  {
    var k := s.conns[c];
    assert ConnOk(c, k, s.nodes[k.src], s.nodes[k.dst], s.world, F);
    ConnGrows(c, k, s.nodes[k.src], s.nodes[k.dst], s.world, w, F);
    if k.attached && k.dst == n { assert HasReplica(s, n, c); }
  }

  lemma ReplaceKeeps(s: State, n: NodeId, v: Node, w: World, F: Framing)
    requires Inv(s, F) && Replaces(s, n, v, w, F)
    ensures Inv(s.(nodes := s.nodes[n := v], world := w), F)
  {
    var s' := s.(nodes := s.nodes[n := v], world := w);
    forall m | m in s'.nodes ensures NodeOk(m, s'.nodes[m], w, F) {
      if m != n { NodeGrows(m, s.nodes[m], s.world, w, n, F); }
    }
    forall c | c in s'.conns
      ensures ConnOk(c, s'.conns[c], s'.nodes[s'.conns[c].src], s'.nodes[s'.conns[c].dst], w, F)
    {
      ReplacedConn(s, n, v, w, F, c);
    }
    ReplacedLinks(s, n, v, w);
  }

  lemma ReplacedLinks(s: State, n: NodeId, v: Node, w: World)
    requires Linked(s) && n in s.nodes && (v.link.None? || v.link == s.nodes[n].link)
    ensures Linked(s.(nodes := s.nodes[n := v], world := w))
  {
  }

  lemma ConnKeeps(s: State, c: ConnId, k: Conn, F: Framing)
    requires Inv(s, F) && k.src in s.nodes && k.dst in s.nodes
    requires ConnOk(c, k, s.nodes[k.src], s.nodes[k.dst], s.world, F)
    requires c in s.conns ==> k.src == s.conns[c].src
    ensures Inv(SetConn(s, c, k), F)
  {
  }

  lemma PromoteKeeps(s: State, n: NodeId, z: Id, F: Framing)
    requires Inv(s, F) && n in s.nodes && s.nodes[n].replica && z !in s.world
    ensures Inv(PromoteAt(s, n, z), F)
  {
    var v := s.nodes[n];
    assert NodeOk(n, v, s.world, F);
    var v', w := Shift(Stop(v), z), s.world[z := Stream(v.hist, n, BaseOf(s.world, v.id))];
    assert v'.hist[..v'.second - 1] == v.hist;
    assert NodeOk(n, v', w, F);
    NoReplicas(s, n, F);
    ReplaceKeeps(s, n, v', w, F);
  }

  lemma NoReplicas(s: State, n: NodeId, F: Framing)
    requires Inv(s, F) && n in s.nodes && s.nodes[n].replica
    ensures forall c :: !HasReplica(s, n, c)
  {
    forall c ensures !HasReplica(s, n, c) {
      if c in s.conns { assert ConnOk(c, s.conns[c], s.nodes[s.conns[c].src], s.nodes[s.conns[c].dst], s.world, F); }
    }
  }

  lemma FailoverKeeps(s: State, n: NodeId, fo: Failover, F: Framing)
    requires Inv(s, F) && n in s.nodes && (fo.InProgress? ==> !s.nodes[n].replica)
    ensures Inv(SetFailover(s, n, fo), F)
  {
    var v := s.nodes[n];
    var v' := v.(failover := fo);
    assert NodeOk(n, v, s.world, F) && NodeOk(n, v', s.world, F);
    forall c | c in s.conns && s.conns[c].src == n && v'.link == Some(c)
      ensures LinkOk(s.conns[c], v', s.nodes[s.conns[c].dst], s.world, F)
    {
      assert ConnOk(c, s.conns[c], v, s.nodes[s.conns[c].dst], s.world, F);
    }
    forall c | HasReplica(s, n, c) ensures !v'.replica {
      assert ConnOk(c, s.conns[c], s.nodes[s.conns[c].src], v, s.world, F);
    }
    ReplaceKeeps(s, n, v', s.world, F);
    assert s.(nodes := s.nodes[n := v'], world := s.world) == SetFailover(s, n, fo);
  }

  lemma UnlinkKeeps(s: State, n: NodeId, data: string, F: Framing)
    requires Inv(s, F) && n in s.nodes
    ensures Inv(Unlink(s, n, data), F)
  {
    var v := s.nodes[n];
    var v' := v.(link := None, phase := Idle, data := data);
    assert NodeOk(n, v, s.world, F) && NodeOk(n, v', s.world, F);
    forall c | HasReplica(s, n, c) ensures !v'.replica {
      assert ConnOk(c, s.conns[c], s.nodes[s.conns[c].src], v, s.world, F);
    }
    ReplaceKeeps(s, n, v', s.world, F);
  }

  /** Dialling: first the old link goes, then the role changes and the request is sent. */
  lemma DialKeeps(s: State, n: NodeId, m: NodeId, c: ConnId, F: Framing)
    requires Inv(s, F) && n in s.nodes && m in s.nodes && c !in s.conns && (forall c' :: !HasReplica(s, n, c'))
    ensures Inv(DialTo(s, n, m, c), F)
  {
    var v, s' := s.nodes[n], DialTo(s, n, m, c);
    assert NodeOk(n, v, s.world, F) && NodeOk(n, s'.nodes[n], s.world, F);
    forall c' | c' in s'.conns
      ensures s'.conns[c'].src in s'.nodes && s'.conns[c'].dst in s'.nodes
      ensures ConnOk(c', s'.conns[c'], s'.nodes[s'.conns[c'].src], s'.nodes[s'.conns[c'].dst], s.world, F)
    {
      DialConn(s, n, m, c, c', F);
    }
    forall x | x in s'.nodes ensures NodeOk(x, s'.nodes[x], s.world, F) {
      assert x != n ==> NodeOk(x, s.nodes[x], s.world, F);
    }
  }

  lemma DialConn(s: State, n: NodeId, m: NodeId, c: ConnId, c': ConnId, F: Framing)
    requires Inv(s, F) && n in s.nodes && m in s.nodes && c !in s.conns && (forall d :: !HasReplica(s, n, d))
    requires c' == c || c' in s.conns
    ensures var s' := DialTo(s, n, m, c); var k := s'.conns[c'];
            k.src in s'.nodes && k.dst in s'.nodes && ConnOk(c', k, s'.nodes[k.src], s'.nodes[k.dst], s.world, F)
  {
    assert NodeOk(n, s.nodes[n], s.world, F);
    if c' != c { OtherConn(s, n, DialTo(s, n, m, c).nodes[n], c', F); }
  }

  /** A connection that is not the server's link does not see it change, as long as it serves none. */
  lemma OtherConn(s: State, n: NodeId, v: Node, c: ConnId, F: Framing)
    requires Inv(s, F) && n in s.nodes && c in s.conns && !HasReplica(s, n, c) && v.link != Some(c)
    ensures var nodes := s.nodes[n := v];
            ConnOk(c, s.conns[c], nodes[s.conns[c].src], nodes[s.conns[c].dst], s.world, F)
  {
    var k := s.conns[c];
    assert ConnOk(c, k, s.nodes[k.src], s.nodes[k.dst], s.world, F);
  }

  // ---- the handshake ---------------------------------------------------------------------------

  lemma Takes(a: string, b: string, k: nat)
    requires a <= b && k <= |a|
    ensures a[..k] == b[..k]
  {
  }

  /** What a partial resync sends is exactly what the replica lacks, under either history. */
  lemma PartialExact(k: Conn, src: Node, dst: Node, w: World, F: Framing)
    requires RequestOk(k, src, w) && NodeOk(k.src, src, w, F) && NodeOk(k.dst, dst, w, F) && !dst.replica
    requires Partial(dst, k.want) && Closed(F)
    ensures var sent := AnswerWith(k, dst).bytes; src.hist + sent == dst.hist && src.hist in F && sent in F
  {
    var n, have := |src.hist|, w[src.id].bytes;
    var sent := AnswerWith(k, dst).bytes;
    assert sent == dst.hist[n..];
    assert src.hist == have[..n];
    if src.id != dst.id {
      Takes(dst.hist[..dst.second - 1], have, n);
      assert dst.hist[..dst.second - 1][..n] == dst.hist[..n];
    }
    assert src.hist == dst.hist[..n];
    assert src.hist + sent == dst.hist;
    assert src.hist + sent in F;
  }

  lemma AnswerKeeps(s: State, c: ConnId, F: Framing)
    requires Inv(s, F) && Closed(F) && c in s.conns && !s.conns[c].answered && !s.nodes[s.conns[c].dst].replica
    ensures Inv(AnswerAt(s, c), F)
  {
    var k := s.conns[c];
    var src, dst := s.nodes[k.src], s.nodes[k.dst];
    var k' := AnswerWith(k, dst);
    assert ConnOk(c, k, src, dst, s.world, F) && NodeOk(k.src, src, s.world, F) && NodeOk(k.dst, dst, s.world, F);
    if src.link == Some(c) {
      if Partial(dst, k.want) {
        PartialExact(k, src, dst, s.world, F);
      } else {
        assert dst.hist + "" == dst.hist;
      }
      assert StreamOk(k', src, dst, s.world, F);
    }
    ConnKeeps(s, c, k', F);
  }

  lemma PsyncKeeps(s: State, c: ConnId, z: Id, F: Framing)
    requires Inv(s, F) && Closed(F) && Enabled(s, Answer(c, z)) && Star(s, Answer(c, z))
    ensures Inv(Psync(s, c, z), F)
  {
    var k := s.conns[c];
    assert ConnOk(c, k, s.nodes[k.src], s.nodes[k.dst], s.world, F);
    if k.failover && !s.nodes[k.dst].replica {
      ConnKeeps(s, c, k.(answered := true, header := Some(Error)), F);
    } else if k.failover {
      PromoteKeeps(s, k.dst, z, F);
      AnswerKeeps(PromoteAt(s, k.dst, z), c, F);
    } else {
      AnswerKeeps(s, c, F);
    }
  }

  /** One server and its link change together. */
  ghost predicate Pair(s: State, c: ConnId, v: Node, k: Conn, F: Framing) {
    && Live(s, c) && k.src == s.conns[c].src && k.dst == s.conns[c].dst && k.src != k.dst && k.dst in s.nodes
    && NodeOk(k.src, v, s.world, F) && (v.link.None? || v.link == Some(c)) && v.replica
    && ConnOk(c, k, v, s.nodes[k.dst], s.world, F)
  }

  ghost function SetPair(s: State, c: ConnId, v: Node, k: Conn): State {
    s.(nodes := s.nodes[k.src := v], conns := s.conns[c := k])
  }

  lemma PairConn(s: State, c: ConnId, v: Node, k: Conn, F: Framing, c': ConnId)
    requires Inv(s, F) && Pair(s, c, v, k, F) && (c' == c || c' in s.conns)
    ensures var s' := SetPair(s, c, v, k); var j := s'.conns[c'];
            j.src in s'.nodes && j.dst in s'.nodes && ConnOk(c', j, s'.nodes[j.src], s'.nodes[j.dst], s'.world, F)
  {
    if c' != c {
      assert NodeOk(k.src, s.nodes[k.src], s.world, F);
      NoReplicas(s, k.src, F);
      OtherConn(s, k.src, v, c', F);
    }
  }

  lemma PairKeeps(s: State, c: ConnId, v: Node, k: Conn, F: Framing)
    requires Inv(s, F) && Pair(s, c, v, k, F)
    ensures Inv(SetPair(s, c, v, k), F)
  {
    var s' := SetPair(s, c, v, k);
    forall c' | c' in s'.conns
      ensures s'.conns[c'].src in s'.nodes && s'.conns[c'].dst in s'.nodes
      ensures ConnOk(c', s'.conns[c'], s'.nodes[s'.conns[c'].src], s'.nodes[s'.conns[c'].dst], s'.world, F)
    {
      PairConn(s, c, v, k, F, c');
    }
  }

  lemma TakeLineKeeps(s: State, c: ConnId, F: Framing)
    requires Inv(s, F) && Live(s, c) && s.conns[c].header.Some?
    ensures Inv(TakeLine(s, c), F)
  {
    var k := s.conns[c];
    var v, dst := s.nodes[k.src], s.nodes[k.dst];
    assert ConnOk(c, k, v, dst, s.world, F) && NodeOk(k.src, v, s.world, F);
    var v' := Header'(v, k.header.value);
    var k' := k.(header := None, got := if v'.phase == Streaming then |v'.hist| else 0);
    if k.header.value.Error? {
      RefusedKeeps(s, c, F);
    } else {
      assert StreamOk(k, v, dst, s.world, F);
      assert v'.hist <= Base(k, v) + k.bytes;
      assert v'.id == BaseId(k, v) && v'.hist == Base(k, v);
      PrefixTrans(v'.hist, Base(k, v) + k.bytes, s.world[v'.id].bytes);
      assert NodeOk(k.src, v', s.world, F);
      assert ConnOk(c, k', v', dst, s.world, F);
      PairKeeps(s, c, v', k', F);
    }
  }

  lemma RefusedKeeps(s: State, c: ConnId, F: Framing)
    requires Inv(s, F) && Live(s, c) && s.conns[c].header == Some(Error)
    ensures Inv(TakeLine(s, c), F)
  {
    var k := s.conns[c];
    var s1 := s.(nodes := s.nodes[k.src := s.nodes[k.src].(link := None, phase := Idle)]);
    UnlinkKeeps(s, k.src, s.nodes[k.src].data, F);
    assert ConnOk(c, k, s1.nodes[k.src], s1.nodes[k.dst], s1.world, F);
    ConnKeeps(s1, c, k.(header := None, got := 0), F);
  }

  lemma LoadImageKeeps(s: State, c: ConnId, F: Framing)
    requires Inv(s, F) && Enabled(s, TakeImage(c))
    ensures Inv(LoadImage(s, c), F)
  {
    var k := s.conns[c];
    var v, dst := s.nodes[k.src], s.nodes[k.dst];
    assert ConnOk(c, k, v, dst, s.world, F) && NodeOk(k.src, v, s.world, F);
    var v' := v.(data := k.image, phase := Streaming);
    PairKeeps(s, c, v', k.(got := |v'.hist|), F);
  }

  // ---- the stream --------------------------------------------------------------------------------

  lemma TakeBytesKeeps(s: State, c: ConnId, n: nat, F: Framing)
    requires Inv(s, F) && Closed(F) && Streams(s, c) && n <= |s.conns[c].bytes|
    requires s.conns[c].bytes[..n] in F && s.conns[c].bytes[n..] in F
    ensures Inv(TakeBytes(s, c, n), F)
  {
    var k := s.conns[c];
    var v, dst := s.nodes[k.src], s.nodes[k.dst];
    assert ConnOk(c, k, v, dst, s.world, F) && NodeOk(k.src, v, s.world, F);
    var f, rest := k.bytes[..n], k.bytes[n..];
    assert StreamOk(k, v, dst, s.world, F);
    assert v.hist + k.bytes == v.hist + f + rest by { assert k.bytes == f + rest; }
    assert v.hist + f in F;
    var v' := Feed(v, f);
    var k' := k.(bytes := rest, got := |v'.hist|);
    PrefixTrans(v.hist + f, v.hist + k.bytes, s.world[v.id].bytes);
    if v.id2.Some? { assert v'.hist[..v.second - 1] == v.hist[..v.second - 1]; }
    assert NodeOk(k.src, v', s.world, F);
    assert ConnOk(c, k', v', dst, s.world, F);
    PairKeeps(s, c, v', k', F);
  }

  lemma DropReplicasKeeps(s: State, n: NodeId, F: Framing)
    requires Inv(s, F)
    ensures Inv(DropReplicas(s, n), F)
  {
    var s' := DropReplicas(s, n);
    forall c | c in s'.conns
      ensures ConnOk(c, s'.conns[c], s'.nodes[s'.conns[c].src], s'.nodes[s'.conns[c].dst], s'.world, F)
    {
      DroppedConn(s, n, c, F);
    }
    DroppedLinks(s, n);
  }

  lemma DroppedLinks(s: State, n: NodeId)
    requires Linked(s)
    ensures Linked(DropReplicas(s, n))
  {
    var s' := DropReplicas(s, n);
    assert s'.conns.Keys == s.conns.Keys
           && forall c :: c in s.conns ==> s'.conns[c].src == s.conns[c].src && s'.conns[c].dst == s.conns[c].dst;
  }

  lemma NoneLeft(s: State, n: NodeId, c: ConnId)
    ensures !HasReplica(DropReplicas(s, n), n, c)
  {
  }

  lemma DroppedConn(s: State, n: NodeId, c: ConnId, F: Framing)
    requires Inv(s, F) && c in s.conns
    ensures var s' := DropReplicas(s, n); var j := s'.conns[c];
            ConnOk(c, j, s'.nodes[j.src], s'.nodes[j.dst], s'.world, F)
  {
    var k := s.conns[c];
    ClosedConn(c, k, s.nodes[k.src], s.nodes[k.dst], s.world, F);
  }

  lemma ClosedConn(c: ConnId, k: Conn, src: Node, dst: Node, w: World, F: Framing)
    requires ConnOk(c, k, src, dst, w, F)
    ensures ConnOk(c, k.(attached := false, closed := true), src, dst, w, F)
  {
  }

  // ---- every step, every run -----------------------------------------------------------------------

  /** Whole requests that the parser takes. */
  ghost function AllFramed(): Framing { iset s: string | Framed(s) }

  ghost function Anything(): Framing { iset s: string | |s| >= 0 }

  /** Keepalives belong to it, and so do both parts when a request is taken from the front. */
  ghost predicate Carries(F: Framing) {
    && Closed(F) && PingFrame in F
    && forall s: string, k: nat {:trigger s[..k]} ::
         s in F && k <= |s| && Next(s[..k]) > 0 ==> s[..Next(s[..k])] in F && s[Next(s[..k])..] in F
  }

  lemma FramedClosed()
    ensures Closed(AllFramed())
  {
    var F := AllFramed();
    forall a, b | a in F ensures a + b in F <==> b in F {
      if a + b in F { FramedRest(a, b); }
      if b in F { FramedJoin(a, b); }
    }
  }

  lemma PingFramed()
    ensures IsFrame(PingFrame) && Framed(PingFrame)
  {
    var f := PingFrame;
    EncodeIsFrame(["PING"]);
    assert f == "*" + Decimal(1) + CRLF + ("$" + Decimal(4) + CRLF + "PING" + CRLF + "");
    FrameFramed(f);
  }

  lemma BothCarry()
    ensures Carries(AllFramed()) && Carries(Anything())
  {
    FramedClosed();
    PingFramed();
    var F := AllFramed();
    forall s: string, k: nat | s in F && k <= |s| && Next(s[..k]) > 0
      ensures s[..Next(s[..k])] in F && s[Next(s[..k])..] in F
    {
      FramedTake(s, k);
    }
  }

  lemma ExtensionKeeps(s: State, step: Step, F: Framing)
    requires Inv(s, F) && Carries(F) && Enabled(s, step) && (step.Ping? || (step.Write? && step.f in F))
    ensures Inv(Apply(s, step), F)
  {
    if step.Write? {
      ExtendKeeps(s, step.n, step.f, F);
    } else {
      var c :| HasReplica(s, step.n, c);
      assert ConnOk(c, s.conns[c], s.nodes[s.conns[c].src], s.nodes[step.n], s.world, F);
      ExtendKeeps(s, step.n, PingFrame, F);
    }
  }

  lemma TakeFrameKeeps(s: State, c: ConnId, k: nat, F: Framing)
    requires Inv(s, F) && Carries(F) && Enabled(s, TakeFrame(c, k))
    ensures Inv(Apply(s, TakeFrame(c, k)), F)
  {
    var j := s.conns[c];
    assert ConnOk(c, j, s.nodes[j.src], s.nodes[j.dst], s.world, F);
    TakeBytesKeeps(s, c, Next(j.bytes[..k]), F);
  }

  lemma AckSent(c: ConnId, k: Conn, src: Node, dst: Node, w: World, F: Framing)
    requires ConnOk(c, k, src, dst, w, F) && src.link == Some(c) && src.phase == Streaming
    ensures ConnOk(c, k.(acks := k.acks + [|src.hist|]), src, dst, w, F)
  {
  }

  lemma AckTaken(c: ConnId, k: Conn, src: Node, dst: Node, w: World, F: Framing)
    requires ConnOk(c, k, src, dst, w, F) && k.acks != []
    ensures ConnOk(c, k.(ack := k.acks[0], acks := k.acks[1..]), src, dst, w, F)
  {
  }

  lemma AckKeeps(s: State, step: Step, F: Framing)
    requires Inv(s, F) && Enabled(s, step) && (step.SendAck? || step.RecvAck? || step.LoseReplica?)
    ensures Inv(Apply(s, step), F)
  {
    var c := step.c;
    var k := s.conns[c];
    var src, dst := s.nodes[k.src], s.nodes[k.dst];
    assert ConnOk(c, k, src, dst, s.world, F);
    match step
    case SendAck(_) =>
      AckSent(c, k, src, dst, s.world, F);
      ConnKeeps(s, c, k.(acks := k.acks + [|src.hist|]), F);
    case RecvAck(_) =>
      AckTaken(c, k, src, dst, s.world, F);
      ConnKeeps(s, c, k.(ack := k.acks[0], acks := k.acks[1..]), F);
    case LoseReplica(_) =>
      ClosedConn(c, k, src, dst, s.world, F);
      ConnKeeps(s, c, k.(attached := false, closed := true), F);
    case _ =>
  }

  lemma DemoteKeeps(s: State, n: NodeId, fo: Failover, F: Framing)
    requires Inv(s, F) && n in s.nodes && !s.nodes[n].replica
    ensures var s' := SetFailover(DropReplicas(s, n), n, fo); Inv(s', F) && forall c :: !HasReplica(s', n, c)
  {
    DropReplicasKeeps(s, n, F);
    FailoverKeeps(DropReplicas(s, n), n, fo, F);
    forall c ensures !HasReplica(SetFailover(DropReplicas(s, n), n, fo), n, c) { NoneLeft(s, n, c); }
  }

  lemma FailoverStepKeeps(s: State, step: Step, F: Framing)
    requires Inv(s, F) && Enabled(s, step)
    requires step.StartFailover? || step.AbortFailover? || step.Demote? || step.DemoteFails?
    ensures Inv(Apply(s, step), F)
  {
    match step
    case StartFailover(n, t) => FailoverKeeps(s, n, WaitForSync(t), F);
    case AbortFailover(n) => FailoverKeeps(s, n, NoFailover, F);
    case Demote(n, c, c') =>
      assert ConnOk(c, s.conns[c], s.nodes[s.conns[c].src], s.nodes[n], s.world, F);
      DemoteKeeps(s, n, InProgress, F);
      DialKeeps(SetFailover(DropReplicas(s, n), n, InProgress), n, s.conns[c].src, c', F);
    case DemoteFails(n, c) =>
      assert ConnOk(c, s.conns[c], s.nodes[s.conns[c].src], s.nodes[n], s.world, F);
      DemoteKeeps(s, n, NoFailover, F);
    case _ =>
  }

  /** Every step of the protocol keeps the invariant. */
  lemma StepKeeps(s: State, step: Step, F: Framing)
    requires Inv(s, F) && Carries(F) && Enabled(s, step) && Star(s, step) && (step.Write? ==> step.f in F)
    ensures Inv(Apply(s, step), F)
  {
    match step
    case Write(_, _) => ExtensionKeeps(s, step, F);
    case Ping(_) => ExtensionKeeps(s, step, F);
    case Dial(n, m, c) => DialKeeps(s, n, m, c, F);
    case Promote(n, z) => PromoteKeeps(s, n, z, F);
    case Answer(c, z) => PsyncKeeps(s, c, z, F);
    case TakeHeader(c) => TakeLineKeeps(s, c, F);
    case TakeImage(c) => LoadImageKeeps(s, c, F);
    case FailImage(c, rest) => UnlinkKeeps(s, s.conns[c].src, rest, F);
    case TakeFrame(c, k) => TakeFrameKeeps(s, c, k, F);
    case SendAck(c) => AckKeeps(s, step, F);
    case RecvAck(c) => AckKeeps(s, step, F);
    case LoseLink(n) => UnlinkKeeps(s, n, s.nodes[n].data, F);
    case LoseReplica(c) => AckKeeps(s, step, F);
    case StartFailover(_, _) => FailoverStepKeeps(s, step, F);
    case AbortFailover(_) => FailoverStepKeeps(s, step, F);
    case Demote(_, _, _) => FailoverStepKeeps(s, step, F);
    case DemoteFails(_, _) => FailoverStepKeeps(s, step, F);
  }

  /** Every server starts as a master with an empty stream of its own. */
  ghost predicate Init(s: State) {
    && s.conns == map[]
    && (forall n :: n in s.nodes ==>
          var v := s.nodes[n];
          && v.id in s.world && s.world[v.id] == Stream("", n, v.data) && v.hist == "" && v.histlen == 0
          && v.id2.None? && v.second == 0 && !v.replica && v.link.None? && v.phase == Idle && v.failover.NoFailover?)
  }

  ghost predicate IdsKnown(s: State) {
    forall n :: n in s.nodes ==> s.nodes[n].id in s.world
  }

  /** The steps lead from s to t; with `star`, within the star topology. */
  ghost predicate Run(s: State, steps: seq<Step>, t: State, star: bool)
    decreases |steps|
  {
    if steps == [] then s == t
    else
      && IdsKnown(s) && Enabled(s, steps[0]) && (star ==> Star(s, steps[0]))
      && Run(Apply(s, steps[0]), steps[1..], t, star)
  }

  /** Everything that the run writes belongs to F. */
  ghost predicate Writes(steps: seq<Step>, F: Framing) {
    forall step :: step in steps && step.Write? ==> step.f in F
  }

  lemma {:induction false} RunKeeps(s: State, steps: seq<Step>, t: State, F: Framing)
    requires Inv(s, F) && Carries(F) && Run(s, steps, t, true) && Writes(steps, F)
    ensures Inv(t, F)
    decreases |steps|
  {
    if steps != [] {
      assert steps[0] in steps && forall step :: step in steps[1..] ==> step in steps;
      StepKeeps(s, steps[0], F);
      RunKeeps(Apply(s, steps[0]), steps[1..], t, F);
    }
  }

  /** The invariant holds in every run, whatever is written; and of whole frames if only such are. */
  lemma Reached(s: State, steps: seq<Step>, t: State)
    requires Init(s) && Run(s, steps, t, true)
    ensures Inv(t, Anything()) && (Writes(steps, AllFramed()) ==> Inv(t, AllFramed()))
  {
    BothCarry();
    RunKeeps(s, steps, t, Anything());
    if Writes(steps, AllFramed()) { RunKeeps(s, steps, t, AllFramed()); }
  }

  ghost predicate Comparable(a: string, b: string) {
    a <= b || b <= a
  }

  lemma PrefixesCompare(a: string, b: string, whole: string)
    requires a <= whole && b <= whole
    ensures Comparable(a, b)
  {
  }

  /** In every run, two servers that name the same history hold streams one of which is a prefix of
      the other; so at equal offsets they hold the same bytes. */
  lemma SameIdSameStream(s: State, steps: seq<Step>, t: State, a: NodeId, b: NodeId)
    requires Init(s) && Run(s, steps, t, true) && a in t.nodes && b in t.nodes && t.nodes[a].id == t.nodes[b].id
    ensures Comparable(t.nodes[a].hist, t.nodes[b].hist)
    ensures |t.nodes[a].hist| == |t.nodes[b].hist| ==> t.nodes[a].hist == t.nodes[b].hist
  {
    Reached(s, steps, t);
    var F := Anything();
    assert NodeOk(a, t.nodes[a], t.world, F) && NodeOk(b, t.nodes[b], t.world, F);
    PrefixesCompare(t.nodes[a].hist, t.nodes[b].hist, t.world[t.nodes[a].id].bytes);
  }

  /** The server that answers, as it is when the answer is written. */
  ghost function Answerer(s: State, c: ConnId, z: Id): Node
    requires c in s.conns && s.conns[c].dst in s.nodes
  {
    var k := s.conns[c];
    if k.failover then Shift(Stop(s.nodes[k.dst]), z) else s.nodes[k.dst]
  }

  lemma AnswererOk(s: State, c: ConnId, z: Id, F: Framing)
    requires Inv(s, F) && Enabled(s, Answer(c, z)) && Star(s, Answer(c, z)) && Live(s, c)
    requires !(s.conns[c].failover && !s.nodes[s.conns[c].dst].replica) && s.conns[c].src != s.conns[c].dst
    ensures var s' := if s.conns[c].failover then PromoteAt(s, s.conns[c].dst, z) else s;
            var v := Answerer(s, c, z);
            && NodeOk(s.conns[c].dst, v, s'.world, F) && !v.replica
            && Psync(s, c, z).conns[c] == AnswerWith(s.conns[c], v)
            && NodeOk(s.conns[c].src, s.nodes[s.conns[c].src], s'.world, F)
            && RequestOk(s.conns[c], s.nodes[s.conns[c].src], s'.world)
  {
    var k := s.conns[c];
    assert ConnOk(c, k, s.nodes[k.src], s.nodes[k.dst], s.world, F);
    if k.failover {
      PromoteKeeps(s, k.dst, z, F);
      assert NodeOk(k.src, PromoteAt(s, k.dst, z).nodes[k.src], PromoteAt(s, k.dst, z).world, F);
      assert NodeOk(k.dst, PromoteAt(s, k.dst, z).nodes[k.dst], PromoteAt(s, k.dst, z).world, F);
    }
    assert NodeOk(k.src, s.nodes[k.src], s.world, F) && NodeOk(k.dst, s.nodes[k.dst], s.world, F);
  }

  /** In every run, `+CONTINUE` sends exactly the bytes the replica lacks; and if only whole frames are
      written, both the replica's stream and the bytes sent are whole frames. */
  lemma ContinueExact(s: State, steps: seq<Step>, t: State, c: ConnId, z: Id)
    requires Init(s) && Run(s, steps, t, true) && Enabled(t, Answer(c, z)) && Star(t, Answer(c, z)) && Live(t, c)
    ensures var k := Psync(t, c, z).conns[c];
            k.header.Some? && k.header.value.Continue? ==>
              && t.nodes[k.src].hist + k.bytes == Answerer(t, c, z).hist
              && (Writes(steps, AllFramed()) ==> Framed(t.nodes[k.src].hist) && Framed(k.bytes))
  {
    Reached(s, steps, t);
    FramedClosed();
    ContinueHere(t, c, z, Anything());
    if Writes(steps, AllFramed()) { ContinueHere(t, c, z, AllFramed()); }
  }

  lemma ContinueHere(t: State, c: ConnId, z: Id, F: Framing)
    requires Inv(t, F) && Closed(F) && Enabled(t, Answer(c, z)) && Star(t, Answer(c, z)) && Live(t, c)
    ensures var k := Psync(t, c, z).conns[c];
            k.header.Some? && k.header.value.Continue? ==>
              t.nodes[k.src].hist + k.bytes == Answerer(t, c, z).hist && t.nodes[k.src].hist in F && k.bytes in F
  {
    var k := t.conns[c];
    if k.src == k.dst {
      ContinueSelf(t, c, z, F);
    } else if !(k.failover && !t.nodes[k.dst].replica) {
      var v := Answerer(t, c, z);
      AnswererOk(t, c, z, F);
      if Partial(v, k.want) {
        PartialExact(k, t.nodes[k.src], v, if k.failover then PromoteAt(t, k.dst, z).world else t.world, F);
      }
    }
  }

  /** A server that dialled itself: it lacks nothing. */
  lemma ContinueSelf(t: State, c: ConnId, z: Id, F: Framing)
    requires Inv(t, F) && Closed(F) && Enabled(t, Answer(c, z)) && Star(t, Answer(c, z)) && Live(t, c)
    requires t.conns[c].src == t.conns[c].dst
    ensures var k := Psync(t, c, z).conns[c];
            k.header.Some? && k.header.value.Continue? ==>
              t.nodes[k.src].hist + k.bytes == Answerer(t, c, z).hist && t.nodes[k.src].hist in F && k.bytes in F
  {
    var k := t.conns[c];
    assert ConnOk(c, k, t.nodes[k.src], t.nodes[k.dst], t.world, F) && NodeOk(k.src, t.nodes[k.src], t.world, F);
  }

  /** In every run, a FAILOVER request answered with `+CONTINUE` finds the two servers with the same
      bytes: nothing is sent, nothing is lost. */
  lemma FailoverSame(s: State, steps: seq<Step>, t: State, c: ConnId, z: Id)
    requires Init(s) && Run(s, steps, t, true) && Enabled(t, Answer(c, z)) && Star(t, Answer(c, z)) && Live(t, c)
    requires t.conns[c].failover
    ensures var k := Psync(t, c, z).conns[c];
            k.header.Some? && k.header.value.Continue? ==>
              k.bytes == "" && t.nodes[k.src].hist == Psync(t, c, z).nodes[k.dst].hist
  {
    Reached(s, steps, t);
    var F, k := Anything(), t.conns[c];
    var src, dst := t.nodes[k.src], t.nodes[k.dst];
    assert ConnOk(c, k, src, dst, t.world, F) && NodeOk(k.src, src, t.world, F) && NodeOk(k.dst, dst, t.world, F);
    if dst.replica && Partial(Shift(Stop(dst), z), k.want) {
      assert src.id == dst.id && |src.hist| <= |dst.hist|;
      assert dst.hist <= src.hist;
    }
  }

  /** In every run, the offset at which a master steps down was reached by its target on that link.  As
      long as the target's end of it is up, the two hold the same bytes exactly when the target has taken
      the answer to its PSYNC or has no bytes of its own, and so always when the master has any; it then
      has loaded the image and named the master's history. */
  lemma DemoteCaughtUp(s: State, steps: seq<Step>, t: State, n: NodeId, c: ConnId, c': ConnId)
    requires Init(s) && Run(s, steps, t, true) && Enabled(t, Demote(n, c, c'))
    ensures t.conns[c].got == |t.nodes[n].hist|
    ensures var m := t.conns[c].src;
            Live(t, c) ==>
              && (t.nodes[m].hist == t.nodes[n].hist <==> t.conns[c].header.None? || t.nodes[m].hist == "")
              && (t.nodes[n].hist != "" ==>
                    t.conns[c].header.None? && t.nodes[m].phase == Streaming && t.nodes[m].id == t.nodes[n].id)
  {
    Reached(s, steps, t);
    var k := t.conns[c];
    assert ConnOk(c, k, t.nodes[k.src], t.nodes[n], t.world, Anything());
    assert NodeOk(n, t.nodes[n], t.world, Anything());
  }

  /** In every run in which only frames are written that the parser takes, a replica never finds a malformed
      frame on its link. */
  lemma NeverMalformed(s: State, steps: seq<Step>, t: State, c: ConnId, k: nat)
    requires Init(s) && Run(s, steps, t, true) && Writes(steps, AllFramed()) && Streams(t, c) && k <= |t.conns[c].bytes|
    ensures Next(t.conns[c].bytes[..k]) >= 0
  {
    Reached(s, steps, t);
    var j := t.conns[c];
    assert ConnOk(c, j, t.nodes[j.src], t.nodes[j.dst], t.world, AllFramed());
    FramedTake(j.bytes, k);
  }
}
