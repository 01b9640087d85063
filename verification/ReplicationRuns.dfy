/** Runs of three servers that show where a promise of `Replication` ends. */
module ReplicationRuns {
  import opened Common
  import opened Resp
  import opened Replication

  function Fresh(id: Id): Node {
    Node(id, None, 0, "", "", 0, 1024, false, None, Idle, NoFailover)
  }

  const Servers := State(map[0 := Fresh(10), 1 := Fresh(11), 2 := Fresh(12)], map[],
                         map[10 := Stream("", 0, ""), 11 := Stream("", 1, ""), 12 := Stream("", 2, "")])

  const SetFrame := Encode(["SET", "k", "v"])

  lemma ShortArg(a: string, more: Args)
    requires |a| < 10
    ensures |EncodeArgs([a] + more)| == |a| + 6 + |EncodeArgs(more)|
  {
    assert ([a] + more)[1..] == more;
    assert |Decimal(|a|)| == 1;
  }

  lemma SetShort()
    ensures |SetFrame| < 100 && SetFrame[1] == '3'
  {
    ShortArg("v", []);
    ShortArg("k", ["v"]);
    ShortArg("SET", ["k", "v"]);
    assert ["SET"] + ["k", "v"] == ["SET", "k", "v"] && ["k"] + ["v"] == ["k", "v"] && ["v"] + [] == ["v"];
    assert Decimal(3) == "3";
  }

  lemma SetIsNotPing()
    ensures !Comparable(PingFrame, SetFrame)
  {
    SetShort();
    assert Decimal(1) == "1";
    assert PingFrame[1] == '1';
  }

  ghost predicate Hop(s: State, step: Step, t: State, star: bool) {
    IdsKnown(s) && Enabled(s, step) && (star ==> Star(s, step)) && Apply(s, step) == t
  }

  lemma {:induction false} RunThen(s: State, steps: seq<Step>, t: State, step: Step, t': State, star: bool)
    requires Run(s, steps, t, star) && Hop(t, step, t', star)
    ensures Run(s, steps + [step], t', star)
    decreases |steps|
  {
    if steps == [] {
      assert [step][1..] == [] && steps + [step] == [step];
    } else {
      RunThen(Apply(s, steps[0]), steps[1..], t, step, t', star);
      assert (steps + [step])[1..] == steps[1..] + [step];
    }
  }

  /** Some run leads from the three fresh servers to t; with `star`, within the star. */
  ghost predicate Reachable(t: State, star: bool) {
    exists steps :: Run(Servers, steps, t, star)
  }

  lemma Start(star: bool)
    ensures Init(Servers) && Reachable(Servers, star)
  {
    assert Run(Servers, [], Servers, star);
  }

  lemma ReachThen(t: State, step: Step, t': State, star: bool)
    requires Reachable(t, star) && Hop(t, step, t', star)
    ensures Reachable(t', star)
  {
    var steps :| Run(Servers, steps, t, star);
    RunThen(Servers, steps, t, step, t', star);
  }

  // ---- outside the star ---------------------------------------------------------------------------

  /** Server 2 becomes a replica of server 0. */
  lemma ChainStart() returns (s2: State)
    ensures Reachable(s2, false)
    ensures 2 in s2.nodes && s2.nodes == Servers.nodes[2 := s2.nodes[2]] && s2.world == Servers.world
    ensures s2.nodes[2].id == 12
    ensures s2.conns.Keys == {0} && HasReplica(s2, 0, 0)
  {
    var s1 := DialTo(Servers, 2, 0, 0);
    s2 := Psync(s1, 0, 20);
    Start(false);
    ReachThen(Servers, Dial(2, 0, 0), s1, false);
    ReachThen(s1, Answer(0, 20), s2, false);
  }

  /** Server 0, which has a replica, is told to follow server 1 ... */
  lemma ChainOn(s2: State) returns (s4: State)
    requires Reachable(s2, false)
    requires s2.nodes.Keys == {0, 1, 2} && s2.nodes[0] == Fresh(10) && s2.nodes[1] == Fresh(11) && s2.nodes[2].id == 12
    requires s2.world == Servers.world && s2.conns.Keys == {0} && HasReplica(s2, 0, 0)
    ensures Reachable(s4, false) && IdsKnown(s4) && s4.nodes.Keys == {0, 1, 2} && s4.nodes[1] == Fresh(11)
    ensures 11 in s4.world
    ensures HasReplica(s4, 0, 0) && Live(s4, 1) && s4.conns[1].src == 0
    ensures s4.conns[1].header == Some(FullResync(11, ""))
  {
    var s3 := DialTo(s2, 0, 1, 1);
    ReachThen(s2, Dial(0, 1, 1), s3, false);
    s4 := Psync(s3, 1, 21);
    ReachThen(s3, Answer(1, 21), s4, false);
  }

  /** ... and takes its answer. */
  lemma ChainTake(s4: State) returns (s5: State)
    requires Reachable(s4, false) && IdsKnown(s4) && s4.nodes.Keys == {0, 1, 2} && s4.nodes[1] == Fresh(11)
    requires 11 in s4.world
    requires HasReplica(s4, 0, 0) && Live(s4, 1) && s4.conns[1].src == 0
    requires s4.conns[1].header == Some(FullResync(11, ""))
    ensures Reachable(s5, false) && IdsKnown(s5) && HasReplica(s5, 0, 0)
    ensures s5.nodes.Keys == {0, 1, 2} && s5.nodes[0].id == 11 && s5.nodes[0].hist == "" && s5.nodes[1] == Fresh(11)
  {
    s5 := TakeLine(s4, 1);
    ReachThen(s4, TakeHeader(1), s5, false);
  }

  /** The keepalive goes into the follower's stream. */
  lemma PingHop(s: State) returns (s': State)
    requires Reachable(s, false) && 0 in s.nodes && IdsKnown(s) && HasReplica(s, 0, 0) && s.nodes[0].hist == ""
    ensures Reachable(s', false) && 0 in s'.nodes && s'.nodes == s.nodes[0 := s'.nodes[0]] && IdsKnown(s')
    ensures s'.nodes[0].id == s.nodes[0].id && s'.nodes[0].hist == PingFrame
  {
    var p := PingFrame;
    s' := Extend(s, 0, p);
    assert "" + p == p;
    ReachThen(s, Ping(0), s', false);
  }

  /** A write goes into the master's. */
  lemma WriteHop(s: State, f: string) returns (s': State)
    requires Reachable(s, false) && 1 in s.nodes && IdsKnown(s) && s.nodes[1] == Fresh(11)
    ensures Reachable(s', false) && 1 in s'.nodes && s'.nodes == s.nodes[1 := s'.nodes[1]]
    ensures s'.nodes[1].id == 11 && s'.nodes[1].hist == f
  {
    s' := Extend(s, 1, f);
    assert "" + f == f;
    ReachThen(s, Write(1, f), s', false);
  }

  /** Without the star the agreement fails: a master that is told to follow another while it has a
      replica of its own keeps feeding keepalives into the stream it adopted. */
  lemma StarNeeded() returns (t: State)
    ensures Init(Servers) && Reachable(t, false)
    ensures {0, 1} <= t.nodes.Keys && t.nodes[0].id == t.nodes[1].id && !Comparable(t.nodes[0].hist, t.nodes[1].hist)
  {
    Start(false);
    t := ChainStart();
    t := ChainOn(t);
    t := ChainTake(t);
    t := PingHop(t);
    t := WriteHop(t, SetFrame);
    SetIsNotPing();
  }

  // ---- within the star: pieces of runs ---------------------------------------------------------------

  /** What the pieces below keep track of. */
  ghost predicate At(s: State) {
    Reachable(s, true) && s.nodes.Keys == {0, 1, 2} && s.world.Keys == {10, 11, 12} && IdsKnown(s)
  }

  ghost predicate Master(s: State, n: NodeId) {
    n in s.nodes && !s.nodes[n].replica && s.nodes[n].failover.NoFailover?
  }

  /** A fresh server writes its first command. */
  lemma Wrote(n: NodeId) returns (s: State, f: string)
    requires n in {0, 1, 2}
    ensures At(s) && s.conns == map[] && s.nodes == Servers.nodes[n := s.nodes[n]] && f != ""
    ensures s.nodes[n] == Feed(Servers.nodes[n], f) && s.nodes[n].hist == f == s.nodes[n].data
  {
    f := AFrame();
    s := WroteThis(n, f);
  }

  lemma AFrame() returns (f: string)
    ensures f != ""
  {
    SetShort();
    f := SetFrame;
  }

  lemma WroteThis(n: NodeId, f: string) returns (s: State)
    requires n in {0, 1, 2}
    ensures At(s) && s.conns == map[] && s.nodes == Servers.nodes[n := s.nodes[n]]
    ensures s.nodes[n] == Feed(Servers.nodes[n], f) && s.nodes[n].hist == f == s.nodes[n].data
  {
    Start(true);
    s := Extend(Servers, n, f);
    assert "" + f == f;
    ReachThen(Servers, Write(n, f), s, true);
  }

  /** m dials n, and n answers. */
  lemma Dialled(s: State, m: NodeId, n: NodeId, c: ConnId) returns (s': State)
    requires At(s) && m in s.nodes && Master(s, n) && m != n && c !in s.conns && s.nodes[m].failover.NoFailover?
    requires forall c' :: !HasReplica(s, m, c')
    ensures At(s') && s'.nodes == s.nodes[m := s.nodes[m].(replica := true, phase := Handshake, link := Some(c))]
    ensures s'.world == s.world && c in s'.conns && s'.conns == s.conns[c := s'.conns[c]]
    ensures var v := s.nodes[n];
            var want := if s.nodes[m].replica then Some((s.nodes[m].id, |s.nodes[m].hist| + 1)) else None;
            s'.conns[c] == AnswerWith(Conn(m, n, want, false, false, None, "", "", false, false, [], 0, 0), v)
  {
    var s1 := DialTo(s, m, n, c);
    ReachThen(s, Dial(m, n, c), s1, true);
    s' := Psync(s1, c, 20);
    ReachThen(s1, Answer(c, 20), s', true);
  }

  /** The replica takes the answer, ... */
  lemma TookAnswer(s: State, c: ConnId) returns (s': State)
    requires At(s) && Live(s, c) && s.conns[c].header.Some? && !s.conns[c].header.value.Error?
    requires s.conns[c].header.value.id in s.world
    ensures At(s') && s' == TakeLine(s, c) && Live(s', c)
  {
    s' := TakeLine(s, c);
    ReachThen(s, TakeHeader(c), s', true);
  }

  /** ... loads the image, ... */
  lemma TookImage(s: State, c: ConnId) returns (s': State)
    requires At(s) && Enabled(s, TakeImage(c))
    ensures At(s') && s' == LoadImage(s, c) && Streams(s', c)
  {
    s' := LoadImage(s, c);
    ReachThen(s, TakeImage(c), s', true);
  }

  /** ... and says how far it is. */
  lemma Acked(s: State, c: ConnId) returns (s': State)
    requires At(s) && Streams(s, c) && !s.conns[c].closed && s.conns[c].acks == []
    ensures At(s') && s' == SetConn(s, c, s.conns[c].(ack := |s.nodes[s.conns[c].src].hist|))
  {
    var k := s.conns[c];
    var n := |s.nodes[k.src].hist|;
    var s1 := SetConn(s, c, k.(acks := k.acks + [n]));
    ReachThen(s, SendAck(c), s1, true);
    s' := SetConn(s1, c, s1.conns[c].(ack := n, acks := []));
    assert [n][1..] == [] && k.acks + [n] == [n];
    ReachThen(s1, RecvAck(c), s', true);
    assert s'.conns == s.conns[c := k.(ack := n)];
  }

  lemma AskedFor(s: State, n: NodeId, c: ConnId) returns (s': State)
    requires At(s) && Master(s, n) && HasReplica(s, n, c)
    ensures At(s') && s' == SetFailover(s, n, WaitForSync(s.conns[c].src))
  {
    s' := SetFailover(s, n, WaitForSync(s.conns[c].src));
    ReachThen(s, StartFailover(n, s.conns[c].src), s', true);
  }

  // ---- a handover to a target that does not hold the stream -------------------------------------------

  /** A master that has written nothing hands over at once to a replica that has not even taken the answer
      to its PSYNC: the link is up, and the target still has its own history and its own bytes. */
  lemma EarlyHandover() returns (t: State)
    ensures Init(Servers) && Reachable(t, true) && Enabled(t, Demote(0, 0, 1)) && Live(t, 0) && t.conns[0].src == 2
    ensures t.nodes[0].hist == "" != t.nodes[2].hist && t.nodes[2].id != t.nodes[0].id
  {
    Start(true);
    var s1, _ := Wrote(2);
    var s2 := Dialled(s1, 2, 0, 0);
    t := AskedFor(s2, 0, 0);
  }

  /** The same with a master that has written: the replica caught up, said so, and then followed another
      server, which the master has not noticed. */
  lemma StaleHandover() returns (t: State)
    ensures Init(Servers) && Reachable(t, true) && Enabled(t, Demote(0, 0, 2)) && !Live(t, 0) && t.conns[0].src == 2
    ensures t.nodes[0].hist != "" == t.nodes[2].hist && t.nodes[2].id != t.nodes[0].id
  {
    Start(true);
    var s := CaughtUp();
    s := MovedOn(s);
    t := AskedFor(s, 0, 0);
  }

  /** The replica follows server 1 and takes its answer. */
  lemma MovedOn(s: State) returns (s': State)
    requires At(s) && s.conns.Keys == {0} && HasReplica(s, 0, 0) && s.conns[0].src == 2
    requires Master(s, 0) && s.nodes[1] == Fresh(11)
    requires s.nodes[2].id == 10 && s.nodes[2].replica && s.nodes[2].failover.NoFailover?
    ensures At(s') && s'.conns.Keys == {0, 1} && s'.conns[0] == s.conns[0] && s'.nodes[0] == s.nodes[0]
    ensures s'.nodes[2].hist == "" && s'.nodes[2].id == 11 && s'.nodes[2].link == Some(1)
  {
    var s1 := Dialled(s, 2, 1, 1);
    s' := TookAnswer(s1, 1);
  }

  /** Server 2 has taken the answer of server 0, which has written f, and waits for the image. */
  lemma Adopted() returns (s: State, f: string)
    ensures At(s) && s.conns.Keys == {0} && HasReplica(s, 0, 0) && s.conns[0].src == 2 && Live(s, 0) && f != ""
    ensures s.conns[0].acks == [] && !s.conns[0].closed && s.conns[0].image == f
    ensures Master(s, 0) && s.nodes[0].id == 10 && s.nodes[0].hist == f == s.nodes[0].data && s.nodes[0].cap > 0
    ensures s.conns[0].bytes == ""
    ensures s.nodes[1] == Fresh(11)
    ensures s.nodes[2].id == 10 && s.nodes[2].hist == f && s.nodes[2].data == "" && s.nodes[2].phase == Loading
    ensures s.nodes[2].replica && s.nodes[2].failover.NoFailover?
  {
    var s1, g := Wrote(0);
    var s2 := Dialled(s1, 2, 0, 0);
    s := TookAnswer(s2, 0);
    f := g;
  }

  lemma CaughtUp() returns (s: State)
    ensures At(s) && s.conns.Keys == {0} && HasReplica(s, 0, 0) && s.conns[0].src == 2
    ensures Master(s, 0) && s.nodes[0].hist != "" && s.conns[0].ack == |s.nodes[0].hist| && s.nodes[0].id == 10
    ensures s.nodes[1] == Fresh(11)
    ensures s.nodes[2].id == 10 && s.nodes[2].replica && s.nodes[2].failover.NoFailover?
  {
    var s1, f := Adopted();
    var s2 := TookImage(s1, 0);
    s := Acked(s2, 0);
  }

  // ---- an image that never arrives ----------------------------------------------------------------------

  /** A replica adopts the master's id and offset before the image is there.  If the link is lost then, the
      next PSYNC asks for nothing and is told to continue: master and replica name the same history at the
      same offset, the replica streams, and it does not have the data. */
  lemma LostImage() returns (t: State)
    ensures Init(Servers) && Reachable(t, true) && Follows(t) && t.nodes[0].data != "" == t.nodes[2].data
  {
    Start(true);
    var s := Interrupted(LoseLink(2), "");
    t := Redialled(s);
  }

  /** The same if the image arrives and fails to load, whatever is there by then. */
  lemma FailedImage(rest: string) returns (t: State)
    ensures Init(Servers) && Reachable(t, true) && Follows(t) && t.nodes[0].data != "" && t.nodes[2].data == rest
  {
    Start(true);
    var s := Interrupted(FailImage(0, rest), rest);
    t := Redialled(s);
  }

  /** Server 2 streams from server 0, and they name the same history at the same offset. */
  ghost predicate Follows(t: State) {
    && {0, 2} <= t.nodes.Keys && Streams(t, 1) && t.conns[1].src == 2 && t.conns[1].dst == 0
    && t.nodes[0].id == t.nodes[2].id && t.nodes[0].hist == t.nodes[2].hist && t.conns[1].bytes == ""
  }

  /** Server 2 has taken the answer of server 0, and lost the link. */
  ghost predicate Cut(s: State, rest: string) {
    && At(s) && s.conns.Keys == {0} && s.conns[0].dst == 0 && Master(s, 0) && s.nodes[0].id == 10 && s.nodes[0].cap > 0
    && s.nodes[0].hist == s.nodes[0].data == s.nodes[2].hist != ""
    && s.nodes[2].id == 10 && s.nodes[2].data == rest && s.nodes[2].replica && s.nodes[2].failover.NoFailover?
  }

  lemma Redialled(s: State) returns (t: State)
    requires 2 in s.nodes && Cut(s, s.nodes[2].data)
    ensures Reachable(t, true) && Follows(t) && t.nodes[0].data != "" && t.nodes[2].data == s.nodes[2].data
  {
    var v := s.nodes[0];
    var s1 := Dialled(s, 2, 0, 1);
    assert v.hist[|v.hist|..] == "" && Partial(v, s1.conns[1].want);
    t := TookAnswer(s1, 1);
  }

  lemma Interrupted(step: Step, rest: string) returns (s: State)
    requires step == FailImage(0, rest) || (step == LoseLink(2) && rest == "")
    ensures Cut(s, rest)
  {
    var s1, f := Adopted();
    s := Unlink(s1, 2, rest);
    ReachThen(s1, step, s, true);
  }
}
