/** The datasets behind the streams of `Replication`: when a replica's data is what its stream says. */
module Datasets {
  import opened Common
  import Requests
  import opened Replication

  /** The dataset is the one the stream started from, with the stream applied. */
  ghost predicate Whole(v: Node, w: World) {
    v.id in w && v.data == w[v.id].base + v.hist
  }

  /** An image is on its way, and until it is loaded the dataset is another one than id and offset say. */
  ghost predicate Unfinished(v: Node, w: World) {
    v.phase == Loading && !Whole(v, w)
  }

  ghost predicate NodeSound(v: Node, w: World) {
    && v.id in w && (v.phase != Loading ==> Whole(v, w)) && (!v.replica ==> v.phase == Idle)
    && (v.id2.Some? ==> v.id2.value in w && w[v.id2.value].base == w[v.id].base)
  }

  /** What is on the way to a replica keeps its dataset in step. */
  ghost predicate LinkSound(k: Conn, src: Node, w: World) {
    && src.id in w
    && match k.header
       case Some(Continue(z)) => z in w && w[z].base == w[src.id].base
       case Some(FullResync(z, h)) => z in w && k.image == w[z].base + h
       case _ => src.phase == Loading ==> k.image == w[src.id].base + src.hist
  }

  ghost predicate Sound(s: State) {
    && (forall n :: n in s.nodes ==> NodeSound(s.nodes[n], s.world))
    && (forall c :: Live(s, c) ==> LinkSound(s.conns[c], s.nodes[s.conns[c].src], s.world))
  }

  /** Every server that is not in the middle of loading has the data its id and offset say. */
  ghost predicate AllWhole(s: State) {
    forall n :: n in s.nodes && s.nodes[n].phase != Loading ==> Whole(s.nodes[n], s.world)
  }

  /** The step takes away the link of a server whose image has not been loaded: the link is lost, the image
      fails to load and leaves other data, the server is told to follow another or none, or it is promoted
      by a failover. */
  ghost predicate Tears(s: State, step: Step)
    requires Enabled(s, step)
  {
    match step
    case FailImage(c, rest) => !Whole(s.nodes[s.conns[c].src].(data := rest), s.world)
    case LoseLink(n) => Unfinished(s.nodes[n], s.world)
    case Dial(n, _, _) => Unfinished(s.nodes[n], s.world)
    case Promote(n, _) => Unfinished(s.nodes[n], s.world)
    case Answer(c, _) =>
      var k := s.conns[c];
      k.failover && s.nodes[k.dst].replica && Unfinished(s.nodes[k.dst], s.world)
    case _ => false
  }

  // ---- the steps ---------------------------------------------------------------------------------

  /** Streams keep what they started from. */
  ghost predicate SameBases(w: World, w': World) {
    forall z :: z in w ==> z in w' && w'[z].base == w[z].base
  }

  /** One server changes, and its links with it. */
  lemma NodeChange(s: State, n: NodeId, v: Node, w: World)
    requires Sound(s) && n in s.nodes && SameBases(s.world, w) && NodeSound(v, w)
    requires forall c :: Live(s, c) && s.conns[c].src == n && v.link == Some(c) ==> LinkSound(s.conns[c], v, w)
    requires v.link.None? || v.link == s.nodes[n].link
    ensures Sound(s.(nodes := s.nodes[n := v], world := w))
  {
    var s' := s.(nodes := s.nodes[n := v], world := w);
    forall c | Live(s', c) ensures LinkSound(s'.conns[c], s'.nodes[s'.conns[c].src], w) {
      assert Live(s, c);
    }
  }

  lemma ConnChange(s: State, c: ConnId, k: Conn)
    requires Sound(s) && (Live(SetConn(s, c, k), c) ==> LinkSound(k, s.nodes[k.src], s.world))
    ensures Sound(SetConn(s, c, k))
  {
    var s' := SetConn(s, c, k);
    forall c' | Live(s', c') ensures LinkSound(s'.conns[c'], s'.nodes[s'.conns[c'].src], s.world) {
      if c' != c { assert Live(s, c'); }
    }
  }

  /** One server and its link change together. */
  lemma PairChange(s: State, c: ConnId, v: Node, k: Conn)
    requires Sound(s) && Live(s, c) && k.src == s.conns[c].src && NodeSound(v, s.world)
    requires v.link.None? || (v.link == Some(c) && LinkSound(k, v, s.world))
    ensures Sound(SetPair(s, c, v, k))
  {
    var s' := SetPair(s, c, v, k);
    forall c' | Live(s', c') ensures LinkSound(s'.conns[c'], s'.nodes[s'.conns[c'].src], s'.world) {
      if c' != c { assert Live(s, c'); }
    }
  }

  lemma ExtendSound(s: State, n: NodeId, f: string)
    requires Sound(s) && n in s.nodes && !s.nodes[n].replica && s.nodes[n].link.None?
    ensures Sound(Extend(s, n, f))
  {
    var s', v := Extend(s, n, f), s.nodes[n];
    assert NodeSound(v, s.world);
    assert v.data + f == s.world[v.id].base + (v.hist + f);
    forall c | Live(s', c) ensures LinkSound(s'.conns[c], s'.nodes[s'.conns[c].src], s'.world) {
      assert Live(s, c);
    }
  }

  lemma DialSound(s: State, n: NodeId, m: NodeId, c: ConnId)
    requires Sound(s) && n in s.nodes && c !in s.conns && !Unfinished(s.nodes[n], s.world)
    ensures Sound(DialTo(s, n, m, c))
  {
    var s' := DialTo(s, n, m, c);
    assert NodeSound(s.nodes[n], s.world);
    forall c' | Live(s', c') ensures LinkSound(s'.conns[c'], s'.nodes[s'.conns[c'].src], s'.world) {
      if c' != c { assert Live(s, c'); }
    }
  }

  lemma PromoteSound(s: State, n: NodeId, z: Id)
    requires Sound(s) && n in s.nodes && z !in s.world && !Unfinished(s.nodes[n], s.world)
    ensures Sound(PromoteAt(s, n, z))
  {
    var v := s.nodes[n];
    assert NodeSound(v, s.world);
    NodeChange(s, n, Shift(Stop(v), z), PromoteAt(s, n, z).world);
  }

  lemma AnswerSound(s: State, c: ConnId, F: Framing)
    requires Inv(s, F) && Sound(s) && c in s.conns && !s.conns[c].answered && !s.nodes[s.conns[c].dst].replica
    ensures Sound(AnswerAt(s, c))
  {
    var k := s.conns[c];
    assert ConnOk(c, k, s.nodes[k.src], s.nodes[k.dst], s.world, F);
    assert NodeSound(s.nodes[k.dst], s.world) && NodeSound(s.nodes[k.src], s.world);
    ConnChange(s, c, AnswerWith(k, s.nodes[k.dst]));
  }

  lemma PsyncSound(s: State, c: ConnId, z: Id, F: Framing)
    requires Inv(s, F) && Sound(s) && Enabled(s, Answer(c, z)) && Star(s, Answer(c, z)) && !Tears(s, Answer(c, z))
    ensures Sound(Psync(s, c, z))
  {
    var k := s.conns[c];
    if k.failover && !s.nodes[k.dst].replica {
      assert NodeSound(s.nodes[k.src], s.world);
      assert Live(s, c) ==> LinkSound(k, s.nodes[k.src], s.world);
      ConnChange(s, c, k.(answered := true, header := Some(Error)));
    } else if k.failover {
      PromoteKeeps(s, k.dst, z, F);
      PromoteSound(s, k.dst, z);
      AnswerSound(PromoteAt(s, k.dst, z), c, F);
    } else {
      AnswerSound(s, c, F);
    }
  }

  lemma HeaderSound(s: State, c: ConnId, F: Framing)
    requires Inv(s, F) && Sound(s) && Live(s, c) && s.conns[c].header.Some?
    ensures Sound(TakeLine(s, c))
  {
    var k := s.conns[c];
    var v := s.nodes[k.src];
    assert NodeSound(v, s.world) && LinkSound(k, v, s.world) && NodeOk(k.src, v, s.world, F);
    assert ConnOk(c, k, v, s.nodes[k.dst], s.world, F);
    var v' := Header'(v, k.header.value);
    PairChange(s, c, v', k.(header := None, got := if v'.phase == Streaming then |v'.hist| else 0));
  }

  lemma ImageSound(s: State, c: ConnId, F: Framing)
    requires Inv(s, F) && Sound(s) && Enabled(s, TakeImage(c))
    ensures Sound(LoadImage(s, c))
  {
    var k := s.conns[c];
    var v := s.nodes[k.src];
    assert NodeSound(v, s.world) && LinkSound(k, v, s.world) && NodeOk(k.src, v, s.world, F);
    assert ConnOk(c, k, v, s.nodes[k.dst], s.world, F);
    var v' := v.(data := k.image, phase := Streaming);
    PairChange(s, c, v', k.(got := |v'.hist|));
  }

  lemma FrameSound(s: State, c: ConnId, n: nat, F: Framing)
    requires Inv(s, F) && Sound(s) && Streams(s, c) && n <= |s.conns[c].bytes|
    ensures Sound(TakeBytes(s, c, n))
  {
    var k := s.conns[c];
    var v, f := s.nodes[k.src], k.bytes[..n];
    assert ConnOk(c, k, v, s.nodes[k.dst], s.world, F) && NodeSound(v, s.world) && NodeOk(k.src, v, s.world, F);
    assert v.data + f == s.world[v.id].base + (v.hist + f);
    var v' := Feed(v, f);
    PairChange(s, c, v', k.(bytes := k.bytes[n..], got := |v'.hist|));
  }

  lemma UnlinkSound(s: State, n: NodeId, data: string)
    requires Sound(s) && n in s.nodes && Whole(s.nodes[n].(data := data), s.world)
    ensures Sound(Unlink(s, n, data))
  {
    var v := s.nodes[n].(link := None, phase := Idle, data := data);
    assert NodeSound(s.nodes[n], s.world);
    NodeChange(s, n, v, s.world);
    assert s.(nodes := s.nodes[n := v], world := s.world) == Unlink(s, n, data);
  }

  lemma PlanSound(s: State, n: NodeId, fo: Failover)
    requires Sound(s) && n in s.nodes
    ensures Sound(SetFailover(s, n, fo))
  {
    var v := s.nodes[n].(failover := fo);
    assert NodeSound(s.nodes[n], s.world);
    NodeChange(s, n, v, s.world);
    assert s.(nodes := s.nodes[n := v], world := s.world) == SetFailover(s, n, fo);
  }

  lemma DropSound(s: State, n: NodeId)
    requires Sound(s)
    ensures Sound(DropReplicas(s, n))
  {
    var s' := DropReplicas(s, n);
    forall c | Live(s', c) ensures LinkSound(s'.conns[c], s'.nodes[s'.conns[c].src], s'.world) {
      assert Live(s, c);
    }
  }

  lemma AckSound(s: State, step: Step)
    requires Sound(s) && Enabled(s, step) && (step.SendAck? || step.RecvAck? || step.LoseReplica?)
    ensures Sound(Apply(s, step))
  {
    var c := step.c;
    var k := s.conns[c];
    assert Live(s, c) ==> LinkSound(k, s.nodes[k.src], s.world);
    match step
    case SendAck(_) => ConnChange(s, c, k.(acks := k.acks + [|s.nodes[k.src].hist|]));
    case RecvAck(_) => ConnChange(s, c, k.(ack := k.acks[0], acks := k.acks[1..]));
    case LoseReplica(_) => ConnChange(s, c, k.(attached := false, closed := true));
    case _ =>
  }

  lemma HandoverSound(s: State, step: Step, F: Framing)
    requires Inv(s, F) && Sound(s) && Enabled(s, step) && (step.Demote? || step.DemoteFails?)
    ensures Sound(Apply(s, step))
  {
    var n, c := step.n, step.c;
    assert ConnOk(c, s.conns[c], s.nodes[s.conns[c].src], s.nodes[n], s.world, F);
    DropSound(s, n);
    var fo := if step.Demote? then InProgress else NoFailover;
    PlanSound(DropReplicas(s, n), n, fo);
    if step.Demote? {
      assert NodeSound(s.nodes[n], s.world);
      DialSound(SetFailover(DropReplicas(s, n), n, fo), n, s.conns[c].src, step.c');
    }
  }

  lemma StreamSound(s: State, step: Step, F: Framing)
    requires Inv(s, F) && Sound(s) && Enabled(s, step) && (step.Write? || step.Ping?)
    ensures Sound(Apply(s, step))
  {
    var n := step.n;
    assert NodeOk(n, s.nodes[n], s.world, F);
    if step.Ping? {
      var c :| HasReplica(s, n, c);
      assert ConnOk(c, s.conns[c], s.nodes[s.conns[c].src], s.nodes[n], s.world, F);
    }
    ExtendSound(s, n, if step.Write? then step.f else PingFrame);
  }

  lemma StepSound(s: State, step: Step, F: Framing)
    requires Inv(s, F) && Sound(s) && Enabled(s, step) && Star(s, step) && !Tears(s, step)
    ensures Sound(Apply(s, step))
  {
    match step
    case Write(_, _) => StreamSound(s, step, F);
    case Ping(_) => StreamSound(s, step, F);
    case Dial(n, m, c) => DialSound(s, n, m, c);
    case Promote(n, z) => PromoteSound(s, n, z);
    case Answer(c, z) => PsyncSound(s, c, z, F);
    case TakeHeader(c) => HeaderSound(s, c, F);
    case TakeImage(c) => ImageSound(s, c, F);
    case TakeFrame(c, k) => FrameSound(s, c, Requests.Next(s.conns[c].bytes[..k]), F);
    case SendAck(_) => AckSound(s, step);
    case RecvAck(_) => AckSound(s, step);
    case FailImage(c, rest) => UnlinkSound(s, s.conns[c].src, rest);
    case LoseLink(n) => assert NodeSound(s.nodes[n], s.world); UnlinkSound(s, n, s.nodes[n].data);
    case LoseReplica(_) => AckSound(s, step);
    case StartFailover(n, t) => PlanSound(s, n, WaitForSync(t));
    case AbortFailover(n) => PlanSound(s, n, NoFailover);
    case Demote(_, _, _) => HandoverSound(s, step, F);
    case DemoteFails(_, _) => HandoverSound(s, step, F);
  }

  /** The server that a tearing step leaves with data that is not its stream's. */
  lemma TornBy(s: State, step: Step, F: Framing) returns (n: NodeId)
    requires Inv(s, F) && Enabled(s, step) && Tears(s, step)
    ensures var s' := Apply(s, step); n in s'.nodes && s'.nodes[n].phase != Loading && !Whole(s'.nodes[n], s'.world)
  {
    match step
    case FailImage(c, _) => n := s.conns[c].src;
    case LoseLink(m) => n := m;
    case Dial(m, _, _) => n := m;
    case Promote(m, _) => n := m; assert NodeOk(n, s.nodes[n], s.world, F);
    case Answer(c, _) => n := s.conns[c].dst; assert NodeOk(n, s.nodes[n], s.world, F);
  }

  /** From data that follows the streams, a step leads to such data exactly when it tears no link from
      under a server that has not loaded its image. */
  lemma WholeExact(s: State, step: Step)
    requires Inv(s, Anything()) && Sound(s) && Enabled(s, step) && Star(s, step)
    ensures AllWhole(Apply(s, step)) <==> !Tears(s, step)
    ensures !Tears(s, step) ==> Sound(Apply(s, step))
  {
    var F := Anything();
    if Tears(s, step) {
      var n := TornBy(s, step, F);
    } else {
      StepSound(s, step, F);
      var s' := Apply(s, step);
      forall n | n in s'.nodes && s'.nodes[n].phase != Loading ensures Whole(s'.nodes[n], s'.world) {
        assert NodeSound(s'.nodes[n], s'.world);
      }
    }
  }

  /** What can be told from outside: the step takes the link of a server that is loading, or what it loads is
      not an image. */
  predicate Interrupts(s: State, step: Step) {
    match step
    case FailImage(_, _) => true
    case LoseLink(n) => n in s.nodes && s.nodes[n].phase == Loading
    case Dial(n, _, _) => n in s.nodes && s.nodes[n].phase == Loading
    case Promote(n, _) => n in s.nodes && s.nodes[n].phase == Loading
    case Answer(c, _) => c in s.conns && s.conns[c].failover && s.conns[c].dst in s.nodes
                         && s.nodes[s.conns[c].dst].phase == Loading
    case _ => false
  }

  lemma UninterruptedSound(s: State, step: Step)
    requires Inv(s, Anything()) && Sound(s) && Enabled(s, step) && Star(s, step) && !Interrupts(s, step)
    ensures Sound(Apply(s, step)) && AllWhole(Apply(s, step))
  {
    WholeExact(s, step);
  }

  // ---- runs ----------------------------------------------------------------------------------------

  /** No step of the run tears a link from under a server that is loading. */
  ghost predicate Untorn(s: State, steps: seq<Step>)
    decreases |steps|
  {
    steps == [] ||
    (IdsKnown(s) && Enabled(s, steps[0]) && !Tears(s, steps[0]) && Untorn(Apply(s, steps[0]), steps[1..]))
  }

  lemma {:induction false} RunSound(s: State, steps: seq<Step>, t: State)
    requires Inv(s, Anything()) && Sound(s) && Run(s, steps, t, true) && Untorn(s, steps)
    ensures Sound(t)
    decreases |steps|
  {
    if steps != [] {
      BothCarry();
      StepKeeps(s, steps[0], Anything());
      StepSound(s, steps[0], Anything());
      RunSound(Apply(s, steps[0]), steps[1..], t);
    }
  }

  lemma InitSound(s: State)
    requires Init(s)
    ensures Sound(s) && Inv(s, Anything())
  {
    Reached(s, [], s);
    forall n | n in s.nodes ensures NodeSound(s.nodes[n], s.world) {
      assert s.nodes[n].data + "" == s.nodes[n].data;
    }
  }

  /** In every run that tears no link from under a loading server, each server that is not loading has
      the data its author started from with its stream applied. */
  lemma DataFollows(s: State, steps: seq<Step>, t: State, n: NodeId)
    requires Init(s) && Run(s, steps, t, true) && Untorn(s, steps) && n in t.nodes && t.nodes[n].phase != Loading
    ensures Whole(t.nodes[n], t.world)
  {
    InitSound(s);
    RunSound(s, steps, t);
    assert NodeSound(t.nodes[n], t.world);
  }

  /** No step of the run takes the link of a server that is loading. */
  ghost predicate Uninterrupted(s: State, steps: seq<Step>)
    decreases |steps|
  {
    steps == [] ||
    (IdsKnown(s) && Enabled(s, steps[0]) && !Interrupts(s, steps[0]) && Uninterrupted(Apply(s, steps[0]), steps[1..]))
  }

  /** Such a run is as good as one that tears nothing. */
  lemma {:induction false} UninterruptedUntorn(s: State, steps: seq<Step>)
    requires Uninterrupted(s, steps)
    ensures Untorn(s, steps)
    decreases |steps|
  {
    if steps != [] { UninterruptedUntorn(Apply(s, steps[0]), steps[1..]); }
  }

  /** So two servers at the same offset of the same history have the same data. */
  lemma SameOffsetSameData(s: State, steps: seq<Step>, t: State, a: NodeId, b: NodeId)
    requires Init(s) && Run(s, steps, t, true) && Untorn(s, steps) && a in t.nodes && b in t.nodes
    requires t.nodes[a].phase != Loading && t.nodes[b].phase != Loading
    requires t.nodes[a].id == t.nodes[b].id && |t.nodes[a].hist| == |t.nodes[b].hist|
    ensures t.nodes[a].data == t.nodes[b].data
  {
    DataFollows(s, steps, t, a);
    DataFollows(s, steps, t, b);
    SameIdSameStream(s, steps, t, a, b);
  }

  /** And a handover to a target whose link is up and whose master had something to hand over finds the
      target with the master's data. */
  lemma DemoteSameData(s: State, steps: seq<Step>, t: State, n: NodeId, c: ConnId, c': ConnId)
    requires Init(s) && Run(s, steps, t, true) && Untorn(s, steps) && Enabled(t, Demote(n, c, c'))
    requires Live(t, c) && t.nodes[n].hist != ""
    ensures t.nodes[t.conns[c].src].data == t.nodes[n].data
  {
    var m := t.conns[c].src;
    DemoteCaughtUp(s, steps, t, n, c, c');
    Reached(s, steps, t);
    InitSound(s);
    RunSound(s, steps, t);
    assert ConnOk(c, t.conns[c], t.nodes[m], t.nodes[n], t.world, Anything()) && NodeSound(t.nodes[n], t.world);
    SameOffsetSameData(s, steps, t, m, n);
  }

  /** And a demoted master that its successor tells to continue has the successor's data, unless the
      promotion itself tore the link of a loading server. */
  lemma FailoverSameData(s: State, steps: seq<Step>, t: State, c: ConnId, z: Id)
    requires Init(s) && Run(s, steps, t, true) && Untorn(s, steps) && Enabled(t, Answer(c, z)) && Star(t, Answer(c, z))
    requires Live(t, c)
    requires t.conns[c].failover && !Tears(t, Answer(c, z))
    ensures var t' := Psync(t, c, z); var k := t'.conns[c];
            k.header.Some? && k.header.value.Continue? ==> t.nodes[k.src].data == t'.nodes[k.dst].data
  {
    var k := t.conns[c];
    var src, dst := t.nodes[k.src], t.nodes[k.dst];
    FailoverSame(s, steps, t, c, z);
    Reached(s, steps, t);
    InitSound(s);
    RunSound(s, steps, t);
    assert ConnOk(c, k, src, dst, t.world, Anything()) && NodeSound(src, t.world) && NodeSound(dst, t.world);
  }
}
