/** When a replica that comes back is continued instead of being sent a whole new image. */
module Resync {
  import opened Common
  import opened Requests
  import opened Replication

  /** The answering server names the replica's history, or retired it no earlier than where the replica is,
      and still has every byte the replica lacks. */
  ghost predicate CanContinue(src: Node, v: Node) {
    && (src.id == v.id || (v.id2 == Some(src.id) && |src.hist| < v.second))
    && v.cap > 0 && |src.hist| <= |v.hist| <= |src.hist| + v.histlen
  }

  /** In every run, a replica that says where it is is told to continue exactly when the answering server can
      continue it, and else is sent the stream's id and offset and the dataset. */
  lemma ContinueGranted(s: State, steps: seq<Step>, t: State, c: ConnId, z: Id)
    requires Init(s) && Run(s, steps, t, true) && Enabled(t, Answer(c, z)) && Star(t, Answer(c, z)) && Live(t, c)
    requires t.conns[c].failover ==> t.nodes[t.conns[c].dst].replica
    ensures var k, v := Psync(t, c, z).conns[c], Answerer(t, c, z);
            k.answered && k.attached &&
            if t.conns[c].want.Some? && CanContinue(t.nodes[k.src], v) then
              k.header == Some(Continue(v.id)) && |k.bytes| == |v.hist| - |t.nodes[k.src].hist|
            else
              k.header == Some(FullResync(v.id, v.hist)) && k.image == v.data && k.bytes == ""
  {
    Reached(s, steps, t);
    GrantedHere(t, c, z);
  }

  lemma GrantedHere(t: State, c: ConnId, z: Id)
    requires Inv(t, Anything()) && Enabled(t, Answer(c, z)) && Star(t, Answer(c, z)) && Live(t, c)
    requires t.conns[c].failover ==> t.nodes[t.conns[c].dst].replica
    ensures var k, v := Psync(t, c, z).conns[c], Answerer(t, c, z);
            k.answered && k.attached &&
            if t.conns[c].want.Some? && CanContinue(t.nodes[k.src], v) then
              k.header == Some(Continue(v.id)) && |k.bytes| == |v.hist| - |t.nodes[k.src].hist|
            else
              k.header == Some(FullResync(v.id, v.hist)) && k.image == v.data && k.bytes == ""
  {
    var k := t.conns[c];
    assert ConnOk(c, k, t.nodes[k.src], t.nodes[k.dst], t.world, Anything());
  }

  /** In every run, a server that dials a master is continued exactly if it was a replica before and the
      master can continue it; one that was none takes the master's history and data whole. */
  lemma DialContinues(s: State, steps: seq<Step>, t: State, n: NodeId, m: NodeId, c: ConnId, z: Id)
    requires Init(s) && Run(s, steps, t, true) && Enabled(t, Dial(n, m, c)) && Star(t, Dial(n, m, c)) && z !in t.world
    requires n != m && !t.nodes[m].replica && !t.nodes[n].failover.InProgress?
    ensures var t' := DialTo(t, n, m, c);
            var k, v := Psync(t', c, z).conns[c], t.nodes[m];
            k.header == Some(if t.nodes[n].replica && CanContinue(t.nodes[n], v) then Continue(v.id)
                             else FullResync(v.id, v.hist))
  {
    Reached(s, steps, t);
    DialKeeps(t, n, m, c, Anything());
    GrantedHere(DialTo(t, n, m, c), c, z);
  }

  /** In every run, a demoted master is told to continue exactly when the successor names its history, holds its
      bytes, all of them and no more, and keeps a backlog. */
  lemma FailoverGranted(s: State, steps: seq<Step>, t: State, c: ConnId, z: Id)
    requires Init(s) && Run(s, steps, t, true) && Enabled(t, Answer(c, z)) && Star(t, Answer(c, z)) && Live(t, c)
    requires t.conns[c].failover && t.nodes[t.conns[c].dst].replica
    ensures var k, src, dst := Psync(t, c, z).conns[c], t.nodes[t.conns[c].src], t.nodes[t.conns[c].dst];
            k.header == Some(Continue(z)) <==> dst.id == src.id && dst.hist == src.hist && dst.cap > 0
  {
    Reached(s, steps, t);
    var k := t.conns[c];
    assert ConnOk(c, k, t.nodes[k.src], t.nodes[k.dst], t.world, Anything());
    ContinueGranted(s, steps, t, c, z);
    FailoverSame(s, steps, t, c, z);
  }

  // ---- what a replica that lags may count on -------------------------------------------------------

  /** The step gives server n another history: it is promoted, or takes an answer. */
  predicate Renames(s: State, step: Step, n: NodeId) {
    match step
    case Promote(m, _) => m == n
    case Answer(c, _) => c in s.conns && s.conns[c].failover && s.conns[c].dst == n
    case TakeHeader(c) => c in s.conns && s.conns[c].src == n
    case _ => false
  }

  ghost predicate NeverRenamed(s: State, steps: seq<Step>, n: NodeId)
    decreases |steps|
  {
    steps == [] ||
    (IdsKnown(s) && Enabled(s, steps[0]) && !Renames(s, steps[0], n) && NeverRenamed(Apply(s, steps[0]), steps[1..], n))
  }

  /** The server's stream goes on, and the backlog loses nothing before it is full. */
  ghost predicate GoesOn(v: Node, v': Node) {
    && v'.id == v.id && v'.id2 == v.id2 && v'.second == v.second && v'.cap == v.cap && v.hist <= v'.hist
    && v'.histlen >= Min(v.histlen + |v'.hist| - |v.hist|, v.cap)
  }

  lemma ExtendGoesOn(s: State, m: NodeId, f: string, n: NodeId)
    requires m in s.nodes && s.nodes[m].id in s.world && n in s.nodes
    ensures n in Extend(s, m, f).nodes && GoesOn(s.nodes[n], Extend(s, m, f).nodes[n])
  {
  }

  lemma AnswerGoesOn(s: State, c: ConnId, z: Id, n: NodeId)
    requires Enabled(s, Answer(c, z)) && n in s.nodes && !Renames(s, Answer(c, z), n)
    ensures n in Psync(s, c, z).nodes && GoesOn(s.nodes[n], Psync(s, c, z).nodes[n])
  {
  }

  lemma TakeGoesOn(s: State, c: ConnId, k: nat, n: NodeId)
    requires Live(s, c) && k <= |s.conns[c].bytes| && n in s.nodes
    ensures n in TakeBytes(s, c, k).nodes && GoesOn(s.nodes[n], TakeBytes(s, c, k).nodes[n])
  {
  }

  lemma DemoteGoesOn(s: State, step: Step, n: NodeId)
    requires IdsKnown(s) && Enabled(s, step) && (step.Demote? || step.DemoteFails?) && n in s.nodes
    ensures n in Apply(s, step).nodes && GoesOn(s.nodes[n], Apply(s, step).nodes[n])
  {
  }

  lemma OtherGoesOn(s: State, step: Step, n: NodeId)
    requires IdsKnown(s) && Enabled(s, step) && n in s.nodes && !Renames(s, step, n)
    requires !step.Write? && !step.Ping? && !step.Answer? && !step.TakeFrame? && !step.Demote? && !step.DemoteFails?
    ensures n in Apply(s, step).nodes && GoesOn(s.nodes[n], Apply(s, step).nodes[n])
  {
  }

  /** Every step leaves a server its history, unless it gives it another one. */
  lemma StepGoesOn(s: State, step: Step, n: NodeId)
    requires IdsKnown(s) && Enabled(s, step) && n in s.nodes && !Renames(s, step, n)
    ensures n in Apply(s, step).nodes && GoesOn(s.nodes[n], Apply(s, step).nodes[n])
  {
    hide Extend, Psync, TakeBytes, Renames, GoesOn;
    if step.Write? {
      ExtendGoesOn(s, step.n, step.f, n);
    } else if step.Ping? {
      ExtendGoesOn(s, step.n, PingFrame, n);
    } else if step.Answer? {
      AnswerGoesOn(s, step.c, step.z, n);
    } else if step.TakeFrame? {
      TakeGoesOn(s, step.c, Next(s.conns[step.c].bytes[..step.k]), n);
    } else if step.Demote? || step.DemoteFails? {
      DemoteGoesOn(s, step, n);
    } else {
      OtherGoesOn(s, step, n);
    }
  }

  lemma {:induction false} RunGoesOn(s: State, steps: seq<Step>, t: State, n: NodeId)
    requires n in s.nodes && Run(s, steps, t, true) && NeverRenamed(s, steps, n)
    ensures n in t.nodes && s.nodes[n].hist <= t.nodes[n].hist && t.nodes[n].cap == s.nodes[n].cap
    decreases |steps|
  {
    if steps != [] {
      StepGoesOn(s, steps[0], n);
      RunGoesOn(Apply(s, steps[0]), steps[1..], t, n);
    }
  }

  /** In every run, a replica that could be continued once can be continued as long as the server keeps its
      history and what the replica lacks fits the ring. */
  lemma {:induction false} StillContinued(s: State, steps: seq<Step>, t: State, n: NodeId, src: Node)
    requires n in s.nodes && Run(s, steps, t, true) && NeverRenamed(s, steps, n) && CanContinue(src, s.nodes[n])
    ensures n in t.nodes && (|t.nodes[n].hist| <= |src.hist| + t.nodes[n].cap ==> CanContinue(src, t.nodes[n]))
    decreases |steps|
  {
    if steps != [] {
      var s' := Apply(s, steps[0]);
      StepGoesOn(s, steps[0], n);
      RunGoesOn(s', steps[1..], t, n);
      if |t.nodes[n].hist| <= |src.hist| + t.nodes[n].cap { StillContinued(s', steps[1..], t, n, src); }
    }
  }
}
