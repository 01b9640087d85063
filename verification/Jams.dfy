/** A frame in the stream that the parser does not take: how far a replica gets. */
module Jams {
  import opened Common
  import opened Resp
  import opened Requests
  import opened Replication
  import opened ReplicationRuns
  import opened WriteLog

  /** The parser has decided, and takes nothing. */
  predicate Unreadable(u: string) {
    Next(u) <= 0 && !Parse(u).More?
  }

  lemma Settled(u: string, rest: string)
    requires !Parse(u).More?
    ensures Next(u + rest) == Next(u)
  {
    ParseAppend(u, rest);
  }

  /** However much of it has arrived, and whatever follows it. */
  lemma NothingTaken(u: string, rest: string, here: string, coming: string)
    requires Unreadable(u) && here + coming == u + rest
    ensures Next(here) <= 0
  {
    Settled(u, rest);
    if Next(here) > 0 { NextAppend(here, coming); }
  }

  lemma NeverTaken(u: string)
    requires Unreadable(u)
    ensures forall k :: 0 <= k <= |u| ==> Next(u[..k]) <= 0
  {
    forall k | 0 <= k <= |u| ensures Next(u[..k]) <= 0 {
      var here, coming := u[..k], u[k..];
      assert here + coming == u + "";
      NothingTaken(u, "", here, coming);
    }
  }

  /** The stream behind a prefix, seen from the link. */
  lemma LinkStarts(p: string, u: string, bytes: string, whole: string, k: nat)
    requires p + u <= whole && p + bytes <= whole && Unreadable(u) && k <= |bytes|
    ensures Next(bytes[..k]) <= 0
  {
    var rest := whole[|p| + |u|..];
    assert whole[|p|..] == u + rest;
    assert bytes == whole[|p|..][..|bytes|];
    assert bytes[..k] + whole[|p| + k..] == whole[|p|..];
    NothingTaken(u, rest, bytes[..k], whole[|p| + k..]);
  }

  /** A replica stands at p, and the next bytes of its history are u. */
  ghost predicate Jammed(s: State, n: NodeId, z: Id, p: string, u: string) {
    && n in s.nodes && s.nodes[n].id == z && s.nodes[n].hist == p
    && z in s.world && p + u <= s.world[z].bytes && s.world[z].author != n
  }

  /** The step gives a server another history, or starts it anew on its own. */
  ghost predicate Restarts(s: State, step: Step, n: NodeId)
    requires Enabled(s, step) && n in s.nodes
  {
    match step
    case Promote(m, _) => m == n
    case Answer(c, _) => s.conns[c].dst == n && s.conns[c].failover && s.nodes[n].replica
    case TakeHeader(c) => s.conns[c].src == n && !s.conns[c].header.value.Error?
                          && s.conns[c].header.value != Continue(s.nodes[n].id)
    case _ => false
  }

  lemma NotTaken(s: State, step: Step, n: NodeId, z: Id, p: string, u: string)
    requires Inv(s, Anything()) && Jammed(s, n, z, p, u) && Unreadable(u) && Enabled(s, step) && step.TakeFrame?
    ensures Jammed(Apply(s, step), n, z, p, u)
  {
    var j := s.conns[step.c];
    assert ConnOk(step.c, j, s.nodes[j.src], s.nodes[j.dst], s.world, Anything());
    if j.src == n { LinkStarts(p, u, j.bytes, s.world[z].bytes, step.k); }
  }

  lemma NotWritten(s: State, step: Step, n: NodeId, z: Id, p: string, u: string)
    requires Inv(s, Anything()) && Jammed(s, n, z, p, u) && Enabled(s, step) && (step.Write? || step.Ping?)
    ensures step.n != n && Jammed(Apply(s, step), n, z, p, u)
  {
    assert NodeOk(step.n, s.nodes[step.n], s.world, Anything());
    if step.Ping? {
      var c :| HasReplica(s, step.n, c);
      assert ConnOk(c, s.conns[c], s.nodes[s.conns[c].src], s.nodes[step.n], s.world, Anything());
    }
    var b, f := s.world[s.nodes[step.n].id].bytes, if step.Write? then step.f else PingFrame;
    assert b <= b + f;
  }

  lemma NotAnswered(s: State, step: Step, n: NodeId, z: Id, p: string, u: string)
    requires IdsKnown(s) && Enabled(s, step) && Jammed(s, n, z, p, u) && !Restarts(s, step, n) && step.Answer?
    ensures Jammed(Apply(s, step), n, z, p, u)
  {
  }

  lemma NotHandedOver(s: State, step: Step, n: NodeId, z: Id, p: string, u: string)
    requires IdsKnown(s) && Enabled(s, step) && Jammed(s, n, z, p, u) && (step.Demote? || step.DemoteFails?)
    ensures Jammed(Apply(s, step), n, z, p, u)
  {
  }

  lemma NotElse(s: State, step: Step, n: NodeId, z: Id, p: string, u: string)
    requires IdsKnown(s) && Enabled(s, step) && Jammed(s, n, z, p, u) && !Restarts(s, step, n)
    requires !step.Write? && !step.Ping? && !step.TakeFrame? && !step.Answer? && !step.Demote? && !step.DemoteFails?
    ensures Jammed(Apply(s, step), n, z, p, u)
  {
  }

  /** No step but a new start moves it. */
  lemma JamStep(s: State, step: Step, n: NodeId, z: Id, p: string, u: string)
    requires Inv(s, Anything()) && Enabled(s, step) && Jammed(s, n, z, p, u) && Unreadable(u) && !Restarts(s, step, n)
    ensures Jammed(Apply(s, step), n, z, p, u)
  {
    if step.Write? || step.Ping? {
      NotWritten(s, step, n, z, p, u);
    } else if step.TakeFrame? {
      NotTaken(s, step, n, z, p, u);
    } else if step.Answer? {
      NotAnswered(s, step, n, z, p, u);
    } else if step.Demote? || step.DemoteFails? {
      NotHandedOver(s, step, n, z, p, u);
    } else {
      NotElse(s, step, n, z, p, u);
    }
  }

  ghost predicate NeverRestarts(s: State, steps: seq<Step>, n: NodeId)
    decreases |steps|
  {
    steps == [] ||
    (IdsKnown(s) && Enabled(s, steps[0]) && n in s.nodes && !Restarts(s, steps[0], n)
     && NeverRestarts(Apply(s, steps[0]), steps[1..], n))
  }

  /** In every run: a replica that has come to a frame the parser does not take stays there, through lost
      links, redialling and partial resyncs, until it is promoted or given a whole new image. */
  lemma {:induction false} JamStays(s: State, steps: seq<Step>, t: State, n: NodeId, z: Id, p: string, u: string)
    requires Inv(s, Anything()) && Run(s, steps, t, true) && NeverRestarts(s, steps, n) && Jammed(s, n, z, p, u)
    requires Unreadable(u)
    ensures Jammed(t, n, z, p, u)
    decreases |steps|
  {
    if steps != [] {
      JamStep(s, steps[0], n, z, p, u);
      BothCarry();
      StepKeeps(s, steps[0], Anything());
      JamStays(Apply(s, steps[0]), steps[1..], t, n, z, p, u);
    }
  }

  lemma AuthorHolds(s: State, n: NodeId)
    requires At(s) && Master(s, n)
    ensures s.world[s.nodes[n].id].bytes == s.nodes[n].hist && s.world[s.nodes[n].id].author == n
  {
    Start(true);
    var steps :| Run(Servers, steps, s, true);
    Reached(Servers, steps, s);
    assert NodeOk(n, s.nodes[n], s.world, Anything());
  }

  /** Server 2 streams from server 0, with nothing on the way. */
  lemma Streaming() returns (s: State)
    ensures At(s) && s.conns.Keys == {0} && HasReplica(s, 0, 0) && Streams(s, 0) && s.conns[0].src == 2
    ensures s.conns[0].bytes == ""
    ensures Master(s, 0) && s.nodes[0].id == s.nodes[2].id == 10 && s.nodes[2].hist == s.world[10].bytes
    ensures s.world[10].author == 0
  {
    var s1, f := Adopted();
    s := TookImage(s1, 0);
    AuthorHolds(s, 0);
  }

  /** It comes about within the star: a replica that streams, and a write of such a frame. */
  lemma JamReached(u: string) returns (t: State)
    requires Unreadable(u)
    ensures Init(Servers) && Reachable(t, true) && Streams(t, 0) && t.conns[0].src == 2 && t.conns[0].bytes == u
    ensures Jammed(t, 2, 10, t.nodes[2].hist, u) && forall k :: 0 <= k <= |u| ==> Next(u[..k]) <= 0
  {
    Start(true);
    var s := Streaming();
    t := Extend(s, 0, u);
    ReachThen(s, Write(0, u), t, true);
    assert "" + u == u;
    NeverTaken(u);
  }

  /** What the writer makes of arguments is a whole frame, or it jams. */
  lemma WriterJams(args: Args)
    ensures Readable(args) ==> Framed(Encode(args))
    ensures !Readable(args) && !WrapsAround(args) ==> Unreadable(Encode(args))
  {
    assert Encode(args) + "" == Encode(args);
    if Encodable(args) {
      ParseEncode(args, "");
      if Readable(args) { FrameFramed(Encode(args)); }
    } else {
      ParseRefuses(args, "");
    }
  }

  /** The frame that SPOP logs for more members than a frame may have arguments jams. */
  lemma SPopJams(cmd: Args, picks: Args)
    requires |cmd| >= 2 && |picks| > MAX_ARGS - 2
    ensures Unreadable(Encode(PopFrame(cmd, picks)))
  {
    WriterJams(PopFrame(cmd, picks));
  }
}
