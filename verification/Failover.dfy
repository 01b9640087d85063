/** The write gate of a coordinated FAILOVER: writes are parked while it runs and dispatched again when
    it ends (src/commands/commands.cpp, src/server/server.cpp). */
module Failover {
  import opened Common
  import opened Gate

  class Server {
    var fo: Plan
    var now: nat             // the clock
    var offset: nat          // master_repl_offset
    var replica: bool
    var broken: set<ConnId>  // peers that are gone: their connection fails when it is flushed
    var paused: set<ConnId>
    var conns: Conns
    var log: seq<Entry>
    ghost var issued: Issued
    ghost var pinged: nat    // bytes of keepalives in the stream
    ghost const books: Books

    ghost predicate Valid(busy: set<ConnId>, held: set<ConnId>)
      reads this
    {
      && Good(books, Seen(), issued, busy, held)
      && Lawful(books) && offset == pinged + books.written(log)
    }

    ghost function Seen(): Snap
      reads this
    {
      Snap(conns, paused, log, fo)
    }

    ghost function Around(): Env
      reads this
    {
      Env(replica, broken)
    }

    /** Outside a failover no write stays parked. */
    ghost predicate Settled()
      reads this
    {
      fo.state == Idle ==> paused == {}
    }

    ghost predicate AllFed()
      reads this
    {
      forall c :: c in conns ==> Fed(conns[c])
    }

    /** The connection has a request in hand and may be dispatched. */
    ghost predicate Ready(c: ConnId, held: set<ConnId>)
      reads this
    {
      c in conns && conns[c].current.Some? && c !in held && c !in paused
    }

    ghost predicate Clear(busy: set<ConnId>, held: set<ConnId>)
      reads this
    {
      busy !! paused && busy !! held
    }

    /** EXEC is between two requests. */
    ghost predicate Executes(o: Outset)
      reads this
    {
      && o.c in conns && conns[o.c].inExec && conns[o.c].current.None? && replica == o.replica
      && Halfway(o, conns[o.c].batch, fo, log)
    }

    /** EXEC without FAILOVER among its requests: it runs every write of the queue and nothing else, or no
        write at all; the second exactly if a watched key was hit or the gate is closed to writes. */
    ghost predicate AllOrNone(c: ConnId, k: Conn, queue: seq<Req>, before: seq<Entry>, plan: Plan)
      reads this
    {
      Calm(queue) && c in conns ==>
        && fo == plan && |conns[c].done| > |k.done|
        && log == before + if conns[c].done[|k.done|].outcome.Nil? then [] else Runs(c, queue, plan.state, replica)
    }

    /** What the invariant says of a live connection: what it was told had run is what ran, once and in
        order; what it asked is what was answered, is parked or is still to be read; and its answers are
        those its transactions call for. */
    lemma ExactlyOnce(c: ConnId)
      requires Valid({}, {}) && c in conns
      ensures RanBy(log, c) == ToldRan(conns[c].done)
      ensures c in issued
      ensures !conns[c].wantClose ==> Asked(conns[c].done) + Opt(conns[c].parked) + conns[c].incoming == issued[c]
      ensures PhaseOf(conns[c].done) == if conns[c].multi.Some? then Open(conns[c].multi.value) else NoTxn
    {
      GoodMeans(books, Seen(), issued, {}, {}, c);
    }

    constructor ()
      ensures Valid({}, {}) && Settled() && AllFed() && conns == map[] && log == [] && fo.state == Idle && !replica
    {
      fo, now, offset, replica, broken := NoPlan, 0, 0, false, {};
      paused, conns, log, issued, pinged := {}, map[], [], map[], 0;
      books := TrueBooks();
      TrueBooksLawful();
    }

    /** The reply is queued. */
    method Reply(c: ConnId, o: Outcome, ghost busy: set<ConnId>, ghost held: set<ConnId>)
      requires Valid(busy, held) && Ready(c, held) && c in busy && !o.Applied?
      requires Apt(conns[c], o, fo.state) && Fair(Reply'(conns[c], o, fo.state), replica)
      modifies this`conns
      ensures Valid(busy, held) && conns == old(conns)[c := Finish(old(conns[c]), o, fo.state)]
      ensures Moves(books, old(Seen()), Seen(), old(paused) + {c}, {c}, Around())
      ensures !o.Queued? ==> books.left(conns) < old(books.left(conns))
    {
      GoodReply(books, Seen(), issued, busy, held, c, o, fo.state);
      MovesReply(books, Seen(), issued, busy, held, c, o, fo.state, Around());
      conns := conns[c := Finish(conns[c], o, fo.state)];
    }

    /** The write runs, goes into the stream and is answered. */
    method Perform(c: ConnId, ghost busy: set<ConnId>, ghost held: set<ConnId>)
      requires Valid(busy, held) && Ready(c, held) && c in busy && conns[c].current.value.Write?
      requires fo.state == Idle && !replica && !ModeOf(conns[c]).InMulti?
      modifies this`conns, this`log, this`offset
      ensures Valid(busy, held) && conns == old(conns)[c := Finish(old(conns[c]), Applied, fo.state)]
      ensures log == old(log) + [Entry(c, old(conns[c]).current.value, fo.state, replica)]
      ensures Moves(books, old(Seen()), Seen(), old(paused) + {c}, {c}, Around())
    {
      var e := Entry(c, conns[c].current.value, fo.state, replica);
      GoodPerform(books, Seen(), issued, busy, held, e, Around());
      log, offset := log + [e], offset + |e.req.what|;
      conns := conns[c := Finish(conns[c], Applied, fo.state)];
    }

    /** The write is kept for later: `fo_write_pending`, `fo_cmd`, `fo_paused`. */
    method Hold(c: ConnId, ghost busy: set<ConnId>, ghost held: set<ConnId>)
      requires Valid(busy, held) && Ready(c, held) && c in busy && conns[c].current.value.Write?
      requires ModeOf(conns[c]).Plain?
      modifies this`conns, this`paused
      ensures Valid(busy, held) && conns == old(conns)[c := Park(old(conns[c]))] && paused == old(paused) + {c}
      ensures Moves(books, old(Seen()), Seen(), old(paused) + {c}, {c}, Around())
    {
      GoodPark(books, Seen(), issued, busy, held, c);
      MovedLacks(conns[c]);
      MovesOne(books, Seen(), c, Park(conns[c]), paused + {c}, log, Around());
      conns := conns[c := Park(conns[c])];
      paused := paused + {c};
    }

    /** A write at the gate: it waits while a failover runs, or is refused and spoils its transaction; it is
        refused on a replica; and on a master it is queued or runs. */
    method DoWrite(c: ConnId, ghost busy: set<ConnId>, ghost held: set<ConnId>)
      requires Valid(busy, held) && Settled() && Ready(c, held) && c in busy && conns[c].current.value.Write?
      modifies this`conns, this`paused, this`log, this`offset
      ensures Valid(busy, held) && Settled() && Moves(books, old(Seen()), Seen(), old(paused) + {c}, {c}, Around())
      ensures conns == old(conns)[c := Gated(old(conns[c]), fo.state, replica)]
      ensures log == old(log) + Logged(c, old(conns[c]), fo.state, replica)
    {
      WriteApt(books, Seen(), issued, busy, held, c, fo.state, replica);
      var mode := ModeOf(conns[c]);
      if fo.state != Idle && mode.Plain? {
        Hold(c, busy, held);
      } else if fo.state != Idle {
        Reply(c, Refused, busy, held);
      } else if replica {
        Reply(c, ReadOnly, busy, held);
      } else if mode.InMulti? {
        Reply(c, Queued, busy, held);
      } else {
        Perform(c, busy, held);
      }
    }

    /** `replica_by_addr` */
    method ByAddr(a: Addr) returns (r: Option<ConnId>)
      ensures r.None? <==> !Known(conns, a)
      ensures r.Some? ==> r.value in conns && At(conns[r.value], a)
    {
      var left := Replicas(conns);
      while left != {}
        invariant left <= Replicas(conns) && forall c :: c in conns && c !in left ==> !At(conns[c], a)
      {
        var c :| c in left;
        if At(conns[c], a) { return Some(c); }
        left := left - {c};
      }
      return None;
    }

    /** The replica that acknowledged most, among those that said where they listen. */
    method PickBest() returns (best: Option<ConnId>)
      ensures best.None? <==> !Reachable(conns)
      ensures best.Some? ==> Best(conns, best.value)
    {
      best := None;
      var left := Replicas(conns);
      while left != {}
        invariant left <= Replicas(conns)
        invariant best.None? ==> forall c :: c in conns && c !in left ==> !Listens(conns[c])
        invariant best.Some? ==> best.value in conns && Listens(conns[best.value])
        invariant best.Some? ==>
                    forall c :: c in conns && c !in left && Listens(conns[c]) ==>
                      conns[c].link.value.ack <= conns[best.value].link.value.ack
      {
        var c :| c in left;
        if Listens(conns[c]) && (best.None? || conns[c].link.value.ack > conns[best.value].link.value.ack) {
          best := Some(c);
        }
        left := left - {c};
      }
    }

    /** The address to hand over to: the one named, if a replica listens there, or the best replica's. */
    method Choose(to: Option<Addr>) returns (a: Option<Addr>)
      ensures a.None? <==> if to.Some? then !Known(conns, to.value) else !Reachable(conns)
      ensures a.Some? ==> if to.Some? then a == to else exists b :: Best(conns, b) && At(conns[b], a.value)
    {
      if to.Some? {
        var r := ByAddr(to.value);
        return if r.Some? then to else None;
      }
      var b := PickBest();
      if b.None? { return None; }
      a := Some((conns[b.value].link.value.host, conns[b.value].link.value.port));
      assert Best(conns, b.value) && At(conns[b.value], a.value);
    }

    /** `do_failover` once its arguments are read: its tests in order, the choice of a target, the deadline. */
    method Start(c: ConnId, ghost busy: set<ConnId>, ghost held: set<ConnId>)
      requires Valid(busy, held) && Settled() && Ready(c, held) && c in busy && conns[c].current.value.StartFailover?
      requires conns[c].multi.None?
      modifies this`conns, this`fo
      ensures Valid(busy, held) && Settled() && Moves(books, old(Seen()), Seen(), old(paused) + {c}, {c}, Around())
      ensures var r := old(conns[c]).current.value;
              if TurnedDown(r, old(fo).state, replica, old(conns)) then
                conns == old(conns)[c := Finish(old(conns[c]), Refused, old(fo).state)] && fo == old(fo)
              else
                && conns == old(conns)[c := Finish(old(conns[c]), Served, old(fo).state)]
                && fo.state == WaitForSync && Chosen(old(conns), r, fo.target) && fo.force == r.force
                && (if r.timeout == 0 then fo.deadline == 0 else fo.deadline == now + r.timeout)
      ensures var r := old(conns[c]).current.value;
              fo != old(fo) <==>
                && !replica && old(fo).state == Idle && (r.force ==> r.to.Some? && r.timeout > 0)
                && exists d :: d in old(conns) && old(conns)[d].link.Some? &&
                     var l := old(conns)[d].link.value;
                     if r.to.Some? then l.host == r.to.value.0 && l.port == r.to.value.1 else l.port != 0
    {
      var r := conns[c].current.value;
      var a := Decide(r);
      Enter(c, r, a, busy, held);
    }

    method Enter(c: ConnId, r: Req, a: Option<Addr>, ghost busy: set<ConnId>, ghost held: set<ConnId>)
      requires Valid(busy, held) && Settled() && Ready(c, held) && c in busy && conns[c].current == Some(r)
      requires r.StartFailover?
      requires conns[c].multi.None? && (a.Some? ==> fo.state == Idle)
      modifies this`conns, this`fo
      ensures Valid(busy, held) && Settled() && Moves(books, old(Seen()), Seen(), old(paused) + {c}, {c}, Around())
      ensures conns == old(conns)[c := Finish(old(conns[c]), if a.None? then Refused else Served, old(fo).state)]
      ensures fo == if a.None? then old(fo) else Planned(r, a.value, now)
    {
      ghost var s := Seen();
      Reply(c, if a.Some? then Served else Refused, busy, held);
      if a.Some? {
        ghost var t := Seen();
        MovesStarted(books, s, t, s.paused + {c}, {c}, Around(), c, Planned(r, a.value, now));
        GoodPlan(books, t, issued, busy, held, Planned(r, a.value, now));
        fo := Planned(r, a.value, now);
      }
    }

    /** The tests of `do_failover` in order, and the target if all are passed. */
    method Decide(r: Req) returns (a: Option<Addr>)
      requires r.StartFailover?
      ensures (a.None? <==> TurnedDown(r, fo.state, replica, conns)) && (a.Some? ==> Chosen(conns, r, a.value))
    {
      if replica || fo.state != Idle { return None; }
      if r.force && r.to.None? { return None; }
      if r.force && r.timeout == 0 { return None; }
      if Replicas(conns) == {} {
        assert forall c :: c in conns ==> c !in Replicas(conns);
        return None;
      }
      a := Choose(r.to);
    }

    /** `do_request`, as far as the gate and transactions are concerned. */
    method DoRequest(c: ConnId, ghost busy: set<ConnId>, ghost held: set<ConnId>)
      requires Valid(busy, held) && Settled() && Clear(busy, held) && Ready(c, held) && c in busy
      modifies this`conns, this`paused, this`log, this`offset, this`fo
      ensures Valid(busy, held) && Settled() && Moves(books, old(Seen()), Seen(), old(paused) + {c}, {c}, Around())
      ensures c in conns
      ensures conns[c].current.None? && conns[c].inExec == old(conns[c]).inExec
      ensures conns[c].inExec ==> conns[c].batch == old(conns[c]).batch
      ensures Quiet(old(fo).state, old(conns[c])) ==> log == old(log) && fo.state != Idle
      ensures var k := old(conns[c]); var r := k.current.value;
              && (r.Write? ==> conns == old(conns)[c := Gated(k, old(fo).state, replica)] && fo == old(fo))
              && (r.Write? ==> log == old(log) + Logged(c, k, old(fo).state, replica))
              && (AtOnce(k).Some? ==>
                    conns == old(conns)[c := Finish(k, AtOnce(k).value, old(fo).state)] && fo == old(fo)
                    && log == old(log))
              && (r.StartFailover? && k.multi.None? ==>
                    fo.state == if TurnedDown(r, old(fo).state, replica, old(conns)) then old(fo).state
                                else WaitForSync)
              && (r.AbortFailover? && k.multi.None? ==> AbortedAs(old(Seen()), Seen(), c, Around()))
      decreases books.left(conns), 3
    {
      if conns[c].current.value.Write? {
        DoWrite(c, busy, held);
      } else {
        DoOther(c, busy, held);
      }
    }

    method DoOther(c: ConnId, ghost busy: set<ConnId>, ghost held: set<ConnId>)
      requires Valid(busy, held) && Settled() && Clear(busy, held) && Ready(c, held) && c in busy
      requires !conns[c].current.value.Write?
      modifies this`conns, this`paused, this`log, this`offset, this`fo
      ensures Valid(busy, held) && Settled() && Moves(books, old(Seen()), Seen(), old(paused) + {c}, {c}, Around())
      ensures c in conns
      ensures conns[c].current.None? && conns[c].inExec == old(conns[c]).inExec
      ensures conns[c].inExec ==> conns[c].batch == old(conns[c]).batch
      ensures Quiet(old(fo).state, old(conns[c])) ==> log == old(log) && fo.state != Idle
      ensures var k := old(conns[c]); var r := k.current.value;
              && (AtOnce(k).Some? ==>
                    conns == old(conns)[c := Finish(k, AtOnce(k).value, old(fo).state)] && fo == old(fo)
                    && log == old(log))
              && (r.StartFailover? && k.multi.None? ==>
                    fo.state == if TurnedDown(r, old(fo).state, replica, old(conns)) then old(fo).state
                                else WaitForSync)
              && (r.AbortFailover? && k.multi.None? ==> AbortedAs(old(Seen()), Seen(), c, Around()))
      decreases books.left(conns), 2
    {
      ControlApt(books, Seen(), issued, busy, held, c, fo.state);
      var r, open := conns[c].current.value, conns[c].multi.Some?;
      if r.Multi? {
        Reply(c, if open then Refused else Served, busy, held);
      } else if r.Discard? {
        Reply(c, if open then Served else Refused, busy, held);
      } else if r.Exec? {
        DoExec(c, busy, held);
      } else if open {
        Reply(c, Queued, busy, held);
      } else {
        DoPlain(c, busy, held);
      }
    }

    method DoPlain(c: ConnId, ghost busy: set<ConnId>, ghost held: set<ConnId>)
      requires Valid(busy, held) && Settled() && Clear(busy, held) && Ready(c, held) && c in busy
      requires conns[c].multi.None? && Queueable(conns[c].current.value) && !conns[c].current.value.Write?
      modifies this`conns, this`paused, this`log, this`offset, this`fo
      ensures Valid(busy, held) && Settled() && Moves(books, old(Seen()), Seen(), old(paused) + {c}, {c}, Around())
      ensures c in conns
      ensures conns[c].current.None? && conns[c].inExec == old(conns[c]).inExec
      ensures conns[c].inExec ==> conns[c].batch == old(conns[c]).batch
      ensures Quiet(old(fo).state, old(conns[c])) ==> log == old(log) && fo.state != Idle
      ensures var k := old(conns[c]); var r := k.current.value;
              && (r.Read? ==>
                    conns == old(conns)[c := Finish(k, Served, old(fo).state)] && fo == old(fo) && log == old(log))
              && (r.StartFailover? ==>
                    fo.state == if TurnedDown(r, old(fo).state, replica, old(conns)) then old(fo).state
                                else WaitForSync)
              && (r.AbortFailover? ==> AbortedAs(old(Seen()), Seen(), c, Around()))
      decreases books.left(conns), 1
    {
      match conns[c].current.value
      case Read => Reply(c, Served, busy, held);
      case StartFailover(_, _, _) => Start(c, busy, held);
      case AbortFailover => Abort(c, busy, held);
    }

    /** `FAILOVER ABORT`: only before the handover began, and then the parked writes run. */
    method Abort(c: ConnId, ghost busy: set<ConnId>, ghost held: set<ConnId>)
      requires Valid(busy, held) && Settled() && Clear(busy, held) && Ready(c, held) && c in busy
      requires conns[c].current == Some(AbortFailover)
      requires conns[c].multi.None?
      modifies this`conns, this`paused, this`log, this`offset, this`fo
      ensures Valid(busy, held) && Settled() && Moves(books, old(Seen()), Seen(), old(paused) + {c}, {c}, Around())
      ensures c in conns
      ensures AbortedAs(old(Seen()), Seen(), c, Around())
      decreases books.left(conns), 0
    {
      ghost var s := Seen();
      if fo.state != WaitForSync {
        Reply(c, Refused, busy, held);
      } else {
        GoodPlan(books, s, issued, busy, held, NoPlan);
        fo := NoPlan;
        Reply(c, Served, busy, held);
        ghost var t := Seen();
        MovesAborted(books, s, t, s.paused + {c}, {c}, Around(), c, NoPlan);
        Resume(busy, held);
        MovesPast(books, t, Seen(), s.paused, {}, Around(), c);
        MovesThen(books, s, t, Seen(), s.paused + {c}, s.paused, {c}, {}, Around());
      }
    }

    /** `do_exec`; whether a watched key was hit is left open. */
    method DoExec(c: ConnId, ghost busy: set<ConnId>, ghost held: set<ConnId>)
      requires Valid(busy, held) && Settled() && Clear(busy, held) && Ready(c, held) && c in busy
      requires conns[c].current == Some(Exec) && !conns[c].inExec
      modifies this`conns, this`paused, this`log, this`offset, this`fo
      ensures Valid(busy, held) && Settled() && Moves(books, old(Seen()), Seen(), old(paused) + {c}, {c}, Around())
      ensures c in conns
      ensures Idling(conns[c]) && conns[c].multi.None?
      ensures Quiet(old(fo).state, old(conns[c])) ==> log == old(log) && fo.state != Idle
      ensures var k := old(conns[c]);
              && (AtOnce(k).Some? ==>
                    conns == old(conns)[c := Finish(k, AtOnce(k).value, old(fo).state)] && fo == old(fo)
                    && log == old(log))
              && (AtOnce(k).None? ==> AllOrNone(c, k, k.multi.value.queue, old(log), old(fo)))
      decreases books.left(conns), 1
    {
      ExecApt(books, Seen(), issued, busy, held, c, fo.state);
      var m := conns[c].multi;
      if m.None? {
        Reply(c, Refused, busy, held);
      } else if m.value.dirty {
        Reply(c, Aborted, busy, held);
      } else {
        var hit: bool := *;
        Commit(c, m.value.queue, hit, busy, held);
      }
    }

    method Commit(c: ConnId, queue: seq<Req>, hit: bool, ghost busy: set<ConnId>, ghost held: set<ConnId>)
      requires Valid(busy, held) && Settled() && Clear(busy, held) && Ready(c, held) && c in busy
      requires conns[c].current == Some(Exec)
      requires !conns[c].inExec && conns[c].multi == Some(Txn(false, queue))
      modifies this`conns, this`paused, this`log, this`offset, this`fo
      ensures Valid(busy, held) && Settled() && Moves(books, old(Seen()), Seen(), old(paused) + {c}, {c}, Around())
      ensures c in conns
      ensures Idling(conns[c]) && conns[c].multi.None?
      ensures old(fo).state != Idle && AbortFailover !in queue ==> log == old(log) && fo.state != Idle
      ensures AllOrNone(c, old(conns[c]), queue, old(log), old(fo))
      decreases books.left(conns), 0
    {
      hide Runs, Calm, Lacks;
      ExecApt(books, Seen(), issued, busy, held, c, fo.state);
      ghost var s := Seen();
      Reply(c, if hit then Nil else Began(queue), busy, held);
      if !hit {
        ghost var t := Seen();
        RunBatch(c, busy, held);
        MovesDone(books, t, Seen(), t.paused + {c}, {c}, Around(), c);
        MovesThen(books, s, t, Seen(), s.paused + {c}, t.paused + {c}, {c}, {c}, Around());
      }
    }

    method RunBatch(c: ConnId, ghost busy: set<ConnId>, ghost held: set<ConnId>)
      requires Valid(busy, held) && Settled() && Clear(busy, held) && c in conns && c in busy
      requires conns[c].inExec && conns[c].current.None?
      modifies this`conns, this`paused, this`log, this`offset, this`fo
      ensures Valid(busy, held) && Settled() && Moves(books, old(Seen()), Seen(), old(paused) + {c}, {c}, Around())
      ensures c in conns
      ensures Idling(conns[c]) && conns[c].multi.None?
      ensures old(fo).state != Idle && AbortFailover !in old(conns[c]).batch ==> log == old(log) && fo.state != Idle
      ensures Calm(old(conns[c]).batch) ==>
                fo == old(fo) && log == old(log) + Runs(c, old(conns[c]).batch, fo.state, replica)
      decreases books.left(conns), 13
    {
      ghost var s, o := Seen(), Outset(c, conns[c].batch, fo, log, replica);
      MovesSelf(books, s, s.paused + {c}, Around());
      HalfwayStarts(o);
      while conns[c].batch != []
        invariant Valid(busy, held) && Settled() && Clear(busy, held) && Executes(o)
        invariant Moves(books, s, Seen(), s.paused + {c}, {c}, Around())
        decreases |conns[c].batch|
      {
        BatchOne(c, o, busy, held, s);
      }
      HalfwayEnds(o, fo, log);
      EndExec(c, busy, held, s);
    }

    method BatchOne(c: ConnId, ghost o: Outset, ghost busy: set<ConnId>, ghost held: set<ConnId>, ghost s: Snap)
      requires Valid(busy, held) && Settled() && Clear(busy, held) && c in busy && o.c == c && Executes(o)
      requires conns[c].batch != []
      requires Moves(books, s, Seen(), s.paused + {c}, {c}, Around())
      modifies this`conns, this`paused, this`log, this`offset, this`fo
      ensures Valid(busy, held) && Settled() && Clear(busy, held) && Executes(o)
      ensures conns[c].batch == old(conns[c]).batch[1..] && Moves(books, s, Seen(), s.paused + {c}, {c}, Around())
      decreases books.left(conns), 5
    {
      ghost var r := Seen();
      Fetch(c, busy, held);
      ghost var t, q, fo0 := Seen(), conns[c].current.value, fo;
      MovesThen(books, s, r, t, s.paused + {c}, r.paused + {c}, {c}, {c}, Around());
      Dispatch(c, busy, held);
      MovesThen(books, s, t, Seen(), s.paused + {c}, t.paused + {c}, {c}, {c}, Around());
      HalfwayOn(o, q, conns[c].batch, fo0, t.log, fo, log);
      InExecFree(books, Seen(), issued, busy, held, c);
    }

    method Dispatch(c: ConnId, ghost busy: set<ConnId>, ghost held: set<ConnId>)
      requires Valid(busy, held) && Settled() && Clear(busy, held) && Ready(c, held) && c in busy && conns[c].inExec
      requires conns[c].multi.None?
      modifies this`conns, this`paused, this`log, this`offset, this`fo
      ensures Valid(busy, held) && Settled() && Moves(books, old(Seen()), Seen(), old(paused) + {c}, {c}, Around())
      ensures c in conns
      ensures conns[c].current.None? && conns[c].inExec && conns[c].batch == old(conns[c]).batch
      ensures var r := old(conns[c]).current.value;
              && (old(fo).state != Idle && !r.AbortFailover? ==> log == old(log) && fo.state != Idle)
              && (!r.StartFailover? && !r.AbortFailover? ==>
                    fo == old(fo) && log == old(log) + RunsOne(c, r, fo.state, replica))
      decreases books.left(conns), 4
    {
      GoodAt(books, Seen(), issued, busy, held, c);
      DoRequest(c, busy, held);
    }

    /** The next request of the batch is taken in hand. */
    method Fetch(c: ConnId, ghost busy: set<ConnId>, ghost held: set<ConnId>)
      requires Valid(busy, held) && c in conns && c in busy && conns[c].inExec && conns[c].current.None?
      requires conns[c].batch != []
      modifies this`conns
      ensures Valid(busy, held) && Ready(c, held) && conns == old(conns)[c := TakeBatched(old(conns[c]))]
      ensures conns[c].multi.None?
      ensures Moves(books, old(Seen()), Seen(), old(paused) + {c}, {c}, Around())
      ensures [conns[c].current.value] + conns[c].batch == old(conns[c]).batch
    {
      GoodTakeBatched(books, Seen(), issued, busy, held, c);
      InExecFree(books, Seen(), issued, busy, held, c);
      GoodAt(books, Seen(), issued, busy, held, c);
      MovedLacks(conns[c]);
      MovesOne(books, Seen(), c, TakeBatched(conns[c]), paused, log, Around());
      conns := conns[c := TakeBatched(conns[c])];
    }

    method EndExec(c: ConnId, ghost busy: set<ConnId>, ghost held: set<ConnId>, ghost s: Snap)
      requires Valid(busy, held) && c in conns && c in busy && conns[c].inExec && conns[c].current.None?
      requires conns[c].batch == []
      requires Moves(books, s, Seen(), s.paused + {c}, {c}, Around())
      modifies this`conns
      ensures Valid(busy, held) && conns == old(conns)[c := old(conns[c]).(inExec := false)] && conns[c].multi.None?
      ensures Moves(books, s, Seen(), s.paused + {c}, {c}, Around())
    {
      GoodEndExec(books, Seen(), issued, busy, held, c);
      InExecFree(books, Seen(), issued, busy, held, c);
      MovedLacks(conns[c]);
      MovesOne(books, Seen(), c, conns[c].(inExec := false), paused, log, Around());
      GoodAt(books, Seen(), issued, busy, held, c);
      ghost var r := Seen();
      conns := conns[c := conns[c].(inExec := false)];
      MovesThen(books, s, r, Seen(), s.paused + {c}, r.paused + {c}, {c}, {c}, Around());
    }

    /** `try_one_request` on a connection that is not gated. */
    method NextRequest(c: ConnId, ghost busy: set<ConnId>, ghost held: set<ConnId>)
      requires Valid(busy, held) && Settled() && Clear(busy, held) && c in conns && c !in held && c !in busy
      requires conns[c].parked.None? && conns[c].incoming != []
      modifies this`conns, this`paused, this`log, this`offset, this`fo
      ensures Valid(busy, held) && Settled() && Moves(books, old(Seen()), Seen(), old(paused) + {c}, {c}, Around())
      ensures c in conns
      ensures books.left(conns) < old(books.left(conns))
      decreases books.left(conns), 4
    {
      ghost var s := Seen();
      Take(c, busy, held);
      ghost var t := Seen();
      DoRequest(c, busy + {c}, held);
      MovesThen(books, s, t, Seen(), s.paused + {c}, s.paused + {c}, {c}, {c}, Around());
      GoodBusy(books, Seen(), issued, busy, held, c);
    }

    /** The next request is read. */
    method Take(c: ConnId, ghost busy: set<ConnId>, ghost held: set<ConnId>)
      requires Valid(busy, held) && c in conns && c !in held && c !in busy && conns[c].parked.None?
      requires conns[c].incoming != []
      modifies this`conns
      ensures Valid(busy + {c}, held) && Ready(c, held) && !conns[c].inExec
      ensures conns == old(conns)[c := TakeNext(old(conns[c]))]
      ensures Moves(books, old(Seen()), Seen(), old(paused) + {c}, {c}, Around())
      ensures books.left(conns) < old(books.left(conns))
    {
      GoodAt(books, Seen(), issued, busy, held, c);
      GoodTake(books, Seen(), issued, busy, held, c);
      MovedLacks(conns[c]);
      MovesOne(books, Seen(), c, TakeNext(conns[c]), paused, log, Around());
      conns := conns[c := TakeNext(conns[c])];
    }

    /** `while (try_one_request(conn)) {}` */
    method Drain(c: ConnId, ghost busy: set<ConnId>, ghost held: set<ConnId>)
      requires Valid(busy, held) && Settled() && Clear(busy, held) && c in conns && c !in held && c !in busy
      modifies this`conns, this`paused, this`log, this`offset, this`fo
      ensures Valid(busy, held) && Settled() && Moves(books, old(Seen()), Seen(), old(paused) + {c}, {c}, Around())
      ensures c in conns
      ensures Fed(conns[c])
      decreases books.left(conns), 6
    {
      ghost var s := Seen();
      MovesSelf(books, s, s.paused + {c}, Around());
      while conns[c].parked.None? && conns[c].incoming != []
        invariant Valid(busy, held) && Settled() && c in conns && Moves(books, s, Seen(), s.paused + {c}, {c}, Around())
        decreases books.left(conns)
      {
        DrainOne(c, busy, held, s);
      }
    }

    method DrainOne(c: ConnId, ghost busy: set<ConnId>, ghost held: set<ConnId>, ghost s: Snap)
      requires Valid(busy, held) && Settled() && c in conns && c !in held && c !in busy && conns[c].parked.None?
      requires conns[c].incoming != []
      requires Moves(books, s, Seen(), s.paused + {c}, {c}, Around()) && busy !! s.paused && busy !! held
      modifies this`conns, this`paused, this`log, this`offset, this`fo
      ensures Valid(busy, held) && Settled() && c in conns && books.left(conns) < old(books.left(conns))
      ensures Moves(books, s, Seen(), s.paused + {c}, {c}, Around())
      decreases books.left(conns), 5
    {
      ghost var t := Seen();
      NextRequest(c, busy, held);
      MovesThen(books, s, t, Seen(), s.paused + {c}, t.paused + {c}, {c}, {c}, Around());
    }

    /** `conn_destroy`, with `fo_paused_remove_conn`. */
    method Destroy(c: ConnId, ghost busy: set<ConnId>, ghost held: set<ConnId>)
      requires Valid(busy, held) && c in conns && c !in held
      modifies this`conns, this`paused
      ensures Valid(busy, held) && conns == old(conns) - {c} && paused == old(paused) - {c}
      ensures books.left(conns) <= old(books.left(conns))
    {
      GoodGone(books, Seen(), issued, busy, held, c);
      LeftGone(books, conns, c);
      conns := conns - {c};
      paused := paused - {c};
    }

    /** `conn_resume`; the flush at its end may find the peer gone. */
    method ConnResume(c: ConnId, ghost busy: set<ConnId>, ghost held: set<ConnId>) returns (ghost k: Conn)
      requires Valid(busy, held) && Settled() && Clear(busy, held) && c in conns && c !in held && c !in busy
      modifies this`conns, this`paused, this`log, this`offset, this`fo
      ensures Valid(busy, held) && Settled() && Moves(books, old(Seen()), Seen(), old(paused) + {c}, {c}, Around())
      ensures c in issued && LeftAs(old(conns[c]), k, c, log, issued[c], replica)
      ensures (c in conns <==> !old(conns[c]).wantClose && c !in broken) && (c in conns ==> conns[c] == k)
      decreases books.left(conns), 7
    {
      ghost var s := Seen();
      MovesSelf(books, s, s.paused + {c}, Around());
      if !conns[c].wantClose {
        Drain(c, busy, held);
      }
      ghost var t := Seen();
      MovesDone(books, s, t, s.paused + {c}, {c}, Around(), c);
      GoodMeans(books, t, issued, busy, held, c);
      k := conns[c];
      Flush(c, busy, held);
      MovesThen(books, s, t, Seen(), s.paused + {c}, t.paused + {c}, {c}, {c}, Around());
    }

    method Flush(c: ConnId, ghost busy: set<ConnId>, ghost held: set<ConnId>)
      requires Valid(busy, held) && Settled() && c in conns && c !in held
      modifies this`conns, this`paused
      ensures Valid(busy, held) && Settled() && Moves(books, old(Seen()), Seen(), old(paused) + {c}, {c}, Around())
      ensures c in conns <==> !old(conns[c]).wantClose && c !in broken
      ensures c in conns ==> conns == old(conns)
    {
      MovesSelf(books, Seen(), paused + {c}, Around());
      if conns[c].wantClose || c in broken {
        MovesGone(books, Seen(), c, Around());
        Destroy(c, busy, held);
      }
    }

    method Unhold(c: ConnId, ghost busy: set<ConnId>, ghost held: set<ConnId>)
      requires Valid(busy, held + {c}) && c in conns && conns[c].parked.Some? && c !in held && c !in paused
      modifies this`conns
      ensures Valid(busy + {c}, held) && conns == old(conns)[c := Unheld(old(conns[c]))]
      ensures Moves(books, old(Seen()), Seen(), old(paused) + {c}, {c}, Around())
    {
      GoodUnhold(books, Seen(), issued, busy, held, c);
      MovedLacks(conns[c]);
      MovesOne(books, Seen(), c, Unheld(conns[c]), paused, log, Around());
      conns := conns[c := Unheld(conns[c])];
    }

    /** A request is dispatched, then what was read behind it. */
    method Redo(c: ConnId, ghost busy: set<ConnId>, ghost held: set<ConnId>) returns (ghost k: Conn)
      requires Valid(busy + {c}, held) && Settled() && Clear(busy, held) && Ready(c, held) && c !in busy
      requires !conns[c].inExec
      modifies this`conns, this`paused, this`log, this`offset, this`fo
      ensures Valid(busy, held) && Settled() && Moves(books, old(Seen()), Seen(), old(paused) + {c}, {c}, Around())
      ensures c in issued && LeftAs(old(conns[c]), k, c, log, issued[c], replica)
      ensures (c in conns <==> !old(conns[c]).wantClose && c !in broken) && (c in conns ==> conns[c] == k)
      ensures old(conns[c]).current.value.Write? ==> old(log) + Logged(c, old(conns[c]), old(fo).state, replica) <= log
      decreases books.left(conns), 8
    {
      ghost var s := Seen();
      DoRequest(c, busy + {c}, held);
      GoodBusy(books, Seen(), issued, busy, held, c);
      ghost var t := Seen();
      MovesDone(books, s, t, s.paused + {c}, {c}, Around(), c);
      k := ConnResume(c, busy, held);
      LeftThen(books, s, t, Seen(), s.paused + {c}, t.paused + {c}, Around(), c, k, issued);
      MovesThen(books, s, t, Seen(), s.paused + {c}, t.paused + {c}, {c}, {c}, Around());
    }

    /** One parked connection: its write is dispatched again, then what was read behind it. */
    method ResumeOne(c: ConnId, ghost busy: set<ConnId>, ghost held: set<ConnId>)
      requires Valid(busy, held + {c}) && Settled() && Clear(busy, held) && c in conns && conns[c].parked.Some?
      requires c !in held && c !in paused && c !in busy
      modifies this`conns, this`paused, this`log, this`offset, this`fo
      ensures Valid(busy, held) && Settled() && Moves(books, old(Seen()), Seen(), old(paused) + {c}, {}, Around())
      ensures old(fo).state == Idle && !replica ==> AllRan(old(conns), {c}, old(log), log)
      decreases books.left(conns), 9
    {
      ghost var s := Seen();
      GoodAt(books, s, issued, busy, held + {c}, c);
      Unhold(c, busy, held);
      ghost var t := Seen();
      if conns[c].wantClose {
        GoodBusy(books, t, issued, busy, held, c);
      } else {
        ghost var k := Redo(c, busy, held);
        MovesThen(books, s, t, Seen(), s.paused + {c}, t.paused + {c}, {c}, {c}, Around());
        if s.fo.state == Idle && !replica { assert log[|s.log|] == Entry(c, s.conns[c].parked.value, Idle, false); }
      }
      assert c in conns ==> Fed(conns[c]);
    }

    /** One turn of the loop below; T are the connections that were parked when it began. */
    method ResumeNext(c: ConnId, ghost parked: set<ConnId>, ghost busy: set<ConnId>, ghost held: set<ConnId>,
        ghost T: set<ConnId>)
      requires c in parked && Valid(busy, held + parked) && Settled() && busy !! held && busy !! T
      requires parked <= T && paused <= T && parked !! paused && held !! parked
      modifies this`conns, this`paused, this`log, this`offset, this`fo
      ensures Valid(busy, held + (parked - {c})) && Settled() && Moves(books, old(Seen()), Seen(), T, {}, Around())
      ensures parked - {c} !! paused
              && forall x :: x in parked - {c} && x in old(conns) ==> x in conns && conns[x] == old(conns)[x]
      ensures old(fo).state == Idle && !replica ==> AllRan(old(conns), {c}, old(log), log)
      decreases books.left(conns), 10
    {
      ghost var s := Seen();
      OneLess(held, parked, c);
      GoodAt(books, s, issued, busy, held + parked, c);
      ResumeOne(c, busy, held + (parked - {c}));
      UntouchedBut(books, s, Seen(), s.paused + {c}, Around());
      MovesSelf(books, s, T, Around());
      MovesThen(books, s, s, Seen(), T, s.paused + {c}, {}, {}, Around());
    }

    /** `fo_resume_paused_writes` */
    method Resume(ghost busy: set<ConnId>, ghost held: set<ConnId>)
      requires Valid(busy, held) && Clear(busy, held) && fo == NoPlan
      modifies this`conns, this`paused, this`log, this`offset, this`fo
      ensures Valid(busy, held) && Settled() && Moves(books, old(Seen()), Seen(), old(paused), {}, Around())
      ensures Resumed(old(conns), old(paused), old(log), Seen(), Around())
      decreases books.left(conns), 12
    {
      ghost var s := Seen();
      var parked := paused;
      GoodTakeAll(books, s, issued, busy, held);
      paused := {};
      ResumeEach(parked, busy, held);
      MovesUnpaused(books, s, Seen(), parked, Around());
      MovesMean(books, s, Seen(), parked, {}, Around());
      if fo.state == Idle {
        LawsOf(books);
        LandedAll(books, s, Seen(), issued, busy, held, parked, Around());
      }
    }

    method ResumeEach(all: set<ConnId>, ghost busy: set<ConnId>, ghost held: set<ConnId>)
      requires Valid(busy, held + all) && Settled() && paused == {} && held !! all && busy !! held && busy !! all
      modifies this`conns, this`paused, this`log, this`offset, this`fo
      ensures Valid(busy, held) && Settled() && Moves(books, old(Seen()), Seen(), all, {}, Around())
      ensures old(fo).state == Idle && !replica && AllLack(old(conns), all, Starts) ==>
                AllRan(old(conns), all, old(log), log)
      decreases books.left(conns), 11
    {
      ghost var s := Seen();
      MovesSelf(books, s, all, Around());
      var parked := all;
      while parked != {}
        invariant Valid(busy, held + parked) && Settled() && Moves(books, s, Seen(), all, {}, Around())
        invariant parked <= all && parked !! paused
                  && forall x :: x in parked && x in s.conns ==> x in conns && conns[x] == s.conns[x]
        invariant s.fo.state == Idle && !replica && AllLack(s.conns, all, Starts) ==>
                    AllRan(s.conns, all - parked, s.log, log)
      {
        var c :| c in parked;
        ghost var t := Seen();
        ResumeNext(c, parked, busy, held, all);
        if s.fo.state == Idle && !replica && AllLack(s.conns, all, Starts) {
          MovesMean(books, s, t, all, {}, Around());
          RanMore(books, s, t, Seen(), all, parked, c, Around());
        }
        MovesThen(books, s, t, Seen(), all, all, {}, {}, Around());
        parked := parked - {c};
      }
      assert held + parked == held && all - parked == all;
    }

    // ---- what happens to the server -------------------------------------------------------

    method Accept(c: ConnId)
      requires Valid({}, {}) && Settled() && AllFed() && c !in conns && c !in issued
      modifies this`conns, this`issued
      ensures Valid({}, {}) && Settled() && AllFed() && conns == old(conns)[c := NewConn]
      ensures issued == old(issued)[c := []]
    {
      GoodNew(books, Seen(), issued, c);
      conns := conns[c := NewConn];
      issued := issued[c := []];
    }

    /** Requests arrive.  A connection with a parked write is not read until it is resumed. */
    method Receive(c: ConnId, reqs: seq<Req>)
      requires Valid({}, {}) && Settled() && AllFed() && c in conns
      modifies this`conns, this`issued, this`paused, this`log, this`offset, this`fo
      ensures Valid({}, {}) && Settled() && AllFed() && issued == old(issued)[c := old(issued[c]) + reqs]
      ensures var k := old(conns[c]).(incoming := old(conns[c]).incoming + reqs);
              Changes(With(old(Seen()), c, k), Seen(), old(paused) + {c}, {c}, Around())
    {
      Arrive(c, reqs);
      ghost var s := Seen();
      MovesSelf(books, s, s.paused + {c}, Around());
      if !conns[c].wantClose {
        Drain(c, {}, {});
      }
      AfterReading(books, old(conns), c, s, Seen(), s.paused + {c}, Around());
    }

    /** What was read from the socket is queued. */
    method Arrive(c: ConnId, reqs: seq<Req>)
      requires Valid({}, {}) && c in conns
      modifies this`conns, this`issued
      ensures Valid({}, {}) && issued == old(issued)[c := old(issued[c]) + reqs]
      ensures conns == old(conns)[c := old(conns[c]).(incoming := old(conns[c]).incoming + reqs)]
    {
      GoodArrive(books, Seen(), issued, c, reqs);
      issued := issued[c := issued[c] + reqs];
      conns := conns[c := conns[c].(incoming := conns[c].incoming + reqs)];
    }

    method WantClose(c: ConnId)
      requires Valid({}, {}) && Settled() && AllFed() && c in conns
      modifies this`conns
      ensures Valid({}, {}) && Settled() && AllFed() && conns == old(conns)[c := old(conns[c]).(wantClose := true)]
    {
      GoodClosing(books, Seen(), issued, c);
      conns := conns[c := conns[c].(wantClose := true)];
    }

    /** `do_psync` makes the connection a replica; `do_replconf` said before where it listens. */
    method Attach(c: ConnId, host: string, port: nat)
      requires Valid({}, {}) && AllFed() && c in conns && conns[c].link.None?
      modifies this`conns
      ensures Valid({}, {}) && AllFed() && conns == old(conns)[c := old(conns[c]).(link := Some(Link(host, port, 0)))]
    {
      Relink(c, Link(host, port, 0));
    }

    /** `REPLCONF ACK` */
    method Ack(c: ConnId, off: nat)
      requires Valid({}, {}) && AllFed() && c in conns && conns[c].link.Some?
      modifies this`conns
      ensures Valid({}, {}) && AllFed()
      ensures conns == old(conns)[c := old(conns[c]).(link := Some(old(conns[c]).link.value.(ack := off)))]
    {
      Relink(c, conns[c].link.value.(ack := off));
    }

    method Relink(c: ConnId, l: Link)
      requires Valid({}, {}) && AllFed() && c in conns
      modifies this`conns
      ensures Valid({}, {}) && AllFed() && conns == old(conns)[c := old(conns[c]).(link := Some(l))]
    {
      GoodRelink(books, Seen(), issued, c, Some(l));
      conns := conns[c := conns[c].(link := Some(l))];
    }

    /** A keepalive goes into the stream, also during a failover. */
    method Ping(n: nat)
      requires Valid({}, {})
      modifies this`offset, this`pinged
      ensures Valid({}, {}) && offset == old(offset) + n
    {
      offset, pinged := offset + n, pinged + n;
    }

    method Tick(t: nat)
      requires Valid({}, {}) && now <= t
      modifies this`now
      ensures Valid({}, {}) && now == t
    {
      now := t;
    }

    /** REPLICAOF changes the role at any time, also during a failover. */
    method SetRole(replica': bool)
      requires Valid({}, {})
      modifies this`replica
      ensures Valid({}, {}) && replica == replica'
    {
      replica := replica';
    }

    /** Peers go away, as a flush will find. */
    method SetBroken(peers: set<ConnId>)
      requires Valid({}, {})
      modifies this`broken
      ensures Valid({}, {}) && broken == peers
    {
      broken := peers;
    }

    /** Every replica is disconnected. */
    method DropReplicas()
      requires Valid({}, {}) && AllFed()
      modifies this`conns, this`paused
      ensures Valid({}, {}) && AllFed()
      ensures conns == old(conns) - Replicas(old(conns)) && paused == old(paused) - Replicas(old(conns))
    {
      var left := Replicas(conns);
      ghost var gone: set<ConnId> := {};
      assert conns - {} == conns && paused - {} == paused;
      while left != {}
        invariant Valid({}, {}) && AllFed() && left + gone == Replicas(old(conns)) && left !! gone
        invariant conns == old(conns) - gone && paused == old(paused) - gone
      {
        var c :| c in left;
        GoneMore(old(conns), old(paused), gone, c);
        Destroy(c, {}, {});
        left := left - {c};
        gone := gone + {c};
      }
      assert gone == Replicas(old(conns));
    }

    /** `failover_cron`.  It hands over only to a replica at the target's address, and only if that has
        acknowledged the whole stream or FORCE was given and the deadline has passed. */
    method Cron(dialled: bool) returns (turn: Turn, ghost t: Option<ConnId>)
      requires Valid({}, {}) && Settled() && AllFed()
      modifies this`conns, this`paused, this`log, this`offset, this`replica, this`fo
      ensures Valid({}, {}) && Settled() && AllFed()
      ensures old(fo).state == WaitForSync ==> (t.None? <==> !Known(old(conns), old(fo).target))
      ensures t.Some? ==> t.value in old(conns) && At(old(conns)[t.value], old(fo).target)
      ensures var synced := t.Some? && old(conns)[t.value].link.value.ack >= old(offset);
              var expired := old(fo).deadline != 0 && now >= old(fo).deadline;
              turn == if old(fo).state != WaitForSync || (t.Some? && !synced && !expired) then Waits
                      else if t.Some? && (synced || old(fo).force) && dialled then HandsOver
                      else GivesUp
      ensures turn.Waits? ==> Seen() == old(Seen()) && fo == old(fo) && replica == old(replica) && offset == old(offset)
      ensures turn.HandsOver? ==> fo == old(fo).(state := InProgress) && replica && log == old(log)
      ensures turn.HandsOver? ==>
                conns == old(conns) - Replicas(old(conns)) && paused == old(paused) - Replicas(old(conns))
      ensures turn.GivesUp? ==>
                var tried := t.Some? && (old(conns)[t.value].link.value.ack >= old(offset) || old(fo).force);
                var kept := if tried then old(conns) - Replicas(old(conns)) else old(conns);
                replica == old(replica) && GaveUp(kept, old(paused), old(log))
    {
      t := None;
      if fo.state != WaitForSync { return Waits, None; }
      var r := ByAddr(fo.target);
      t := r;
      if r.None? {
        GiveUp(conns, paused);
        return GivesUp, t;
      }
      var synced, expired := conns[r.value].link.value.ack >= offset, fo.deadline != 0 && now >= fo.deadline;
      if !synced && !expired { return Waits, t; }
      if !synced && !fo.force {
        GiveUp(conns, paused);
        return GivesUp, t;
      }
      turn := HandOver(dialled);
    }

    /** From an accepted FAILOVER to the next turn of the cron, with any time in between and nothing else.
        The target is still there: the turn waits exactly if it has not acknowledged the whole stream and
        the time is not up, and after that it hands over exactly if it has or FORCE was given. */
    method StartThenCron(c: ConnId, t: nat, dialled: bool) returns (turn: Turn, ghost d: Option<ConnId>)
      requires Valid({c}, {}) && Settled() && AllFed() && Ready(c, {}) && conns[c].current.value.StartFailover?
      requires conns[c].multi.None? && !conns[c].inExec && conns[c].batch == [] && now <= t
      requires !TurnedDown(conns[c].current.value, fo.state, replica, conns)
      modifies this
      ensures Valid({}, {}) && Settled() && AllFed()
      ensures var r := old(conns[c]).current.value;
              && d.Some? && d.value in old(conns) && old(conns)[d.value].link.Some?
              && (r.to.Some? ==> At(old(conns)[d.value], r.to.value))
              && var synced := old(conns)[d.value].link.value.ack >= old(offset);
                 && (turn.Waits? <==> !synced && !TimeUp(r, old(now), t))
                 && (turn.HandsOver? <==> (synced || (r.force && TimeUp(r, old(now), t))) && dialled)
    {
      hide Good, Moves, Best, Resumed, Only, Grew, Lawful, Chosen;
      ghost var was, r := conns, conns[c].current.value;
      Start(c, {c}, {});
      ChosenKnown(was, c, conns[c], r, fo.target);
      GoodBusy(books, Seen(), issued, {}, {}, c);
      assert {} + {c} == {c};
      now := t;
      turn, d := Cron(dialled);
    }

    /** The second half: the replicas go, and the target is dialled as the new master. */
    method HandOver(dialled: bool) returns (turn: Turn)
      requires Valid({}, {}) && AllFed()
      modifies this`conns, this`paused, this`log, this`offset, this`replica, this`fo
      ensures Valid({}, {}) && Settled() && AllFed() && turn == if dialled then HandsOver else GivesUp
      ensures dialled ==> fo == old(fo).(state := InProgress) && replica && log == old(log)
      ensures dialled ==> conns == old(conns) - Replicas(old(conns)) && paused == old(paused) - Replicas(old(conns))
      ensures !dialled ==> replica == old(replica) && GaveUp(old(conns) - Replicas(old(conns)), old(paused), old(log))
    {
      GoodPlan(books, Seen(), issued, {}, {}, fo.(state := InProgress));
      fo := fo.(state := InProgress);
      DropReplicas();
      if !dialled {
        GiveUp(old(conns), old(paused));
        return GivesUp;
      }
      replica := true;
      return HandsOver;
    }

    /** A failover is over that did not come about: but for connections that are closing or whose peer is gone,
        every parked write is the next to be answered on its connection, unless one of them starts another. */
    ghost predicate GaveUp(kept: Conns, parked: set<ConnId>, before: seq<Entry>)
      reads this
    {
      && Only(kept, conns, parked, Around()) && Grew(before, log, kept.Keys, replica)
      && Resumed(kept, parked, before, Seen(), Around())
      && (fo.state == Idle ==> forall c :: c in conns ==> conns[c].parked.None?)
    }

    /** `was` and `parked` are from before the replicas were dropped, if they were. */
    method GiveUp(ghost was: Conns, ghost parked: set<ConnId>)
      requires Valid({}, {}) && AllFed() && paused == parked - (was.Keys - conns.Keys) && conns.Keys <= was.Keys
      modifies this`conns, this`paused, this`log, this`offset, this`fo
      ensures Valid({}, {}) && Settled() && AllFed() && GaveUp(old(conns), parked, old(log))
    {
      ghost var s := Seen();
      Reset();
      MovesMean(books, s.(fo := NoPlan), Seen(), s.paused, {}, Around());
      Widened(s.conns, conns, s.paused, parked, was.Keys - s.conns.Keys, Around());
    }

    /** `failover_reset`: the failover is over, completed or not.  Every parked write of a live
        connection is answered now, unless a request read behind one of them starts a new failover; it
        runs, and on a server that was demoted none does. */
    method Reset()
      requires Valid({}, {}) && AllFed()
      modifies this`conns, this`paused, this`log, this`offset, this`fo
      ensures Valid({}, {}) && Settled() && AllFed()
      ensures Moves(books, old(Seen()).(fo := NoPlan), Seen(), old(paused), {}, Around())
      ensures Resumed(old(conns), old(paused), old(log), Seen(), Around())
      ensures fo.state == Idle ==> forall c :: c in conns ==> conns[c].parked.None?
    {
      GoodPlan(books, Seen(), issued, {}, {}, NoPlan);
      fo := NoPlan;
      ghost var s := Seen();
      Resume({}, {});
      MovesMean(books, s, Seen(), s.paused, {}, Around());
      if fo.state == Idle { NoneParked(books, Seen(), issued, {}); }
    }
  }
}
