/** The write gate of a coordinated FAILOVER, on values: what is done to a connection, the invariant of
    all connections and the log, and what dispatching may change. */
module Gate {
  import opened Common

  datatype State = Idle | WaitForSync | InProgress

  type Addr = (string, nat)

  datatype Req =
    | Read
    | Write(what: string)
    | StartFailover(to: Option<Addr>, force: bool, timeout: nat)
    | AbortFailover
    | Multi
    | Exec
    | Discard

  /** EXEC answers `Began` with the requests it is about to run, then they are answered one by one. */
  datatype Outcome = Served | Applied | ReadOnly | Refused | Queued | Began(batch: seq<Req>) | Aborted | Nil

  /** Where a request is dispatched: on its own, between MULTI and EXEC, or by EXEC. */
  datatype Mode = Plain | InMulti | InExec

  /** An answer, with the failover state at that moment. */
  datatype Handled = Handled(req: Req, outcome: Outcome, mode: Mode, state: State)

  /** An attached replica: where it can be reached, with port 0 if it has not said, and its last ack. */
  datatype Link = Link(host: string, port: nat, ack: nat)

  datatype Txn = Txn(dirty: bool, queue: seq<Req>)

  /** `incoming` are complete requests not read yet, `current` the one being dispatched, `parked` the
      write kept in `fo_cmd` while `fo_write_pending` is set; `multi` is there while `in_multi` is set,
      and `batch` is what EXEC still has to run while `in_exec` is set; `done` is what was answered, in
      order.  A replica has a `link`. */
  datatype Conn = Conn(
    incoming: seq<Req>, current: Option<Req>, parked: Option<Req>, wantClose: bool,
    multi: Option<Txn>, inExec: bool, batch: seq<Req>, done: seq<Handled>, link: Option<Link>)

  /** A write that ran, with the failover state and the role at that moment. */
  datatype Entry = Entry(c: ConnId, req: Req, state: State, replica: bool)

  type Conns = map<ConnId, Conn>
  type Issued = map<ConnId, seq<Req>>

  const NewConn := Conn([], None, None, false, None, false, [], [], None)

  function Opt(r: Option<Req>): seq<Req> { if r.Some? then [r.value] else [] }

  function ModeOf(k: Conn): Mode { if k.inExec then InExec else if k.multi.Some? then InMulti else Plain }

  /** MULTI, EXEC and DISCARD are never queued. */
  predicate Queueable(r: Req) { !r.Multi? && !r.Exec? && !r.Discard? }

  predicate AllQueueable(q: seq<Req>) { forall r :: r in q ==> Queueable(r) }

  // ---- what a transaction is, told from its answers ------------------------------------------

  datatype Phase = NoTxn | Open(txn: Txn) | Running(left: seq<Req>) | Broken

  function Rest(left: seq<Req>): Phase { if left == [] then NoTxn else Running(left) }

  /** An answer inside MULTI. */
  function OpenStep(t: Txn, h: Handled): Phase {
    match h.req
    case Multi => if h.outcome.Refused? then Open(t) else Broken
    case Discard => if h.outcome.Served? then NoTxn else Broken
    case Exec =>
      if t.dirty then if h.outcome.Aborted? then NoTxn else Broken
      else if h.outcome.Nil? then NoTxn
      else if h.outcome == Began(t.queue) then Rest(t.queue)
      else Broken
    case r =>
      if h.outcome.Queued? then Open(t.(queue := t.queue + [r]))
      else if r.Write? && (h.outcome.ReadOnly? || h.outcome.Refused?) then Open(t.(dirty := true))
      else Broken
  }

  /** The answers a connection may get one after another.  Requests are queued between MULTI and EXEC; a
      write turned away there spoils the transaction and EXEC then runs nothing; else EXEC answers
      for each queued request, once and in order. */
  function PhaseStep(p: Phase, h: Handled): Phase {
    match p
    case NoTxn =>
      if !h.mode.Plain? || h.outcome.Queued? || ((h.req.Exec? || h.req.Discard?) && !h.outcome.Refused?) then Broken
      else if h.req.Multi? then if h.outcome.Served? then Open(Txn(false, [])) else Broken
      else NoTxn
    case Open(t) => if h.mode.InMulti? then OpenStep(t, h) else Broken
    case Running(q) => if h.mode.InExec? && q != [] && h.req == q[0] && !h.outcome.Queued? then Rest(q[1..]) else Broken
    case Broken => Broken
  }

  function PhaseOf(done: seq<Handled>): Phase {
    if done == [] then NoTxn else PhaseStep(PhaseOf(done[..|done| - 1]), done[|done| - 1])
  }

  // ---- the books: measures over the whole state --------------------------------------------------

  /** Requests still to dispatch, or to dispatch again. */
  ghost function Weight(k: Conn): nat {
    2 * |k.incoming| + |Opt(k.current)| + |Opt(k.parked)| + |k.batch|
    + if k.multi.Some? then |k.multi.value.queue| else 0
  }

  ghost function Left(m: Conns): nat {
    if m == map[] then 0 else var c :| c in m; Weight(m[c]) + Left(m - {c})
  }

  function IfBy(e: Entry, c: ConnId): seq<Req> { if e.c == c then [e.req] else [] }

  /** The writes of one connection that ran, in order. */
  function RanBy(log: seq<Entry>, c: ConnId): seq<Req> {
    if log == [] then [] else RanBy(log[..|log| - 1], c) + IfBy(log[|log| - 1], c)
  }

  function IfApplied(h: Handled): seq<Req> { if h.outcome.Applied? then [h.req] else [] }

  /** The requests a connection was told had run, in order. */
  function ToldRan(done: seq<Handled>): seq<Req> {
    if done == [] then [] else ToldRan(done[..|done| - 1]) + IfApplied(done[|done| - 1])
  }

  /** What EXEC runs was asked before, when it was queued. */
  function IfAsked(h: Handled): seq<Req> { if h.mode.InExec? then [] else [h.req] }

  /** The requests that were answered, in order. */
  function Asked(done: seq<Handled>): seq<Req> {
    if done == [] then [] else Asked(done[..|done| - 1]) + IfAsked(done[|done| - 1])
  }

  function Size(e: Entry): nat { if e.req.Write? then |e.req.what| else 0 }

  /** How many bytes the writes put into the stream. */
  function Written(log: seq<Entry>): nat {
    if log == [] then 0 else Written(log[..|log| - 1]) + Size(log[|log| - 1])
  }

  /** The measures as values, and the laws that determine them; see `BooksAre`. */
  datatype Books = Books(
    ran: (seq<Entry>, ConnId) -> seq<Req>, told: seq<Handled> -> seq<Req>, asked: seq<Handled> -> seq<Req>,
    phase: seq<Handled> -> Phase, written: seq<Entry> -> nat, left: Conns -> nat)

  ghost predicate Laws(b: Books) {
    && b.told([]) == [] && b.asked([]) == [] && b.phase([]) == NoTxn && b.written([]) == 0 && b.left(map[]) == 0
    && (forall c :: b.ran([], c) == [])
    && (forall done, h {:trigger b.told(done + [h])} :: b.told(done + [h]) == b.told(done) + IfApplied(h))
    && (forall done, h {:trigger b.asked(done + [h])} :: b.asked(done + [h]) == b.asked(done) + IfAsked(h))
    && (forall done, h {:trigger b.phase(done + [h])} :: b.phase(done + [h]) == PhaseStep(b.phase(done), h))
    && (forall log, e, c {:trigger b.ran(log + [e], c)} :: b.ran(log + [e], c) == b.ran(log, c) + IfBy(e, c))
    && (forall log, e {:trigger b.written(log + [e])} :: b.written(log + [e]) == b.written(log) + Size(e))
    && (forall m: Conns, c, k {:trigger b.left(m[c := k])} :: c in m ==>
          b.left(m[c := k]) == b.left(m) - Weight(m[c]) + Weight(k))
    && (forall m: Conns, c {:trigger b.left(m - {c})} :: c in m ==> b.left(m - {c}) == b.left(m) - Weight(m[c]))
  }

  /** The laws, kept out of sight of the proofs that do not ask for them. */
  ghost predicate Lawful(b: Books) { forall n: nat {:trigger Shown(OfLaws, n)} :: Shown(OfLaws, n) ==> Laws(b) }

  lemma LawsOf(b: Books)
    requires Lawful(b)
    ensures Laws(b)
  {
    assert Shown(OfLaws, 0);
  }

  ghost function TrueBooks(): Books {
    Books((log: seq<Entry>, c: ConnId) => RanBy(log, c), (done: seq<Handled>) => ToldRan(done),
          (done: seq<Handled>) => Asked(done),
          (done: seq<Handled>) => PhaseOf(done), (log: seq<Entry>) => Written(log), (m: Conns) => Left(m))
  }

  lemma {:induction false} LeftOf(m: Conns, c: ConnId)
    requires c in m
    ensures Left(m) == Weight(m[c]) + Left(m - {c})
    decreases |m|
  {
    var d :| d in m && Left(m) == Weight(m[d]) + Left(m - {d});
    if d != c {
      LeftOf(m - {d}, c);
      LeftOf(m - {c}, d);
      assert m - {d} - {c} == m - {c} - {d};
    }
  }

  lemma LeftUpdate(m: Conns, c: ConnId, k: Conn)
    requires c in m
    ensures Left(m[c := k]) == Left(m) - Weight(m[c]) + Weight(k)
  {
    LeftOf(m, c);
    LeftOf(m[c := k], c);
    assert m[c := k] - {c} == m - {c};
  }

  lemma RanSnoc(log: seq<Entry>, e: Entry, c: ConnId)
    ensures RanBy(log + [e], c) == RanBy(log, c) + IfBy(e, c) && Written(log + [e]) == Written(log) + Size(e)
  {
    assert (log + [e])[..|log|] == log;
  }

  lemma ToldSnoc(done: seq<Handled>, h: Handled)
    ensures ToldRan(done + [h]) == ToldRan(done) + IfApplied(h) && Asked(done + [h]) == Asked(done) + IfAsked(h)
    ensures PhaseOf(done + [h]) == PhaseStep(PhaseOf(done), h)
  {
    assert (done + [h])[..|done|] == done;
  }

  lemma TrueBooksLawful()
    ensures Laws(TrueBooks())
  {
    var b := TrueBooks();
    forall done, h
      ensures b.told(done + [h]) == b.told(done) + IfApplied(h) && b.asked(done + [h]) == b.asked(done) + IfAsked(h)
      ensures b.phase(done + [h]) == PhaseStep(b.phase(done), h)
    {
      ToldSnoc(done, h);
    }
    forall log, e, c ensures b.ran(log + [e], c) == b.ran(log, c) + IfBy(e, c) { RanSnoc(log, e, c); }
    forall log, e ensures b.written(log + [e]) == b.written(log) + Size(e) { RanSnoc(log, e, 0); }
    forall m: Conns, c, k | c in m
      ensures b.left(m[c := k]) == b.left(m) - Weight(m[c]) + Weight(k)
    {
      LeftUpdate(m, c, k);
    }
    forall m: Conns, c | c in m ensures b.left(m - {c}) == b.left(m) - Weight(m[c]) { LeftOf(m, c); }
  }

  /** The laws leave no choice. */
  lemma {:induction false} BooksAre(b: Books, log: seq<Entry>, c: ConnId)
    requires Laws(b)
    ensures b.ran(log, c) == RanBy(log, c) && b.written(log) == Written(log)
  {
    if log != [] {
      BooksAre(b, log[..|log| - 1], c);
      assert log == log[..|log| - 1] + [log[|log| - 1]];
    }
  }

  lemma {:induction false} TalliesAre(b: Books, done: seq<Handled>)
    requires Laws(b)
    ensures b.told(done) == ToldRan(done) && b.asked(done) == Asked(done) && b.phase(done) == PhaseOf(done)
  {
    if done != [] {
      TalliesAre(b, done[..|done| - 1]);
      assert done == done[..|done| - 1] + [done[|done| - 1]];
    }
  }

  lemma {:induction false} NeverRan(b: Books, log: seq<Entry>, c: ConnId)
    requires Lawful(b) && forall i :: 0 <= i < |log| ==> log[i].c != c
    ensures b.ran(log, c) == b.told([]) == []
  {
    LawsOf(b);
    if log != [] {
      NeverRan(b, log[..|log| - 1], c);
      assert log == log[..|log| - 1] + [log[|log| - 1]];
    }
  }

  /** The part of the server that dispatching changes. */
  datatype Snap = Snap(conns: Conns, paused: set<ConnId>, log: seq<Entry>, fo: Plan)

  // ---- the invariant: one connection ---------------------------------------------------------------

  /** Everything the connection ever asked, in order: answered, in hand, parked, still to read. */
  ghost function History(b: Books, k: Conn): seq<Req> {
    b.asked(k.done) + (if k.inExec then [] else Opt(k.current)) + Opt(k.parked) + k.incoming
  }

  /** The phase the connection's fields stand for. */
  ghost function PhaseIn(k: Conn): Phase {
    if k.inExec then Rest(Opt(k.current) + k.batch) else if k.multi.Some? then Open(k.multi.value) else NoTxn
  }

  /** How the fields of a transaction go together. */
  ghost predicate Formed(k: Conn) {
    && (k.parked.Some? ==> k.parked.value.Write? && k.current.None? && ModeOf(k).Plain?)
    && (if k.inExec then k.multi.None? else k.batch == [])
    && (k.inExec && k.current.Some? ==> Queueable(k.current.value))
    && AllQueueable(k.batch) && (k.multi.Some? ==> AllQueueable(k.multi.value.queue))
  }

  /** Nothing asked on a live connection is lost, repeated or reordered, and what was answered is what
      its transactions call for. */
  ghost predicate ConnOk(b: Books, k: Conn, issued: seq<Req>) {
    (!k.wantClose ==> History(b, k) == issued) && Formed(k) && b.phase(k.done) == PhaseIn(k)
  }

  predicate Idling(k: Conn) { k.current.None? && !k.inExec }

  /** Only connections in `busy` are being dispatched; `held` are those whose parked write is about to be. */
  ghost predicate Ok(b: Books, conns: Conns, paused: set<ConnId>, issued: Issued, busy: set<ConnId>,
      held: set<ConnId>)
  {
    && (forall c :: c in conns ==> c in issued && ConnOk(b, conns[c], issued[c]))
    && (forall c :: c in conns && c !in busy ==> Idling(conns[c]))
    && (forall c :: c in conns && conns[c].parked.Some? ==> c in paused || c in held)
    && (forall c :: c in paused ==> c in conns && conns[c].parked.Some?)
    && (forall c :: c in held ==> c in conns && conns[c].parked.Some? && c !in paused)
  }

  // ---- the invariant: what ran ----------------------------------------------------------------

  /** Every write that ran, ran on a master outside a failover. */
  ghost predicate Clean(log: seq<Entry>) {
    forall i :: 0 <= i < |log| ==> log[i].state == Idle && !log[i].replica
  }

  /** For each connection, the writes that ran are exactly those it was told had run: each one once, in
      order, none that was refused, dropped or is still parked. */
  ghost predicate Ledger(b: Books, conns: Conns, issued: Issued, log: seq<Entry>) {
    && (forall c :: c in conns ==> b.ran(log, c) == b.told(conns[c].done))
    && (forall i :: 0 <= i < |log| ==> log[i].c in issued)
  }

  /** The invariant of the connections and the log, shown only to the proofs that ask for it. */
  ghost predicate Good(b: Books, s: Snap, issued: Issued, busy: set<ConnId>, held: set<ConnId>) {
    s.conns.Keys <= issued.Keys
    && forall n: nat {:trigger Shown(OfState, n)} :: Shown(OfState, n) ==> Good'(b, s, issued, busy, held)
  }

  ghost predicate Good'(b: Books, s: Snap, issued: Issued, busy: set<ConnId>, held: set<ConnId>) {
    Ok(b, s.conns, s.paused, issued, busy, held) && Clean(s.log) && Ledger(b, s.conns, issued, s.log)
  }

  // ---- what is done to one connection --------------------------------------------------------

  function TakeNext(k: Conn): Conn
    requires k.incoming != []
  {
    k.(current := Some(k.incoming[0]), incoming := k.incoming[1..])
  }

  function TakeBatched(k: Conn): Conn
    requires k.batch != []
  {
    k.(current := Some(k.batch[0]), batch := k.batch[1..])
  }

  function Park(k: Conn): Conn { k.(parked := k.current, current := None) }

  /** The write as it comes back from `fo_cmd`; a connection that is closing drops it. */
  function Unheld(k: Conn): Conn {
    if k.wantClose then k.(parked := None) else k.(current := k.parked, parked := None)
  }

  function Reply'(k: Conn, o: Outcome, state: State): Handled
    requires k.current.Some?
  {
    Handled(k.current.value, o, ModeOf(k), state)
  }

  /** What the request and its outcome make of the transaction. */
  function Turned(k: Conn, r: Req, o: Outcome): Conn {
    if k.inExec then k
    else if k.multi.None? then if r.Multi? && o.Served? then k.(multi := Some(Txn(false, []))) else k
    else match o {
           case Queued => k.(multi := Some(k.multi.value.(queue := k.multi.value.queue + [r])))
           case Began(batch) => k.(multi := None, inExec := true, batch := batch)
           case Aborted => k.(multi := None)
           case Nil => k.(multi := None)
           case Served => k.(multi := None)
           case _ => if r.Write? then k.(multi := Some(k.multi.value.(dirty := true))) else k
         }
  }

  /** The request in hand is answered. */
  function Finish(k: Conn, o: Outcome, state: State): Conn
    requires k.current.Some?
  {
    Turned(k, k.current.value, o).(done := k.done + [Reply'(k, o, state)], current := None)
  }

  /** Whether the answer is one that the transaction calls for. */
  ghost predicate Apt(k: Conn, o: Outcome, state: State) {
    k.current.Some? && !PhaseStep(PhaseIn(k), Reply'(k, o, state)).Broken?
  }

  /** What becomes of a write at the gate, if it is not parked: refused in a transaction while a failover
      runs, refused on a replica, queued, or run. */
  function Verdict(mode: Mode, state: State, replica: bool): Outcome {
    if state != Idle then Refused else if replica then ReadOnly else if mode.InMulti? then Queued else Applied
  }

  function Gated(k: Conn, state: State, replica: bool): Conn
    requires k.current.Some?
  {
    if state != Idle && ModeOf(k).Plain? then Park(k) else Finish(k, Verdict(ModeOf(k), state, replica), state)
  }

  /** Whether nothing can run: the gate is closed and the request does not open it. */
  predicate Quiet(state: State, k: Conn)
    requires k.current.Some?
  {
    && state != Idle && (k.current.value.AbortFailover? ==> k.multi.Some?)
    && (k.current.value.Exec? && k.multi.Some? ==> AbortFailover !in k.multi.value.queue)
  }

  /** What a request is answered at once, whatever else is going on. */
  function AtOnce(k: Conn): Option<Outcome>
    requires k.current.Some?
  {
    match k.current.value
    case Multi => Some(if k.multi.Some? then Refused else Served)
    case Discard => Some(if k.multi.Some? then Served else Refused)
    case Exec => if k.multi.None? then Some(Refused) else if k.multi.value.dirty then Some(Aborted) else None
    case Write(_) => None
    case r => if k.multi.Some? then Some(Queued) else if r.Read? then Some(Served) else None
  }

  /** What EXEC runs, if no FAILOVER is among it: all writes, or none. */
  function Runs(c: ConnId, q: seq<Req>, state: State, replica: bool): seq<Entry> {
    if q == [] then [] else RunsOne(c, q[0], state, replica) + Runs(c, q[1..], state, replica)
  }

  function RunsOne(c: ConnId, r: Req, state: State, replica: bool): seq<Entry> {
    if r.Write? && state == Idle && !replica then [Entry(c, r, state, replica)] else []
  }

  function WritesOf(q: seq<Req>): seq<Req> {
    if q == [] then [] else (if q[0].Write? then [q[0]] else []) + WritesOf(q[1..])
  }

  /** A batch runs just its writes, in order, on a master outside a failover, and else nothing. */
  lemma {:induction false} RunsMean(c: ConnId, q: seq<Req>, state: State, replica: bool)
    ensures var run := Runs(c, q, state, replica);
            && (state != Idle || replica ==> run == [])
            && (state == Idle && !replica ==>
                  |run| == |WritesOf(q)|
                  && forall i :: 0 <= i < |run| ==> run[i] == Entry(c, WritesOf(q)[i], Idle, false))
  {
    if q != [] { RunsMean(c, q[1..], state, replica); }
  }

  lemma RunsHead(c: ConnId, r: Req, q: seq<Req>, state: State, replica: bool)
    ensures Runs(c, [r] + q, state, replica) == RunsOne(c, r, state, replica) + Runs(c, q, state, replica)
    ensures Calm([r] + q) ==> Calm(q) && !r.StartFailover? && !r.AbortFailover?
    ensures AbortFailover !in [r] + q ==> AbortFailover !in q && !r.AbortFailover?
  {
    assert ([r] + q)[1..] == q;
    assert r in [r] + q && forall x :: x in q ==> x in [r] + q;
  }

  predicate Calm(q: seq<Req>) { forall r :: r in q ==> !r.StartFailover? && !r.AbortFailover? }

  /** What the gate lets run. */
  function Logged(c: ConnId, k: Conn, state: State, replica: bool): seq<Entry>
    requires k.current.Some?
  {
    if Verdict(ModeOf(k), state, replica).Applied? then [Entry(c, k.current.value, state, replica)] else []
  }

  /** The gate in its own terms.  A write runs exactly on a master outside a failover and not inside MULTI; it
      waits exactly if it comes on its own during a failover; inside MULTI it is queued exactly where it
      could run, and else spoils the transaction. */
  lemma GateRules(c: ConnId, k: Conn, state: State, replica: bool)
    requires k.current.Some? && k.current.value.Write? && k.parked.None? && (k.inExec ==> k.multi.None?)
    ensures var k', w, o := Gated(k, state, replica), k.current.value, Verdict(ModeOf(k), state, replica);
            && (Logged(c, k, state, replica) != [] <==> !replica && state == Idle && k.multi.None?)
            && (Logged(c, k, state, replica) != [] ==> Logged(c, k, state, replica) == [Entry(c, w, Idle, false)])
            && (k'.parked == Some(w) <==> state != Idle && k.multi.None? && !k.inExec)
            && k'.done == (if k'.parked.Some? then k.done else k.done + [Handled(w, o, ModeOf(k), state)])
            && (k.multi.Some? ==>
                  k'.multi == Some(if !replica && state == Idle then k.multi.value.(queue := k.multi.value.queue + [w])
                                   else k.multi.value.(dirty := true)))
            && (o.Refused? <==> state != Idle) && (o.ReadOnly? <==> state == Idle && replica)
  {
  }

  /** What a transaction's commands and reads are answered: MULTI and DISCARD by whether one is open; EXEC is
      refused without one and aborted after a rejected write; inside one all others are queued. */
  lemma ControlRules(k: Conn)
    requires k.current.Some? && !k.current.value.Write?
    ensures var r, o, open := k.current.value, AtOnce(k), k.multi.Some?;
            && (r.Multi? ==> o == Some(if open then Refused else Served))
            && (r.Discard? ==> o == Some(if open then Served else Refused))
            && (r.Exec? ==> (o == Some(Refused) <==> !open) && (o == Some(Aborted) <==> open && k.multi.value.dirty))
            && (Queueable(r) && open ==> o == Some(Queued))
            && (r.Read? && !open ==> o == Some(Served)) && (o.None? ==> r.Exec? || r.StartFailover? || r.AbortFailover?)
  {
  }

  /** A write is answered only with what the gate says at that moment; one on its own never during a failover. */
  predicate Fair(h: Handled, replica: bool) {
    h.req.Write? ==> h.outcome == Verdict(h.mode, h.state, replica) && (h.mode.Plain? ==> h.state == Idle)
  }

  lemma NewOk(b: Books)
    requires Lawful(b)
    ensures ConnOk(b, NewConn, [])
  {
    LawsOf(b);
  }

  lemma TakeNextOk(b: Books, k: Conn, issued: seq<Req>)
    requires ConnOk(b, k, issued) && Idling(k) && k.parked.None? && k.incoming != []
    ensures ConnOk(b, TakeNext(k), issued)
  {
    assert [k.incoming[0]] + k.incoming[1..] == k.incoming;
    assert History(b, TakeNext(k)) == History(b, k);
  }

  lemma TakeBatchedOk(b: Books, k: Conn, issued: seq<Req>)
    requires ConnOk(b, k, issued) && k.inExec && k.current.None? && k.batch != []
    ensures ConnOk(b, TakeBatched(k), issued)
  {
    assert [k.batch[0]] + k.batch[1..] == [] + k.batch;
    assert History(b, TakeBatched(k)) == History(b, k);
  }

  lemma ParkOk(b: Books, k: Conn, issued: seq<Req>)
    requires ConnOk(b, k, issued) && k.current.Some? && k.current.value.Write? && ModeOf(k).Plain?
    ensures ConnOk(b, Park(k), issued)
  {
    assert History(b, Park(k)) == History(b, k);
  }

  lemma UnheldOk(b: Books, k: Conn, issued: seq<Req>)
    requires ConnOk(b, k, issued) && k.parked.Some?
    ensures ConnOk(b, Unheld(k), issued) && ModeOf(Unheld(k)).Plain?
  {
    if !k.wantClose { assert History(b, Unheld(k)) == History(b, k); }
  }

  lemma FinishPhase(k: Conn, o: Outcome, state: State)
    requires Formed(k) && Apt(k, o, state)
    ensures Formed(Finish(k, o, state)) && PhaseIn(Finish(k, o, state)) == PhaseStep(PhaseIn(k), Reply'(k, o, state))
  {
    var k' := Finish(k, o, state);
    if k.inExec {
      assert (Opt(k.current) + k.batch)[1..] == [] + k.batch;
    } else if k.multi.Some? && o.Queued? {
      assert forall r :: r in k'.multi.value.queue ==> r in k.multi.value.queue || r == k.current.value;
    } else if k'.inExec {
      assert [] + k'.batch == k'.batch;
    }
  }

  lemma FinishOk(b: Books, k: Conn, o: Outcome, state: State, issued: seq<Req>)
    requires Laws(b) && ConnOk(b, k, issued) && Apt(k, o, state)
    ensures ConnOk(b, Finish(k, o, state), issued)
    ensures b.told(Finish(k, o, state).done) == b.told(k.done) + if o.Applied? then [k.current.value] else []
  {
    hide PhaseStep, PhaseIn;
    FinishPhase(k, o, state);
    assert k.parked.None?;
    if !k.wantClose { assert History(b, Finish(k, o, state)) == History(b, k); }
  }

  lemma GateApt(k: Conn, state: State, replica: bool)
    requires Formed(k) && k.current.Some? && k.current.value.Write? && (state != Idle ==> !ModeOf(k).Plain?)
    ensures Apt(k, Verdict(ModeOf(k), state, replica), state)
  {
  }

  /** Answering asks for nothing: what a transaction holds was asked for before. */
  lemma FinishLacks(k: Conn, o: Outcome, state: State)
    requires Formed(k) && Apt(k, o, state)
    ensures forall kind :: Lacks(k, kind) ==> Lacks(Finish(k, o, state), kind)
  {
    var k' := Finish(k, o, state);
    forall kind | Lacks(k, kind) ensures Lacks(k', kind) {
      if k'.multi.Some? && k.multi.Some? {
        forall r | r in k'.multi.value.queue ensures !Is(r, kind) {
          if r !in k.multi.value.queue { assert r in Opt(k.current); }
        }
      }
    }
  }

  lemma MovedLacks(k: Conn)
    ensures forall kind :: Lacks(k, kind) ==>
              Lacks(Park(k), kind) && Lacks(Unheld(k), kind) && Lacks(k.(inExec := false), kind)
    ensures k.incoming != [] ==> forall kind :: Lacks(k, kind) ==> Lacks(TakeNext(k), kind)
    ensures k.batch != [] ==> forall kind :: Lacks(k, kind) ==> Lacks(TakeBatched(k), kind)
  {
  }

  lemma FinishWeighs(k: Conn, o: Outcome, state: State)
    requires Formed(k) && Apt(k, o, state)
    ensures Weight(Finish(k, o, state)) <= Weight(k) - if o.Queued? then 0 else 1
  {
  }

  // ---- what is done to the server ---------------------------------------------------------------------

  /** Whether a connection may be worked on. */
  ghost predicate Free(s: Snap, c: ConnId, held: set<ConnId>) { c in s.conns && c !in held && c !in s.paused }

  ghost function With(s: Snap, c: ConnId, k: Conn): Snap { s.(conns := s.conns[c := k]) }

  ghost function Without(s: Snap, c: ConnId): Snap { s.(conns := s.conns - {c}, paused := s.paused - {c}) }

  /** The invariant does not speak of the failover. */
  lemma GoodPlan(b: Books, s: Snap, issued: Issued, busy: set<ConnId>, held: set<ConnId>, fo: Plan)
    requires Good(b, s, issued, busy, held)
    ensures Good(b, s.(fo := fo), issued, busy, held)
  {
    assert Shown(OfState, 0);
  }

  /** What the invariant says of one connection, but for its history. */
  lemma GoodAt(b: Books, s: Snap, issued: Issued, busy: set<ConnId>, held: set<ConnId>, c: ConnId)
    requires Good(b, s, issued, busy, held)
    ensures c in s.conns ==> c in issued && Formed(s.conns[c]) && (c !in busy ==> Idling(s.conns[c]))
    ensures c in s.conns && s.conns[c].parked.Some? <==> c in s.paused || c in held
    ensures c in held ==> c !in s.paused
  {
    assert Shown(OfState, 0);
  }

  lemma GoodOk(b: Books, s: Snap, issued: Issued, busy: set<ConnId>, held: set<ConnId>, c: ConnId)
    requires Good(b, s, issued, busy, held) && c in s.conns
    ensures ConnOk(b, s.conns[c], issued[c]) && (c !in busy ==> Idling(s.conns[c]))
  {
    assert Shown(OfState, 0);
  }

  lemma GoodMeans(b: Books, s: Snap, issued: Issued, busy: set<ConnId>, held: set<ConnId>, c: ConnId)
    requires Lawful(b) && Good(b, s, issued, busy, held) && c in s.conns && c !in busy
    ensures var k := s.conns[c];
            && RanBy(s.log, c) == ToldRan(k.done)
            && PhaseOf(k.done) == (if k.multi.Some? then Open(k.multi.value) else NoTxn)
            && (!k.wantClose ==> Asked(k.done) + Opt(k.parked) + k.incoming == issued[c])
  {
    assert Shown(OfState, 0);
    LawsOf(b);
    BooksAre(b, s.log, c);
    TalliesAre(b, s.conns[c].done);
    var k, q: seq<Req> := s.conns[c], [];
    assert History(b, k) == Asked(k.done) + q + Opt(k.parked) + k.incoming;
    assert Asked(k.done) + q == Asked(k.done);
  }

  lemma OkPut(b: Books, conns: Conns, paused: set<ConnId>, issued: Issued, busy: set<ConnId>, held: set<ConnId>,
      c: ConnId, k: Conn)
    requires Ok(b, conns, paused, issued, busy, held) && c in conns && ConnOk(b, k, issued[c])
    requires (k.parked.Some? <==> conns[c].parked.Some?) && (c !in busy ==> Idling(k))
    ensures Ok(b, conns[c := k], paused, issued, busy, held)
  {
  }

  lemma LedgerPut(b: Books, conns: Conns, issued: Issued, log: seq<Entry>, c: ConnId, k: Conn)
    requires Ledger(b, conns, issued, log) && c in conns && b.told(k.done) == b.told(conns[c].done)
    ensures Ledger(b, conns[c := k], issued, log)
  {
  }

  lemma LedgerRun(b: Books, conns: Conns, issued: Issued, log: seq<Entry>, e: Entry, k: Conn)
    requires Laws(b) && Ledger(b, conns, issued, log) && e.c in conns && e.c in issued
    requires b.told(k.done) == b.told(conns[e.c].done) + [e.req]
    ensures Ledger(b, conns[e.c := k], issued, log + [e])
  {
  }

  lemma GoodPut(b: Books, s: Snap, issued: Issued, busy: set<ConnId>, held: set<ConnId>, c: ConnId, k: Conn)
    requires Good(b, s, issued, busy, held) && c in s.conns && ConnOk(b, k, issued[c])
    requires b.told(k.done) == b.told(s.conns[c].done)
    requires (k.parked.Some? <==> s.conns[c].parked.Some?) && (c !in busy ==> Idling(k))
    ensures Good(b, With(s, c, k), issued, busy, held)
  {
    assert Shown(OfState, 0);
    OkPut(b, s.conns, s.paused, issued, busy, held, c, k);
    LedgerPut(b, s.conns, issued, s.log, c, k);
  }

  /** A connection that is being dispatched changes. */
  lemma GoodSet(b: Books, s: Snap, issued: Issued, busy: set<ConnId>, held: set<ConnId>, c: ConnId, k: Conn)
    requires Good(b, s, issued, busy, held) && Free(s, c, held) && c in busy
    requires ConnOk(b, k, issued[c]) && k.parked.None? && b.told(k.done) == b.told(s.conns[c].done)
    ensures Good(b, With(s, c, k), issued, busy, held)
  {
    GoodAt(b, s, issued, busy, held, c);
    GoodPut(b, s, issued, busy, held, c, k);
  }

  lemma GoodRun(b: Books, s: Snap, issued: Issued, busy: set<ConnId>, held: set<ConnId>, e: Entry, k: Conn)
    requires Laws(b) && Good(b, s, issued, busy, held) && Free(s, e.c, held) && e.c in busy && e.state == Idle
    requires !e.replica
    requires ConnOk(b, k, issued[e.c]) && k.parked.None? && b.told(k.done) == b.told(s.conns[e.c].done) + [e.req]
    ensures Good(b, With(s, e.c, k).(log := s.log + [e]), issued, busy, held)
  {
    GoodAt(b, s, issued, busy, held, e.c);
    assert Shown(OfState, 0);
    OkPut(b, s.conns, s.paused, issued, busy, held, e.c, k);
    LedgerRun(b, s.conns, issued, s.log, e, k);
  }

  lemma GoodReply(b: Books, s: Snap, issued: Issued, busy: set<ConnId>, held: set<ConnId>, c: ConnId, o: Outcome,
      state: State)
    requires Lawful(b) && Good(b, s, issued, busy, held) && Free(s, c, held) && c in busy && Apt(s.conns[c], o, state)
    requires !o.Applied?
    ensures Good(b, With(s, c, Finish(s.conns[c], o, state)), issued, busy, held)
  {
    assert Shown(OfState, 0);
    LawsOf(b);
    FinishOk(b, s.conns[c], o, state, issued[c]);
    GoodSet(b, s, issued, busy, held, c, Finish(s.conns[c], o, state));
  }

  lemma GoodPark(b: Books, s: Snap, issued: Issued, busy: set<ConnId>, held: set<ConnId>, c: ConnId)
    requires Good(b, s, issued, busy, held) && Free(s, c, held) && c in busy && s.conns[c].current.Some?
    requires s.conns[c].current.value.Write? && ModeOf(s.conns[c]).Plain?
    ensures Good(b, With(s, c, Park(s.conns[c])).(paused := s.paused + {c}), issued, busy, held)
  {
    assert Shown(OfState, 0);
    ParkOk(b, s.conns[c], issued[c]);
  }

  lemma GoodUnhold(b: Books, s: Snap, issued: Issued, busy: set<ConnId>, held: set<ConnId>, c: ConnId)
    requires Good(b, s, issued, busy, held + {c}) && Free(s, c, held) && s.conns[c].parked.Some?
    ensures Good(b, With(s, c, Unheld(s.conns[c])), issued, busy + {c}, held)
  {
    assert Shown(OfState, 0);
    UnheldOk(b, s.conns[c], issued[c]);
  }

  lemma GoodGone(b: Books, s: Snap, issued: Issued, busy: set<ConnId>, held: set<ConnId>, c: ConnId)
    requires Good(b, s, issued, busy, held) && c !in held
    ensures Good(b, Without(s, c), issued, busy, held)
  {
    assert Shown(OfState, 0);
  }

  /** A connection starts to be dispatched, or no longer is. */
  lemma GoodBusy(b: Books, s: Snap, issued: Issued, busy: set<ConnId>, held: set<ConnId>, c: ConnId)
    ensures Good(b, s, issued, busy, held) ==> Good(b, s, issued, busy + {c}, held)
    ensures Good(b, s, issued, busy + {c}, held) && (c in s.conns ==> Idling(s.conns[c])) ==>
              Good(b, s, issued, busy, held)
  {
    assert Shown(OfState, 0);
  }

  lemma OneLess(held: set<ConnId>, parked: set<ConnId>, c: ConnId)
    requires c in parked
    ensures held + parked == held + (parked - {c}) + {c}
  {
  }

  /** The set of parked connections is taken over as a whole. */
  lemma GoodTakeAll(b: Books, s: Snap, issued: Issued, busy: set<ConnId>, held: set<ConnId>)
    requires Good(b, s, issued, busy, held)
    ensures Good(b, s.(paused := {}), issued, busy, held + s.paused) && held !! s.paused
  {
    assert Shown(OfState, 0);
  }

  lemma NoneParked(b: Books, s: Snap, issued: Issued, busy: set<ConnId>)
    requires Good(b, s, issued, busy, {}) && s.paused == {}
    ensures forall c :: c in s.conns ==> s.conns[c].parked.None?
  {
    assert Shown(OfState, 0);
  }

  lemma GoodNew(b: Books, s: Snap, issued: Issued, c: ConnId)
    requires Lawful(b) && Good(b, s, issued, {}, {}) && c !in issued
    ensures Good(b, With(s, c, NewConn), issued[c := []], {}, {})
  {
    assert Shown(OfState, 0);
    NeverRan(b, s.log, c);
    NewOk(b);
  }

  lemma ArriveOk(b: Books, k: Conn, issued: seq<Req>, reqs: seq<Req>)
    requires ConnOk(b, k, issued)
    ensures ConnOk(b, k.(incoming := k.incoming + reqs), issued + reqs)
  {
    assert History(b, k.(incoming := k.incoming + reqs)) == History(b, k) + reqs;
  }

  lemma OkAsked(b: Books, conns: Conns, paused: set<ConnId>, issued: Issued, c: ConnId, k: Conn, asked: seq<Req>)
    requires Ok(b, conns, paused, issued, {}, {}) && c in conns && ConnOk(b, k, asked) && Idling(k)
    requires k.parked == conns[c].parked
    ensures Ok(b, conns[c := k], paused, issued[c := asked], {}, {})
  {
  }

  lemma GoodArrive(b: Books, s: Snap, issued: Issued, c: ConnId, reqs: seq<Req>)
    requires Good(b, s, issued, {}, {}) && c in s.conns
    ensures var k := s.conns[c];
            Good(b, With(s, c, k.(incoming := k.incoming + reqs)), issued[c := issued[c] + reqs], {}, {})
  {
    assert Shown(OfState, 0);
    var k := s.conns[c];
    ArriveOk(b, k, issued[c], reqs);
    OkAsked(b, s.conns, s.paused, issued, c, k.(incoming := k.incoming + reqs), issued[c] + reqs);
  }

  lemma GoodRelink(b: Books, s: Snap, issued: Issued, c: ConnId, link: Option<Link>)
    requires Good(b, s, issued, {}, {}) && c in s.conns
    ensures Good(b, With(s, c, s.conns[c].(link := link)), issued, {}, {})
  {
    GoodOk(b, s, issued, {}, {}, c);
    GoodPut(b, s, issued, {}, {}, c, s.conns[c].(link := link));
  }

  lemma GoodClosing(b: Books, s: Snap, issued: Issued, c: ConnId)
    requires Good(b, s, issued, {}, {}) && c in s.conns
    ensures Good(b, With(s, c, s.conns[c].(wantClose := true)), issued, {}, {})
  {
    GoodOk(b, s, issued, {}, {}, c);
    GoodPut(b, s, issued, {}, {}, c, s.conns[c].(wantClose := true));
  }

  lemma WriteApt(b: Books, s: Snap, issued: Issued, busy: set<ConnId>, held: set<ConnId>, c: ConnId, state: State,
      replica: bool)
    requires Good(b, s, issued, busy, held) && c in s.conns && s.conns[c].current.Some?
    requires s.conns[c].current.value.Write?
    ensures state != Idle ==>
              ModeOf(s.conns[c]).Plain? || Apt(s.conns[c], Verdict(ModeOf(s.conns[c]), state, replica), state)
    ensures state == Idle ==> Apt(s.conns[c], Verdict(ModeOf(s.conns[c]), state, replica), state)
  {
    assert Shown(OfState, 0);
    assert Formed(s.conns[c]);
    if state == Idle || !ModeOf(s.conns[c]).Plain? { GateApt(s.conns[c], state, replica); }
  }

  /** The answers of the transaction commands, and to requests that are queued. */
  lemma ControlApt(b: Books, s: Snap, issued: Issued, busy: set<ConnId>, held: set<ConnId>, c: ConnId, state: State)
    requires Good(b, s, issued, busy, held) && c in s.conns && s.conns[c].current.Some?
    ensures var k := s.conns[c]; var r := k.current.value;
            && (r.Multi? ==> Apt(k, if k.multi.Some? then Refused else Served, state))
            && (r.Discard? ==> Apt(k, if k.multi.Some? then Served else Refused, state))
            && (Queueable(r) && k.multi.Some? ==> Apt(k, Queued, state))
            && (Queueable(r) && k.multi.None? ==> Apt(k, Served, state) && Apt(k, Refused, state))
            && (k.multi.Some? || !Queueable(r) ==> !k.inExec)
  {
    assert Shown(OfState, 0);
    assert Formed(s.conns[c]);
  }

  lemma ExecApt(b: Books, s: Snap, issued: Issued, busy: set<ConnId>, held: set<ConnId>, c: ConnId, state: State)
    requires Good(b, s, issued, busy, held) && c in s.conns && s.conns[c].current == Some(Exec)
    ensures var k := s.conns[c];
            && (k.multi.None? ==> Apt(k, Refused, state))
            && (k.multi.Some? && k.multi.value.dirty ==> Apt(k, Aborted, state))
            && (k.multi.Some? && !k.multi.value.dirty ==>
                  Apt(k, Nil, state) && Apt(k, Began(k.multi.value.queue), state))
  {
    assert Shown(OfState, 0);
    assert Formed(s.conns[c]);
  }

  lemma InExecFree(b: Books, s: Snap, issued: Issued, busy: set<ConnId>, held: set<ConnId>, c: ConnId)
    requires Good(b, s, issued, busy, held) && c in s.conns && s.conns[c].inExec
    ensures c !in s.paused && c !in held && s.conns[c].parked.None? && c in issued
  {
    assert Shown(OfState, 0);
    assert Formed(s.conns[c]);
  }

  lemma GoodTakeBatched(b: Books, s: Snap, issued: Issued, busy: set<ConnId>, held: set<ConnId>, c: ConnId)
    requires Good(b, s, issued, busy, held) && c in s.conns && c in busy
    requires s.conns[c].inExec && s.conns[c].current.None? && s.conns[c].batch != []
    ensures Good(b, With(s, c, TakeBatched(s.conns[c])), issued, busy, held)
  {
    assert Shown(OfState, 0);
    InExecFree(b, s, issued, busy, held, c);
    TakeBatchedOk(b, s.conns[c], issued[c]);
    GoodSet(b, s, issued, busy, held, c, TakeBatched(s.conns[c]));
  }

  /** EXEC has run all. */
  lemma GoodEndExec(b: Books, s: Snap, issued: Issued, busy: set<ConnId>, held: set<ConnId>, c: ConnId)
    requires Good(b, s, issued, busy, held) && c in s.conns && c in busy
    requires s.conns[c].inExec && s.conns[c].current.None? && s.conns[c].batch == []
    ensures Good(b, With(s, c, s.conns[c].(inExec := false)), issued, busy, held)
  {
    assert Shown(OfState, 0);
    InExecFree(b, s, issued, busy, held, c);
    GoodSet(b, s, issued, busy, held, c, s.conns[c].(inExec := false));
  }

  lemma GoodTake(b: Books, s: Snap, issued: Issued, busy: set<ConnId>, held: set<ConnId>, c: ConnId)
    requires Good(b, s, issued, busy, held) && Free(s, c, held) && Idling(s.conns[c]) && s.conns[c].parked.None?
    requires s.conns[c].incoming != []
    ensures Good(b, With(s, c, TakeNext(s.conns[c])), issued, busy + {c}, held)
  {
    assert Shown(OfState, 0);
    GoodBusy(b, s, issued, busy, held, c);
    TakeNextOk(b, s.conns[c], issued[c]);
    GoodSet(b, s, issued, busy + {c}, held, c, TakeNext(s.conns[c]));
  }

  // ---- what a dispatch may change ----------------------------------------------------------------

  /** Nothing that could be dispatched is left lying: the connection is closing, or holds a parked write,
      or everything read was dispatched. */
  predicate Fed(k: Conn) { k.wantClose || k.parked.Some? || k.incoming == [] }

  /** The two kinds of FAILOVER. */
  datatype Kind = Starts | Aborts

  predicate Is(r: Req, kind: Kind) { if kind.Starts? then r.StartFailover? else r.AbortFailover? }

  predicate Lack(q: seq<Req>, kind: Kind) { forall r :: r in q ==> !Is(r, kind) }

  /** No request of that kind is in hand on the connection, queued, or waiting to be read. */
  ghost predicate Lacks(k: Conn, kind: Kind) {
    && Lack(k.incoming, kind) && Lack(Opt(k.current), kind) && Lack(Opt(k.parked), kind) && Lack(k.batch, kind)
    && (k.multi.Some? ==> Lack(k.multi.value.queue, kind))
  }

  ghost predicate AllLack(m: Conns, T: set<ConnId>, kind: Kind) {
    forall c :: c in T && c in m ==> Lacks(m[c], kind)
  }

  /** The role of the server, and the peers whose connection fails when it is flushed. */
  datatype Env = Env(replica: bool, broken: set<ConnId>)

  /** No answer is taken back, every write answered since then was answered as the gate says, and no new
      FAILOVER was asked for. */
  ghost predicate Answers(k: Conn, k': Conn, replica: bool) {
    && k.done <= k'.done && k.link == k'.link && k.wantClose == k'.wantClose
    && (forall kind :: Lacks(k, kind) ==> Lacks(k', kind))
    && forall i :: |k.done| <= i < |k'.done| ==> Fair(k'.done[i], replica)
  }

  lemma AnswersThen(k: Conn, k': Conn, k'': Conn, replica: bool)
    requires Answers(k, k', replica) && Answers(k', k'', replica)
    ensures Answers(k, k'', replica)
  {
    forall i | |k.done| <= i < |k''.done| ensures Fair(k''.done[i], replica) {
      if i < |k'.done| { assert k''.done[i] == k'.done[i]; }
    }
  }

  /** Only the connections of T may have changed, by being answered, and only those that are closing or whose
      peer is gone may be gone. */
  ghost predicate Only(m: Conns, m': Conns, T: set<ConnId>, e: Env) {
    && m'.Keys <= m.Keys && (forall c :: c in m && c !in T ==> c in m' && m'[c] == m[c])
    && (forall c :: c in m && c !in m' ==> m[c].wantClose || c in e.broken)
    && (forall c :: c in m' && c in m ==> Answers(m[c], m'[c], e.replica))
  }

  /** No connection is left lying that was not before; those of `open` are being worked on. */
  ghost predicate KeepsFed(m: Conns, m': Conns, open: set<ConnId>) {
    forall x :: x in m' && x in m && x !in open && Fed(m[x]) ==> Fed(m'[x])
  }

  /** Only live connections ran something, and on a replica none did. */
  ghost predicate Grew(log: seq<Entry>, log': seq<Entry>, live: set<ConnId>, replica: bool) {
    log <= log' && (replica ==> log' == log) && forall i :: |log| <= i < |log'| ==> log'[i].c in live
  }

  /** A failover begins or ends only by a request on one of T, and unless one ends it nothing runs. */
  ghost predicate Stays(s: Snap, t: Snap, T: set<ConnId>) {
    && (s.fo.state == Idle && AllLack(s.conns, T, Starts) ==> t.fo == s.fo)
    && (s.fo.state != Idle && AllLack(s.conns, T, Aborts) ==> t.fo == s.fo && t.log == s.log)
  }

  ghost predicate Changes(s: Snap, t: Snap, T: set<ConnId>, open: set<ConnId>, e: Env) {
    && Only(s.conns, t.conns, T, e) && KeepsFed(s.conns, t.conns, open) && Stays(s, t, T)
    && Grew(s.log, t.log, s.conns.Keys, e.replica)
  }

  /** What dispatching did; like the invariant, it is shown only to the proofs that ask for it. */
  ghost predicate Moves(b: Books, s: Snap, t: Snap, T: set<ConnId>, open: set<ConnId>, e: Env) {
    && t.paused <= T && b.left(t.conns) <= b.left(s.conns)
    && forall n: nat {:trigger Shown(OfChange, n)} :: Shown(OfChange, n) ==> Changes(s, t, T, open, e)
  }

  lemma MovesMean(b: Books, s: Snap, t: Snap, T: set<ConnId>, open: set<ConnId>, e: Env)
    requires Moves(b, s, t, T, open, e)
    ensures Changes(s, t, T, open, e)
  {
    assert Shown(OfChange, 0);
  }

  /** A connection outside T stays as it was. */
  lemma MovesPast(b: Books, s: Snap, t: Snap, T: set<ConnId>, open: set<ConnId>, e: Env, c: ConnId)
    requires Moves(b, s, t, T, open, e) && c in s.conns && c !in T
    ensures c in t.conns && t.conns[c] == s.conns[c]
  {
    assert Shown(OfChange, 0);
  }

  lemma MovesDone(b: Books, s: Snap, t: Snap, T: set<ConnId>, open: set<ConnId>, e: Env, c: ConnId)
    requires Moves(b, s, t, T, open, e) && c in s.conns && c in t.conns
    ensures Answers(s.conns[c], t.conns[c], e.replica)
  {
    assert Shown(OfChange, 0);
  }

  lemma MovesThen(b: Books, s: Snap, t: Snap, u: Snap, T: set<ConnId>, T': set<ConnId>, open: set<ConnId>,
      open': set<ConnId>, e: Env)
    requires Moves(b, s, t, T, open, e) && Moves(b, t, u, T', open', e) && T' <= T && open' <= open
    ensures Moves(b, s, u, T, open, e)
  {
    assert Shown(OfChange, 0);
    forall c | c in u.conns && c in s.conns ensures Answers(s.conns[c], u.conns[c], e.replica) {
      AnswersThen(s.conns[c], t.conns[c], u.conns[c], e.replica);
    }
    LackThen(s, t, T, T', e);
  }

  lemma LackThen(s: Snap, t: Snap, T: set<ConnId>, T': set<ConnId>, e: Env)
    requires Only(s.conns, t.conns, T, e) && T' <= T
    ensures forall kind :: AllLack(s.conns, T, kind) ==> AllLack(t.conns, T', kind)
  {
  }

  /** A failover was asked for, and has begun. */
  lemma MovesStarted(b: Books, s: Snap, t: Snap, T: set<ConnId>, open: set<ConnId>, e: Env, c: ConnId, fo: Plan)
    requires Moves(b, s, t, T, open, e) && s.fo.state == Idle && c in T && c in s.conns
    requires s.conns[c].current.Some? && s.conns[c].current.value.StartFailover?
    ensures Moves(b, s, t.(fo := fo), T, open, e)
  {
    assert Shown(OfChange, 0);
    assert s.conns[c].current.value in Opt(s.conns[c].current);
  }

  /** An abort was asked for, and the failover is over. */
  lemma MovesAborted(b: Books, s: Snap, t: Snap, T: set<ConnId>, open: set<ConnId>, e: Env, c: ConnId, fo: Plan)
    requires Moves(b, s.(fo := fo), t, T, open, e) && s.fo.state != Idle && c in T && c in s.conns
    requires s.conns[c].current == Some(AbortFailover)
    ensures Moves(b, s, t, T, open, e)
  {
    assert Shown(OfChange, 0);
    assert s.conns[c].current.value in Opt(s.conns[c].current);
  }

  lemma MovesSelf(b: Books, s: Snap, T: set<ConnId>, e: Env)
    requires s.paused <= T
    ensures Moves(b, s, s, T, {}, e)
  {
  }

  /** A step of one connection. */
  lemma MovesOne(b: Books, s: Snap, c: ConnId, k: Conn, paused: set<ConnId>, log: seq<Entry>, e: Env)
    requires c in s.conns && Answers(s.conns[c], k, e.replica) && paused <= s.paused + {c}
    requires log == s.log || s.fo.state == Idle
    requires Lawful(b) && Grew(s.log, log, s.conns.Keys, e.replica) && Weight(k) <= Weight(s.conns[c])
    ensures Moves(b, s, With(s, c, k).(paused := paused, log := log), s.paused + {c}, {c}, e)
    ensures b.left(s.conns[c := k]) == b.left(s.conns) - Weight(s.conns[c]) + Weight(k)
  {
    LawsOf(b);
  }

  lemma MovesGone(b: Books, s: Snap, c: ConnId, e: Env)
    requires Lawful(b) && c in s.conns && (s.conns[c].wantClose || c in e.broken)
    ensures Moves(b, s, Without(s, c), s.paused + {c}, {c}, e)
  {
    LawsOf(b);
  }

  lemma LeftGone(b: Books, conns: Conns, c: ConnId)
    requires Lawful(b) && c in conns
    ensures b.left(conns - {c}) <= b.left(conns)
  {
    LawsOf(b);
  }

  lemma MovesReply(b: Books, s: Snap, issued: Issued, busy: set<ConnId>, held: set<ConnId>, c: ConnId, o: Outcome,
      state: State, e: Env)
    requires Lawful(b) && Good(b, s, issued, busy, held) && c in s.conns && Apt(s.conns[c], o, state)
    requires Fair(Reply'(s.conns[c], o, state), e.replica)
    ensures var k := Finish(s.conns[c], o, state);
            && Answers(s.conns[c], k, e.replica) && Moves(b, s, With(s, c, k), s.paused + {c}, {c}, e)
            && (!o.Queued? ==> b.left(s.conns[c := k]) < b.left(s.conns))
  {
    assert Shown(OfState, 0);
    FinishWeighs(s.conns[c], o, state);
    FinishLacks(s.conns[c], o, state);
    MovesOne(b, s, c, Finish(s.conns[c], o, state), s.paused, s.log, e);
  }

  lemma PerformOk(b: Books, k: Conn, e: Entry, issued: seq<Req>)
    requires Lawful(b) && ConnOk(b, k, issued) && k.current == Some(e.req) && Apt(k, Applied, e.state)
    requires e.state == Idle && !ModeOf(k).InMulti?
    ensures var k' := Finish(k, Applied, e.state);
            && ConnOk(b, k', issued) && b.told(k'.done) == b.told(k.done) + [e.req]
            && Answers(k, k', false) && k'.parked.None? && Weight(k') <= Weight(k)
  {
    LawsOf(b);
    FinishOk(b, k, Applied, e.state, issued);
    FinishWeighs(k, Applied, e.state);
    FinishLacks(k, Applied, e.state);
  }

  lemma GoodPerform(b: Books, s: Snap, issued: Issued, busy: set<ConnId>, held: set<ConnId>, e: Entry, env: Env)
    requires Lawful(b) && Good(b, s, issued, busy, held) && Free(s, e.c, held) && e.c in busy
    requires e.state == s.fo.state == Idle && !e.replica
    requires !env.replica && s.conns[e.c].current == Some(e.req) && e.req.Write? && !ModeOf(s.conns[e.c]).InMulti?
    ensures var t := With(s, e.c, Finish(s.conns[e.c], Applied, e.state)).(log := s.log + [e]);
            && Good(b, t, issued, busy, held) && Moves(b, s, t, s.paused + {e.c}, {e.c}, env)
            && b.written(t.log) == b.written(s.log) + |e.req.what|
  {
    var k := s.conns[e.c];
    GoodOk(b, s, issued, busy, held, e.c);
    GateApt(k, e.state, e.replica);
    PerformOk(b, k, e, issued[e.c]);
    LawsOf(b);
    GoodRun(b, s, issued, busy, held, e, Finish(k, Applied, e.state));
    MovesOne(b, s, e.c, Finish(k, Applied, e.state), s.paused, s.log + [e], env);
  }

  lemma MovesUnpaused(b: Books, s: Snap, t: Snap, T: set<ConnId>, e: Env)
    requires Moves(b, s.(paused := {}), t, T, {}, e)
    ensures Moves(b, s, t, T, {}, e)
  {
    assert Shown(OfChange, 0);
  }

  /** A connection that was given more to read, and drained. */
  lemma AfterReading(b: Books, m: Conns, c: ConnId, s: Snap, t: Snap, T: set<ConnId>, e: Env)
    requires c in m && c in s.conns && s.conns == m[c := s.conns[c]] && (forall x :: x in m ==> Fed(m[x]))
    requires Moves(b, s, t, T, {c}, e) && (c in t.conns ==> Fed(t.conns[c]))
    ensures Changes(s, t, T, {c}, e) && forall x :: x in t.conns ==> Fed(t.conns[x])
  {
    assert Shown(OfChange, 0);
  }

  lemma GoneMore(m: Conns, paused: set<ConnId>, gone: set<ConnId>, c: ConnId)
    ensures m - gone - {c} == m - (gone + {c}) && paused - gone - {c} == paused - (gone + {c})
  {
  }

  /** More may be said to change than did. */
  lemma Widened(m: Conns, m': Conns, p: set<ConnId>, parked: set<ConnId>, gone: set<ConnId>, e: Env)
    requires p == parked - gone && gone !! m.Keys
    ensures Only(m, m', p, e) ==> Only(m, m', parked, e)
    ensures AllLack(m, parked, Starts) ==> AllLack(m, p, Starts)
    ensures AllLanded(m, m', p, e) ==> AllLanded(m, m', parked, e)
    ensures forall log, log' :: AllRan(m, p, log, log') ==> AllRan(m, parked, log, log')
  {
  }

  // ---- what EXEC comes to --------------------------------------------------------------------------

  /** The failover and the log when the batch began, and the role. */
  datatype Outset = Outset(c: ConnId, batch: seq<Req>, fo: Plan, log: seq<Entry>, replica: bool)

  ghost predicate Due(o: Outset, left: seq<Req>, fo: Plan, log: seq<Entry>) {
    && (o.fo.state != Idle && AbortFailover !in o.batch ==> log == o.log && fo.state != Idle && AbortFailover !in left)
    && (Calm(o.batch) ==>
          Calm(left) && fo == o.fo
          && log + Runs(o.c, left, fo.state, o.replica) == o.log + Runs(o.c, o.batch, fo.state, o.replica))
  }

  /** How far EXEC has come; also shown only when asked for. */
  ghost predicate Halfway(o: Outset, left: seq<Req>, fo: Plan, log: seq<Entry>) {
    forall n: nat {:trigger Shown(OfChange, n)} :: Shown(OfChange, n) ==> Due(o, left, fo, log)
  }

  lemma HalfwayStarts(o: Outset)
    ensures Halfway(o, o.batch, o.fo, o.log)
  {
  }

  lemma HalfwayOn(o: Outset, r: Req, left: seq<Req>, fo: Plan, log: seq<Entry>, fo': Plan, log': seq<Entry>)
    requires Halfway(o, [r] + left, fo, log)
    requires fo.state != Idle && !r.AbortFailover? ==> log' == log && fo'.state != Idle
    requires !r.StartFailover? && !r.AbortFailover? ==> fo' == fo && log' == log + RunsOne(o.c, r, fo.state, o.replica)
    ensures Halfway(o, left, fo', log')
  {
    assert Shown(OfChange, 0);
    RunsHead(o.c, r, left, fo.state, o.replica);
    if Calm(o.batch) {
      assert log + Runs(o.c, [r] + left, fo.state, o.replica) == log' + Runs(o.c, left, fo.state, o.replica);
    }
  }

  lemma HalfwayEnds(o: Outset, fo: Plan, log: seq<Entry>)
    requires Halfway(o, [], fo, log)
    ensures o.fo.state != Idle && AbortFailover !in o.batch ==> log == o.log && fo.state != Idle
    ensures Calm(o.batch) ==> fo == o.fo && log == o.log + Runs(o.c, o.batch, fo.state, o.replica)
  {
    assert Shown(OfChange, 0);
    assert log + [] == log;
  }

  // ---- what became of the parked writes ------------------------------------------------------------

  /** The parked write was the next to be answered: it ran, or was refused by what is a replica now. */
  ghost predicate Landed(k: Conn, k': Conn, replica: bool) {
    && k.parked.Some? && |k.done| < |k'.done|
    && k'.done[|k.done|] == Handled(k.parked.value, if replica then ReadOnly else Applied, Plain, Idle)
  }

  /** Every write that was parked: but for connections that are closing or whose peer is gone, all are
      still there. */
  ghost predicate AllLanded(m: Conns, m': Conns, paused: set<ConnId>, e: Env) {
    forall c :: c in paused && c in m && !m[c].wantClose && (c in m' || c !in e.broken) ==>
      c in m' && Landed(m[c], m'[c], e.replica)
  }

  /** The write ran since. */
  ghost predicate Ran(log: seq<Entry>, log': seq<Entry>, e: Entry) {
    exists i :: |log| <= i < |log'| && log'[i] == e
  }

  /** Every write that was parked ran on the master, but for connections that are closing. */
  ghost predicate AllRan(m: Conns, parked: set<ConnId>, log: seq<Entry>, log': seq<Entry>) {
    forall c :: c in parked && c in m && !m[c].wantClose && m[c].parked.Some? ==>
      Ran(log, log', Entry(c, m[c].parked.value, Idle, false))
  }

  /** What becomes of the parked writes when the failover is over. */
  ghost predicate Resumed(m: Conns, paused: set<ConnId>, log: seq<Entry>, t: Snap, e: Env) {
    && (AllLack(m, paused, Starts) ==> t.fo == NoPlan && (!e.replica ==> AllRan(m, paused, log, t.log)))
    && (t.fo.state == Idle ==> AllLanded(m, t.conns, paused, e))
  }

  /** One more has run. */
  lemma RanMore(b: Books, s: Snap, t: Snap, u: Snap, T: set<ConnId>, parked: set<ConnId>, c: ConnId, e: Env)
    requires Moves(b, s, t, T, {}, e) && Moves(b, t, u, T, {}, e) && c in parked && parked <= T
    requires AllRan(s.conns, T - parked, s.log, t.log) && AllRan(t.conns, {c}, t.log, u.log)
    requires c in s.conns ==> c in t.conns && t.conns[c] == s.conns[c]
    ensures AllRan(s.conns, T - (parked - {c}), s.log, u.log)
  {
    assert Shown(OfChange, 0);
    forall x | x in T - (parked - {c}) && x in s.conns && !s.conns[x].wantClose && s.conns[x].parked.Some?
      ensures Ran(s.log, u.log, Entry(x, s.conns[x].parked.value, Idle, false))
    {
      if x == c {
        var i :| |t.log| <= i < |u.log| && u.log[i] == Entry(x, s.conns[x].parked.value, Idle, false);
      } else {
        var i :| |s.log| <= i < |t.log| && t.log[i] == Entry(x, s.conns[x].parked.value, Idle, false);
        assert u.log[i] == t.log[i];
      }
    }
  }

  /** How a connection was left before its replies were flushed: nothing that can be dispatched is lying, its
      answers are what ran, and all it asked is answered, parked or, if it is closing, dropped. */
  ghost predicate LeftAs(k: Conn, k': Conn, c: ConnId, log: seq<Entry>, issued: seq<Req>, replica: bool) {
    && Answers(k, k', replica) && Fed(k') && RanBy(log, c) == ToldRan(k'.done)
    && (!k'.wantClose ==> Asked(k'.done) + Opt(k'.parked) + k'.incoming == issued)
  }

  lemma LeftThen(b: Books, s: Snap, t: Snap, u: Snap, T: set<ConnId>, T': set<ConnId>, e: Env, c: ConnId, k: Conn,
      issued: Issued)
    requires Moves(b, s, t, T, {c}, e) && Moves(b, t, u, T', {c}, e) && c in s.conns && c in t.conns && c in issued
    requires LeftAs(t.conns[c], k, c, u.log, issued[c], e.replica)
    ensures LeftAs(s.conns[c], k, c, u.log, issued[c], e.replica) && t.log <= u.log
  {
    assert Shown(OfChange, 0);
    AnswersThen(s.conns[c], t.conns[c], k, e.replica);
  }

  lemma UntouchedBut(b: Books, s: Snap, t: Snap, T: set<ConnId>, e: Env)
    requires Moves(b, s, t, T, {}, e)
    ensures forall x :: x in s.conns && x !in T ==> x in t.conns && t.conns[x] == s.conns[x]
  {
    assert Shown(OfChange, 0);
  }

  /** What FAILOVER ABORT does. */
  ghost predicate AbortedAs(s: Snap, t: Snap, c: ConnId, e: Env)
    requires c in s.conns && s.conns[c].current.Some?
  {
    if s.fo.state != WaitForSync then
      t.conns == s.conns[c := Finish(s.conns[c], Refused, s.fo.state)] && t.fo == s.fo && t.log == s.log
    else
      c in t.conns && t.conns[c] == Finish(s.conns[c], Served, Idle) && Resumed(s.conns, s.paused, s.log, t, e)
  }

  lemma {:induction false} BrokenStays(b: Books, done: seq<Handled>, more: seq<Handled>)
    requires Laws(b) && b.phase(done).Broken?
    ensures b.phase(done + more).Broken?
  {
    if more == [] {
      assert done + more == done;
    } else {
      var n := |more| - 1;
      BrokenStays(b, done, more[..n]);
      assert done + more == (done + more[..n]) + [more[n]];
    }
  }

  lemma {:induction false} AskedGrows(b: Books, done: seq<Handled>, more: seq<Handled>)
    requires Laws(b)
    ensures b.asked(done) <= b.asked(done + more)
  {
    if more == [] {
      assert done + more == done;
    } else {
      var n := |more| - 1;
      AskedGrows(b, done, more[..n]);
      assert done + more == (done + more[..n]) + [more[n]];
    }
  }

  /** A connection with a parked write that now has none, and nothing left to read. */
  lemma LandedOne(b: Books, k: Conn, k': Conn, issued: seq<Req>, replica: bool)
    requires Laws(b) && ConnOk(b, k, issued) && ConnOk(b, k', issued) && Answers(k, k', replica)
    requires k.parked.Some? && !k'.wantClose && k'.parked.None? && Idling(k') && k'.incoming == []
    ensures Landed(k, k', replica)
  {
    var n, w := |k.done|, k.parked.value;
    assert b.asked(k'.done) == b.asked(k.done) + [w] + k.incoming by {
      var q: seq<Req> := [];
      assert History(b, k') == b.asked(k'.done) + q + q + q == b.asked(k'.done);
      assert History(b, k) == b.asked(k.done) + q + [w] + k.incoming;
      assert b.asked(k.done) + q == b.asked(k.done);
    }
    assert |b.asked(k'.done)| > |b.asked(k.done)|;
    assert k'.done != k.done && n < |k'.done|;
    var h, more := k'.done[n], k'.done[n + 1..];
    assert k'.done == k.done + [h] + more;
    if PhaseStep(NoTxn, h).Broken? { BrokenStays(b, k.done + [h], more); }
    AskedGrows(b, k.done + [h], more);
    assert (b.asked(k.done) + [h.req])[|b.asked(k.done)|] == h.req;
  }

  lemma LandedAll(b: Books, s: Snap, t: Snap, issued: Issued, busy: set<ConnId>, held: set<ConnId>, T: set<ConnId>,
      e: Env)
    requires Laws(b) && Good(b, s, issued, busy, held) && Good(b, t, issued, busy, held) && Moves(b, s, t, T, {}, e)
    requires t.paused == {} && held !! s.paused && busy !! s.paused
    ensures AllLanded(s.conns, t.conns, s.paused, e)
  {
    assert Shown(OfChange, 0);
    assert Shown(OfState, 0);
    forall c | c in s.paused && c in s.conns && !s.conns[c].wantClose && (c in t.conns || c !in e.broken)
      ensures c in t.conns && Landed(s.conns[c], t.conns[c], e.replica)
    {
      assert Fed(s.conns[c]) && Answers(s.conns[c], t.conns[c], e.replica) && Fed(t.conns[c]);
      LandedOne(b, s.conns[c], t.conns[c], issued[c], e.replica);
    }
  }

  // ---- whom to hand over to ----------------------------------------------------------------------

  predicate At(k: Conn, a: Addr) { k.link.Some? && k.link.value.host == a.0 && k.link.value.port == a.1 }

  predicate Listens(k: Conn) { k.link.Some? && k.link.value.port != 0 }

  predicate Known(conns: Conns, a: Addr) { exists c :: c in conns && At(conns[c], a) }

  predicate Reachable(conns: Conns) { exists c :: c in conns && Listens(conns[c]) }

  /** One of the replicas that said where they listen, and none of those acknowledged more. */
  ghost predicate Best(conns: Conns, c: ConnId) {
    && c in conns && Listens(conns[c])
    && forall d :: d in conns && Listens(conns[d]) ==> conns[d].link.value.ack <= conns[c].link.value.ack
  }

  function Replicas(conns: Conns): set<ConnId> { set c | c in conns && conns[c].link.Some? }

  /** When `do_failover` turns a request down, in any of its tests. */
  predicate TurnedDown(r: Req, state: State, replica: bool, conns: Conns)
    requires r.StartFailover?
  {
    || replica || state != Idle
    || (r.force && r.to.None?) || (r.force && r.timeout == 0)
    || (if r.to.Some? then !Known(conns, r.to.value) else !Reachable(conns))
  }

  /** The target of a request that is not turned down. */
  ghost predicate Chosen(conns: Conns, r: Req, a: Addr)
    requires r.StartFailover?
  {
    if r.to.Some? then a == r.to.value else exists b :: Best(conns, b) && At(conns[b], a)
  }

  lemma ChosenKnown(m: Conns, c: ConnId, k: Conn, r: Req, a: Addr)
    requires r.StartFailover? && c in m && k.link == m[c].link && Chosen(m, r, a)
    requires r.to.Some? ==> Known(m, r.to.value)
    ensures Known(m[c := k], a)
  {
    var d :| d in m && At(m[d], a);
    assert At(m[d], a);
    if d == c { assert At(k, a); }
    assert d in m[c := k] && At(m[c := k][d], a);
  }

  /** The `failover_*` fields: the deadline is 0 for none. */
  datatype Plan = Plan(state: State, target: Addr, force: bool, deadline: nat)

  function Planned(r: Req, a: Addr, now: nat): Plan
    requires r.StartFailover?
  {
    Plan(WaitForSync, a, r.force, if r.timeout > 0 then now + r.timeout else 0)
  }

  /** When the time of a request is up: never without a timeout. */
  predicate TimeUp(r: Req, asked: nat, now: nat)
    requires r.StartFailover?
  {
    r.timeout > 0 && now >= asked + r.timeout
  }

  const NoPlan := Plan(Idle, ("", 0), false, 0)

  datatype Turn = Waits | GivesUp | HandsOver
}
