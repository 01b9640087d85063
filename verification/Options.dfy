/** Options and times in the client's terms: what the words of SET and GETEX say and when they are accepted,
    and what a number of seconds or milliseconds comes to. */
module Options {
  import opened Common
  import opened Resp
  import opened Requests
  import opened Effects

  /** An option as a client means it. */
  datatype Said = Nx | Xx | Get | KeepTtl | Time(u: Unit, v: int)

  function Name(w: Said): string {
    match w
    case Nx => "nx"
    case Xx => "xx"
    case Get => "get"
    case KeepTtl => "keepttl"
    case Time(u, _) => match u { case EX => "ex" case PX => "px" case EXAT => "exat" case PXAT => "pxat" }
  }

  /** The arguments spell these options, in any case; a time has its number behind it. */
  ghost predicate Spells(a: Args, ws: seq<Said>)
    decreases |ws|
  {
    if ws == [] then a == []
    else if ws[0].Time? then
      |a| >= 2 && Ieq(a[0], Name(ws[0])) && Str2Int(a[1]) == Some(ws[0].v) && Spells(a[2..], ws[1..])
    else |a| >= 1 && Ieq(a[0], Name(ws[0])) && Spells(a[1..], ws[1..])
  }

  /** The wall-clock instant a time stands for: seconds or milliseconds, from now or absolute. */
  function Instant(u: Unit, v: int, wall: int): int {
    match u
    case EX => wall + 1000 * v
    case PX => wall + v
    case EXAT => 1000 * v
    case PXAT => v
  }

  /** A time is positive and its instant is one the clock can show. */
  predicate Fits(w: Said, wall: int) {
    w.Time? ==> w.v > 0 && Instant(w.u, w.v, wall) <= INT64_MAX
  }

  /** The options do not contradict each other; a time may be said again in the same unit. */
  ghost predicate Agree(ws: seq<Said>, wall: int) {
    && !(Nx in ws && Xx in ws)
    && (forall w :: w in ws ==> Fits(w, wall) && (w.Time? ==> KeepTtl !in ws))
    && (forall w, w' :: w in ws && w' in ws && w.Time? && w'.Time? ==> w.u == w'.u)
  }

  /** The last time said. */
  function LastTime(ws: seq<Said>): (r: Option<Said>)
    ensures r.Some? ==> r.value in ws && r.value.Time?
    ensures r.None? ==> forall w :: w in ws ==> !w.Time?
  {
    if ws == [] then None
    else if ws[|ws| - 1].Time? then Some(ws[|ws| - 1])
    else LastTime(ws[..|ws| - 1])
  }

  ghost function Meant(ws: seq<Said>, wall: int): SetOpts {
    var t := LastTime(ws);
    SetOpts(Nx in ws, Xx in ws, Get in ws, KeepTtl in ws, if t.Some? then Some(t.value.u) else None,
            if t.Some? then Instant(t.value.u, t.value.v, wall) else 0)
  }

  // ---- one option more ---------------------------------------------------------------------------

  lemma MeantMore(ws: seq<Said>, w: Said, wall: int)
    ensures Meant(ws + [w], wall) ==
              match w {
                case Nx => Meant(ws, wall).(nx := true)
                case Xx => Meant(ws, wall).(xx := true)
                case Get => Meant(ws, wall).(get := true)
                case KeepTtl => Meant(ws, wall).(keepttl := true)
                case Time(u, v) => Meant(ws, wall).(unit := Some(u), abs := Instant(u, v, wall))
              }
  {
    assert (ws + [w])[..|ws|] == ws;
  }

  /** Which option may come next. */
  lemma AgreeMore(ws: seq<Said>, w: Said, wall: int)
    requires Agree(ws, wall)
    ensures var o := Meant(ws, wall);
            Agree(ws + [w], wall) <==>
              match w {
                case Nx => !o.xx
                case Xx => !o.nx
                case Get => true
                case KeepTtl => o.unit.None?
                case Time(u, v) => !o.keepttl && (o.unit.None? || o.unit == Some(u)) && Fits(w, wall)
              }
  {
    var all := ws + [w];
    assert forall x :: x in all <==> x in ws || x == w;
    if LastTime(ws).Some? { assert LastTime(ws).value in all; }
  }

  lemma AgreeLess(ws: seq<Said>, more: seq<Said>, wall: int)
    requires Agree(ws + more, wall)
    ensures Agree(ws, wall)
  {
    assert forall x :: x in ws ==> x in ws + more;
  }

  lemma DeadlineIs(u: Unit, arg: string, wall: int)
    requires 0 <= wall
    ensures var v, r := Str2Int(arg), DeadlineOf(u, arg, wall);
            && (r.Some? <==> v.Some? && Fits(Time(u, v.value), wall))
            && (r.Some? ==> r.value == Instant(u, v.value, wall))
  {
  }

  /** What the parser does with the next option, and only with one of these. */
  lemma NextOption(cmd: Args, i: nat, ws: seq<Said>, w: Said, wall: int)
    requires 0 <= wall && i < |cmd| && Ieq(cmd[i], Name(w)) && Agree(ws, wall)
    requires w.Time? ==> i + 1 < |cmd| && Str2Int(cmd[i + 1]) == Some(w.v)
    ensures ParseOpts(cmd, i, Meant(ws, wall), wall) ==
              if Agree(ws + [w], wall) then
                ParseOpts(cmd, if w.Time? then i + 2 else i + 1, Meant(ws + [w], wall), wall)
              else None
  {
    hide Meant, Agree, Instant, Lower;
    MeantMore(ws, w, wall);
    AgreeMore(ws, w, wall);
    if w.Time? { DeadlineIs(w.u, cmd[i + 1], wall); }
  }

  /** An accepted list begins with an option. */
  lemma FirstOption(cmd: Args, i: nat, o: SetOpts, wall: int) returns (w: Said)
    requires i < |cmd| && ParseOpts(cmd, i, o, wall).Some?
    ensures Ieq(cmd[i], Name(w)) && (w.Time? ==> i + 1 < |cmd| && Str2Int(cmd[i + 1]) == Some(w.v))
  {
    var a := cmd[i];
    if Ieq(a, "nx") { w := Nx; }
    else if Ieq(a, "xx") { w := Xx; }
    else if Ieq(a, "get") { w := Get; }
    else if Ieq(a, "keepttl") { w := KeepTtl; }
    else { w := Time(UnitOf(a, o).value, Str2Int(cmd[i + 1]).value); }
  }

  // ---- the whole list ------------------------------------------------------------------------------

  lemma {:induction false} ReadAll(cmd: Args, i: nat, before: seq<Said>, ws: seq<Said>, wall: int)
    requires 0 <= wall && i <= |cmd| && Spells(cmd[i..], ws) && Agree(before + ws, wall)
    ensures ParseOpts(cmd, i, Meant(before, wall), wall) == Some(Meant(before + ws, wall))
    decreases |ws|
  {
    hide Meant, Agree;
    if ws == [] {
      assert before + ws == before;
    } else {
      var w := ws[0];
      var n := if w.Time? then i + 2 else i + 1;
      assert before + ws == before + [w] + ws[1..];
      AgreeLess(before + [w], ws[1..], wall);
      AgreeLess(before, [w], wall);
      NextOption(cmd, i, before, w, wall);
      assert cmd[i..][n - i..] == cmd[n..];
      ReadAll(cmd, n, before + [w], ws[1..], wall);
    }
  }

  lemma {:induction false} SaidAll(cmd: Args, i: nat, before: seq<Said>, wall: int) returns (ws: seq<Said>)
    requires 0 <= wall && i <= |cmd| && Agree(before, wall) && ParseOpts(cmd, i, Meant(before, wall), wall).Some?
    ensures Spells(cmd[i..], ws) && Agree(before + ws, wall)
    decreases |cmd| - i
  {
    hide Meant, Agree, ParseOpts, Str2Int, Lower, Name;
    if i == |cmd| {
      ws := [];
      assert before + ws == before;
    } else {
      var w := FirstOption(cmd, i, Meant(before, wall), wall);
      NextOption(cmd, i, before, w, wall);
      var n := if w.Time? then i + 2 else i + 1;
      var rest := SaidAll(cmd, n, before + [w], wall);
      ws := [w] + rest;
      assert before + ws == before + [w] + rest && ws[1..] == rest;
      assert cmd[i..][n - i..] == cmd[n..];
    }
  }

  lemma NothingMeant(wall: int)
    ensures Meant([], wall) == NoOpts && Agree([], wall)
  {
  }

  /** A list of arguments is accepted exactly if it spells options that agree: none unknown, none without its
      number, no number out of range, no conflict. */
  lemma OptionsExact(cmd: Args, wall: int)
    requires 0 <= wall && |cmd| >= 3
    ensures ParseOpts(cmd, 3, NoOpts, wall).Some? <==> exists ws :: Spells(cmd[3..], ws) && Agree(ws, wall)
  {
    NothingMeant(wall);
    if ParseOpts(cmd, 3, NoOpts, wall).Some? {
      var ws := SaidAll(cmd, 3, [], wall);
      assert [] + ws == ws;
    }
    if ws :| Spells(cmd[3..], ws) && Agree(ws, wall) { OptionsMean(cmd, ws, wall); }
  }

  /** And then each flag is set exactly if its word is there, and the deadline is that of the last time said. */
  lemma OptionsMean(cmd: Args, ws: seq<Said>, wall: int)
    requires 0 <= wall && |cmd| >= 3 && Spells(cmd[3..], ws) && Agree(ws, wall)
    ensures ParseOpts(cmd, 3, NoOpts, wall) == Some(Meant(ws, wall))
  {
    NothingMeant(wall);
    assert [] + ws == ws;
    ReadAll(cmd, 3, [], ws, wall);
  }

  /** SET on the live keys, from the words of the client: a list that is refused changes nothing, and any
      other does what its options say. */
  lemma SetSays(st: Store, clk: Clock, cmd: Args)
    requires Sane(clk) && |cmd| >= 4
    ensures var e := DoSet(st, clk, cmd);
            && (forall ws :: Spells(cmd[3..], ws) && Agree(ws, clk.wall) ==>
                  SetMeans(Live(st, clk), cmd[1], cmd[2], Meant(ws, clk.wall), clk, Live(e.st, clk), e.dirty))
            && (!(exists ws :: Spells(cmd[3..], ws) && Agree(ws, clk.wall)) ==> e == Effect(st, false))
  {
    OptionsExact(cmd, clk.wall);
    forall ws | Spells(cmd[3..], ws) && Agree(ws, clk.wall)
      ensures var e := DoSet(st, clk, cmd);
              SetMeans(Live(st, clk), cmd[1], cmd[2], Meant(ws, clk.wall), clk, Live(e.st, clk), e.dirty)
    {
      OptionsMean(cmd, ws, clk.wall);
      SetMeaning(st, clk, cmd);
    }
  }

  /** SET without options always writes, and the key has no deadline. */
  lemma PlainSet(st: Store, clk: Clock, cmd: Args)
    requires |cmd| == 3
    ensures var e := DoSet(st, clk, cmd);
            e.dirty && Live(e.st, clk) == Live(st, clk)[cmd[1] := Entry(Str(cmd[2]), None)]
  {
    LiveChange(st, cmd[1], Entry(Str(cmd[2]), None), clk);
  }

  /** SET with one time: EX and PX count from now, in seconds and in milliseconds, EXAT and PXAT from the
      epoch; an instant that has come deletes the key. */
  lemma SetTimed(st: Store, clk: Clock, cmd: Args, u: Unit, v: int)
    requires Sane(clk) && |cmd| == 5 && Ieq(cmd[3], Name(Time(u, v))) && Str2Int(cmd[4]) == Some(v)
    requires Fits(Time(u, v), clk.wall)
    ensures var k, was, now := cmd[1], Live(st, clk), Live(DoSet(st, clk, cmd).st, clk);
            match u {
              case EX => now == was[k := Entry(Str(cmd[2]), Some(clk.mono + 1000 * v))]
              case PX => now == was[k := Entry(Str(cmd[2]), Some(clk.mono + v))]
              case EXAT =>
                now == if 1000 * v <= clk.wall then was - {k}
                       else was[k := Entry(Str(cmd[2]), Some(clk.mono + 1000 * v - clk.wall))]
              case PXAT =>
                now == if v <= clk.wall then was - {k}
                       else was[k := Entry(Str(cmd[2]), Some(clk.mono + v - clk.wall))]
            }
  {
    var ws := [Time(u, v)];
    assert ws[1..] == [] && cmd[3..][2..] == [];
    assert Spells(cmd[3..][2..], []);
    assert Spells(cmd[3..], ws) && Agree(ws, clk.wall);
    OptionsMean(cmd, ws, clk.wall);
    assert LastTime(ws) == Some(Time(u, v));
    SetMeaning(st, clk, cmd);
    SetOnly(Live(st, clk), cmd[1], cmd[2], Meant(ws, clk.wall), clk, Live(DoSet(st, clk, cmd).st, clk),
            DoSet(st, clk, cmd).dirty);
  }

  /** A SET that changes one key, written as one update. */
  lemma SetOnly(was: Store, k: string, v: string, o: SetOpts, clk: Clock, now: Store, dirty: bool)
    requires SetMeans(was, k, v, o, clk, now, dirty) && !o.nx && !o.xx && !o.get
    ensures now == if o.unit.Some? && o.abs <= clk.wall then was - {k}
                   else was[k := Entry(Str(v), Deadline(was, k, o, clk))]
  {
    assert forall x :: x in now && x != k ==> x in now - {k} && (now - {k})[x] == now[x];
    assert forall x :: x in was && x != k ==> x in was - {k} && (was - {k})[x] == was[x];
    assert now.Keys - {k} == (now - {k}).Keys && was.Keys - {k} == (was - {k}).Keys;
  }

  // ---- GETEX, EXPIRE, EXPIREAT and SETEX -----------------------------------------------------------

  /** 64-bit arithmetic is exact up to one wrap at the end. */
  lemma WrapTwice(a: int, b: int)
    ensures I64(I64(a) - b) == I64(a - b)
  {
  }

  /** GETEX with a time, on the live keys: refused if it counts from now and is not positive or if its seconds
      are too many, and else the key gets what is left until that instant, or goes if nothing is. */
  lemma GetExSays(st: Store, clk: Clock, cmd: Args, u: Unit, v: int)
    requires Sane(clk) && |cmd| == 4 && Ieq(cmd[2], Name(Time(u, v))) && Str2Int(cmd[3]) == Some(v)
    requires cmd[1] in Live(st, clk) && Live(st, clk)[cmd[1]].value.Str?
    ensures var was, e := Live(st, clk), GetEx(st, clk, cmd);
            if ((u.EX? || u.PX?) && v <= 0) || ((u.EX? || u.EXAT?) && 1000 * v > INT64_MAX) then
              Live(e.st, clk) == was && !e.dirty
            else ExpireMeans(was, cmd[1], I64(Instant(u, v, clk.wall) - clk.wall), clk, Live(e.st, clk), e.dirty)
  {
    GetExMeaning(st, clk, cmd);
    WrapTwice(v * 1000, clk.wall);
    assert Lower(cmd[2]) == Name(Time(u, v)) != "persist";
    assert Str2Int(cmd[3]).value == v && InRange(v);
  }

  /** Any other word in its place is refused. */
  lemma GetExUnknown(st: Store, clk: Clock, cmd: Args)
    requires |cmd| == 4 && forall u :: !Ieq(cmd[2], Name(Time(u, 0)))
    ensures var e := GetEx(st, clk, cmd); Live(e.st, clk) == Live(st, clk) && !e.dirty
  {
    assert !Ieq(cmd[2], Name(Time(EX, 0))) && !Ieq(cmd[2], Name(Time(PX, 0)));
    assert !Ieq(cmd[2], Name(Time(EXAT, 0))) && !Ieq(cmd[2], Name(Time(PXAT, 0)));
    GetExMeaning(st, clk, cmd);
  }

  /** EXPIRE and PEXPIRE, by how many milliseconds a unit has. */
  lemma ExpireSays(st: Store, clk: Clock, cmd: Args, mult: int)
    requires |cmd| == 3
    ensures var v, e := Str2Int(cmd[2]), ExpireIn(st, clk, cmd, mult);
            if v.None? then e == Effect(st, false)
            else ExpireMeans(Live(st, clk), cmd[1], I64(mult * v.value), clk, Live(e.st, clk), e.dirty)
  {
    if Str2Int(cmd[2]).Some? { ExpireMeaning(st, clk, cmd[1], I64(mult * Str2Int(cmd[2]).value)); }
  }

  /** EXPIREAT and PEXPIREAT. */
  lemma ExpireAtSays(st: Store, clk: Clock, cmd: Args, mult: int)
    requires |cmd| == 3
    ensures var v, e := Str2Int(cmd[2]), ExpireAt(st, clk, cmd, mult);
            if v.None? then e == Effect(st, false)
            else ExpireMeans(Live(st, clk), cmd[1], I64(mult * v.value - clk.wall), clk, Live(e.st, clk), e.dirty)
  {
    hide I64, ExpireMeans, Expire, Live;
    if Str2Int(cmd[2]).Some? {
      WrapTwice(mult * Str2Int(cmd[2]).value, clk.wall);
      ExpireMeaning(st, clk, cmd[1], I64(mult * Str2Int(cmd[2]).value - clk.wall));
    }
  }

  /** PERSIST frees a live key of its deadline, and counts as a write exactly if it had one. */
  lemma PersistSays(st: Store, clk: Clock, k: string)
    ensures var was, e := Live(st, clk), Persist(st, clk, k);
            && Live(e.st, clk) == (if k in was then was[k := Entry(was[k].value, None)] else was)
            && (e.dirty <==> k in was && was[k].deadline.Some?)
  {
    var was, st1 := Live(st, clk), Purge(st, k, clk);
    PurgeIsDead(st, k, clk, Entry(Str(""), None));
    if k in st1 {
      LiveChange(st1, k, st1[k].(deadline := None), clk);
      assert st1[k].deadline.None? ==> was[k := Entry(was[k].value, None)] == was;
    }
  }

  /** SREM takes the named members out of a live set, drops the set with its last one, and counts as a write
      exactly if one of them was there. */
  lemma SRemSays(st: Store, clk: Clock, k: string, gone: Args)
    ensures var was, e := Live(st, clk), SRem(st, clk, k, gone);
            if k !in was || !was[k].value.Members? then Live(e.st, clk) == was && !e.dirty
            else
              var left := was[k].value.m - set x | x in gone;
              && (e.dirty <==> exists x :: x in gone && x in was[k].value.m)
              && Live(e.st, clk) == if left == {} then was - {k} else was[k := was[k].(value := Members(left))]
  {
    var was, st1 := Live(st, clk), Purge(st, k, clk);
    PurgeIsDead(st, k, clk, Entry(Str(""), None));
    if k in was && was[k].value.Members? {
      var m := was[k].value.m;
      LiveChange(st1, k, st1[k].(value := Members(m - set x | x in gone)), clk);
      if x :| x in gone && x in m { assert x !in m - set x | x in gone; }
    }
  }

  /** SETEX and PSETEX: the key holds the string, for that long if the product fits 64 bits, and without a
      deadline if it wraps below zero. */
  lemma SetExSays(st: Store, clk: Clock, cmd: Args, mult: int)
    requires |cmd| == 4 && mult > 0
    ensures var v, was, e := Str2Int(cmd[2]), Live(st, clk), SetEx(st, clk, cmd, mult);
            var now := Live(e.st, clk);
            && (v.None? || v.value <= 0 ==> e == Effect(st, false))
            && (v.Some? && 0 < v.value && mult * v.value <= INT64_MAX ==>
                  e.dirty && now == was[cmd[1] := Entry(Str(cmd[3]), Some(clk.mono + mult * v.value))])
            && (v.Some? && 0 < v.value && I64(mult * v.value) < 0 ==>
                  e.dirty && now == was[cmd[1] := Entry(Str(cmd[3]), None)])
  {
    hide I64, Str2Int;
    var v := Str2Int(cmd[2]);
    if v.Some? && v.value > 0 {
      var ms := mult * v.value;
      assert ms > 0;
      LiveChange(st, cmd[1], Entry(Str(cmd[3]), Ttl(I64(ms), clk)), clk);
    }
  }
}
