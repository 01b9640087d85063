/** The write log run again at a later time: by a server that starts up, or by a replica.  The deadlines in
    the log are wall times, and a key whose time has run out is treated as missing. */
module Restart {
  import opened Common
  import opened Resp
  import opened Requests
  import opened Effects
  import opened WriteLog

  /** What a key holds, with its deadline as a wall time. */
  datatype Kept = Kept(value: Value', until: Option<int>)

  function Until(e: Entry, clk: Clock): Option<int> {
    if e.deadline.None? then None else Some(e.deadline.value - clk.mono + clk.wall)
  }

  predicate Lasts(e: Entry, clk: Clock, w: int) {
    Until(e, clk).Some? ==> Until(e, clk).value > w
  }

  /** What a client would find under k at the wall time w, if nothing else were written. */
  function Key(st: Store, clk: Clock, w: int, k: string): Option<Kept> {
    if k in st && Lasts(st[k], clk, w) then Some(Kept(st[k].value, Until(st[k], clk))) else None
  }

  /** Two servers, each with its own clock, show a client the same keys at w and ever after. */
  ghost predicate Same(st: Store, clk: Clock, st': Store, clk': Clock, w: int) {
    forall k {:trigger Key(st, clk, w, k)} {:trigger Key(st', clk', w, k)} :: Key(st, clk, w, k) == Key(st', clk', w, k)
  }

  lemma SameLater(st: Store, clk: Clock, st': Store, clk': Clock, w: int, w': int)
    requires Same(st, clk, st', clk', w) && w <= w'
    ensures Same(st, clk, st', clk', w')
  {
    forall k ensures Key(st, clk, w', k) == Key(st', clk', w', k) { assert Key(st, clk, w, k) == Key(st', clk', w, k); }
  }

  /** Only what k holds has changed. */
  ghost predicate OnlyKey(st: Store, st': Store, k: string) { st - {k} == st' - {k} }

  lemma OtherKey(st: Store, st': Store, clk: Clock, w: int, k: string, x: string)
    requires OnlyKey(st, st', k) && x != k
    ensures Key(st, clk, w, x) == Key(st', clk, w, x)
  {
    assert x in st <==> x in st - {k};
    assert x in st' <==> x in st' - {k};
    if x in st { assert (st - {k})[x] == (st' - {k})[x]; }
  }

  /** Both sides change k only, so they stay the same exactly when they agree on k. */
  lemma SameOnKey(st: Store, clk: Clock, st': Store, clk': Clock, w: int, k: string, to: Store, to': Store)
    requires Same(st, clk, st', clk', w) && OnlyKey(st, to, k) && OnlyKey(st', to', k)
    ensures Same(to, clk, to', clk', w) <==> Key(to, clk, w, k) == Key(to', clk', w, k)
  {
    forall x | x != k ensures Key(to, clk, w, x) == Key(to', clk', w, x) {
      OtherKey(st, to, clk, w, k, x);
      OtherKey(st', to', clk', w, k, x);
      assert Key(st, clk, w, x) == Key(st', clk', w, x);
    }
  }

  // ---- what the logged commands do to a key ---------------------------------------------------------

  lemma PurgedKey(st: Store, clk: Clock, k: string, w: int)
    requires w >= clk.wall
    ensures OnlyKey(st, Purge(st, k, clk), k) && Key(Purge(st, k, clk), clk, w, k) == Key(st, clk, w, k)
    ensures Key(st, clk, clk.wall, k).Some? <==> k in Purge(st, k, clk)
    ensures k in Purge(st, k, clk) ==> k in st && Purge(st, k, clk)[k] == st[k]
  {
  }

  function Timed(value: Value', until: int, w: int): Option<Kept> {
    if until > w then Some(Kept(value, Some(until))) else None
  }

  /** Giving a key ms to live, seen at w. */
  lemma ExpireKey(st: Store, clk: Clock, k: string, ms: int, w: int)
    requires w >= clk.wall
    ensures var to, p := Expire(st, clk, k, ms).st, Key(st, clk, clk.wall, k);
            && OnlyKey(st, to, k)
            && Key(to, clk, w, k) == if p.Some? && ms > 0 then Timed(p.value.value, clk.wall + ms, w) else None
  {
    PurgedKey(st, clk, k, w);
    var st1 := Purge(st, k, clk);
    if k in st1 && ms > 0 { assert st1[k := st1[k].(deadline := Ttl(ms, clk))] - {k} == st1 - {k}; }
  }

  lemma AtKey(st: Store, clk: Clock, k: string, abs: int)
    requires Sane(clk) && InRange(abs)
    ensures var f, rem, q := ["PEXPIREAT", k, ToStr(abs)], I64(abs - clk.wall), Key(st, clk, clk.wall, k);
            var to := ReplayAll(st, clk, [f]);
            && OnlyKey(st, to, k)
            && Key(to, clk, clk.wall, k) == if q.Some? && rem > 0 then Some(Kept(q.value.value, Some(clk.wall + rem)))
                                            else None
  {
    ReplayPexpireat(st, clk, k, abs);
    ReplayOne(st, clk, ["PEXPIREAT", k, ToStr(abs)]);
    ExpireKey(st, clk, k, I64(abs - clk.wall), clk.wall);
  }

  lemma DelKey(st: Store, clk: Clock, k: string)
    ensures OnlyKey(st, ReplayAll(st, clk, [["DEL", k]]), k)
    ensures Key(ReplayAll(st, clk, [["DEL", k]]), clk, clk.wall, k) == None
  {
    ReplayDel(st, clk, k);
  }

  lemma PersistKey(st: Store, clk: Clock, k: string, w: int)
    requires w >= clk.wall
    ensures var to, p := Persist(st, clk, k).st, Key(st, clk, clk.wall, k);
            OnlyKey(st, to, k) && Key(to, clk, w, k) == if p.Some? then Some(Kept(p.value.value, None)) else None
  {
    PurgedKey(st, clk, k, w);
    var st1 := Purge(st, k, clk);
    if k in st1 { assert st1[k := st1[k].(deadline := None)] - {k} == st1 - {k}; }
  }

  /** Writing a string with a deadline, or keeping the one that is there. */
  lemma SetKey(st: Store, clk: Clock, k: string, v: string, o: SetOpts, w: int)
    requires Sane(clk) && w >= clk.wall && SetWith(Purge(st, k, clk), clk, k, v, o).dirty
    ensures var to, p := SetWith(Purge(st, k, clk), clk, k, v, o).st, Key(st, clk, clk.wall, k);
            && OnlyKey(st, to, k)
            && Key(to, clk, w, k) ==
               if o.unit.Some? then Timed(Str(v), o.abs, w)
               else if o.keepttl && p.Some? && p.value.until.Some? then Timed(Str(v), p.value.until.value, w)
               else Some(Kept(Str(v), None))
  {
    PurgedKey(st, clk, k, w);
    var st1, to := Purge(st, k, clk), SetWith(Purge(st, k, clk), clk, k, v, o).st;
    if k in to { assert st1[k := to[k]] - {k} == st1 - {k}; }
  }

  // ---- when a request can be run again later ------------------------------------------------------------

  /** The time to live a request gives a key that is there, for the requests that do just that. */
  function NewTtl(clk: Clock, r: Request): Option<int>
    requires WellFormed(r)
  {
    match r
    case ExpireReq(cmd, mult) => if Str2Int(cmd[2]).Some? then Some(I64(Str2Int(cmd[2]).value * mult)) else None
    case ExpireAtReq(cmd) => if Str2Int(cmd[2]).Some? then Some(I64(I64(Str2Int(cmd[2]).value * 1000) - clk.wall))
                             else None
    case GetExReq(cmd) =>
      if |cmd| == 4 && Lower(cmd[2]) != "persist" && Str2Int(cmd[3]).Some? then
        GetExTtl(Lower(cmd[2]), Str2Int(cmd[3]).value, clk)
      else None
    case _ => None
  }

  /** Whether the request keeps the value, or the deadline, that it finds. */
  predicate KeepsTtl(clk: Clock, r: Request)
    requires WellFormed(r)
  {
    r.SetReq? && ParseOpts(r.cmd, 3, NoOpts, clk.wall).Some? &&
    ParseOpts(r.cmd, 3, NoOpts, clk.wall).value.unit.None? &&
    ParseOpts(r.cmd, 3, NoOpts, clk.wall).value.keepttl
  }

  /** A request may be run again at the wall time w.  Where it looks at a key, that key must not have run
      out by then: unless it would run out by then all the same. */
  predicate OnTime(st: Store, clk: Clock, w: int, r: Request)
    requires WellFormed(r)
  {
    var p, q := Key(st, clk, clk.wall, r.cmd[1]), Key(st, clk, w, r.cmd[1]);
    if NewTtl(clk, r).Some? then
      if q.None? then NewTtl(clk, r).value <= w - clk.wall
      else r.GetExReq? || NewTtl(clk, r).value - (w - clk.wall) >= -INT64_MAX - 1
    else if KeepsTtl(clk, r) || (r.GetExReq? && |r.cmd| == 3) then p.Some? ==> q.Some?
    else true
  }

  /** The server that made the log and the one that runs it again show the same keys. */
  ghost predicate Follows(st: Store, clk: Clock, st': Store, clk': Clock, r: Request)
    requires WellFormed(r)
  {
    Same(Exec(st, clk, r).st, clk, ReplayAll(st', clk', Logged(st, clk, r)), clk', clk'.wall)
  }

  lemma ShiftedSum(a: int, b: int, ms: int, w: int)
    requires InRange(ms) && 0 <= a <= w <= INT64_MAX && b == I64(a + ms)
    ensures I64(b - w) == I64(ms - (w - a))
    ensures I64(ms - (w - a)) == if ms - (w - a) >= -INT64_MAX - 1 then ms - (w - a) else ms - (w - a) + UINT64_MAX + 1
  {
  }

  /** EXPIRE and its kin, at the key. */
  lemma ExpireFollows(st: Store, clk: Clock, st': Store, clk': Clock, k: string, ms: int, abs: int)
    requires Sane(clk) && Sane(clk') && clk.wall <= clk'.wall && InRange(ms) && abs == I64(clk.wall + ms)
    requires Same(st, clk, st', clk', clk'.wall) && Key(st, clk, clk.wall, k).Some?
    ensures var d, q := clk'.wall - clk.wall, Key(st, clk, clk'.wall, k);
            Same(Expire(st, clk, k, ms).st, clk, ReplayAll(st', clk', [["PEXPIREAT", k, ToStr(abs)]]), clk', clk'.wall)
            <==> if q.None? then ms <= d else ms - d >= -INT64_MAX - 1
  {
    var w := clk'.wall;
    ExpireKey(st, clk, k, ms, w);
    AtKey(st', clk', k, abs);
    ShiftedSum(clk.wall, abs, ms, w);
    SameOnKey(st, clk, st', clk', w, k, Expire(st, clk, k, ms).st,
              ReplayAll(st', clk', [["PEXPIREAT", k, ToStr(abs)]]));
    assert Key(st, clk, w, k) == Key(st', clk', w, k);
  }

  lemma ExpireInFollows(st: Store, clk: Clock, st': Store, clk': Clock, cmd: Args, mult: int)
    requires |cmd| == 3 && (mult == 1 || mult == 1000) && ExpireIn(st, clk, cmd, mult).dirty
    requires Sane(clk) && Sane(clk') && clk.wall <= clk'.wall && Same(st, clk, st', clk', clk'.wall)
    ensures Follows(st, clk, st', clk', ExpireReq(cmd, mult)) <==> OnTime(st, clk, clk'.wall, ExpireReq(cmd, mult))
  {
    var k, ms, r := cmd[1], I64(Str2Int(cmd[2]).value * mult), ExpireReq(cmd, mult);
    var abs := I64(clk.wall + ms);
    PurgedKey(st, clk, k, clk.wall);
    assert Exec(st, clk, r) == Expire(st, clk, k, ms) && Logged(st, clk, r) == [["PEXPIREAT", k, ToStr(abs)]];
    ExpireFollows(st, clk, st', clk', k, ms, abs);
  }

  lemma BackAndForth(abs: int, wall: int)
    requires InRange(abs) && 0 <= wall <= INT64_MAX
    ensures I64(wall + I64(abs - wall)) == abs
  {
  }

  lemma ExpireAtFollows(st: Store, clk: Clock, st': Store, clk': Clock, cmd: Args)
    requires |cmd| == 3 && ExpireAt(st, clk, cmd, 1000).dirty
    requires Sane(clk) && Sane(clk') && clk.wall <= clk'.wall && Same(st, clk, st', clk', clk'.wall)
    ensures Follows(st, clk, st', clk', ExpireAtReq(cmd)) <==> OnTime(st, clk, clk'.wall, ExpireAtReq(cmd))
  {
    var k, abs, r := cmd[1], I64(Str2Int(cmd[2]).value * 1000), ExpireAtReq(cmd);
    var ms := I64(abs - clk.wall);
    BackAndForth(abs, clk.wall);
    PurgedKey(st, clk, k, clk.wall);
    assert Exec(st, clk, r) == Expire(st, clk, k, ms) && Logged(st, clk, r) == [["PEXPIREAT", k, ToStr(abs)]];
    ExpireFollows(st, clk, st', clk', k, ms, abs);
  }

  /** What GETEX with a deadline comes to. */
  lemma GetExIsExpire(st: Store, clk: Clock, cmd: Args)
    requires |cmd| == 4 && GetEx(st, clk, cmd).dirty && Sane(clk)
    ensures Str2Int(cmd[3]).Some? && GetExTtl(Lower(cmd[2]), Str2Int(cmd[3]).value, clk).Some?
    ensures Key(st, clk, clk.wall, cmd[1]).Some?
    ensures var opt, v := Lower(cmd[2]), Str2Int(cmd[3]).value;
            var ms, abs := GetExTtl(opt, v, clk).value, GetExAbs(opt, v, clk);
            && GetEx(st, clk, cmd) == Expire(st, clk, cmd[1], ms)
            && GetExFrames(cmd, clk) ==
                 (if abs <= clk.wall then [["DEL", cmd[1]]] else [["PEXPIREAT", cmd[1], ToStr(abs)]])
            && InRange(ms)
            && (if abs <= clk.wall then ms <= 0 <==> SumFits(clk, opt, v)
                else SumFits(clk, opt, v) && abs == I64(clk.wall + ms) && ms == abs - clk.wall)
            && (ms > 0 && abs <= clk.wall ==> clk.wall + ms > INT64_MAX)
  {
    PurgedKey(st, clk, cmd[1], clk.wall);
    PurgeIsDead(st, cmd[1], clk, Entry(Str(""), None));
    assert GetEx(st, clk, cmd) == Expire(Purge(st, cmd[1], clk), clk, cmd[1],
                                         GetExTtl(Lower(cmd[2]), Str2Int(cmd[3]).value, clk).value);
  }

  lemma GetExTimeFollows(st: Store, clk: Clock, st': Store, clk': Clock, cmd: Args)
    requires |cmd| == 4 && GetEx(st, clk, cmd).dirty
    requires Sane(clk) && Sane(clk') && clk.wall <= clk'.wall && Same(st, clk, st', clk', clk'.wall)
    ensures Follows(st, clk, st', clk', GetExReq(cmd)) <==>
              NumbersFit(clk, GetExReq(cmd)) && OnTime(st, clk, clk'.wall, GetExReq(cmd))
  {
    GetExIsExpire(st, clk, cmd);
    var k, opt, v := cmd[1], Lower(cmd[2]), Str2Int(cmd[3]).value;
    var ms, abs := GetExTtl(opt, v, clk).value, GetExAbs(opt, v, clk);
    if abs <= clk.wall {
      ExpireKey(st, clk, k, ms, clk'.wall);
      DelKey(st', clk', k);
      SameOnKey(st, clk, st', clk', clk'.wall, k, Expire(st, clk, k, ms).st, ReplayAll(st', clk', [["DEL", k]]));
    } else {
      ExpireFollows(st, clk, st', clk', k, ms, abs);
    }
  }

  lemma PersistFollows(st: Store, clk: Clock, st': Store, clk': Clock, cmd: Args)
    requires |cmd| == 3 && GetEx(st, clk, cmd).dirty
    requires Sane(clk) && Sane(clk') && clk.wall <= clk'.wall && Same(st, clk, st', clk', clk'.wall)
    ensures Follows(st, clk, st', clk', GetExReq(cmd)) <==> OnTime(st, clk, clk'.wall, GetExReq(cmd))
  {
    var k := cmd[1];
    Names();
    PurgedKey(st, clk, k, clk.wall);
    PurgeIsDead(st, k, clk, Entry(Str(""), None));
    ReplayOne(st', clk', ["PERSIST", k]);
    PersistKey(st, clk, k, clk'.wall);
    PersistKey(st', clk', k, clk'.wall);
    SameOnKey(st, clk, st', clk', clk'.wall, k, Persist(st, clk, k).st, Persist(st', clk', k).st);
    assert Key(st, clk, clk'.wall, k) == Key(st', clk', clk'.wall, k);
  }

  lemma PlainSetKey(st: Store, clk: Clock, k: string, v: string)
    ensures var to := ReplayAll(st, clk, [["SET", k, v]]);
            OnlyKey(st, to, k) && Key(to, clk, clk.wall, k) == Some(Kept(Str(v), None))
  {
    ReplaySet(st, clk, k, v);
    ReplayOne(st, clk, ["SET", k, v]);
    assert st[k := Entry(Str(v), None)] - {k} == st - {k};
  }

  lemma TimedSetKey(st: Store, clk: Clock, k: string, v: string, abs: int)
    requires Sane(clk) && 0 < abs <= INT64_MAX
    ensures var to := ReplayAll(st, clk, [["SET", k, v, "PXAT", ToStr(abs)]]);
            OnlyKey(st, to, k) && Key(to, clk, clk.wall, k) == Timed(Str(v), abs, clk.wall)
  {
    ReplayPxat(st, clk, k, v, abs);
    var o := NoOpts.(unit := Some(PXAT), abs := abs);
    PurgedKey(st, clk, k, clk.wall);
    if SetWith(Purge(st, k, clk), clk, k, v, o).dirty { SetKey(st, clk, k, v, o, clk.wall); }
  }

  lemma KeptSetKey(st: Store, clk: Clock, k: string, v: string)
    requires Sane(clk)
    ensures var to, q := ReplayAll(st, clk, [["SET", k, v, "KEEPTTL"]]), Key(st, clk, clk.wall, k);
            OnlyKey(st, to, k)
            && Key(to, clk, clk.wall, k) == Some(Kept(Str(v), if q.Some? then q.value.until else None))
  {
    ReplayKeepTtl(st, clk, k, v);
    SetKey(st, clk, k, v, NoOpts.(keepttl := true), clk.wall);
  }

  lemma SetFollows(st: Store, clk: Clock, st': Store, clk': Clock, cmd: Args)
    requires |cmd| >= 4 && DoSet(st, clk, cmd).dirty
    requires Sane(clk) && Sane(clk') && clk.wall <= clk'.wall && Same(st, clk, st', clk', clk'.wall)
    ensures Follows(st, clk, st', clk', SetReq(cmd)) <==> OnTime(st, clk, clk'.wall, SetReq(cmd))
  {
    var k, v, o := cmd[1], cmd[2], ParseOpts(cmd, 3, NoOpts, clk.wall).value;
    ParseOptsRange(cmd, 3, NoOpts, clk.wall);
    SetKey(st, clk, k, v, o, clk'.wall);
    if o.unit.Some? && o.abs <= clk.wall {
      DelKey(st', clk', k);
    } else if o.unit.Some? {
      TimedSetKey(st', clk', k, v, o.abs);
    } else if o.keepttl {
      KeptSetKey(st', clk', k, v);
    } else {
      PlainSetKey(st', clk', k, v);
    }
    SameOnKey(st, clk, st', clk', clk'.wall, k, DoSet(st, clk, cmd).st, ReplayAll(st', clk', SetFrames(cmd, clk)));
    assert Key(st, clk, clk'.wall, k) == Key(st', clk', clk'.wall, k);
  }

  lemma TwoFramesKey(st: Store, clk: Clock, k: string, v: string, abs: int)
    requires Sane(clk) && InRange(abs)
    ensures var to, rem := ReplayAll(st, clk, [["SET", k, v], ["PEXPIREAT", k, ToStr(abs)]]), I64(abs - clk.wall);
            OnlyKey(st, to, k)
            && Key(to, clk, clk.wall, k) == if rem > 0 then Some(Kept(Str(v), Some(clk.wall + rem))) else None
  {
    var f, g := ["SET", k, v], ["PEXPIREAT", k, ToStr(abs)];
    var mid := ReplayAll(st, clk, [f]);
    PlainSetKey(st, clk, k, v);
    ReplayOne(st, clk, f);
    ReplayTwo(st, clk, f, g);
    ReplayOne(mid, clk, g);
    AtKey(mid, clk, k, abs);
  }

  lemma SetExFollows(st: Store, clk: Clock, st': Store, clk': Clock, cmd: Args, mult: int)
    requires |cmd| == 4 && (mult == 1 || mult == 1000) && SetEx(st, clk, cmd, mult).dirty
    requires Sane(clk) && Sane(clk') && clk.wall <= clk'.wall && Same(st, clk, st', clk', clk'.wall)
    ensures Follows(st, clk, st', clk', SetExReq(cmd, mult)) <==> NumbersFit(clk, SetExReq(cmd, mult))
  {
    SetExAtFollows(st, clk, st', clk', cmd[1], cmd[3], I64(Str2Int(cmd[2]).value * mult));
  }

  lemma SetTtlKey(st: Store, clk: Clock, k: string, v: string, ms: int, w: int)
    ensures var to := st[k := Entry(Str(v), Ttl(ms, clk))];
            OnlyKey(st, to, k)
            && Key(to, clk, w, k) == if ms < 0 then Some(Kept(Str(v), None)) else Timed(Str(v), clk.wall + ms, w)
  {
    assert st[k := Entry(Str(v), Ttl(ms, clk))] - {k} == st - {k};
  }

  lemma SetExAtFollows(st: Store, clk: Clock, st': Store, clk': Clock, k: string, v: string, ms: int)
    requires Sane(clk) && Sane(clk') && clk.wall <= clk'.wall && InRange(ms) && Same(st, clk, st', clk', clk'.wall)
    ensures var frames := [["SET", k, v], ["PEXPIREAT", k, ToStr(I64(clk.wall + ms))]];
            Same(st[k := Entry(Str(v), Ttl(ms, clk))], clk, ReplayAll(st', clk', frames), clk', clk'.wall) <==> ms >= 0
  {
    var abs, to, w := I64(clk.wall + ms), st[k := Entry(Str(v), Ttl(ms, clk))], clk'.wall;
    var to' := ReplayAll(st', clk', [["SET", k, v], ["PEXPIREAT", k, ToStr(abs)]]);
    TwoFramesKey(st', clk', k, v, abs);
    ShiftedSum(clk.wall, abs, ms, w);
    SetTtlKey(st, clk, k, v, ms, w);
    SameOnKey(st, clk, st', clk', w, k, to, to');
  }

  lemma SRemKey(st: Store, clk: Clock, k: string, gone: Args, w: int)
    requires w >= clk.wall
    ensures var to, q := SRem(st, clk, k, gone).st, Key(st, clk, w, k);
            && OnlyKey(st, to, k)
            && Key(to, clk, w, k) ==
               if q.None? || !q.value.value.Members? then q
               else if q.value.value.m - (set x | x in gone) == {} then None
               else Some(Kept(Members(q.value.value.m - (set x | x in gone)), q.value.until))
  {
    PurgedKey(st, clk, k, w);
    var st1, to := Purge(st, k, clk), SRem(st, clk, k, gone).st;
    if k in to { assert st1[k := to[k]] - {k} == st1 - {k}; }
  }

  lemma SPopIsSRem(st: Store, clk: Clock, cmd: Args, picks: Args)
    requires 2 <= |cmd| <= 3 && SPopPicks(st, clk, cmd, picks) && SPop(st, clk, cmd, picks).dirty
    ensures SPop(st, clk, cmd, picks).st == SRem(st, clk, cmd[1], picks).st && picks != []
  {
  }

  lemma ReplaySRem(st: Store, clk: Clock, k: string, picks: Args)
    requires picks != []
    ensures ReplayAll(st, clk, [["srem", k] + picks]) == SRem(st, clk, k, picks).st
  {
    var f := ["srem", k] + picks;
    Names();
    assert f[0] == "srem" && f[1] == k && f[2..] == picks;
    ReplayOne(st, clk, f);
  }

  lemma SPopFollows(st: Store, clk: Clock, st': Store, clk': Clock, cmd: Args, picks: Args)
    requires 2 <= |cmd| <= 3 && SPopPicks(st, clk, cmd, picks) && SPop(st, clk, cmd, picks).dirty
    requires clk.wall <= clk'.wall && Same(st, clk, st', clk', clk'.wall)
    ensures Follows(st, clk, st', clk', SPopReq(cmd, picks))
  {
    hide SRem, Same, SPopPicks, ReplayAll;
    var k := cmd[1];
    SPopIsSRem(st, clk, cmd, picks);
    ReplaySRem(st', clk', k, picks);
    SRemSame(st, clk, st', clk', k, picks);
  }

  lemma SRemSame(st: Store, clk: Clock, st': Store, clk': Clock, k: string, gone: Args)
    requires clk.wall <= clk'.wall && Same(st, clk, st', clk', clk'.wall)
    ensures Same(SRem(st, clk, k, gone).st, clk, SRem(st', clk', k, gone).st, clk', clk'.wall)
  {
    SRemKey(st, clk, k, gone, clk'.wall);
    SRemKey(st', clk', k, gone, clk'.wall);
    SameOnKey(st, clk, st', clk', clk'.wall, k, SRem(st, clk, k, gone).st, SRem(st', clk', k, gone).st);
    assert Key(st, clk, clk'.wall, k) == Key(st', clk', clk'.wall, k);
  }

  lemma NothingFollows(st: Store, clk: Clock, st': Store, clk': Clock, r: Request)
    requires WellFormed(r) && !Exec(st, clk, r).dirty && clk.wall <= clk'.wall && Same(st, clk, st', clk', clk'.wall)
    ensures Follows(st, clk, st', clk', r)
  {
    var k := r.cmd[1];
    PurgedKey(st, clk, k, clk'.wall);
    assert Exec(st, clk, r).st == st || Exec(st, clk, r).st == Purge(st, k, clk);
    SameOnKey(st, clk, st', clk', clk'.wall, k, Exec(st, clk, r).st, st');
    assert Key(st, clk, clk'.wall, k) == Key(st', clk', clk'.wall, k);
  }

  /** One request, and what was logged for it run again at any later time on a server that showed the same
      keys: it shows the same keys again if and only if the numbers of the request do not wrap and it was
      on time. */
  lemma FollowsExact(st: Store, clk: Clock, st': Store, clk': Clock, r: Request)
    requires WellFormed(r) && (r.SPopReq? ==> SPopPicks(st, clk, r.cmd, r.picks))
    requires Sane(clk) && Sane(clk') && clk.wall <= clk'.wall && Same(st, clk, st', clk', clk'.wall)
    ensures Follows(st, clk, st', clk', r) <==>
              (Exec(st, clk, r).dirty ==> NumbersFit(clk, r) && OnTime(st, clk, clk'.wall, r))
  {
    if !Exec(st, clk, r).dirty {
      NothingFollows(st, clk, st', clk', r);
    } else {
      match r
      case SetReq(cmd) => SetFollows(st, clk, st', clk', cmd);
      case SetExReq(cmd, mult) => SetExFollows(st, clk, st', clk', cmd, mult);
      case SPopReq(cmd, picks) => SPopFollows(st, clk, st', clk', cmd, picks);
      case GetExReq(cmd) =>
        if |cmd| == 3 { PersistFollows(st, clk, st', clk', cmd); } else { GetExTimeFollows(st, clk, st', clk', cmd); }
      case ExpireReq(cmd, mult) => ExpireInFollows(st, clk, st', clk', cmd, mult);
      case ExpireAtReq(cmd) => ExpireAtFollows(st, clk, st', clk', cmd);
    }
  }

  // ---- whole logs -----------------------------------------------------------------------------------------

  /** A request, the clock when it ran, and the clock when what it logged is run again. */
  datatype Event = Event(clk: Clock, r: Request, again: Clock)

  function Offset(clk: Clock): int { clk.wall - clk.mono }

  /** Events that can follow one another: on either side the clocks keep in step with each other, and time
      does not run back on the second. */
  ghost predicate Possible(st: Store, clk: Clock, clk': Clock, run: seq<Event>)
    decreases |run|
  {
    run == [] ||
    var e := run[0];
    && WellFormed(e.r) && (e.r.SPopReq? ==> SPopPicks(st, e.clk, e.r.cmd, e.r.picks))
    && Sane(e.clk) && Sane(e.again) && Offset(e.clk) == Offset(clk) && Offset(e.again) == Offset(clk')
    && e.clk.wall <= e.again.wall && clk'.wall <= e.again.wall
    && Possible(Exec(st, e.clk, e.r).st, e.clk, e.again, run[1..])
  }

  /** The log of a run, the store at its end, and the store of who runs the log again as it grows. */
  ghost function LogOf(st: Store, clk: Clock, clk': Clock, run: seq<Event>): seq<Args>
    requires Possible(st, clk, clk', run)
    decreases |run|
  {
    if run == [] then []
    else var e := run[0]; Logged(st, e.clk, e.r) + LogOf(Exec(st, e.clk, e.r).st, e.clk, e.again, run[1..])
  }

  ghost function Ran(st: Store, clk: Clock, clk': Clock, run: seq<Event>): Store
    requires Possible(st, clk, clk', run)
    decreases |run|
  {
    if run == [] then st else var e := run[0]; Ran(Exec(st, e.clk, e.r).st, e.clk, e.again, run[1..])
  }

  ghost function Redone(st: Store, st': Store, clk: Clock, clk': Clock, run: seq<Event>): Store
    requires Possible(st, clk, clk', run)
    decreases |run|
  {
    if run == [] then st'
    else
      var e := run[0];
      Redone(Exec(st, e.clk, e.r).st, ReplayAll(st', e.again, Logged(st, e.clk, e.r)), e.clk, e.again, run[1..])
  }

  /** The second server keeps up: after every event it shows the same keys. */
  ghost predicate KeepsUp(st: Store, st': Store, clk: Clock, clk': Clock, run: seq<Event>)
    requires Possible(st, clk, clk', run)
    decreases |run|
  {
    run == [] ||
    var e := run[0];
    Follows(st, e.clk, st', e.again, e.r) &&
    KeepsUp(Exec(st, e.clk, e.r).st, ReplayAll(st', e.again, Logged(st, e.clk, e.r)), e.clk, e.again, run[1..])
  }

  /** Every request of the run was on time, and none of its numbers wrapped. */
  ghost predicate AllOnTime(st: Store, clk: Clock, clk': Clock, run: seq<Event>)
    requires Possible(st, clk, clk', run)
    decreases |run|
  {
    run == [] ||
    var e := run[0];
    && (Exec(st, e.clk, e.r).dirty ==> NumbersFit(e.clk, e.r) && OnTime(st, e.clk, e.again.wall, e.r))
    && AllOnTime(Exec(st, e.clk, e.r).st, e.clk, e.again, run[1..])
  }

  lemma SameOffset(st: Store, clk: Clock, at: Clock, st': Store, clk': Clock, at': Clock, w: int)
    requires Same(st, clk, st', clk', w) && Offset(at) == Offset(clk) && Offset(at') == Offset(clk')
    ensures Same(st, at, st', at', w)
  {
    forall k ensures Key(st, at, w, k) == Key(st', at', w, k) {
      assert Key(st, clk, w, k) == Key(st', clk', w, k);
      assert Key(st, at, w, k) == Key(st, clk, w, k) && Key(st', at', w, k) == Key(st', clk', w, k);
    }
  }

  /** Over every run: a log run again, each part of it at any later time, leads through the same keys if and
      only if every request was on time. */
  lemma {:induction false} RunExact(st: Store, st': Store, clk: Clock, clk': Clock, run: seq<Event>)
    requires Possible(st, clk, clk', run) && Same(st, clk, st', clk', clk'.wall)
    ensures KeepsUp(st, st', clk, clk', run) <==> AllOnTime(st, clk, clk', run)
    decreases |run|
  {
    if run != [] {
      var e := run[0];
      SameLater(st, clk, st', clk', clk'.wall, e.again.wall);
      SameOffset(st, clk, e.clk, st', clk', e.again, e.again.wall);
      FollowsExact(st, e.clk, st', e.again, e.r);
      if Follows(st, e.clk, st', e.again, e.r) {
        RunExact(Exec(st, e.clk, e.r).st, ReplayAll(st', e.again, Logged(st, e.clk, e.r)), e.clk, e.again, run[1..]);
      }
    }
  }

  /** Who kept up shows the same keys at the end. */
  lemma {:induction false} KeptUp(st: Store, st': Store, clk: Clock, clk': Clock, run: seq<Event>, w: int)
    requires Possible(st, clk, clk', run) && Same(st, clk, st', clk', clk'.wall) && KeepsUp(st, st', clk, clk', run)
    requires clk'.wall <= w && forall e :: e in run ==> e.again.wall <= w
    ensures Same(Ran(st, clk, clk', run), clk, Redone(st, st', clk, clk', run), clk', w)
    decreases |run|
  {
    if run == [] {
      SameLater(st, clk, st', clk', clk'.wall, w);
    } else {
      var e := run[0];
      var to, to' := Exec(st, e.clk, e.r).st, ReplayAll(st', e.again, Logged(st, e.clk, e.r));
      assert e in run && forall x :: x in run[1..] ==> x in run;
      KeptUp(to, to', e.clk, e.again, run[1..], w);
      SameOffset(Ran(to, e.clk, e.again, run[1..]), e.clk, clk, Redone(to, to', e.clk, e.again, run[1..]), e.again,
                 clk', w);
    }
  }

  lemma {:induction false} ReplayMore(st: Store, clk: Clock, a: seq<Args>, b: seq<Args>)
    ensures ReplayAll(st, clk, a + b) == ReplayAll(ReplayAll(st, clk, a), clk, b)
    decreases |a|
  {
    if a == [] {
      assert a + b == b;
    } else {
      assert (a + b)[0] == a[0] && (a + b)[1..] == a[1..] + b;
      ReplayMore(Replay(st, clk, a[0]), clk, a[1..], b);
    }
  }

  /** A whole log run again at one moment. */
  lemma {:induction false} RedoneAtOnce(st: Store, st': Store, clk: Clock, clk': Clock, run: seq<Event>)
    requires Possible(st, clk, clk', run) && forall e :: e in run ==> e.again == clk'
    ensures Redone(st, st', clk, clk', run) == ReplayAll(st', clk', LogOf(st, clk, clk', run))
    decreases |run|
  {
    if run != [] {
      var e := run[0];
      assert e in run && forall x :: x in run[1..] ==> x in run;
      RedoneAtOnce(Exec(st, e.clk, e.r).st, ReplayAll(st', clk', Logged(st, e.clk, e.r)), e.clk, clk', run[1..]);
      ReplayMore(st', clk', Logged(st, e.clk, e.r), LogOf(Exec(st, e.clk, e.r).st, e.clk, clk', run[1..]));
    }
  }

  /** Every frame of the log can be read back from its bytes. */
  lemma {:induction false} LogReadable(st: Store, clk: Clock, clk': Clock, run: seq<Event>)
    requires Possible(st, clk, clk', run) && forall e :: e in run ==> Plain(e.r)
    ensures forall f :: f in LogOf(st, clk, clk', run) ==> Readable(f)
    decreases |run|
  {
    if run != [] {
      var e := run[0];
      assert e in run && forall x :: x in run[1..] ==> x in run;
      LogReadable(Exec(st, e.clk, e.r).st, e.clk, e.again, run[1..]);
      if Exec(st, e.clk, e.r).dirty && !e.r.SPopReq? { LoggedReadable(st, e.clk, e.r); }
    }
  }

  /** Not an SPOP whose frame cannot be read back. */
  predicate Reloadable(r: Request) {
    r.SPopReq? && |r.cmd| >= 2 ==> Readable(PopFrame(r.cmd, r.picks))
  }

  /** A request as the parser hands it on, and not an SPOP whose frame cannot be read back. */
  predicate Plain(r: Request) {
    ShortArgs(r.cmd) && Reloadable(r)
  }

  /** A server that starts from the bytes of the log at any later time shows the keys of the one that wrote
      it, at that moment and ever after, if every request was on time. */
  lemma Restored(clk: Clock, clk': Clock, run: seq<Event>)
    requires Possible(map[], clk, clk', run) && AllOnTime(map[], clk, clk', run)
    requires forall e :: e in run ==> e.again == clk' && Plain(e.r)
    ensures Same(Ran(map[], clk, clk', run), clk,
                 ReplayAll(map[], clk', ReadBack(LogOf(map[], clk, clk', run))), clk', clk'.wall)
  {
    RunExact(map[], map[], clk, clk', run);
    KeptUp(map[], map[], clk, clk', run, clk'.wall);
    RedoneAtOnce(map[], map[], clk, clk', run);
    LogReadable(map[], clk, clk', run);
    ReadBackWhole(LogOf(map[], clk, clk', run));
  }

  /** The same from the bytes the clients sent, request by request; only an SPOP whose frame cannot be read
      back is still kept out. */
  lemma ReceivedRestored(sent: seq<string>, clk: Clock, clk': Clock, run: seq<Event>)
    requires Possible(map[], clk, clk', run) && AllOnTime(map[], clk, clk', run) && |sent| == |run|
    requires forall i :: 0 <= i < |run| ==> run[i].again == clk' && Arrived(sent[i], run[i].r) && Reloadable(run[i].r)
    ensures Same(Ran(map[], clk, clk', run), clk,
                 ReplayAll(map[], clk', ReadBack(LogOf(map[], clk, clk', run))), clk', clk'.wall)
  {
    forall i | 0 <= i < |run| ensures Plain(run[i].r) { ParsedShort(sent[i]); }
    Restored(clk, clk', run);
  }

  // ---- the two ways to be late --------------------------------------------------------------------------

  /** A string written with a deadline, and then freed of it or written again with the same deadline. */
  function TimedThen(k: string, v: string, until: int, clk: Clock, r: Request, clk': Clock): seq<Event> {
    [Event(clk, SetReq(["SET", k, v, "PXAT", ToStr(until)]), clk'), Event(clk, r, clk')]
  }

  lemma TimedRuns(k: string, v: string, until: int, clk: Clock, clk': Clock)
    requires Sane(clk) && Sane(clk') && clk.wall < until <= clk'.wall
    ensures var r := SetReq(["SET", k, v, "PXAT", ToStr(until)]);
            && Exec(map[], clk, r) == Effect(map[k := Entry(Str(v), Some(clk.mono + until - clk.wall))], true)
            && ReplayAll(map[], clk', Logged(map[], clk, r)) == map[]
  {
    var f := ["SET", k, v, "PXAT", ToStr(until)];
    Names();
    PrintedIsRead(until);
    var o := NoOpts.(unit := Some(PXAT), abs := until);
    assert f[1] == k && f[2] == v && f[3] == "PXAT" && f[4] == ToStr(until);
    assert ParseOpts(f, 5, o, clk.wall) == Some(o);
    ReplayPxat(map[], clk', k, v, until);
  }

  /** SET k v PXAT t, GETEX k PERSIST: the key stays for ever, and is gone if the log is run again after t. */
  lemma PersistLost(k: string, v: string, until: int, clk: Clock, clk': Clock)
    requires Sane(clk) && Sane(clk') && clk.wall < until <= clk'.wall
    ensures var run := TimedThen(k, v, until, clk, GetExReq(["GETEX", k, "PERSIST"]), clk');
            && Possible(map[], clk, clk', run)
            && Key(Ran(map[], clk, clk', run), clk, clk'.wall, k) == Some(Kept(Str(v), None))
            && Key(ReplayAll(map[], clk', LogOf(map[], clk, clk', run)), clk', clk'.wall, k) == None
  {
    var g := ["GETEX", k, "PERSIST"];
    var run := TimedThen(k, v, until, clk, GetExReq(g), clk');
    TimedRuns(k, v, until, clk, clk');
    TwoEvents(run, clk, clk');
    Names();
    assert g[1] == k && Lower(g[2]) == "persist";
    RedoneAtOnce(map[], map[], clk, clk', run);
    ReplayOne(map[], clk', ["PERSIST", k]);
  }

  /** SET k v PXAT t, SET k v KEEPTTL: the key is gone at t, and is there for ever if the log is run again
      after t. */
  lemma KeepTtlRevives(k: string, v: string, until: int, clk: Clock, clk': Clock)
    requires Sane(clk) && Sane(clk') && clk.wall < until <= clk'.wall
    ensures var run := TimedThen(k, v, until, clk, SetReq(["SET", k, v, "KEEPTTL"]), clk');
            && Possible(map[], clk, clk', run)
            && Key(Ran(map[], clk, clk', run), clk, clk'.wall, k) == None
            && Key(ReplayAll(map[], clk', LogOf(map[], clk, clk', run)), clk', clk'.wall, k) == Some(Kept(Str(v), None))
  {
    var g, o := ["SET", k, v, "KEEPTTL"], NoOpts.(keepttl := true);
    var run := TimedThen(k, v, until, clk, SetReq(g), clk');
    TimedRuns(k, v, until, clk, clk');
    TwoEvents(run, clk, clk');
    Names();
    assert g[1] == k && g[2] == v && g[3] == "KEEPTTL";
    assert ParseOpts(g, 4, o, clk.wall) == Some(o);
    RedoneAtOnce(map[], map[], clk, clk', run);
    ReplayKeepTtl(map[], clk', k, v);
  }

  lemma OneEvent(st: Store, st': Store, clk: Clock, clk': Clock, run: seq<Event>)
    requires |run| == 1 && WellFormed(run[0].r) && !run[0].r.SPopReq? && run[0].clk == clk && run[0].again == clk'
    requires Sane(clk) && Sane(clk') && clk.wall <= clk'.wall
    ensures Possible(st, clk, clk', run) && Ran(st, clk, clk', run) == Exec(st, clk, run[0].r).st
    ensures Redone(st, st', clk, clk', run) == ReplayAll(st', clk', Logged(st, clk, run[0].r))
  {
    assert run[1..] == [];
  }

  lemma TwoEvents(run: seq<Event>, clk: Clock, clk': Clock)
    requires |run| == 2
    requires forall e :: e in run ==> WellFormed(e.r) && !e.r.SPopReq? && e.clk == clk && e.again == clk'
    requires Sane(clk) && Sane(clk') && clk.wall <= clk'.wall
    ensures Possible(map[], clk, clk', run)
    ensures var st := Exec(map[], clk, run[0].r).st;
            && Ran(map[], clk, clk', run) == Exec(st, clk, run[1].r).st
            && Redone(map[], map[], clk, clk', run) ==
                 ReplayAll(ReplayAll(map[], clk', Logged(map[], clk, run[0].r)), clk', Logged(st, clk, run[1].r))
  {
    assert run[0] in run && run[1] in run && run[1..][0] == run[1];
    OneEvent(Exec(map[], clk, run[0].r).st, ReplayAll(map[], clk', Logged(map[], clk, run[0].r)), clk, clk', run[1..]);
  }
}
