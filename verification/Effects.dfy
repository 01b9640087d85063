/** What the write commands do and what is written to the stream for them
    (src/commands/commands.cpp): the log carries the effect of a request, not the request. */
module Effects {
  import opened Common
  import opened Resp

  const INT64_MAX := 0x7FFF_FFFF_FFFF_FFFF
  const UINT64_MAX := 0xFFFF_FFFF_FFFF_FFFF

  predicate InRange(x: int) { -INT64_MAX - 1 <= x <= INT64_MAX }

  /** A sum or product as an `int64_t` keeps it. */
  function I64(x: int): (r: int)
    ensures InRange(x) ==> r == x
    ensures INT64_MAX < x <= 2 * INT64_MAX + 1 ==> r == x - UINT64_MAX - 1
    ensures -2 * INT64_MAX - 2 <= x < -INT64_MAX - 1 ==> r == x + UINT64_MAX + 1
  {
    var m := x % (UINT64_MAX + 1);
    if m <= INT64_MAX then m else m - UINT64_MAX - 1
  }

  // ---- strings -----------------------------------------------------------------------

  function LowerChar(c: char): char {
    if 'A' <= c <= 'Z' then (c as int - 'A' as int + 'a' as int) as char else c
  }

  function Lower(s: string): string {
    seq(|s|, i requires 0 <= i < |s| => LowerChar(s[i]))
  }

  /** `arg_ieq` */
  predicate Ieq(a: string, lit: string) { Lower(a) == lit }

  /** Every letter has its small one, and nothing else changes. */
  lemma LowerLetters(i: nat, c: char)
    requires i < 26
    ensures LowerChar("ABCDEFGHIJKLMNOPQRSTUVWXYZ"[i]) == "abcdefghijklmnopqrstuvwxyz"[i]
    ensures c !in "ABCDEFGHIJKLMNOPQRSTUVWXYZ" ==> LowerChar(c) == c
  {
    var upper, lower := "ABCDEFGHIJKLMNOPQRSTUVWXYZ", "abcdefghijklmnopqrstuvwxyz";
    assert forall j :: 0 <= j < 26 ==> upper[j] as int == 'A' as int + j && lower[j] as int == 'a' as int + j;
    if 'A' <= c <= 'Z' { assert upper[c as int - 'A' as int] == c; }
  }

  // ---- str2int and %lld -----------------------------------------------------------------

  /** `%lld` */
  function ToStr(v: int): string {
    if v < 0 then "-" + Decimal(-v) else Decimal(v)
  }

  function Magnitude(s: string): string {
    if s != "" && s[0] == '-' then s[1..] else s
  }

  predicate Negative(s: string) { s != "" && s[0] == '-' }

  /** A strict decimal in the range of `int64_t`. */
  function Str2Int(s: string): (r: Option<int>)
    ensures r.Some? ==> InRange(r.value)
  {
    var d := Magnitude(s);
    if s == "0" then Some(0)
    else if d == "" || d[0] == '0' || !AllDigits(d) then None
    else if Negative(s) then (if Value(d) <= INT64_MAX + 1 then Some(0 - Value(d)) else None)
    else if Value(d) <= INT64_MAX then Some(Value(d)) else None
  }

  lemma {:induction false} DecimalHead(n: nat)
    requires n > 0
    ensures Decimal(n)[0] != '0' && Decimal(n)[0] != '-'
  {
    if n >= 10 { DecimalHead(n / 10); }
  }

  lemma {:induction false} DecimalOf(d: string)
    requires d != "" && AllDigits(d) && d[0] != '0'
    ensures Value(d) > 0 && Decimal(Value(d)) == d
  {
    var front, last := d[..|d| - 1], d[|d| - 1] as int - '0' as int;
    if front != "" {
      DecimalOf(front);
      assert Value(d) / 10 == Value(front) && Value(d) % 10 == last;
      assert front + [d[|d| - 1]] == d;
    }
  }

  lemma PrintedPositive(v: nat)
    requires v > 0
    ensures var s := Decimal(v); Str2Int(s) == if v <= INT64_MAX then Some(v) else None
  {
    DecimalHead(v);
  }

  lemma PrintedNegative(v: nat)
    requires v > 0
    ensures var s := "-" + Decimal(v); Str2Int(s) == if v <= INT64_MAX + 1 then Some(0 - v) else None
  {
    var s := "-" + Decimal(v);
    DecimalHead(v);
    assert s[0] == '-' && s[1..] == Decimal(v);
  }

  lemma PrintedIsRead(v: int)
    requires InRange(v)
    ensures Str2Int(ToStr(v)) == Some(v)
  {
    if v > 0 { PrintedPositive(v); } else if v < 0 { PrintedNegative(-v); } else { assert Decimal(0) == "0"; }
  }

  lemma ReadIsPrinted(s: string, v: int)
    requires Str2Int(s) == Some(v)
    ensures s == ToStr(v)
  {
    if s == "0" {
      assert Decimal(0) == "0";
    } else {
      var d := Magnitude(s);
      DecimalOf(d);
      if Negative(s) { assert s == "-" + d; }
    }
  }

  /** Printing and parsing are inverse: a number is read back, and nothing but its printed form is
      read as it. */
  lemma IntRoundTrip(s: string, v: int)
    ensures InRange(v) ==> Str2Int(ToStr(v)) == Some(v)
    ensures Str2Int(s) == Some(v) ==> s == ToStr(v) && InRange(v)
  {
    if InRange(v) { PrintedIsRead(v); }
    if Str2Int(s) == Some(v) { ReadIsPrinted(s, v); }
  }

  /** `str2int`: the digits are accumulated in a `uint64_t`, checked before each step. */
  method ParseInt(s: string) returns (r: Option<int>)
    ensures r == Str2Int(s)
  {
    if |s| == 0 { return None; }
    if s == "0" { return Some(0); }
    var neg := s[0] == '-';
    if neg && |s| == 1 { return None; }
    var d := if neg then s[1..] else s;
    if !('1' <= d[0] <= '9') {
      return None;
    }
    var v, i := 0, 0;
    while i < |d|
      invariant i <= |d| && AllDigits(d[..i]) && v == Value(d[..i]) <= UINT64_MAX
    {
      if !IsDigit(d[i]) { return None; }
      var x := d[i] as int - '0' as int;
      assert d[..i + 1][..i] == d[..i];
      if v > (UINT64_MAX - x) / 10 {
        if AllDigits(d) { ValueGrows(d, i + 1); }
        return None;
      }
      v := v * 10 + x;
      i := i + 1;
    }
    assert d[..i] == d;
    if neg {
      if v > INT64_MAX + 1 { return None; }
      return Some(-v);
    }
    if v > INT64_MAX { return None; }
    return Some(v);
  }

  // ---- the keyspace ------------------------------------------------------------------------

  datatype Value' = Str(s: string) | Members(m: set<string>) | Other(kind: nat, data: string)

  /** The deadline is an instant of the monotonic clock, as in the TTL heap. */
  datatype Entry = Entry(value: Value', deadline: Option<int>)

  type Store = map<string, Entry>

  /** One reading of the wall clock and of the monotonic clock. */
  datatype Clock = Clock(wall: int, mono: int)

  predicate Sane(clk: Clock) { 0 <= clk.wall <= INT64_MAX && 0 <= clk.mono <= INT64_MAX }

  predicate Expired(e: Entry, clk: Clock) {
    e.deadline.Some? && e.deadline.value <= clk.mono
  }

  /** The keys a client can see, with values and deadlines. */
  ghost function Live(st: Store, clk: Clock): Store {
    map k | k in st && !Expired(st[k], clk) :: st[k]
  }

  /** `expire_if_needed` at a lookup */
  function Purge(st: Store, k: string, clk: Clock): Store {
    if k in st && Expired(st[k], clk) then st - {k} else st
  }

  /** `entry_set_ttl` */
  function Ttl(ms: int, clk: Clock): Option<int> {
    if ms < 0 then None else Some(clk.mono + ms)
  }

  /** The keyspace after a command, and whether it counted as a write (`g_writes_since_save`). */
  datatype Effect = Effect(st: Store, dirty: bool)

  // ---- SET options ---------------------------------------------------------------------------

  datatype Unit = EX | PX | EXAT | PXAT

  datatype SetOpts = SetOpts(nx: bool, xx: bool, get: bool, keepttl: bool, unit: Option<Unit>, abs: int)

  const NoOpts := SetOpts(false, false, false, false, None, 0)

  /** The unit an option names, if it does not conflict with what was seen. */
  function UnitOf(a: string, o: SetOpts): Option<Unit> {
    if o.keepttl then None
    else if Ieq(a, "ex") && (o.unit.None? || o.unit.value.EX?) then Some(EX)
    else if Ieq(a, "px") && (o.unit.None? || o.unit.value.PX?) then Some(PX)
    else if Ieq(a, "exat") && (o.unit.None? || o.unit.value.EXAT?) then Some(EXAT)
    else if Ieq(a, "pxat") && (o.unit.None? || o.unit.value.PXAT?) then Some(PXAT)
    else None
  }

  /** The wall-clock deadline of an option, or nothing if it is refused. */
  function DeadlineOf(u: Unit, arg: string, wall: int): (r: Option<int>)
    ensures r.Some? && 0 <= wall ==> 0 < r.value <= INT64_MAX
  {
    var v := Str2Int(arg);
    if v.None? || v.value <= 0 then None
    else
      var secs := u.EX? || u.EXAT?;
      if secs && v.value > INT64_MAX / 1000 then None
      else
        var ms := if secs then v.value * 1000 else v.value;
        if u.EXAT? || u.PXAT? then Some(ms)
        else if ms > INT64_MAX - wall then None
        else Some(ms + wall)
  }

  /** `parse_set_opts` from argument i on. */
  function ParseOpts(cmd: Args, i: nat, o: SetOpts, wall: int): Option<SetOpts>
    decreases |cmd| - i
  {
    if i >= |cmd| then Some(o)
    else
      var a := cmd[i];
      if Ieq(a, "nx") && !o.xx then ParseOpts(cmd, i + 1, o.(nx := true), wall)
      else if Ieq(a, "xx") && !o.nx then ParseOpts(cmd, i + 1, o.(xx := true), wall)
      else if Ieq(a, "get") then ParseOpts(cmd, i + 1, o.(get := true), wall)
      else if Ieq(a, "keepttl") && o.unit.None? then ParseOpts(cmd, i + 1, o.(keepttl := true), wall)
      else
        var u := UnitOf(a, o);
        if u.None? || i + 1 >= |cmd| then None
        else
          var ms := DeadlineOf(u.value, cmd[i + 1], wall);
          if ms.None? then None else ParseOpts(cmd, i + 2, o.(unit := u, abs := ms.value), wall)
  }

  /** Options that contradict each other are never accepted together, and a deadline is in range. */
  predicate Coherent(o: SetOpts) {
    !(o.nx && o.xx) && (o.unit.Some? ==> 0 < o.abs <= INT64_MAX && !o.keepttl)
  }

  lemma {:induction false} ParseOptsRange(cmd: Args, i: nat, o: SetOpts, wall: int)
    requires 0 <= wall && Coherent(o)
    ensures var r := ParseOpts(cmd, i, o, wall); r.Some? ==> Coherent(r.value)
    decreases |cmd| - i
  {
    if i < |cmd| {
      var a := cmd[i];
      if Ieq(a, "nx") && !o.xx { ParseOptsRange(cmd, i + 1, o.(nx := true), wall); }
      else if Ieq(a, "xx") && !o.nx { ParseOptsRange(cmd, i + 1, o.(xx := true), wall); }
      else if Ieq(a, "get") { ParseOptsRange(cmd, i + 1, o.(get := true), wall); }
      else if Ieq(a, "keepttl") && o.unit.None? { ParseOptsRange(cmd, i + 1, o.(keepttl := true), wall); }
      else if UnitOf(a, o).Some? && i + 1 < |cmd| {
        var ms := DeadlineOf(UnitOf(a, o).value, cmd[i + 1], wall);
        if ms.Some? { ParseOptsRange(cmd, i + 2, o.(unit := UnitOf(a, o), abs := ms.value), wall); }
      }
    }
  }

  /** `parse_set_opts` */
  method ParseSetOpts(cmd: Args, wall: int) returns (r: Option<SetOpts>)
    ensures r == ParseOpts(cmd, 3, NoOpts, wall)
  {
    var o, i := NoOpts, 3;
    while i < |cmd|
      invariant i >= 3 && ParseOpts(cmd, i, o, wall) == ParseOpts(cmd, 3, NoOpts, wall)
    {
      var a := cmd[i];
      if Ieq(a, "nx") && !o.xx { o := o.(nx := true); i := i + 1; continue; }
      if Ieq(a, "xx") && !o.nx { o := o.(xx := true); i := i + 1; continue; }
      if Ieq(a, "get") { o := o.(get := true); i := i + 1; continue; }
      if Ieq(a, "keepttl") && o.unit.None? { o := o.(keepttl := true); i := i + 1; continue; }
      var u := UnitOf(a, o);
      if u.None? { return None; }
      if i + 1 >= |cmd| { return None; }
      var ms := ReadDeadline(u.value, cmd[i + 1], wall);
      if ms.None? { return None; }
      o := o.(unit := u, abs := ms.value);
      i := i + 2;
    }
    return Some(o);
  }

  method ReadDeadline(u: Unit, arg: string, wall: int) returns (r: Option<int>)
    ensures r == DeadlineOf(u, arg, wall)
  {
    var v := ParseInt(arg);
    if v.None? { return None; }
    var secs, absolute := u.EX? || u.EXAT?, u.EXAT? || u.PXAT?;
    if v.value <= 0 || (secs && v.value > INT64_MAX / 1000) { return None; }
    var ms := if secs then v.value * 1000 else v.value;
    if !absolute {
      if ms > INT64_MAX - wall { return None; }
      ms := ms + wall;
    }
    return Some(ms);
  }

  // ---- the handlers ---------------------------------------------------------------------------

  /** `do_set`; the key is cmd[1], the value cmd[2]. */
  function DoSet(st: Store, clk: Clock, cmd: Args): Effect
    requires |cmd| >= 3
  {
    if |cmd| == 3 then Effect(st[cmd[1] := Entry(Str(cmd[2]), None)], true)
    else match ParseOpts(cmd, 3, NoOpts, clk.wall)
      case None => Effect(st, false)
      case Some(o) => SetWith(Purge(st, cmd[1], clk), clk, cmd[1], cmd[2], o)
  }

  /** The rest of `do_set` once an expired key is out of the way. */
  function SetWith(st: Store, clk: Clock, k: string, v: string, o: SetOpts): Effect {
    var had := k in st;
    if o.get && had && !st[k].value.Str? then Effect(st, false)
    else if (o.nx && had) || (o.xx && !had) then Effect(st, false)
    else
      var keep := if o.keepttl && had && st[k].deadline.Some? then st[k].deadline.value - clk.mono else -1;
      if o.unit.Some? then
        var ttl := o.abs - clk.wall;
        if ttl <= 0 then (if had then Effect(st - {k}, true) else Effect(st, false))
        else Effect(st[k := Entry(Str(v), Ttl(ttl, clk))], true)
      else Effect(st[k := Entry(Str(v), Ttl(if o.keepttl then keep else -1, clk))], true)
  }

  /** `setex_generic` */
  function SetEx(st: Store, clk: Clock, cmd: Args, mult: int): Effect
    requires |cmd| == 4
  {
    var ttl := Str2Int(cmd[2]);
    if ttl.None? || ttl.value <= 0 then Effect(st, false)
    else Effect(st[cmd[1] := Entry(Str(cmd[3]), Ttl(I64(ttl.value * mult), clk))], true)
  }

  /** A key that is there gets `ms` to live, or is deleted when that is not positive. */
  function Expire(st: Store, clk: Clock, k: string, ms: int): Effect {
    var st1 := Purge(st, k, clk);
    if k !in st1 then Effect(st1, false)
    else if ms <= 0 then Effect(st1 - {k}, true)
    else Effect(st1[k := st1[k].(deadline := Ttl(ms, clk))], true)
  }

  /** `expire_generic` */
  function ExpireIn(st: Store, clk: Clock, cmd: Args, mult: int): Effect
    requires |cmd| == 3
  {
    var ttl := Str2Int(cmd[2]);
    if ttl.None? then Effect(st, false) else Expire(st, clk, cmd[1], I64(ttl.value * mult))
  }

  /** `expireat_generic` */
  function ExpireAt(st: Store, clk: Clock, cmd: Args, mult: int): Effect
    requires |cmd| == 3
  {
    var at := Str2Int(cmd[2]);
    if at.None? then Effect(st, false) else Expire(st, clk, cmd[1], I64(I64(at.value * mult) - clk.wall))
  }

  /** `do_persist` */
  function Persist(st: Store, clk: Clock, k: string): Effect {
    var st1 := Purge(st, k, clk);
    if k in st1 && st1[k].deadline.Some? then Effect(st1[k := st1[k].(deadline := None)], true) else Effect(st1, false)
  }

  /** The time to live of a GETEX option, or nothing when the command is refused. */
  function GetExTtl(opt: string, v: int, clk: Clock): Option<int> {
    if opt == "ex" then (if v <= 0 || v > INT64_MAX / 1000 then None else Some(I64(v * 1000)))
    else if opt == "px" then (if v <= 0 then None else Some(v))
    else if opt == "exat" then (if v > INT64_MAX / 1000 then None else Some(I64(I64(v * 1000) - clk.wall)))
    else if opt == "pxat" then Some(I64(v - clk.wall))
    else None
  }

  /** `do_getex` */
  function GetEx(st: Store, clk: Clock, cmd: Args): Effect
    requires |cmd| >= 2
  {
    var k := cmd[1];
    var st1 := Purge(st, k, clk);
    if k !in st1 || !st1[k].value.Str? || |cmd| == 2 then Effect(st1, false)
    else
      var opt := Lower(cmd[2]);
      if opt == "persist" then (if |cmd| != 3 then Effect(st1, false) else Persist(st1, clk, k))
      else if |cmd| != 4 then Effect(st1, false)
      else
        var v := Str2Int(cmd[3]);
        if v.None? then Effect(st1, false)
        else
          var ms := GetExTtl(opt, v.value, clk);
          if ms.None? then Effect(st1, false) else Expire(st1, clk, k, ms.value)
  }

  /** `do_del` */
  function Del(st: Store, ks: Args): Effect {
    Effect(st - (set k | k in ks), exists k :: k in ks && k in st)
  }

  /** `do_srem`: a set that becomes empty is dropped. */
  function SRem(st: Store, clk: Clock, k: string, gone: Args): Effect {
    var st1 := Purge(st, k, clk);
    if k !in st1 || !st1[k].value.Members? then Effect(st1, false)
    else
      var m := st1[k].value.m - (set x | x in gone);
      Effect(if m == {} then st1 - {k} else st1[k := st1[k].(value := Members(m))], m != st1[k].value.m)
  }

  /** How many members SPOP takes, nothing when it takes none. */
  function SPopCount(st: Store, clk: Clock, cmd: Args): nat
    requires 2 <= |cmd| <= 3
  {
    var st1 := Purge(st, cmd[1], clk);
    if cmd[1] !in st1 || !st1[cmd[1]].value.Members? then 0
    else
      var size := |st1[cmd[1]].value.m|;
      if |cmd| == 2 then (if size == 0 then 0 else 1)
      else
        var n := Str2Int(cmd[2]);
        if n.None? || n.value <= 0 then 0 else if n.value < size then n.value else size
  }

  /** Members SPOP may pick, one after another at random. */
  ghost predicate SPopPicks(st: Store, clk: Clock, cmd: Args, picks: Args)
    requires 2 <= |cmd| <= 3
  {
    && |picks| == SPopCount(st, clk, cmd)
    && (picks != [] ==> cmd[1] in st && st[cmd[1]].value.Members? && forall x :: x in picks ==> x in st[cmd[1]].value.m)
    && forall i, j :: 0 <= i < j < |picks| ==> picks[i] != picks[j]
  }

  /** `do_spop` */
  function SPop(st: Store, clk: Clock, cmd: Args, picks: Args): Effect
    requires 2 <= |cmd| <= 3
  {
    var k := cmd[1];
    var st1 := Purge(st, k, clk);
    if SPopCount(st, clk, cmd) == 0 || k !in st1 || !st1[k].value.Members? then Effect(st1, false)
    else
      var m := st1[k].value.m - (set x | x in picks);
      Effect(if m == {} then st1 - {k} else st1[k := st1[k].(value := Members(m))], true)
  }

  // ---- what is written for a request -----------------------------------------------------------

  /** The options of `propagate_cmd` for a SET with options. */
  function SetFrames(cmd: Args, clk: Clock): seq<Args>
    requires |cmd| >= 4
  {
    match ParseOpts(cmd, 3, NoOpts, clk.wall)
    case None => [cmd]
    case Some(o) =>
      if o.unit.Some? && o.abs <= clk.wall then [["DEL", cmd[1]]]
      else if o.unit.Some? then [["SET", cmd[1], cmd[2], "PXAT", ToStr(o.abs)]]
      else if o.keepttl then [["SET", cmd[1], cmd[2], "KEEPTTL"]]
      else [["SET", cmd[1], cmd[2]]]
  }

  function ExpireFrames(cmd: Args, abs: Option<int>): seq<Args>
    requires |cmd| >= 2
  {
    if abs.Some? then [["PEXPIREAT", cmd[1], ToStr(abs.value)]] else [cmd]
  }

  function SetExFrames(cmd: Args, clk: Clock, mult: int): seq<Args>
    requires |cmd| == 4
  {
    var v := Str2Int(cmd[2]);
    if v.Some? then [["SET", cmd[1], cmd[3]], ["PEXPIREAT", cmd[1], ToStr(I64(clk.wall + I64(v.value * mult)))]]
    else [cmd]
  }

  function GetExAbs(opt: string, v: int, clk: Clock): int {
    if opt == "ex" then I64(clk.wall + I64(v * 1000))
    else if opt == "px" then I64(clk.wall + v)
    else if opt == "exat" then I64(v * 1000)
    else v
  }

  function GetExFrames(cmd: Args, clk: Clock): seq<Args>
    requires |cmd| >= 3
  {
    var opt := Lower(cmd[2]);
    if opt == "persist" then [["PERSIST", cmd[1]]]
    else if |cmd| >= 4 && Str2Int(cmd[3]).Some? then
      var abs := GetExAbs(opt, Str2Int(cmd[3]).value, clk);
      if abs <= clk.wall then [["DEL", cmd[1]]] else [["PEXPIREAT", cmd[1], ToStr(abs)]]
    else [cmd]
  }

  // ---- replay ------------------------------------------------------------------------------------

  /** The commands a frame can hold, through the dispatcher: the name in any case, the arity checked. */
  function Replay(st: Store, clk: Clock, cmd: Args): Store {
    if cmd == [] then st
    else
      var name := Lower(cmd[0]);
      if name == "set" && |cmd| >= 3 then DoSet(st, clk, cmd).st
      else if name == "pexpireat" && |cmd| == 3 then ExpireAt(st, clk, cmd, 1).st
      else if name == "del" && |cmd| >= 2 then Del(st, cmd[1..]).st
      else if name == "persist" && |cmd| == 2 then Persist(st, clk, cmd[1]).st
      else if name == "srem" && |cmd| >= 3 then SRem(st, clk, cmd[1], cmd[2..]).st
      else st
  }

  function ReplayAll(st: Store, clk: Clock, frames: seq<Args>): Store
    decreases |frames|
  {
    if frames == [] then st else ReplayAll(Replay(st, clk, frames[0]), clk, frames[1..])
  }

  lemma ReplayOne(st: Store, clk: Clock, f: Args)
    ensures ReplayAll(st, clk, [f]) == Replay(st, clk, f)
  {
    assert [f][1..] == [];
  }

  lemma ReplayTwo(st: Store, clk: Clock, f: Args, g: Args)
    ensures ReplayAll(st, clk, [f, g]) == Replay(Replay(st, clk, f), clk, g)
  {
    assert [f, g][0] == f && [f, g][1..] == [g];
    assert ReplayAll(st, clk, [f, g]) == ReplayAll(Replay(st, clk, f), clk, [g]);
    ReplayOne(Replay(st, clk, f), clk, g);
  }

  lemma Names()
    ensures Lower("SET") == "set" && Lower("PEXPIREAT") == "pexpireat" && Lower("DEL") == "del"
    ensures Lower("PERSIST") == "persist" && Lower("srem") == "srem"
    ensures Lower("PXAT") == "pxat" && Lower("KEEPTTL") == "keepttl"
  {
  }

  /** The requests whose effect is logged in another form. */
  datatype Request =
    | SetReq(cmd: Args)
    | SetExReq(cmd: Args, mult: int)
    | ExpireReq(cmd: Args, mult: int)
    | ExpireAtReq(cmd: Args)
    | GetExReq(cmd: Args)
    | SPopReq(cmd: Args, picks: Args)

  /** The arity the dispatcher lets through. */
  predicate WellFormed(r: Request) {
    match r
    case SetReq(cmd) => |cmd| >= 4
    case SetExReq(cmd, mult) => |cmd| == 4 && (mult == 1 || mult == 1000)
    case ExpireReq(cmd, mult) => |cmd| == 3 && (mult == 1 || mult == 1000)
    case ExpireAtReq(cmd) => |cmd| == 3
    case GetExReq(cmd) => |cmd| >= 2
    case SPopReq(cmd, _) => 2 <= |cmd| <= 3
  }

  function Exec(st: Store, clk: Clock, r: Request): Effect
    requires WellFormed(r)
  {
    match r
    case SetReq(cmd) => DoSet(st, clk, cmd)
    case SetExReq(cmd, mult) => SetEx(st, clk, cmd, mult)
    case ExpireReq(cmd, mult) => ExpireIn(st, clk, cmd, mult)
    case ExpireAtReq(cmd) => ExpireAt(st, clk, cmd, 1000)
    case GetExReq(cmd) => GetEx(st, clk, cmd)
    case SPopReq(cmd, picks) => SPop(st, clk, cmd, picks)
  }

  /** `propagate_cmd`, and the SREM that SPOP makes itself. */
  function Frames(clk: Clock, r: Request): seq<Args>
    requires WellFormed(r)
  {
    match r
    case SetReq(cmd) => SetFrames(cmd, clk)
    case SetExReq(cmd, mult) => SetExFrames(cmd, clk, mult)
    case ExpireReq(cmd, mult) =>
      var v := Str2Int(cmd[2]);
      ExpireFrames(cmd, if v.Some? then Some(I64(clk.wall + I64(v.value * mult))) else None)
    case ExpireAtReq(cmd) =>
      var v := Str2Int(cmd[2]);
      ExpireFrames(cmd, if v.Some? then Some(I64(v.value * 1000)) else None)
    case GetExReq(cmd) => if |cmd| >= 3 then GetExFrames(cmd, clk) else [cmd]
    case SPopReq(cmd, picks) => [["srem", cmd[1]] + picks]
  }

  /** When the frames do what the request did.  SETEX forgets a time to live whose product wrapped below
      zero, where the frame deletes the key.  GETEX compares the deadline with the clock, so there the sum
      must not wrap. */
  predicate NumbersFit(clk: Clock, r: Request)
    requires WellFormed(r)
  {
    match r
    case SetExReq(cmd, mult) => Str2Int(cmd[2]).Some? ==> I64(Str2Int(cmd[2]).value * mult) >= 0
    case GetExReq(cmd) => |cmd| == 4 && Str2Int(cmd[3]).Some? ==> SumFits(clk, Lower(cmd[2]), Str2Int(cmd[3]).value)
    case _ => true
  }

  predicate SumFits(clk: Clock, opt: string, v: int) {
    if opt == "ex" then InRange(clk.wall + I64(v * 1000))
    else if opt == "px" then InRange(clk.wall + v)
    else if opt == "exat" then InRange(I64(v * 1000) - clk.wall)
    else if opt == "pxat" then InRange(v - clk.wall)
    else true
  }

  // ---- the log preserves the effect ------------------------------------------------------------------

  lemma PurgeIsDead(st: Store, k: string, clk: Clock, e: Entry)
    ensures Live(Purge(st, k, clk), clk) == Live(st, clk)
    ensures Purge(st, k, clk)[k := e] == st[k := e] && Purge(st, k, clk) - {k} == st - {k}
    ensures Purge(Purge(st, k, clk), k, clk) == Purge(st, k, clk)
  {
  }

  lemma ReplayPxat(st: Store, clk: Clock, k: string, v: string, abs: int)
    requires 0 < abs <= INT64_MAX
    ensures ReplayAll(st, clk, [["SET", k, v, "PXAT", ToStr(abs)]]) ==
            SetWith(Purge(st, k, clk), clk, k, v, NoOpts.(unit := Some(PXAT), abs := abs)).st
  {
    var f := ["SET", k, v, "PXAT", ToStr(abs)];
    Names();
    PrintedIsRead(abs);
    assert f[3] == "PXAT" && f[4] == ToStr(abs);
    assert ParseOpts(f, 5, NoOpts.(unit := Some(PXAT), abs := abs), clk.wall) ==
             Some(NoOpts.(unit := Some(PXAT), abs := abs));
    ReplayOne(st, clk, f);
  }

  lemma ReplayKeepTtl(st: Store, clk: Clock, k: string, v: string)
    ensures ReplayAll(st, clk, [["SET", k, v, "KEEPTTL"]]) ==
              SetWith(Purge(st, k, clk), clk, k, v, NoOpts.(keepttl := true)).st
  {
    var f := ["SET", k, v, "KEEPTTL"];
    Names();
    assert f[3] == "KEEPTTL";
    assert ParseOpts(f, 4, NoOpts.(keepttl := true), clk.wall) == Some(NoOpts.(keepttl := true));
    ReplayOne(st, clk, f);
  }

  lemma ReplaySet(st: Store, clk: Clock, k: string, v: string)
    ensures Replay(st, clk, ["SET", k, v]) == st[k := Entry(Str(v), None)]
  {
    Names();
  }

  lemma ReplayDel(st: Store, clk: Clock, k: string)
    ensures ReplayAll(st, clk, [["DEL", k]]) == st - {k}
  {
    Names();
    var f := ["DEL", k];
    assert f[1..] == [k];
    ReplayOne(st, clk, f);
  }

  lemma ReplayPexpireat(st: Store, clk: Clock, k: string, abs: int)
    requires InRange(abs)
    ensures Replay(st, clk, ["PEXPIREAT", k, ToStr(abs)]) == Expire(st, clk, k, I64(abs - clk.wall)).st
  {
    Names();
    PrintedIsRead(abs);
  }

  lemma SetTimedPreserved(st: Store, clk: Clock, cmd: Args, o: SetOpts)
    requires Sane(clk) && |cmd| >= 4 && DoSet(st, clk, cmd).dirty && ParseOpts(cmd, 3, NoOpts, clk.wall) == Some(o)
    requires o.unit.Some?
    ensures Live(ReplayAll(st, clk, SetFrames(cmd, clk)), clk) == Live(DoSet(st, clk, cmd).st, clk)
  {
    var k, v := cmd[1], cmd[2];
    ParseOptsRange(cmd, 3, NoOpts, clk.wall);
    PurgeIsDead(st, k, clk, Entry(Str(v), None));
    if o.abs <= clk.wall {
      ReplayDel(st, clk, k);
    } else {
      ReplayPxat(st, clk, k, v, o.abs);
    }
  }

  lemma SetPreserved(st: Store, clk: Clock, cmd: Args)
    requires Sane(clk) && |cmd| >= 4 && DoSet(st, clk, cmd).dirty
    ensures Live(ReplayAll(st, clk, SetFrames(cmd, clk)), clk) == Live(DoSet(st, clk, cmd).st, clk)
  {
    var k, v, o := cmd[1], cmd[2], ParseOpts(cmd, 3, NoOpts, clk.wall).value;
    if o.unit.Some? {
      SetTimedPreserved(st, clk, cmd, o);
    } else if o.keepttl {
      PurgeIsDead(st, k, clk, Entry(Str(v), None));
      ReplayKeepTtl(st, clk, k, v);
    } else {
      PurgeIsDead(st, k, clk, Entry(Str(v), None));
      ReplayOne(st, clk, ["SET", k, v]);
      ReplaySet(st, clk, k, v);
    }
  }

  lemma ReplaySetEx(st: Store, clk: Clock, k: string, v: string, ms: int)
    requires Sane(clk) && InRange(ms)
    ensures var abs := I64(clk.wall + ms);
            ReplayAll(st, clk, [["SET", k, v], ["PEXPIREAT", k, ToStr(abs)]]) ==
            if ms <= 0 then st - {k} else st[k := Entry(Str(v), Ttl(ms, clk))]
  {
    var abs := I64(clk.wall + ms);
    var st1 := st[k := Entry(Str(v), None)];
    ReplaySet(st, clk, k, v);
    ReplayPexpireat(st1, clk, k, abs);
    ReplayTwo(st, clk, ["SET", k, v], ["PEXPIREAT", k, ToStr(abs)]);
    assert I64(abs - clk.wall) == ms;
    assert st1[k := Entry(Str(v), Ttl(ms, clk))] == st[k := Entry(Str(v), Ttl(ms, clk))] && st1 - {k} == st - {k};
  }

  /** SET in its own terms, on the live keys: when it writes, what the key then holds, and that no other
      key changes. */
  ghost predicate SetMeans(was: Store, k: string, v: string, o: SetOpts, clk: Clock, now: Store, dirty: bool) {
    var past := o.unit.Some? && o.abs <= clk.wall;
    && now - {k} == was - {k}
    && (dirty <==>
          (o.nx ==> k !in was) && (o.xx ==> k in was) && (o.get && k in was ==> was[k].value.Str?)
          && (past ==> k in was))
    && (!dirty ==> now == was)
    && (dirty && past ==> k !in now)
    && (dirty && !past ==> k in now && now[k] == Entry(Str(v), Deadline(was, k, o, clk)))
  }

  ghost function Deadline(was: Store, k: string, o: SetOpts, clk: Clock): Option<int> {
    if o.unit.Some? then Some(clk.mono + o.abs - clk.wall)
    else if o.keepttl && k in was then was[k].deadline
    else None
  }

  lemma LiveChange(st: Store, k: string, e: Entry, clk: Clock)
    ensures Live(st[k := e], clk) == if Expired(e, clk) then Live(st, clk) - {k} else Live(st, clk)[k := e]
    ensures Live(st - {k}, clk) == Live(st, clk) - {k}
  {
  }

  lemma SetWithMeans(st: Store, clk: Clock, k: string, v: string, o: SetOpts)
    requires Sane(clk) && Coherent(o) && (k in st ==> !Expired(st[k], clk))
    ensures var e := SetWith(st, clk, k, v, o); SetMeans(Live(st, clk), k, v, o, clk, Live(e.st, clk), e.dirty)
  {
    var was := Live(st, clk);
    var e := Entry(Str(v), Deadline(was, k, o, clk));
    LiveChange(st, k, e, clk);
    assert was[k := e] - {k} == was - {k};
  }

  lemma SetMeaning(st: Store, clk: Clock, cmd: Args)
    requires Sane(clk) && |cmd| >= 4 && ParseOpts(cmd, 3, NoOpts, clk.wall).Some?
    ensures var o, e := ParseOpts(cmd, 3, NoOpts, clk.wall).value, DoSet(st, clk, cmd);
            SetMeans(Live(st, clk), cmd[1], cmd[2], o, clk, Live(e.st, clk), e.dirty)
  {
    ParseOptsRange(cmd, 3, NoOpts, clk.wall);
    PurgeIsDead(st, cmd[1], clk, Entry(Str(cmd[2]), None));
    SetWithMeans(Purge(st, cmd[1], clk), clk, cmd[1], cmd[2], ParseOpts(cmd, 3, NoOpts, clk.wall).value);
  }

  /** Giving a key a time to live, in its own terms: a live key gets that deadline or is gone at once, and
      no other key changes. */
  ghost predicate ExpireMeans(was: Store, k: string, ms: int, clk: Clock, now: Store, dirty: bool) {
    && now - {k} == was - {k} && (dirty <==> k in was)
    && (k in now <==> k in was && ms > 0)
    && (k in now ==> now[k] == Entry(was[k].value, Some(clk.mono + ms)))
  }

  lemma ExpireMeaning(st: Store, clk: Clock, k: string, ms: int)
    ensures var e := Expire(st, clk, k, ms); ExpireMeans(Live(st, clk), k, ms, clk, Live(e.st, clk), e.dirty)
  {
    var st1, was := Purge(st, k, clk), Live(st, clk);
    PurgeIsDead(st, k, clk, Entry(Str(""), None));
    if k in st1 {
      var e := st1[k].(deadline := Ttl(ms, clk));
      LiveChange(st1, k, e, clk);
      assert was[k := e] - {k} == was - {k};
    }
  }

  /** The new time to live GETEX asks for, where its option, number and arity are accepted. */
  ghost function GetExAsks(cmd: Args, clk: Clock): Option<int> {
    if |cmd| == 4 && Lower(cmd[2]) != "persist" && Str2Int(cmd[3]).Some? then
      GetExTtl(Lower(cmd[2]), Str2Int(cmd[3]).value, clk)
    else None
  }

  /** GETEX on the live keys: only a live string is touched, PERSIST frees it of its deadline, and a
      deadline acts as EXPIRE does. */
  lemma GetExMeaning(st: Store, clk: Clock, cmd: Args)
    requires |cmd| >= 2
    ensures var k, was, e := cmd[1], Live(st, clk), GetEx(st, clk, cmd);
            var now, ms := Live(e.st, clk), GetExAsks(cmd, clk);
            if k !in was || !was[k].value.Str? then now == was && !e.dirty
            else if |cmd| == 3 && Lower(cmd[2]) == "persist" then
              now == was[k := Entry(was[k].value, None)] && (e.dirty <==> was[k].deadline.Some?)
            else if ms.None? then now == was && !e.dirty
            else ExpireMeans(was, k, ms.value, clk, now, e.dirty)
  {
    var k, was, st1 := cmd[1], Live(st, clk), Purge(st, cmd[1], clk);
    PurgeIsDead(st, k, clk, Entry(Str(""), None));
    if k in st1 {
      LiveChange(st1, k, st1[k].(deadline := None), clk);
      assert st1[k].deadline.None? ==> was[k := Entry(was[k].value, None)] == was;
    }
    if GetExAsks(cmd, clk).Some? { ExpireMeaning(st1, clk, k, GetExAsks(cmd, clk).value); }
  }

  ghost predicate SPopMeans(was: Store, k: string, picks: Args, now: Store, dirty: bool) {
    && now - {k} == was - {k} && (dirty <==> picks != [])
    && if picks == [] then now == was
       else k in was && was[k].value.Members? && Popped(was[k], picks, k in now, if k in now then now[k] else was[k])
  }

  ghost predicate Popped(e: Entry, picks: Args, stays: bool, e': Entry)
    requires e.value.Members?
  {
    var left := e.value.m - set x | x in picks;
    |left| == |e.value.m| - |picks| && (stays <==> left != {}) && (stays ==> e' == e.(value := Members(left)))
  }

  /** SPOP on the live keys: one member or as many as are asked for, if there are so many, and exactly these
      leave the set, and an emptied set goes. */
  lemma SPopMeaning(st: Store, clk: Clock, cmd: Args, picks: Args)
    requires 2 <= |cmd| <= 3 && SPopPicks(st, clk, cmd, picks)
    ensures var k, was := cmd[1], Live(st, clk);
            var size := if k in was && was[k].value.Members? then |was[k].value.m| else 0;
            var asked := if |cmd| == 2 then Some(1) else Str2Int(cmd[2]);
            |picks| == if asked.Some? && asked.value > 0 then (if asked.value < size then asked.value else size) else 0
    ensures var e := SPop(st, clk, cmd, picks); SPopMeans(Live(st, clk), cmd[1], picks, Live(e.st, clk), e.dirty)
  {
    var k, was, st1 := cmd[1], Live(st, clk), Purge(st, cmd[1], clk);
    PurgeIsDead(st, k, clk, Entry(Str(""), None));
    if picks != [] {
      var e := st1[k].(value := Members(st1[k].value.m - set x | x in picks));
      LiveChange(st1, k, e, clk);
      DistinctGone(st1[k].value.m, picks);
      assert was[k := e] - {k} == was - {k};
    }
  }

  lemma {:induction false} DistinctGone(m: set<string>, picks: Args)
    requires (forall x :: x in picks ==> x in m) && forall i, j :: 0 <= i < j < |picks| ==> picks[i] != picks[j]
    ensures |m - set x | x in picks| == |m| - |picks|
  {
    if picks == [] {
      assert m - (set x | x in picks) == m;
    } else {
      var p := picks[0];
      DistinctGone(m - {p}, picks[1..]);
      assert m - (set x | x in picks) == (m - {p}) - set x | x in picks[1..];
    }
  }

  lemma SetExAt(st: Store, clk: Clock, k: string, v: string, ms: int)
    requires Sane(clk) && InRange(ms)
    ensures var frames := [["SET", k, v], ["PEXPIREAT", k, ToStr(I64(clk.wall + ms))]];
            Live(ReplayAll(st, clk, frames), clk) == Live(st[k := Entry(Str(v), Ttl(ms, clk))], clk) <==> ms >= 0
  {
    ReplaySetEx(st, clk, k, v, ms);
    LiveChange(st, k, Entry(Str(v), Ttl(ms, clk)), clk);
  }

  /** SETEX: the log agrees exactly when the time to live did not wrap below zero. */
  lemma SetExExact(st: Store, clk: Clock, cmd: Args, mult: int)
    requires Sane(clk) && |cmd| == 4 && (mult == 1 || mult == 1000) && SetEx(st, clk, cmd, mult).dirty
    ensures Live(ReplayAll(st, clk, SetExFrames(cmd, clk, mult)), clk) == Live(SetEx(st, clk, cmd, mult).st, clk)
            <==> NumbersFit(clk, SetExReq(cmd, mult))
  {
    SetExAt(st, clk, cmd[1], cmd[3], I64(Str2Int(cmd[2]).value * mult));
  }

  lemma ExpirePreserved(st: Store, clk: Clock, cmd: Args, mult: int)
    requires Sane(clk) && |cmd| == 3 && ExpireIn(st, clk, cmd, mult).dirty
    ensures ReplayAll(st, clk, ExpireFrames(cmd, Some(I64(clk.wall + I64(Str2Int(cmd[2]).value * mult))))) ==
              ExpireIn(st, clk, cmd, mult).st
  {
    var k, ms := cmd[1], I64(Str2Int(cmd[2]).value * mult);
    var abs := I64(clk.wall + ms);
    ReplayPexpireat(st, clk, k, abs);
    ReplayOne(st, clk, ["PEXPIREAT", k, ToStr(abs)]);
    assert I64(abs - clk.wall) == ms;
  }

  lemma I64InRange(x: int)
    ensures InRange(I64(x))
  {
  }

  lemma ExpireAtPreserved(st: Store, clk: Clock, cmd: Args)
    requires |cmd| == 3 && ExpireAt(st, clk, cmd, 1000).dirty
    ensures ReplayAll(st, clk, ExpireFrames(cmd, Some(I64(Str2Int(cmd[2]).value * 1000)))) ==
              ExpireAt(st, clk, cmd, 1000).st
  {
    hide I64, Str2Int, Expire, Lower, Replay;
    var k, abs := cmd[1], I64(Str2Int(cmd[2]).value * 1000);
    I64InRange(Str2Int(cmd[2]).value * 1000);
    ReplayPexpireat(st, clk, k, abs);
    ReplayOne(st, clk, ["PEXPIREAT", k, ToStr(abs)]);
  }

  lemma SPopPreserved(st: Store, clk: Clock, cmd: Args, picks: Args)
    requires 2 <= |cmd| <= 3 && SPopPicks(st, clk, cmd, picks) && SPop(st, clk, cmd, picks).dirty
    ensures ReplayAll(st, clk, [["srem", cmd[1]] + picks]) == SPop(st, clk, cmd, picks).st
  {
    var f := ["srem", cmd[1]] + picks;
    Names();
    assert f[0] == "srem" && f[1] == cmd[1] && f[2..] == picks && |picks| > 0;
    ReplayOne(st, clk, f);
  }

  lemma GetExPersistPreserved(st: Store, clk: Clock, cmd: Args)
    requires |cmd| == 3 && GetEx(st, clk, cmd).dirty
    ensures ReplayAll(st, clk, GetExFrames(cmd, clk)) == GetEx(st, clk, cmd).st
  {
    var k := cmd[1];
    Names();
    PurgeIsDead(st, k, clk, Entry(Str(""), None));
    ReplayOne(st, clk, ["PERSIST", k]);
  }

  /** GETEX with a deadline: the log agrees exactly when the sum with the clock does not wrap. */
  lemma GetExExact(st: Store, clk: Clock, cmd: Args)
    requires Sane(clk) && |cmd| == 4 && GetEx(st, clk, cmd).dirty
    ensures Live(ReplayAll(st, clk, GetExFrames(cmd, clk)), clk) == Live(GetEx(st, clk, cmd).st, clk)
            <==> SumFits(clk, Lower(cmd[2]), Str2Int(cmd[3]).value)
  {
    var k, opt, v := cmd[1], Lower(cmd[2]), Str2Int(cmd[3]).value;
    var st1, ms, abs := Purge(st, k, clk), GetExTtl(opt, v, clk).value, GetExAbs(opt, v, clk);
    PurgeIsDead(st, k, clk, Entry(Str(""), None));
    assert GetEx(st, clk, cmd) == Expire(st1, clk, k, ms);
    if abs <= clk.wall {
      ReplayDel(st, clk, k);
      assert GetExFrames(cmd, clk) == [["DEL", k]];
      if ms > 0 {
        assert k in Live(GetEx(st, clk, cmd).st, clk);
        assert k !in Live(st - {k}, clk);
      }
    } else {
      ReplayPexpireat(st, clk, k, abs);
      ReplayOne(st, clk, ["PEXPIREAT", k, ToStr(abs)]);
      assert GetExFrames(cmd, clk) == [["PEXPIREAT", k, ToStr(abs)]];
      assert I64(abs - clk.wall) == ms;
    }
  }

  /** A request that does not count as a write changes nothing a client can see. */
  lemma NotDirtyNoChange(st: Store, clk: Clock, r: Request)
    requires WellFormed(r) && !Exec(st, clk, r).dirty
    ensures Live(Exec(st, clk, r).st, clk) == Live(st, clk)
  {
    PurgeIsDead(st, r.cmd[1], clk, Entry(Str(""), None));
  }

  /** The frames for the request do what the request did. */
  ghost predicate Agrees(st: Store, clk: Clock, r: Request)
    requires WellFormed(r)
  {
    Live(ReplayAll(st, clk, Frames(clk, r)), clk) == Live(Exec(st, clk, r).st, clk)
  }

  lemma ExpireAgrees(st: Store, clk: Clock, r: Request)
    requires WellFormed(r) && Sane(clk) && Exec(st, clk, r).dirty && (r.ExpireReq? || r.ExpireAtReq?)
    ensures Agrees(st, clk, r)
  {
    if r.ExpireReq? { ExpirePreserved(st, clk, r.cmd, r.mult); } else { ExpireAtPreserved(st, clk, r.cmd); }
  }

  lemma WriteAgrees(st: Store, clk: Clock, r: Request)
    requires WellFormed(r) && Sane(clk) && Exec(st, clk, r).dirty && !r.GetExReq?
    requires r.SPopReq? ==> SPopPicks(st, clk, r.cmd, r.picks)
    ensures Agrees(st, clk, r) <==> NumbersFit(clk, r)
  {
    match r
    case SetReq(cmd) => SetPreserved(st, clk, cmd);
    case SetExReq(cmd, mult) => SetExExact(st, clk, cmd, mult);
    case SPopReq(cmd, picks) => SPopPreserved(st, clk, cmd, picks);
    case _ => ExpireAgrees(st, clk, r);
  }

  lemma GetExAgrees(st: Store, clk: Clock, cmd: Args)
    requires |cmd| >= 2 && Sane(clk) && GetEx(st, clk, cmd).dirty
    ensures Agrees(st, clk, GetExReq(cmd)) <==> NumbersFit(clk, GetExReq(cmd))
  {
    if |cmd| == 3 { GetExPersistPreserved(st, clk, cmd); } else { GetExExact(st, clk, cmd); }
  }

  /** What reaches the log, and so the replicas: frames exactly when the request counted as a write. */
  function Logged(st: Store, clk: Clock, r: Request): seq<Args>
    requires WellFormed(r)
  {
    if Exec(st, clk, r).dirty then Frames(clk, r) else []
  }

  /** Running what was logged for a request, at the same clock reading, leaves the same live keys, values
      and deadlines as the request itself, except for the SETEX and GETEX whose numbers wrap. */
  lemma FramesPreserve(st: Store, clk: Clock, r: Request)
    requires WellFormed(r) && Sane(clk) && (r.SPopReq? ==> SPopPicks(st, clk, r.cmd, r.picks))
    ensures Live(ReplayAll(st, clk, Logged(st, clk, r)), clk) == Live(Exec(st, clk, r).st, clk)
            <==> (Exec(st, clk, r).dirty ==> NumbersFit(clk, r))
  {
    if !Exec(st, clk, r).dirty {
      NotDirtyNoChange(st, clk, r);
    } else if r.GetExReq? {
      GetExAgrees(st, clk, r.cmd);
    } else {
      WriteAgrees(st, clk, r);
    }
  }

  /** A deadline so far away that its sum with the clock wraps, such as GETEX k PX 9223372036854775807:
      the key lives on, and what is logged deletes it. */
  lemma GetExWraps(st: Store, clk: Clock, k: string, arg: string)
    requires Sane(clk) && k in st && !Expired(st[k], clk) && st[k].value.Str?
    requires Str2Int(arg).Some? && Str2Int(arg).value > INT64_MAX - clk.wall
    ensures var r := GetExReq(["getex", k, "px", arg]);
            && Frames(clk, r) == [["DEL", k]] && k in Live(Exec(st, clk, r).st, clk) && !Agrees(st, clk, r)
  {
    var cmd := ["getex", k, "px", arg];
    assert cmd[1] == k && cmd[2] == "px" && cmd[3] == arg && Lower(cmd[2]) == "px";
    assert GetEx(st, clk, cmd).dirty;
    GetExAgrees(st, clk, cmd);
  }

  /** SETEX k 9223372036854775807 v: the product with 1000 wraps to -1000, so the key is kept for ever,
      and what is logged deletes it. */
  lemma SetExWraps(st: Store, clk: Clock, k: string, arg: string, v: string)
    requires Sane(clk) && Str2Int(arg) == Some(INT64_MAX)
    ensures var r := SetExReq(["setex", k, arg, v], 1000);
            && k in Exec(st, clk, r).st && Exec(st, clk, r).st[k].deadline.None? && !Agrees(st, clk, r)
  {
    var cmd := ["setex", k, arg, v];
    assert cmd[2] == arg && I64(INT64_MAX * 1000) == -1000;
    SetExExact(st, clk, cmd, 1000);
  }
}
