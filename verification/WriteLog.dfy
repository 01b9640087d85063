/** The write log as bytes: what `propagate_cmd` encodes (src/commands/commands.cpp) and a replica or
    `aof_load` reads back. */
module WriteLog {
  import opened Common
  import opened Resp
  import opened Requests
  import opened Effects

  /** The commands read from the bytes that were written for these. */
  function ReadBack(frames: seq<Args>): seq<Args> {
    Read(Written(frames)).cmds
  }

  lemma ReadBackWhole(frames: seq<Args>)
    requires forall f :: f in frames ==> Readable(f)
    ensures ReadBack(frames) == frames
  {
    ReadWritten(frames, "");
    assert Written(frames) + "" == Written(frames) && frames + [] == frames;
  }

  lemma ReadBackNone(f: Args)
    requires !Readable(f) && !WrapsAround(f)
    ensures ReadBack([f]) == []
  {
    TooLarge(f, "");
    assert Written([f]) == Encode(f) + "" by { assert [f][1..] == []; }
  }

  // ---- frames of a few arguments are always read back ------------------------------------------------

  lemma {:induction false} DecimalLength(n: nat, k: nat, bound: nat)
    requires k >= 1 && n < bound && bound <= Ten(k)
    ensures |Decimal(n)| <= k
    decreases k
  {
    if n >= 10 { DecimalLength(n / 10, k - 1, Ten(k - 1)); }
  }

  function Ten(k: nat): nat { if k == 0 then 1 else 10 * Ten(k - 1) }

  lemma ArgLength(a: string)
    requires |a| <= MAX_MSG
    ensures |EncodeArg(a)| <= MAX_MSG + 13
  {
    assert Ten(8) == 100_000_000;
    DecimalLength(|a|, 8, Ten(8));
  }

  lemma {:induction false} ArgsLength(args: Args)
    requires ShortArgs(args)
    ensures |EncodeArgs(args)| <= |args| * (MAX_MSG + 13)
  {
    if args != [] {
      assert args[0] in args && forall a :: a in args[1..] ==> a in args;
      ArgLength(args[0]);
      ArgsLength(args[1..]);
    }
  }

  lemma FewReadable(args: Args)
    requires 1 <= |args| <= 5 && ShortArgs(args)
    ensures Readable(args)
  {
    ArgsLength(args);
    assert |Decimal(|args|)| == 1;
    assert forall i :: 0 <= i < |args| ==> args[i] in args;
  }

  lemma NumberShort(v: int)
    requires InRange(v)
    ensures |ToStr(v)| <= MAX_MSG
  {
    assert Ten(8) == 100_000_000 && Ten(14) == 100_000_000_000_000;
    assert Ten(20) == 100_000_000_000_000_000_000;
    DecimalLength(if v < 0 then -v else v, 20, Ten(20));
  }

  lemma SetFramesReadable(clk: Clock, cmd: Args)
    requires Sane(clk) && |cmd| >= 4 && ShortArgs(cmd) && ParseOpts(cmd, 3, NoOpts, clk.wall).Some?
    ensures forall i :: 0 <= i < |SetFrames(cmd, clk)| ==> Readable(SetFrames(cmd, clk)[i])
  {
    ParseOptsRange(cmd, 3, NoOpts, clk.wall);
    var o := ParseOpts(cmd, 3, NoOpts, clk.wall).value;
    assert cmd[1] in cmd && cmd[2] in cmd;
    if o.unit.Some? {
      NumberShort(o.abs);
      FewReadable(["DEL", cmd[1]]);
      FewReadable(["SET", cmd[1], cmd[2], "PXAT", ToStr(o.abs)]);
    } else if o.keepttl {
      FewReadable(["SET", cmd[1], cmd[2], "KEEPTTL"]);
    } else {
      FewReadable(["SET", cmd[1], cmd[2]]);
    }
  }

  lemma AtReadable(k: string, abs: int)
    requires |k| <= MAX_MSG && InRange(abs)
    ensures Readable(["PEXPIREAT", k, ToStr(abs)])
  {
    NumberShort(abs);
    FewReadable(["PEXPIREAT", k, ToStr(abs)]);
  }

  lemma SetExReadable(clk: Clock, cmd: Args, mult: int)
    requires |cmd| == 4 && ShortArgs(cmd) && Str2Int(cmd[2]).Some?
    ensures forall i :: 0 <= i < |SetExFrames(cmd, clk, mult)| ==> Readable(SetExFrames(cmd, clk, mult)[i])
  {
    assert cmd[1] in cmd && cmd[3] in cmd;
    FewReadable(["SET", cmd[1], cmd[3]]);
    AtReadable(cmd[1], I64(clk.wall + I64(Str2Int(cmd[2]).value * mult)));
  }

  lemma GetExReadable(clk: Clock, cmd: Args)
    requires |cmd| >= 3 && ShortArgs(cmd) && (Lower(cmd[2]) == "persist" || (|cmd| == 4 && Str2Int(cmd[3]).Some?))
    ensures forall i :: 0 <= i < |GetExFrames(cmd, clk)| ==> Readable(GetExFrames(cmd, clk)[i])
  {
    assert cmd[1] in cmd;
    FewReadable(["PERSIST", cmd[1]]);
    FewReadable(["DEL", cmd[1]]);
    if |cmd| == 4 && Str2Int(cmd[3]).Some? {
      AtReadable(cmd[1], GetExAbs(Lower(cmd[2]), Str2Int(cmd[3]).value, clk));
    }
  }

  lemma ExpireReadable(cmd: Args, abs: int)
    requires |cmd| >= 2 && ShortArgs(cmd) && InRange(abs)
    ensures forall i :: 0 <= i < |ExpireFrames(cmd, Some(abs))| ==> Readable(ExpireFrames(cmd, Some(abs))[i])
  {
    assert cmd[1] in cmd;
    AtReadable(cmd[1], abs);
  }

  /** Whatever a request that counts as a write has logged, other than SPOP, can be read back. */
  lemma LoggedReadable(st: Store, clk: Clock, r: Request)
    requires WellFormed(r) && Sane(clk) && ShortArgs(r.cmd) && Exec(st, clk, r).dirty && !r.SPopReq?
    ensures forall i :: 0 <= i < |Effects.Frames(clk, r)| ==> Readable(Effects.Frames(clk, r)[i])
  {
    match r
    case SetReq(cmd) => SetFramesReadable(clk, cmd);
    case SetExReq(cmd, mult) => SetExReadable(clk, cmd, mult);
    case ExpireReq(cmd, mult) => ExpireReadable(cmd, I64(clk.wall + I64(Str2Int(cmd[2]).value * mult)));
    case ExpireAtReq(cmd) => ExpireReadable(cmd, I64(Str2Int(cmd[2]).value * 1000));
    case GetExReq(cmd) => GetExReadable(clk, cmd);
  }

  // ---- the log preserves the effect -----------------------------------------------------------------------

  function PopFrame(cmd: Args, picks: Args): Args
    requires |cmd| >= 2
  {
    ["srem", cmd[1]] + picks
  }

  /** When the log of a request has its effect: its numbers do not wrap, and the one frame that SPOP makes
      for all the members it took can be read back. */
  predicate LogExact(clk: Clock, r: Request)
    requires WellFormed(r)
  {
    NumbersFit(clk, r) && (r.SPopReq? ==> Readable(PopFrame(r.cmd, r.picks)))
  }

  /** Reading back what SPOP logged removes the members it took if and only if the frame is readable. */
  lemma SPopExact(st: Store, clk: Clock, cmd: Args, picks: Args)
    requires 2 <= |cmd| <= 3 && SPopPicks(st, clk, cmd, picks) && SPop(st, clk, cmd, picks).dirty
    ensures var f := PopFrame(cmd, picks);
            var same := Live(ReplayAll(st, clk, ReadBack([f])), clk) == Live(SPop(st, clk, cmd, picks).st, clk);
            (Readable(f) ==> same) && (!WrapsAround(f) ==> (same <==> Readable(f)))
  {
    var f := PopFrame(cmd, picks);
    if Readable(f) {
      ReadBackWhole([f]);
      SPopPreserved(st, clk, cmd, picks);
    } else if !WrapsAround(f) {
      ReadBackNone(f);
      SPopMeaning(st, clk, cmd, picks);
    }
  }

  /** Running what is read back from the bytes that were logged for a request, at the same clock reading,
      leaves the same live keys, values and deadlines as the request itself. */
  ghost predicate SameWhenReadBack(st: Store, clk: Clock, r: Request)
    requires WellFormed(r) && Sane(clk)
  {
    Live(ReplayAll(st, clk, ReadBack(Logged(st, clk, r))), clk) == Live(Exec(st, clk, r).st, clk)
  }

  /** The log says what was done exactly when `LogExact`.  Only of a frame that wraps around altogether the
      second half is not said. */
  lemma EffectPreserved(st: Store, clk: Clock, r: Request)
    requires WellFormed(r) && Sane(clk) && ShortArgs(r.cmd) && (r.SPopReq? ==> SPopPicks(st, clk, r.cmd, r.picks))
    ensures (Exec(st, clk, r).dirty ==> LogExact(clk, r)) ==> SameWhenReadBack(st, clk, r)
    ensures (r.SPopReq? ==> !WrapsAround(PopFrame(r.cmd, r.picks))) ==>
              (SameWhenReadBack(st, clk, r) <==> (Exec(st, clk, r).dirty ==> LogExact(clk, r)))
  {
    if !Exec(st, clk, r).dirty {
      ReadBackWhole([]);
      FramesPreserve(st, clk, r);
    } else if r.SPopReq? {
      SPopExact(st, clk, r.cmd, r.picks);
    } else {
      LoggedReadable(st, clk, r);
      ReadBackWhole(Effects.Frames(clk, r));
      FramesPreserve(st, clk, r);
    }
  }

  /** The parser reads the request from these bytes of a connection. */
  predicate Arrived(bytes: string, r: Request) {
    Parse(bytes).Frame? && Parse(bytes).cmd == r.cmd
  }

  /** From the bytes a client sent to the bytes that are logged and back. */
  lemma ReceivedPreserved(bytes: string, st: Store, clk: Clock, r: Request)
    requires Arrived(bytes, r) && WellFormed(r) && Sane(clk) && (r.SPopReq? ==> SPopPicks(st, clk, r.cmd, r.picks))
    ensures (Exec(st, clk, r).dirty ==> LogExact(clk, r)) ==> SameWhenReadBack(st, clk, r)
    ensures (r.SPopReq? ==> !WrapsAround(PopFrame(r.cmd, r.picks))) ==>
              (SameWhenReadBack(st, clk, r) <==> (Exec(st, clk, r).dirty ==> LogExact(clk, r)))
  {
    ParsedShort(bytes);
    EffectPreserved(st, clk, r);
  }

  /** An SPOP that takes more members than a frame may have arguments: it runs, and what it logs cannot be
      read.  Loading the log stops there, whatever was written after. */
  lemma SPopTooMany(st: Store, clk: Clock, cmd: Args, picks: Args, fs: seq<string>, more: string)
    requires 2 <= |cmd| <= 3 && SPopPicks(st, clk, cmd, picks) && |picks| > MAX_ARGS - 2
    ensures Logged(st, clk, SPopReq(cmd, picks)) == [PopFrame(cmd, picks)] && NumbersFit(clk, SPopReq(cmd, picks))
    ensures Next(Encode(PopFrame(cmd, picks)) + more) == -1
    ensures Requests.Frames(fs) ==>
              var log := Concat(fs) + (Encode(PopFrame(cmd, picks)) + more);
              Read(log).cmds == Commands(fs) && Good(log) == |Concat(fs)|
  {
    var f := PopFrame(cmd, picks);
    assert |f| > MAX_ARGS;
    WriterExact(f, more);
    if Requests.Frames(fs) { LoadStops(fs, f, more); }
  }
}
