/** The handlers that change the keyspace in place, and the dispatcher's decision to log. */
module Keyspace {
  import opened Common
  import opened Resp
  import opened Effects

  class Db {
    var st: Store
    var writes: nat      // g_writes_since_save

    constructor ()
      ensures st == map[] && writes == 0
    {
      st, writes := map[], 0;
    }

    /** The command did this to the keyspace and to the write counter. */
    twostate predicate Did(e: Effect)
      reads this
    {
      st == e.st && (if e.dirty then writes > old(writes) else writes == old(writes))
    }

    /** A lookup drops the key when its time is over. */
    method Lookup(k: string, clk: Clock) returns (found: bool)
      modifies this`st
      ensures st == Purge(old(st), k, clk) && found == (k in st)
    {
      if k in st && Expired(st[k], clk) { st := st - {k}; }
      found := k in st;
    }

    /** `do_set` */
    method Set(cmd: Args, clk: Clock)
      requires |cmd| >= 3
      modifies this
      ensures Did(DoSet(old(st), clk, cmd))
    {
      var k, v := cmd[1], cmd[2];
      if |cmd| == 3 {
        st, writes := st[k := Entry(Str(v), None)], writes + 1;
        return;
      }
      var opts := ParseSetOpts(cmd, clk.wall);
      if opts.None? { return; }
      var o := opts.value;
      var had := Lookup(k, clk);
      if o.get && had && !st[k].value.Str? { return; }
      if (o.nx && had) || (o.xx && !had) { return; }
      var keep := -1;
      if o.keepttl && had && st[k].deadline.Some? { keep := st[k].deadline.value - clk.mono; }
      var ttl := -1;
      if o.unit.Some? {
        ttl := o.abs - clk.wall;
        if ttl <= 0 {
          if had { st, writes := st - {k}, writes + 1; }
          return;
        }
      } else if o.keepttl {
        ttl := keep;
      }
      st, writes := st[k := Entry(Str(v), Ttl(ttl, clk))], writes + 1;
    }

    /** `setex_generic` */
    method SetEx(cmd: Args, mult: int, clk: Clock)
      requires |cmd| == 4
      modifies this
      ensures Did(Effects.SetEx(old(st), clk, cmd, mult))
    {
      var ttl := ParseInt(cmd[2]);
      if ttl.None? || ttl.value <= 0 { return; }
      st, writes := st[cmd[1] := Entry(Str(cmd[3]), Ttl(I64(ttl.value * mult), clk))], writes + 1;
    }

    /** The common end of `expire_generic`, `expireat_generic` and `do_getex`. */
    method Expire(k: string, ms: int, clk: Clock)
      modifies this
      ensures Did(Effects.Expire(old(st), clk, k, ms))
    {
      var found := Lookup(k, clk);
      if !found { return; }
      if ms <= 0 {
        st, writes := st - {k}, writes + 1;
      } else {
        st, writes := st[k := st[k].(deadline := Ttl(ms, clk))], writes + 1;
      }
    }

    /** `do_persist` */
    method Persist(k: string, clk: Clock)
      modifies this
      ensures Did(Effects.Persist(old(st), clk, k))
    {
      var found := Lookup(k, clk);
      if found && st[k].deadline.Some? {
        st, writes := st[k := st[k].(deadline := None)], writes + 1;
      }
    }

    /** `do_getex` */
    method GetEx(cmd: Args, clk: Clock)
      requires |cmd| >= 2
      modifies this
      ensures Did(Effects.GetEx(old(st), clk, cmd))
    {
      var k := cmd[1];
      var found := Lookup(k, clk);
      if !found || !st[k].value.Str? || |cmd| == 2 { return; }
      var opt := Lower(cmd[2]);
      if opt == "persist" {
        if |cmd| == 3 { Persist(k, clk); }
        return;
      }
      if |cmd| != 4 { return; }
      var v := ParseInt(cmd[3]);
      if v.None? { return; }
      var ms := GetExTtl(opt, v.value, clk);
      if ms.Some? { Expire(k, ms.value, clk); }
    }

    /** `do_del` */
    method Del(ks: Args)
      modifies this
      ensures Did(Effects.Del(old(st), ks))
    {
      var i := 0;
      while i < |ks|
        invariant i <= |ks| && st == old(st) - (set k | k in ks[..i])
        invariant if exists k :: k in ks[..i] && k in old(st) then writes > old(writes) else writes == old(writes)
      {
        assert ks[..i + 1] == ks[..i] + [ks[i]];
        if ks[i] in st { st, writes := st - {ks[i]}, writes + 1; }
        i := i + 1;
      }
      assert ks[..i] == ks;
    }

    /** `do_srem` */
    method SRem(k: string, gone: Args, clk: Clock)
      modifies this
      ensures Did(Effects.SRem(old(st), clk, k, gone))
    {
      var found := Lookup(k, clk);
      if !found || !st[k].value.Members? { return; }
      ghost var m0 := st[k].value.m;
      var m, removed, i := st[k].value.m, 0, 0;
      while i < |gone|
        invariant i <= |gone| && m == m0 - (set x | x in gone[..i]) && (removed > 0 <==> m != m0) && removed >= 0
      {
        assert gone[..i + 1] == gone[..i] + [gone[i]];
        if gone[i] in m { m, removed := m - {gone[i]}, removed + 1; }
        i := i + 1;
      }
      assert gone[..i] == gone;
      st := if m == {} then st - {k} else st[k := st[k].(value := Members(m))];
      if removed > 0 { writes := writes + 1; }
    }

    /** `do_spop`: members are taken one by one at random. */
    method SPop(cmd: Args, clk: Clock) returns (picks: Args)
      requires 2 <= |cmd| <= 3
      modifies this
      ensures Did(Effects.SPop(old(st), clk, cmd, picks)) && SPopPicks(old(st), clk, cmd, picks)
    {
      var k := cmd[1];
      picks := [];
      var found := Lookup(k, clk);
      if !found || !st[k].value.Members? || st[k].value.m == {} { return; }
      var m, n := st[k].value.m, 1;
      if |cmd| == 3 {
        var count := ParseInt(cmd[2]);
        if count.None? || count.value <= 0 { return; }
        n := if count.value < |m| then count.value else |m|;
      }
      picks := Pick(m, n);
      m := m - set x | x in picks;
      st := if m == {} then st - {k} else st[k := st[k].(value := Members(m))];
      writes := writes + 1;
    }
  
    /** `do_request` around the handler: frames are written when the write counter moved. */
    method Run(r: Request, clk: Clock) returns (ran: Request, frames: seq<Args>)
      requires WellFormed(r)
      modifies this
      ensures WellFormed(ran) && ran == (if r.SPopReq? && ran.SPopReq? then r.(picks := ran.picks) else r)
      ensures ran.SPopReq? ==> SPopPicks(old(st), clk, ran.cmd, ran.picks)
      ensures Did(Exec(old(st), clk, ran)) && frames == Logged(old(st), clk, ran)
    {
      var before := writes;
      ran := r;
      match r {
        case SetReq(cmd) => Set(cmd, clk);
        case SetExReq(cmd, mult) => SetEx(cmd, mult, clk);
        case ExpireReq(cmd, mult) =>
          var ttl := ParseInt(cmd[2]);
          if ttl.Some? { Expire(cmd[1], I64(ttl.value * mult), clk); }
        case ExpireAtReq(cmd) =>
          var at := ParseInt(cmd[2]);
          if at.Some? { Expire(cmd[1], I64(I64(at.value * 1000) - clk.wall), clk); }
        case GetExReq(cmd) => GetEx(cmd, clk);
        case SPopReq(cmd, _) =>
          var picks := SPop(cmd, clk);
          ran := SPopReq(cmd, picks);
      }
      frames := if writes != before then Frames(clk, ran) else [];
    }
  }

  /** n different members, each drawn at random from those still there. */
  method Pick(m0: set<string>, n: nat) returns (picks: Args)
    requires n <= |m0|
    ensures |picks| == n && (forall x :: x in picks ==> x in m0)
    ensures forall i, j :: 0 <= i < j < |picks| ==> picks[i] != picks[j]
  {
    picks := [];
    var m := m0;
    while |picks| < n
      invariant |picks| <= n && m == m0 - (set x | x in picks) && |m| == |m0| - |picks|
      invariant forall x :: x in picks ==> x in m0
      invariant forall i, j :: 0 <= i < j < |picks| ==> picks[i] != picks[j]
    {
      var x :| x in m;
      picks, m := picks + [x], m - {x};
    }
  }
}
