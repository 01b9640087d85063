/** WATCH, MULTI and EXEC (src/commands/commands.cpp): the registry of watched keys and the flag that a
    change sets. */
module Watch {
  import opened Common

  type Key = string

  /** A queued command, as far as watches are concerned: the keys it names, and whether it turns out to
      change data (a flush names none). */
  datatype Cmd = Write(keys: seq<Key>, changes: bool) | Flush

  datatype Conn = Conn(inMulti: bool, multiDirty: bool, watchDirty: bool, watched: set<Key>, queue: seq<Cmd>)

  type Watchers = map<Key, set<ConnId>>
  type Conns = map<ConnId, Conn>

  /** What happened to keys: one was written or evicted, or all were flushed. */
  datatype Event = Touched(key: Key) | TouchedAll

  predicate Hits(e: Event, k: Key) { e.TouchedAll? || e.key == k }

  /** For each watched key, how long the log was when the watch was placed. */
  type Marks = map<Key, nat>

  /** Since its watch was placed, the key was hit. */
  ghost predicate HitSince(k: Key, mark: nat, log: seq<Event>) {
    exists i :: mark <= i < |log| && Hits(log[i], k)
  }

  ghost predicate AnyHit(w: set<Key>, marks: Marks, log: seq<Event>) {
    exists k :: k in w && k in marks && HitSince(k, marks[k], log)
  }

  /** The flag of a connection says exactly whether one of its watched keys was hit. */
  ghost predicate FlagOk(k: Conn, marks: Marks, log: seq<Event>) {
    && (forall x :: x in k.watched ==> x in marks && marks[x] <= |log|)
    && (k.watchDirty <==> AnyHit(k.watched, marks, log))
  }

  /** The registry from keys to connections mirrors the one from connections to keys. */
  ghost predicate Mirror(watchers: Watchers, conns: Conns) {
    && (forall c, k :: c in conns && k in conns[c].watched ==> k in watchers && c in watchers[k])
    && (forall c, k :: k in watchers && c in watchers[k] ==> c in conns && k in conns[c].watched)
    && (forall k :: k in watchers ==> watchers[k] != {})
  }

  ghost predicate FlagsOk(conns: Conns, marks: map<ConnId, Marks>, log: seq<Event>) {
    forall c :: c in conns ==> c in marks && FlagOk(conns[c], marks[c], log)
  }

  lemma HitMore(k: Key, mark: nat, log: seq<Event>, e: Event)
    requires mark <= |log|
    ensures HitSince(k, mark, log + [e]) <==> HitSince(k, mark, log) || Hits(e, k)
  {
    var log' := log + [e];
    if HitSince(k, mark, log) {
      var i :| mark <= i < |log| && Hits(log[i], k);
      assert Hits(log'[i], k);
    }
    if Hits(e, k) { assert Hits(log'[|log|], k); }
    if HitSince(k, mark, log') {
      var i :| mark <= i < |log'| && Hits(log'[i], k);
      if i < |log| { assert Hits(log[i], k); }
    }
  }

  lemma AnyHitMore(w: set<Key>, marks: Marks, log: seq<Event>, e: Event)
    requires forall x :: x in w ==> x in marks && marks[x] <= |log|
    ensures AnyHit(w, marks, log + [e]) <==> AnyHit(w, marks, log) || exists k :: k in w && Hits(e, k)
  {
    forall x | x in w ensures HitSince(x, marks[x], log + [e]) <==> HitSince(x, marks[x], log) || Hits(e, x) {
      HitMore(x, marks[x], log, e);
    }
    if k :| k in w && Hits(e, k) { assert HitSince(k, marks[k], log + [e]); }
    if AnyHit(w, marks, log) {
      var k :| k in w && k in marks && HitSince(k, marks[k], log);
      assert HitSince(k, marks[k], log + [e]);
    }
  }

  /** Marking exactly the watchers of a hit key keeps every flag right. */
  ghost function Marked(conns: Conns, who: set<ConnId>): Conns {
    map c | c in conns :: if c in who then conns[c].(watchDirty := true) else conns[c]
  }

  ghost function WatchersOf(conns: Conns, e: Event): set<ConnId> {
    set c, k | c in conns && k in conns[c].watched && Hits(e, k) :: c
  }

  lemma TouchKeeps(conns: Conns, marks: map<ConnId, Marks>, log: seq<Event>, e: Event)
    requires FlagsOk(conns, marks, log)
    ensures FlagsOk(Marked(conns, WatchersOf(conns, e)), marks, log + [e])
  {
    forall c | c in conns
      ensures FlagOk(Marked(conns, WatchersOf(conns, e))[c], marks[c], log + [e])
    {
      assert FlagOk(conns[c], marks[c], log);
      AnyHitMore(conns[c].watched, marks[c], log, e);
    }
  }

  // ---- the two registries --------------------------------------------------------------------------

  function SetOf(w: Watchers, k: Key): set<ConnId> { if k in w then w[k] else {} }

  /** A watch on one more key. */
  lemma LinkKeeps(w: Watchers, conns: Conns, c: ConnId, k: Key)
    requires Mirror(w, conns) && c in conns
    ensures Mirror(w[k := SetOf(w, k) + {c}], conns[c := conns[c].(watched := conns[c].watched + {k})])
  {
  }

  lemma NewMark(k: Conn, marks: Marks, log: seq<Event>, x: Key)
    requires FlagOk(k, marks, log) && x !in k.watched
    ensures FlagOk(k.(watched := k.watched + {x}), marks[x := |log|], log)
  {
    var w, marks' := k.watched + {x}, marks[x := |log|];
    if AnyHit(k.watched, marks, log) {
      var y :| y in k.watched && y in marks && HitSince(y, marks[y], log);
      assert y in w && y in marks' && HitSince(y, marks'[y], log);
    }
    if AnyHit(w, marks', log) {
      var y :| y in w && y in marks' && HitSince(y, marks'[y], log);
      assert y in k.watched && HitSince(y, marks[y], log);
    }
  }

  /** The connection is off the lists of the keys ks; a list left empty is dropped. */
  function Unlinked(w: Watchers, c: ConnId, ks: set<Key>): Watchers {
    map k | k in w && (k !in ks || w[k] - {c} != {}) :: if k in ks then w[k] - {c} else w[k]
  }

  lemma UnlinkMore(w: Watchers, c: ConnId, ks: set<Key>, k: Key)
    ensures Unlinked(Unlinked(w, c, ks), c, {k}) == Unlinked(w, c, ks + {k})
  {
    var a, b := Unlinked(Unlinked(w, c, ks), c, {k}), Unlinked(w, c, ks + {k});
    forall x ensures x in a <==> x in b {
      if x in w { assert (w[x] - {c}) - {c} == w[x] - {c}; }
    }
    forall x | x in a ensures a[x] == b[x] {
      assert (w[x] - {c}) - {c} == w[x] - {c};
    }
  }

  lemma UnlinkKeeps(w: Watchers, conns: Conns, c: ConnId, k: Conn)
    requires Mirror(w, conns) && c in conns && k.watched == {}
    ensures Mirror(Unlinked(w, c, conns[c].watched), conns[c := k])
  {
    var w', conns' := Unlinked(w, c, conns[c].watched), conns[c := k];
    forall d, x | d in conns' && x in conns'[d].watched ensures x in w' && d in w'[x] {
      assert d != c && d in w[x] - {c};
    }
    forall d, x | x in w' && d in w'[x] ensures d in conns' && x in conns'[d].watched {
      assert d in w[x] && x in conns[d].watched;
      assert d != c;
    }
  }

  lemma WithoutConn(w: Watchers, conns: Conns, marks: map<ConnId, Marks>, log: seq<Event>, c: ConnId, was: Conns)
    requires Mirror(w, conns) && FlagsOk(conns, marks, log) && c in was && c in conns && conns == was[c := conns[c]]
    requires conns[c].watched == {}
    ensures Mirror(w, conns - {c}) && FlagsOk(conns - {c}, marks, log) && forall k :: k in w ==> c !in w[k]
    ensures conns - {c} == was - {c}
  {
  }

  lemma WatchersOfKey(w: Watchers, conns: Conns, key: Key)
    requires Mirror(w, conns)
    ensures SetOf(w, key) == WatchersOf(conns, Touched(key))
  {
    forall c | c in SetOf(w, key) ensures c in WatchersOf(conns, Touched(key)) {
      assert c in conns && key in conns[c].watched && Hits(Touched(key), key);
    }
  }

  /** The lists of all keys but those left are within `who`. */
  ghost predicate Covered(w: Watchers, left: set<Key>, who: set<ConnId>) {
    forall k :: k in w && k !in left ==> w[k] <= who
  }

  lemma AllWatchers(w: Watchers, conns: Conns)
    requires Mirror(w, conns)
    ensures forall k :: k in w ==> w[k] <= WatchersOf(conns, TouchedAll)
    ensures forall who :: Covered(w, {}, who) ==> WatchersOf(conns, TouchedAll) <= who
  {
    var all := WatchersOf(conns, TouchedAll);
    forall k | k in w ensures w[k] <= all {
      forall c | c in w[k] ensures c in all { assert k in conns[c].watched && Hits(TouchedAll, k); }
    }
    forall who, c | Covered(w, {}, who) && c in all ensures c in who {
      var k :| k in conns[c].watched;
      assert k in w && c in w[k];
    }
  }

  lemma MarkMirror(w: Watchers, conns: Conns, who: set<ConnId>)
    requires Mirror(w, conns)
    ensures Mirror(w, Marked(conns, who))
  {
  }

  lemma MarkMore(conns: Conns, a: set<ConnId>, b: set<ConnId>)
    ensures Marked(Marked(conns, a), b) == Marked(conns, a + b) && Marked(conns, {}) == conns
  {
  }

  /** The connection watches these keys too. */
  function Also(k: Conn, keys: seq<Key>): Conn {
    k.(watched := k.watched + set x | x in keys)
  }

  lemma AlsoMore(k: Conn, keys: seq<Key>, i: nat)
    requires i < |keys|
    ensures Also(k, keys[..i + 1]) == Also(k, keys[..i]).(watched := Also(k, keys[..i]).watched + {keys[i]})
  {
    assert keys[..i + 1] == keys[..i] + [keys[i]];
  }

  lemma PlacedMore(was: set<Key>, old': Marks, now: set<Key>, marks: Marks, at: nat, k: Key)
    requires was <= now && Placed(was, old', now, marks, at)
    ensures Placed(was, old', now + {k}, if k in now then marks else MarkAt(marks, k, at), at)
  {
  }

  /** The connection watches these keys too, each from now on unless it did already. */
  ghost predicate Watching(conns0: Conns, marks0: map<ConnId, Marks>, c: ConnId, keys: seq<Key>, at: nat, conns: Conns,
                           marks: map<ConnId, Marks>)
  {
    && c in conns0 && c in marks0 && c in marks && conns == conns0[c := Also(conns0[c], keys)]
    && marks == marks0[c := marks[c]] && Placed(conns0[c].watched, marks0[c], conns[c].watched, marks[c], at)
  }

  lemma WatchMore(conns0: Conns, marks0: map<ConnId, Marks>, c: ConnId, keys: seq<Key>, i: nat, at: nat, conns: Conns,
                  marks: map<ConnId, Marks>)
    requires i < |keys| && Watching(conns0, marks0, c, keys[..i], at, conns, marks)
    ensures var k, m := conns[c], marks[c];
            var m' := if keys[i] in k.watched then m else MarkAt(m, keys[i], at);
            Watching(conns0, marks0, c, keys[..i + 1], at, conns[c := k.(watched := k.watched + {keys[i]})],
                     marks[c := m'])
  {
    AlsoMore(conns0[c], keys, i);
    PlacedMore(conns0[c].watched, marks0[c], conns[c].watched, marks[c], at, keys[i]);
  }

  /** A connection that watches what it did and is flagged as it was, whatever else changes about it. */
  lemma SameWatch(w: Watchers, conns: Conns, marks: map<ConnId, Marks>, log: seq<Event>, c: ConnId, k: Conn)
    requires Mirror(w, conns) && FlagsOk(conns, marks, log) && c in conns
    requires k.watched == conns[c].watched && k.watchDirty == conns[c].watchDirty
    ensures Mirror(w, conns[c := k]) && FlagsOk(conns[c := k], marks, log)
  {
  }

  ghost function MarkAt(marks: Marks, k: Key, at: nat): Marks { marks[k := at] }

  /** For every key now watched: when its watch was placed. */
  ghost predicate Placed(was: set<Key>, old': Marks, now: set<Key>, marks: Marks, at: nat) {
    forall x :: x in now ==> x in marks && (if x in was then x in old' && marks[x] == old'[x] else marks[x] == at)
  }

  class Registry {
    var watchers: Watchers
    var conns: Conns
    ghost var marks: map<ConnId, Marks>
    ghost var log: seq<Event>

    ghost predicate Valid()
      reads this
    {
      Mirror(watchers, conns) && FlagsOk(conns, marks, log)
    }

    constructor ()
      ensures Valid() && conns == map[] && log == []
    {
      watchers, conns, marks, log := map[], map[], map[], [];
    }

    method Accept(c: ConnId)
      requires Valid() && c !in conns
      modifies this`conns, this`marks
      ensures Valid() && conns == old(conns)[c := Conn(false, false, false, {}, [])] && marks == old(marks)[c := map[]]
    {
      conns := conns[c := Conn(false, false, false, {}, [])];
      marks := marks[c := map[]];
    }

    method Mark(who: set<ConnId>)
      requires forall c :: c in who ==> c in conns
      modifies this`conns
      ensures conns == Marked(old(conns), who)
    {
      var left := who;
      ghost var done: set<ConnId> := {};
      MarkMore(conns, {}, {});
      while left != {}
        invariant left <= who && done + left == who && conns.Keys == old(conns).Keys
        invariant conns == Marked(old(conns), done)
      {
        var c :| c in left;
        MarkMore(old(conns), done, {c});
        assert Marked(conns, {c}) == conns[c := conns[c].(watchDirty := true)];
        conns := conns[c := conns[c].(watchDirty := true)];
        left := left - {c};
        done := done + {c};
      }
    }

    /** `watch_touch` */
    method Touch(key: Key)
      requires Valid()
      modifies this`conns, this`log
      ensures Valid() && log == old(log) + [Touched(key)]
      ensures conns == Marked(old(conns), WatchersOf(old(conns), Touched(key)))
    {
      TouchKeeps(conns, marks, log, Touched(key));
      var who := SetOf(watchers, key);
      WatchersOfKey(watchers, conns, key);
      MarkMirror(watchers, conns, who);
      Mark(who);
      log := log + [Touched(key)];
    }

    /** `watch_touch_all` */
    method TouchAll()
      requires Valid()
      modifies this`conns, this`log
      ensures Valid() && log == old(log) + [TouchedAll]
      ensures conns == Marked(old(conns), WatchersOf(old(conns), TouchedAll))
    {
      TouchKeeps(conns, marks, log, TouchedAll);
      ghost var all := WatchersOf(conns, TouchedAll);
      AllWatchers(watchers, conns);
      MarkMirror(watchers, conns, all);
      ghost var who := MarkEvery(all);
      assert who == all;
      log := log + [TouchedAll];
    }

    /** The connections on every list are marked. */
    method MarkEvery(ghost all: set<ConnId>) returns (ghost who: set<ConnId>)
      requires (forall k :: k in watchers ==> watchers[k] <= all) && all <= conns.Keys
      modifies this`conns
      ensures conns == Marked(old(conns), who) && who <= all && Covered(watchers, {}, who)
    {
      who := {};
      MarkMore(conns, {}, {});
      var left := watchers.Keys;
      while left != {}
        invariant left <= watchers.Keys && conns == Marked(old(conns), who) && who <= all
        invariant Covered(watchers, left, who)
      {
        var k :| k in left;
        MarkMore(old(conns), who, watchers[k]);
        Mark(watchers[k]);
        who := who + watchers[k];
        left := left - {k};
      }
    }

    /** `watch_unlink` */
    method Unlink(key: Key, c: ConnId)
      modifies this`watchers
      ensures watchers == Unlinked(old(watchers), c, {key})
    {
      if key !in watchers { return; }
      watchers := watchers[key := watchers[key] - {c}];
      if watchers[key] == {} { watchers := watchers - {key}; }
    }

    /** `watch_clear_conn`, and `do_unwatch`: the connection watches nothing, and nothing is held against it. */
    method ClearConn(c: ConnId)
      requires Valid() && c in conns
      modifies this`watchers, this`conns
      ensures Valid() && conns == old(conns)[c := old(conns[c]).(watched := {}, watchDirty := false)]
    {
      ghost var w := watchers;
      var all := conns[c].watched;
      var left := all;
      ghost var done: set<Key> := {};
      assert Unlinked(w, c, {}) == w;
      while left != {}
        invariant done + left == all && watchers == Unlinked(w, c, done) && conns == old(conns)
      {
        var k :| k in left;
        UnlinkMore(w, c, done, k);
        Unlink(k, c);
        left := left - {k};
        done := done + {k};
      }
      assert done == all;
      var k := conns[c].(watched := {}, watchDirty := false);
      UnlinkKeeps(w, conns, c, k);
      conns := conns[c := k];
    }

    /** One key of WATCH; a key already watched keeps its mark. */
    method WatchOne(c: ConnId, key: Key)
      requires Valid() && c in conns
      modifies this`watchers, this`conns, this`marks
      ensures Valid() && conns == old(conns)[c := old(conns[c]).(watched := old(conns[c]).watched + {key})]
      ensures c in marks && c in old(marks)
      ensures marks == old(marks)[c := if key in old(conns[c]).watched then old(marks[c])
                                       else MarkAt(old(marks[c]), key, |log|)]
    {
      if key in conns[c].watched {
        assert conns[c].watched + {key} == conns[c].watched;
        return;
      }
      LinkKeeps(watchers, conns, c, key);
      NewMark(conns[c], marks[c], log, key);
      marks := marks[c := MarkAt(marks[c], key, |log|)];
      watchers := watchers[key := SetOf(watchers, key) + {c}];
      conns := conns[c := conns[c].(watched := conns[c].watched + {key})];
    }

    /** `do_watch`; refused inside MULTI. */
    method WatchKeys(c: ConnId, keys: seq<Key>)
      requires Valid() && c in conns
      modifies this`watchers, this`conns, this`marks
      ensures Valid()
      ensures if old(conns[c]).inMulti then conns == old(conns) && marks == old(marks)
              else Watching(old(conns), old(marks), c, keys, |log|, conns, marks)
    {
      if conns[c].inMulti { return; }
      assert Also(conns[c], []) == conns[c] && conns[c := conns[c]] == conns && marks[c := marks[c]] == marks;
      var i := 0;
      while i < |keys|
        invariant i <= |keys| && Valid() && Watching(old(conns), old(marks), c, keys[..i], |log|, conns, marks)
      {
        WatchMore(old(conns), old(marks), c, keys, i, |log|, conns, marks);
        WatchOne(c, keys[i]);
        i := i + 1;
      }
      assert keys[..i] == keys;
    }

    /** `do_multi` */
    method Multi(c: ConnId)
      requires Valid() && c in conns
      modifies this`conns
      ensures Valid()
      ensures conns == if old(conns[c]).inMulti then old(conns)
                       else old(conns)[c := old(conns[c]).(inMulti := true, multiDirty := false, queue := [])]
    {
      if conns[c].inMulti { return; }
      conns := conns[c := conns[c].(inMulti := true, multiDirty := false, queue := [])];
    }

    /** A command inside MULTI: queued, or refused, which spoils the transaction. */
    method Queue(c: ConnId, cmd: Cmd, refused: bool)
      requires Valid() && c in conns && conns[c].inMulti
      modifies this`conns
      ensures Valid()
      ensures conns == old(conns)[c := if refused then old(conns[c]).(multiDirty := true)
                                       else old(conns[c]).(queue := old(conns[c]).queue + [cmd])]
    {
      var k := conns[c];
      conns := conns[c := if refused then k.(multiDirty := true) else k.(queue := k.queue + [cmd])];
    }

    /** A command that runs: a write that changed data touches the keys it names. */
    method RunCmd(cmd: Cmd)
      requires Valid()
      modifies this`conns, this`log
      ensures Valid() && log == old(log) + Events(cmd) && OnlyFlags(old(conns), conns)
      ensures forall d :: d in conns ==>
                (conns[d].watchDirty <==>
                   || old(conns)[d].watchDirty || (cmd.Flush? && old(conns)[d].watched != {})
                   || (cmd.Write? && cmd.changes && exists k :: k in cmd.keys && k in old(conns)[d].watched))
    {
      match cmd
      case Flush =>
        FlushMarks(conns);
        TouchAll();
      case Write(keys, changes) =>
        if changes { TouchEach(keys); }
    }

    /** `watch_touch` on every key the command names. */
    method TouchEach(keys: seq<Key>)
      requires Valid()
      modifies this`conns, this`log
      ensures Valid() && log == old(log) + TouchesOf(keys) && OnlyFlags(old(conns), conns)
      ensures MarkedBy(old(conns), conns, keys)
    {
      hide FlagsOk, Mirror;
      var i := 0;
      assert log + TouchesOf([]) == log;
      while i < |keys|
        invariant i <= |keys| && Valid() && log == old(log) + TouchesOf(keys[..i]) && OnlyFlags(old(conns), conns)
        invariant MarkedBy(old(conns), conns, keys[..i])
      {
        TouchNext(keys, i, old(conns), old(log));
        i := i + 1;
      }
      assert keys[..i] == keys;
    }

    method TouchNext(keys: seq<Key>, i: nat, ghost was: Conns, ghost before: seq<Event>)
      requires Valid() && i < |keys| && log == before + TouchesOf(keys[..i]) && OnlyFlags(was, conns)
      requires MarkedBy(was, conns, keys[..i])
      modifies this`conns, this`log
      ensures Valid() && log == before + TouchesOf(keys[..i + 1]) && OnlyFlags(was, conns)
      ensures MarkedBy(was, conns, keys[..i + 1])
    {
      MarkedMore(was, conns, keys[..i], keys[i]);
      assert keys[..i + 1] == keys[..i] + [keys[i]];
      assert TouchesOf(keys[..i + 1]) == TouchesOf(keys[..i]) + [Touched(keys[i])];
      Touch(keys[i]);
    }

    /** `do_exec`.  The queue runs exactly when the transaction was not spoiled and none of the watched
        keys was hit since its watch was placed. */
    method Exec(c: ConnId) returns (out: ExecResult)
      requires Valid() && c in conns
      modifies this`watchers, this`conns, this`log
      ensures Valid() && c in conns && OnlyFlags(old(conns) - {c}, conns - {c})
      ensures var k := old(conns[c]);
              && (out.NoMulti? <==> !k.inMulti)
              && (out.Aborted? <==> k.inMulti && k.multiDirty)
              && (out.Nil? <==> k.inMulti && !k.multiDirty && AnyHit(k.watched, old(marks[c]), old(log)))
              && (out.Ran? <==> k.inMulti && !k.multiDirty && !AnyHit(k.watched, old(marks[c]), old(log)))
              && conns.Keys == old(conns).Keys && log == old(log) + (if out.Ran? then AllEvents(k.queue) else [])
              && (out.Ran? ==> out.batch == k.queue)
              && SpoiledBy(old(conns) - {c}, conns, if out.Ran? then k.queue else [])
              && conns[c] == match out {
                   case NoMulti => k
                   case Aborted => k.(inMulti := false, multiDirty := false, queue := [])
                   case Nil => Conn(false, false, false, {}, [])
                   case Ran(_) => Conn(false, false, false, {}, [])
                 }
    {
      var k := conns[c];
      assert FlagOk(k, marks[c], log);
      if !k.inMulti { return NoMulti; }
      if k.multiDirty {
        LeaveMulti(c);
        return Aborted;
      }
      if k.watchDirty {
        Discard(c);
        return Nil;
      }
      Commit(c);
      return Ran(k.queue);
    }

    /** The queue runs, after the transaction and the watches were left behind. */
    method Commit(c: ConnId)
      requires Valid() && c in conns && conns[c].inMulti
      modifies this`watchers, this`conns, this`log
      ensures Valid() && c in conns && OnlyFlags(old(conns) - {c}, conns - {c})
      ensures conns[c] == Conn(false, false, false, {}, [])
      ensures conns.Keys == old(conns).Keys && log == old(log) + AllEvents(old(conns[c]).queue)
      ensures SpoiledBy(old(conns) - {c}, conns, old(conns[c]).queue)
    {
      var batch := conns[c].queue;
      Discard(c);
      ghost var mid := conns;
      RunBatch(batch);
      NotWatching(conns[c], marks[c], log);
      OthersKept(old(conns), mid, conns, c);
    }

    /** The transaction is over, for better or worse. */
    method LeaveMulti(c: ConnId)
      requires Valid() && c in conns
      modifies this`conns
      ensures Valid() && conns == old(conns)[c := old(conns[c]).(inMulti := false, multiDirty := false, queue := [])]
    {
      SameWatch(watchers, conns, marks, log, c, conns[c].(inMulti := false, multiDirty := false, queue := []));
      conns := conns[c := conns[c].(inMulti := false, multiDirty := false, queue := [])];
    }

    /** The queued commands, one after another. */
    method RunBatch(batch: seq<Cmd>)
      requires Valid()
      modifies this`conns, this`log
      ensures Valid() && log == old(log) + AllEvents(batch) && OnlyFlags(old(conns), conns)
      ensures SpoiledBy(old(conns), conns, batch)
    {
      hide FlagsOk, Mirror, Spoils;
      var i := 0;
      while i < |batch|
        invariant i <= |batch| && Valid() && OnlyFlags(old(conns), conns)
        invariant log == old(log) + AllEvents(batch[..i]) && SpoiledBy(old(conns), conns, batch[..i])
      {
        AllEventsSnoc(old(log), batch, i);
        RunNext(batch[i], old(conns), batch[..i]);
        assert batch[..i + 1] == batch[..i] + [batch[i]];
        i := i + 1;
      }
      assert batch[..i] == batch;
    }

    method RunNext(cmd: Cmd, ghost was: Conns, ghost ran: seq<Cmd>)
      requires Valid() && OnlyFlags(was, conns) && SpoiledBy(was, conns, ran)
      modifies this`conns, this`log
      ensures Valid() && log == old(log) + Events(cmd) && OnlyFlags(was, conns) && SpoiledBy(was, conns, ran + [cmd])
    {
      ghost var before := conns;
      RunCmd(cmd);
      FlagsThen(was, before, conns);
      SpoiledMore(was, before, conns, ran, cmd);
    }

    /** `do_discard` */
    method Discard(c: ConnId)
      requires Valid() && c in conns
      modifies this`watchers, this`conns
      ensures Valid()
      ensures var k := old(conns[c]);
              conns == if !k.inMulti then old(conns) else old(conns)[c := Conn(false, false, false, {}, [])]
    {
      if !conns[c].inMulti { return; }
      LeaveMulti(c);
      ClearConn(c);
    }

    /** `conn_destroy` */
    method Close(c: ConnId)
      requires Valid() && c in conns
      modifies this`watchers, this`conns
      ensures Valid() && conns == old(conns) - {c} && forall k :: k in watchers ==> c !in watchers[k]
    {
      ClearConn(c);
      WithoutConn(watchers, conns, marks, log, c, old(conns));
      conns := conns - {c};
    }
  }

  datatype ExecResult = NoMulti | Aborted | Nil | Ran(batch: seq<Cmd>)

  function TouchesOf(keys: seq<Key>): seq<Event> {
    seq(|keys|, i requires 0 <= i < |keys| => Touched(keys[i]))
  }

  function Events(cmd: Cmd): seq<Event> {
    match cmd
    case Flush => [TouchedAll]
    case Write(keys, changes) => if changes then TouchesOf(keys) else []
  }

  function AllEvents(cmds: seq<Cmd>): seq<Event> {
    if cmds == [] then [] else AllEvents(cmds[..|cmds| - 1]) + Events(cmds[|cmds| - 1])
  }

  lemma AllEventsSnoc(log: seq<Event>, cmds: seq<Cmd>, i: nat)
    requires i < |cmds|
    ensures log + AllEvents(cmds[..i + 1]) == log + AllEvents(cmds[..i]) + Events(cmds[i])
  {
    assert cmds[..i + 1][..i] == cmds[..i];
  }

  /** The command changes a key of the set. */
  ghost predicate Spoils(cmd: Cmd, w: set<Key>) {
    || (cmd.Flush? && w != {})
    || (cmd.Write? && cmd.changes && exists k :: k in cmd.keys && k in w)
  }

  /** The commands marked exactly the connections that watch a key one of them changes. */
  ghost predicate SpoiledBy(was: Conns, now: Conns, cmds: seq<Cmd>) {
    forall d :: d in was && d in now ==>
      (now[d].watchDirty <==> was[d].watchDirty || exists i :: 0 <= i < |cmds| && Spoils(cmds[i], was[d].watched))
  }

  lemma SpoiledMore(was: Conns, mid: Conns, now: Conns, ran: seq<Cmd>, cmd: Cmd)
    requires OnlyFlags(was, mid) && SpoiledBy(was, mid, ran) && now.Keys == mid.Keys
    requires forall d :: d in now ==> (now[d].watchDirty <==> mid[d].watchDirty || Spoils(cmd, mid[d].watched))
    ensures SpoiledBy(was, now, ran + [cmd])
  {
    var all := ran + [cmd];
    forall d | d in was && d in now
      ensures now[d].watchDirty <==> was[d].watchDirty || exists i :: 0 <= i < |all| && Spoils(all[i], was[d].watched)
    {
      if i :| 0 <= i < |all| && Spoils(all[i], was[d].watched) { assert i < |ran| ==> all[i] == ran[i]; }
      if i :| 0 <= i < |ran| && Spoils(ran[i], was[d].watched) { assert Spoils(all[i], was[d].watched); }
      if Spoils(cmd, was[d].watched) { assert Spoils(all[|ran|], was[d].watched); }
    }
  }

  lemma FlushMarks(was: Conns)
    ensures forall d :: d in was ==> (d in WatchersOf(was, TouchedAll) <==> was[d].watched != {})
  {
    forall d | d in was && was[d].watched != {} ensures d in WatchersOf(was, TouchedAll) {
      var k :| k in was[d].watched;
      assert Hits(TouchedAll, k);
    }
  }

  /** The watchers of these keys were marked. */
  ghost predicate MarkedBy(was: Conns, now: Conns, keys: seq<Key>) {
    forall d :: d in was && d in now ==>
      (now[d].watchDirty <==> was[d].watchDirty || exists k :: k in keys && k in was[d].watched)
  }

  lemma MarkedMore(was: Conns, mid: Conns, keys: seq<Key>, key: Key)
    requires OnlyFlags(was, mid) && MarkedBy(was, mid, keys)
    ensures MarkedBy(was, Marked(mid, WatchersOf(mid, Touched(key))), keys + [key])
  {
    var now := Marked(mid, WatchersOf(mid, Touched(key)));
    forall d | d in was && d in now
      ensures now[d].watchDirty <==> was[d].watchDirty || exists k :: k in keys + [key] && k in was[d].watched
    {
      assert Hits(Touched(key), key) && mid[d].watched == was[d].watched;
      if d in WatchersOf(mid, Touched(key)) { assert key in was[d].watched; }
      if key in was[d].watched { assert d in WatchersOf(mid, Touched(key)); }
      if k :| k in keys && k in was[d].watched { assert k in keys + [key]; }
      if key in was[d].watched { assert key in keys + [key]; }
    }
  }

  /** The same connections, and of each nothing but the flag changed. */
  predicate OnlyFlags(was: Conns, now: Conns) {
    now.Keys == was.Keys && forall d :: d in was ==> SameButFlag(now[d], was[d])
  }

  lemma FlagsThen(a: Conns, b: Conns, c: Conns)
    requires OnlyFlags(a, b) && OnlyFlags(b, c)
    ensures OnlyFlags(a, c)
  {
  }

  lemma OthersKept(was: Conns, mid: Conns, now: Conns, c: ConnId)
    requires c in was && c in mid && mid == was[c := mid[c]] && OnlyFlags(mid, now)
    ensures OnlyFlags(was - {c}, now - {c})
  {
  }

  lemma NotWatching(k: Conn, marks: Marks, log: seq<Event>)
    requires FlagOk(k, marks, log) && k.watched == {}
    ensures !k.watchDirty
  {
  }

  predicate SameButFlag(a: Conn, b: Conn) {
    a == b.(watchDirty := a.watchDirty)
  }
}
