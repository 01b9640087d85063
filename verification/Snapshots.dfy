/** Saving a store and loading it into an empty one: lists, sets and maps as values, deadlines on the
    clock of each process (src/persistence/rdb.cpp). */
module Snapshots {
  import opened Common
  import opened Rdb

  /** The values of the store; a score is its eight bytes. */
  datatype Val =
    | Text(s: Bytes)
    | ListOf(elems: seq<Bytes>)
    | SetOf(members: set<Bytes>)
    | HashOf(fields: map<Bytes, Bytes>)
    | ZSetOf(scores: map<Bytes, Bytes>)

  /** A value and its deadline on the monotonic clock. */
  datatype Entry = Entry(value: Val, deadline: Option<int>)

  type Store = map<Bytes, Entry>

  function Elems(items: seq<Item>): seq<Bytes> {
    seq(|items|, i requires 0 <= i < |items| => items[i].name)
  }

  function Members(items: seq<Item>): set<Bytes> {
    set it | it in items :: it.name
  }

  function Fields(items: seq<Item>): map<Bytes, Bytes> {
    if items == [] then map[]
    else var last := items[|items| - 1]; Fields(items[..|items| - 1])[last.name := last.value]
  }

  function Scores(items: seq<Item>): map<Bytes, Bytes> {
    if items == [] then map[]
    else var last := items[|items| - 1]; Scores(items[..|items| - 1])[last.name := last.score]
  }

  /** What the loader builds from the members it reads, one after another. */
  function ValueOf(v: Value): Val {
    match v
    case Str(s) => Text(s)
    case Items(kind, items) =>
      match kind
      case List => ListOf(Elems(items))
      case Set => SetOf(Members(items))
      case Hash => HashOf(Fields(items))
      case ZSet => ZSetOf(Scores(items))
  }

  function AtMono(expire: Option<nat>, wall: int, mono: int): Option<int> {
    if expire.None? then None else Some(ToMono(expire.value, wall, mono))
  }

  predicate NamedOnce(items: seq<Item>) {
    forall i, j :: 0 <= i < j < |items| ==> items[i].name != items[j].name
  }

  /** What is written for a value: the string, the elements of a list in their order, or each member once with
      what belongs to it. */
  ghost predicate Writes(v: Value, x: Val) {
    match x
    case Text(s) => v == Str(s)
    case ListOf(elems) =>
      v.Items? && v.kind.List? && |v.items| == |elems| && forall i :: 0 <= i < |elems| ==> v.items[i].name == elems[i]
    case SetOf(members) =>
      v.Items? && v.kind.Set? && NamedOnce(v.items)
      && forall n :: n in members <==> exists it :: it in v.items && it.name == n
    case HashOf(fields) =>
      && v.Items? && v.kind.Hash? && NamedOnce(v.items)
      && (forall n :: n in fields ==> exists it :: it in v.items && it.name == n)
      && forall it :: it in v.items ==> it.name in fields && fields[it.name] == it.value
    case ZSetOf(scores) =>
      && v.Items? && v.kind.ZSet? && NamedOnce(v.items)
      && (forall n :: n in scores ==> exists it :: it in v.items && it.name == n)
      && forall it :: it in v.items ==> it.name in scores && scores[it.name] == it.score
  }

  lemma {:induction false} FieldsOf(items: seq<Item>, n: Bytes)
    requires NamedOnce(items)
    ensures n in Fields(items) <==> exists it :: it in items && it.name == n
    ensures n in Scores(items) <==> exists it :: it in items && it.name == n
    ensures forall it :: it in items && it.name == n ==> Fields(items)[n] == it.value && Scores(items)[n] == it.score
  {
    if items != [] {
      var front, last := items[..|items| - 1], items[|items| - 1];
      FieldsOf(front, n);
      assert items == front + [last];
      LastIsNew(items);
      if n == last.name {
        assert last in items;
        assert forall it :: it in items && it.name == n ==> it == last;
      } else {
        assert forall it :: it in items && it.name == n ==> it in front;
      }
    }
  }

  lemma LastIsNew(items: seq<Item>)
    requires NamedOnce(items) && items != []
    ensures forall it :: it in items[..|items| - 1] ==> it.name != items[|items| - 1].name
  {
    var front := items[..|items| - 1];
    forall it | it in front ensures it.name != items[|items| - 1].name {
      var i :| 0 <= i < |front| && front[i] == it;
      assert items[i].name != items[|front|].name;
    }
  }

  /** The loader builds from what is written just the value it was written for. */
  lemma LoadsValue(v: Value, x: Val)
    requires Writes(v, x)
    ensures ValueOf(v) == x
  {
    match x
    case Text(_) =>
    case ListOf(elems) => assert Elems(v.items) == elems;
    case SetOf(members) => assert Members(v.items) == members;
    case HashOf(fields) =>
      forall n ensures n in Fields(v.items) <==> n in fields { FieldsOf(v.items, n); }
      forall n | n in fields ensures Fields(v.items)[n] == fields[n] { FieldsOf(v.items, n); }
      assert Fields(v.items).Keys == fields.Keys;
    case ZSetOf(scores) =>
      forall n ensures n in Scores(v.items) <==> n in scores { FieldsOf(v.items, n); }
      forall n | n in scores ensures Scores(v.items)[n] == scores[n] { FieldsOf(v.items, n); }
      assert Scores(v.items).Keys == scores.Keys;
  }

  /** The records are the store, each key once, in any order of keys and members. */
  ghost predicate Dumps(rs: seq<Record>, st: Store, wall: int, mono: int) {
    && (forall i :: 0 <= i < |rs| ==>
          var r := rs[i];
          r.key in st && Writes(r.value, st[r.key].value) &&
          match r.expire
          case None => st[r.key].deadline.None?
          case Some(at) => st[r.key].deadline.Some? && at == ToWall(st[r.key].deadline.value, wall, mono))
    && (forall i, j :: 0 <= i < j < |rs| ==> rs[i].key != rs[j].key)
    && (forall k :: k in st ==> exists i :: 0 <= i < |rs| && rs[i].key == k)
  }

  function Put(st: Store, r: Record, wall: int, mono: int): Store {
    st[r.key := Entry(ValueOf(r.value), AtMono(r.expire, wall, mono))]
  }

  /** The store after the records were put into an empty one. */
  function Restore(rs: seq<Record>, wall: int, mono: int): Store {
    if rs == [] then map[] else Put(Restore(rs[..|rs| - 1], wall, mono), rs[|rs| - 1], wall, mono)
  }

  /** Nothing is left of the time to live when it is loaded. */
  predicate RunOut(e: Entry, wall: int, mono: int, wall': int) {
    e.deadline.Some? && ToWall(e.deadline.value, wall, mono) <= wall'
  }

  /** The store as it should come back: without the entries whose time ran out in between, and the other
      deadlines as far ahead as the wall clock leaves them. */
  ghost function Later(st: Store, wall: int, mono: int, wall': int, mono': int): Store {
    map k | k in st && !RunOut(st[k], wall, mono, wall') :: LaterEntry(st[k], wall, mono, wall', mono')
  }

  function LaterEntry(e: Entry, wall: int, mono: int, wall': int, mono': int): Entry {
    e.(deadline := if e.deadline.None? then None else Some(mono' + (ToWall(e.deadline.value, wall, mono) - wall')))
  }

  lemma {:induction false} AliveHas(rs: seq<Record>, wall: int, r: Record)
    ensures r in Alive(rs, wall) <==> r in rs && !Dead(r, wall)
  {
    if rs != [] { AliveHas(rs[1..], wall, r); }
  }

  predicate OneEach(rs: seq<Record>) {
    forall i, j :: 0 <= i < j < |rs| ==> rs[i].key != rs[j].key
  }

  lemma {:induction false} AliveOneEach(rs: seq<Record>, wall: int)
    requires OneEach(rs)
    ensures OneEach(Alive(rs, wall))
  {
    if rs != [] {
      AliveOneEach(rs[1..], wall);
      var more := Alive(rs[1..], wall);
      forall r | r in more ensures r.key != rs[0].key { AliveHas(rs[1..], wall, r); }
    }
  }

  /** Records with different keys are all found again, and nothing else is. */
  lemma {:induction false} Restored(rs: seq<Record>, wall: int, mono: int, k: Bytes)
    requires OneEach(rs)
    ensures k in Restore(rs, wall, mono) <==> exists r :: r in rs && r.key == k
    ensures forall r :: r in rs && r.key == k ==>
              Restore(rs, wall, mono)[k] == Entry(ValueOf(r.value), AtMono(r.expire, wall, mono))
  {
    if rs != [] {
      var front, last := rs[..|rs| - 1], rs[|rs| - 1];
      Restored(front, wall, mono, k);
      assert rs == front + [last];
    }
  }

  /** The record of a key decides alone what comes back for it. */
  lemma OnlyRecord(rs: seq<Record>, wall: int, i: nat, r: Record)
    requires OneEach(rs) && i < |rs|
    ensures rs[i] in Alive(rs, wall) <==> !Dead(rs[i], wall)
    ensures r in Alive(rs, wall) && r.key == rs[i].key ==> r == rs[i]
  {
    AliveHas(rs, wall, rs[i]);
    AliveHas(rs, wall, r);
  }

  lemma RestoredOf(rs: seq<Record>, wall: int, mono: int, i: nat)
    requires OneEach(rs) && i < |rs|
    ensures var r, now := rs[i], Restore(Alive(rs, wall), wall, mono);
            (r.key in now <==> !Dead(r, wall))
            && (r.key in now ==> now[r.key] == Entry(ValueOf(r.value), AtMono(r.expire, wall, mono)))
  {
    var alive := Alive(rs, wall);
    AliveOneEach(rs, wall);
    Restored(alive, wall, mono, rs[i].key);
    forall r | r in alive && r.key == rs[i].key ensures r == rs[i] { OnlyRecord(rs, wall, i, r); }
    OnlyRecord(rs, wall, i, rs[i]);
  }

  lemma NotRestored(rs: seq<Record>, wall: int, mono: int, k: Bytes)
    requires OneEach(rs) && forall i :: 0 <= i < |rs| ==> rs[i].key != k
    ensures k !in Restore(Alive(rs, wall), wall, mono)
  {
    AliveOneEach(rs, wall);
    Restored(Alive(rs, wall), wall, mono, k);
    forall r | r in Alive(rs, wall) ensures r.key != k { AliveHas(rs, wall, r); }
  }

  lemma DumpedEntry(rs: seq<Record>, st: Store, wall: int, mono: int, wall': int, mono': int, i: nat)
    requires Dumps(rs, st, wall, mono) && i < |rs|
    ensures var r := rs[i];
            && r.key in st && (Dead(r, wall') <==> RunOut(st[r.key], wall, mono, wall'))
            && Entry(ValueOf(r.value), AtMono(r.expire, wall', mono')) ==
                 LaterEntry(st[r.key], wall, mono, wall', mono')
  {
    LoadsValue(rs[i].value, st[rs[i].key].value);
  }

  lemma RestoredLater(rs: seq<Record>, st: Store, wall: int, mono: int, wall': int, mono': int, k: Bytes)
    requires Dumps(rs, st, wall, mono)
    ensures var now := Restore(Alive(rs, wall'), wall', mono');
            var want := Later(st, wall, mono, wall', mono');
            (k in now <==> k in want) && (k in now ==> now[k] == want[k])
  {
    if k in st {
      var i :| 0 <= i < |rs| && rs[i].key == k;
      RestoredOf(rs, wall', mono', i);
      DumpedEntry(rs, st, wall, mono, wall', mono', i);
    } else {
      NotRestored(rs, wall', mono', k);
    }
  }

  /** A store that is saved and loaded into an empty one, at any later time and on another clock, comes back
      with every value and with every deadline that has not passed. */
  lemma StoreRoundTrip(rs: seq<Record>, st: Store, z: Zlib, wall: int, mono: int, wall': int, mono': int)
    requires Dumps(rs, st, wall, mono) && RecordsOk(rs) && Faithful(z) && |rs| < P256(4)
    requires SizeFits(WRecords(rs) + [255], z)
    ensures var out := LoadImage(Image(rs, z), wall', z);
            out.ok && Restore(out.loaded, wall', mono') == Later(st, wall, mono, wall', mono')
  {
    ImageRoundTrip(rs, wall', z);
    var now, want := Restore(Alive(rs, wall'), wall', mono'), Later(st, wall, mono, wall', mono');
    forall k ensures (k in now <==> k in want) && (k in now ==> now[k] == want[k]) {
      RestoredLater(rs, st, wall, mono, wall', mono', k);
    }
    assert now.Keys == want.Keys;
    assert now == want;
  }

  /** Loaded at once and on the same clock, it is the store without the entries that are due. */
  lemma LoadedAtOnce(st: Store, wall: int, mono: int)
    ensures Later(st, wall, mono, wall, mono) ==
              map k | k in st && !(st[k].deadline.Some? && st[k].deadline.value <= mono) :: st[k]
  {
  }
}
