/** The writer and the loader of src/persistence/rdb.cpp as they run: a buffer that is appended to and
    patched, a cursor that moves over the payload, entries put into the store one by one. */
module RdbFile {
  import opened Common
  import opened Crc32
  import opened Words
  import opened Rdb

  // ---- writing -------------------------------------------------------------------------------

  /** `memcpy(buf + at, b, |b|)` */
  function Patch(buf: Bytes, at: nat, b: Bytes): Bytes
    requires at + |b| <= |buf|
  {
    buf[..at] + b + buf[at + |b|..]
  }

  lemma PatchMiddle(a: Bytes, old4: Bytes, new4: Bytes, c: Bytes)
    requires |old4| == |new4|
    ensures Patch(a + old4 + c, |a|, new4) == a + new4 + c
  {
  }

  lemma NextOf<T>(w: T -> Bytes, xs: seq<T>, i: nat)
    requires i < |xs|
    ensures Each(w, xs[..i + 1]) == Each(w, xs[..i]) + w(xs[i])
  {
    EachSnoc(w, xs[..i], xs[i]);
    assert xs[..i + 1] == xs[..i] + [xs[i]];
  }

  lemma NextItem(kind: Kind, items: seq<Item>, i: nat, head: Bytes)
    requires i < |items|
    ensures head + WItems(kind, items[..i + 1]) == head + WItems(kind, items[..i]) + WItem(kind, items[i])
  {
    NextOf((it: Item) => WItem(kind, it), items, i);
  }

  lemma NextRecord(rs: seq<Record>, i: nat)
    requires i < |rs|
    ensures WRecords(rs[..i + 1]) == WRecords(rs[..i]) + WRecord(rs[i])
  {
    NextOf(WRecord, rs, i);
  }

  /** `hm_foreach` with the callback that writes one member and counts it. */
  method AppendItems(head: Bytes, kind: Kind, items: seq<Item>) returns (buf: Bytes, count: nat)
    ensures buf == head + WItems(kind, items) && count == |items|
  {
    buf, count := head, 0;
    while count < |items|
      invariant count <= |items| && buf == head + WItems(kind, items[..count])
    {
      NextItem(kind, items, count, head);
      buf := buf + WItem(kind, items[count]);
      count := count + 1;
    }
    assert items[..count] == items;
  }

  /** The members of a container: a placeholder for the count, the members, then the real count. */
  method WriteItems(buf0: Bytes, kind: Kind, items: seq<Item>) returns (buf: Bytes)
    ensures buf == buf0 + (LE(|items|, 4) + WItems(kind, items))
  {
    var zero: Bytes := [0, 0, 0, 0];
    var count;
    buf, count := AppendItems(buf0 + zero, kind, items);
    PatchMiddle(buf0, zero, LE(count, 4), WItems(kind, items));
    buf := Patch(buf, |buf0|, LE(count, 4));
  }

  lemma Regroup(a: Bytes, t: Bytes, e: Bytes, k: Bytes, v: Bytes)
    ensures a + t + e + k + v == a + (t + (e + (k + v)))
  {
  }

  /** `cb_rdb_write` */
  method WriteRecord(buf0: Bytes, r: Record) returns (buf: Bytes)
    ensures buf == buf0 + WRecord(r)
  {
    buf := buf0 + [Tag(r.value)];
    var ttl: Bytes := [0];
    if r.expire.Some? { ttl := [1] + LE(r.expire.value, 8); }
    buf := buf + ttl + WStr(r.key);
    match r.value {
      case Str(s) => buf := buf + WStr(s);
      case Items(kind, items) => buf := WriteItems(buf, kind, items);
    }
    Regroup(buf0, [Tag(r.value)], ttl, WStr(r.key), WBody(r.value));
  }

  method WritePayload(rs: seq<Record>) returns (payload: Bytes, count: nat)
    ensures payload == WRecords(rs) + [255] && count == |rs|
  {
    payload, count := [], 0;
    while count < |rs|
      invariant count <= |rs| && payload == WRecords(rs[..count])
    {
      NextRecord(rs, count);
      payload := WriteRecord(payload, rs[count]);
      count := count + 1;
    }
    assert rs[..count] == rs;
    payload := payload + [255];
  }

  /** `rdb_serialize`: flags and count are patched into the header when they are known. */
  method Serialize(rs: seq<Record>, z: Zlib) returns (image: Bytes)
    ensures image == Image(rs, z)
  {
    var buf := MAGIC + LE(VERSION, 4);
    var flagsAt := |buf|;
    buf := buf + [1];
    var countAt := |buf|;
    buf := buf + [0, 0, 0, 0];
    var payload, count := WritePayload(rs);
    PatchMiddle(MAGIC + LE(VERSION, 4) + [1], [0, 0, 0, 0], LE(count, 4), []);
    assert buf == MAGIC + LE(VERSION, 4) + [1] + [0, 0, 0, 0] + [];
    buf := Patch(buf, countAt, LE(count, 4));
    var flags: Byte, body := 0, payload;
    if |payload| >= COMPRESS_THRESHOLD {
      var c := z.compress(payload);
      if c.Some? && |c.value| < |payload| {
        flags, body := 1, LE(|payload|, 4) + c.value;
      }
    }
    PatchMiddle(MAGIC + LE(VERSION, 4), [1], [flags], LE(count, 4));
    assert buf == MAGIC + LE(VERSION, 4) + [1] + LE(count, 4);
    buf := Patch(buf, flagsAt, [flags]);
    assert buf == Head(flags, count);
    buf := buf + body;
    var table := Init();
    var crc := Compute(table, buf);
    image := buf + LE(Val(crc), 4);
  }

  // ---- loading ----------------------------------------------------------------------------------

  lemma NoItemsLeft(kind: Kind, rest: Bytes, items: seq<Item>)
    ensures ReadItems(kind, rest, 0, items) == Got(items, rest)
  {
  }

  class Cursor {
    const data: Bytes
    var pos: nat

    ghost predicate Valid()
      reads this
    {
      pos <= |data|
    }

    ghost function Rest(): Bytes
      requires Valid()
      reads this
    {
      data[pos..]
    }

    constructor (data: Bytes)
      ensures Valid() && Rest() == data
    {
      this.data, pos := data, 0;
    }

    /** `cursor_read` */
    method Read(len: nat) returns (ok: bool, b: Bytes)
      requires Valid()
      modifies this
      ensures Valid() && Take(old(Rest()), len) == if ok then Got(b, Rest()) else Fail(Rest())
    {
      if len > |data| - pos { return false, []; }
      b := data[pos..pos + len];
      pos := pos + len;
      ok := true;
      assert old(Rest())[..len] == b && old(Rest())[len..] == Rest();
    }

    method ReadU(k: nat) returns (ok: bool, n: nat)
      requires Valid()
      modifies this
      ensures Valid() && ReadNum(old(Rest()), k) == if ok then Got(n, Rest()) else Fail(Rest())
    {
      var b;
      ok, b := Read(k);
      n := Num(b);
    }

    /** `cursor_read_str` */
    method ReadString() returns (ok: bool, s: Bytes)
      requires Valid()
      modifies this
      ensures Valid() && ReadStr(old(Rest())) == if ok then Got(s, Rest()) else Fail(Rest())
    {
      var len;
      ok, len := ReadU(4);
      if !ok { return false, []; }
      ok, s := Read(len);
    }
  
    method ReadOne(kind: Kind) returns (ok: bool, it: Item)
      requires Valid()
      modifies this
      ensures Valid() && ReadItem(kind, old(Rest())) == if ok then Got(it, Rest()) else Fail(Rest())
    {
      it := Item([], [], []);
      var score, name, value;
      ok, score := Read(ScoreLen(kind));
      if !ok { return; }
      ok, name := ReadString();
      if !ok { return; }
      value := [];
      if kind.Hash? {
        ok, value := ReadString();
        if !ok { return; }
      }
      it := Item(score, name, value);
    }

    /** One turn of the member loop. */
    method ReadNext(kind: Kind, ghost left: nat, items0: seq<Item>) returns (ok: bool, items: seq<Item>)
      requires Valid() && left > 0
      modifies this
      ensures Valid()
      ensures ReadItems(kind, old(Rest()), left, items0) == if ok then ReadItems(kind, Rest(), left - 1, items)
                                                            else Fail(Rest())
    {
      var it;
      ok, it := ReadOne(kind);
      items := if ok then items0 + [it] else items0;
    }

    /** The member loop of the four container loaders. */
    method ReadMany(kind: Kind, n: nat) returns (ok: bool, items: seq<Item>)
      requires Valid()
      modifies this
      ensures Valid() && ReadItems(kind, old(Rest()), n, []) == if ok then Got(items, Rest()) else Fail(Rest())
    {
      hide ReadItems;
      items := [];
      var i := 0;
      ghost var all := ReadItems(kind, Rest(), n, []);
      while i < n
        invariant i <= n && Valid() && ReadItems(kind, Rest(), n - i, items) == all
      {
        ok, items := ReadNext(kind, n - i, items);
        if !ok { return; }
        i := i + 1;
      }
      ok := true;
      NoItemsLeft(kind, Rest(), items);
    }

    /** The value of a record; a count that cannot fit the remaining bytes is refused when `guarded`. */
    method ReadVal(tag: nat, guarded: bool) returns (ok: bool, v: Value)
      requires Valid()
      modifies this
      ensures Valid() && ReadValue(tag, old(Rest()), guarded) == if ok then Got(v, Rest()) else Fail(Rest())
    {
      v := Str([]);
      if tag == 0 {
        var s;
        ok, s := ReadString();
        v := Str(s);
        return;
      }
      var kind := KindOf(tag);
      var n;
      ok, n := ReadU(4);
      if !ok { return; }
      if guarded && n > (|data| - pos) / MinSize(kind) { return false, v; }
      var items;
      ok, items := ReadMany(kind, n);
      v := Items(kind, items);
    }

    method DiscardMany(kind: Kind, n: nat)
      requires Valid()
      modifies this
      ensures Valid() && Rest() == Discard(kind, old(Rest()), n)
    {
      var i := 0;
      while i < n
        invariant i <= n && Valid() && Discard(kind, Rest(), n - i) == Discard(kind, old(Rest()), n)
      {
        var _, _ := ReadString();
        if kind.Hash? { var _, _ := ReadString(); }
        i := i + 1;
      }
    }

    /** The skip path of an expired record. */
    method SkipOne(tag: nat) returns (ok: bool)
      requires Valid()
      modifies this
      ensures Valid() && SkipRecord(tag, old(Rest())) == if ok then Skip(Rest()) else Bad
    {
      var s, v, n;
      if tag == 3 || tag == 4 {
        var _, _ := ReadString();
        ok, n := ReadU(4);
        DiscardMany(KindOf(tag), if ok then n else 0);
        return true;
      }
      ok, s := ReadString();
      if !ok { return; }
      ok, v := ReadVal(tag, tag != 2);
    }

    /** `rdb_load_*_entry`: an entry, or nothing for an expired one. */
    method LoadOne(tag: nat, wall: int) returns (ok: bool, r: Option<Record>)
      requires Valid()
      modifies this
      ensures Valid()
      ensures LoadRecord(tag, old(Rest()), wall) == if !ok then Bad else if r.None? then Skip(Rest())
                                                    else Load(r.value, Rest())
    {
      r := None;
      var has, at, key, v;
      ok, has := ReadU(1);
      if !ok { return; }
      var expire: Option<nat> := None;
      if has != 0 {
        ok, at := ReadU(8);
        if !ok { return; }
        if at <= wall {
          ok := SkipOne(tag);
          return;
        }
        expire := Some(at);
      }
      ok, key := ReadString();
      if !ok { return; }
      ok, v := ReadVal(tag, true);
      if ok { r := Some(Record(key, v, expire)); }
    }
  
    /** The end mark. */
    method Finish(wall: int, loaded: seq<Record>, ghost all: Outcome) returns (out: Outcome)
      requires Valid() && Resumes(wall, Rest(), 0, loaded, all)
      modifies this
      ensures out == all
    {
      assert Shown(OfState, 0);
      var ok, eof := ReadU(1);
      out := Outcome(ok && eof == 255, loaded);
    }

    /** One turn of the entry loop. */
    method NextEntry(wall: int, ghost left: nat, loaded0: seq<Record>, ghost all: Outcome)
      returns (ok: bool, loaded: seq<Record>)
      requires Valid() && left > 0 && Resumes(wall, Rest(), left, loaded0, all)
      modifies this
      ensures Valid() && if ok then Resumes(wall, Rest(), left - 1, loaded, all) else all == Outcome(false, loaded)
    {
      assert Shown(OfState, 0);
      loaded := loaded0;
      var tag, r;
      ok, tag := ReadU(1);
      if !ok { return; }
      if tag > 4 { return false, loaded; }
      ok, r := LoadOne(tag, wall);
      if ok && r.Some? { loaded := loaded + [r.value]; }
    }
  }

  /** What is still to be loaded leads to `all`. */
  ghost predicate Resumes(wall: int, rest: Bytes, left: nat, loaded: seq<Record>, all: Outcome) {
    forall n: nat {:trigger Shown(OfState, n)} :: Shown(OfState, n) ==>
      LoadEntries(Loader(wall), rest, left, loaded) == all
  }

  lemma ParseStarts(payload: Bytes, n: nat, wall: int)
    requires n <= |payload|
    ensures Resumes(wall, payload, n, [], ParseEntries(payload, n, wall))
  {
  }

  /** `rdb_parse_entries`: what was loaded stays loaded when a later entry is bad. */
  method Parse(payload: Bytes, n: nat, wall: int) returns (out: Outcome)
    ensures out == ParseEntries(payload, n, wall)
  {
    hide LoadEntries;
    if n > |payload| { return Outcome(false, []); }
    ghost var all := ParseEntries(payload, n, wall);
    ParseStarts(payload, n, wall);
    var c := new Cursor(payload);
    var loaded, left: nat, ok := [], n, true;
    while left > 0
      invariant c.Valid() && fresh(c) && Resumes(wall, c.Rest(), left, loaded, all)
    {
      ok, loaded := c.NextEntry(wall, left, loaded, all);
      if !ok { return Outcome(false, loaded); }
      left := left - 1;
    }
    out := c.Finish(wall, loaded, all);
  }

  /** The payload as it was before compression, unless it is damaged. */
  method Unpack(compressed: bool, payload: Bytes, z: Zlib) returns (p: Option<Bytes>)
    ensures forall parse: (Bytes, nat) -> Outcome, n: nat {:trigger LoadPayload(parse, compressed, payload, n, z)} ::
              LoadPayload(parse, compressed, payload, n, z) == if p.None? then Outcome(false, []) else parse(p.value, n)
  {
    if !compressed { return Some(payload); }
    if |payload| < 4 { return None; }
    var size := Num(payload[..4]);
    if size > (|payload| - 4) * 1032 + 4096 { return None; }
    p := z.uncompress(payload[4..], size);
  }

  /** `rdb_load_buffer` */
  method LoadBuffer(data: Bytes, wall: int, z: Zlib) returns (out: Outcome)
    ensures out == LoadImage(data, wall, z)
  {
    out := Outcome(false, []);
    if |data| < 19 { return; }
    if data[..5] != MAGIC { return; }
    if Num(data[5..9]) != VERSION { return; }
    var content := data[..|data| - 4];
    var table := Init();
    var crc := Compute(table, content);
    if Num(data[|data| - 4..]) != Val(crc) { return; }
    var payload := Unpack(data[9] % 2 == 1, content[14..], z);
    if payload.None? { return; }
    out := Parse(payload.value, Num(data[10..14]), wall);
  }
}
