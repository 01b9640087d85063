/** The entries of an image, said without the loader: those it takes are exactly these. */
module Entries {
  import opened Common
  import opened Rdb
  import Damage

  /** A type byte, whether there is a deadline, the deadline, the key and the value. */
  ghost predicate RecordAt(s: Bytes, r: Record, rest: Bytes) {
    && |s| >= 2 && s[0] == Tag(r.value) && (s[1] == 0 <==> r.expire.None?)
    && s[2..] == WDeadline(r.expire) + (WStr(r.key) + (WBody(r.value) + rest))
  }

  function WDeadline(e: Option<nat>): Bytes {
    if e.None? then [] else LE(e.value, 8)
  }

  ghost predicate RecordsAt(s: Bytes, rs: seq<Record>, rest: Bytes)
    decreases |rs|
  {
    if rs == [] then s == rest else exists mid :: RecordAt(s, rs[0], mid) && RecordsAt(mid, rs[1..], rest)
  }

  predicate NoneDead(rs: seq<Record>, wall: int) {
    forall i :: 0 <= i < |rs| ==> !Dead(rs[i], wall)
  }

  // ---- what was read was written -------------------------------------------------------------------

  lemma NumWritten(s: Bytes, k: nat)
    requires ReadNum(s, k).Got?
    ensures var g := ReadNum(s, k); s == LE(g.value, k) + g.rest && g.value < P256(k)
  {
    Damage.LENum(s[..k]);
    assert s == s[..k] + s[k..];
  }

  lemma StrWritten(s: Bytes)
    requires ReadStr(s).Got?
    ensures var g := ReadStr(s); s == WStr(g.value) + g.rest && Short(g.value)
  {
    hide LE, Num;
    NumWritten(s, 4);
    var n := ReadNum(s, 4);
    assert n.rest == n.rest[..n.value] + n.rest[n.value..];
    assert LE(n.value, 4) + (n.rest[..n.value] + n.rest[n.value..]) == WStr(n.rest[..n.value]) + n.rest[n.value..];
  }

  lemma ItemWritten(kind: Kind, s: Bytes)
    requires ReadItem(kind, s).Got?
    ensures var g := ReadItem(kind, s); s == WItem(kind, g.value) + g.rest && ItemOk(kind, g.value)
  {
    hide ReadStr, WStr;
    var score := Take(s, ScoreLen(kind));
    var name := ReadStr(score.rest);
    assert s == score.value + score.rest;
    StrWritten(score.rest);
    if kind.Hash? {
      StrWritten(name.rest);
      var value := ReadStr(name.rest);
      assert score.value + (WStr(name.value) + (WStr(value.value) + value.rest)) ==
             score.value + (WStr(name.value) + WStr(value.value)) + value.rest;
    } else {
      assert score.value + (WStr(name.value) + name.rest) == score.value + (WStr(name.value) + []) + name.rest;
    }
  }

  lemma {:induction false} ItemsWere(kind: Kind, s: Bytes, n: nat, acc: seq<Item>) returns (items: seq<Item>)
    requires ReadItems(kind, s, n, acc).Got?
    ensures var g := ReadItems(kind, s, n, acc);
            g.value == acc + items && |items| == n && ItemsOk(kind, items) && s == WItems(kind, items) + g.rest
    decreases n
  {
    hide ReadItem, WItem, ItemOk;
    if n == 0 {
      items := [];
      assert acc + items == acc && WItems(kind, items) + s == s;
    } else {
      var it := ReadItem(kind, s);
      ItemWritten(kind, s);
      var more := ItemsWere(kind, it.rest, n - 1, acc + [it.value]);
      items := [it.value] + more;
      assert acc + [it.value] + more == acc + items;
      WItemsCons(kind, it.value, more, ReadItems(kind, s, n, acc).rest);
    }
  }

  lemma ValueWritten(tag: nat, s: Bytes, guarded: bool)
    requires tag <= 4 && ReadValue(tag, s, guarded).Got?
    ensures var g := ReadValue(tag, s, guarded); s == WBody(g.value) + g.rest && ValueOk(g.value) && Tag(g.value) == tag
  {
    hide LE, Num, ReadStr, ReadItem;
    if tag == 0 {
      StrWritten(s);
    } else {
      var kind, n := KindOf(tag), ReadNum(s, 4);
      NumWritten(s, 4);
      var items := ItemsWere(kind, n.rest, n.value, []);
      assert [] + items == items;
      var rest := ReadValue(tag, s, guarded).rest;
      assert LE(n.value, 4) + (WItems(kind, items) + rest) == (LE(n.value, 4) + WItems(kind, items)) + rest;
    }
  }

  lemma KeptWritten(tag: nat, s: Bytes, e: Option<nat>)
    requires tag <= 4 && KeepRecord(tag, s, e).Load?
    ensures var k := KeepRecord(tag, s, e);
            && s == WStr(k.record.key) + (WBody(k.record.value) + k.rest) && k.record.expire == e
            && Short(k.record.key) && ValueOk(k.record.value) && Tag(k.record.value) == tag
  {
    hide ReadStr, ReadValue, WStr, WBody, ValueOk, Tag, P256;
    StrWritten(s);
    ValueWritten(tag, ReadStr(s).rest, true);
  }

  /** A record that is loaded was there, in its own bytes. */
  lemma RecordWritten(tag: Byte, s: Bytes, wall: int)
    requires tag <= 4 && LoadRecord(tag, s, wall).Load?
    ensures var k := LoadRecord(tag, s, wall);
            RecordAt([tag] + s, k.record, k.rest) && RecordOk(k.record) && !Dead(k.record, wall)
  {
    hide KeepRecord, WStr, WBody, ValueOk, Tag, LE, SkipRecord;
    var has := ReadNum(s, 1);
    NumWritten(s, 1);
    FirstByte(s);
    assert ([tag] + s)[2..] == has.rest;
    if has.value == 0 {
      KeptWritten(tag, has.rest, None);
      var k := KeepRecord(tag, has.rest, None);
      assert [] + has.rest == has.rest;
    } else {
      var at := ReadNum(has.rest, 8);
      NumWritten(has.rest, 8);
      SkipLoadsNone(tag, at.rest);
      KeptWritten(tag, at.rest, Some(at.value));
    }
  }

  lemma SkipLoadsNone(tag: nat, s: Bytes)
    ensures !SkipRecord(tag, s).Load?
  {
    hide ReadStr, ReadNum, ReadValue, Discard;
  }

  lemma FirstByte(s: Bytes)
    requires ReadNum(s, 1).Got?
    ensures s != [] && ReadNum(s, 1) == Got(s[0], s[1..])
  {
    assert s[..1] == [s[0]] && Num([s[0]]) == s[0] + 256 * Num([s[0]][1..]);
  }

  // ---- and the other way round -----------------------------------------------------------------------

  lemma RecordRead(s: Bytes, r: Record, rest: Bytes, wall: int)
    requires RecordAt(s, r, rest) && RecordOk(r) && !Dead(r, wall)
    ensures LoadRecord(s[0], s[1..], wall) == Load(r, rest)
  {
    hide WStr, WBody, ValueOk, LE, Num, ReadStr, ReadValue;
    var body := WStr(r.key) + (WBody(r.value) + rest);
    assert s[1..] == [s[1]] + s[2..];
    ReadByte(s[1], s[2..]);
    if r.expire.Some? {
      ReadNumOf(r.expire.value, 8, body);
    } else {
      assert s[2..] == body;
    }
    ReadStrOf(r.key, WBody(r.value) + rest);
    ReadValueOf(r.value, rest, true);
  }

  // ---- all entries -------------------------------------------------------------------------------------

  lemma {:induction false} EntriesWritten(s: Bytes, n: nat, acc: seq<Record>, wall: int)
    returns (rs: seq<Record>, rest: Bytes)
    requires LoadEntries(Loader(wall), s, n, acc).ok && |LoadEntries(Loader(wall), s, n, acc).loaded| == |acc| + n
    ensures LoadEntries(Loader(wall), s, n, acc).loaded == acc + rs && |rs| == n
    ensures RecordsOk(rs) && NoneDead(rs, wall) && RecordsAt(s, rs, [255] + rest)
    decreases n
  {
    hide LoadRecord, RecordOk, Dead, RecordAt;
    FirstByte(s);
    if n == 0 {
      rs, rest := [], s[1..];
      assert acc + rs == acc && s == [255] + rest;
    } else {
      var k := LoadRecord(s[0], s[1..], wall);
      if k.Skip? {
        Bounded(k.rest, n - 1, acc, wall);
        assert false;
      } else {
        RecordWritten(s[0], s[1..], wall);
        assert [s[0]] + s[1..] == s;
        var more, end := EntriesWritten(k.rest, n - 1, acc + [k.record], wall);
        rs, rest := [k.record] + more, end;
        assert acc + [k.record] + more == acc + rs && rs[1..] == more;
      }
    }
  }

  /** No more entries are loaded than there are. */
  lemma {:induction false} Bounded(s: Bytes, n: nat, acc: seq<Record>, wall: int)
    ensures |LoadEntries(Loader(wall), s, n, acc).loaded| <= |acc| + n
    decreases n
  {
    hide LoadRecord;
    var t := ReadNum(s, 1);
    if n > 0 && t.Got? && t.value <= 4 {
      var k := LoadRecord(t.value, t.rest, wall);
      if k.Skip? { Bounded(k.rest, n - 1, acc, wall); }
      if k.Load? { Bounded(k.rest, n - 1, acc + [k.record], wall); }
    }
  }

  lemma OneRead(s: Bytes, r: Record, mid: Bytes, n: nat, acc: seq<Record>, wall: int)
    requires RecordAt(s, r, mid) && RecordOk(r) && !Dead(r, wall)
    ensures LoadEntries(Loader(wall), s, n + 1, acc) == LoadEntries(Loader(wall), mid, n, acc + [r]) && |mid| < |s|
  {
    hide LoadRecord, RecordOk, Dead, WStr, WBody;
    RecordRead(s, r, mid, wall);
    assert s == [s[0]] + s[1..];
    ReadByte(s[0], s[1..]);
  }

  lemma {:induction false} EntriesRead(s: Bytes, rs: seq<Record>, rest: Bytes, acc: seq<Record>, wall: int)
    requires RecordsOk(rs) && NoneDead(rs, wall) && RecordsAt(s, rs, [255] + rest)
    ensures LoadEntries(Loader(wall), s, |rs|, acc) == Outcome(true, acc + rs) && |rs| <= |s|
    decreases |rs|
  {
    hide RecordAt, RecordOk, Dead, Loader;
    if rs == [] {
      ReadByte(255, rest);
      assert acc + rs == acc;
    } else {
      var mid :| RecordAt(s, rs[0], mid) && RecordsAt(mid, rs[1..], [255] + rest);
      OneRead(s, rs[0], mid, |rs| - 1, acc, wall);
      EntriesRead(mid, rs[1..], rest, acc + [rs[0]], wall);
      assert acc + [rs[0]] + rs[1..] == acc + rs;
    }
  }

  /** The loader puts n entries into the store exactly if that is what the bytes spell: these records, none
      too large and none expired, and then the end mark. */
  lemma EntriesExact(s: Bytes, rs: seq<Record>, wall: int)
    ensures ParseEntries(s, |rs|, wall) == Outcome(true, rs) <==>
              RecordsOk(rs) && NoneDead(rs, wall) && exists rest :: RecordsAt(s, rs, [255] + rest)
  {
    if ParseEntries(s, |rs|, wall) == Outcome(true, rs) {
      var all, rest := EntriesWritten(s, |rs|, [], wall);
      assert [] + all == all;
    }
    if RecordsOk(rs) && NoneDead(rs, wall) && exists rest :: RecordsAt(s, rs, [255] + rest) {
      var rest :| RecordsAt(s, rs, [255] + rest);
      EntriesRead(s, rs, rest, [], wall);
      assert [] + rs == rs;
    }
  }

  /** A compressed payload is unpacked exactly if it has its size in front, which is not beyond what it could
      unpack to, and zlib takes it. */
  lemma UnpackExact(parse: (Bytes, nat) -> Outcome, p: Bytes, n: nat, z: Zlib)
    ensures LoadPayload(parse, true, p, n, z).ok <==>
              && |p| >= 4 && Num(p[..4]) <= (|p| - 4) * 1032 + 4096
              && var q := z.uncompress(p[4..], Num(p[..4])); q.Some? && parse(q.value, n).ok
  {
  }
}
