/** The image format of src/persistence/rdb.cpp, written and loaded. */
module Rdb {
  import opened Common
  import opened Crc32
  import opened Words

  // ---- numbers and strings ----------------------------------------------------------------

  /** 256 to the k. */
  function P256(k: nat): (p: nat)
    ensures p >= 1
  {
    if k == 0 then 1 else 256 * P256(k - 1)
  }

  /** The k bytes of a number, lowest first, as `memcpy` leaves them on a little-endian machine. */
  function LE(n: nat, k: nat): (r: Bytes)
    ensures |r| == k
    decreases k, n
  {
    if k == 0 then [] else [n % 256] + LE(n / 256, k - 1)
  }

  function Num(b: Bytes): (n: nat)
    ensures n < P256(|b|)
  {
    if b == [] then 0 else b[0] + 256 * Num(b[1..])
  }

  lemma {:induction false} NumLE(n: nat, k: nat)
    requires n < P256(k)
    ensures Num(LE(n, k)) == n
    decreases k
  {
    if k > 0 {
      NumLE(n / 256, k - 1);
      assert LE(n, k)[1..] == LE(n / 256, k - 1);
    }
  }

  /** A number too large for its bytes loses its high part. */
  lemma {:induction false} NumCut(n: nat, k: nat)
    ensures Num(LE(n, k)) <= n && (n >= P256(k) ==> Num(LE(n, k)) < n)
    decreases k
  {
    if k > 0 {
      NumCut(n / 256, k - 1);
      assert LE(n, k)[1..] == LE(n / 256, k - 1);
    }
  }

  /** `buf_append_str` */
  function WStr(s: Bytes): Bytes { LE(|s|, 4) + s }

  predicate Short(s: Bytes) { |s| < P256(4) }

  /** A read moves the cursor, also when it fails. */
  datatype Got<T> = Fail(rest: Bytes) | Got(value: T, rest: Bytes)

  /** `cursor_read` */
  function Take(s: Bytes, len: nat): Got<Bytes> {
    if len > |s| then Fail(s) else Got(s[..len], s[len..])
  }

  /** `cursor_read_u8`, `cursor_read_u32`, `cursor_read_u64` */
  function ReadNum(s: Bytes, k: nat): Got<nat> {
    match Take(s, k)
    case Fail(rest) => Fail(rest)
    case Got(b, rest) => Got(Num(b), rest)
  }

  /** `cursor_read_str` */
  function ReadStr(s: Bytes): Got<Bytes> {
    match ReadNum(s, 4)
    case Fail(rest) => Fail(rest)
    case Got(len, rest) => Take(rest, len)
  }

  lemma TakeOf(a: Bytes, rest: Bytes)
    ensures Take(a + rest, |a|) == Got(a, rest)
  {
  }

  lemma ReadNumOf(n: nat, k: nat, rest: Bytes)
    requires n < P256(k)
    ensures ReadNum(LE(n, k) + rest, k) == Got(n, rest)
  {
    TakeOf(LE(n, k), rest);
    NumLE(n, k);
  }

  lemma ReadStrOf(a: Bytes, rest: Bytes)
    requires Short(a)
    ensures ReadStr(WStr(a) + rest) == Got(a, rest)
  {
    assert WStr(a) + rest == LE(|a|, 4) + (a + rest);
    ReadNumOf(|a|, 4, a + rest);
    TakeOf(a, rest);
  }

  /** Things written one after another. */
  function Each<T>(w: T -> Bytes, xs: seq<T>): Bytes {
    if xs == [] then [] else w(xs[0]) + Each(w, xs[1..])
  }

  lemma EachCons<T>(w: T -> Bytes, x: T, xs: seq<T>, rest: Bytes)
    ensures Each(w, [x] + xs) + rest == w(x) + (Each(w, xs) + rest)
  {
    assert ([x] + xs)[1..] == xs;
  }

  lemma {:induction false} EachSnoc<T>(w: T -> Bytes, xs: seq<T>, x: T)
    ensures Each(w, xs + [x]) == Each(w, xs) + w(x)
  {
    if xs == [] {
      assert xs + [x] == [x];
    } else {
      EachSnoc(w, xs[1..], x);
      assert (xs + [x])[1..] == xs[1..] + [x];
    }
  }

  // ---- containers -----------------------------------------------------------------------------

  datatype Kind = ZSet | List | Hash | Set

  /** One member: a score for sorted sets, a name or element, a value for hashes. */
  datatype Item = Item(score: Bytes, name: Bytes, value: Bytes)

  function ScoreLen(kind: Kind): nat { if kind.ZSet? then 8 else 0 }

  /** The fewest bytes a member takes; the count guards divide by it. */
  function MinSize(kind: Kind): nat {
    match kind
    case ZSet => 12
    case List => 4
    case Hash => 8
    case Set => 4
  }

  predicate ItemOk(kind: Kind, it: Item) {
    |it.score| == ScoreLen(kind) && Short(it.name) && Short(it.value) && (!kind.Hash? ==> it.value == [])
  }

  function WItem(kind: Kind, it: Item): Bytes {
    it.score + (WStr(it.name) + if kind.Hash? then WStr(it.value) else [])
  }

  function WItems(kind: Kind, items: seq<Item>): Bytes {
    Each((it: Item) => WItem(kind, it), items)
  }

  function ReadItem(kind: Kind, s: Bytes): Got<Item> {
    match Take(s, ScoreLen(kind))
    case Fail(rest) => Fail(rest)
    case Got(score, rest) =>
      match ReadStr(rest)
      case Fail(rest) => Fail(rest)
      case Got(name, rest) =>
        if !kind.Hash? then Got(Item(score, name, []), rest)
        else match ReadStr(rest)
          case Fail(rest) => Fail(rest)
          case Got(value, rest) => Got(Item(score, name, value), rest)
  }

  function ReadItems(kind: Kind, s: Bytes, n: nat, acc: seq<Item>): Got<seq<Item>>
    decreases n
  {
    if n == 0 then Got(acc, s)
    else match ReadItem(kind, s)
      case Fail(rest) => Fail(rest)
      case Got(it, rest) => ReadItems(kind, rest, n - 1, acc + [it])
  }

  lemma ReadItemOf(kind: Kind, it: Item, rest: Bytes)
    requires ItemOk(kind, it)
    ensures ReadItem(kind, WItem(kind, it) + rest) == Got(it, rest)
  {
    var tail := if kind.Hash? then WStr(it.value) else [];
    assert WItem(kind, it) + rest == it.score + (WStr(it.name) + (tail + rest));
    TakeOf(it.score, WStr(it.name) + (tail + rest));
    ReadStrOf(it.name, tail + rest);
    if kind.Hash? { ReadStrOf(it.value, rest); } else { assert tail + rest == rest; }
  }

  predicate ItemsOk(kind: Kind, items: seq<Item>) {
    forall i :: 0 <= i < |items| ==> ItemOk(kind, items[i])
  }

  lemma WItemsCons(kind: Kind, it: Item, items: seq<Item>, rest: Bytes)
    ensures WItems(kind, [it] + items) + rest == WItem(kind, it) + (WItems(kind, items) + rest)
  {
    EachCons((x: Item) => WItem(kind, x), it, items, rest);
  }

  lemma WItemsSplit(kind: Kind, items: seq<Item>, rest: Bytes)
    requires items != []
    ensures WItems(kind, items) + rest == WItem(kind, items[0]) + (WItems(kind, items[1..]) + rest)
  {
    WItemsCons(kind, items[0], items[1..], rest);
    assert [items[0]] + items[1..] == items;
  }

  /** The bytes are these members, one after another, and then the rest. */
  ghost predicate ItemsAt(kind: Kind, s: Bytes, items: seq<Item>, rest: Bytes)
    decreases |items|
  {
    if items == [] then s == rest
    else
      var r := ReadItem(kind, s);
      r.Got? && r.value == items[0] && ItemsAt(kind, r.rest, items[1..], rest)
  }

  lemma {:induction false} ItemsWritten(kind: Kind, items: seq<Item>, rest: Bytes)
    requires ItemsOk(kind, items)
    ensures ItemsAt(kind, WItems(kind, items) + rest, items, rest)
    decreases |items|
  {
    if items == [] {
      assert WItems(kind, items) + rest == rest;
    } else {
      ItemsWritten(kind, items[1..], rest);
      WItemsSplit(kind, items, rest);
      ReadItemOf(kind, items[0], WItems(kind, items[1..]) + rest);
    }
  }

  lemma {:induction false} ItemsRead(kind: Kind, s: Bytes, items: seq<Item>, rest: Bytes, acc: seq<Item>)
    requires ItemsAt(kind, s, items, rest)
    ensures ReadItems(kind, s, |items|, acc) == Got(acc + items, rest)
    decreases |items|
  {
    if items == [] {
      assert acc + items == acc;
    } else {
      ItemsRead(kind, ReadItem(kind, s).rest, items[1..], rest, acc + [items[0]]);
      assert acc + [items[0]] + items[1..] == acc + items;
    }
  }

  lemma ReadItemsOf(kind: Kind, items: seq<Item>, rest: Bytes, acc: seq<Item>)
    requires ItemsOk(kind, items)
    ensures ReadItems(kind, WItems(kind, items) + rest, |items|, acc) == Got(acc + items, rest)
  {
    ItemsWritten(kind, items, rest);
    ItemsRead(kind, WItems(kind, items) + rest, items, rest, acc);
  }

  /** The count guard of the loader never rejects members that were written. */
  lemma {:induction false} GuardPasses(kind: Kind, items: seq<Item>, rest: Bytes)
    requires ItemsOk(kind, items)
    ensures |items| <= |WItems(kind, items) + rest| / MinSize(kind)
    decreases |items|
  {
    if items != [] {
      GuardPasses(kind, items[1..], rest);
      assert |WItem(kind, items[0])| >= MinSize(kind);
      Grow(|WItems(kind, items[1..]) + rest|, |WItem(kind, items[0])|, MinSize(kind));
    }
  }

  lemma Grow(a: nat, b: nat, m: nat)
    requires m == 4 || m == 8 || m == 12
    requires b >= m
    ensures (a + b) / m >= a / m + 1
  {
  }

  // ---- records -------------------------------------------------------------------------------------

  datatype Value = Str(s: Bytes) | Items(kind: Kind, items: seq<Item>)

  /** A key with its value and its wall-clock deadline. */
  datatype Record = Record(key: Bytes, value: Value, expire: Option<nat>)

  predicate ValueOk(v: Value) {
    match v
    case Str(s) => Short(s)
    case Items(kind, items) => ItemsOk(kind, items) && |items| < P256(4)
  }

  predicate RecordOk(r: Record) {
    Short(r.key) && ValueOk(r.value) && (r.expire.Some? ==> r.expire.value < P256(8))
  }

  function KindOf(tag: nat): Kind {
    if tag == 1 then ZSet else if tag == 2 then List else if tag == 3 then Hash else Set
  }

  function Tag(v: Value): (t: Byte)
    ensures t <= 4 && (t == 0 <==> v.Str?) && (v.Items? ==> KindOf(t) == v.kind)
  {
    match v
    case Str(_) => 0
    case Items(kind, _) => match kind { case ZSet => 1 case List => 2 case Hash => 3 case Set => 4 }
  }

  function WTtl(e: Option<nat>): Bytes {
    if e.None? then [0] else [1] + LE(e.value, 8)
  }

  function WBody(v: Value): Bytes {
    match v
    case Str(s) => WStr(s)
    case Items(kind, items) => LE(|items|, 4) + WItems(kind, items)
  }

  /** `cb_rdb_write` */
  function WRecord(r: Record): Bytes {
    [Tag(r.value)] + WTail(r)
  }

  function WTail(r: Record): Bytes {
    WTtl(r.expire) + (WStr(r.key) + WBody(r.value))
  }

  datatype Loading = Bad | Skip(rest: Bytes) | Load(record: Record, rest: Bytes)

  function ReadValue(tag: nat, s: Bytes, guarded: bool): Got<Value> {
    if tag == 0 then
      match ReadStr(s)
      case Fail(rest) => Fail(rest)
      case Got(v, rest) => Got(Str(v), rest)
    else
      var kind := KindOf(tag);
      match ReadNum(s, 4)
      case Fail(rest) => Fail(rest)
      case Got(n, rest) =>
        if guarded && n > |rest| / MinSize(kind) then Fail(rest)
        else match ReadItems(kind, rest, n, [])
          case Fail(rest) => Fail(rest)
          case Got(items, rest) => Got(Items(kind, items), rest)
  }

  /** Strings read and thrown away, whether or not they are there. */
  function Discard(kind: Kind, s: Bytes, n: nat): Bytes
    decreases n
  {
    if n == 0 then s
    else
      var rest := ReadStr(s).rest;
      Discard(kind, if kind.Hash? then ReadStr(rest).rest else rest, n - 1)
  }

  /** The key and the value of an expired record: hashes and sets are skipped without checking. */
  function SkipRecord(tag: nat, s: Bytes): Loading {
    if tag == 3 || tag == 4 then
      var n := ReadNum(ReadStr(s).rest, 4);
      Skip(Discard(KindOf(tag), n.rest, if n.Got? then n.value else 0))
    else
      match ReadStr(s)
      case Fail(_) => Bad
      case Got(_, rest) =>
        var v := ReadValue(tag, rest, tag != 2);
        if v.Fail? then Bad else Skip(v.rest)
  }

  function KeepRecord(tag: nat, s: Bytes, expire: Option<nat>): Loading {
    match ReadStr(s)
    case Fail(_) => Bad
    case Got(key, rest) =>
      var v := ReadValue(tag, rest, true);
      if v.Fail? then Bad else Load(Record(key, v.value, expire), v.rest)
  }

  /** `rdb_load_string_entry` and its four siblings, after the type byte. */
  function LoadRecord(tag: nat, s: Bytes, wall: int): Loading {
    match ReadNum(s, 1)
    case Fail(_) => Bad
    case Got(has, rest) =>
      if has == 0 then KeepRecord(tag, rest, None)
      else match ReadNum(rest, 8)
        case Fail(_) => Bad
        case Got(at, rest) => if at <= wall then SkipRecord(tag, rest) else KeepRecord(tag, rest, Some(at))
  }

  predicate Dead(r: Record, wall: int) {
    r.expire.Some? && r.expire.value <= wall
  }

  lemma ReadValueOf(v: Value, rest: Bytes, guarded: bool)
    requires ValueOk(v)
    ensures ReadValue(Tag(v), WBody(v) + rest, guarded) == Got(v, rest)
  {
    match v
    case Str(s) => ReadStrOf(s, rest);
    case Items(kind, items) =>
      var more := WItems(kind, items) + rest;
      assert WBody(v) + rest == LE(|items|, 4) + more;
      ReadNumOf(|items|, 4, more);
      GuardPasses(kind, items, rest);
      ReadItemsOf(kind, items, rest, []);
      assert [] + items == items;
  }

  lemma {:induction false} DiscardOf(kind: Kind, items: seq<Item>, rest: Bytes)
    requires ItemsOk(kind, items) && (kind.Hash? || kind.Set?)
    ensures Discard(kind, WItems(kind, items) + rest, |items|) == rest
    decreases |items|
  {
    if items == [] {
      assert WItems(kind, items) + rest == rest;
    } else {
      var it, more := items[0], WItems(kind, items[1..]) + rest;
      WItemsCons(kind, it, items[1..], rest);
      assert [it] + items[1..] == items;
      DiscardOne(kind, it, more);
      DiscardOf(kind, items[1..], rest);
    }
  }

  lemma DiscardOne(kind: Kind, it: Item, rest: Bytes)
    requires ItemOk(kind, it) && (kind.Hash? || kind.Set?)
    ensures var r := ReadStr(WItem(kind, it) + rest).rest; (if kind.Hash? then ReadStr(r).rest else r) == rest
  {
    var tail := if kind.Hash? then WStr(it.value) else [];
    assert WItem(kind, it) + rest == WStr(it.name) + (tail + rest);
    ReadStrOf(it.name, tail + rest);
    if kind.Hash? { ReadStrOf(it.value, rest); } else { assert tail + rest == rest; }
  }

  lemma SkipRecordOf(key: Bytes, v: Value, rest: Bytes)
    requires Short(key) && ValueOk(v)
    ensures SkipRecord(Tag(v), WStr(key) + (WBody(v) + rest)) == Skip(rest)
  {
    ReadStrOf(key, WBody(v) + rest);
    if v.Items? && (v.kind.Hash? || v.kind.Set?) {
      var more := WItems(v.kind, v.items) + rest;
      assert WBody(v) + rest == LE(|v.items|, 4) + more;
      ReadNumOf(|v.items|, 4, more);
      DiscardOf(v.kind, v.items, rest);
    } else {
      ReadValueOf(v, rest, Tag(v) != 2);
    }
  }

  lemma ReadNoTtl(tag: nat, rest: Bytes, wall: int)
    ensures LoadRecord(tag, [0] + rest, wall) == KeepRecord(tag, rest, None)
  {
    ReadByte(0, rest);
  }

  lemma ReadSomeTtl(at: nat, tag: nat, rest: Bytes, wall: int)
    requires at < P256(8)
    ensures LoadRecord(tag, [1] + (LE(at, 8) + rest), wall) == if at <= wall then SkipRecord(tag, rest)
                                                               else KeepRecord(tag, rest, Some(at))
  {
    ReadByte(1, LE(at, 8) + rest);
    ReadNumOf(at, 8, rest);
  }

  lemma ReadTtl(e: Option<nat>, tag: nat, rest: Bytes, wall: int)
    requires e.Some? ==> e.value < P256(8)
    ensures LoadRecord(tag, WTtl(e) + rest, wall) ==
            if e.Some? && e.value <= wall then SkipRecord(tag, rest) else KeepRecord(tag, rest, e)
  {
    if e.None? {
      ReadNoTtl(tag, rest, wall);
    } else {
      assert WTtl(e) + rest == [1] + (LE(e.value, 8) + rest);
      ReadSomeTtl(e.value, tag, rest, wall);
    }
  }

  lemma ReadByte(b: Byte, rest: Bytes)
    ensures ReadNum([b] + rest, 1) == Got(b, rest)
  {
    TakeOf([b], rest);
    assert Num([b]) == b + 256 * Num([b][1..]);
  }

  /** A record is read back whole; an expired one is skipped by exactly its own bytes. */
  lemma RecordRoundTrip(r: Record, rest: Bytes, wall: int)
    requires RecordOk(r)
    ensures LoadRecord(Tag(r.value), WTail(r) + rest, wall) == if Dead(r, wall) then Skip(rest) else Load(r, rest)
  {
    var tail := WStr(r.key) + (WBody(r.value) + rest);
    assert WTail(r) + rest == WTtl(r.expire) + tail;
    ReadTtl(r.expire, Tag(r.value), tail, wall);
    if Dead(r, wall) {
      SkipRecordOf(r.key, r.value, rest);
    } else {
      ReadStrOf(r.key, WBody(r.value) + rest);
      ReadValueOf(r.value, rest, true);
    }
  }

  // ---- all entries ---------------------------------------------------------------------------------

  function WRecords(rs: seq<Record>): Bytes {
    Each(WRecord, rs)
  }

  predicate RecordsOk(rs: seq<Record>) {
    forall i :: 0 <= i < |rs| ==> RecordOk(rs[i])
  }

  /** The outcome of a load: whether it succeeded, and the entries it put into the store, in order. */
  datatype Outcome = Outcome(ok: bool, loaded: seq<Record>)

  /** The loop over the entries; `step` reads one of them after its type byte. */
  function LoadEntries(step: (nat, Bytes) -> Loading, s: Bytes, n: nat, acc: seq<Record>): Outcome
    decreases n
  {
    match ReadNum(s, 1)
    case Fail(_) => Outcome(false, acc)
    case Got(tag, rest) =>
      if n == 0 then Outcome(tag == 255, acc)
      else if tag > 4 then Outcome(false, acc)
      else match step(tag, rest)
        case Bad => Outcome(false, acc)
        case Skip(rest) => LoadEntries(step, rest, n - 1, acc)
        case Load(r, rest) => LoadEntries(step, rest, n - 1, acc + [r])
  }

  function Loader(wall: int): (nat, Bytes) -> Loading {
    (tag: nat, rest: Bytes) => LoadRecord(tag, rest, wall)
  }

  /** `rdb_parse_entries` */
  function ParseEntries(s: Bytes, n: nat, wall: int): Outcome {
    if n > |s| then Outcome(false, []) else LoadEntries(Loader(wall), s, n, [])
  }

  /** The records still alive at a wall-clock time, in order. */
  function Alive(rs: seq<Record>, wall: int): seq<Record> {
    if rs == [] then [] else (if Dead(rs[0], wall) then [] else [rs[0]]) + Alive(rs[1..], wall)
  }

  /** `step` reads the record back, or skips it when it is dead. */
  ghost predicate Reads(step: (nat, Bytes) -> Loading, r: Record, wall: int) {
    forall rest :: step(Tag(r.value), WTail(r) + rest) == if Dead(r, wall) then Skip(rest) else Load(r, rest)
  }

  lemma LoadOne(step: (nat, Bytes) -> Loading, r: Record, rest: Bytes, n: nat, wall: int, acc: seq<Record>)
    requires Reads(step, r, wall)
    ensures LoadEntries(step, WRecord(r) + rest, n + 1, acc) ==
              LoadEntries(step, rest, n, if Dead(r, wall) then acc else acc + [r])
  {
    assert WRecord(r) + rest == [Tag(r.value)] + (WTail(r) + rest);
    ReadByte(Tag(r.value), WTail(r) + rest);
  }

  lemma WRecordsCons(r: Record, rs: seq<Record>, rest: Bytes)
    ensures WRecords([r] + rs) + rest == WRecord(r) + (WRecords(rs) + rest)
  {
    EachCons(WRecord, r, rs, rest);
  }

  lemma {:induction false} LoadEntriesOf(step: (nat, Bytes) -> Loading, rs: seq<Record>, wall: int, acc: seq<Record>)
    requires forall i :: 0 <= i < |rs| ==> Reads(step, rs[i], wall)
    ensures LoadEntries(step, WRecords(rs) + [255], |rs|, acc) == Outcome(true, acc + Alive(rs, wall))
    decreases |rs|
  {
    if rs == [] {
      assert WRecords(rs) + [255] == [255] + [] && acc + [] == acc;
      ReadByte(255, []);
    } else {
      var r, more := rs[0], rs[1..];
      var acc' := if Dead(r, wall) then acc else acc + [r];
      LoadEntriesOf(step, more, wall, acc');
      LoadOne(step, r, WRecords(more) + [255], |more|, wall, acc);
      WRecordsCons(r, more, [255]);
      assert [r] + more == rs && acc' + Alive(more, wall) == acc + Alive(rs, wall);
    }
  }

  lemma {:induction false} CountFits(rs: seq<Record>)
    ensures |rs| <= |WRecords(rs)|
  {
    if rs != [] { CountFits(rs[1..]); }
  }

  lemma LoaderReads(rs: seq<Record>, wall: int)
    requires RecordsOk(rs)
    ensures forall i :: 0 <= i < |rs| ==> Reads(Loader(wall), rs[i], wall)
  {
    var step := Loader(wall);
    forall i | 0 <= i < |rs| ensures Reads(step, rs[i], wall) {
      forall rest
        ensures step(Tag(rs[i].value), WTail(rs[i]) + rest) == if Dead(rs[i], wall) then Skip(rest)
                                                               else Load(rs[i], rest)
      {
        RecordRoundTrip(rs[i], rest, wall);
      }
    }
  }

  lemma EntriesRoundTrip(rs: seq<Record>, wall: int)
    requires RecordsOk(rs)
    ensures ParseEntries(WRecords(rs) + [255], |rs|, wall) == Outcome(true, Alive(rs, wall))
  {
    LoaderReads(rs, wall);
    CountFits(rs);
    LoadEntriesOf(Loader(wall), rs, wall, []);
    assert [] + Alive(rs, wall) == Alive(rs, wall);
  }

  // ---- the image -------------------------------------------------------------------------------------

  /** zlib, as a pair of functions; `uncompress` is told the size to expect. */
  datatype Zlib = Zlib(compress: Bytes -> Option<Bytes>, uncompress: (Bytes, nat) -> Option<Bytes>)

  /** What is assumed of it: it gives back what it took, and never shrinks more than 1032 to 1. */
  ghost predicate Faithful(z: Zlib) {
    forall p :: z.compress(p).Some? ==>
      z.uncompress(z.compress(p).value, |p|) == Some(p) && |p| <= |z.compress(p).value| * 1032 + 4096
  }

  const MAGIC: Bytes := [77, 89, 82, 69, 68]   // MYRED
  const VERSION := 3
  const COMPRESS_THRESHOLD := 1024

  function Body(payload: Bytes, z: Zlib): (Byte, Bytes) {
    var c := z.compress(payload);
    if |payload| >= COMPRESS_THRESHOLD && c.Some? && |c.value| < |payload| then (1, LE(|payload|, 4) + c.value)
    else (0, payload)
  }

  function Head(flags: Byte, count: nat): (h: Bytes)
    ensures |h| == 14
  {
    MAGIC + LE(VERSION, 4) + [flags] + LE(count, 4)
  }

  function Seal(sum: Bytes -> nat, content: Bytes): Bytes {
    content + LE(sum(content), 4)
  }

  function Crc(content: Bytes): nat { Val(Reference(content)) }

  /** `rdb_serialize` */
  function Image(rs: seq<Record>, z: Zlib): Bytes {
    var b := Body(WRecords(rs) + [255], z);
    Seal(Crc, Head(b.0, |rs|) + b.1)
  }

  /** The payload of an image, decompressed if need be; `parse` reads its entries. */
  function LoadPayload(parse: (Bytes, nat) -> Outcome, compressed: bool, payload: Bytes, n: nat, z: Zlib): Outcome {
    if !compressed then parse(payload, n)
    else if |payload| < 4 then Outcome(false, [])
    else
      var size := Num(payload[..4]);
      if size > (|payload| - 4) * 1032 + 4096 then Outcome(false, [])
      else match z.uncompress(payload[4..], size)
        case None => Outcome(false, [])
        case Some(p) => parse(p, n)
  }

  function LoadSealed(parse: (Bytes, nat) -> Outcome, sum: Bytes -> nat, data: Bytes, z: Zlib): Outcome {
    if |data| < 19 || data[..5] != MAGIC || Num(data[5..9]) != VERSION then Outcome(false, [])
    else
      var content := data[..|data| - 4];
      if Num(data[|data| - 4..]) != sum(content) then Outcome(false, [])
      else LoadPayload(parse, data[9] % 2 == 1, content[14..], Num(data[10..14]), z)
  }

  function Parser(wall: int): (Bytes, nat) -> Outcome {
    (s: Bytes, n: nat) => ParseEntries(s, n, wall)
  }

  /** `rdb_load_buffer` */
  function LoadImage(data: Bytes, wall: int, z: Zlib): Outcome {
    LoadSealed(Parser(wall), Crc, data, z)
  }

  lemma Widths()
    ensures P256(4) == 0x1_0000_0000 == Pow2(32)
  {
    assert P256(4) == 256 * P256(3) && P256(3) == 256 * P256(2) && P256(2) == 256 * P256(1) && P256(1) == 256 * P256(0);
    PowAdd(16, 16);
    PowAdd(8, 8);
    assert Pow2(8) == 256;
  }

  /** The payload is stored as it is, or its size fits the field that goes before the compressed one. */
  predicate SizeFits(p: Bytes, z: Zlib) {
    Body(p, z).0 == 1 ==> |p| < P256(4)
  }

  lemma PayloadRoundTrip(parse: (Bytes, nat) -> Outcome, p: Bytes, n: nat, z: Zlib)
    requires Faithful(z) && SizeFits(p, z)
    ensures var b := Body(p, z); LoadPayload(parse, b.0 % 2 == 1, b.1, n, z) == parse(p, n)
  {
    var c := z.compress(p);
    if |p| >= COMPRESS_THRESHOLD && c.Some? && |c.value| < |p| {
      SizeRead(|p|, c.value);
    }
  }

  lemma SizeRead(n: nat, c: Bytes)
    requires n < P256(4)
    ensures var b := LE(n, 4) + c; Num(b[..4]) == n && b[4..] == c
  {
    NumLE(n, 4);
    assert (LE(n, 4) + c)[..4] == LE(n, 4);
  }

  lemma HeadParts(flags: Byte, count: nat, rest: Bytes)
    requires count < P256(4)
    ensures var d := Head(flags, count) + rest;
            d[..5] == MAGIC && Num(d[5..9]) == VERSION && d[9] == flags && Num(d[10..14]) == count && d[14..] == rest
  {
    var d := Head(flags, count) + rest;
    Widths();
    NumLE(VERSION, 4);
    NumLE(count, 4);
    assert d[5..9] == LE(VERSION, 4) && d[10..14] == LE(count, 4);
  }

  lemma Slices(content: Bytes, tail: Bytes)
    requires |content| >= 15 && |tail| == 4
    ensures var d := content + tail;
            && d[..5] == content[..5] && d[5..9] == content[5..9] && d[9] == content[9] && d[10..14] == content[10..14]
            && d[..|d| - 4] == content && d[|d| - 4..] == tail
  {
  }

  lemma Unsealed(parse: (Bytes, nat) -> Outcome, sum: Bytes -> nat, content: Bytes, z: Zlib)
    requires |content| >= 15 && content[..5] == MAGIC && Num(content[5..9]) == VERSION && sum(content) < P256(4)
    ensures LoadSealed(parse, sum, Seal(sum, content), z) ==
            LoadPayload(parse, content[9] % 2 == 1, content[14..], Num(content[10..14]), z)
  {
    Slices(content, LE(sum(content), 4));
    NumLE(sum(content), 4);
  }

  lemma SealedRoundTrip(parse: (Bytes, nat) -> Outcome, sum: Bytes -> nat, p: Bytes, n: nat, z: Zlib)
    requires Faithful(z) && 0 < |p| && SizeFits(p, z) && n < P256(4) && forall c :: sum(c) < P256(4)
    ensures var b := Body(p, z); LoadSealed(parse, sum, Seal(sum, Head(b.0, n) + b.1), z) == parse(p, n)
  {
    var b := Body(p, z);
    HeadParts(b.0, n, b.1);
    Unsealed(parse, sum, Head(b.0, n) + b.1, z);
    PayloadRoundTrip(parse, p, n, z);
  }

  lemma CrcFits(c: Bytes)
    ensures Crc(c) < P256(4)
  {
    Widths();
  }

  /** Loading a written image puts back every record that has not expired, with its type, value, order
      and deadline; no size or count guard turns it away. */
  lemma ImageRoundTrip(rs: seq<Record>, wall: int, z: Zlib)
    requires RecordsOk(rs) && Faithful(z) && |rs| < P256(4) && SizeFits(WRecords(rs) + [255], z)
    ensures LoadImage(Image(rs, z), wall, z) == Outcome(true, Alive(rs, wall))
  {
    forall c ensures Crc(c) < P256(4) { CrcFits(c); }
    SealedRoundTrip(Parser(wall), Crc, WRecords(rs) + [255], |rs|, z);
    EntriesRoundTrip(rs, wall);
  }

  // ---- images that are too large -------------------------------------------------------------------------

  /** What zlib does besides: it fails when it is given too little room. */
  ghost predicate Strict(z: Zlib) {
    forall p, n: nat :: z.compress(p).Some? && z.uncompress(z.compress(p).value, n).Some? ==> n >= |p|
  }

  lemma HeadCut(flags: Byte, count: nat, rest: Bytes)
    ensures var d := Head(flags, count) + rest;
            d[..5] == MAGIC && Num(d[5..9]) == VERSION && d[9] == flags && Num(d[10..14]) == Num(LE(count, 4))
            && d[14..] == rest
  {
    var d := Head(flags, count) + rest;
    Widths();
    NumLE(VERSION, 4);
    assert d[5..9] == LE(VERSION, 4) && d[10..14] == LE(count, 4);
  }

  /** What the loader makes of any image that was written. */
  lemma ImageReads(rs: seq<Record>, wall: int, z: Zlib)
    ensures var b := Body(WRecords(rs) + [255], z);
            LoadImage(Image(rs, z), wall, z) == LoadPayload(Parser(wall), b.0 % 2 == 1, b.1, Num(LE(|rs|, 4)), z)
  {
    var b := Body(WRecords(rs) + [255], z);
    CrcFits(Head(b.0, |rs|) + b.1);
    HeadCut(b.0, |rs|, b.1);
    Unsealed(Parser(wall), Crc, Head(b.0, |rs|) + b.1, z);
  }

  /** A compressed payload of 4 GiB or more is written with a size cut to 32 bits, and is turned away. */
  lemma TooLargePacked(parse: (Bytes, nat) -> Outcome, p: Bytes, n: nat, z: Zlib)
    requires Strict(z) && !SizeFits(p, z)
    ensures var b := Body(p, z); LoadPayload(parse, b.0 % 2 == 1, b.1, n, z) == Outcome(false, [])
  {
    var c := z.compress(p);
    var b := LE(|p|, 4) + c.value;
    NumCut(|p|, 4);
    assert b[..4] == LE(|p|, 4) && b[4..] == c.value;
  }

  /** With a count that is too small the loader finds an entry where it expects the end. */
  lemma {:induction false} TooFew(step: (nat, Bytes) -> Loading, rs: seq<Record>, n: nat, wall: int, acc: seq<Record>)
    requires n < |rs| && forall i :: 0 <= i < |rs| ==> Reads(step, rs[i], wall)
    ensures !LoadEntries(step, WRecords(rs) + [255], n, acc).ok
    decreases n
  {
    var r, more := rs[0], rs[1..];
    var rest := WRecords(more) + [255];
    WRecordsSplit(rs);
    if n == 0 {
      NoEnd(step, r, rest, acc);
    } else {
      LoadOne(step, r, rest, n - 1, wall, acc);
      TooFew(step, more, n - 1, wall, if Dead(r, wall) then acc else acc + [r]);
    }
  }

  lemma WRecordsSplit(rs: seq<Record>)
    requires rs != []
    ensures WRecords(rs) + [255] == WRecord(rs[0]) + (WRecords(rs[1..]) + [255])
  {
    WRecordsCons(rs[0], rs[1..], [255]);
    assert [rs[0]] + rs[1..] == rs;
  }

  lemma NoEnd(step: (nat, Bytes) -> Loading, r: Record, rest: Bytes, acc: seq<Record>)
    ensures !LoadEntries(step, WRecord(r) + rest, 0, acc).ok
  {
    assert WRecord(r) + rest == [Tag(r.value)] + (WTail(r) + rest);
    ReadByte(Tag(r.value), WTail(r) + rest);
  }

  lemma TooMany(rs: seq<Record>, n: nat, wall: int)
    requires RecordsOk(rs) && n < |rs|
    ensures !ParseEntries(WRecords(rs) + [255], n, wall).ok
  {
    LoaderReads(rs, wall);
    TooFew(Loader(wall), rs, n, wall, []);
  }

  /** An image loads back exactly when the number of its entries fits its field and so does, if it is
      compressed, the size of its payload. */
  lemma ImageExact(rs: seq<Record>, wall: int, z: Zlib)
    requires RecordsOk(rs) && Faithful(z) && Strict(z)
    ensures LoadImage(Image(rs, z), wall, z) == Outcome(true, Alive(rs, wall))
            <==> |rs| < P256(4) && SizeFits(WRecords(rs) + [255], z)
  {
    if !SizeFits(WRecords(rs) + [255], z) {
      PackedFails(rs, wall, z);
    } else if |rs| >= P256(4) {
      CountFails(rs, wall, z);
    } else {
      ImageRoundTrip(rs, wall, z);
    }
  }

  lemma PackedFails(rs: seq<Record>, wall: int, z: Zlib)
    requires Strict(z) && !SizeFits(WRecords(rs) + [255], z)
    ensures !LoadImage(Image(rs, z), wall, z).ok
  {
    ImageReads(rs, wall, z);
    TooLargePacked(Parser(wall), WRecords(rs) + [255], Num(LE(|rs|, 4)), z);
  }

  lemma CountFails(rs: seq<Record>, wall: int, z: Zlib)
    requires RecordsOk(rs) && |rs| >= P256(4) && SizeFits(WRecords(rs) + [255], z)
    ensures !LoadImage(Image(rs, z), wall, z).ok
  {
    ImageReads(rs, wall, z);
    PlainFails(rs, wall, z);
  }

  lemma PlainFails(rs: seq<Record>, wall: int, z: Zlib)
    requires RecordsOk(rs) && |rs| >= P256(4) && SizeFits(WRecords(rs) + [255], z)
    ensures var b := Body(WRecords(rs) + [255], z);
            !LoadPayload(Parser(wall), b.0 % 2 == 1, b.1, Num(LE(|rs|, 4)), z).ok
  {
    CountFits(rs);
    StoredPlain(WRecords(rs) + [255], z);
    NumCut(|rs|, 4);
    TooMany(rs, Num(LE(|rs|, 4)), wall);
  }

  lemma StoredPlain(p: Bytes, z: Zlib)
    requires SizeFits(p, z) && |p| >= P256(4)
    ensures Body(p, z) == (0, p)
  {
  }

  // ---- deadlines across a restart ------------------------------------------------------------------------

  /** `mono_expiry_to_wall`, when the image is written. */
  function ToWall(deadline: int, wall: int, mono: int): int {
    wall + if deadline - mono < 0 then 0 else deadline - mono
  }

  /** `entry_set_ttl` with what is left, when it is loaded. */
  function ToMono(expire: int, wall: int, mono: int): int {
    mono + (expire - wall)
  }

  /** What is left to live shrinks by exactly the wall-clock time between saving and loading, and a
      key is dropped exactly when nothing is left. */
  lemma DeadlineKept(deadline: int, wall: int, mono: int, wall': int, mono': int)
    requires deadline > mono && wall' >= wall
    ensures var at := ToWall(deadline, wall, mono);
            && (at <= wall' <==> deadline - mono <= wall' - wall)
            && ToMono(at, wall', mono') - mono' == (deadline - mono) - (wall' - wall)
            && ToMono(at, wall, mono) == deadline
  {
  }
}
