/** The byte queue of src/protocol/buffer.cpp and the loops that read requests out of it: a
    connection (src/server/server.cpp) and the log replay (src/persistence/aof.cpp). */
module Requests {
  import opened Resp

  // ---- the byte queue --------------------------------------------------------------

  class Buffer {
    var mem: array<char>
    var begin: nat
    var end: nat

    ghost predicate Valid()
      reads this
    {
      begin <= end <= mem.Length
    }

    ghost function Contents(): string
      requires Valid()
      reads this, mem
    {
      mem[begin..end]
    }

    /** `buf_create` */
    constructor (capacity: nat)
      ensures Valid() && fresh(mem) && mem.Length == capacity && Contents() == ""
    {
      mem := new char[capacity];
      begin, end := 0, 0;
    }

    /** `memmove(buffer_begin, data_begin, data_size)` */
    method Slide()
      requires Valid()
      modifies this, mem
      ensures Valid() && mem == old(mem) && begin == 0 && Contents() == old(Contents())
    {
      var i := 0;
      while i < end - begin
        invariant 0 <= i <= end - begin && begin <= end <= mem.Length && mem == old(mem)
        invariant begin == old(begin) && end == old(end)
        invariant forall j :: 0 <= j < i ==> mem[j] == old(mem[begin + j])
        invariant forall j :: begin + i <= j < end ==> mem[j] == old(mem[j])
      {
        mem[i] := mem[begin + i];
        i := i + 1;
      }
      begin, end := 0, end - begin;
    }

    /** Option B: a block twice as large, doubled until the bytes fit. */
    method Grow(len: nat)
      requires Valid() && begin == 0
      modifies this
      ensures Valid() && fresh(mem) && begin == 0 && Contents() == old(Contents()) && end + len <= mem.Length
    {
      var size := end - begin;
      var newCap := if mem.Length > 0 then mem.Length * 2 else 64;
      while newCap < size + len
        invariant newCap > 0 && newCap >= size
        decreases size + len - newCap
      {
        newCap := newCap * 2;
      }
      var m := new char[newCap];
      forall j | 0 <= j < size { m[j] := mem[begin + j]; }
      mem, begin, end := m, 0, size;
    }

    method Write(data: string)
      requires Valid() && end + |data| <= mem.Length
      modifies this, mem
      ensures Valid() && mem == old(mem) && Contents() == old(Contents()) + data
    {
      forall j | 0 <= j < |data| { mem[end + j] := data[j]; }
      end := end + |data|;
    }

    /** `buf_append` */
    method Append(data: string)
      requires Valid()
      modifies this, mem
      ensures Valid() && (mem == old(mem) || fresh(mem)) && Contents() == old(Contents()) + data
    {
      if mem.Length - end < |data| {
        Slide();
        if mem.Length - end < |data| {
          Grow(|data|);
        }
      }
      Write(data);
    }

    /** `buf_consume` */
    method Consume(n: nat)
      requires Valid() && n <= |Contents()|
      modifies this, mem
      ensures Valid() && mem == old(mem) && Contents() == old(Contents())[n..]
    {
      begin := begin + n;
      if begin == end {
        begin, end := 0, 0;
      } else if begin >= mem.Length / 2 {
        Slide();
      }
    }
  }

  // ---- what a stretch of bytes says ------------------------------------------------

  /** Complete requests, the bytes left over, and whether the stream was refused. */
  datatype Reading = Reading(cmds: seq<Args>, rest: string, refused: bool)

  lemma Int32Below(n: nat)
    ensures Int32(n) <= n && (n < 0x8000_0000 ==> Int32(n) == n)
  {
  }

  /** What was read before, then what is read now. */
  function Then(cmds: seq<Args>, r: Reading): Reading {
    Reading(cmds + r.cmds, r.rest, r.refused)
  }

  lemma ThenThen(a: seq<Args>, b: seq<Args>, r: Reading)
    ensures Then(a, Then(b, r)) == Then(a + b, r) && Then([], r) == r
  {
    assert a + (b + r.cmds) == (a + b) + r.cmds;
  }

  /** How many bytes the next request takes; nothing or less when there is none. */
  function Next(s: string): (c: int)
    ensures c <= |s| && (c > 0 ==> Parse(s).Frame?)
  {
    var p := Parse(s);
    if p.Frame? then Int32Below(p.size); Int32(p.size) else Consumed(p)
  }

  function NextCmd(s: string): Args {
    if Parse(s).Frame? then Parse(s).cmd else []
  }

  lemma NextAppend(s: string, t: string)
    requires Next(s) != 0
    ensures Next(s + t) == Next(s) && NextCmd(s + t) == NextCmd(s)
  {
    ParseAppend(s, t);
  }

  /** Reads requests until more bytes are needed or the parser gives up. */
  function Read(s: string): (r: Reading)
    ensures |r.rest| <= |s|
    decreases |s|
  {
    var c := Next(s);
    if c == 0 then Reading([], s, false)
    else if c < 0 then Reading([], s, true)
    else Then([NextCmd(s)], Read(s[c..]))
  }

  /** Reading goes on until the parser wants more or gives up, and it is refused exactly if it gives up. */
  lemma {:induction false} ReadStops(s: string)
    ensures Next(Read(s).rest) <= 0 && (Read(s).refused <==> Next(Read(s).rest) < 0)
    decreases |s|
  {
    hide Parse, Next;
    if Next(s) > 0 { ReadStops(s[Next(s)..]); }
  }

  /** Bytes that come later only add to what was read. */
  lemma {:induction false} ReadAppend(s: string, t: string)
    ensures var r := Read(s);
            if r.refused then Read(s + t).cmds == r.cmds && Read(s + t).refused
            else Read(s + t) == Then(r.cmds, Read(r.rest + t))
    decreases |s|
  {
    hide Parse;
    var c := Next(s);
    if c == 0 {
      ThenThen([], [], Read(s + t));
    } else {
      NextAppend(s, t);
      if c > 0 {
        assert (s + t)[c..] == s[c..] + t;
        ReadAppend(s[c..], t);
        var r := Read(s[c..]);
        ThenThen([NextCmd(s)], r.cmds, Read(r.rest + t));
      }
    }
  }

  function Concat(ss: seq<string>): string {
    if ss == [] then "" else Concat(ss[..|ss| - 1]) + ss[|ss| - 1]
  }

  // ---- a connection ------------------------------------------------------------------

  const MAX_INCOMING := 0x400_0000     // k_max_incoming, 2 * k_max_msg

  /** A connection: what it has read so far, and whether it sent more at once than it may. */
  datatype Line = Line(read: Reading, overrun: bool)

  /** One read event: the bytes are appended, then requests are taken until none is complete.  A queue
      over the limit closes the connection before any of it is read. */
  function Feed(st: Line, burst: string): Line {
    if st.read.refused || st.overrun then st
    else if |st.read.rest| + |burst| > MAX_INCOMING then st.(overrun := true)
    else Line(Then(st.read.cmds, Read(st.read.rest + burst)), false)
  }

  function Session(bursts: seq<string>): Line {
    if bursts == [] then Line(Reading([], "", false), false)
    else Feed(Session(bursts[..|bursts| - 1]), bursts[|bursts| - 1])
  }

  /** What a connection runs is what its bytes say, all of it unless it sent too much at once. */
  lemma {:induction false} SessionIsRead(bursts: seq<string>)
    ensures var st, r := Session(bursts), Read(Concat(bursts));
            && st.read.cmds <= r.cmds
            && (!st.overrun ==> st.read.cmds == r.cmds && st.read.refused == r.refused)
            && (!st.overrun && !st.read.refused ==> st.read.rest == r.rest)
  {
    if bursts != [] {
      var front, last := bursts[..|bursts| - 1], bursts[|bursts| - 1];
      SessionIsRead(front);
      ReadAppend(Concat(front), last);
    }
  }

  /** The commands run do not depend on how the bytes were cut into read events, as long as none of them
      sends too much at once. */
  lemma CutsDoNotMatter(a: seq<string>, b: seq<string>)
    requires Concat(a) == Concat(b) && !Session(a).overrun
    ensures Session(b).read.cmds <= Session(a).read.cmds
    ensures !Session(b).overrun ==>
              Session(a).read.cmds == Session(b).read.cmds && Session(a).read.refused == Session(b).read.refused
  {
    SessionIsRead(a);
    SessionIsRead(b);
  }

  /** Sent too much at once, nothing runs; sent one frame at a time, everything does. */
  lemma CutsMatter(fs: seq<string>)
    requires Frames(fs) && |Concat(fs)| > MAX_INCOMING && forall i :: 0 <= i < |fs| ==> |fs[i]| <= MAX_INCOMING
    ensures Concat([Concat(fs)]) == Concat(fs)
    ensures Session([Concat(fs)]).overrun && Session([Concat(fs)]).read.cmds == []
    ensures Session(fs) == Line(Reading(Commands(fs), "", false), false)
  {
    var s := Concat(fs);
    assert [s][..0] == [];
    assert Concat([s]) == Concat([]) + s;
    OneAtATime(fs);
  }

  lemma {:induction false} OneAtATime(fs: seq<string>)
    requires Frames(fs) && forall i :: 0 <= i < |fs| ==> |fs[i]| <= MAX_INCOMING
    ensures Session(fs) == Line(Reading(Commands(fs), "", false), false)
  {
    if fs != [] {
      var front, f := fs[..|fs| - 1], fs[|fs| - 1];
      OneAtATime(front);
      CommandsSnoc(fs);
      FrameNext(f);
      ReadFrame(f, "");
      assert f + "" == f && "" + f == f && Read("") == Reading([], "", false);
      assert [NextCmd(f)] + [] == [NextCmd(f)];
    }
  }

  method TryRequest(data: string) returns (consumed: int, cmd: Args)
    ensures consumed == Next(data) && (consumed > 0 ==> cmd == NextCmd(data))
  {
    consumed, cmd := ParseRequest(data);
  }

  /** `handle_read` on a client connection: the chunks that can be read are appended, unless the queue
      passes its limit, and then requests are taken. */
  method HandleRead(buf: Buffer, chunks: seq<string>) returns (cmds: seq<Args>, refused: bool, overrun: bool)
    requires buf.Valid() && chunks != []
    modifies buf, buf.mem
    ensures buf.Valid() && (buf.mem == old(buf.mem) || fresh(buf.mem))
    ensures overrun <==> |old(buf.Contents())| + |Concat(chunks)| > MAX_INCOMING
    ensures overrun ==> cmds == [] && !refused
    ensures !overrun ==> Reading(cmds, buf.Contents(), refused) == Read(old(buf.Contents()) + Concat(chunks))
  {
    overrun := Gather(buf, chunks);
    if overrun { return [], false, true; }
    cmds, refused := TakeRequests(buf);
  }

  method Gather(buf: Buffer, chunks: seq<string>) returns (overrun: bool)
    requires buf.Valid() && chunks != []
    modifies buf, buf.mem
    ensures buf.Valid() && (buf.mem == old(buf.mem) || fresh(buf.mem))
    ensures overrun <==> |old(buf.Contents())| + |Concat(chunks)| > MAX_INCOMING
    ensures !overrun ==> buf.Contents() == old(buf.Contents()) + Concat(chunks)
  {
    var i := 0;
    ghost var s := buf.Contents();
    assert s + Concat(chunks[..0]) == s;
    while i < |chunks|
      invariant i <= |chunks| && buf.Valid() && (buf.mem == old(buf.mem) || fresh(buf.mem))
      invariant buf.Contents() == s + Concat(chunks[..i]) && (i > 0 ==> |buf.Contents()| <= MAX_INCOMING)
    {
      ConcatNext(chunks, i, s);
      ConcatGrows(chunks, i + 1);
      buf.Append(chunks[i]);
      i := i + 1;
      if buf.end - buf.begin > MAX_INCOMING { return true; }
    }
    assert chunks[..i] == chunks;
    return false;
  }

  lemma ConcatNext(ss: seq<string>, i: nat, s: string)
    requires i < |ss|
    ensures s + Concat(ss[..i + 1]) == s + Concat(ss[..i]) + ss[i]
  {
    assert ss[..i + 1][..i] == ss[..i];
  }

  lemma {:induction false} ConcatGrows(ss: seq<string>, i: nat)
    requires i <= |ss|
    ensures |Concat(ss[..i])| <= |Concat(ss)|
  {
    if i == |ss| {
      assert ss[..i] == ss;
    } else {
      ConcatGrows(ss[..|ss| - 1], i);
      assert ss[..|ss| - 1][..i] == ss[..i];
    }
  }

  /** `while (try_one_request(conn)) {}`; the commands are handed to the dispatcher in order, where an
      empty one is skipped. */
  method TakeRequests(buf: Buffer) returns (cmds: seq<Args>, refused: bool)
    requires buf.Valid()
    modifies buf, buf.mem
    ensures buf.Valid() && buf.mem == old(buf.mem)
    ensures Reading(cmds, buf.Contents(), refused) == Read(old(buf.Contents()))
  {
    ghost var s := buf.Contents();
    ThenThen([], [], Read(s));
    cmds := [];
    while true
      invariant buf.Valid() && buf.mem == old(buf.mem)
      invariant Read(s) == Then(cmds, Read(buf.Contents()))
      decreases |buf.Contents()|
    {
      var consumed, cmd := TryRequest(buf.mem[buf.begin..buf.end]);
      if consumed == 0 { return cmds, false; }
      if consumed < 0 { return cmds, true; }
      ThenThen(cmds, [cmd], Read(buf.Contents()[consumed..]));
      buf.Consume(consumed);
      cmds := cmds + [cmd];
    }
  }

  // ---- the log -------------------------------------------------------------------------

  /** The offset up to which the log is good: everything that was read. */
  function Good(s: string): (n: nat)
    ensures n <= |s|
  {
    |s| - |Read(s).rest|
  }

  /** `aof_load`, the replay loop: the commands dispatched and `good_offset`. */
  method LoadLog(log: string) returns (cmds: seq<Args>, good: nat)
    ensures cmds == Read(log).cmds && good == Good(log)
  {
    var buf := new Buffer(|log| + 1);
    buf.Append(log);
    assert buf.Contents() == log;
    cmds, good := [], 0;
    ThenThen([], [], Read(log));
    while buf.end - buf.begin > 0
      invariant buf.Valid() && fresh(buf) && fresh(buf.mem) && good + |buf.Contents()| == |log|
      invariant Read(log) == Then(cmds, Read(buf.Contents()))
      decreases |buf.Contents()|
    {
      var consumed, cmd := TryRequest(buf.mem[buf.begin..buf.end]);
      if consumed <= 0 { break; }
      ThenThen(cmds, [cmd], Read(buf.Contents()[consumed..]));
      buf.Consume(consumed);
      good := good + consumed;
      cmds := cmds + [cmd];
    }
  }

  /** Frames one after another are read as their commands, and then the tail is. */
  lemma {:induction false} ReadFrames(fs: seq<string>, tail: string)
    requires Frames(fs)
    ensures Read(Concat(fs) + tail) == Then(Commands(fs), Read(tail))
    decreases |fs|
  {
    hide Parse;
    if fs == [] {
      assert Concat(fs) + tail == tail;
      ThenThen([], [], Read(tail));
    } else {
      var front, f := fs[..|fs| - 1], fs[|fs| - 1];
      CommandsSnoc(fs);
      assert Concat(fs) + tail == Concat(front) + (f + tail);
      ReadFrames(front, f + tail);
      FrameNext(f);
      ReadFrame(f, tail);
      ThenThen(Commands(front), [NextCmd(f)], Read(tail));
    }
  }

  lemma CommandsSnoc(fs: seq<string>)
    requires Frames(fs) && fs != []
    ensures Frames(fs[..|fs| - 1]) && Commands(fs) == Commands(fs[..|fs| - 1]) + [NextCmd(fs[|fs| - 1])]
  {
  }

  lemma FrameNext(f: string)
    requires IsFrame(f) && |f| < 0x8000_0000
    ensures Next(f) == |f|
  {
    Int32Below(|f|);
  }

  lemma ReadFrame(f: string, tail: string)
    requires Next(f) == |f| > 0
    ensures Read(f + tail) == Then([NextCmd(f)], Read(tail))
  {
    hide Parse;
    NextAppend(f, tail);
    assert (f + tail)[|f|..] == tail;
  }

  /** A log of complete frames and a strict prefix of one more: exactly the complete commands are
      replayed, and the file is cut back to exactly their bytes. */
  lemma LoadTorn(fs: seq<string>, last: string, k: nat)
    requires Frames(fs) && IsFrame(last) && k < |last|
    ensures var log := Concat(fs) + last[..k]; Read(log).cmds == Commands(fs) && Good(log) == |Concat(fs)|
  {
    hide Parse;
    PrefixNeedsMore(last, k);
    ReadFrames(fs, last[..k]);
  }

  /** What the writer writes and the parser reads back. */
  predicate Readable(args: Args) {
    Encodable(args) && |Encode(args)| < 0x8000_0000
  }

  /** A frame is read back, all of it and nothing more, exactly when it has no more arguments than the
      parser takes, none of them is too long, and its size does not wrap in an `int32_t`. */
  lemma WriterExact(args: Args, rest: string)
    ensures var s := Encode(args) + rest; Next(s) == |Encode(args)| && NextCmd(s) == args <==> Readable(args)
    ensures !Encodable(args) ==> Next(Encode(args) + rest) == -1
  {
    if Encodable(args) {
      ParseEncode(args, rest);
      Int32Below(|Encode(args)|);
    } else {
      ParseRefuses(args, rest);
    }
  }

  /** A frame that is so large that its size comes out positive again. */
  predicate WrapsAround(args: Args) {
    Encodable(args) && |Encode(args)| > 0x1_0000_0000
  }

  lemma TooLarge(args: Args, rest: string)
    requires !Readable(args) && !WrapsAround(args)
    ensures Next(Encode(args) + rest) <= 0
  {
    if Encodable(args) { ParseEncode(args, rest); } else { ParseRefuses(args, rest); }
  }

  /** The log from such a frame on is lost: what was written before is replayed, and the file is cut
      there. */
  lemma LoadStops(fs: seq<string>, args: Args, more: string)
    requires Frames(fs) && !Readable(args) && !WrapsAround(args)
    ensures var log := Concat(fs) + (Encode(args) + more); Read(log).cmds == Commands(fs) && Good(log) == |Concat(fs)|
  {
    hide Parse;
    TooLarge(args, more);
    ReadFrames(fs, Encode(args) + more);
    assert Commands(fs) + [] == Commands(fs);
  }

  /** The bytes of a log. */
  function Written(frames: seq<Args>): string {
    if frames == [] then "" else Encode(frames[0]) + Written(frames[1..])
  }

  lemma ReadOne(f: Args, tail: string)
    requires Readable(f)
    ensures Read(Encode(f) + tail) == Then([f], Read(tail))
  {
    hide Parse;
    WriterExact(f, "");
    assert Encode(f) + "" == Encode(f);
    ReadFrame(Encode(f), tail);
  }

  /** A reader that takes each of these frames, whatever follows, takes them all. */
  lemma {:induction false} ReadsWritten(read: string -> Reading, frames: seq<Args>, tail: string)
    requires forall f, t {:trigger read(Encode(f) + t)} :: f in frames ==> read(Encode(f) + t) == Then([f], read(t))
    ensures read(Written(frames) + tail) == Then(frames, read(tail))
    decreases |frames|
  {
    hide Encode;
    if frames == [] {
      assert Written(frames) + tail == tail;
      ThenThen([], [], read(tail));
    } else {
      var f, more := frames[0], frames[1..];
      ReadsWritten(read, more, tail);
      assert f in frames && Written(frames) + tail == Encode(f) + (Written(more) + tail);
      ThenThen([f], more, read(tail));
      assert [f] + more == frames;
    }
  }

  /** A log of readable frames is read back as it was written. */
  lemma ReadWritten(frames: seq<Args>, tail: string)
    requires forall f :: f in frames ==> Readable(f)
    ensures Read(Written(frames) + tail) == Then(frames, Read(tail))
  {
    hide Parse;
    forall f, t | f in frames ensures Read(Encode(f) + t) == Then([f], Read(t)) { ReadOne(f, t); }
    ReadsWritten(Read, frames, tail);
  }

  /** Every request that is read lies, all of it, in the first n bytes.  It does unless its size wraps in
      an `int32_t`. */
  ghost predicate Within(s: string, n: int)
    decreases |s|
  {
    Next(s) > 0 ==> Parse(s).size <= n && Within(s[Next(s)..], n - Next(s))
  }

  /** Loading what a load of the log left behind replays the same commands and cuts nothing. */
  ghost predicate LoadsAgain(log: string) {
    var kept := log[..Good(log)];
    Read(kept).cmds == Read(log).cmds && Good(kept) == |kept|
  }

  /** It does exactly when every request that was read lies within what is left. */
  lemma {:induction false} LoadAgain(log: string)
    ensures LoadsAgain(log) <==> Within(log, Good(log))
    decreases |log|
  {
    hide *;
    if Next(log) > 0 {
      LoadAgain(log[Next(log)..]);
      AgainStep(log);
      WithinStep(log, Next(log), Good(log));
    } else {
      AgainNone(log);
    }
  }

  lemma AgainNone(s: string)
    requires Next(s) <= 0
    ensures LoadsAgain(s) && Within(s, Good(s))
  {
    hide Parse;
    assert s[..0] == "";
  }

  lemma WithinStep(s: string, c: nat, n: nat)
    requires c == Next(s) > 0 && n == Good(s)
    ensures n - c == Good(s[c..]) && (Within(s, n) <==> Parse(s).size <= n && Within(s[c..], n - c))
  {
    hide Parse;
    GoodStep(s, c);
  }

  lemma GoodStep(s: string, c: nat)
    requires c == Next(s) > 0
    ensures Good(s) - c == Good(s[c..])
  {
    hide Parse;
    assert Read(s) == Then([NextCmd(s)], Read(s[c..]));
  }

  lemma AgainStep(log: string)
    requires Next(log) > 0
    ensures LoadsAgain(log) <==> Parse(log).size <= Good(log) && LoadsAgain(log[Next(log)..])
  {
    hide Parse;
    if Parse(log).size <= Good(log) {
      AgainWhole(log, Next(log), Good(log));
    } else {
      ReadCut(log, Good(log));
    }
  }

  lemma AgainWhole(log: string, c: nat, n: nat)
    requires c == Next(log) > 0 && n == Good(log) && Parse(log).size <= n
    ensures LoadsAgain(log) <==> LoadsAgain(log[c..])
  {
    hide Parse;
    ReadWhole(log, n);
    assert Read(log) == Then([NextCmd(log)], Read(log[c..]));
    SameThen(NextCmd(log), Read(log[c..]), Read(log[c..][..n - c]), Read(log), Read(log[..n]));
    assert |log[..n]| == n && |log[c..][..n - c]| == n - c && n - c == Good(log[c..]);
  }

  lemma SameThen(cmd: Args, a: Reading, b: Reading, a': Reading, b': Reading)
    requires a' == Then([cmd], a) && b' == Then([cmd], b)
    ensures a'.cmds == b'.cmds <==> a.cmds == b.cmds
  {
    assert a'.cmds[1..] == a.cmds && b'.cmds[1..] == b.cmds;
  }

  /** The first request lies within the first n bytes: it is read from them. */
  lemma ReadWhole(s: string, n: nat)
    requires Next(s) > 0 && Parse(s).size <= n <= |s|
    ensures Next(s) <= n && Read(s[..n]) == Then([NextCmd(s)], Read(s[Next(s)..][..n - Next(s)]))
    ensures Good(s[..n]) == Next(s) + Good(s[Next(s)..][..n - Next(s)])
  {
    hide Parse;
    assert s == s[..n] + s[n..];
    ParseCut(s[..n], s[n..]);
    assert s[..n][Next(s)..] == s[Next(s)..][..n - Next(s)];
  }

  /** It does not: nothing is read from them. */
  lemma ReadCut(s: string, n: nat)
    requires Next(s) > 0 && n < Parse(s).size
    ensures n <= |s| && Read(s[..n]).cmds == [] && Read(s).cmds != []
  {
    hide Parse;
    ConsumedIsFrame(s);
    PrefixNeedsMore(s[..Parse(s).size], n);
    assert s[..Parse(s).size][..n] == s[..n];
  }

  /** No request of the log is so long that its size wraps. */
  ghost predicate SmallRequests(s: string)
    decreases |s|
  {
    Next(s) > 0 ==> Next(s) == Parse(s).size && SmallRequests(s[Next(s)..])
  }

  lemma {:induction false} SmallIsWithin(s: string)
    requires SmallRequests(s)
    ensures Within(s, Good(s))
    decreases |s|
  {
    hide Parse;
    if Next(s) > 0 { SmallIsWithin(s[Next(s)..]); }
  }

  // ---- the file: an image before the log ---------------------------------------------------------

  const PREAMBLE := "MYAOFRDB"

  /** Eight bytes, lowest first. */
  function Length(b: string): nat {
    if b == "" then 0 else (b[0] as int) % 256 + 256 * Length(b[1..])
  }

  datatype File = Torn | Plain(at: nat)

  /** Where the log of a file begins: after the image, if there is one and it loads. */
  function LogStart(raw: string, load: string -> bool): File {
    if |raw| < 16 || raw[..8] != PREAMBLE then Plain(0)
    else
      var n := Length(raw[8..16]);
      if n > |raw| - 16 || !load(raw[16..16 + n]) then Torn else Plain(16 + n)
  }

  /** The preamble of `aof_load`. */
  method FindLog(raw: string, load: string -> bool) returns (f: File)
    ensures f == LogStart(raw, load)
  {
    if |raw| < 16 || raw[..8] != PREAMBLE { return Plain(0); }
    var n := Length(raw[8..16]);
    if n > |raw| - 16 { return Torn; }
    if !load(raw[16..16 + n]) { return Torn; }
    return Plain(16 + n);
  }

  /** A number as k bytes, lowest first. */
  function LengthBytes(n: nat, k: nat): (b: string)
    ensures |b| == k
  {
    if k == 0 then "" else [(n % 256) as char] + LengthBytes(n / 256, k - 1)
  }

  function Pow256(k: nat): nat { if k == 0 then 1 else 256 * Pow256(k - 1) }

  lemma {:induction false} LengthRead(n: nat, k: nat)
    requires n < Pow256(k)
    ensures Length(LengthBytes(n, k)) == n
  {
    if k > 0 {
      var b := LengthBytes(n, k);
      assert b[1..] == LengthBytes(n / 256, k - 1);
      LengthRead(n / 256, k - 1);
    }
  }

  /** The file `rdb_build_aof_preamble` begins, with a log behind the image. */
  function FileOf(image: string, log: string): string {
    PREAMBLE + LengthBytes(|image|, 8) + image + log
  }

  /** A written file is taken apart as it was put together, if its image loads; cut anywhere within the
      image, it does not load. */
  lemma FileReads(image: string, log: string, load: string -> bool, n: nat)
    requires |image| < Pow256(8)
    ensures var f := FileOf(image, log);
            && |f| >= 16 + |image| && f[16 + |image|..] == log
            && LogStart(f, load) == (if load(image) then Plain(16 + |image|) else Torn)
            && (16 <= n < 16 + |image| ==> LogStart(f[..n], load).Torn?)
  {
    var f := FileOf(image, log);
    LengthRead(|image|, 8);
    assert f[..8] == PREAMBLE && f[8..16] == LengthBytes(|image|, 8) && f[16..16 + |image|] == image;
    assert f[16 + |image|..] == log;
    if 16 <= n < 16 + |image| { assert f[..n][..8] == f[..8] && f[..n][8..16] == f[8..16]; }
  }

  lemma LogWithin(raw: string, load: string -> bool)
    ensures LogStart(raw, load).Plain? ==> LogStart(raw, load).at <= |raw|
  {
  }

  /** `aof_load` of a file that is there: whether it loads, the commands replayed, and the size the file
      is cut to.  `clean` says whether commands run without an error, one after another. */
  method LoadFile(raw: string, load: string -> bool, clean: seq<Args> -> bool)
    returns (ok: bool, cmds: seq<Args>, size: nat)
    requires clean([])
    ensures ok <==> LogStart(raw, load).Plain? && clean(cmds)
    ensures LogStart(raw, load).Torn? ==> cmds == [] && size == |raw|
    ensures LogStart(raw, load).Plain? ==>
              var at := LogStart(raw, load).at;
              at <= |raw| && cmds == Read(raw[at..]).cmds && size == at + Good(raw[at..])
  {
    LogWithin(raw, load);
    var f := FindLog(raw, load);
    if f.Torn? { return false, [], |raw|; }
    var good;
    cmds, good := LoadLog(raw[f.at..]);
    return clean(cmds), cmds, f.at + good;
  }

  lemma KeptStart(raw: string, load: string -> bool, n: nat)
    requires LogStart(raw, load).Plain? && LogStart(raw, load).at + n <= |raw|
    ensures var at := LogStart(raw, load).at;
            LogStart(raw[..at + n], load) == Plain(at) && raw[..at + n][at..] == raw[at..][..n]
  {
    var at := LogStart(raw, load).at;
    var kept := raw[..at + n];
    assert kept[at..] == raw[at..][..n];
    if at > 0 {
      assert kept[..8] == raw[..8] && kept[8..16] == raw[8..16] && kept[16..at] == raw[16..at];
    } else if |kept| >= 16 {
      assert kept[..8] == raw[..8];
    }
  }

  /** Cutting the file back keeps the image, and the log behind it loads again as the first time, exactly
      when every request that was read lies within what is left. */
  lemma FileAgain(raw: string, load: string -> bool)
    requires LogStart(raw, load).Plain?
    ensures LogStart(raw, load).at <= |raw|
    ensures var at := LogStart(raw, load).at;
            var log := raw[at..];
            var kept := raw[..at + Good(log)];
            && LogStart(kept, load) == Plain(at)
            && kept[at..] == log[..Good(log)] && (LoadsAgain(log) <==> Within(log, Good(log)))
  {
    hide *;
    LogWithin(raw, load);
    var log := raw[LogStart(raw, load).at..];
    KeptStart(raw, load, Good(log));
    LoadAgain(log);
  }

  /** A request is read from its own bytes. */
  lemma TakenAlone(s: string)
    requires Next(s) > 0 && Next(s) == Parse(s).size
    ensures Next(s[..Next(s)]) == Next(s) && NextCmd(s[..Next(s)]) == NextCmd(s)
  {
    ConsumedIsFrame(s);
  }

  ghost predicate Frames(fs: seq<string>) {
    forall i :: 0 <= i < |fs| ==> IsFrame(fs[i]) && |fs[i]| < 0x8000_0000
  }

  ghost function Commands(fs: seq<string>): seq<Args>
    requires Frames(fs)
  {
    seq(|fs|, i requires 0 <= i < |fs| => Parse(fs[i]).cmd)
  }

  // ---- a stream of whole frames ------------------------------------------------------------

  /** The bytes are complete requests one after another, none so long that its size wraps. */
  ghost predicate Framed(s: string)
    decreases |s|
  {
    s == "" || (Next(s) > 0 && Next(s) == Parse(s).size && Framed(s[Next(s)..]))
  }

  lemma {:induction false} FramedJoin(a: string, b: string)
    requires Framed(a) && Framed(b)
    ensures Framed(a + b)
    decreases |a|
  {
    hide Parse;
    if a == "" {
      assert a + b == b;
    } else {
      NextJoin(a, b);
      FramedJoin(a[Next(a)..], b);
    }
  }

  /** A stream and a prefix of it that both end between requests: so does what lies between. */
  lemma {:induction false} FramedRest(a: string, b: string)
    requires Framed(a) && Framed(a + b)
    ensures Framed(b)
    decreases |a|
  {
    hide Parse;
    if a == "" {
      assert a + b == b;
    } else {
      NextJoin(a, b);
      FramedRest(a[Next(a)..], b);
    }
  }

  lemma NextJoin(a: string, b: string)
    requires Next(a) > 0 && Next(a) == Parse(a).size
    ensures Next(a + b) == Next(a) && Parse(a + b).size == Next(a + b) && (a + b)[Next(a)..] == a[Next(a)..] + b
  {
    hide Parse;
    ParseAppend(a, b);
  }

  lemma FrameFramed(f: string)
    requires IsFrame(f) && |f| < 0x8000_0000
    ensures Framed(f)
  {
    FrameNext(f);
  }

  /** The next request of a framed stream can be taken, seen from any arrived part that decides it. */
  lemma FramedTake(s: string, k: nat)
    requires Framed(s) && k <= |s|
    ensures Next(s[..k]) >= 0
    ensures Next(s[..k]) > 0 ==> Next(s[..k]) == Next(s) && Framed(s[..Next(s)]) && Framed(s[Next(s)..])
  {
    assert s[..k] + s[k..] == s;
    if Next(s[..k]) != 0 {
      NextAppend(s[..k], s[k..]);
      TakenAlone(s);
      ConsumedIsFrame(s);
      FrameFramed(s[..Next(s)]);
    }
  }
}
