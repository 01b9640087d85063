/** The request parser of src/protocol/resp.cpp and the frame writer of src/persistence/aof.h. */
module Resp {
  const MAX_MSG := 0x200_0000      // k_max_msg, 32 << 20
  const MAX_INLINE := 0x1_0000     // k_max_inline, 64 * 1024
  const MAX_ARGS := 65536          // k_max_args

  type Args = seq<string>

  // ---- decimal numbers -----------------------------------------------------------

  predicate IsDigit(c: char) { '0' <= c <= '9' }

  predicate AllDigits(s: string) { forall i :: 0 <= i < |s| ==> IsDigit(s[i]) }

  /** The number a string of digits denotes. */
  function Value(s: string): nat
    requires AllDigits(s)
  {
    if s == [] then 0 else 10 * Value(s[..|s| - 1]) + (s[|s| - 1] as int - '0' as int)
  }

  /** `%zu` */
  function Decimal(n: nat): (s: string)
    ensures s != [] && AllDigits(s) && Value(s) == n
  {
    if n < 10 then [('0' as int + n) as char]
    else
      var d := Decimal(n / 10);
      var s := d + [('0' as int + n % 10) as char];
      assert s[..|s| - 1] == d;
      s
  }

  datatype Number = NotNumber | Number(n: nat)

  /** A count or a length: digits only, at most `max`. */
  function ToNumber(s: string, max: nat): Number {
    if AllDigits(s) && Value(s) <= max then Number(Value(s)) else NotNumber
  }

  lemma {:induction false} ValueGrows(s: string, k: nat)
    requires AllDigits(s) && k <= |s|
    ensures Value(s[..k]) <= Value(s)
    decreases |s| - k
  {
    if k < |s| {
      ValueGrows(s, k + 1);
      assert s[..k + 1][..k] == s[..k];
    } else {
      assert s[..k] == s;
    }
  }

  /** The digit loop: it refuses before a multiplication could pass the limit. */
  method ReadNumber(s: string, max: nat) returns (r: Number)
    ensures r == ToNumber(s, max)
  {
    var n, i := 0, 0;
    while i < |s|
      invariant i <= |s| && AllDigits(s[..i]) && n == Value(s[..i]) <= max
    {
      if !IsDigit(s[i]) { return NotNumber; }
      assert s[..i + 1][..i] == s[..i];
      if n > max / 10 || n * 10 + (s[i] as int - '0' as int) > max {
        if AllDigits(s) { ValueGrows(s, i + 1); }
        return NotNumber;
      }
      n := n * 10 + (s[i] as int - '0' as int);
      i := i + 1;
    }
    assert s[..i] == s;
    return Number(n);
  }

  // ---- the grammar ---------------------------------------------------------------

  /** The first index from `i` on that holds c, or the length. */
  function Find(s: string, i: nat, c: char): (r: nat)
    requires i <= |s|
    ensures i <= r <= |s| && c !in s[i..r] && (r < |s| ==> s[r] == c)
    decreases |s| - i
  {
    if i < |s| && s[i] != c then
      var r := Find(s, i + 1, c);
      assert s[i..r] == [s[i]] + s[i + 1..r];
      r
    else i
  }

  datatype Field = Short | Wrong | Field(n: nat, next: nat)

  /** A number up to CR LF, from position i. */
  function Header(s: string, i: nat, max: nat): (f: Field)
    requires i <= |s|
    ensures f.Field? ==> i < f.next <= |s| && f.n <= max
  {
    var e := Find(s, i, '\r');
    if e + 1 >= |s| then Short
    else if s[e + 1] != '\n' then Wrong
    else match ToNumber(s[i..e], max)
      case NotNumber => Wrong
      case Number(n) => Field(n, e + 2)
  }

  datatype Result = More | Bad | Frame(size: nat, cmd: Args)

  datatype Piece = Cut | Broken | Piece(arg: string, next: nat)

  /** One bulk string from position i. */
  function Bulk(s: string, i: nat): (p: Piece)
    requires i <= |s|
    ensures p.Piece? ==> i < p.next <= |s|
  {
    if i >= |s| then Cut
    else if s[i] != '$' then Broken
    else match Header(s, i + 1, MAX_MSG)
      case Short => Cut
      case Wrong => Broken
      case Field(len, at) =>
        if at + len + 2 > |s| then Cut
        else if s[at + len] != '\r' || s[at + len + 1] != '\n' then Broken
        else Piece(s[at..at + len], at + len + 2)
  }

  /** k bulk strings from position i, after the arguments `acc`. */
  function Bulks(s: string, i: nat, k: nat, acc: Args): (r: Result)
    requires i <= |s|
    ensures r.Frame? ==> i <= r.size <= |s|
    decreases k
  {
    if k == 0 then Frame(i, acc)
    else match Bulk(s, i)
      case Cut => More
      case Broken => Bad
      case Piece(arg, next) => Bulks(s, next, k - 1, acc + [arg])
  }

  predicate Blank(c: char) { c == ' ' || c == '\t' }

  /** The end of the run of blanks (or of non-blanks) at i. */
  function RunEnd(s: string, i: nat, end: nat, blank: bool): (r: nat)
    requires i <= end <= |s|
    ensures i <= r <= end && (forall j :: i <= j < r ==> Blank(s[j]) == blank) && (r < end ==> Blank(s[r]) != blank)
    decreases end - i
  {
    if i < end && Blank(s[i]) == blank then RunEnd(s, i + 1, end, blank) else i
  }

  /** The maximal runs of non-blanks of s[i..end]. */
  function Split(s: string, i: nat, end: nat): Args
    requires i <= end <= |s|
    decreases end - i
  {
    var b := RunEnd(s, i, end, true);
    if b >= end then []
    else
      var e := RunEnd(s, b, end, false);
      [s[b..e]] + Split(s, e, end)
  }

  function LineEnd(s: string, eol: nat): (r: nat)
    requires eol <= |s|
    ensures r <= eol
  {
    if eol > 0 && s[eol - 1] == '\r' then eol - 1 else eol
  }

  function Inline(s: string): (r: Result)
    ensures r.Frame? ==> 0 < r.size <= |s|
  {
    var eol := Find(s, 0, '\n');
    if eol > MAX_INLINE then Bad
    else if eol == |s| then More
    else Frame(eol + 1, Split(s, 0, LineEnd(s, eol)))
  }

  /** What the bytes at hand amount to. */
  function Parse(s: string): (r: Result)
    ensures r.Frame? ==> 0 < r.size <= |s|
  {
    if s == [] then More
    else if s[0] != '*' then Inline(s)
    else match Header(s, 1, MAX_ARGS)
      case Short => More
      case Wrong => Bad
      case Field(n, at) => if n < 1 then Bad else Bulks(s, at, n, [])
  }

  /** The conversion of a `size_t` to `int32_t`. */
  function Int32(n: nat): int {
    var m := n % 0x1_0000_0000;
    if m < 0x8000_0000 then m else m - 0x1_0000_0000
  }

  /** The value `parse_resp_request` returns. */
  function Consumed(r: Result): int {
    match r
    case More => 0
    case Bad => -1
    case Frame(n, _) => Int32(n)
  }

  // ---- the code --------------------------------------------------------------------

  method FindByte(s: string, i: nat, c: char) returns (pos: nat)
    requires i <= |s|
    ensures pos == Find(s, i, c)
  {
    pos := i;
    while pos < |s| && s[pos] != c
      invariant i <= pos <= |s| && Find(s, i, c) == Find(s, pos, c)
    {
      pos := pos + 1;
    }
  }

  method SkipRun(s: string, i: nat, end: nat, blank: bool) returns (pos: nat)
    requires i <= end <= |s|
    ensures pos == RunEnd(s, i, end, blank)
  {
    pos := i;
    while pos < end && Blank(s[pos]) == blank
      invariant i <= pos <= end && RunEnd(s, i, end, blank) == RunEnd(s, pos, end, blank)
    {
      pos := pos + 1;
    }
  }

  method SplitLine(s: string, end: nat) returns (cmd: Args)
    requires end <= |s|
    ensures cmd == Split(s, 0, end)
  {
    cmd := [];
    var i := 0;
    while i < end
      invariant i <= end && cmd + Split(s, i, end) == Split(s, 0, end)
    {
      ghost var i0 := i;
      i := SkipRun(s, i, end, true);
      if i >= end { break; }
      var start := i;
      i := SkipRun(s, i, end, false);
      assert Split(s, i0, end) == [s[start..i]] + Split(s, i, end);
      cmd := cmd + [s[start..i]];
    }
  }

  method ReadHeader(s: string, i: nat, max: nat) returns (f: Field)
    requires i <= |s|
    ensures f == Header(s, i, max)
  {
    var pos := FindByte(s, i, '\r');
    if pos + 1 >= |s| { return Short; }
    if s[pos + 1] != '\n' { return Wrong; }
    var n := ReadNumber(s[i..pos], max);
    match n
    case NotNumber => return Wrong;
    case Number(v) => return Field(v, pos + 2);
  }

  method ReadBulk(s: string, i: nat) returns (p: Piece)
    requires i <= |s|
    ensures p == Bulk(s, i)
  {
    if i >= |s| { return Cut; }
    if s[i] != '$' { return Broken; }
    var f := ReadHeader(s, i + 1, MAX_MSG);
    if f.Short? { return Cut; }
    if f.Wrong? { return Broken; }
    var pos := f.next;
    if pos + f.n + 2 > |s| { return Cut; }
    var arg := s[pos..pos + f.n];
    pos := pos + f.n;
    if s[pos] != '\r' || s[pos + 1] != '\n' { return Broken; }
    return Piece(arg, pos + 2);
  }

  method ReadInline(s: string) returns (consumed: int, cmd: Args)
    ensures consumed == Consumed(Inline(s))
    ensures Inline(s).Frame? ==> cmd == Inline(s).cmd
  {
    var eol := FindByte(s, 0, '\n');
    if eol > MAX_INLINE { return -1, []; }
    if eol == |s| { return 0, []; }
    var lineEnd := eol;
    if lineEnd > 0 && s[lineEnd - 1] == '\r' { lineEnd := lineEnd - 1; }
    cmd := SplitLine(s, lineEnd);
    return Int32(eol + 1), cmd;
  }

  method ReadBulks(s: string, start: nat, nargs: nat) returns (consumed: int, cmd: Args)
    requires start <= |s|
    ensures var r := Bulks(s, start, nargs, []); consumed == Consumed(r) && (r.Frame? ==> cmd == r.cmd)
  {
    cmd := [];
    var pos: nat, i: nat := start, 0;
    while i < nargs
      invariant i <= nargs && pos <= |s| && Bulks(s, pos, nargs - i, cmd) == Bulks(s, start, nargs, [])
    {
      var p := ReadBulk(s, pos);
      match p
      case Cut => return 0, cmd;
      case Broken => return -1, cmd;
      case Piece(arg, next) =>
        cmd := cmd + [arg];
        pos := next;
        i := i + 1;
    }
    return Int32(pos), cmd;
  }

  /** `parse_resp_request` */
  method ParseRequest(s: string) returns (consumed: int, cmd: Args)
    ensures consumed == Consumed(Parse(s))
    ensures Parse(s).Frame? ==> cmd == Parse(s).cmd
  {
    if s == [] { return 0, []; }
    if s[0] != '*' {
      consumed, cmd := ReadInline(s);
      return;
    }
    var h := ReadHeader(s, 1, MAX_ARGS);
    if h.Short? { return 0, []; }
    if h.Wrong? || h.n < 1 { return -1, []; }
    consumed, cmd := ReadBulks(s, h.next, h.n);
  }

  // ---- inline requests -------------------------------------------------------------------

  /** s[i..end] without its blanks. */
  function Squeeze(s: string, i: nat, end: nat): string
    requires i <= end <= |s|
    decreases end - i
  {
    if i == end then "" else (if Blank(s[i]) then "" else [s[i]]) + Squeeze(s, i + 1, end)
  }

  function Glue(args: Args): string {
    if args == [] then "" else args[0] + Glue(args[1..])
  }

  lemma {:induction false} SqueezeRun(s: string, i: nat, r: nat, end: nat, blank: bool)
    requires i <= r <= end <= |s| && forall j :: i <= j < r ==> Blank(s[j]) == blank
    ensures Squeeze(s, i, end) == (if blank then "" else s[i..r]) + Squeeze(s, r, end)
    decreases r - i
  {
    if i == r {
      assert s[i..r] == "";
    } else {
      SqueezeRun(s, i + 1, r, end, blank);
      assert Blank(s[i]) == blank;
      if !blank { RunCons(s, i, r, Squeeze(s, r, end)); }
    }
  }

  lemma RunCons(s: string, i: nat, r: nat, rest: string)
    requires i < r <= |s|
    ensures [s[i]] + (s[i + 1..r] + rest) == s[i..r] + rest
  {
    assert s[i..r] == [s[i]] + s[i + 1..r];
  }

  predicate Word(a: string) { a != "" && forall j :: 0 <= j < |a| ==> !Blank(a[j]) }

  /** An inline line is cut into words at its blanks, and nothing else is dropped. */
  lemma {:induction false} SplitIntoWords(s: string, i: nat, end: nat)
    requires i <= end <= |s|
    ensures Glue(Split(s, i, end)) == Squeeze(s, i, end)
    ensures forall k :: 0 <= k < |Split(s, i, end)| ==> Word(Split(s, i, end)[k])
    decreases end - i
  {
    var b := RunEnd(s, i, end, true);
    SqueezeRun(s, i, b, end, true);
    if b < end {
      var e := RunEnd(s, b, end, false);
      SqueezeRun(s, b, e, end, false);
      SplitIntoWords(s, e, end);
      assert Split(s, i, end)[1..] == Split(s, e, end);
    }
  }

  // ---- appended bytes change nothing that is decided -------------------------------

  lemma {:induction false} FindAppend(s: string, t: string, i: nat, c: char)
    requires i <= |s| && Find(s, i, c) < |s|
    ensures Find(s + t, i, c) == Find(s, i, c)
    decreases |s| - i
  {
    if i < |s| && s[i] != c { FindAppend(s, t, i + 1, c); }
  }

  lemma {:induction false} FindFar(s: string, t: string, i: nat, c: char)
    requires i <= |s| && Find(s, i, c) == |s|
    ensures Find(s + t, i, c) >= |s|
    decreases |s| - i
  {
    if i < |s| { FindFar(s, t, i + 1, c); }
  }

  lemma HeaderAppend(s: string, t: string, i: nat, max: nat)
    requires i <= |s| && !Header(s, i, max).Short?
    ensures Header(s + t, i, max) == Header(s, i, max)
  {
    FindAppend(s, t, i, '\r');
    var e := Find(s, i, '\r');
    assert (s + t)[i..e] == s[i..e];
  }

  lemma BulkAppend(s: string, t: string, i: nat)
    requires i <= |s| && !Bulk(s, i).Cut?
    ensures Bulk(s + t, i) == Bulk(s, i)
  {
    if s[i] == '$' {
      HeaderAppend(s, t, i + 1, MAX_MSG);
      var f := Header(s, i + 1, MAX_MSG);
      if f.Field? { assert (s + t)[f.next..f.next + f.n] == s[f.next..f.next + f.n]; }
    }
  }

  lemma {:induction false} BulksAppend(s: string, t: string, i: nat, k: nat, acc: Args)
    requires i <= |s| && !Bulks(s, i, k, acc).More?
    ensures Bulks(s + t, i, k, acc) == Bulks(s, i, k, acc)
    decreases k
  {
    if k > 0 {
      BulkAppend(s, t, i);
      var p := Bulk(s, i);
      if p.Piece? { BulksAppend(s, t, p.next, k - 1, acc + [p.arg]); }
    }
  }

  lemma {:induction false} RunEndAppend(s: string, t: string, i: nat, end: nat, blank: bool)
    requires i <= end <= |s|
    ensures RunEnd(s + t, i, end, blank) == RunEnd(s, i, end, blank)
    decreases end - i
  {
    if i < end && Blank(s[i]) == blank { RunEndAppend(s, t, i + 1, end, blank); }
  }

  lemma {:induction false} SplitAppend(s: string, t: string, i: nat, end: nat)
    requires i <= end <= |s|
    ensures Split(s + t, i, end) == Split(s, i, end)
    decreases end - i
  {
    RunEndAppend(s, t, i, end, true);
    var b := RunEnd(s, i, end, true);
    if b < end {
      RunEndAppend(s, t, b, end, false);
      var e := RunEnd(s, b, end, false);
      SplitAppend(s, t, e, end);
      assert (s + t)[b..e] == s[b..e];
    }
  }

  lemma InlineAppend(s: string, t: string)
    requires !Inline(s).More?
    ensures Inline(s + t) == Inline(s)
  {
    var eol := Find(s, 0, '\n');
    if eol < |s| {
      FindAppend(s, t, 0, '\n');
      SplitAppend(s, t, 0, LineEnd(s, eol));
    } else {
      FindFar(s, t, 0, '\n');
    }
  }

  /** Once a frame or an error is seen, more bytes do not change it. */
  lemma ParseAppend(s: string, t: string)
    requires !Parse(s).More?
    ensures Parse(s + t) == Parse(s)
  {
    if s[0] != '*' {
      InlineAppend(s, t);
    } else {
      HeaderAppend(s, t, 1, MAX_ARGS);
      var h := Header(s, 1, MAX_ARGS);
      if h.Field? && h.n >= 1 { BulksAppend(s, t, h.next, h.n, []); }
    }
  }

  // ---- a frame is made of its own bytes ---------------------------------------------

  lemma {:induction false} FindCut(s: string, t: string, i: nat, c: char)
    requires i <= |s| && Find(s + t, i, c) < |s|
    ensures Find(s, i, c) == Find(s + t, i, c)
    decreases |s| - i
  {
    if s[i] != c { FindCut(s, t, i + 1, c); }
  }

  lemma HeaderCut(s: string, t: string, i: nat, max: nat)
    requires i <= |s| && Header(s + t, i, max).Field? && Header(s + t, i, max).next <= |s|
    ensures !Header(s, i, max).Short?
  {
    FindCut(s, t, i, '\r');
  }

  lemma BulkCut(s: string, t: string, i: nat)
    requires i <= |s| && Bulk(s + t, i).Piece? && Bulk(s + t, i).next <= |s|
    ensures !Bulk(s, i).Cut?
  {
    HeaderCut(s, t, i + 1, MAX_MSG);
    HeaderAppend(s, t, i + 1, MAX_MSG);
  }

  lemma {:induction false} BulksCut(s: string, t: string, i: nat, k: nat, acc: Args)
    requires i <= |s| && Bulks(s + t, i, k, acc).Frame? && Bulks(s + t, i, k, acc).size <= |s|
    ensures !Bulks(s, i, k, acc).More?
    decreases k
  {
    if k > 0 {
      var p := Bulk(s + t, i);
      BulkCut(s, t, i);
      BulkAppend(s, t, i);
      BulksCut(s, t, p.next, k - 1, acc + [p.arg]);
    }
  }

  lemma ParseCut(s: string, t: string)
    requires Parse(s + t).Frame? && Parse(s + t).size <= |s|
    ensures Parse(s) == Parse(s + t)
  {
    assert s != [] && s[0] == (s + t)[0];
    if s[0] != '*' {
      FindCut(s, t, 0, '\n');
    } else {
      HeaderCut(s, t, 1, MAX_ARGS);
      HeaderAppend(s, t, 1, MAX_ARGS);
      var h := Header(s, 1, MAX_ARGS);
      BulksCut(s, t, h.next, h.n, []);
    }
    ParseAppend(s, t);
  }

  // ---- frames -------------------------------------------------------------------------

  /** The bytes of exactly one request. */
  predicate IsFrame(f: string) {
    Parse(f).Frame? && Parse(f).size == |f|
  }

  /** What is consumed is a frame, whatever follows it. */
  lemma ConsumedIsFrame(s: string)
    requires Parse(s).Frame?
    ensures IsFrame(s[..Parse(s).size]) && Parse(s[..Parse(s).size]) == Parse(s)
  {
    var n := Parse(s).size;
    assert s[..n] + s[n..] == s;
    ParseCut(s[..n], s[n..]);
  }

  /** Every strict prefix of a frame asks for more. */
  lemma PrefixNeedsMore(f: string, k: nat)
    requires IsFrame(f) && k < |f|
    ensures Parse(f[..k]) == More
  {
    assert f[..k] + f[k..] == f;
    if !Parse(f[..k]).More? { ParseAppend(f[..k], f[k..]); }
  }

  // ---- the writer -----------------------------------------------------------------------

  const CRLF := "\r\n"

  function EncodeArg(a: string): string {
    "$" + Decimal(|a|) + CRLF + a + CRLF
  }

  function EncodeArgs(args: Args): string {
    if args == [] then "" else EncodeArg(args[0]) + EncodeArgs(args[1..])
  }

  function Encode(args: Args): string {
    "*" + Decimal(|args|) + CRLF + EncodeArgs(args)
  }

  lemma {:induction false} EncodeArgsSnoc(args: Args, a: string)
    ensures EncodeArgs(args + [a]) == EncodeArgs(args) + EncodeArg(a)
  {
    if args == [] {
      assert args + [a] == [a];
    } else {
      EncodeArgsSnoc(args[1..], a);
      assert (args + [a])[1..] == args[1..] + [a];
    }
  }

  lemma NextArg(args: Args, i: nat, head: string)
    requires i < |args|
    ensures head + EncodeArgs(args[..i + 1]) == head + EncodeArgs(args[..i]) + EncodeArg(args[i])
  {
    EncodeArgsSnoc(args[..i], args[i]);
    assert args[..i + 1] == args[..i] + [args[i]];
  }

  /** `aof_encode` appends one frame to the log buffer. */
  method EncodeTo(dst0: string, args: Args) returns (dst: string)
    ensures dst == dst0 + Encode(args)
  {
    dst := dst0 + ("*" + Decimal(|args|) + CRLF);
    ghost var head := dst;
    var i := 0;
    while i < |args|
      invariant i <= |args| && dst == head + EncodeArgs(args[..i])
    {
      NextArg(args, i, head);
      dst := dst + ("$" + Decimal(|args[i]|) + CRLF + args[i] + CRLF);
      i := i + 1;
    }
    assert args[..i] == args;
  }

  /** Within what the parser accepts. */
  predicate Encodable(args: Args) {
    1 <= |args| <= MAX_ARGS && forall i :: 0 <= i < |args| ==> |args[i]| <= MAX_MSG
  }

  lemma {:induction false} FindAt(s: string, i: nat, e: nat, c: char)
    requires i <= e < |s| && s[e] == c && c !in s[i..e]
    ensures Find(s, i, c) == e
    decreases e - i
  {
    if i < e {
      assert s[i] in s[i..e] && s[i + 1..e] == s[i..e][1..];
      FindAt(s, i + 1, e, c);
    }
  }

  /** A written number is read back. */
  lemma HeaderOf(pre: string, n: nat, post: string, max: nat)
    requires n <= max
    ensures Header(pre + Decimal(n) + CRLF + post, |pre|, max) == Field(n, |pre + Decimal(n)| + 2)
  {
    var d := Decimal(n);
    var s := pre + d + CRLF + post;
    var e := |pre + d|;
    assert s[|pre|..e] == d && s[e] == '\r' && s[e + 1] == '\n';
    FindAt(s, |pre|, e, '\r');
  }

  lemma BulkOf(pre: string, a: string, post: string)
    requires |a| <= MAX_MSG
    ensures Bulk(pre + EncodeArg(a) + post, |pre|) == Piece(a, |pre + EncodeArg(a)|)
  {
    var s, d, rest := pre + EncodeArg(a) + post, Decimal(|a|), a + CRLF + post;
    assert s == (pre + "$") + d + CRLF + rest;
    HeaderOf(pre + "$", |a|, rest, MAX_MSG);
    PieceAt((pre + "$") + d + CRLF, a, post);
    assert s == ((pre + "$") + d + CRLF) + a + CRLF + post && s[|pre|] == '$';
  }

  lemma PieceAt(head: string, a: string, post: string)
    ensures var s, at := head + a + CRLF + post, |head|;
            s[at..at + |a|] == a && s[at + |a|] == '\r' && s[at + |a| + 1] == '\n' && |s| >= at + |a| + 2
  {
  }

  lemma Regroup(a: string, b: string, c: string, d: string)
    ensures a + (b + c) + d == a + b + (c + d) && a + (b + c) + d == (a + b) + c + d && a + (b + c) == (a + b) + c
  {
  }

  /** From position i to `end` there are bulk strings holding just these arguments. */
  ghost predicate Pieces(s: string, i: nat, args: Args, end: nat)
    decreases |args|
  {
    && i <= |s|
    && if args == [] then i == end
       else exists n :: Bulk(s, i) == Piece(args[0], n) && Pieces(s, n, args[1..], end)
  }

  lemma {:induction false} PiecesParse(s: string, i: nat, args: Args, end: nat, acc: Args)
    requires Pieces(s, i, args, end)
    ensures Bulks(s, i, |args|, acc) == Frame(end, acc + args)
    decreases |args|
  {
    if args == [] {
      assert acc + args == acc;
    } else {
      var n :| Bulk(s, i) == Piece(args[0], n) && Pieces(s, n, args[1..], end);
      PiecesParse(s, n, args[1..], end, acc + [args[0]]);
      assert acc + [args[0]] + args[1..] == acc + args;
    }
  }

  lemma {:induction false} EncodedPieces(s: string, pre: string, args: Args, post: string)
    requires s == pre + EncodeArgs(args) + post && forall i :: 0 <= i < |args| ==> |args[i]| <= MAX_MSG
    ensures Pieces(s, |pre|, args, |pre + EncodeArgs(args)|)
    decreases |args|
  {
    if args != [] {
      var a, more := args[0], args[1..];
      Regroup(pre, EncodeArg(a), EncodeArgs(more), post);
      BulkOf(pre, a, EncodeArgs(more) + post);
      EncodedPieces(s, pre + EncodeArg(a), more, post);
    }
  }

  /** The parser inverts the writer, whatever bytes follow. */
  lemma ParseEncode(args: Args, rest: string)
    requires Encodable(args)
    ensures Parse(Encode(args) + rest) == Frame(|Encode(args)|, args)
  {
    var s := Encode(args) + rest;
    var tail := EncodeArgs(args) + rest;
    assert s == "*" + Decimal(|args|) + CRLF + tail;
    HeaderOf("*", |args|, tail, MAX_ARGS);
    var pre := "*" + Decimal(|args|) + CRLF;
    assert s == pre + EncodeArgs(args) + rest;
    EncodedPieces(s, pre, args, rest);
    PiecesParse(s, |pre|, args, |pre + EncodeArgs(args)|, []);
    assert [] + args == args;
  }

  lemma EncodeIsFrame(args: Args)
    requires Encodable(args)
    ensures IsFrame(Encode(args))
  {
    ParseEncode(args, "");
    assert Encode(args) + "" == Encode(args);
  }

  /** A written number above the limit is refused. */
  lemma HeaderOver(pre: string, n: nat, post: string, max: nat)
    requires n > max
    ensures Header(pre + Decimal(n) + CRLF + post, |pre|, max) == Wrong
  {
    var d := Decimal(n);
    var s := pre + d + CRLF + post;
    var e := |pre + d|;
    assert s[|pre|..e] == d && s[e] == '\r' && s[e + 1] == '\n';
    FindAt(s, |pre|, e, '\r');
  }

  lemma BulkOver(pre: string, a: string, post: string)
    requires |a| > MAX_MSG
    ensures Bulk(pre + EncodeArg(a) + post, |pre|) == Broken
  {
    var s, rest := pre + EncodeArg(a) + post, a + CRLF + post;
    assert s == (pre + "$") + Decimal(|a|) + CRLF + rest && s[|pre|] == '$';
    HeaderOver(pre + "$", |a|, rest, MAX_MSG);
  }

  lemma {:induction false} BulksOver(s: string, pre: string, args: Args, post: string, i: nat, acc: Args)
    requires s == pre + EncodeArgs(args) + post && i < |args| && |args[i]| > MAX_MSG
    ensures Bulks(s, |pre|, |args|, acc) == Bad
    decreases |args|
  {
    var a, more := args[0], args[1..];
    Regroup(pre, EncodeArg(a), EncodeArgs(more), post);
    if |a| > MAX_MSG {
      BulkOver(pre, a, EncodeArgs(more) + post);
    } else {
      BulkOf(pre, a, EncodeArgs(more) + post);
      BulksOver(s, pre + EncodeArg(a), more, post, i - 1, acc + [a]);
    }
  }

  /** The parser refuses whatever else the writer writes. */
  lemma ParseRefuses(args: Args, rest: string)
    requires !Encodable(args)
    ensures Parse(Encode(args) + rest) == Bad
  {
    var s, tail := Encode(args) + rest, EncodeArgs(args) + rest;
    assert s == "*" + Decimal(|args|) + CRLF + tail;
    if |args| > MAX_ARGS {
      HeaderOver("*", |args|, tail, MAX_ARGS);
    } else {
      HeaderOf("*", |args|, tail, MAX_ARGS);
      if args != [] {
        var pre := "*" + Decimal(|args|) + CRLF;
        var i :| 0 <= i < |args| && |args[i]| > MAX_MSG;
        assert s == pre + EncodeArgs(args) + rest;
        BulksOver(s, pre, args, rest, i, []);
      }
    }
  }

  /** No argument the parser hands on is longer than its limit. */
  predicate ShortArgs(args: Args) { forall a :: a in args ==> |a| <= MAX_MSG }

  lemma {:induction false} SplitShort(s: string, i: nat, end: nat)
    requires i <= end <= |s| && end <= MAX_MSG
    ensures ShortArgs(Split(s, i, end))
    decreases end - i
  {
    var b := RunEnd(s, i, end, true);
    if b < end { SplitShort(s, RunEnd(s, b, end, false), end); }
  }

  lemma {:induction false} BulksShort(s: string, i: nat, k: nat, acc: Args)
    requires i <= |s| && ShortArgs(acc)
    ensures Bulks(s, i, k, acc).Frame? ==> ShortArgs(Bulks(s, i, k, acc).cmd) && |Bulks(s, i, k, acc).cmd| == |acc| + k
    decreases k
  {
    if k > 0 && Bulk(s, i).Piece? { BulksShort(s, Bulk(s, i).next, k - 1, acc + [Bulk(s, i).arg]); }
  }

  lemma ParsedShort(s: string)
    requires Parse(s).Frame?
    ensures ShortArgs(Parse(s).cmd)
  {
    if s[0] != '*' {
      SplitShort(s, 0, LineEnd(s, Find(s, 0, '\n')));
    } else {
      var h := Header(s, 1, MAX_ARGS);
      BulksShort(s, h.next, h.n, []);
    }
  }
}
