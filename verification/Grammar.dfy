/** What a request is, said without the parser: the bytes it accepts are exactly these. */
module Grammar {
  import opened Common
  import opened Resp

  const LINE_END := "\r\n"

  /** Digits from i on, then CR LF up to `next`. */
  ghost predicate NumberAt(s: string, i: nat, n: nat, next: nat) {
    && i + 2 <= next <= |s| && s[next - 2..next] == LINE_END
    && AllDigits(s[i..next - 2]) && Value(s[i..next - 2]) == n
  }

  /** `$`, the length, the argument and CR LF. */
  ghost predicate ArgAt(s: string, i: nat, a: string, next: nat) {
    && i < |s| && s[i] == '$' && |a| <= MAX_MSG && next >= |a| + 2
    && NumberAt(s, i + 1, |a|, next - |a| - 2)
    && next <= |s| && s[next - |a| - 2..next - 2] == a && s[next - 2..next] == LINE_END
  }

  ghost predicate ArgsAt(s: string, i: nat, args: Args, end: nat)
    decreases |args|
  {
    if args == [] then end == i else exists next :: ArgAt(s, i, args[0], next) && ArgsAt(s, next, args[1..], end)
  }

  /** `*`, the number of arguments, and just as many. */
  ghost predicate FrameAt(s: string, args: Args, end: nat) {
    && s != "" && s[0] == '*' && 1 <= |args| <= MAX_ARGS
    && exists at :: NumberAt(s, 1, |args|, at) && ArgsAt(s, at, args, end)
  }

  // ---- numbers and arguments ---------------------------------------------------------------------

  lemma {:induction false} NoReturn(d: string)
    requires AllDigits(d)
    ensures '\r' !in d
  {
    forall j | 0 <= j < |d| ensures d[j] != '\r' { assert IsDigit(d[j]); }
  }

  lemma NumberTaken(s: string, i: nat, max: nat, n: nat, next: nat)
    requires NumberAt(s, i, n, next) && n <= max
    ensures Header(s, i, max) == Field(n, next)
  {
    hide Value, AllDigits;
    var e := next - 2;
    assert s[e] == s[e..next][0] && s[e + 1] == s[e..next][1];
    NoReturn(s[i..e]);
    FindAt(s, i, e, '\r');
  }

  lemma NumberFound(s: string, i: nat, max: nat)
    requires i <= |s| && Header(s, i, max).Field?
    ensures var f := Header(s, i, max); NumberAt(s, i, f.n, f.next) && f.n <= max
  {
    hide Value, AllDigits;
    var next := Header(s, i, max).next;
    assert s[next - 2..next] == LINE_END;
  }

  lemma ArgRead(s: string, i: nat, a: string, next: nat)
    requires i <= |s|
    ensures ArgAt(s, i, a, next) <==> Bulk(s, i) == Piece(a, next)
  {
    if i < |s| && s[i] == '$' {
      if ArgAt(s, i, a, next) {
        NumberTaken(s, i + 1, MAX_MSG, |a|, next - |a| - 2);
        assert s[next - 2] == s[next - 2..next][0] && s[next - 1] == s[next - 2..next][1];
      }
      if Bulk(s, i) == Piece(a, next) {
        NumberFound(s, i + 1, MAX_MSG);
        assert s[next - 2..next] == LINE_END;
      }
    }
  }

  lemma {:induction false} ArgsTaken(s: string, i: nat, acc: Args, args: Args, end: nat)
    requires i <= |s| && ArgsAt(s, i, args, end)
    ensures Bulks(s, i, |args|, acc) == Frame(end, acc + args)
    decreases |args|
  {
    hide Bulk, ArgAt;
    if args == [] {
      assert acc + args == acc;
    } else {
      var next :| ArgAt(s, i, args[0], next) && ArgsAt(s, next, args[1..], end);
      ArgRead(s, i, args[0], next);
      ArgsTaken(s, next, acc + [args[0]], args[1..], end);
      assert acc + [args[0]] + args[1..] == acc + args;
    }
  }

  lemma {:induction false} ArgsFound(s: string, i: nat, k: nat, acc: Args) returns (args: Args)
    requires i <= |s| && Bulks(s, i, k, acc).Frame?
    ensures var r := Bulks(s, i, k, acc); r.cmd == acc + args && |args| == k && ArgsAt(s, i, args, r.size)
    decreases k
  {
    hide Bulk, ArgAt;
    if k == 0 {
      args := [];
      assert acc + args == acc;
    } else {
      var p := Bulk(s, i);
      ArgRead(s, i, p.arg, p.next);
      var rest := ArgsFound(s, p.next, k - 1, acc + [p.arg]);
      args := [p.arg] + rest;
      assert acc + [p.arg] + rest == acc + args && args[1..] == rest;
    }
  }

  // ---- requests ------------------------------------------------------------------------------------

  /** The parser takes a request that begins with `*` exactly if it is spelled so, and takes it whole. */
  lemma FrameExact(s: string, args: Args, end: nat)
    requires s != "" && s[0] == '*'
    ensures Parse(s) == Frame(end, args) <==> FrameAt(s, args, end)
  {
    if FrameAt(s, args, end) {
      var at :| NumberAt(s, 1, |args|, at) && ArgsAt(s, at, args, end);
      NumberTaken(s, 1, MAX_ARGS, |args|, at);
      ArgsTaken(s, at, [], args, end);
      assert [] + args == args;
    }
    if Parse(s) == Frame(end, args) {
      var h := Header(s, 1, MAX_ARGS);
      NumberFound(s, 1, MAX_ARGS);
      var found := ArgsFound(s, h.next, h.n, []);
      assert [] + found == found;
    }
  }

  /** What separates words. */
  predicate Space(c: char) { c in " \t" }

  lemma SpaceIsBlank(c: char)
    ensures Space(c) <==> Blank(c)
  {
    var seps := " \t";
    assert seps[0] == ' ' && seps[1] == '\t' && |seps| == 2;
  }

  /** The words of s[i..end]: runs without blanks, as long as they can be, with blanks around them. */
  ghost predicate WordsAt(s: string, i: nat, end: nat, ws: Args)
    requires i <= end <= |s|
    decreases |ws|
  {
    if ws == [] then forall j :: i <= j < end ==> Space(s[j])
    else exists b: nat, e: nat :: WordAt(s, i, b, e, end, ws[0]) && WordsAt(s, e, end, ws[1..])
  }

  ghost predicate WordAt(s: string, i: nat, b: nat, e: nat, end: nat, w: string)
    requires i <= end <= |s|
  {
    && i <= b < e <= end && s[b..e] == w && (e < end ==> Space(s[e]))
    && (forall j :: i <= j < b ==> Space(s[j])) && forall j :: b <= j < e ==> !Space(s[j])
  }

  lemma RunIs(s: string, i: nat, end: nat, blank: bool, r: nat)
    requires i <= r <= end <= |s| && (forall j :: i <= j < r ==> Blank(s[j]) == blank)
    requires r < end ==> Blank(s[r]) != blank
    ensures RunEnd(s, i, end, blank) == r
  {
    var e := RunEnd(s, i, end, blank);
  }

  lemma {:induction false} WordsFound(s: string, i: nat, end: nat)
    requires i <= end <= |s|
    ensures WordsAt(s, i, end, Split(s, i, end))
    decreases end - i
  {
    forall c ensures Space(c) <==> Blank(c) { SpaceIsBlank(c); }
    var b := RunEnd(s, i, end, true);
    if b < end {
      var e := RunEnd(s, b, end, false);
      WordsFound(s, e, end);
      var ws := Split(s, i, end);
      assert ws == [s[b..e]] + Split(s, e, end) && ws[1..] == Split(s, e, end);
      assert WordAt(s, i, b, e, end, ws[0]) && WordsAt(s, e, end, ws[1..]);
    }
  }

  /** A line has just one list of words, and that is what it is split into. */
  lemma {:induction false} WordsExact(s: string, i: nat, end: nat, ws: Args)
    requires i <= end <= |s|
    ensures Split(s, i, end) == ws <==> WordsAt(s, i, end, ws)
    decreases |ws|
  {
    forall c ensures Space(c) <==> Blank(c) { SpaceIsBlank(c); }
    WordsFound(s, i, end);
    if WordsAt(s, i, end, ws) {
      if ws == [] {
        RunIs(s, i, end, true, end);
      } else {
        var b: nat, e: nat :| WordAt(s, i, b, e, end, ws[0]) && WordsAt(s, e, end, ws[1..]);
        RunIs(s, i, end, true, b);
        RunIs(s, b, end, false, e);
        WordsExact(s, e, end, ws[1..]);
      }
    }
  }

  /** A line without the CR at its end. */
  function Bare(line: string): string {
    if line != "" && line[|line| - 1] == '\r' then line[..|line| - 1] else line
  }

  /** Any other request is a line that ends in LF, not too long, and is split into its words without the CR
      before the LF; a line that is too long is refused. */
  lemma InlineExact(s: string, args: Args, end: nat)
    requires s != "" && s[0] != '*'
    ensures Parse(s) == Frame(end, args) <==>
              && 0 < end <= |s| && s[end - 1] == '\n' && '\n' !in s[..end - 1] && end - 1 <= MAX_INLINE
              && WordsAt(Bare(s[..end - 1]), 0, |Bare(s[..end - 1])|, args)
    ensures Parse(s).Bad? <==> |s| > MAX_INLINE && '\n' !in s[..MAX_INLINE + 1]
  {
    var eol := Find(s, 0, '\n');
    if 0 < end <= |s| && s[end - 1] == '\n' && '\n' !in s[..end - 1] {
      assert s[0..end - 1] == s[..end - 1];
      FindAt(s, 0, end - 1, '\n');
    }
    if eol < |s| { LineSplit(s, eol, args); }
    TooLong(s, eol);
  }

  lemma LineSplit(s: string, eol: nat, args: Args)
    requires eol < |s|
    ensures s[0..eol] == s[..eol]
    ensures Split(s, 0, LineEnd(s, eol)) == args <==> WordsAt(Bare(s[..eol]), 0, |Bare(s[..eol])|, args)
  {
    var e := LineEnd(s, eol);
    assert Bare(s[..eol]) == s[..e] && s[..e] + s[e..] == s;
    SplitAppend(s[..e], s[e..], 0, e);
    WordsExact(s[..e], 0, e, args);
  }

  lemma TooLong(s: string, eol: nat)
    requires eol == Find(s, 0, '\n')
    ensures eol > MAX_INLINE <==> |s| > MAX_INLINE && '\n' !in s[..MAX_INLINE + 1]
  {
    if eol > MAX_INLINE {
      assert s[..MAX_INLINE + 1] == s[0..eol][..MAX_INLINE + 1];
    } else if |s| > MAX_INLINE {
      assert s[eol] in s[..MAX_INLINE + 1];
    }
  }
}
