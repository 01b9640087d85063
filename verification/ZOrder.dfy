/** The order of sorted-set members (`zless` in src/types/zset.cpp): scores as doubles without
    NaN, names as byte strings. */
module ZOrder {
  import opened Common

  /** A double that is not NaN; the two zeroes compare equal and are one value here. */
  datatype Score = NegInf | Fin(v: real) | PosInf

  type Name = seq<Byte>

  predicate ScoreLess(a: Score, b: Score) {
    match (a, b)
    case (NegInf, _) => !b.NegInf?
    case (Fin(x), Fin(y)) => x < y
    case (Fin(_), _) => b.PosInf?
    case (PosInf, _) => false
  }

  datatype Key = Key(score: Score, name: Name)

  /** `memcmp` of two blocks of the same length: the sign of the first difference. */
  function Memcmp(a: Name, b: Name): int
    requires |a| == |b|
  {
    if a == [] then 0
    else if a[0] != b[0] then (if a[0] < b[0] then -1 else 1)
    else Memcmp(a[1..], b[1..])
  }

  /** `zless`: by score, then `memcmp` over the common length, then the shorter name. */
  predicate KeyLess(a: Key, b: Key) {
    if a.score != b.score then ScoreLess(a.score, b.score)
    else
      var n := if |a.name| < |b.name| then |a.name| else |b.name|;
      var rv := Memcmp(a.name[..n], b.name[..n]);
      if rv != 0 then rv < 0 else |a.name| < |b.name|
  }

  /** The dictionary order. */
  predicate Lex(a: Name, b: Name) {
    b != [] && (a == [] || a[0] < b[0] || (a[0] == b[0] && Lex(a[1..], b[1..])))
  }

  lemma {:induction false} MemcmpIsLex(a: Name, b: Name)
    ensures KeyLess(Key(NegInf, a), Key(NegInf, b)) <==> Lex(a, b)
  {
    if a != [] && b != [] && a[0] == b[0] {
      MemcmpIsLex(a[1..], b[1..]);
      var n := if |a| < |b| then |a| else |b|;
      assert a[..n][1..] == a[1..][..n - 1] && b[..n][1..] == b[1..][..n - 1];
    }
  }

  lemma {:induction false} LexTotal(a: Name, b: Name)
    ensures a == b || Lex(a, b) || Lex(b, a)
    ensures !(Lex(a, b) && Lex(b, a)) && !Lex(a, a)
  {
    if a != [] && b != [] {
      LexTotal(a[1..], b[1..]);
      if a[0] == b[0] && a[1..] == b[1..] { assert a == [a[0]] + a[1..] == b; }
    }
    if a != [] { LexTotal(a[1..], a[1..]); }
  }

  lemma {:induction false} LexTransitive(a: Name, b: Name, c: Name)
    requires Lex(a, b) && Lex(b, c)
    ensures Lex(a, c)
  {
    if a != [] && a[0] == b[0] == c[0] { LexTransitive(a[1..], b[1..], c[1..]); }
  }

  /** `zless` is a strict total order on (score, name). */
  lemma KeyLessTotal(a: Key, b: Key)
    ensures a == b || KeyLess(a, b) || KeyLess(b, a)
    ensures !(KeyLess(a, b) && KeyLess(b, a)) && !KeyLess(a, a)
  {
    MemcmpIsLex(a.name, b.name);
    MemcmpIsLex(b.name, a.name);
    MemcmpIsLex(a.name, a.name);
    LexTotal(a.name, b.name);
  }

  lemma KeyLessTransitive(a: Key, b: Key, c: Key)
    requires KeyLess(a, b) && KeyLess(b, c)
    ensures KeyLess(a, c)
  {
    MemcmpIsLex(a.name, b.name);
    MemcmpIsLex(b.name, c.name);
    MemcmpIsLex(a.name, c.name);
    if a.score == b.score == c.score { LexTransitive(a.name, b.name, c.name); }
  }
}
