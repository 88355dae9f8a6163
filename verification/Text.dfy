/**
  Sequences split on a separator, trimmed text and decimal numerals: the few
  string operations the Python and Go sources lean on.
*/
module Text {

  // ---------------------------------------------------------------- splitting

  /** The pieces between separators; `n` separators give `n + 1` pieces. */
  function Split<T(==)>(s: seq<T>, sep: T): (parts: seq<seq<T>>)
    ensures |parts| >= 1
  {
    if s == [] then [[]]
    else
      var rest := Split(s[1..], sep);
      if s[0] == sep then [[]] + rest else [[s[0]] + rest[0]] + rest[1..]
  }

  function Join<T>(parts: seq<seq<T>>, sep: T): seq<T>
    requires |parts| >= 1
  {
    if |parts| == 1 then parts[0] else parts[0] + [sep] + Join(parts[1..], sep)
  }

  lemma {:induction false} JoinSplit<T>(s: seq<T>, sep: T)
    ensures Join(Split(s, sep), sep) == s
  {
    if s == [] {
    } else {
      var rest := Split(s[1..], sep);
      JoinSplit(s[1..], sep);
      if s[0] == sep {
        assert ([[]] + rest)[1..] == rest;
      } else if |rest| > 1 {
        assert ([[s[0]] + rest[0]] + rest[1..])[1..] == rest[1..];
      }
    }
  }

  lemma {:induction false} SplitPieceHasNoSep<T>(s: seq<T>, sep: T, i: nat)
    requires i < |Split(s, sep)|
    ensures sep !in Split(s, sep)[i]
  {
    if s != [] {
      var rest := Split(s[1..], sep);
      if s[0] == sep {
        if i > 0 { SplitPieceHasNoSep(s[1..], sep, i - 1); }
      } else {
        SplitPieceHasNoSep(s[1..], sep, i);
      }
    }
  }

  /** A text without the separator in front of it is the first piece. */
  lemma {:induction false} SplitPrefix<T>(p: seq<T>, rest: seq<T>, sep: T)
    requires sep !in p
    ensures Split(p + [sep] + rest, sep) == [p] + Split(rest, sep)
    decreases |p|
  {
    var s := p + [sep] + rest;
    if p == [] {
      assert s[1..] == rest;
    } else {
      assert s[1..] == p[1..] + [sep] + rest;
      SplitPrefix(p[1..], rest, sep);
      assert [p[0]] + p[1..] == p;
    }
  }

  lemma {:induction false} SplitNoSep<T>(p: seq<T>, sep: T)
    requires sep !in p
    ensures Split(p, sep) == [p]
  {
    if p != [] {
      SplitNoSep(p[1..], sep);
      assert [p[0]] + p[1..] == p;
    }
  }

  lemma {:induction false} SplitJoin<T>(parts: seq<seq<T>>, sep: T)
    requires |parts| >= 1
    requires forall p :: p in parts ==> sep !in p
    ensures Split(Join(parts, sep), sep) == parts
  {
    if |parts| == 1 {
      SplitNoSep(parts[0], sep);
    } else {
      SplitJoin(parts[1..], sep);
      SplitPrefix(parts[0], Join(parts[1..], sep), sep);
    }
  }

  /** Two piece lists run together: the last piece of one continues in the first of the other. */
  function Glue<T>(a: seq<seq<T>>, b: seq<seq<T>>): seq<seq<T>>
    requires |a| >= 1 && |b| >= 1
  {
    a[..|a| - 1] + [a[|a| - 1] + b[0]] + b[1..]
  }

  lemma SplitCons<T>(x: T, s: seq<T>, sep: T)
    ensures Split([x] + s, sep) ==
            if x == sep then [[]] + Split(s, sep) else [[x] + Split(s, sep)[0]] + Split(s, sep)[1..]
  {
    assert ([x] + s)[1..] == s;
  }

  lemma GlueEmpty<T>(b: seq<seq<T>>)
    requires |b| >= 1
    ensures Glue([[]], b) == b
  {
    assert [] + b[0] == b[0];
  }

  /** Splitting after appending: only the last piece of the front can still grow. */
  lemma {:induction false} SplitAppend<T>(a: seq<T>, b: seq<T>, sep: T)
    ensures Split(a + b, sep) == Glue(Split(a, sep), Split(b, sep))
    decreases |a|
  {
    var sb := Split(b, sep);
    if a == [] {
      assert a + b == b;
      GlueEmpty(sb);
    } else {
      hide Split, Glue;
      var x, rest := a[0], a[1..];
      assert a == [x] + rest && a + b == [x] + (rest + b);
      SplitCons(x, rest, sep);
      SplitCons(x, rest + b, sep);
      SplitAppend(rest, b, sep);
      GlueNew(Split(rest, sep), sb);
      GlueFirst(x, Split(rest, sep), sb);
    }
  }

  lemma GlueNew<T>(a: seq<seq<T>>, b: seq<seq<T>>)
    requires |a| >= 1 && |b| >= 1
    ensures Glue([[]] + a, b) == [[]] + Glue(a, b)
  {
  }

  lemma GlueFirst<T>(x: T, a: seq<seq<T>>, b: seq<seq<T>>)
    requires |a| >= 1 && |b| >= 1
    ensures Glue([[x] + a[0]] + a[1..], b) == [[x] + Glue(a, b)[0]] + Glue(a, b)[1..]
  {
    if |a| == 1 {
      assert [x] + a[0] + b[0] == [x] + (a[0] + b[0]);
    }
  }

  // ---------------------------------------------------------------- trimming

  /** White space of Latin-1 as Python's str.strip sees it. */
  predicate PySpace(c: char) {
    c == ' ' || '\t' <= c <= '\r' || '\U{1c}' <= c <= '\U{1f}' || c == '\U{85}' || c == '\U{a0}'
  }

  /** White space of Latin-1 as Go's strings.TrimSpace sees it. */
  predicate GoSpace(c: char) {
    c == ' ' || '\t' <= c <= '\r' || c == '\U{85}' || c == '\U{a0}'
  }

  function TrimLeft(s: string, space: char -> bool): (r: string)
    ensures r == [] || !space(r[0])
    ensures exists k :: 0 <= k <= |s| && r == s[k..]
  {
    if s != [] && space(s[0]) then
      var r := TrimLeft(s[1..], space);
      assert forall k :: 0 <= k <= |s[1..]| ==> s[1..][k..] == s[k + 1..];
      r
    else
      assert s == s[0..];
      s
  }

  function TrimRight(s: string, space: char -> bool): (r: string)
    ensures r == [] || !space(r[|r| - 1])
    ensures r <= s
  {
    if s != [] && space(s[|s| - 1]) then TrimRight(s[..|s| - 1], space) else s
  }

  function Trim(s: string, space: char -> bool): string {
    TrimRight(TrimLeft(s, space), space)
  }

  /** Text that neither begins nor ends in white space is left alone. */
  lemma TrimFixed(s: string, space: char -> bool)
    requires s == [] || (!space(s[0]) && !space(s[|s| - 1]))
    ensures Trim(s, space) == s
  {
  }

  lemma TrimEnds(s: string, space: char -> bool)
    ensures var t := Trim(s, space); t == [] || (!space(t[0]) && !space(t[|t| - 1]))
  {
    var l := TrimLeft(s, space);
    var t := TrimRight(l, space);
    if t != [] { assert t[0] == l[0]; }
  }

  lemma TrimIdempotent(s: string, space: char -> bool)
    ensures Trim(Trim(s, space), space) == Trim(s, space)
  {
    TrimEnds(s, space);
    TrimFixed(Trim(s, space), space);
  }

  predicate Blank(s: string, space: char -> bool) {
    forall c :: c in s ==> space(c)
  }

  /** Nothing to trim at either end. */
  predicate Trimmed(s: string, space: char -> bool) {
    s == [] || (!space(s[0]) && !space(s[|s| - 1]))
  }

  lemma {:induction false} TrimLeftPadded(l: string, s: string, space: char -> bool)
    requires Blank(l, space) && (s == [] || !space(s[0]))
    ensures TrimLeft(l + s, space) == s
    decreases |l|
  {
    if l == [] {
      assert l + s == s;
    } else {
      assert (l + s)[1..] == l[1..] + s;
      TrimLeftPadded(l[1..], s, space);
    }
  }

  lemma {:induction false} TrimRightPadded(s: string, r: string, space: char -> bool)
    requires Blank(r, space) && (s == [] || !space(s[|s| - 1]))
    ensures TrimRight(s + r, space) == s
    decreases |r|
  {
    if r == [] {
      assert s + r == s;
    } else {
      var front := r[..|r| - 1];
      assert (s + r)[..|s + r| - 1] == s + front;
      TrimRightPadded(s, front, space);
    }
  }

  /** Trimming takes the blanks around a text, and no more. */
  lemma TrimPadded(l: string, s: string, r: string, space: char -> bool)
    requires Blank(l, space) && Blank(r, space) && Trimmed(s, space)
    ensures Trim(l + s + r, space) == s
  {
    hide TrimLeft, TrimRight;
    if s == [] {
      assert l + s + r == (l + r) + [];
      TrimLeftPadded(l + r, [], space);
      TrimRightPadded([], [], space);
    } else {
      assert l + s + r == l + (s + r);
      TrimLeftPadded(l, s + r, space);
      TrimRightPadded(s, r, space);
    }
  }

  // ---------------------------------------------------------------- searching

  ghost predicate OccursAt(s: string, sub: string, i: int) {
    0 <= i <= |s| && sub <= s[i..]
  }

  /** strings.Contains, and Python's `in`. */
  predicate Contains(s: string, sub: string) {
    sub <= s || (s != [] && Contains(s[1..], sub))
  }

  /** It is found exactly if it occurs somewhere. */
  lemma {:induction false} ContainsMeaning(s: string, sub: string)
    ensures Contains(s, sub) <==> exists i :: OccursAt(s, sub, i)
  {
    if sub <= s {
      assert s[0..] == s && OccursAt(s, sub, 0);
    } else if s != [] {
      ContainsMeaning(s[1..], sub);
      if i :| OccursAt(s[1..], sub, i) {
        assert s[i + 1..] == s[1..][i..] && OccursAt(s, sub, i + 1);
      }
      if i :| OccursAt(s, sub, i) {
        assert s[0..] == s && i > 0;
        assert s[1..][i - 1..] == s[i..] && OccursAt(s[1..], sub, i - 1);
      }
    } else {
      assert s[0..] == s;
    }
  }

  lemma ContainsWithin(a: string, b: string, c: string, sub: string)
    requires Contains(b, sub)
    ensures Contains(a + b + c, sub)
  {
    hide Contains;
    ContainsMeaning(b, sub);
    var i :| OccursAt(b, sub, i);
    var s := a + b + c;
    assert s[|a| + i..] == b[i..] + c;
    assert OccursAt(s, sub, |a| + i);
    ContainsMeaning(s, sub);
  }

  /** A text that holds a piece's content holds whatever the piece holds. */
  lemma {:induction false} JoinContains(parts: seq<string>, sep: char, i: nat, sub: string)
    requires i < |parts| && Contains(parts[i], sub)
    ensures Contains(Join(parts, sep), sub)
  {
    if |parts| == 1 {
    } else if i == 0 {
      var rest := [sep] + Join(parts[1..], sep);
      ContainsWithin([], parts[0], rest, sub);
      assert [] + parts[0] + rest == Join(parts, sep);
    } else {
      JoinContains(parts[1..], sep, i - 1, sub);
      var front := parts[0] + [sep];
      ContainsWithin(front, Join(parts[1..], sep), [], sub);
      assert front + Join(parts[1..], sep) + [] == Join(parts, sep);
    }
  }

  // ---------------------------------------------------------------- decimals

  predicate IsDigit(c: char) { '0' <= c <= '9' }

  function DigitChar(d: int): (c: char)
    requires 0 <= d < 10
    ensures IsDigit(c) && DigitValue(c) == d
  {
    '0' + d as char
  }

  function DigitValue(c: char): int
    requires IsDigit(c)
  {
    c as int - '0' as int
  }

  predicate AllDigits(s: string) { forall c :: c in s ==> IsDigit(c) }

  /** The value of a digit string, most significant digit first. */
  function Value(s: string): nat
    requires AllDigits(s)
  {
    if s == [] then 0 else 10 * Value(s[..|s| - 1]) + DigitValue(s[|s| - 1])
  }

  /** What %d prints. */
  function Decimal(n: nat): (s: string)
    ensures s != [] && AllDigits(s)
  {
    if n < 10 then [DigitChar(n)] else Decimal(n / 10) + [DigitChar(n % 10)]
  }

  /** Digits with no needless leading zero. */
  predicate Canonical(s: string) {
    s != [] && AllDigits(s) && (|s| == 1 || s[0] != '0')
  }

  lemma {:induction false} DecimalValue(n: nat)
    ensures Value(Decimal(n)) == n
    ensures Canonical(Decimal(n))
    ensures n > 0 ==> Decimal(n)[0] != '0'
  {
    if n < 10 {
      assert [DigitChar(n)][..0] == [];
    } else {
      DecimalValue(n / 10);
      var s := Decimal(n);
      assert s[..|s| - 1] == Decimal(n / 10);
    }
  }

  lemma {:induction false} ValuePositive(s: string)
    requires s != [] && AllDigits(s) && s[0] != '0'
    ensures Value(s) > 0
  {
    if |s| == 1 {
      assert s[..0] == [];
      assert s[0] != '0' ==> DigitValue(s[0]) != 0;
    } else {
      var front := s[..|s| - 1];
      ValuePositive(front);
      assert Value(s) == 10 * Value(front) + DigitValue(s[|s| - 1]);
    }
  }

  lemma {:induction false} ValueDecimal(s: string)
    requires Canonical(s)
    ensures Decimal(Value(s)) == s
  {
    var front := s[..|s| - 1];
    assert DigitChar(DigitValue(s[|s| - 1])) == s[|s| - 1];
    if |s| == 1 {
      assert front == [];
      assert Value(front) == 0;
    } else {
      ValueDecimal(front);
      ValuePositive(front);
      assert s == front + [s[|s| - 1]];
    }
  }

  lemma DecimalInjective(a: nat, b: nat)
    requires Decimal(a) == Decimal(b)
    ensures a == b
  {
    DecimalValue(a);
    DecimalValue(b);
  }
}
