/**
 * The string operations the code relies on: decimal rendering of numbers
 * (template literals and `String(n)`), `padStart`, `split`/`join`, `slice`,
 * `startsWith`, Python's `strip`, and the code-point order JavaScript's
 * `Array.prototype.sort()` and Python's `sorted` use on strings.
 */
module Strings {
  import opened Seqs

  // ---------------------------------------------------------------------------
  // Decimal rendering

  function Pow10(k: nat): (p: nat)
    ensures p >= 1
  {
    if k == 0 then 1 else 10 * Pow10(k - 1)
  }

  function DigitChar(d: int): (c: char)
    requires 0 <= d <= 9
    ensures '0' <= c <= '9' && c as int - '0' as int == d
  {
    (('0' as int) + d) as char
  }

  predicate IsDigit(c: char)
  {
    '0' <= c <= '9'
  }

  predicate AllDigits(s: string)
  {
    forall i :: 0 <= i < |s| ==> IsDigit(s[i])
  }

  function DigitValue(c: char): (d: nat)
    requires IsDigit(c)
    ensures d <= 9
  {
    c as int - '0' as int
  }

  /** The number a string of decimal digits denotes. */
  function DigitsValue(s: string): nat
    requires AllDigits(s)
  {
    if |s| == 0 then 0
    else DigitsValue(s[..|s| - 1]) * 10 + DigitValue(s[|s| - 1])
  }

  /** `String(n)` for a non-negative integer: no sign, no leading zeros. */
  function NatToString(n: nat): (s: string)
    ensures |s| >= 1 && AllDigits(s)
    ensures |s| > 1 ==> s[0] != '0'
  {
    if n < 10 then [DigitChar(n)]
    else NatToString(n / 10) + [DigitChar(n % 10)]
  }

  /** `String(i)` for any integer: a minus sign before the magnitude when negative. */
  function IntToString(i: int): (s: string)
    ensures i >= 0 ==> s == NatToString(i)
    ensures i < 0 ==> s == "-" + NatToString(-i)
  {
    if i < 0 then "-" + NatToString(-i) else NatToString(i)
  }

  /** Reading back a rendered number gives the number. */
  lemma {:induction false} NatToStringRoundTrip(n: nat)
    ensures DigitsValue(NatToString(n)) == n
  {
    if n >= 10 {
      var s := NatToString(n);
      assert s[..|s| - 1] == NatToString(n / 10);
      NatToStringRoundTrip(n / 10);
    }
  }

  /** A number of `k` digits (no leading zero) is rendered with exactly `k` characters. */
  lemma {:induction false} NatToStringLength(n: nat, k: nat)
    requires k >= 1 && (k == 1 || Pow10(k - 1) <= n) && n < Pow10(k)
    ensures |NatToString(n)| == k
  {
    if k > 1 {
      if k > 2 {
        assert Pow10(k - 2) * 10 == Pow10(k - 1);
      }
      NatToStringLength(n / 10, k - 1);
    }
  }

  /** A digit string's value, decomposed from the front. */
  lemma {:induction false} DigitsValueFront(s: string)
    requires |s| > 0 && AllDigits(s)
    ensures DigitsValue(s) == DigitValue(s[0]) * Pow10(|s| - 1) + DigitsValue(s[1..])
  {
    if |s| > 1 {
      var init := s[..|s| - 1];
      assert init[0] == s[0];
      assert init[1..] == s[1..][..|s| - 2];
      DigitsValueFront(init);
      var d, v, l := DigitValue(s[0]), DigitsValue(init[1..]), DigitValue(s[|s| - 1]);
      assert DigitsValue(s[1..]) == v * 10 + l;
      assert Pow10(|s| - 1) == Pow10(|s| - 2) * 10;
      ShiftDigit(d, Pow10(|s| - 2), v, l);
    }
  }

  lemma ShiftDigit(d: int, p: int, v: int, l: int)
    ensures (d * p + v) * 10 + l == d * (p * 10) + (v * 10 + l)
  {
  }

  lemma {:induction false} DigitsValueBound(s: string)
    requires AllDigits(s)
    ensures DigitsValue(s) < Pow10(|s|)
  {
    if |s| > 0 {
      DigitsValueBound(s[..|s| - 1]);
    }
  }

  // ---------------------------------------------------------------------------
  // String order

  /**
   * `a <= b` in the order strings are compared by `<` in JavaScript and Python:
   * lexicographically by character, a proper prefix first. JavaScript compares
   * UTF-16 code units and Python code points; the two orders agree on the
   * Basic Multilingual Plane, where every character compared here lies.
   */
  predicate StrLe(a: string, b: string)
  {
    |a| == 0 || (|b| > 0 && (a[0] < b[0] || (a[0] == b[0] && StrLe(a[1..], b[1..]))))
  }

  lemma {:induction false} StrLeReflexive(a: string)
    ensures StrLe(a, a)
  {
    if |a| > 0 {
      StrLeReflexive(a[1..]);
    }
  }

  lemma {:induction false} StrLeTotal(a: string, b: string)
    ensures StrLe(a, b) || StrLe(b, a)
  {
    if |a| > 0 && |b| > 0 && a[0] == b[0] {
      StrLeTotal(a[1..], b[1..]);
    }
  }

  lemma {:induction false} StrLeTransitive(a: string, b: string, c: string)
    requires StrLe(a, b) && StrLe(b, c)
    ensures StrLe(a, c)
  {
    if |a| > 0 && a[0] == b[0] && b[0] == c[0] {
      StrLeTransitive(a[1..], b[1..], c[1..]);
    }
  }

  lemma {:induction false} StrLeAntisymmetric(a: string, b: string)
    requires StrLe(a, b) && StrLe(b, a)
    ensures a == b
  {
    if |a| > 0 && |b| > 0 {
      StrLeAntisymmetric(a[1..], b[1..]);
      assert a == [a[0]] + a[1..] && b == [b[0]] + b[1..];
    }
  }

  /** A smaller leading digit outweighs whatever follows it. */
  lemma LeadingDigit(ds: nat, dt: nat, a: nat, b: nat, p: nat)
    requires ds < dt && a < p
    ensures ds * p + a < dt * p + b
  {
    var k := dt - ds;
    assert dt * p == ds * p + k * p;
    assert k * p == (k - 1) * p + p;
  }

  /** Two strings that start with parts of equal length compare by those parts first, then by the rest. */
  lemma {:induction false} StrLeConcat(a: string, b: string, c: string, d: string)
    requires |a| == |b|
    ensures StrLe(a + c, b + d) <==> (a != b && StrLe(a, b)) || (a == b && StrLe(c, d))
  {
    if |a| == 0 {
      assert a + c == c && b + d == d;
    } else {
      assert (a + c)[0] == a[0] && (b + d)[0] == b[0];
      assert (a + c)[1..] == a[1..] + c && (b + d)[1..] == b[1..] + d;
      StrLeConcat(a[1..], b[1..], c, d);
      assert a == [a[0]] + a[1..] && b == [b[0]] + b[1..];
    }
  }

  /** On digit strings of equal length the code-point order is the numeric order. */
  lemma {:induction false} StrLeDigits(s: string, t: string)
    requires AllDigits(s) && AllDigits(t) && |s| == |t|
    ensures StrLe(s, t) <==> DigitsValue(s) <= DigitsValue(t)
  {
    if |s| > 0 {
      var p := Pow10(|s| - 1);
      var ds, dt := DigitValue(s[0]), DigitValue(t[0]);
      DigitsValueFront(s);
      DigitsValueFront(t);
      if ds < dt {
        DigitsValueBound(s[1..]);
        LeadingDigit(ds, dt, DigitsValue(s[1..]), DigitsValue(t[1..]), p);
      } else if dt < ds {
        DigitsValueBound(t[1..]);
        LeadingDigit(dt, ds, DigitsValue(t[1..]), DigitsValue(s[1..]), p);
      } else {
        assert s[0] == t[0];
        StrLeDigits(s[1..], t[1..]);
      }
    }
  }

  /**
   * Strings that start with digit fields of equal width compare by the
   * fields' values first, then by the rest.
   */
  lemma DigitFieldOrder(a: string, b: string, c: string, d: string)
    requires AllDigits(a) && AllDigits(b) && |a| == |b|
    ensures StrLe(a + c, b + d) <==>
      DigitsValue(a) < DigitsValue(b) || (DigitsValue(a) == DigitsValue(b) && StrLe(c, d))
  {
    StrLeConcat(a, b, c, d);
    StrLeDigits(a, b);
    StrLeDigits(b, a);
    if DigitsValue(a) == DigitsValue(b) {
      StrLeAntisymmetric(a, b);
    }
  }

  /** Numbers with the same count of digits compare as their renderings do. */
  lemma NatToStringOrder(a: nat, b: nat)
    requires |NatToString(a)| == |NatToString(b)|
    ensures StrLe(NatToString(a), NatToString(b)) <==> a <= b
  {
    StrLeDigits(NatToString(a), NatToString(b));
    NatToStringRoundTrip(a);
    NatToStringRoundTrip(b);
  }

  /** Across digit counts the orders disagree: "1000" sorts before "999". */
  lemma NatToStringOrderAcrossLengths()
    ensures StrLe(NatToString(1000), NatToString(999)) && !StrLe(NatToString(999), NatToString(1000))
  {
    assert NatToString(1000) == "1000" by {
      assert NatToString(1) == "1";
      assert NatToString(10) == "10";
      assert NatToString(100) == "100";
    }
    assert NatToString(999) == "999" by {
      assert NatToString(9) == "9";
      assert NatToString(99) == "99";
    }
  }

  // ---------------------------------------------------------------------------
  // Building and taking apart

  function Repeat(c: char, n: nat): (r: string)
    ensures |r| == n && forall i :: 0 <= i < n ==> r[i] == c
  {
    if n == 0 then "" else Repeat(c, n - 1) + [c]
  }

  /** `s.padStart(width, fill)` with a one-character fill. */
  function PadStart(s: string, width: nat, fill: char): (r: string)
    ensures |r| == if |s| >= width then |s| else width
  {
    if |s| >= width then s else Repeat(fill, width - |s|) + s
  }

  /** The padded string ends with `s` and is `fill` before it. */
  lemma PadStartShape(s: string, width: nat, fill: char)
    ensures var r := PadStart(s, width, fill);
      && r[|r| - |s|..] == s
      && forall i :: 0 <= i < |r| - |s| ==> r[i] == fill
  {
  }

  /** `String(n).padStart(2, '0')`. */
  function Pad2(n: int): string
  {
    PadStart(IntToString(n), 2, '0')
  }

  /** A number below 100, padded, is two digits that read back as the number. */
  lemma PaddedTwoDigits(n: int)
    requires 0 <= n < 100
    ensures |Pad2(n)| == 2 && AllDigits(Pad2(n)) && DigitsValue(Pad2(n)) == n
  {
    var s := NatToString(n);
    NatToStringRoundTrip(n);
    if n < 10 {
      var p := PadStart(s, 2, '0');
      assert p == ['0'] + s;
      assert p[..1] == ['0'];
      assert DigitsValue(['0']) == 0;
    } else {
      assert Pow10(1) == 10 && Pow10(2) == 100;
      NatToStringLength(n, 2);
    }
  }

  function Max(a: int, b: int): int
  {
    if a >= b then a else b
  }

  function Min(a: int, b: int): int
  {
    if a <= b then a else b
  }

  /** `s.slice(start, end)` for non-negative bounds: both are clamped to the length. */
  function Slice(s: string, start: nat, end: nat): (r: string)
    ensures start <= end <= |s| ==> r == s[start..end]
    ensures |r| == Max(0, Min(end, |s|) - Min(start, |s|))
  {
    var e := Min(end, |s|);
    var b := Min(start, |s|);
    if b >= e then "" else s[b..e]
  }

  predicate StartsWith(s: string, prefix: string)
  {
    |prefix| <= |s| && s[..|prefix|] == prefix
  }

  /** `parts.join(sep)`. */
  function Join(parts: seq<string>, sep: char): string
  {
    if |parts| == 0 then ""
    else if |parts| == 1 then parts[0]
    else Join(parts[..|parts| - 1], sep) + [sep] + parts[|parts| - 1]
  }

  /**
   * `s.split(sep)` for a one-character separator, in JavaScript and Python alike:
   * the pieces between separators, at least one (the empty string splits to `[""]`).
   */
  function Split(s: string, sep: char): (parts: seq<string>)
    ensures |parts| >= 1
  {
    if |s| == 0 then [""]
    else
      var init := Split(s[..|s| - 1], sep);
      var c := s[|s| - 1];
      if c == sep then init + [""]
      else init[..|init| - 1] + [init[|init| - 1] + [c]]
  }

  /** No piece holds the separator. */
  lemma {:induction false} SplitPiecesHaveNoSep(s: string, sep: char)
    ensures forall i :: 0 <= i < |Split(s, sep)| ==> sep !in Split(s, sep)[i]
  {
    if |s| > 0 {
      var init := Split(s[..|s| - 1], sep);
      SplitPiecesHaveNoSep(s[..|s| - 1], sep);
      var c := s[|s| - 1];
      if c != sep {
        var last := init[|init| - 1] + [c];
        assert sep !in last;
      }
    }
  }

  /** Appending a character to the last piece appends it to the joined string. */
  lemma JoinExtendLast(ps: seq<string>, c: char, sep: char)
    requires |ps| >= 1
    ensures Join(ps[..|ps| - 1] + [ps[|ps| - 1] + [c]], sep) == Join(ps, sep) + [c]
  {
    var qs := ps[..|ps| - 1] + [ps[|ps| - 1] + [c]];
    if |ps| > 1 {
      assert qs[..|qs| - 1] == ps[..|ps| - 1];
    }
  }

  /** Appending an empty piece appends a separator to the joined string. */
  lemma JoinAppendEmpty(ps: seq<string>, sep: char)
    requires |ps| >= 1
    ensures Join(ps + [""], sep) == Join(ps, sep) + [sep]
  {
    var qs := ps + [""];
    assert qs[..|qs| - 1] == ps;
  }

  /** Joining the pieces gives back the string. */
  lemma {:induction false} JoinSplit(s: string, sep: char)
    ensures Join(Split(s, sep), sep) == s
  {
    if |s| > 0 {
      var init := s[..|s| - 1];
      var ps := Split(init, sep);
      JoinSplit(init, sep);
      LastSplit(s);
      if s[|s| - 1] != sep {
        JoinExtendLast(ps, s[|s| - 1], sep);
      } else {
        JoinAppendEmpty(ps, sep);
      }
    }
  }

  /** A character other than the separator at the end extends the last piece. */
  lemma SplitAppendChar(t: string, c: char, sep: char)
    requires c != sep
    ensures var pt := Split(t, sep);
      Split(t + [c], sep) == pt[..|pt| - 1] + [pt[|pt| - 1] + [c]]
  {
    var u := t + [c];
    assert u[..|u| - 1] == t;
  }

  /** Extending the last piece twice extends it by both. */
  lemma ExtendLast(ps: seq<string>, a: string, c: char)
    requires |ps| > 0
    ensures var q := ps[..|ps| - 1] + [ps[|ps| - 1] + a];
      q[..|q| - 1] + [q[|q| - 1] + [c]] == ps[..|ps| - 1] + [ps[|ps| - 1] + (a + [c])]
  {
    var q := ps[..|ps| - 1] + [ps[|ps| - 1] + a];
    assert q[..|q| - 1] == ps[..|ps| - 1];
    assert ps[|ps| - 1] + a + [c] == ps[|ps| - 1] + (a + [c]);
  }

  /** Splitting `x + rest` where `rest` holds no separator extends the last piece. */
  lemma {:induction false} SplitAppendPiece(x: string, rest: string, sep: char)
    requires sep !in rest
    ensures var px := Split(x, sep);
      Split(x + rest, sep) == px[..|px| - 1] + [px[|px| - 1] + rest]
    decreases |rest|
  {
    var px := Split(x, sep);
    if |rest| == 0 {
      assert x + rest == x;
      assert px[|px| - 1] + rest == px[|px| - 1];
      LastSplit(px);
    } else {
      var r0 := rest[..|rest| - 1];
      var c := rest[|rest| - 1];
      LastSplit(rest);
      assert c in rest;
      assert sep !in r0;
      SplitAppendPiece(x, r0, sep);
      var q := Split(x + r0, sep);
      calc {
        Split(x + rest, sep);
        { assert x + rest == (x + r0) + [c]; }
        Split((x + r0) + [c], sep);
        { SplitAppendChar(x + r0, c, sep); }
        q[..|q| - 1] + [q[|q| - 1] + [c]];
        { ExtendLast(px, r0, c); }
        px[..|px| - 1] + [px[|px| - 1] + (r0 + [c])];
        px[..|px| - 1] + [px[|px| - 1] + rest];
      }
    }
  }

  /** A separator at the end starts a new, empty piece. */
  lemma SplitAppendSep(s: string, sep: char)
    ensures Split(s + [sep], sep) == Split(s, sep) + [""]
  {
    var t := s + [sep];
    assert t[..|t| - 1] == s;
  }

  /** Splitting pieces that hold no separator, once joined, gives back the pieces. */
  lemma {:induction false} SplitJoin(parts: seq<string>, sep: char)
    requires |parts| >= 1
    requires forall i :: 0 <= i < |parts| ==> sep !in parts[i]
    ensures Split(Join(parts, sep), sep) == parts
  {
    if |parts| == 1 {
      SplitAppendPiece("", parts[0], sep);
      assert "" + parts[0] == parts[0];
    } else {
      var init := parts[..|parts| - 1];
      var last := parts[|parts| - 1];
      assert sep !in last;
      SplitJoin(init, sep);
      var x := Join(init, sep) + [sep];
      SplitAppendSep(Join(init, sep), sep);
      SplitAppendPiece(x, last, sep);
      assert (init + [""])[..|init|] == init;
      assert "" + last == last;
      assert Join(parts, sep) == x + last;
      LastSplit(parts);
    }
  }

  /**
   * The characters Python's `str.strip()` removes, those for which
   * `str.isspace()` holds: \t to \r, the separators \x1c to \x1f, the space,
   * NEL, no-break space and the Unicode space and line/paragraph separators.
   */
  predicate IsSpace(c: char)
  {
    || c == ' ' || ('\t' <= c <= '\r') || ('\U{1C}' <= c <= '\U{1F}')
    || c == '\U{85}' || c == '\U{A0}' || c == '\U{1680}' || ('\U{2000}' <= c <= '\U{200A}')
    || c == '\U{2028}' || c == '\U{2029}' || c == '\U{202F}' || c == '\U{205F}' || c == '\U{3000}'
  }

  function StripStart(s: string): string
  {
    if |s| > 0 && IsSpace(s[0]) then StripStart(s[1..]) else s
  }

  function StripEnd(s: string): string
  {
    if |s| > 0 && IsSpace(s[|s| - 1]) then StripEnd(s[..|s| - 1]) else s
  }

  /** `s.strip()`: the string without leading and trailing whitespace. */
  function Strip(s: string): string
  {
    StripEnd(StripStart(s))
  }

  /** Stripping the front drops a run of whitespace and stops at the first other character. */
  lemma {:induction false} StripStartShape(s: string)
    ensures var r := StripStart(s);
      && |r| <= |s| && r == s[|s| - |r|..]
      && (|r| > 0 ==> !IsSpace(r[0]))
      && forall i :: 0 <= i < |s| - |r| ==> IsSpace(s[i])
  {
    if |s| > 0 && IsSpace(s[0]) {
      StripStartShape(s[1..]);
    }
  }

  /** Stripping the back drops a run of whitespace and stops at the last other character. */
  lemma {:induction false} StripEndShape(s: string)
    ensures var r := StripEnd(s);
      && |r| <= |s| && r == s[..|r|]
      && (|r| > 0 ==> !IsSpace(r[|r| - 1]))
      && forall i :: |r| <= i < |s| ==> IsSpace(s[i])
  {
    if |s| > 0 && IsSpace(s[|s| - 1]) {
      StripEndShape(s[..|s| - 1]);
    }
  }

  /** The stripped string is a piece of `s`, with no whitespace at either end. */
  lemma StripShape(s: string)
    ensures var r := Strip(s);
      && (|r| > 0 ==> !IsSpace(r[0]) && !IsSpace(r[|r| - 1]))
      && exists k :: 0 <= k <= |s| && r <= s[k..]
  {
    var a := StripStart(s);
    StripStartShape(s);
    StripEndShape(a);
    var r := StripEnd(a);
    var k := |s| - |a|;
    assert r <= s[k..];
  }
}
