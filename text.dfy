/**
 * String semantics the routes rely on: SQLite's BINARY text collation (used by
 * `ORDER BY date` and by `date >= ? AND date <= ?`), the `LIKE 'p%'` prefix test,
 * zero-padded and plain decimal numerals, and JavaScript's `parseInt` without a radix.
 */
module Text {
  import opened Wrappers

  // ---------------------------------------------------------------------------
  // BINARY collation
  // ---------------------------------------------------------------------------

  /** `a <= b` under SQLite's BINARY collation: code points compared left to right, a proper prefix first. */
  predicate LexLe(a: string, b: string)
  {
    |a| == 0 || (|b| > 0 && (a[0] < b[0] || (a[0] == b[0] && LexLe(a[1..], b[1..]))))
  }

  lemma {:induction false} LexLeReflexive(a: string)
    ensures LexLe(a, a)
  {
    if |a| > 0 { LexLeReflexive(a[1..]); }
  }

  lemma {:induction false} LexLeTotal(a: string, b: string)
    ensures LexLe(a, b) || LexLe(b, a)
  {
    if |a| > 0 && |b| > 0 && a[0] == b[0] { LexLeTotal(a[1..], b[1..]); }
  }

  lemma {:induction false} LexLeAntisymmetric(a: string, b: string)
    requires LexLe(a, b) && LexLe(b, a)
    ensures a == b
  {
    if |a| > 0 {
      LexLeAntisymmetric(a[1..], b[1..]);
      assert a == [a[0]] + a[1..] && b == [b[0]] + b[1..];
    }
  }

  lemma {:induction false} LexLeTransitive(a: string, b: string, c: string)
    requires LexLe(a, b) && LexLe(b, c)
    ensures LexLe(a, c)
  {
    if |a| > 0 && a[0] == b[0] && b[0] == c[0] { LexLeTransitive(a[1..], b[1..], c[1..]); }
  }

  /**
   * Comparing two strings that start with equally long parts: the first parts decide
   * unless they are equal, in which case the rests do.
   */
  lemma {:induction false} LexLeConcat(p: string, r: string, q: string, s: string)
    requires |p| == |q|
    ensures LexLe(p + r, q + s) <==> (p != q && LexLe(p, q)) || (p == q && LexLe(r, s))
  {
    if p == [] {
      assert p + r == r && q + s == s;
    } else {
      assert (p + r)[0] == p[0] && (q + s)[0] == q[0];
      assert (p + r)[1..] == p[1..] + r && (q + s)[1..] == q[1..] + s;
      assert p == [p[0]] + p[1..] && q == [q[0]] + q[1..];
      LexLeConcat(p[1..], r, q[1..], s);
    }
  }

  /** `date LIKE 'prefix%'`, for a prefix free of `%` and `_`. */
  predicate StartsWith(s: string, prefix: string)
  {
    |prefix| <= |s| && s[..|prefix|] == prefix
  }

  /** JavaScript `s.slice(0, n)`. */
  function Slice(s: string, n: nat): (r: string)
    ensures |r| == if |s| < n then |s| else n
    ensures StartsWith(s, r)
  {
    if |s| < n then s else s[..n]
  }

  // ---------------------------------------------------------------------------
  // Numerals
  // ---------------------------------------------------------------------------

  predicate IsDigit(c: char)
  {
    '0' <= c <= '9'
  }

  predicate IsHexDigit(c: char)
  {
    IsDigit(c) || 'a' <= c <= 'f' || 'A' <= c <= 'F'
  }

  /** Whether `c` is a digit in `radix`, which `parseInt` only ever sets to 10 or 16 here. */
  predicate IsRadixDigit(c: char, radix: nat)
  {
    if radix == 16 then IsHexDigit(c) else IsDigit(c)
  }

  predicate AllRadixDigits(s: string, radix: nat)
  {
    forall i :: 0 <= i < |s| ==> IsRadixDigit(s[i], radix)
  }

  function DigitChar(d: nat): (c: char)
    requires d < 10
    ensures IsDigit(c)
  {
    ('0' as int + d) as char
  }

  function DigitValue(c: char): (d: nat)
    requires IsHexDigit(c)
    ensures d < 16
    ensures IsDigit(c) ==> d < 10
  {
    if IsDigit(c) then c as int - '0' as int
    else if 'a' <= c <= 'f' then c as int - 'a' as int + 10
    else c as int - 'A' as int + 10
  }

  /** The number that the digit string `s` denotes in `radix`. */
  function Value(s: string, radix: nat): nat
    requires radix == 10 || radix == 16
    requires AllRadixDigits(s, radix)
  {
    if s == [] then 0
    else Value(s[..|s| - 1], radix) * radix + DigitValue(s[|s| - 1])
  }

  function Pow10(n: nat): (p: nat)
    ensures p >= 1
  {
    if n == 0 then 1 else 10 * Pow10(n - 1)
  }

  /** `n` written with exactly `width` decimal digits, zero-padded on the left (`padStart(width, '0')`). */
  function Pad(n: nat, width: nat): (s: string)
    ensures |s| == width && AllRadixDigits(s, 10)
  {
    if width == 0 then [] else Pad(n / 10, width - 1) + [DigitChar(n % 10)]
  }

  /** The plain decimal numeral of `n`, as `String(n)` writes a non-negative integer. */
  function Decimal(n: nat): (s: string)
    ensures |s| >= 1 && AllRadixDigits(s, 10)
  {
    if n < 10 then [DigitChar(n)] else Decimal(n / 10) + [DigitChar(n % 10)]
  }

  /** `${i}` for an integer `i`. */
  function IntToString(i: int): string
  {
    if i < 0 then "-" + Decimal(-i) else Decimal(i)
  }

  lemma DigitRoundTrip(d: nat)
    requires d < 10
    ensures DigitValue(DigitChar(d)) == d
  {
  }

  /** A padded numeral reads back as the number it was made from. */
  lemma {:induction false} PadValue(n: nat, width: nat)
    requires n < Pow10(width)
    ensures Value(Pad(n, width), 10) == n
  {
    if width > 0 {
      var s := Pad(n, width);
      assert s[..|s| - 1] == Pad(n / 10, width - 1);
      PadValue(n / 10, width - 1);
      DigitRoundTrip(n % 10);
    }
  }

  /** A digit string is the padded numeral of its own value. */
  lemma {:induction false} ValuePad(s: string)
    requires AllRadixDigits(s, 10)
    ensures Value(s, 10) < Pow10(|s|)
    ensures Pad(Value(s, 10), |s|) == s
  {
    if s != [] {
      var init := s[..|s| - 1];
      var c := s[|s| - 1];
      ValuePad(init);
      var v := Value(s, 10);
      assert v == Value(init, 10) * 10 + DigitValue(c);
      assert v / 10 == Value(init, 10) && v % 10 == DigitValue(c);
      assert DigitChar(DigitValue(c)) == c;
      assert s == init + [c];
    }
  }

  /** Equally wide padded numerals are in BINARY order exactly when their numbers are in numeric order. */
  lemma {:induction false} PadOrder(m: nat, n: nat, width: nat)
    requires m < Pow10(width) && n < Pow10(width)
    ensures LexLe(Pad(m, width), Pad(n, width)) <==> m <= n
  {
    if width > 0 {
      var p, q := Pad(m / 10, width - 1), Pad(n / 10, width - 1);
      var r, s := [DigitChar(m % 10)], [DigitChar(n % 10)];
      LexLeConcat(p, r, q, s);
      PadOrder(m / 10, n / 10, width - 1);
      PadInjective(m / 10, n / 10, width - 1);
      assert LexLe(r, s) <==> m % 10 <= n % 10;
    }
  }

  /** Equally wide padded numerals of numbers in range are equal only for equal numbers. */
  lemma PadInjective(m: nat, n: nat, width: nat)
    requires m < Pow10(width) && n < Pow10(width)
    ensures Pad(m, width) == Pad(n, width) <==> m == n
  {
    PadValue(m, width);
    PadValue(n, width);
  }

  // ---------------------------------------------------------------------------
  // parseInt
  // ---------------------------------------------------------------------------

  /** ECMA-262 StrWhiteSpaceChar: the white space and line terminators `parseInt` skips. */
  predicate IsStrWhiteSpace(c: char)
  {
    c == '\t' || c == '\U{B}' || c == '\U{C}' || c == ' ' || c == '\U{A0}' || c == '\U{FEFF}'
    || c == '\n' || c == '\r' || c == '\U{2028}' || c == '\U{2029}'
    || c == '\U{1680}' || ('\U{2000}' <= c <= '\U{200A}') || c == '\U{202F}' || c == '\U{205F}' || c == '\U{3000}'
  }

  /** `s` without its leading white space. */
  function TrimStart(s: string): (r: string)
    ensures |r| <= |s| && r == s[|s| - |r|..]
    ensures r == [] || !IsStrWhiteSpace(r[0])
  {
    if s != [] && IsStrWhiteSpace(s[0]) then TrimStart(s[1..]) else s
  }

  /** The longest prefix of `s` made of `radix` digits. */
  function DigitPrefix(s: string, radix: nat): (r: string)
    ensures StartsWith(s, r) && AllRadixDigits(r, radix)
    ensures |r| < |s| ==> !IsRadixDigit(s[|r|], radix)
  {
    if s != [] && IsRadixDigit(s[0], radix) then [s[0]] + DigitPrefix(s[1..], radix) else []
  }

  /**
   * JavaScript `parseInt(s)` (no radix): skip white space, read an optional sign, then the
   * magnitude. `None` is NaN.
   */
  function ParseInt(s: string): Option<int>
  {
    var t := TrimStart(s);
    var negative := t != [] && t[0] == '-';
    var u := if t != [] && (t[0] == '-' || t[0] == '+') then t[1..] else t;
    match ParseMagnitude(u)
    case None => None
    case Some(v) => var m: int := v; Some(if negative then -m else m)
  }

  /** The unsigned part of `parseInt`: hexadecimal after `0x`/`0X`, decimal otherwise, up to the first non-digit. */
  function ParseMagnitude(u: string): Option<nat>
  {
    var hex := |u| >= 2 && u[0] == '0' && (u[1] == 'x' || u[1] == 'X');
    var radix := if hex then 16 else 10;
    var digits := DigitPrefix(if hex then u[2..] else u, radix);
    if digits == [] then None else Some(Value(digits, radix))
  }

  /** A digit string read whole gives back its value. */
  lemma {:induction false} DigitPrefixOfDigits(s: string, t: string)
    requires AllRadixDigits(s, 10)
    requires t == [] || !IsDigit(t[0])
    ensures DigitPrefix(s + t, 10) == s
  {
    if s != [] {
      assert (s + t)[0] == s[0] && (s + t)[1..] == s[1..] + t;
      DigitPrefixOfDigits(s[1..], t);
    } else {
      assert s + t == t;
    }
  }

  /** The numeral of `n` reads back as `n`; only the numeral of 0 starts with the digit 0. */
  lemma {:induction false} DecimalValue(n: nat)
    ensures Value(Decimal(n), 10) == n
    ensures Decimal(n)[0] == '0' <==> n == 0
  {
    if n >= 10 {
      var s := Decimal(n);
      assert s[..|s| - 1] == Decimal(n / 10);
      DecimalValue(n / 10);
    }
    DigitRoundTrip(n % 10);
  }

  /** Text that may follow a numeral without being read as part of it. */
  predicate EndsNumeral(rest: string)
  {
    rest == [] || (!IsDigit(rest[0]) && rest[0] != 'x' && rest[0] != 'X')
  }

  lemma ParseMagnitudeOfDecimal(n: nat, rest: string)
    requires EndsNumeral(rest)
    ensures ParseMagnitude(Decimal(n) + rest) == Some(n)
  {
    var d := Decimal(n);
    var u := d + rest;
    DigitPrefixOfDigits(d, rest);
    DecimalValue(n);
    assert u[0] == d[0];
    if |u| >= 2 {
      assert u[1] == if |d| >= 2 then d[1] else rest[0];
    }
  }

  /**
   * `parseInt` reads back what `${i}` writes, and ignores whatever follows the numeral
   * when that cannot continue it: `parseInt("2024")` and `parseInt("2024abc")` are both 2024.
   */
  lemma ParseIntOfIntToString(i: int, rest: string)
    requires EndsNumeral(rest)
    ensures ParseInt(IntToString(i) + rest) == Some(i)
  {
    var n: nat := if i < 0 then -i else i;
    var u := Decimal(n) + rest;
    ParseMagnitudeOfDecimal(n, rest);
    assert IsDigit(u[0]);
    if i < 0 {
      assert IntToString(i) + rest == ['-'] + u;
      ParseIntSigned(u, n);
    } else {
      ParseIntUnsigned(u, n);
    }
  }

  lemma ParseIntUnsigned(u: string, n: nat)
    requires |u| > 0 && IsDigit(u[0]) && ParseMagnitude(u) == Some(n)
    ensures ParseInt(u) == Some(n)
  {
    TrimStartOfDigit(u);
  }

  lemma TrimStartOfDigit(u: string)
    requires |u| > 0 && IsDigit(u[0])
    ensures TrimStart(u) == u
  {
  }

  lemma ParseIntSigned(u: string, n: nat)
    requires ParseMagnitude(u) == Some(n)
    ensures ParseInt(['-'] + u) == Some(-(n as int))
  {
    var w := ['-'] + u;
    assert TrimStart(w) == w;
    assert w[1..] == u;
  }
}
