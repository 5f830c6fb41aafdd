// String helpers shared by the PHP and JavaScript parts of the model:
// explode/split on one separator, trimming a set of characters, PHP's
// empty() on strings and PHP's (int) cast of a string.
module Strings {

  // ---------------------------------------------------------------------
  // explode($sep, $s) / s.split(sep) with a one-character separator
  // ---------------------------------------------------------------------

  /** The pieces of `s` between occurrences of `sep`; "" gives [""]. */
  function Split(s: string, sep: char): (parts: seq<string>)
    ensures |parts| >= 1
    ensures forall i :: 0 <= i < |parts| ==> sep !in parts[i]
  {
    if s == [] then [[]]
    else
      var rest := Split(s[1..], sep);
      if s[0] == sep then [[]] + rest
      else [[s[0]] + rest[0]] + rest[1..]
  }

  /** implode($sep, $parts) / parts.join(sep). */
  function Join(parts: seq<string>, sep: char): string
  {
    if |parts| == 0 then []
    else if |parts| == 1 then parts[0]
    else parts[0] + [sep] + Join(parts[1..], sep)
  }

  lemma JoinCons(parts: seq<string>, sep: char)
    requires |parts| >= 2
    ensures Join(parts, sep) == parts[0] + [sep] + Join(parts[1..], sep)
  {
  }

  /** Joining the pieces with the separator gives back the string. */
  lemma {:induction false} JoinSplit(s: string, sep: char)
    ensures Join(Split(s, sep), sep) == s
  {
    if s != [] {
      var rest := Split(s[1..], sep);
      JoinSplit(s[1..], sep);
      if s[0] == sep {
        JoinCons([[]] + rest, sep);
        assert ([[]] + rest)[1..] == rest;
      } else if |rest| == 1 {
        assert Split(s, sep) == [[s[0]] + rest[0]];
      } else {
        var parts := [[s[0]] + rest[0]] + rest[1..];
        JoinCons(parts, sep);
        JoinCons(rest, sep);
        assert parts[1..] == rest[1..];
      }
    }
  }

  /** Splitting a separator-free prefix followed by `t` extends the first piece of `t`. */
  lemma {:induction false} SplitFreePrefix(p: string, t: string, sep: char)
    requires sep !in p
    ensures Split(p + t, sep) == [p + Split(t, sep)[0]] + Split(t, sep)[1..]
  {
    if p != [] {
      SplitFreePrefix(p[1..], t, sep);
      assert (p + t)[1..] == p[1..] + t;
      var rest := Split(p[1..] + t, sep);
      assert Split(p + t, sep) == [[p[0]] + rest[0]] + rest[1..];
      assert [p[0]] + (p[1..] + Split(t, sep)[0]) == p + Split(t, sep)[0];
    } else {
      assert p + t == t;
      assert p + Split(t, sep)[0] == Split(t, sep)[0];
      assert Split(t, sep) == [Split(t, sep)[0]] + Split(t, sep)[1..];
    }
  }

  /** Pieces without the separator survive a join followed by a split. */
  lemma {:induction false} SplitJoin(parts: seq<string>, sep: char)
    requires |parts| >= 1
    requires forall i :: 0 <= i < |parts| ==> sep !in parts[i]
    ensures Split(Join(parts, sep), sep) == parts
  {
    if |parts| == 1 {
      SplitFreePrefix(parts[0], [], sep);
      assert parts[0] + [] == parts[0];
      assert Split([], sep) == [[]];
      assert parts == [parts[0]];
    } else {
      var tail := Join(parts[1..], sep);
      SplitJoin(parts[1..], sep);
      JoinCons(parts, sep);
      SplitAtSep(tail, sep);
      SplitFreePrefix(parts[0], [sep] + tail, sep);
      calc {
        Split(Join(parts, sep), sep);
        { assert parts[0] + [sep] + tail == parts[0] + ([sep] + tail); }
        Split(parts[0] + ([sep] + tail), sep);
        [parts[0] + Split([sep] + tail, sep)[0]] + Split([sep] + tail, sep)[1..];
        [parts[0] + []] + parts[1..];
        { assert parts[0] + [] == parts[0]; }
        parts;
      }
    }
  }

  /** A leading separator closes an empty first piece. */
  lemma SplitAtSep(t: string, sep: char)
    ensures Split([sep] + t, sep) == [[]] + Split(t, sep)
  {
    assert ([sep] + t)[1..] == t;
  }

  /** The number of occurrences of `c` in `s`. */
  function Count(s: string, c: char): nat
  {
    if s == [] then 0 else (if s[0] == c then 1 else 0) + Count(s[1..], c)
  }

  /** There is one piece more than there are separators. */
  lemma {:induction false} SplitLength(s: string, sep: char)
    ensures |Split(s, sep)| == Count(s, sep) + 1
  {
    if s != [] {
      SplitLength(s[1..], sep);
    }
  }

  // ---------------------------------------------------------------------
  // Trimming a set of characters from both ends
  // ---------------------------------------------------------------------

  predicate AllIn(s: string, cs: set<char>)
  {
    forall k :: 0 <= k < |s| ==> s[k] in cs
  }

  /** `s` has no character of `ws` at either end. */
  predicate EdgesOutside(s: string, ws: set<char>)
  {
    s == [] || (s[0] !in ws && s[|s| - 1] !in ws)
  }

  function TrimLeft(s: string, ws: set<char>): (r: string)
    ensures |r| <= |s| && r == s[|s| - |r|..]
    ensures AllIn(s[..|s| - |r|], ws)
    ensures r == [] || r[0] !in ws
  {
    if s != [] && s[0] in ws then
      var r := TrimLeft(s[1..], ws);
      assert s[..|s| - |r|] == [s[0]] + s[1..][..|s| - 1 - |r|];
      r
    else s
  }

  function TrimRight(s: string, ws: set<char>): (r: string)
    ensures |r| <= |s| && r == s[..|r|]
    ensures AllIn(s[|r|..], ws)
    ensures r == [] || r[|r| - 1] !in ws
  {
    if s != [] && s[|s| - 1] in ws then
      var r := TrimRight(s[..|s| - 1], ws);
      assert s[|r|..] == s[..|s| - 1][|r|..] + [s[|s| - 1]];
      r
    else s
  }

  /** `s` with every leading and trailing character of `ws` removed. */
  function Trim(s: string, ws: set<char>): string
  {
    TrimRight(TrimLeft(s, ws), ws)
  }

  lemma {:induction false} TrimLeftOf(a: string, t: string, ws: set<char>)
    requires AllIn(a, ws)
    requires t == [] || t[0] !in ws
    ensures TrimLeft(a + t, ws) == t
  {
    if a != [] {
      assert (a + t)[1..] == a[1..] + t;
      TrimLeftOf(a[1..], t, ws);
    } else {
      assert a + t == t;
    }
  }

  lemma {:induction false} TrimRightOf(t: string, b: string, ws: set<char>)
    requires AllIn(b, ws)
    requires t == [] || t[|t| - 1] !in ws
    ensures TrimRight(t + b, ws) == t
  {
    if b != [] {
      assert (t + b)[..|t + b| - 1] == t + b[..|b| - 1];
      TrimRightOf(t, b[..|b| - 1], ws);
    } else {
      assert t + b == t;
    }
  }

  /**
   * Trim is characterised by what it keeps: whatever string `m` without edge
   * characters of `ws` is surrounded by runs of `ws` characters, Trim gives `m`.
   */
  lemma TrimUnique(a: string, m: string, b: string, ws: set<char>)
    requires AllIn(a, ws) && AllIn(b, ws)
    requires EdgesOutside(m, ws)
    ensures Trim(a + m + b, ws) == m
  {
    if m == [] {
      assert a + m + b == a + b;
      assert AllIn(a + b, ws);
      TrimLeftOf(a + b, [], ws);
      assert a + b + [] == a + b;
      TrimRightOf([], [], ws);
    } else {
      assert a + m + b == a + (m + b);
      TrimLeftOf(a, m + b, ws);
      TrimRightOf(m, b, ws);
    }
  }

  /** Neither end of a trimmed string is a trimmed character. */
  lemma TrimEdges(s: string, ws: set<char>)
    ensures EdgesOutside(Trim(s, ws), ws)
  {
    var l := TrimLeft(s, ws);
    var r := TrimRight(l, ws);
    if r != [] {
      assert r[0] == l[0];
    }
  }

  /** Trimming twice is trimming once. */
  lemma TrimIdempotent(s: string, ws: set<char>)
    ensures Trim(Trim(s, ws), ws) == Trim(s, ws)
  {
    var r := Trim(s, ws);
    TrimEdges(s, ws);
    TrimUnique([], r, [], ws);
    assert [] + r + [] == r;
  }

  /** A string made only of trimmed characters trims to "". */
  lemma TrimAllSpace(s: string, ws: set<char>)
    requires AllIn(s, ws)
    ensures Trim(s, ws) == []
  {
    TrimUnique(s, [], [], ws);
    assert s + [] + [] == s;
  }

  // ---------------------------------------------------------------------
  // PHP string semantics
  // ---------------------------------------------------------------------

  const VerticalTab: char := '\U{000B}'
  const FormFeed: char := '\U{000C}'

  /** The characters PHP's trim() removes by default. */
  const PhpTrimChars: set<char> := {' ', '\t', '\n', '\r', '\0', VerticalTab}

  function PhpTrim(s: string): string
  {
    Trim(s, PhpTrimChars)
  }

  /** PHP's empty() on a string: "" and "0" are empty. */
  predicate PhpEmpty(s: string)
  {
    s == "" || s == "0"
  }

  predicate IsDigit(c: char)
  {
    '0' <= c <= '9'
  }

  function DigitValue(c: char): nat
    requires IsDigit(c)
  {
    (c as int) - ('0' as int)
  }

  /** The longest prefix of `s` made of decimal digits. */
  function LeadingDigits(s: string): (d: string)
    ensures |d| <= |s| && d == s[..|d|]
    ensures forall k :: 0 <= k < |d| ==> IsDigit(d[k])
    ensures |d| == |s| || !IsDigit(s[|d|])
  {
    if s != [] && IsDigit(s[0]) then [s[0]] + LeadingDigits(s[1..]) else []
  }

  function DigitsValue(d: string): nat
    requires forall k :: 0 <= k < |d| ==> IsDigit(d[k])
  {
    if d == [] then 0 else DigitsValue(d[..|d| - 1]) * 10 + DigitValue(d[|d| - 1])
  }

  // ---------------------------------------------------------------------
  // PHP's (int) cast of a string, on a 64-bit build
  // ---------------------------------------------------------------------

  /** The characters PHP skips before a number when it casts a string to int. */
  const IntvalSpace: set<char> := {' ', '\t', '\n', '\r', VerticalTab, FormFeed}

  /** PHP_INT_MAX and PHP_INT_MIN. */
  const PhpIntMax: int := 0x7FFF_FFFF_FFFF_FFFF
  const PhpIntMin: int := -0x8000_0000_0000_0000

  /**
   * The smallest magnitude that rounds to infinity as an IEEE double:
   * 2^1024 - 2^970, half a unit above the largest finite double.
   */
  const DoubleOverflow: nat :=
    0xFFFFFFFFFFFFFC00_0000000000000000_0000000000000000_0000000000000000_0000000000000000_0000000000000000_0000000000000000_0000000000000000_0000000000000000_0000000000000000_0000000000000000_0000000000000000_0000000000000000_0000000000000000_0000000000000000_0000000000000000

  function Pow10(e: nat): (p: nat)
    ensures p >= 1
  {
    if e == 0 then 1 else 10 * Pow10(e - 1)
  }

  /**
   * What PHP's numeric-string scan finds at the start of an unsigned text:
   * nothing numeric; digits alone, read as an integer; or digits with a
   * decimal point or an exponent (or a point followed by digits), read as a
   * float, held here exactly as mantissa * 10^exponent.
   */
  datatype Numeral = NotNumeric | IntNumeral(value: nat) | FloatNumeral(mantissa: nat, exponent: int)

  /** An exponent part starts here: e or E, an optional sign, then a digit. */
  predicate ExponentStart(s: string)
  {
    |s| >= 2 && (s[0] == 'e' || s[0] == 'E') &&
    (IsDigit(s[1]) || (|s| >= 3 && (s[1] == '+' || s[1] == '-') && IsDigit(s[2])))
  }

  /** The value of the exponent part at the start of `s`, 0 without one. */
  function ExponentOf(s: string): int
  {
    if !ExponentStart(s) then 0
    else if s[1] == '-' then -(DigitsValue(LeadingDigits(s[2..])) as int)
    else if s[1] == '+' then DigitsValue(LeadingDigits(s[2..]))
    else DigitsValue(LeadingDigits(s[1..]))
  }

  function ReadNumeral(u: string): Numeral
  {
    var d := LeadingDigits(u);
    var after := u[|d|..];
    if after != [] && after[0] == '.' && (d != [] || (|after| >= 2 && IsDigit(after[1]))) then
      var f := LeadingDigits(after[1..]);
      assert forall k :: 0 <= k < |d + f| ==> IsDigit((d + f)[k]);
      FloatNumeral(DigitsValue(d + f), ExponentOf(after[1 + |f|..]) - |f|)
    else if d != [] && ExponentStart(after) then FloatNumeral(DigitsValue(d), ExponentOf(after))
    else if d != [] then IntNumeral(DigitsValue(d))
    else NotNumeric
  }

  /** m * 10^e. */
  function ScaleUp(m: nat, e: nat): nat
  {
    var p := Pow10(e);
    m * p
  }

  /** m / 10^e, rounded down: e decimal digits dropped. */
  function ScaleDown(m: nat, e: nat): nat
  {
    if e == 0 then m else ScaleDown(m / 10, e - 1)
  }

  /** The magnitude of mantissa * 10^exponent, truncated toward zero. */
  function Truncated(mantissa: nat, exponent: int): nat
  {
    if exponent >= 0 then ScaleUp(mantissa, exponent) else ScaleDown(mantissa, -exponent)
  }

  /** mantissa * 10^exponent rounds to infinity as a double. */
  predicate Overflows(mantissa: nat, exponent: int)
  {
    if exponent >= 0 then ScaleUp(mantissa, exponent) >= DoubleOverflow
    else mantissa >= ScaleUp(DoubleOverflow, -exponent)
  }

  /**
   * The conversion of an out-of-range number PHP applies to numeric strings:
   * infinity gives 0, and a finite value outside the int range saturates.
   */
  function Saturate(negative: bool, magnitude: nat, infinite: bool): (r: int)
    ensures PhpIntMin <= r <= PhpIntMax
    ensures !infinite && !negative && magnitude <= PhpIntMax ==> r == magnitude
    ensures !infinite && negative && magnitude <= -PhpIntMin ==> r == -(magnitude as int)
    ensures !infinite && !negative && magnitude > PhpIntMax ==> r == PhpIntMax
    ensures !infinite && negative && magnitude > -PhpIntMin ==> r == PhpIntMin
    ensures infinite ==> r == 0
  {
    if infinite then 0
    else if negative then (if magnitude > -PhpIntMin then PhpIntMin else -(magnitude as int))
    else if magnitude > PhpIntMax then PhpIntMax else magnitude
  }

  /**
   * PHP's (int) cast of a string: skip leading white space and read an
   * optional sign and the numeral that follows, ignoring the rest. An integer
   * numeral keeps its value; a float numeral is truncated toward zero; either
   * saturates outside the int range, and a float that overflows a double
   * gives 0. No numeral gives 0.
   */
  function Intval(s: string): (r: int)
    ensures PhpIntMin <= r <= PhpIntMax
  {
    var t := TrimLeft(s, IntvalSpace);
    var signed := t != [] && (t[0] == '-' || t[0] == '+');
    NumeralValue(signed && t[0] == '-', ReadNumeral(if signed then t[1..] else t))
  }

  /** The int a numeral converts to, negated when a minus sign came before it. */
  function NumeralValue(negative: bool, n: Numeral): (r: int)
    ensures PhpIntMin <= r <= PhpIntMax
  {
    match n
    case NotNumeric => 0
    case IntNumeral(v) => Saturate(negative, v, v >= DoubleOverflow)
    case FloatNumeral(m, e) => Saturate(negative, Truncated(m, e), Overflows(m, e))
  }

  /** A text that starts with a digit is read without trimming or sign. */
  lemma IntvalUnsigned(u: string)
    requires u != [] && IsDigit(u[0])
    ensures Intval(u) == NumeralValue(false, ReadNumeral(u))
  {
    assert u[0] !in IntvalSpace;
    TrimLeftOf([], u, IntvalSpace);
    assert [] + u == u;
  }

  /** The decimal representation of `n`, without sign or leading zeros. */
  function Decimal(n: nat): (d: string)
    ensures d != [] && IsDigit(d[0])
    ensures forall k :: 0 <= k < |d| ==> IsDigit(d[k])
  {
    if n < 10 then [('0' as int + n) as char]
    else Decimal(n / 10) + [('0' as int + n % 10) as char]
  }

  lemma {:induction false} DecimalValue(n: nat)
    ensures DigitsValue(Decimal(n)) == n
  {
    if n >= 10 {
      DecimalValue(n / 10);
      var d := Decimal(n);
      assert d[..|d| - 1] == Decimal(n / 10);
    }
  }

  /** The leading digits of a digit run followed by a non-digit are that run. */
  lemma {:induction false} LeadingDigitsOf(d: string, rest: string)
    requires forall k :: 0 <= k < |d| ==> IsDigit(d[k])
    requires rest == [] || !IsDigit(rest[0])
    ensures LeadingDigits(d + rest) == d
  {
    if d != [] {
      LeadingDigitsOf(d[1..], rest);
      assert (d + rest)[1..] == d[1..] + rest;
    } else {
      assert d + rest == rest;
    }
  }

  /** The value of two digit runs written one after the other. */
  lemma {:induction false} DigitsValueAppend(a: string, b: string)
    requires forall k :: 0 <= k < |a| ==> IsDigit(a[k])
    requires forall k :: 0 <= k < |b| ==> IsDigit(b[k])
    ensures forall k :: 0 <= k < |a + b| ==> IsDigit((a + b)[k])
    ensures DigitsValue(a + b) == DigitsValue(a) * Pow10(|b|) + DigitsValue(b)
  {
    if b == [] {
      assert a + b == a;
    } else {
      var b' := b[..|b| - 1];
      var c := b[|b| - 1];
      DigitsValueAppend(a, b');
      assert (a + b)[..|a + b| - 1] == a + b' && (a + b)[|a + b| - 1] == c;
      assert DigitsValue(b) == DigitsValue(b') * 10 + DigitValue(c);
      ShiftDigit(DigitsValue(a), Pow10(|b'|), DigitsValue(b'), DigitValue(c));
    }
  }

  /** Appending a digit to x * p + y appends it to y and multiplies p by ten. */
  lemma ShiftDigit(x: int, p: int, y: int, c: int)
    ensures (x * p + y) * 10 + c == x * (10 * p) + (y * 10 + c)
  {
  }

  /** k digits spell a number below 10^k. */
  lemma {:induction false} DigitsBelow(d: string)
    requires forall k :: 0 <= k < |d| ==> IsDigit(d[k])
    ensures DigitsValue(d) < Pow10(|d|)
  {
    if d != [] {
      DigitsBelow(d[..|d| - 1]);
    }
  }

  /** A digit run followed by nothing that continues a numeral is an integer numeral. */
  lemma ReadDigitRun(d: string, rest: string)
    requires d != [] && forall k :: 0 <= k < |d| ==> IsDigit(d[k])
    requires rest == [] || (!IsDigit(rest[0]) && rest[0] != '.' && !ExponentStart(rest))
    ensures ReadNumeral(d + rest) == IntNumeral(DigitsValue(d))
  {
    LeadingDigitsOf(d, rest);
    assert (d + rest)[|d|..] == rest;
  }

  /**
   * (int) of a digit run followed by anything that does not continue a
   * numeral is the integer the digits spell, as long as it fits.
   */
  lemma IntvalDigits(d: string, rest: string)
    requires d != [] && forall k :: 0 <= k < |d| ==> IsDigit(d[k])
    requires rest == [] || (!IsDigit(rest[0]) && rest[0] != '.' && !ExponentStart(rest))
    requires DigitsValue(d) <= PhpIntMax
    ensures Intval(d + rest) == DigitsValue(d)
  {
    IntvalUnsigned(d + rest);
    ReadDigitRun(d, rest);
  }

  /** (int) reads back every number written in decimal that fits in an int. */
  lemma IntvalDecimal(n: nat)
    requires n <= PhpIntMax
    ensures Intval(Decimal(n)) == n
  {
    var d := Decimal(n);
    DecimalValue(n);
    IntvalDigits(d, []);
    assert d + [] == d;
  }

  /** (int) reads back every negative number written with a minus sign, down to PHP_INT_MIN. */
  lemma IntvalNegative(n: nat)
    requires 0 < n <= -PhpIntMin
    ensures Intval("-" + Decimal(n)) == -(n as int)
  {
    var d := Decimal(n);
    var t := "-" + d;
    DecimalValue(n);
    ReadDigitRun(d, []);
    assert d + [] == d;
    assert t[0] == '-' && t[0] !in IntvalSpace;
    TrimLeftOf([], t, IntvalSpace);
    assert [] + t == t;
    assert t[1..] == d;
  }

  /** A decimal above PHP_INT_MAX saturates at PHP_INT_MAX, unless it overflows a double. */
  lemma IntvalSaturates(n: nat)
    requires PhpIntMax < n < DoubleOverflow
    ensures Intval(Decimal(n)) == PhpIntMax
  {
    var d := Decimal(n);
    DecimalValue(n);
    IntvalUnsigned(d);
    ReadDigitRun(d, []);
    assert d + [] == d;
  }

  /** Digits, a point and more digits read as a float numeral. */
  lemma ReadFraction(d: string, f: string)
    requires d != [] && forall k :: 0 <= k < |d| ==> IsDigit(d[k])
    requires forall k :: 0 <= k < |f| ==> IsDigit(f[k])
    ensures forall k :: 0 <= k < |d + f| ==> IsDigit((d + f)[k])
    ensures ReadNumeral(d + "." + f) == FloatNumeral(DigitsValue(d + f), -|f|)
  {
    var s := d + "." + f;
    var after := "." + f;
    assert s == d + after;
    LeadingDigitsOf(d, after);
    assert s[|d|..] == after;
    assert after[1..] == f + [];
    LeadingDigitsOf(f, []);
    assert after[1 + |f|..] == [];
    FractionBranch(s, d, f);
  }

  /** The point branch of ReadNumeral, once the two digit runs are known. */
  lemma FractionBranch(u: string, d: string, f: string)
    requires d != [] && LeadingDigits(u) == d
    requires |u| > |d| && u[|d|] == '.' && LeadingDigits(u[|d| + 1..]) == f
    requires u[|d| + 1 + |f|..] == []
    ensures forall k :: 0 <= k < |d + f| ==> IsDigit((d + f)[k])
    ensures ReadNumeral(u) == FloatNumeral(DigitsValue(d + f), -|f|)
  {
    var after := u[|d|..];
    assert after[0] == '.' && after[1..] == u[|d| + 1..] && after[1 + |f|..] == [];
  }

  /** Digits, a point and more digits: the fraction is cut off toward zero. */
  lemma IntvalFraction(n: nat, f: string)
    requires n <= PhpIntMax
    requires forall k :: 0 <= k < |f| ==> IsDigit(f[k])
    ensures Intval(Decimal(n) + "." + f) == n
  {
    var d := Decimal(n);
    IntvalUnsigned(d + "." + f);
    ReadFraction(d, f);
    DecimalValue(n);
    DigitsValueAppend(d, f);
    DigitsBelow(f);
    CutFraction(n, f, DigitsValue(d + f));
  }

  /** The float n.f truncates to n and is far below a double's range. */
  lemma CutFraction(n: nat, f: string, v: nat)
    requires n <= PhpIntMax
    requires forall k :: 0 <= k < |f| ==> IsDigit(f[k])
    requires v == n * Pow10(|f|) + DigitsValue(f) && DigitsValue(f) < Pow10(|f|)
    ensures Truncated(v, -|f|) == n && !Overflows(v, -|f|)
  {
    if f == [] {
      assert Truncated(v, -|f|) == ScaleUp(n, 0) == n;
    } else {
      DropDigits(n, |f|, DigitsValue(f));
      assert Truncated(v, -|f|) == ScaleDown(v, |f|) == n;
      AtLeastScaled(v, DoubleOverflow, |f|);
    }
  }

  /** Dropping k digits from n * 10^k + r, with r below 10^k, gives n back. */
  lemma {:induction false} DropDigits(n: nat, k: nat, r: nat)
    requires r < Pow10(k)
    ensures ScaleDown(n * Pow10(k) + r, k) == n
  {
    if k > 0 {
      var p := Pow10(k - 1);
      assert n * Pow10(k) == 10 * (n * p);
      assert (10 * (n * p) + r) / 10 == n * p + r / 10;
      DropDigits(n, k - 1, r / 10);
    }
  }

  /** m reaches c * 10^k exactly when m with k digits dropped reaches c. */
  lemma {:induction false} AtLeastScaled(m: nat, c: nat, k: nat)
    ensures m >= ScaleUp(c, k) <==> ScaleDown(m, k) >= c
  {
    if k > 0 {
      var p := Pow10(k - 1);
      assert ScaleUp(c, k) == 10 * ScaleUp(c, k - 1) by {
        assert c * Pow10(k) == 10 * (c * p);
      }
      AtLeastScaled(m / 10, c, k - 1);
    }
  }

  /** An e followed by digits is an exponent part worth those digits. */
  lemma ExponentDigits(x: string)
    requires x != [] && forall k :: 0 <= k < |x| ==> IsDigit(x[k])
    ensures ExponentStart("e" + x) && ExponentOf("e" + x) == DigitsValue(x)
  {
    assert ("e" + x)[1..] == x;
    LeadingDigitsOf(x, []);
    assert x + [] == x;
  }

  /** Digits, e and more digits read as a float numeral. */
  lemma ReadExponent(d: string, x: string)
    requires d != [] && forall k :: 0 <= k < |d| ==> IsDigit(d[k])
    requires x != [] && forall k :: 0 <= k < |x| ==> IsDigit(x[k])
    ensures ReadNumeral(d + "e" + x) == FloatNumeral(DigitsValue(d), DigitsValue(x))
  {
    var s := d + "e" + x;
    LeadingDigitsOf(d, "e" + x);
    assert s == d + ("e" + x);
    assert s[|d|..] == "e" + x;
    ExponentDigits(x);
  }

  /** Digits, e and more digits: the exponent scales the value, as long as it fits. */
  lemma IntvalExponent(m: nat, k: nat)
    requires ScaleUp(m, k) <= PhpIntMax
    ensures Intval(Decimal(m) + "e" + Decimal(k)) == ScaleUp(m, k)
  {
    var d := Decimal(m);
    var x := Decimal(k);
    IntvalUnsigned(d + "e" + x);
    ReadExponent(d, x);
    DecimalValue(m);
    DecimalValue(k);
  }

  /** PHP 8 reads "1e3" as the float 1000, not as the digit 1. */
  lemma IntvalOneE3()
    ensures Intval("1e3") == 1000
  {
    IntvalExponent(1, 3);
    SpelledOneE3();
    assert ScaleUp(1, 3) == 1000;
  }

  /** "1e3" spelled with Decimal. */
  lemma SpelledOneE3()
    ensures Decimal(1) + "e" + Decimal(3) == "1e3"
  {
    assert Decimal(1) == "1" && Decimal(3) == "3";
  }
}
