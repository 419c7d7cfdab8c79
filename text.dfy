/** The pieces of Python's string and number handling that the CSV
    persistence relies on: `str.strip()`, `str.upper()` as far as a
    comparison with an upper-case ASCII word can see it, `float()` on
    plain decimal text, and the `"%.2f"` formatter. */
module Text {
  import opened Wrappers

  // ---------------------------------------------------------------------
  // str.strip()

  /** The characters for which Python's `str.isspace()` holds. */
  predicate IsSpace(c: char) {
    var n := c as int;
    n == 0x20 || 0x09 <= n <= 0x0D || 0x1C <= n <= 0x1F || n == 0x85 || n == 0xA0
    || n == 0x1680 || 0x2000 <= n <= 0x200A || n == 0x2028 || n == 0x2029
    || n == 0x202F || n == 0x205F || n == 0x3000
  }

  /** Drops leading whitespace: what is left is a suffix of `s` that does
      not start with whitespace, and all that was dropped is whitespace. */
  function TrimStart(s: string): (r: string)
    ensures |r| <= |s| && r == s[|s| - |r|..]
    ensures r == [] || !IsSpace(r[0])
    ensures forall i :: 0 <= i < |s| - |r| ==> IsSpace(s[i])
  {
    if |s| > 0 && IsSpace(s[0]) then TrimStart(s[1..]) else s
  }

  /** Drops trailing whitespace: what is left is a prefix of `s` that does
      not end with whitespace, and all that was dropped is whitespace. */
  function TrimEnd(s: string): (r: string)
    ensures |r| <= |s| && r == s[..|r|]
    ensures r == [] || !IsSpace(r[|r| - 1])
    ensures forall i :: |r| <= i < |s| ==> IsSpace(s[i])
  {
    if |s| > 0 && IsSpace(s[|s| - 1]) then TrimEnd(s[..|s| - 1]) else s
  }

  /** Python's `s.strip()`: neither end of the result is whitespace. */
  function Strip(s: string): (r: string)
    ensures |r| <= |s|
    ensures r == [] || (!IsSpace(r[0]) && !IsSpace(r[|r| - 1]))
  {
    var t := TrimStart(s);
    var r := TrimEnd(t);
    assert r != [] ==> r[0] == t[0];
    r
  }

  /** `strip()` keeps every character that is not whitespace; `k` is where
      the character at `j` ends up. */
  lemma StripKeeps(s: string, j: nat) returns (k: nat)
    requires j < |s| && !IsSpace(s[j])
    ensures k < |Strip(s)| && Strip(s)[k] == s[j]
  {
    var t := TrimStart(s);
    var d := |s| - |t|;
    assert j >= d;
    k := j - d;
    assert t[k] == s[j];
    assert k < |TrimEnd(t)|;
  }

  /** A text is left alone by `strip()` exactly when it neither starts nor
      ends with whitespace; hence `strip()` is idempotent. */
  lemma StripFixedPoint(s: string)
    ensures Strip(s) == s <==> (s == [] || (!IsSpace(s[0]) && !IsSpace(s[|s| - 1])))
    ensures Strip(Strip(s)) == Strip(s)
  {
    if s == [] || (!IsSpace(s[0]) && !IsSpace(s[|s| - 1])) {
      StripUnchanged(s);
    }
    StripUnchanged(Strip(s));
  }

  lemma {:induction false} StripUnchanged(s: string)
    requires s == [] || (!IsSpace(s[0]) && !IsSpace(s[|s| - 1]))
    ensures Strip(s) == s
  {
    if s != [] {
      TrimStartUnchanged(s);
      TrimEndUnchanged(s);
    } else {
      assert Strip(s) == [];
    }
  }

  lemma TrimStartUnchanged(s: string)
    requires s != [] && !IsSpace(s[0])
    ensures TrimStart(s) == s
  {
  }

  lemma TrimEndUnchanged(s: string)
    requires s != [] && !IsSpace(s[|s| - 1])
    ensures TrimEnd(s) == s
  {
  }

  /** `strip()` removes exactly the whitespace padding around a text
      that neither starts nor ends with whitespace. */
  lemma StripPadded(pre: string, x: string, post: string)
    requires forall i :: 0 <= i < |pre| ==> IsSpace(pre[i])
    requires forall i :: 0 <= i < |post| ==> IsSpace(post[i])
    requires x != [] && !IsSpace(x[0]) && !IsSpace(x[|x| - 1])
    ensures Strip(pre + x + post) == x
  {
    assert pre + x + post == pre + (x + post);
    TrimStartPadded(pre, x + post);
    TrimEndPadded(x, post);
  }

  lemma {:induction false} TrimStartPadded(pre: string, x: string)
    requires forall i :: 0 <= i < |pre| ==> IsSpace(pre[i])
    requires x != [] && !IsSpace(x[0])
    ensures TrimStart(pre + x) == x
  {
    if pre == [] {
      assert pre + x == x;
    } else {
      assert (pre + x)[1..] == pre[1..] + x;
      TrimStartPadded(pre[1..], x);
    }
  }

  lemma {:induction false} TrimEndPadded(x: string, post: string)
    requires forall i :: 0 <= i < |post| ==> IsSpace(post[i])
    requires x != [] && !IsSpace(x[|x| - 1])
    ensures TrimEnd(x + post) == x
  {
    if post == [] {
      assert x + post == x;
    } else {
      var w := x + post;
      assert w[..|w| - 1] == x + post[..|post| - 1];
      TrimEndPadded(x, post[..|post| - 1]);
    }
  }

  /** `strip()` yields the empty text exactly when every character is
      whitespace. */
  lemma StripBlank(s: string)
    ensures Strip(s) == [] <==> forall i :: 0 <= i < |s| ==> IsSpace(s[i])
  {
    var t := TrimStart(s);
    if t != [] {
      assert t[0] == s[|s| - |t|];
      assert t[..1] == TrimEnd(t)[..1];
    }
  }

  // ---------------------------------------------------------------------
  // str.upper()

  /** Upper case of one character as `str.upper()` gives it for the ASCII
      letters and for the two other characters whose upper case is a
      single ASCII letter: U+017F (long s, to 'S') and U+0131 (dotless i,
      to 'I'). Every other character is left as it is; none of them has
      an upper case made only of letters of an upper-case ASCII word
      such as "SAVINGS", so comparing with such a word is unaffected. */
  function UpperChar(c: char): char {
    if 'a' <= c <= 'z' then (c as int - 32) as char
    else if c == '\U{017F}' then 'S'
    else if c == '\U{0131}' then 'I'
    else c
  }

  /** Python's `s.upper()`, character by character: same length, and no
      lower-case ASCII letter is left. */
  function Upper(s: string): (r: string)
    ensures |r| == |s|
    ensures forall i :: 0 <= i < |r| ==> !('a' <= r[i] <= 'z')
  {
    seq(|s|, i requires 0 <= i < |s| => UpperChar(s[i]))
  }

  // ---------------------------------------------------------------------
  // Decimal digits

  /** An ASCII decimal digit. */
  predicate IsDigit(c: char) {
    '0' <= c <= '9'
  }

  predicate AllDigits(s: string) {
    forall i :: 0 <= i < |s| ==> IsDigit(s[i])
  }

  function DigitChar(d: nat): (c: char)
    requires d < 10
    ensures IsDigit(c) && c as int - '0' as int == d
  {
    ('0' as int + d) as char
  }

  /** The number a run of decimal digits denotes (0 for no digits). */
  function DigitsValue(s: string): nat
    requires AllDigits(s)
  {
    if s == [] then 0
    else DigitsValue(s[..|s| - 1]) * 10 + (s[|s| - 1] as int - '0' as int)
  }

  function Pow10(n: nat): (r: nat)
    ensures r >= 1
  {
    if n == 0 then 1 else 10 * Pow10(n - 1)
  }

  /** Decimal text of a natural number without leading zeros, as Python
      prints the integer part of a fixed-point number. */
  function NatToDigits(n: nat): (r: string)
    ensures r != [] && AllDigits(r)
    ensures DigitsValue(r) == n
    ensures r[0] == '0' ==> n == 0
  {
    if n < 10 then [DigitChar(n)]
    else
      var r := NatToDigits(n / 10) + [DigitChar(n % 10)];
      assert r[..|r| - 1] == NatToDigits(n / 10);
      r
  }

  /** Two digits, with a leading zero below ten. */
  function TwoDigits(n: nat): (r: string)
    requires n < 100
    ensures |r| == 2 && AllDigits(r) && DigitsValue(r) == n
  {
    var r := [DigitChar(n / 10), DigitChar(n % 10)];
    assert r[..1] == [DigitChar(n / 10)] && r[..1][..0] == [];
    assert DigitsValue(r[..1]) == n / 10;
    r
  }

  // ---------------------------------------------------------------------
  // float() on decimal text

  /** The position of the first '.' in `s`, or `|s|` when there is none. */
  function IndexOfDot(s: string): (k: nat)
    ensures k <= |s|
    ensures k < |s| ==> s[k] == '.'
    ensures forall i :: 0 <= i < k ==> s[i] != '.'
  {
    if s == [] then 0
    else if s[0] == '.' then 0
    else 1 + IndexOfDot(s[1..])
  }

  /** `float(t)` for unsigned decimal text: ASCII digits, optionally a
      point and more digits, at least one digit in all ("7", "7.", ".5",
      "7.25"). */
  function ParseUnsigned(t: string): (r: Option<real>)
    ensures r.Some? ==> t != [] && r.value >= 0.0
  {
    var k := IndexOfDot(t);
    var whole := t[..k];
    var frac := if k < |t| then t[k + 1..] else "";
    if AllDigits(whole) && AllDigits(frac) && |whole| + |frac| > 0 then
      var fraction := DigitsValue(frac) as real / Pow10(|frac|) as real;
      assert Pow10(|frac|) as real > 0.0 && fraction >= 0.0;
      Some(DigitsValue(whole) as real + fraction)
    else
      None
  }

  /** `float(t)` on already stripped text: an optional sign followed by
      unsigned decimal text; `None` stands for the `ValueError`. The empty
      text fails, and a negative value comes only from a leading minus. */
  function ParseDecimal(t: string): (r: Option<real>)
    ensures r.Some? ==> t != []
    ensures r.Some? && r.value < 0.0 ==> t[0] == '-'
    ensures r.Some? && t[0] == '-' ==> r.value <= 0.0
  {
    if |t| > 0 && (t[0] == '+' || t[0] == '-') then
      match ParseUnsigned(t[1..])
      case None => None
      case Some(v) => Some(if t[0] == '-' then -v else v)
    else
      ParseUnsigned(t)
  }

  /** The model's `float()` refuses text holding a character that is
      neither an ASCII digit, a point nor a sign. */
  lemma ParseDecimalRejects(t: string, j: nat)
    requires j < |t| && !IsDigit(t[j]) && t[j] != '.' && t[j] != '+' && t[j] != '-'
    ensures ParseDecimal(t) == None
  {
    if |t| > 0 && (t[0] == '+' || t[0] == '-') {
      ParseUnsignedRejects(t[1..], j - 1);
    } else {
      ParseUnsignedRejects(t, j);
    }
  }

  lemma ParseUnsignedRejects(u: string, j: nat)
    requires j < |u| && !IsDigit(u[j]) && u[j] != '.'
    ensures ParseUnsigned(u) == None
  {
    var k := IndexOfDot(u);
    if j < k {
      assert u[..k][j] == u[j];
    } else {
      assert u[k + 1..][j - k - 1] == u[j];
    }
  }

  /** `float("")` fails and `float("0")` is zero. */
  lemma ParseDecimalEmptyAndZero(z: string)
    requires z == "0"
    ensures ParseDecimal("") == None
    ensures ParseDecimal(z) == Some(0.0)
  {
    assert IndexOfDot(z) == 1;
    assert z[..1] == z;
  }

  // ---------------------------------------------------------------------
  // "%.2f"

  /** Rounding to the nearest integer, ties to the even neighbour: how
      `"%.2f"` rounds a value that lies exactly half-way. */
  function RoundHalfEven(x: real): (r: int)
    ensures x - 0.5 <= r as real <= x + 0.5
    ensures (r as real == x - 0.5 || r as real == x + 0.5) ==> r % 2 == 0
  {
    var n := x.Floor;
    var f := x - n as real;
    if f < 0.5 then n
    else if f > 0.5 then n + 1
    else if n % 2 == 0 then n
    else n + 1
  }

  function Abs(x: real): real {
    if x < 0.0 then -x else x
  }

  /** The number of hundredths `"%.2f"` prints for the magnitude of `x`. */
  function Hundredths(x: real): (c: nat)
    ensures Abs(x) * 100.0 - 0.5 <= c as real <= Abs(x) * 100.0 + 0.5
  {
    var c := RoundHalfEven(Abs(x) * 100.0);
    assert c as real >= -0.5;
    c
  }

  /** The text "%.2f" prints for `c` hundredths, without a sign. */
  function CentsText(c: nat): string {
    NatToDigits(c / 100) + "." + TwoDigits(c % 100)
  }

  /** Python's `"%.2f" % x`: a sign for a negative value, the integer part
      without leading zeros, a point and exactly two decimals. */
  function FormatFixed2(x: real): (r: string)
    ensures r != [] && (r[0] == '-' <==> x < 0.0)
  {
    var c := Hundredths(x);
    assert IsDigit(CentsText(c)[0]);
    SignedCents(x < 0.0, c)
  }

  /** `"%.2f"` always prints a point followed by exactly two digits. */
  lemma FormatFixed2TwoDecimals(x: real)
    ensures var r := FormatFixed2(x);
      |r| >= 4 && r[|r| - 3] == '.' && IsDigit(r[|r| - 2]) && IsDigit(r[|r| - 1])
  {
    var c := Hundredths(x);
    var whole := NatToDigits(c / 100);
    assert CentsText(c) == whole + "." + TwoDigits(c % 100);
  }

  /** `c` hundredths printed with two decimals, after a minus sign when
      `negative`. */
  function SignedCents(negative: bool, c: nat): string {
    (if negative then "-" else "") + CentsText(c)
  }

  /** The value `FormatFixed2(x)` denotes. */
  function Rounded2(x: real): (r: real)
    ensures Abs(r - x) <= 0.005
  {
    var v := Hundredths(x) as real / 100.0;
    if x < 0.0 then -v else v
  }

  lemma ParseCentsText(c: nat)
    ensures ParseUnsigned(CentsText(c)) == Some(c as real / 100.0)
    ensures IsDigit(CentsText(c)[0])
  {
    var w, f := NatToDigits(c / 100), TwoDigits(c % 100);
    var u := CentsText(c);
    assert IndexOfDot(u) == |w| by {
      assert u == w + ("." + f);
      IndexOfDotAfterDigits(w, "." + f);
    }
    assert u[..|w|] == w && u[|w| + 1..] == f;
    assert Pow10(2) == 100;
    assert (c / 100) as real + (c % 100) as real / 100.0 == c as real / 100.0;
  }

  /** Reading back what `"%.2f"` printed gives the value rounded to two
      decimals: `float("%.2f" % x) == round(x, 2)`. */
  lemma FormatParseRoundTrip(x: real)
    ensures ParseDecimal(FormatFixed2(x)) == Some(Rounded2(x))
  {
    var c := Hundredths(x);
    assert FormatFixed2(x) == SignedCents(x < 0.0, c);
    SignedCentsParse(x < 0.0, c);
    assert Rounded2(x) == if x < 0.0 then -(c as real / 100.0) else c as real / 100.0;
  }

  lemma SignedCentsParse(negative: bool, c: nat)
    ensures ParseDecimal(SignedCents(negative, c))
      == Some(if negative then -(c as real / 100.0) else c as real / 100.0)
  {
    var u := CentsText(c);
    ParseCentsText(c);
    if negative {
      assert SignedCents(negative, c) == "-" + u;
      ParseNegative(u, c as real / 100.0);
    } else {
      assert SignedCents(negative, c) == u;
      ParseUnsignedFirstDigit(u);
    }
  }

  lemma ParseNegative(u: string, v: real)
    requires ParseUnsigned(u) == Some(v)
    ensures ParseDecimal("-" + u) == Some(-v)
  {
    assert ("-" + u)[1..] == u;
  }

  lemma ParseUnsignedFirstDigit(u: string)
    requires u != [] && IsDigit(u[0])
    ensures ParseDecimal(u) == ParseUnsigned(u)
  {
  }

  /** "%.2f" never prints whitespace at either end, so the value survives
      the `strip()` that the loader applies to the field. */
  lemma FormatFixed2Stripped(x: real)
    ensures Strip(FormatFixed2(x)) == FormatFixed2(x)
    ensures FormatFixed2(x) != ""
  {
    var t := FormatFixed2(x);
    var u := CentsText(Hundredths(x));
    ParseCentsText(Hundredths(x));
    assert IsDigit(u[|u| - 1]);
    assert t[|t| - 1] == u[|u| - 1];
    assert t[0] == '-' || t[0] == u[0];
    StripUnchanged(t);
  }

  lemma IndexOfDotAfterDigits(w: string, rest: string)
    requires AllDigits(w) && rest != [] && rest[0] == '.'
    ensures IndexOfDot(w + rest) == |w|
  {
    if w != [] {
      assert (w + rest)[1..] == w[1..] + rest;
      IndexOfDotAfterDigits(w[1..], rest);
    }
  }

  /** Rounding a non-negative value to two decimals never takes it below a
      whole-number floor it was at or above (0 for a regular account, 100
      for a savings account). */
  lemma Rounded2KeepsFloor(x: real, floor: nat)
    requires x >= floor as real
    ensures Rounded2(x) >= floor as real
  {
    var c := Hundredths(x);
    assert c as real >= 100.0 * floor as real - 0.5;
    assert c >= 100 * floor;
  }

  /** A non-negative value already rounded to two decimals is printed the
      same way as the original: formatting a reloaded balance reproduces
      the text it was loaded from. */
  lemma Rounded2Stable(x: real)
    requires x >= 0.0
    ensures Hundredths(Rounded2(x)) == Hundredths(x)
    ensures FormatFixed2(Rounded2(x)) == FormatFixed2(x)
  {
    var c := Hundredths(x);
    assert Abs(Rounded2(x)) * 100.0 == c as real;
    assert RoundHalfEven(c as real) == c;
  }
}
