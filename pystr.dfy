/**
  The few pieces of Python's built-in string and integer behaviour that the
  modelled code relies on: `str.strip()`, `str.upper()`, `str.split(sep)`,
  `str.find`/`str.rfind`, slicing with a possibly negative end, `'%i' % n`
  and `int(...)`/`long(...)` on text.
 */
module PyStr {
  import opened Wrappers

  /** Python truthiness of an optional string: `None` and `""` are false. */
  predicate TruthyStr(s: Option<string>) {
    s.Some? && s.value != []
  }

  /** Python truthiness of an optional integer: `None` and `0` are false. */
  predicate TruthyInt(n: Option<int>) {
    n.Some? && n.value != 0
  }

  /** The characters `str.strip()` removes (the ASCII whitespace of `str.isspace`). */
  predicate IsSpace(c: char) {
    c == ' ' || c == '\t' || c == '\n' || c == '\r' || c == '\U{0B}' || c == '\U{0C}'
  }

  predicate AllSpace(s: string) {
    forall i :: 0 <= i < |s| ==> IsSpace(s[i])
  }

  /** A string that `strip()` leaves as it is. */
  predicate Stripped(s: string) {
    s == [] || (!IsSpace(s[0]) && !IsSpace(s[|s| - 1]))
  }

  function StripLeft(s: string): (r: string)
    ensures |r| <= |s| && (r != [] ==> r[0] == s[|s| - |r|])
    ensures AllSpace(s[..|s| - |r|])
    ensures r == [] || !IsSpace(r[0])
  {
    if s != [] && IsSpace(s[0]) then StripLeft(s[1..]) else s
  }

  function StripRight(s: string): (r: string)
    ensures |r| <= |s| && (r != [] ==> r[0] == s[0])
    ensures AllSpace(s[|r|..])
    ensures r == [] || !IsSpace(r[|r| - 1])
  {
    if s != [] && IsSpace(s[|s| - 1]) then StripRight(s[..|s| - 1]) else s
  }

  /** Python's `s.strip()`. */
  function Strip(s: string): (r: string)
    ensures Stripped(r)
    ensures |r| <= |s|
    ensures r == [] <==> AllSpace(s)
  {
    var l := StripLeft(s);
    assert l == [] ==> AllSpace(s) by {
      if l == [] { assert s[..|s|] == s; }
    }
    StripRight(l)
  }

  lemma StrippedIsFixed(s: string)
    requires Stripped(s)
    ensures Strip(s) == s
  {
  }

  /** Stripping a string whose text starts and ends with visible characters
      removes exactly the blank padding around it. */
  lemma {:induction false} StripPadded(pre: string, s: string, post: string)
    requires AllSpace(pre) && AllSpace(post)
    requires s != [] && Stripped(s)
    ensures Strip(pre + s + post) == s
  {
    StripLeftPadded(pre, s + post);
    assert StripLeft(pre + s + post) == s + post by {
      assert pre + s + post == pre + (s + post);
    }
    StripRightPadded(s, post);
  }

  lemma {:induction false} StripLeftPadded(pre: string, s: string)
    requires AllSpace(pre)
    requires s != [] && !IsSpace(s[0])
    ensures StripLeft(pre + s) == s
  {
    if pre != [] {
      assert (pre + s)[1..] == pre[1..] + s;
      StripLeftPadded(pre[1..], s);
    }
  }

  lemma {:induction false} StripRightPadded(s: string, post: string)
    requires AllSpace(post)
    requires s != [] && !IsSpace(s[|s| - 1])
    ensures StripRight(s + post) == s
  {
    if post != [] {
      assert (s + post)[..|s + post| - 1] == s + post[..|post| - 1];
      StripRightPadded(s, post[..|post| - 1]);
    }
  }

  /** Stripping `x + y`, where `y` starts and ends with visible characters,
      touches only the front of `x`: the result still ends with all of `y`. */
  lemma {:induction false} StripKeepsVisibleTail(x: string, y: string)
    requires y != [] && !IsSpace(y[0]) && !IsSpace(y[|y| - 1])
    ensures Strip(x + y) == StripLeft(x) + y
  {
    var l := StripLeft(x) + y;
    calc {
      Strip(x + y);
    == { StripIsRightOfLeft(x + y); }
      StripRight(StripLeft(x + y));
    == { StripLeftConcat(x, y); }
      StripRight(l);
    == { assert l[|l| - 1] == y[|y| - 1]; StripRightVisible(l); }
      l;
    }
  }

  lemma StripIsRightOfLeft(s: string)
    ensures Strip(s) == StripRight(StripLeft(s))
  {
  }

  lemma StripRightVisible(s: string)
    requires s != [] && !IsSpace(s[|s| - 1])
    ensures StripRight(s) == s
  {
  }

  /** The same, with the visible tail given in two parts. */
  lemma StripKeepsVisibleParts(x: string, a: string, b: string)
    requires a != [] && !IsSpace(a[0])
    requires b != [] && !IsSpace(b[|b| - 1])
    ensures Strip(x + (a + b)) == StripLeft(x) + a + b
  {
    var y := a + b;
    assert y[0] == a[0] && y[|y| - 1] == b[|b| - 1];
    StripKeepsVisibleTail(x, y);
    ConcatAssoc(StripLeft(x), a, b);
  }

  lemma ConcatAssoc<T>(p: seq<T>, q: seq<T>, r: seq<T>)
    ensures p + (q + r) == p + q + r
  {
  }

  /** The same, when `y` is followed by blanks. */
  lemma StripKeepsVisibleMiddle(x: string, y: string, post: string)
    requires y != [] && !IsSpace(y[0]) && !IsSpace(y[|y| - 1])
    requires AllSpace(post)
    ensures Strip(x + y + post) == StripLeft(x) + y
  {
    var l := StripLeft(x) + y;
    assert l[|l| - 1] == y[|y| - 1];
    assert x + y + post == x + (y + post);
    assert (y + post)[0] == y[0];
    StripIsRightOfLeft(x + (y + post));
    StripLeftConcat(x, y + post);
    ConcatAssoc(StripLeft(x), y, post);
    StripRightPadded(l, post);
  }

  lemma {:induction false} StripLeftConcat(x: string, y: string)
    requires y != [] && !IsSpace(y[0])
    ensures StripLeft(x + y) == StripLeft(x) + y
  {
    if x != [] {
      assert (x + y)[1..] == x[1..] + y;
      StripLeftConcat(x[1..], y);
    } else {
      assert x + y == y;
    }
  }

  function UpperChar(c: char): char {
    if 'a' <= c <= 'z' then (c as int - 32) as char else c
  }

  predicate NoLower(s: string) {
    forall i :: 0 <= i < |s| ==> !('a' <= s[i] <= 'z')
  }

  /** Python's `s.upper()`, on the ASCII letters. */
  function Upper(s: string): (r: string)
    ensures |r| == |s| && NoLower(r)
    ensures forall i :: 0 <= i < |s| ==> (IsSpace(r[i]) <==> IsSpace(s[i]))
    ensures NoLower(s) ==> r == s
  {
    seq(|s|, i requires 0 <= i < |s| => UpperChar(s[i]))
  }

  /** Python's `s.find(c)`: the first index of `c`, or -1. */
  function Find(s: string, c: char): (r: int)
    ensures -1 <= r < |s|
    ensures r >= 0 ==> s[r] == c
    ensures forall j :: 0 <= j < |s| && (r < 0 || j < r) ==> s[j] != c
  {
    if s == [] then -1
    else if s[0] == c then 0
    else
      var k := Find(s[1..], c);
      if k < 0 then -1 else k + 1
  }

  /** Python's `s.rfind(c)`: the last index of `c`, or -1. */
  function RFind(s: string, c: char): (r: int)
    ensures -1 <= r < |s|
    ensures r >= 0 ==> s[r] == c
    ensures forall j :: r < j < |s| ==> s[j] != c
  {
    if s == [] then -1
    else if s[|s| - 1] == c then |s| - 1
    else RFind(s[..|s| - 1], c)
  }

  /** Python's `s.split(sep)` with an explicit one-character separator. */
  function Split(s: string, sep: char): (r: seq<string>)
    ensures |r| >= 1
    decreases |s|
  {
    var i := Find(s, sep);
    if i < 0 then [s] else [s[..i]] + Split(s[i + 1..], sep)
  }

  lemma SplitNoSeparator(s: string, sep: char)
    requires sep !in s
    ensures Split(s, sep) == [s]
  {
  }

  lemma SplitField(a: string, sep: char, b: string)
    requires sep !in a
    ensures Split(a + [sep] + b, sep) == [a] + Split(b, sep)
  {
    var s := a + [sep] + b;
    assert s[|a|] == sep;
    var i := Find(s, sep);
    assert i == |a|;
    assert s[..i] == a && s[i + 1..] == b;
  }

  function Min(a: int, b: int): int { if a <= b then a else b }

  function Max(a: int, b: int): int { if a <= b then b else a }

  /** Where the Python slice `s[:k]` ends in a sequence of length `n`:
      a negative `k` counts from the end. */
  function SliceEnd(n: nat, k: int): (r: nat)
    ensures r <= n
  {
    if k >= 0 then Min(k, n) else Max(0, n + k)
  }

  predicate IsDigit(c: char) { '0' <= c <= '9' }

  predicate AllDigits(s: string) {
    forall i :: 0 <= i < |s| ==> IsDigit(s[i])
  }

  function DigitChar(d: nat): (c: char)
    requires d < 10
    ensures IsDigit(c) && c as int - '0' as int == d
  {
    ('0' as int + d) as char
  }

  /** The value of a run of decimal digits. */
  function DigitsValue(s: string): nat
    requires AllDigits(s)
  {
    if s == [] then 0 else 10 * DigitsValue(s[..|s| - 1]) + (s[|s| - 1] as int - '0' as int)
  }

  /** The decimal digits of `n`, without leading zeros. */
  function FormatNat(n: nat): (r: string)
    ensures r != [] && AllDigits(r)
  {
    if n < 10 then [DigitChar(n)] else FormatNat(n / 10) + [DigitChar(n % 10)]
  }

  lemma {:induction false} FormatNatRoundTrip(n: nat)
    ensures DigitsValue(FormatNat(n)) == n
  {
    if n >= 10 {
      FormatNatRoundTrip(n / 10);
      var s := FormatNat(n);
      assert s[..|s| - 1] == FormatNat(n / 10);
    }
  }

  /** Python's `'%i' % n`. */
  function FormatInt(n: int): (r: string)
    ensures r != [] && Stripped(r)
    ensures IsDigit(r[|r| - 1])
    ensures '|' !in r
  {
    var d := FormatNat(if n < 0 then -n else n);
    assert IsDigit(d[|d| - 1]) && IsDigit(d[0]);
    if n < 0 then "-" + d else d
  }

  /** An optional sign followed by at least one decimal digit: the text
      `int` accepts once the surrounding blanks are gone. */
  predicate Numeral(u: string) {
    || (u != [] && AllDigits(u))
    || (|u| >= 2 && (u[0] == '-' || u[0] == '+') && AllDigits(u[1..]))
  }

  /** The value of a numeral, with its sign. */
  function NumeralValue(u: string): int
    requires Numeral(u)
  {
    var magnitude: int := if u[0] == '-' || u[0] == '+' then DigitsValue(u[1..]) else DigitsValue(u);
    if u[0] == '-' then -magnitude else magnitude
  }

  /** Whether `t` ends in the `L` (or `l`) Python 2's `long` accepts. */
  predicate LongSuffixed(t: string) {
    t != [] && (t[|t| - 1] == 'L' || t[|t| - 1] == 'l')
  }

  /** Python's `int(s)` (and, with `longSuffix`, Python 2's `long(s)`, which
      also takes one trailing `L`): the text is accepted exactly when, after
      stripping its blanks (and that `L`), it is a numeral, and its value is
      then the numeral's. `None` stands for the ValueError. */
  function ParseInt(s: string, longSuffix: bool): (r: Option<int>)
    ensures var t := Strip(s);
      r.Some? <==> Numeral(t) || (longSuffix && LongSuffixed(t) && Numeral(t[..|t| - 1]))
    ensures var t := Strip(s);
      r.Some? && Numeral(t) ==> r.value == NumeralValue(t)
    ensures var t := Strip(s);
      r.Some? && !Numeral(t) ==> r.value == NumeralValue(t[..|t| - 1])
  {
    var t := Strip(s);
    var u := if longSuffix && LongSuffixed(t) then t[..|t| - 1] else t;
    assert LongSuffixed(t) ==> !Numeral(t) by {
      if LongSuffixed(t) && |t| >= 2 {
        assert !IsDigit(t[1..][|t| - 2]);
      }
    }
    if Numeral(u) then Some(NumeralValue(u)) else None
  }

  /** A numeral begins and ends with a character that is not blank. */
  lemma NumeralEndsNotBlank(u: string)
    requires Numeral(u)
    ensures !IsSpace(u[0]) && !IsSpace(u[|u| - 1])
  {
    assert u[|u| - 1] == if |u| >= 2 && (u[0] == '-' || u[0] == '+') then u[1..][|u| - 2] else u[|u| - 1];
  }

  /** A numeral padded with blanks, and for `long` optionally followed by
      `L`, parses to its value. */
  lemma ParsePaddedNumeral(pre: string, u: string, post: string, longSuffix: bool)
    requires AllSpace(pre) && AllSpace(post) && Numeral(u)
    ensures ParseInt(pre + u + post, longSuffix) == Some(NumeralValue(u))
    ensures longSuffix ==> ParseInt(pre + u + "L" + post, longSuffix) == Some(NumeralValue(u))
  {
    NumeralEndsNotBlank(u);
    StripPadded(pre, u, post);
    if longSuffix {
      ParsePaddedLong(pre, u, post);
    }
  }

  /** The `L`-suffixed half of `ParsePaddedNumeral`. */
  lemma ParsePaddedLong(pre: string, u: string, post: string)
    requires AllSpace(pre) && AllSpace(post) && Numeral(u)
    ensures ParseInt(pre + u + "L" + post, true) == Some(NumeralValue(u))
  {
    NumeralEndsNotBlank(u);
    var v := u + "L";
    assert !IsSpace(v[0]) && !IsSpace(v[|v| - 1]);
    assert pre + u + "L" + post == pre + v + post;
    StripPadded(pre, v, post);
    assert v[..|v| - 1] == u;
  }

  /** What `'%i' % n` writes, `int`/`long` reads back. */
  lemma ParseFormatRoundTrip(n: int, longSuffix: bool)
    ensures ParseInt(FormatInt(n), longSuffix) == Some(n)
  {
    var f := FormatInt(n);
    StrippedIsFixed(f);
    var d := FormatNat(if n < 0 then -n else n);
    FormatNatRoundTrip(if n < 0 then -n else n);
    if n < 0 {
      assert f[1..] == d;
    }
  }

  /** Python's `reversed(s)`. */
  function Reverse<T>(s: seq<T>): (r: seq<T>)
    ensures |r| == |s|
    ensures forall i :: 0 <= i < |s| ==> r[i] == s[|s| - 1 - i]
  {
    if s == [] then [] else [s[|s| - 1]] + Reverse(s[..|s| - 1])
  }

  /** `sep.join(parts)`. */
  function Join(parts: seq<string>, sep: string): string {
    if parts == [] then ""
    else if |parts| == 1 then parts[0]
    else Join(parts[..|parts| - 1], sep) + sep + parts[|parts| - 1]
  }
}
