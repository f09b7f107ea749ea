/** Python string behaviour that main.py relies on: str.strip, str.join, decimal digits and
    the code-point order that `<` and sorted() use on strings. */
module Text {

  /** The characters for which Python's str.isspace() holds, which str.strip() removes. */
  predicate IsSpace(c: char) {
    || ('\U{0009}' <= c <= '\U{000D}')
    || ('\U{001C}' <= c <= '\U{0020}')
    || c == '\U{0085}' || c == '\U{00A0}' || c == '\U{1680}'
    || ('\U{2000}' <= c <= '\U{200A}')
    || c == '\U{2028}' || c == '\U{2029}' || c == '\U{202F}' || c == '\U{205F}'
    || c == '\U{3000}'
  }

  /** Every character is white space: what `s.strip() == ""` tests. */
  predicate Blank(s: string) {
    forall i :: 0 <= i < |s| ==> IsSpace(s[i])
  }

  function StripLeading(s: string): (r: string)
    ensures |r| <= |s| && r == s[|s| - |r|..]
    ensures r != [] ==> !IsSpace(r[0])
  {
    if s != [] && IsSpace(s[0]) then StripLeading(s[1..]) else s
  }

  function StripTrailing(s: string): (r: string)
    ensures |r| <= |s| && r == s[..|r|]
    ensures r != [] ==> !IsSpace(r[|r| - 1])
  {
    if s != [] && IsSpace(s[|s| - 1]) then StripTrailing(s[..|s| - 1]) else s
  }

  /** Python's str.strip() with no argument. */
  function Strip(s: string): string {
    StripTrailing(StripLeading(s))
  }

  /** `s.strip()` is empty exactly when `s` is all white space (the empty string included). */
  lemma {:induction false} StripEmptyIffBlank(s: string)
    ensures Strip(s) == "" <==> Blank(s)
  {
    StripLeadingEmptyIffBlank(s);
    var t := StripLeading(s);
    if t != [] {
      assert !IsSpace(t[0]);
      if StripTrailing(t) == [] {
        StripTrailingKeepsNonSpace(t);
      }
    }
  }

  lemma {:induction false} StripLeadingEmptyIffBlank(s: string)
    ensures StripLeading(s) == "" <==> Blank(s)
  {
    if s != [] && IsSpace(s[0]) {
      StripLeadingEmptyIffBlank(s[1..]);
      BlankFirstThenRest(s);
    }
  }

  lemma BlankFirstThenRest(s: string)
    requires s != []
    ensures Blank(s) <==> IsSpace(s[0]) && Blank(s[1..])
  {
    if IsSpace(s[0]) && Blank(s[1..]) {
      forall i | 0 <= i < |s| ensures IsSpace(s[i]) {
        if i > 0 { assert s[i] == s[1..][i - 1]; }
      }
    }
  }

  lemma {:induction false} StripTrailingKeepsNonSpace(t: string)
    requires t != [] && !IsSpace(t[0])
    ensures StripTrailing(t) != []
  {
    if IsSpace(t[|t| - 1]) {
      assert |t| > 1;
      StripTrailingKeepsNonSpace(t[..|t| - 1]);
    }
  }

  /** Python's `sep.join(parts)`. */
  function Join(sep: string, parts: seq<string>): string {
    if parts == [] then ""
    else if |parts| == 1 then parts[0]
    else parts[0] + sep + Join(sep, parts[1..])
  }

  predicate StartsWith(s: string, prefix: string) {
    |prefix| <= |s| && s[..|prefix|] == prefix
  }

  /** Concatenates `sep + p` for every part `p`: what follows the first part in a join. */
  function SeparatedTail(sep: string, parts: seq<string>): string {
    if parts == [] then "" else sep + parts[0] + SeparatedTail(sep, parts[1..])
  }

  /** A join is the first part followed by every other part, each behind one separator. */
  lemma {:induction false} JoinIsHeadThenSeparated(sep: string, parts: seq<string>)
    requires parts != []
    ensures Join(sep, parts) == parts[0] + SeparatedTail(sep, parts[1..])
  {
    if |parts| > 1 {
      JoinIsHeadThenSeparated(sep, parts[1..]);
      assert parts[1..][1..] == parts[2..];
    }
  }

  lemma {:induction false} SeparatedTailAppend(sep: string, a: seq<string>, b: seq<string>)
    ensures SeparatedTail(sep, a + b) == SeparatedTail(sep, a) + SeparatedTail(sep, b)
  {
    if a != [] {
      SeparatedTailAppend(sep, a[1..], b);
      assert (a + b)[1..] == a[1..] + b;
    } else {
      assert a + b == b;
    }
  }

  // ----- decimal digits -----

  predicate IsDigit(c: char) {
    '0' <= c <= '9'
  }

  predicate AllDigits(s: string) {
    forall i :: 0 <= i < |s| ==> IsDigit(s[i])
  }

  function DigitValue(c: char): nat
    requires IsDigit(c)
  {
    c as int - '0' as int
  }

  function DigitChar(d: nat): (c: char)
    requires d < 10
    ensures IsDigit(c) && DigitValue(c) == d
  {
    ('0' as int + d) as char
  }

  /** Python's int() of a string of ASCII digits. */
  function DigitsValue(s: string): nat
    requires AllDigits(s)
  {
    if s == [] then 0 else 10 * DigitsValue(s[..|s| - 1]) + DigitValue(s[|s| - 1])
  }

  lemma DigitsValueOfOne(c: char)
    requires IsDigit(c)
    ensures DigitsValue([c]) == DigitValue(c) <= 9
  {
    assert [c][..0] == [];
  }

  function Pow10(n: nat): (p: nat)
    ensures p >= 1
  {
    if n == 0 then 1 else 10 * Pow10(n - 1)
  }

  /** `n` written with exactly `width` digits, zero-padded on the left ("%02d", "%04d"). */
  function Padded(n: nat, width: nat): (s: string)
    requires n < Pow10(width)
    ensures |s| == width && AllDigits(s)
  {
    if width == 0 then "" else Padded(n / 10, width - 1) + [DigitChar(n % 10)]
  }

  /** Reading a zero-padded numeral back gives the number. */
  lemma {:induction false} PaddedValue(n: nat, width: nat)
    requires n < Pow10(width)
    ensures DigitsValue(Padded(n, width)) == n
  {
    if width > 0 {
      PaddedValue(n / 10, width - 1);
      var s := Padded(n, width);
      assert s[..|s| - 1] == Padded(n / 10, width - 1);
    }
  }

  lemma DigitsValueBound(s: string)
    requires AllDigits(s)
    ensures DigitsValue(s) < Pow10(|s|)
  {
  }

  /** `n` zeros. */
  function Zeros(n: nat): (z: string)
    ensures |z| == n && AllDigits(z)
  {
    if n == 0 then "" else Zeros(n - 1) + "0"
  }

  /** Appending n zeros multiplies the value by 10^n. */
  lemma {:induction false} DigitsValueZeros(x: string, n: nat)
    requires AllDigits(x)
    ensures AllDigits(x + Zeros(n)) && DigitsValue(x + Zeros(n)) == DigitsValue(x) * Pow10(n)
  {
    AllDigitsAppend(x, Zeros(n));
    if n == 0 {
      assert x + Zeros(0) == x;
    } else {
      DigitsValueZeros(x, n - 1);
      var y := x + Zeros(n - 1);
      assert x + Zeros(n) == y + "0";
      DigitsValueAppendZero(y);
      TenTimesProduct(DigitsValue(x), Pow10(n - 1));
    }
  }

  lemma DigitsValueAppendZero(y: string)
    requires AllDigits(y)
    ensures AllDigits(y + "0") && DigitsValue(y + "0") == 10 * DigitsValue(y)
  {
    AllDigitsAppend(y, "0");
    assert (y + "0")[..|y|] == y;
  }

  lemma TenTimesProduct(a: nat, b: nat)
    ensures 10 * (a * b) == a * (10 * b)
  {
  }

  lemma AllDigitsAppend(a: string, b: string)
    requires AllDigits(a) && AllDigits(b)
    ensures AllDigits(a + b)
  {
  }

  /** How many times `c` occurs in `s`. */
  function Occurrences(s: string, c: char): nat {
    if s == [] then 0 else (if s[0] == c then 1 else 0) + Occurrences(s[1..], c)
  }

  lemma {:induction false} OccurrencesAppend(a: string, b: string, c: char)
    ensures Occurrences(a + b, c) == Occurrences(a, c) + Occurrences(b, c)
  {
    if a == [] {
      assert a + b == b;
    } else {
      OccurrencesAppend(a[1..], b, c);
      assert (a + b)[1..] == a[1..] + b;
    }
  }

  lemma {:induction false} NoOccurrencesInDigits(x: string, c: char)
    requires AllDigits(x) && !IsDigit(c)
    ensures Occurrences(x, c) == 0
  {
    if x != [] {
      NoOccurrencesInDigits(x[1..], c);
    }
  }

  // ----- the order of Python's `<` on str -----

  /** Python's `a < b` on strings: code point by code point, a proper prefix first. */
  predicate StrLt(a: string, b: string) {
    if a == [] then b != []
    else if b == [] then false
    else a[0] < b[0] || (a[0] == b[0] && StrLt(a[1..], b[1..]))
  }

  lemma {:induction false} StrLtIrreflexive(a: string)
    ensures !StrLt(a, a)
  {
    if a != [] { StrLtIrreflexive(a[1..]); }
  }

  lemma {:induction false} StrLtTransitive(a: string, b: string, c: string)
    requires StrLt(a, b) && StrLt(b, c)
    ensures StrLt(a, c)
  {
    if a != [] && a[0] == b[0] && b[0] == c[0] {
      StrLtTransitive(a[1..], b[1..], c[1..]);
    }
  }

  lemma {:induction false} StrLtTrichotomy(a: string, b: string)
    ensures StrLt(a, b) || a == b || StrLt(b, a)
  {
    if a != [] && b != [] && a[0] == b[0] {
      StrLtTrichotomy(a[1..], b[1..]);
      if a[1..] == b[1..] {
        assert a == [a[0]] + a[1..] && b == [b[0]] + b[1..];
      }
    }
  }

  lemma StrLtAsymmetric(a: string, b: string)
    ensures !(StrLt(a, b) && StrLt(b, a))
  {
    if StrLt(a, b) && StrLt(b, a) {
      StrLtTransitive(a, b, a);
      StrLtIrreflexive(a);
    }
  }
}
