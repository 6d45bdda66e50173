/** The string operations the server relies on, as Go's standard library
    defines them: `strings.ToLower`, `strings.TrimSpace`, `strings.Split`,
    the `<` operator on strings, and the `%0Nd` / `%0NX` verbs of `fmt`.
    A Go string is a sequence of UTF-8 bytes; here it is the sequence of the
    code points it encodes. */
module Text {

  /** The characters Go's `unicode.IsSpace` accepts, which `strings.TrimSpace` strips. */
  predicate IsSpace(c: char) {
    || c == ' ' || c == '\t' || c == '\n' || c == '\r'
    || c == '\U{000B}' || c == '\U{000C}' || c == '\U{0085}' || c == '\U{00A0}'
    || c == '\U{1680}' || ('\U{2000}' <= c <= '\U{200A}')
    || c == '\U{2028}' || c == '\U{2029}' || c == '\U{202F}' || c == '\U{205F}' || c == '\U{3000}'
  }

  predicate IsAsciiUpper(c: char) {
    'A' <= c <= 'Z'
  }

  /** `unicode.ToLower` on the code points that matter to the server: ASCII
      capitals, plus the two non-ASCII code points that Go lowercases to an
      ASCII letter (U+0130 to `i`, KELVIN SIGN U+212A to `k`). */
  function LowerChar(c: char): (l: char)
    ensures !IsAsciiUpper(l)
    ensures IsSpace(l) <==> IsSpace(c)
    ensures !IsAsciiUpper(c) && c != '\U{0130}' && c != '\U{212A}' ==> l == c
  {
    if IsAsciiUpper(c) then (c as int + 32) as char
    else if c == '\U{0130}' then 'i'
    else if c == '\U{212A}' then 'k'
    else c
  }

  function ToLower(s: string): (r: string)
    ensures |r| == |s|
    ensures forall i :: 0 <= i < |s| ==> r[i] == LowerChar(s[i])
  {
    seq(|s|, i requires 0 <= i < |s| => LowerChar(s[i]))
  }

  /** Lowercasing twice is lowercasing once, and leaves no ASCII capital. */
  lemma ToLowerIdempotent(s: string)
    ensures ToLower(ToLower(s)) == ToLower(s)
    ensures forall i :: 0 <= i < |s| ==> !IsAsciiUpper(ToLower(s)[i])
  {
    var l := ToLower(s);
    forall i | 0 <= i < |s|
      ensures LowerChar(l[i]) == l[i]
    {
      assert !IsAsciiUpper(l[i]);
    }
  }

  /** `strings.TrimLeft` of Unicode white space. */
  function TrimLeft(s: string): (r: string)
    ensures |r| <= |s| && r == s[|s| - |r|..]
    ensures forall i :: 0 <= i < |s| - |r| ==> IsSpace(s[i])
    ensures |r| > 0 ==> !IsSpace(r[0])
  {
    if |s| > 0 && IsSpace(s[0]) then
      var r := TrimLeft(s[1..]);
      assert forall i :: 1 <= i < |s| ==> s[1..][i - 1] == s[i];
      r
    else s
  }

  /** `strings.TrimRight` of Unicode white space. */
  function TrimRight(s: string): (r: string)
    ensures |r| <= |s| && r == s[..|r|]
    ensures forall i :: |r| <= i < |s| ==> IsSpace(s[i])
    ensures |r| > 0 ==> !IsSpace(r[|r| - 1])
  {
    if |s| > 0 && IsSpace(s[|s| - 1]) then
      var r := TrimRight(s[..|s| - 1]);
      assert forall i :: 0 <= i < |s| - 1 ==> s[..|s| - 1][i] == s[i];
      r
    else s
  }

  /** `strings.TrimSpace`: drops leading and trailing white space. */
  function TrimSpace(s: string): (r: string)
    ensures |r| == 0 || (!IsSpace(r[0]) && !IsSpace(r[|r| - 1]))
  {
    TrimRight(TrimLeft(s))
  }

  /** A string that neither starts nor ends with white space is its own trim. */
  lemma TrimSpaceOfTrimmed(s: string)
    requires |s| == 0 || (!IsSpace(s[0]) && !IsSpace(s[|s| - 1]))
    ensures TrimSpace(s) == s
  {
  }

  /** Trimming is idempotent. */
  lemma TrimSpaceIdempotent(s: string)
    ensures TrimSpace(TrimSpace(s)) == TrimSpace(s)
  {
    TrimSpaceOfTrimmed(TrimSpace(s));
  }

  /** Lowercasing maps white space to white space and nothing else to it, so it
      commutes with trimming. */
  lemma {:induction false} TrimLeftToLower(s: string)
    ensures TrimLeft(ToLower(s)) == ToLower(TrimLeft(s))
    decreases |s|
  {
    if |s| > 0 && IsSpace(s[0]) {
      assert ToLower(s)[1..] == ToLower(s[1..]);
      TrimLeftToLower(s[1..]);
    }
  }

  lemma {:induction false} TrimRightToLower(s: string)
    ensures TrimRight(ToLower(s)) == ToLower(TrimRight(s))
    decreases |s|
  {
    if |s| > 0 && IsSpace(s[|s| - 1]) {
      assert ToLower(s)[..|s| - 1] == ToLower(s[..|s| - 1]);
      TrimRightToLower(s[..|s| - 1]);
    }
  }

  /** Normalising a query value with `TrimSpace(ToLower(...))` a second time
      changes nothing. */
  lemma NormalizeIdempotent(s: string)
    ensures TrimSpace(ToLower(TrimSpace(ToLower(s)))) == TrimSpace(ToLower(s))
  {
    var l := ToLower(s);
    var t := TrimSpace(l);
    LowerOfLowered(l, s);
    TrimOfLowered(l);
    TrimSpaceIdempotent(l);
  }

  /** A lowercased string is its own lowercase. */
  lemma LowerOfLowered(l: string, s: string)
    requires l == ToLower(s)
    ensures ToLower(l) == l
  {
    ToLowerIdempotent(s);
  }

  lemma TrimOfLowered(l: string)
    requires ToLower(l) == l
    ensures ToLower(TrimSpace(l)) == TrimSpace(l)
  {
    TrimLeftToLower(l);
    TrimRightToLower(TrimLeft(l));
  }

  /** `strings.Join` with a one-character separator. */
  function Join(parts: seq<string>, sep: char): string
    requires |parts| >= 1
  {
    if |parts| == 1 then parts[0] else parts[0] + [sep] + Join(parts[1..], sep)
  }

  /** `strings.Split` with a one-character separator: never empty (the empty
      string splits into one empty part), no part holds the separator, and
      joining the parts gives the string back. */
  function Split(s: string, sep: char): (parts: seq<string>)
    ensures |parts| >= 1
    ensures forall i :: 0 <= i < |parts| ==> sep !in parts[i]
    ensures Join(parts, sep) == s
  {
    if |s| == 0 then [""]
    else
      var rest := Split(s[1..], sep);
      if s[0] == sep then
        assert Join([""] + rest, sep) == [sep] + Join(rest, sep) by {
          assert ([""] + rest)[1..] == rest;
        }
        [""] + rest
      else
        var parts := [[s[0]] + rest[0]] + rest[1..];
        assert Join(parts, sep) == [s[0]] + Join(rest, sep) by {
          if |rest| > 1 {
            assert parts[1..] == rest[1..];
          }
        }
        parts
  }

  /** Go's `<` on strings. It compares the UTF-8 bytes; since UTF-8 encodes
      code points in order, that is a comparison of code points, one by one,
      where a proper prefix is smaller. */
  predicate Less(a: string, b: string) {
    |b| > 0 && (|a| == 0 || a[0] < b[0] || (a[0] == b[0] && Less(a[1..], b[1..])))
  }

  lemma {:induction false} LessIrreflexive(a: string)
    ensures !Less(a, a)
    decreases |a|
  {
    if |a| > 0 {
      LessIrreflexive(a[1..]);
    }
  }

  lemma {:induction false} LessTransitive(a: string, b: string, c: string)
    requires Less(a, b) && Less(b, c)
    ensures Less(a, c)
    decreases |a|
  {
    if |a| > 0 && a[0] == b[0] && b[0] == c[0] {
      LessTransitive(a[1..], b[1..], c[1..]);
    }
  }

  /** Any two different strings are ordered one way or the other. */
  lemma {:induction false} LessTotal(a: string, b: string)
    requires a != b
    ensures Less(a, b) != Less(b, a)
    decreases |a|
  {
    if |a| > 0 && |b| > 0 && a[0] == b[0] {
      assert a == [a[0]] + a[1..] && b == [b[0]] + b[1..];
      LessTotal(a[1..], b[1..]);
    }
  }

  /** Value of digit character `c` (uppercase hexadecimal alphabet); 16 for a non-digit. */
  function DigitValue(c: char): nat {
    if '0' <= c <= '9' then c as int - '0' as int
    else if 'A' <= c <= 'F' then c as int - 'A' as int + 10
    else 16
  }

  function Digit(d: nat): (c: char)
    requires d < 16
    ensures DigitValue(c) == d
  {
    if d < 10 then ('0' as int + d) as char else ('A' as int + d - 10) as char
  }

  predicate IsNumeral(s: string, base: nat) {
    forall i :: 0 <= i < |s| ==> DigitValue(s[i]) < base
  }

  /** The number a digit string denotes in `base`, most significant digit first. */
  function ValueOf(s: string, base: nat): nat {
    if |s| == 0 then 0 else ValueOf(s[..|s| - 1], base) * base + DigitValue(s[|s| - 1])
  }

  /** The shortest digit string of `n` in `base`. */
  function Numeral(n: nat, base: nat): (s: string)
    requires 2 <= base <= 16
    ensures |s| >= 1 && IsNumeral(s, base)
    ensures |s| > 1 ==> s[0] != '0'
    ensures ValueOf(s, base) == n
    decreases n
  {
    if n < base then [Digit(n)]
    else
      DivStep(n, base);
      var s := Numeral(n / base, base) + [Digit(n % base)];
      assert s[..|s| - 1] == Numeral(n / base, base);
      s
  }

  lemma DivStep(n: nat, base: nat)
    requires 2 <= base <= n
    ensures 1 <= n / base < n
    ensures n == (n / base) * base + n % base
  {
  }

  function Zeros(k: nat): (z: string)
    ensures |z| == k && forall i :: 0 <= i < k ==> z[i] == '0'
  {
    seq(k, _ => '0')
  }

  /** Leading zeros do not change the value of a numeral. */
  lemma {:induction false} LeadingZeros(k: nat, s: string, base: nat)
    ensures ValueOf(Zeros(k) + s, base) == ValueOf(s, base)
    decreases |s|, k
  {
    if |s| == 0 {
      assert Zeros(k) + s == Zeros(k);
      if k > 0 {
        assert Zeros(k)[..k - 1] == Zeros(k - 1);
        LeadingZeros(k - 1, s, base);
        assert Zeros(k - 1) + s == Zeros(k - 1);
      }
    } else {
      assert (Zeros(k) + s)[..|Zeros(k) + s| - 1] == Zeros(k) + s[..|s| - 1];
      LeadingZeros(k, s[..|s| - 1], base);
    }
  }

  /** `fmt`'s `%0<width>d` (base 10) and `%0<width>X` (base 16) for a
      non-negative number: digits of `n`, zero-padded on the left to at least
      `width` characters and widened, never truncated, when `n` needs more.
      Reading the digits back gives `n`. */
  function FormatNumber(n: nat, base: nat, width: nat): (s: string)
    requires 2 <= base <= 16
    ensures |s| >= width && IsNumeral(s, base)
    ensures |s| > width && |s| > 1 ==> s[0] != '0'
    ensures |s| >= |Numeral(n, base)|
    ensures ValueOf(s, base) == n
  {
    var digits := Numeral(n, base);
    if |digits| >= width then digits
    else
      LeadingZeros(width - |digits|, digits, base);
      Zeros(width - |digits|) + digits
  }

  /** `%04X`: upper-case hexadecimal, at least four digits. */
  function Hex4(n: nat): (s: string)
    ensures |s| >= 4 && IsNumeral(s, 16) && ValueOf(s, 16) == n
    ensures |s| > 4 ==> s[0] != '0'
  {
    FormatNumber(n, 16, 4)
  }

  /** `%02d`: decimal, at least two digits. */
  function Dec2(n: nat): (s: string)
    ensures |s| >= 2 && IsNumeral(s, 10) && ValueOf(s, 10) == n
    ensures |s| > 2 ==> s[0] != '0'
  {
    FormatNumber(n, 10, 2)
  }

  function Power(base: nat, k: nat): (r: nat)
    requires base >= 2
    ensures r >= 1
  {
    if k == 0 then 1 else base * Power(base, k - 1)
  }

  /** A number below base^k needs at most k digits. */
  lemma {:induction false} NumeralLength(n: nat, base: nat, k: nat)
    requires 2 <= base <= 16 && k >= 1 && n < Power(base, k)
    ensures |Numeral(n, base)| <= k
    decreases k
  {
    if n >= base {
      assert Power(base, 1) == base;
      assert k >= 2;
      DivStep(n, base);
      QuotientBelow(n, base, Power(base, k - 1));
      NumeralLength(n / base, base, k - 1);
    }
  }

  lemma QuotientBelow(n: nat, b: nat, m: nat)
    requires b > 0 && n < b * m
    ensures n / b < m
  {
  }

  /** Below 0x10000, `%04X` gives exactly four digits. */
  lemma Hex4Exact(n: nat)
    requires n < 0x10000
    ensures |Hex4(n)| == 4
  {
    assert Power(16, 4) == 0x10000;
    NumeralLength(n, 16, 4);
  }

  /** Below 100, `%02d` gives exactly two digits. */
  lemma Dec2Exact(n: nat)
    requires n < 100
    ensures |Dec2(n)| == 2
  {
    assert Power(10, 2) == 100;
    NumeralLength(n, 10, 2);
  }

  /** Widening in practice: a block index past 0xFFFF keeps all its digits. */
  lemma Hex4Widens()
    ensures Hex4(0x12340) == "12340"
  {
    assert Numeral(0x1, 16) == "1";
    assert Numeral(0x12, 16) == "12";
    assert Numeral(0x123, 16) == "123";
    assert Numeral(0x1234, 16) == "1234";
    assert Numeral(0x12340, 16) == "12340";
  }

  /** ... and one below 0x1000 is zero-padded to four digits. */
  lemma Hex4Pads()
    ensures Hex4(0x80) == "0080"
    ensures Dec2(2) == "02"
  {
    assert Numeral(0x8, 16) == "8";
    assert Numeral(0x80, 16) == "80";
    assert Numeral(2, 10) == "2";
  }
}
