/** The string primitives the core relies on, stated as PHP defines them:
    `trim`, `strtolower`, the `\s` class of PCRE, `(string)` and `(int)`
    conversions between integers and decimal text, and `bin2hex`. All of
    them work on single-byte characters; no multibyte or locale handling. */
module Text {
  import opened Values

  /** The characters PHP's `trim()` strips by default: " \t\n\r\0\x0B". */
  predicate IsTrimChar(c: char) {
    c == ' ' || c == '\t' || c == '\n' || c == '\r' || c == 0 as char || c == 11 as char
  }

  /** PCRE's `\s`: space, \t, \n, \x0B, \f and \r. */
  predicate IsRegexSpace(c: char) {
    c == ' ' || c == '\t' || c == '\n' || c == 11 as char || c == 12 as char || c == '\r'
  }

  /** The leading whitespace that PHP's numeric-string rules skip. */
  predicate IsNumericSpace(c: char) {
    c == ' ' || c == '\t' || c == '\n' || c == '\r' || c == 11 as char || c == 12 as char
  }

  predicate IsDigit(c: char) {
    '0' <= c <= '9'
  }

  /** Length of the longest prefix of `s` whose characters all satisfy `p`. */
  function Span(s: string, p: char -> bool): (k: nat)
    ensures k <= |s|
    ensures forall i :: 0 <= i < k ==> p(s[i])
    ensures k < |s| ==> !p(s[k])
  {
    if |s| == 0 || !p(s[0]) then 0 else 1 + Span(s[1..], p)
  }

  /** Length of the longest suffix of `s` whose characters all satisfy `p`. */
  function SpanEnd(s: string, p: char -> bool): (k: nat)
    ensures k <= |s|
    ensures forall i :: |s| - k <= i < |s| ==> p(s[i])
    ensures k < |s| ==> !p(s[|s| - k - 1])
  {
    if |s| == 0 || !p(s[|s| - 1]) then 0 else 1 + SpanEnd(s[..|s| - 1], p)
  }

  /** PHP `trim($s)`: `s` without its leading and trailing trim characters. */
  function Trim(s: string): (r: string)
    ensures |r| <= |s|
    ensures r == [] <==> forall i :: 0 <= i < |s| ==> IsTrimChar(s[i])
    ensures r != [] ==> !IsTrimChar(r[0]) && !IsTrimChar(r[|r| - 1])
  {
    var a := Span(s, IsTrimChar);
    if a == |s| then []
    else
      var e := SpanEnd(s, IsTrimChar);
      assert !IsTrimChar(s[a]);
      s[a..|s| - e]
  }

  /** Trimming never changes a string without surrounding trim characters,
      whatever trim characters are put around it. */
  lemma {:induction false} TrimOfPadded(left: string, t: string, right: string)
    requires forall i :: 0 <= i < |left| ==> IsTrimChar(left[i])
    requires forall i :: 0 <= i < |right| ==> IsTrimChar(right[i])
    requires t != [] ==> !IsTrimChar(t[0]) && !IsTrimChar(t[|t| - 1])
    ensures Trim(left + t + right) == t
  {
    var s := left + t + right;
    if t == [] {
      forall i | 0 <= i < |s| ensures IsTrimChar(s[i]) {
        if i < |left| { assert s[i] == left[i]; } else { assert s[i] == right[i - |left|]; }
      }
    } else {
      SpanOfPrefix(s, left, IsTrimChar);
      SpanEndOfSuffix(s, right, IsTrimChar);
      assert s[|left|] == t[0];
      assert s[|s| - |right| - 1] == t[|t| - 1];
      assert s[|left|..|s| - |right|] == t;
    }
  }

  lemma {:induction false} SpanOfPrefix(s: string, pre: string, p: char -> bool)
    requires |pre| <= |s| && s[..|pre|] == pre
    requires forall i :: 0 <= i < |pre| ==> p(pre[i])
    requires |pre| < |s| ==> !p(s[|pre|])
    ensures Span(s, p) == |pre|
  {
    if pre != [] {
      assert s[0] == pre[0];
      assert s[1..][..|pre| - 1] == pre[1..];
      SpanOfPrefix(s[1..], pre[1..], p);
    }
  }

  lemma {:induction false} SpanEndOfSuffix(s: string, suf: string, p: char -> bool)
    requires |suf| <= |s| && s[|s| - |suf|..] == suf
    requires forall i :: 0 <= i < |suf| ==> p(suf[i])
    requires |suf| < |s| ==> !p(s[|s| - |suf| - 1])
    ensures SpanEnd(s, p) == |suf|
  {
    if suf != [] {
      var s' := s[..|s| - 1];
      assert s[|s| - 1] == suf[|suf| - 1];
      assert s'[|s'| - (|suf| - 1)..] == suf[..|suf| - 1];
      SpanEndOfSuffix(s', suf[..|suf| - 1], p);
    }
  }

  /** ASCII case folding of one character, as `strtolower` does since PHP 8.2. */
  function LowerChar(c: char): char {
    if 'A' <= c <= 'Z' then (c as int + 32) as char else c
  }

  /** PHP `strtolower($s)`. */
  function Lower(s: string): (r: string)
    ensures |r| == |s|
    ensures forall i :: 0 <= i < |s| ==> r[i] == LowerChar(s[i])
  {
    seq(|s|, i requires 0 <= i < |s| => LowerChar(s[i]))
  }

  /** Lower-casing twice is lower-casing once; no upper-case ASCII letter survives. */
  lemma LowerIdempotent(s: string)
    ensures Lower(Lower(s)) == Lower(s)
    ensures forall i :: 0 <= i < |s| ==> !('A' <= Lower(s)[i] <= 'Z')
  {
  }

  // ---------------------------------------------------------------------
  // Integers and decimal text
  // ---------------------------------------------------------------------

  function DigitChar(d: nat): (c: char)
    requires d < 10
    ensures IsDigit(c)
  {
    ('0' as int + d) as char
  }

  function DigitValue(c: char): (d: nat)
    requires IsDigit(c)
    ensures d < 10
  {
    c as int - '0' as int
  }

  /** The value of a string made only of decimal digits. */
  function DigitsValue(s: string): nat
    requires forall i :: 0 <= i < |s| ==> IsDigit(s[i])
  {
    if s == [] then 0 else DigitsValue(s[..|s| - 1]) * 10 + DigitValue(s[|s| - 1])
  }

  /** The decimal digits of a natural number, without leading zeros. */
  function NatString(n: nat): (r: string)
    ensures r != []
    ensures forall i :: 0 <= i < |r| ==> IsDigit(r[i])
  {
    if n < 10 then [DigitChar(n)] else NatString(n / 10) + [DigitChar(n % 10)]
  }

  /** PHP `(string) $n` for an integer. */
  function DecimalString(n: int): (r: string)
    ensures r != []
  {
    if n < 0 then "-" + NatString(-n) else NatString(n)
  }

  /** The range of PHP's 64-bit `int`. */
  const PHP_INT_MAX: int := 0x7FFF_FFFF_FFFF_FFFF
  const PHP_INT_MIN: int := -0x8000_0000_0000_0000

  /** A numeric string whose value lies outside the 64-bit range converts
      to the nearest end of the range. */
  function Saturate(n: int): (r: int)
    ensures PHP_INT_MIN <= r <= PHP_INT_MAX
    ensures PHP_INT_MIN <= n <= PHP_INT_MAX ==> r == n
    ensures n > PHP_INT_MAX ==> r == PHP_INT_MAX
    ensures n < PHP_INT_MIN ==> r == PHP_INT_MIN
  {
    if n > PHP_INT_MAX then PHP_INT_MAX else if n < PHP_INT_MIN then PHP_INT_MIN else n
  }

  /** The integer written at the start of `s`: leading whitespace is
      skipped, then an optional sign, then the longest run of digits; text
      without digits there gives 0. */
  function LeadingInteger(s: string): int {
    var t := s[Span(s, IsNumericSpace)..];
    var neg := t != [] && t[0] == '-';
    var u := if t != [] && (t[0] == '-' || t[0] == '+') then t[1..] else t;
    var v: int := DigitsValue(u[..Span(u, IsDigit)]);
    if neg then -v else v
  }

  /** PHP `(int) $s` for a string: its leading integer, saturated to the
      64-bit range. */
  function IntOfString(s: string): (r: int)
    ensures PHP_INT_MIN <= r <= PHP_INT_MAX
    ensures PHP_INT_MIN <= LeadingInteger(s) <= PHP_INT_MAX ==> r == LeadingInteger(s)
  {
    Saturate(LeadingInteger(s))
  }

  lemma {:induction false} DigitsValueOfNatString(n: nat)
    ensures DigitsValue(NatString(n)) == n
  {
    if n >= 10 {
      var s := NatString(n);
      assert s[..|s| - 1] == NatString(n / 10);
      DigitsValueOfNatString(n / 10);
    }
  }

  /** `(int) (string) $n == $n` for every 64-bit integer; a decimal text
      beyond the range reads as the nearest end of it. */
  lemma IntOfDecimalString(n: int)
    ensures IntOfString(DecimalString(n)) == Saturate(n)
    ensures PHP_INT_MIN <= n <= PHP_INT_MAX ==> IntOfString(DecimalString(n)) == n
  {
    var m: nat := if n < 0 then -n else n;
    var digits := NatString(m);
    DigitsValueOfNatString(m);
    assert Span(digits, IsDigit) == |digits| by { SpanOfPrefix(digits, digits, IsDigit); }
    var s := DecimalString(n);
    assert Span(s, IsNumericSpace) == 0;
    if n < 0 {
      assert s[0] == '-' && s[1..] == digits;
    } else {
      assert !(s[0] == '-' || s[0] == '+');
    }
    assert digits[..|digits|] == digits;
    assert LeadingInteger(s) == n;
  }

  // ---------------------------------------------------------------------
  // Casts of PHP values
  // ---------------------------------------------------------------------

  /** PHP `(string) $v`: null and false give "", true gives "1", an integer
      its decimal text. An array converts only with a warning and an object
      not at all; the framework's error handler turns the warning into an
      exception, so both are None (the cast throws). */
  function StringCast(v: Value): (r: Option<string>)
    ensures v.Str? ==> r == Some(v.s)
    ensures v.Int? ==> r == Some(DecimalString(v.i))
    ensures r.None? <==> v.List? || v.Dict? || v == EmptyObject
  {
    match v
    case Null => Some("")
    case Bool(b) => Some(if b then "1" else "")
    case Int(i) => Some(DecimalString(i))
    case Str(s) => Some(s)
    case List(_) => None
    case Dict(_) => None
    case EmptyObject => None
  }

  /** PHP `(int) $v`: null and false give 0, true 1, a string its leading
      integer, an array 0 when empty and 1 otherwise. An object converts only
      with a warning, which the error handler turns into an exception (None). */
  function IntCast(v: Value): (r: Option<int>)
    ensures v.Int? ==> r == Some(v.i)
    ensures v.Str? ==> r == Some(IntOfString(v.s))
    ensures r.None? <==> v == EmptyObject
  {
    match v
    case Null => Some(0)
    case Bool(b) => Some(if b then 1 else 0)
    case Int(i) => Some(i)
    case Str(s) => Some(IntOfString(s))
    case List(items) => Some(if items == [] then 0 else 1)
    case Dict(entries) => Some(if entries == [] then 0 else 1)
    case EmptyObject => None
  }

  /** PHP truthiness of a string, as `?:` and `!` test it: "" and "0" are false. */
  predicate TruthyString(s: string) {
    s != "" && s != "0"
  }

  // ---------------------------------------------------------------------
  // Hexadecimal encoding
  // ---------------------------------------------------------------------

  predicate IsLowerHex(c: char) {
    '0' <= c <= '9' || 'a' <= c <= 'f'
  }

  function HexChar(d: nat): (c: char)
    requires d < 16
    ensures IsLowerHex(c)
  {
    if d < 10 then ('0' as int + d) as char else ('a' as int + d - 10) as char
  }

  function HexValue(c: char): (d: nat)
    requires IsLowerHex(c)
    ensures d < 16
  {
    if c <= '9' then c as int - '0' as int else c as int - 'a' as int + 10
  }

  /** PHP `bin2hex($bytes)`: two lower-case hex digits per byte, high nibble first. */
  function Bin2Hex(bytes: seq<byte>): (r: string)
    ensures |r| == 2 * |bytes|
    ensures forall i :: 0 <= i < |r| ==> IsLowerHex(r[i])
  {
    if bytes == [] then []
    else [HexChar(bytes[0] / 16), HexChar(bytes[0] % 16)] + Bin2Hex(bytes[1..])
  }

  /** The inverse of `bin2hex` (PHP `hex2bin`) for lower-case hex text. */
  function Hex2Bin(s: string): (r: Option<seq<byte>>)
    decreases |s|
  {
    if s == [] then Some([])
    else if |s| == 1 || !IsLowerHex(s[0]) || !IsLowerHex(s[1]) then None
    else match Hex2Bin(s[2..])
      case None => None
      case Some(rest) => Some([(HexValue(s[0]) * 16 + HexValue(s[1])) as byte] + rest)
  }

  /** Hex encoding loses nothing: decoding the text gives the bytes back. */
  lemma {:induction false} Hex2BinOfBin2Hex(bytes: seq<byte>)
    ensures Hex2Bin(Bin2Hex(bytes)) == Some(bytes)
  {
    if bytes != [] {
      var s := Bin2Hex(bytes);
      assert s[2..] == Bin2Hex(bytes[1..]);
      Hex2BinOfBin2Hex(bytes[1..]);
      assert HexValue(HexChar(bytes[0] / 16)) == bytes[0] / 16;
      assert HexValue(HexChar(bytes[0] % 16)) == bytes[0] % 16;
      assert [bytes[0]] + bytes[1..] == bytes;
    }
  }
}
