/** Bytes, the conversions between bytes and characters the upload code
    relies on, and decimal rendering of numbers. */
module Text {

  /** One octet, as `InputStream.read` returns it when the stream is not exhausted. */
  type Byte = x: int | 0 <= x < 256

  /** The line terminator of SCP control lines and diagnostics. */
  const Newline: Byte := 10

  /** The byte a character becomes in the outgoing stream: `String.getBytes()`
      under an ISO-8859-1 default charset, which replaces a character it
      cannot represent by '?'. */
  function EncodeChar(c: char): (b: Byte)
    ensures c as int < 256 ==> b == c as int
  {
    if c as int < 256 then c as int else '?' as int
  }

  /** `String.getBytes()`: one byte per character. */
  function Latin1(s: string): (bytes: seq<Byte>)
    ensures |bytes| == |s|
    ensures forall i :: 0 <= i < |s| ==> bytes[i] == EncodeChar(s[i])
  {
    seq(|s|, i requires 0 <= i < |s| => EncodeChar(s[i]))
  }

  /** The characters `(char) c` yields for the bytes read from a stream. */
  function Chars(bytes: seq<Byte>): (s: string)
    ensures |s| == |bytes|
    ensures forall i :: 0 <= i < |bytes| ==> s[i] as int == bytes[i]
  {
    seq(|bytes|, i requires 0 <= i < |bytes| => bytes[i] as char)
  }

  /** Every character of `s` has a one-byte encoding. */
  predicate IsLatin1(s: string) {
    forall i :: 0 <= i < |s| ==> s[i] as int < 256
  }

  /** Reading back the bytes of a representable string yields the string. */
  lemma CharsOfLatin1(s: string)
    requires IsLatin1(s)
    ensures Chars(Latin1(s)) == s
  {
    var back := Chars(Latin1(s));
    assert |back| == |s|;
    forall i | 0 <= i < |s|
      ensures back[i] == s[i]
    {
      assert back[i] as int == s[i] as int;
    }
  }

  predicate IsDigit(c: char) {
    '0' <= c <= '9'
  }

  predicate IsDigits(s: string) {
    forall i :: 0 <= i < |s| ==> IsDigit(s[i])
  }

  function DigitChar(d: nat): (c: char)
    requires d < 10
    ensures IsDigit(c)
  {
    ['0', '1', '2', '3', '4', '5', '6', '7', '8', '9'][d]
  }

  function DigitValue(c: char): (d: nat)
    requires IsDigit(c)
    ensures d < 10
  {
    (c as int) - ('0' as int)
  }

  lemma DigitValueOfDigitChar(d: nat)
    requires d < 10
    ensures DigitValue(DigitChar(d)) == d
  {
  }

  /** Java's decimal rendering of a non-negative number (`"" + n`):
      digits only, never empty, no leading zero. */
  function Decimal(n: nat): (s: string)
    ensures |s| > 0 && IsDigits(s)
    ensures s[0] == '0' ==> n == 0
  {
    if n < 10 then [DigitChar(n)] else Decimal(n / 10) + [DigitChar(n % 10)]
  }

  /** The number a non-empty string of digits denotes. */
  function ParseDecimal(s: string): nat
    requires IsDigits(s)
  {
    if |s| == 0 then 0
    else 10 * ParseDecimal(s[..|s| - 1]) + DigitValue(s[|s| - 1])
  }

  /** Parsing the decimal rendering of a number recovers the number, so the
      rendering loses nothing (and distinct sizes give distinct headers). */
  lemma {:induction false} ParseDecimalOfDecimal(n: nat)
    ensures ParseDecimal(Decimal(n)) == n
  {
    var s := Decimal(n);
    if n < 10 {
      DigitValueOfDigitChar(n);
    } else {
      assert s[..|s| - 1] == Decimal(n / 10);
      ParseDecimalOfDecimal(n / 10);
      DigitValueOfDigitChar(n % 10);
    }
  }

  /** The prefix of `s` before the first occurrence of `x` (all of `s` when
      `x` does not occur). */
  function TakeUntil<T(==)>(s: seq<T>, x: T): (p: seq<T>)
    ensures p <= s
    ensures x !in p
    ensures |p| < |s| ==> s[|p|] == x
  {
    if |s| == 0 || s[0] == x then [] else [s[0]] + TakeUntil(s[1..], x)
  }

  /** A delimiter-free prefix followed by the delimiter is exactly what
      TakeUntil returns. */
  lemma {:induction false} TakeUntilDelimited<T>(a: seq<T>, x: T, b: seq<T>)
    requires x !in a
    ensures TakeUntil(a + [x] + b, x) == a
  {
    if |a| > 0 {
      assert (a + [x] + b)[1..] == a[1..] + [x] + b;
      TakeUntilDelimited(a[1..], x, b);
    } else {
      assert (a + [x] + b)[0] == x;
    }
  }
}
