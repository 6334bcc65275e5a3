/** Byte strings, and the decimal numerals that RESP headers are written in. */
module Bytes {
  import opened Helpers

  newtype byte = b: int | 0 <= b < 256

  type bytes = seq<byte>

  const CR: byte := 13
  const LF: byte := 10
  const MINUS: byte := 45
  const PLUS: byte := 43
  const CRLF: bytes := [CR, LF]

  /** The bytes of an ASCII literal; any other character becomes a question mark. */
  function Ascii(text: string): bytes {
    seq(|text|, i requires 0 <= i < |text| => if text[i] < 128 as char then text[i] as int as byte else 63)
  }

  /** b"".join(chunks); recursion on the last chunk, so that appending a chunk is one unfolding. */
  function Join(chunks: seq<bytes>): bytes {
    if chunks == [] then [] else Join(chunks[..|chunks| - 1]) + chunks[|chunks| - 1]
  }

  lemma {:induction false} JoinAppend(chunks: seq<bytes>, chunk: bytes)
    ensures Join(chunks + [chunk]) == Join(chunks) + chunk
  {
    assert (chunks + [chunk])[..|chunks|] == chunks;
  }

  lemma {:induction false} JoinConcat(left: seq<bytes>, right: seq<bytes>)
    ensures Join(left + right) == Join(left) + Join(right)
  {
    if right == [] {
      assert left + right == left;
    } else {
      var init, last := right[..|right| - 1], right[|right| - 1];
      assert left + right == (left + init) + [last];
      JoinAppend(left + init, last);
      JoinConcat(left, init);
    }
  }

  predicate IsDigit(b: byte) {
    48 <= b <= 57
  }

  predicate AllDigits(s: bytes) {
    forall i :: 0 <= i < |s| ==> IsDigit(s[i])
  }

  /** No byte of the text can end a RESP line. */
  predicate OneLine(s: bytes) {
    CR !in s && LF !in s
  }

  function Digits(n: nat): (s: bytes)
    ensures |s| > 0 && AllDigits(s)
  {
    if n < 10 then [(48 + n) as byte] else Digits(n / 10) + [(48 + n % 10) as byte]
  }

  /** str(n).encode() */
  function Decimal(n: int): (s: bytes) {
    if n < 0 then [MINUS] + Digits(-n) else Digits(n)
  }

  function DigitsValue(s: bytes): nat
    requires AllDigits(s)
  {
    if s == [] then 0 else DigitsValue(s[..|s| - 1]) * 10 + (s[|s| - 1] as int - 48)
  }

  /** int(s) for a numeral made of an optional sign and digits; None stands for ValueError. */
  function ParseInt(s: bytes): Option<int> {
    if s != [] && AllDigits(s) then
      Some(DigitsValue(s))
    else if |s| > 1 && s[0] == MINUS && AllDigits(s[1..]) then
      Some(0 - DigitsValue(s[1..]))
    else if |s| > 1 && s[0] == PLUS && AllDigits(s[1..]) then
      Some(DigitsValue(s[1..]))
    else
      None
  }

  lemma {:induction false} DigitsRoundTrip(n: nat)
    ensures DigitsValue(Digits(n)) == n
  {
    if n >= 10 {
      DigitsRoundTrip(n / 10);
      var s := Digits(n);
      assert s[..|s| - 1] == Digits(n / 10);
    }
  }

  /** Reading back a printed integer gives that integer, and the numeral fits on a line. */
  lemma {:induction false} DecimalRoundTrip(n: int)
    ensures ParseInt(Decimal(n)) == Some(n)
    ensures OneLine(Decimal(n))
    ensures |Decimal(n)| > 0
  {
    if n < 0 {
      DigitsRoundTrip(-n);
      assert Decimal(n)[1..] == Digits(-n);
      assert !IsDigit(Decimal(n)[0]);
    } else {
      DigitsRoundTrip(n);
    }
  }

  /** The only numeral that prints as "-1" is the one of -1. */
  lemma {:induction false} DecimalOfNat(n: nat)
    ensures AllDigits(Decimal(n)) && Decimal(n) != Ascii("-1")
  {
    assert IsDigit(Decimal(n)[0]);
    assert Ascii("-1")[0] == MINUS;
  }

  lemma {:induction false} TailOfTail(s: bytes, m: nat, n: nat)
    requires m + n <= |s|
    ensures s[m..][n..] == s[m + n..]
  {
  }
}
