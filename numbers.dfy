/**
 * Decimal text of integers: what StringBuilder.Append(int / long) writes and what
 * Convert.ToInt32 / Convert.ToInt64 read back (NumberStyles.Integer: white space on
 * either side, then an optional sign, then digits), in a culture whose signs are
 * '-' and '+'.
 */
module Numbers {
  import opened Wrappers

  const Int32Min: int := -0x8000_0000
  const Int32Max: int := 0x7FFF_FFFF
  const Int64Min: int := -0x8000_0000_0000_0000
  const Int64Max: int := 0x7FFF_FFFF_FFFF_FFFF

  predicate IsInt32(i: int) { Int32Min <= i <= Int32Max }
  predicate IsInt64(i: int) { Int64Min <= i <= Int64Max }

  predicate IsDigit(c: char) { '0' <= c <= '9' }

  predicate AllDigits(t: string) {
    forall i :: 0 <= i < |t| ==> IsDigit(t[i])
  }

  function DigitChar(d: nat): (c: char)
    requires d < 10
    ensures IsDigit(c) && c as int - '0' as int == d
  {
    (('0' as int) + d) as char
  }

  /** Decimal digits of n, most significant first, no leading zeros. */
  function NatToDecimal(n: nat): string {
    if n < 10 then [DigitChar(n)] else NatToDecimal(n / 10) + [DigitChar(n % 10)]
  }

  /** Int32.ToString / Int64.ToString: a minus sign for negatives, then the digits. */
  function IntToDecimal(i: int): string {
    if i < 0 then "-" + NatToDecimal(-i) else NatToDecimal(i)
  }

  /** The value of a string of decimal digits. */
  function DecimalToNat(t: string): nat
    requires AllDigits(t)
  {
    if t == [] then 0 else DecimalToNat(t[..|t| - 1]) * 10 + (t[|t| - 1] as int - '0' as int)
  }

  /** The white space NumberStyles.AllowLeadingWhite and AllowTrailingWhite skip: U+0009 to U+000D and U+0020. */
  predicate IsWhite(c: char) { c == ' ' || '\t' <= c <= '\r' }

  predicate AllWhite(t: string) {
    forall i :: 0 <= i < |t| ==> IsWhite(t[i])
  }

  function TrimStart(t: string): (r: string)
    ensures |r| <= |t| && (r == [] || !IsWhite(r[0]))
  {
    if t != [] && IsWhite(t[0]) then TrimStart(t[1..]) else t
  }

  function TrimEnd(t: string): (r: string)
    ensures |r| <= |t| && (r == [] || !IsWhite(r[|r| - 1]))
  {
    if t != [] && IsWhite(t[|t| - 1]) then TrimEnd(t[..|t| - 1]) else t
  }

  /** The text with the white space on either side skipped. */
  function Trim(t: string): string {
    TrimEnd(TrimStart(t))
  }

  /** An optional sign followed by one or more digits; None when the text is not of that form. */
  function ParseSigned(t: string): Option<int> {
    var negative := t != [] && t[0] == '-';
    var body := if t != [] && (t[0] == '-' || t[0] == '+') then t[1..] else t;
    if body == [] || !AllDigits(body) then None
    else
      var magnitude: int := DecimalToNat(body);
      Some(if negative then -magnitude else magnitude)
  }

  /** NumberStyles.Integer: a signed integer with white space allowed on either side. */
  function ParseInteger(t: string): Option<int> {
    ParseSigned(Trim(t))
  }

  /** Convert.ToInt32(string). */
  function ToInt32(t: string): (r: Result<int>)
    ensures r.Ok? ==> IsInt32(r.value) && ParseInteger(t) == Some(r.value)
    ensures r.Err? ==> (r.error == Format <==> ParseInteger(t).None?)
    ensures r.Err? ==> r.error == Format || r.error == Overflow
  {
    match ParseInteger(t)
    case None => Err(Format)
    case Some(i) => if IsInt32(i) then Ok(i) else Err(Overflow)
  }

  /** Convert.ToInt64(string). */
  function ToInt64(t: string): (r: Result<int>)
    ensures r.Ok? ==> IsInt64(r.value) && ParseInteger(t) == Some(r.value)
    ensures r.Err? ==> (r.error == Format <==> ParseInteger(t).None?)
    ensures r.Err? ==> r.error == Format || r.error == Overflow
  {
    match ParseInteger(t)
    case None => Err(Format)
    case Some(i) => if IsInt64(i) then Ok(i) else Err(Overflow)
  }

  /** The decimal text of a natural number is one or more digits. */
  lemma {:induction false} NatToDecimalDigits(n: nat)
    ensures NatToDecimal(n) != [] && AllDigits(NatToDecimal(n))
  {
    if n >= 10 {
      NatToDecimalDigits(n / 10);
    }
  }

  /** The decimal text of an integer: a minus sign at most in front, digits everywhere else. */
  lemma IntToDecimalChars(i: int)
    ensures IntToDecimal(i) != []
    ensures forall k :: 0 < k < |IntToDecimal(i)| ==> IsDigit(IntToDecimal(i)[k])
    ensures IsDigit(IntToDecimal(i)[0]) || IntToDecimal(i)[0] == '-'
  {
    if i < 0 {
      NatToDecimalDigits(-i);
    } else {
      NatToDecimalDigits(i);
    }
  }

  lemma {:induction false} DecimalOfNat(n: nat)
    ensures AllDigits(NatToDecimal(n)) && DecimalToNat(NatToDecimal(n)) == n
  {
    NatToDecimalDigits(n);
    if n >= 10 {
      var t := NatToDecimal(n);
      assert t[..|t| - 1] == NatToDecimal(n / 10);
      DecimalOfNat(n / 10);
    }
  }

  /** A text that neither starts nor ends with white space is its own trimmed form. */
  lemma TrimKeeps(t: string)
    requires t == [] || (!IsWhite(t[0]) && !IsWhite(t[|t| - 1]))
    ensures Trim(t) == t
  {
  }

  lemma {:induction false} TrimStartPadded(pre: string, x: string)
    requires AllWhite(pre) && (x == [] || !IsWhite(x[0]))
    ensures TrimStart(pre + x) == x
    decreases |pre|
  {
    if pre == [] {
      assert pre + x == x;
    } else {
      assert (pre + x)[1..] == pre[1..] + x;
      TrimStartPadded(pre[1..], x);
    }
  }

  lemma {:induction false} TrimEndPadded(x: string, post: string)
    requires AllWhite(post) && (x == [] || !IsWhite(x[|x| - 1]))
    ensures TrimEnd(x + post) == x
    decreases |post|
  {
    if post == [] {
      assert x + post == x;
    } else {
      var t := x + post;
      assert t[..|t| - 1] == x + post[..|post| - 1];
      TrimEndPadded(x, post[..|post| - 1]);
    }
  }

  /** Trimming a text padded with white space on either side gives the text back. */
  lemma TrimPadded(pre: string, x: string, post: string)
    requires AllWhite(pre) && AllWhite(post)
    requires x != [] && !IsWhite(x[0]) && !IsWhite(x[|x| - 1])
    ensures Trim(pre + x + post) == x
  {
    assert pre + x + post == pre + (x + post);
    TrimStartPadded(pre, x + post);
    TrimEndPadded(x, post);
  }

  /** The decimal text of an integer reads back as that integer with the signed-integer grammar. */
  lemma ParseSignedToDecimal(i: int)
    ensures ParseSigned(IntToDecimal(i)) == Some(i)
  {
    var m: nat := if i < 0 then -i else i;
    var body := NatToDecimal(m);
    DecimalOfNat(m);
    NatToDecimalDigits(m);
    assert IsDigit(body[0]);
    if i < 0 {
      var t := IntToDecimal(i);
      assert t == "-" + body;
      assert t[0] == '-' && t[1..] == body;
    }
  }

  /** The decimal text of any integer, with any white space around it, reads back as that integer. */
  lemma PaddedIntToDecimal(pre: string, i: int, post: string)
    requires AllWhite(pre) && AllWhite(post)
    ensures ParseInteger(pre + IntToDecimal(i) + post) == Some(i)
  {
    var t := IntToDecimal(i);
    IntToDecimalChars(i);
    assert !IsWhite(t[0]) && !IsWhite(t[|t| - 1]);
    TrimPadded(pre, t, post);
    ParseSignedToDecimal(i);
  }

  /** Reading back the decimal text of any integer gives that integer. */
  lemma ParseIntToDecimal(i: int)
    ensures ParseInteger(IntToDecimal(i)) == Some(i)
  {
    PaddedIntToDecimal([], i, []);
    assert [] + IntToDecimal(i) + [] == IntToDecimal(i);
  }

  lemma Int32RoundTrip(i: int)
    requires IsInt32(i)
    ensures ToInt32(IntToDecimal(i)) == Ok(i)
  {
    ParseIntToDecimal(i);
  }

  lemma Int64RoundTrip(i: int)
    requires IsInt64(i)
    ensures ToInt64(IntToDecimal(i)) == Ok(i)
  {
    ParseIntToDecimal(i);
  }
}
