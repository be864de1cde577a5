/**
 * The two text decoders the record decoder relies on:
 *  - HEXLOWER.decode of the data_encoding crate: base16 with the lowercase
 *    alphabet, section 8 of RFC 4648 (no padding, two digits per byte,
 *    uppercase and other symbols rejected, odd lengths rejected);
 *  - `str::parse::<u32>` of the Rust standard library: an optional single
 *    leading '+', then one or more decimal digits whose value fits in 32 bits.
 */
module Encoding {
  import opened Wrappers
  import opened Bytes

  // ---------------------------------------------------------------- base16

  const HexAlphabet: string := "0123456789abcdef"

  predicate IsHexLower(c: char) {
    '0' <= c <= '9' || 'a' <= c <= 'f'
  }

  /** The value of one lowercase hex digit, None for any other symbol. */
  function HexDigitValue(c: char): (r: Option<int>)
    ensures r.Some? <==> IsHexLower(c)
    ensures r.Some? ==> 0 <= r.value < 16 && HexAlphabet[r.value] == c
  {
    if '0' <= c <= '9' then Some(c as int - '0' as int)
    else if 'a' <= c <= 'f' then Some(c as int - 'a' as int + 10)
    else None
  }

  /** HEXLOWER.decode: succeeds exactly on even-length strings over 0-9a-f. */
  function HexDecode(s: string): (r: Option<seq<Byte>>)
    ensures r.Some? <==> |s| % 2 == 0 && forall i | 0 <= i < |s| :: IsHexLower(s[i])
    ensures r.Some? ==> 2 * |r.value| == |s|
    decreases |s|
  {
    if |s| == 0 then Some([])
    else if |s| == 1 then None
    else
      var hi, lo, rest := HexDigitValue(s[0]), HexDigitValue(s[1]), HexDecode(s[2..]);
      if hi.Some? && lo.Some? && rest.Some? then Some([hi.value * 16 + lo.value] + rest.value)
      else None
  }

  /** Byte i of the decoded text is the value of digits 2i and 2i+1, high
      nibble first. */
  lemma {:induction false} HexDecodeValues(s: string)
    requires HexDecode(s).Some?
    ensures forall i | 0 <= i < |HexDecode(s).value| ::
      HexDecode(s).value[i] == HexDigitValue(s[2 * i]).value * 16 + HexDigitValue(s[2 * i + 1]).value
  {
    if s != [] {
      var b, t := HexDecode(s).value, s[2..];
      HexDecodeValues(t);
      forall i | 0 < i < |b|
        ensures b[i] == HexDigitValue(s[2 * i]).value * 16 + HexDigitValue(s[2 * i + 1]).value
      {
        assert b[i] == HexDecode(t).value[i - 1];
        assert s[2 * i] == t[2 * (i - 1)] && s[2 * i + 1] == t[2 * (i - 1) + 1];
      }
    }
  }

  /** HEXLOWER.encode: two lowercase digits per byte, high nibble first. */
  function HexEncode(b: seq<Byte>): (s: string)
    ensures |s| == 2 * |b|
    ensures forall i | 0 <= i < |s| :: IsHexLower(s[i])
  {
    if b == [] then ""
    else [HexAlphabet[b[0] / 16], HexAlphabet[b[0] % 16]] + HexEncode(b[1..])
  }

  /** Decoding undoes encoding. */
  lemma {:induction false} HexDecodeEncode(b: seq<Byte>)
    ensures HexDecode(HexEncode(b)) == Some(b)
  {
    if b != [] {
      var hi, lo := b[0] / 16, b[0] % 16;
      var t := HexEncode(b[1..]);
      assert HexEncode(b) == [HexAlphabet[hi], HexAlphabet[lo]] + t;
      AlphabetDigit(hi);
      AlphabetDigit(lo);
      HexDecodeEncode(b[1..]);
      HexDecodeCons(HexAlphabet[hi], HexAlphabet[lo], t);
      assert hi * 16 + lo == b[0];
      assert b == [b[0]] + b[1..];
    }
  }

  /** One step of HexDecode on two valid digits followed by decodable text. */
  lemma HexDecodeCons(x: char, y: char, t: string)
    requires IsHexLower(x) && IsHexLower(y) && HexDecode(t).Some?
    ensures HexDecode([x, y] + t) ==
      Some([HexDigitValue(x).value * 16 + HexDigitValue(y).value] + HexDecode(t).value)
  {
    assert ([x, y] + t)[2..] == t;
  }

  /** Encoding undoes decoding: the accepted text is the canonical encoding. */
  lemma {:induction false} HexEncodeDecode(s: string)
    requires HexDecode(s).Some?
    ensures HexEncode(HexDecode(s).value) == s
  {
    if s != [] {
      var hi, lo := HexDigitValue(s[0]).value, HexDigitValue(s[1]).value;
      var b := HexDecode(s).value;
      assert b == [hi * 16 + lo] + HexDecode(s[2..]).value;
      assert b[0] / 16 == hi && b[0] % 16 == lo;
      assert b[1..] == HexDecode(s[2..]).value;
      HexEncodeDecode(s[2..]);
      assert s == [s[0], s[1]] + s[2..];
    }
  }

  lemma AlphabetDigit(k: nat)
    requires k < 16
    ensures HexDigitValue(HexAlphabet[k]) == Some(k)
  {
  }

  // --------------------------------------------------------------- decimal

  predicate IsDigit(c: char) {
    '0' <= c <= '9'
  }

  /** The value of a string of decimal digits, most significant first. */
  function DigitsValue(s: string): (v: nat)
    requires forall i | 0 <= i < |s| :: IsDigit(s[i])
  {
    if s == [] then 0
    else DigitsValue(s[..|s| - 1]) * 10 + DigitValue(s[|s| - 1])
  }

  function DigitValue(c: char): (d: nat)
    requires IsDigit(c)
    ensures d < 10
  {
    c as int - '0' as int
  }

  /** The shortest decimal spelling of n (no sign, no leading zero). */
  function DecimalString(n: nat): (s: string)
    ensures |s| > 0 && forall i | 0 <= i < |s| :: IsDigit(s[i])
    ensures |s| > 1 ==> s[0] != '0'
  {
    if n < 10 then ['0' + n as char]
    else DecimalString(n / 10) + ['0' + (n % 10) as char]
  }

  /** The digits after the optional leading '+' that `parse::<u32>` strips. */
  function UnsignedDigits(s: string): string {
    if |s| > 1 && s[0] == '+' then s[1..] else s
  }

  /** `str::parse::<u32>`: None for the empty string, a sign other than one
      leading '+', a non-digit, or a value above u32::MAX. */
  function ParseU32(s: string): (r: Option<U32>)
    ensures s == [] ==> r.None?
    ensures r.Some? ==> forall i | 0 < i < |s| :: IsDigit(s[i])
    ensures r.Some? ==> IsDigit(s[0]) || (s[0] == '+' && |s| > 1)
  {
    var d := UnsignedDigits(s);
    if d != [] && (forall i | 0 <= i < |d| :: IsDigit(d[i])) && DigitsValue(d) <= MaxU32
    then Some(DigitsValue(d))
    else None
  }

  /** Reading back the shortest spelling of n gives n, exactly when n fits in
      32 bits; larger values are rejected as overflow. */
  lemma ParseU32Decimal(n: nat)
    ensures ParseU32(DecimalString(n)) == if n <= MaxU32 then Some(n) else None
  {
    DigitsValueDecimal(n);
  }

  lemma {:induction false} DigitsValueDecimal(n: nat)
    ensures DigitsValue(DecimalString(n)) == n
  {
    if n >= 10 {
      var s := DecimalString(n);
      assert s[..|s| - 1] == DecimalString(n / 10);
      DigitsValueDecimal(n / 10);
    }
  }

  /** A leading '+' is accepted and changes nothing. */
  lemma ParseU32Plus(s: string)
    requires s != [] && s[0] != '+'
    ensures ParseU32(['+'] + s) == ParseU32(s)
  {
    assert (['+'] + s)[1..] == s;
  }

  /** Leading zeros are accepted and change nothing. */
  lemma {:induction false} ParseU32LeadingZero(s: string)
    requires s != [] && forall i | 0 <= i < |s| :: IsDigit(s[i])
    ensures ParseU32(['0'] + s) == ParseU32(s)
  {
    LeadingZeroValue(s);
  }

  lemma {:induction false} LeadingZeroValue(s: string)
    requires forall i | 0 <= i < |s| :: IsDigit(s[i])
    ensures DigitsValue(['0'] + s) == DigitsValue(s)
  {
    if s != [] {
      assert (['0'] + s)[..|s|] == ['0'] + s[..|s| - 1];
      LeadingZeroValue(s[..|s| - 1]);
    }
  }
}
