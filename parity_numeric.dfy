/**
 * The numeric field validators of the Parity trace records.
 *
 * `gas` and `value` of call and create actions go through `int(v, 16)`
 * (hex only); `balance` of a selfdestruct action and `gasUsed` of a result
 * are parsed as hex when they are text and taken as they are otherwise.
 * The accepted text is an optional "0x"/"0X" marker followed by one or
 * more hexadecimal digits of either case.
 */
module ParityNumeric {
  import opened Common

  /** A raw numeric field as it arrives: text, or an already-decoded number. */
  datatype RawNum = Text(text: string) | Native(n: int)

  predicate IsHexDigit(c: char)
  {
    '0' <= c <= '9' || 'a' <= c <= 'f' || 'A' <= c <= 'F'
  }

  predicate AllHexDigits(s: string)
  {
    forall i :: 0 <= i < |s| ==> IsHexDigit(s[i])
  }

  function DigitValue(c: char): (d: nat)
    requires IsHexDigit(c)
    ensures d < 16
  {
    if '0' <= c <= '9' then c as int - '0' as int
    else if 'a' <= c <= 'f' then c as int - 'a' as int + 10
    else c as int - 'A' as int + 10
  }

  /** The number a run of hex digits denotes, most significant digit first (0 for no digits). */
  function DigitsValue(ds: string): nat
    requires AllHexDigits(ds)
  {
    if ds == [] then 0 else 16 * DigitsValue(ds[..|ds| - 1]) + DigitValue(ds[|ds| - 1])
  }

  predicate HasHexMarker(s: string)
  {
    |s| >= 2 && s[0] == '0' && (s[1] == 'x' || s[1] == 'X')
  }

  /** The digits after the optional marker. */
  function Digits(s: string): string
  {
    if HasHexMarker(s) then s[2..] else s
  }

  /** `int(s, 16)` on text. */
  function ParseHex(s: string): (r: Result<nat>)
    ensures r.Success? <==> |Digits(s)| > 0 && AllHexDigits(Digits(s))
    ensures r.Success? ==> r.value == DigitsValue(Digits(s))
    ensures r.Failure? ==> r.error == BadHex(s)
  {
    var ds := Digits(s);
    if |ds| > 0 && AllHexDigits(ds) then Success(DigitsValue(ds)) else Failure(BadHex(s))
  }

  /** Validator of the hex-only fields (`gas`, `value` on call and create actions). */
  function HexOnly(v: RawNum): (r: Result<nat>)
    ensures v.Native? ==> r == Failure(NotText(v.n))
    ensures v.Text? ==> r == ParseHex(v.text)
  {
    match v
    case Text(s) => ParseHex(s)
    case Native(n) => Failure(NotText(n))
  }

  /** Validator of the hex-or-native fields (`balance`, `gasUsed`). */
  function HexOrNative(v: RawNum): (r: Result<int>)
    ensures v.Native? ==> r == Success(v.n)
    ensures v.Text? ==> (r.Success? <==> ParseHex(v.text).Success?)
    ensures v.Text? && r.Success? ==> r.value == ParseHex(v.text).value
    ensures r.Failure? ==> r.error == BadHex(v.text)
  {
    match v
    case Text(s) => var n :- ParseHex(s); Success(n)
    case Native(n) => Success(n)
  }

  // ----- the rendering that inverts the parser -----

  function HexChar(d: nat): (c: char)
    requires d < 16
    ensures IsHexDigit(c) && DigitValue(c) == d
  {
    if d < 10 then ('0' as int + d) as char else ('a' as int + d - 10) as char
  }

  /** Lower-case hex digits of `n` without leading zeros, as Python's `hex(n)[2:]`. */
  function ToHex(n: nat): string
    decreases n
  {
    if n < 16 then [HexChar(n)] else ToHex(n / 16) + [HexChar(n % 16)]
  }

  lemma {:induction false} ToHexDigits(n: nat)
    ensures |ToHex(n)| > 0 && AllHexDigits(ToHex(n))
    ensures DigitsValue(ToHex(n)) == n
    decreases n
  {
    if n >= 16 {
      ToHexDigits(n / 16);
      var t := ToHex(n / 16);
      var c := HexChar(n % 16);
      assert ToHex(n) == t + [c];
      assert (t + [c])[..|t + [c]| - 1] == t;
    }
  }

  /** Parsing the "0x"-prefixed rendering of a natural number gives the number back. */
  lemma ParseHexRoundTrip(n: nat)
    ensures ParseHex("0x" + ToHex(n)) == Success(n)
  {
    ToHexDigits(n);
    assert Digits("0x" + ToHex(n)) == ToHex(n);
  }

  /** Both policies read a hex rendering alike; only hex-or-native takes a number as it is. */
  lemma NumericPolicies(n: nat, i: int)
    ensures HexOnly(Text("0x" + ToHex(n))) == Success(n)
    ensures HexOrNative(Text("0x" + ToHex(n))) == Success(n)
    ensures HexOrNative(Native(i)) == Success(i)
    ensures HexOnly(Native(i)) == Failure(NotText(i))
  {
    ParseHexRoundTrip(n);
  }

  /** Worked examples of `int(v, 16)`: the marker is optional, case is ignored, and a bare
      decimal-looking string is still read in base 16. */
  lemma ParseHexExamples()
    ensures ParseHex("0x1a") == Success(26)
    ensures ParseHex("0X1A") == Success(26)
    ensures ParseHex("1a") == Success(26)
    ensures ParseHex("26") == Success(38)
    ensures ParseHex("0x") == Failure(BadHex("0x"))
    ensures ParseHex("") == Failure(BadHex(""))
    ensures ParseHex("0xg1") == Failure(BadHex("0xg1"))
  {
    assert Digits("0x1a") == "1a";
    assert DigitsValue("1a"[..1]) == 1;
    assert Digits("0X1A") == "1A";
    assert DigitsValue("1A"[..1]) == 1;
    assert DigitsValue("26"[..1]) == 2;
    assert Digits("0x") == "";
    assert Digits("0xg1") == "g1";
    assert !IsHexDigit("g1"[0]);
  }
}
