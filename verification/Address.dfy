/**
 * Hexadecimal PDU text and semi-octet addresses (section 9.1.2.5 of 3GPP TS 23.040):
 * hex_encode, hex_decode, address_validate, address_encode and address_decode.
 */
module Address {
  import opened Bytes
  import Gsm7
  import Septets

  datatype DecodeResult = Ok | InvalidHex | Truncated | Unsupported | Invalid | TextTooLong

  const PLUS: byte := 0x2B

  // ----- hexadecimal text -----

  function HexValue(ch: byte): Option<nat> {
    if 0x30 <= ch <= 0x39 then Some(ch - 0x30)
    else if 0x61 <= ch <= 0x66 then Some(ch - 0x61 + 10)
    else if 0x41 <= ch <= 0x46 then Some(ch - 0x41 + 10)
    else None
  }

  function HexDigit(v: nat): byte
    requires v < 16
  {
    if v < 10 then 0x30 + v else 0x41 + (v - 10)
  }

  function Hex(data: seq<byte>): (r: seq<byte>)
    ensures |r| == 2 * |data|
  {
    seq(2 * |data|, (i: nat) requires i < 2 * |data| =>
      if i % 2 == 0 then HexDigit(data[i / 2] / 16) else HexDigit(data[i / 2] % 16))
  }

  datatype HexResult = Good(data: seq<byte>) | Bad(why: DecodeResult)

  /** hex_encode: one character of capacity is kept for the terminator. */
  method HexEncode(data: seq<byte>, capacity: nat) returns (r: Option<seq<byte>>)
    ensures r == if capacity < 2 * |data| + 1 then None else Some(Hex(data))
  {
    if capacity < |data| * 2 + 1 {
      return None;
    }
    var out: seq<byte> := [];
    for i := 0 to |data|
      invariant out == Hex(data)[..2 * i]
    {
      assert Hex(data)[2 * i] == HexDigit(data[i] / 16) && Hex(data)[2 * i + 1] == HexDigit(data[i] % 16);
      out := out + [HexDigit(data[i] / 16), HexDigit(data[i] % 16)];
    }
    assert Hex(data)[..2 * |data|] == Hex(data);
    return Some(out);
  }

  predicate AllHex(hex: seq<byte>) {
    forall i :: 0 <= i < |hex| ==> HexValue(hex[i]).Some?
  }

  function HexPairs(hex: seq<byte>): (r: seq<byte>)
    requires |hex| % 2 == 0 && AllHex(hex)
    ensures |r| == |hex| / 2
  {
    seq(|hex| / 2, (i: nat) requires i < |hex| / 2 =>
      HexValue(hex[2 * i]).value * 16 + HexValue(hex[2 * i + 1]).value)
  }

  function Unhex(hex: seq<byte>, capacity: nat): HexResult {
    if |hex| % 2 != 0 then Bad(InvalidHex)
    else if |hex| / 2 > capacity then Bad(Truncated)
    else if AllHex(hex) then Good(HexPairs(hex))
    else Bad(InvalidHex)
  }

  /** hex_decode. */
  method HexDecode(hex: seq<byte>, capacity: nat) returns (r: HexResult)
    ensures r == Unhex(hex, capacity)
  {
    if |hex| % 2 != 0 {
      return Bad(InvalidHex);
    }
    if |hex| / 2 > capacity {
      return Bad(Truncated);
    }
    var out: seq<byte>, i := [], 0;
    while i < |hex|
      invariant 0 <= i <= |hex| && i == 2 * |out|
      invariant AllHex(hex[..i])
      invariant forall j :: 0 <= j < |out| ==> out[j] == HexValue(hex[2 * j]).value * 16 + HexValue(hex[2 * j + 1]).value
    {
      var high := HexValue(hex[i]);
      var low := HexValue(hex[i + 1]);
      if high.None? || low.None? {
        return Bad(InvalidHex);
      }
      assert hex[..i + 2] == hex[..i] + [hex[i], hex[i + 1]];
      out := out + [high.value * 16 + low.value];
      i := i + 2;
    }
    assert hex[..i] == hex;
    assert out == HexPairs(hex);
    return Good(out);
  }

  /** Every octet string that fits survives hexadecimal text. */
  lemma HexRoundTrip(data: seq<byte>, capacity: nat)
    requires |data| <= capacity
    ensures Unhex(Hex(data), capacity) == Good(data)
  {
    var h := Hex(data);
    forall i | 0 <= i < |h| ensures HexValue(h[i]).Some? {
      assert h[i] == if i % 2 == 0 then HexDigit(data[i / 2] / 16) else HexDigit(data[i / 2] % 16);
    }
    forall i | 0 <= i < |data| ensures HexPairs(h)[i] == data[i] {
      assert h[2 * i] == HexDigit(data[i] / 16) && h[2 * i + 1] == HexDigit(data[i] % 16);
      HexDigitValue(data[i] / 16);
      HexDigitValue(data[i] % 16);
    }
  }

  lemma HexDigitValue(v: nat)
    requires v < 16
    ensures HexValue(HexDigit(v)) == Some(v)
  {
  }

  // ----- addresses -----

  predicate IsDigit(c: byte) { 0x30 <= c <= 0x39 }

  predicate International(address: seq<byte>) { |address| > 0 && address[0] == PLUS }

  function Digits(address: seq<byte>): seq<byte> {
    if International(address) then address[1..] else address
  }

  predicate Valid(address: seq<byte>) {
    1 <= |Digits(address)| <= 20 && forall i :: 0 <= i < |Digits(address)| ==> IsDigit(Digits(address)[i])
  }

  /** address_validate. */
  method Validate(address: seq<byte>) returns (ok: bool, digits: seq<byte>, international: bool)
    ensures ok == Valid(address)
    ensures ok ==> digits == Digits(address) && international == International(address)
  {
    digits, international := address, false;
    if |digits| > 0 && digits[0] == PLUS {
      international := true;
      digits := digits[1..];
    }
    if |digits| == 0 || |digits| > 20 {
      return false, digits, international;
    }
    for i := 0 to |digits|
      invariant forall j :: 0 <= j < i ==> IsDigit(digits[j])
    {
      if !IsDigit(digits[i]) {
        return false, digits, international;
      }
    }
    return true, digits, international;
  }

  function DigitValue(c: byte): (r: nat)
    requires IsDigit(c)
    ensures r <= 9
  {
    c as int - 0x30
  }

  /** Two digits per octet, low nibble first, the odd place filled with ones. */
  function SemiOctets(digits: seq<byte>): (r: seq<byte>)
    requires forall i :: 0 <= i < |digits| ==> IsDigit(digits[i])
    ensures |r| == (|digits| + 1) / 2
  {
    seq((|digits| + 1) / 2, (i: nat) requires i < (|digits| + 1) / 2 =>
      DigitValue(digits[2 * i]) + 16 * (if 2 * i + 1 < |digits| then DigitValue(digits[2 * i + 1]) else 0x0F))
  }

  function TypeOfAddress(address: seq<byte>): byte {
    if International(address) then 0x91 else 0x81
  }

  function Encoded(address: seq<byte>): (r: seq<byte>)
    requires Valid(address)
    ensures |r| == 2 + (|Digits(address)| + 1) / 2 <= 12
  {
    [|Digits(address)| as byte, TypeOfAddress(address)] + SemiOctets(Digits(address))
  }

  /** address_encode. */
  method Encode(address: seq<byte>) returns (r: Option<seq<byte>>)
    ensures r == if Valid(address) then Some(Encoded(address)) else None
  {
    var ok, digits, international := Validate(address);
    if !ok {
      return None;
    }
    var out: seq<byte> := [];
    var i := 0;
    while i < |digits|
      invariant 0 <= i <= |digits| + 1 && i % 2 == 0 && |out| == i / 2
      invariant forall j :: 0 <= j < |out| ==> out[j] == SemiOctets(digits)[j]
    {
      var low := DigitValue(digits[i]);
      var high := if i + 1 < |digits| then DigitValue(digits[i + 1]) else 0x0F;
      assert SemiOctets(digits)[i / 2] == low + 16 * high;
      out := out + [low + high * 16];
      i := i + 2;
    }
    assert out == SemiOctets(digits);
    return Some([|digits|, if international then 0x91 else 0x81] + out);
  }

  function Nibble(data: seq<byte>, i: nat): nat
    requires i / 2 < |data|
  {
    if i % 2 == 0 then data[i / 2] % 16 else data[i / 2] / 16
  }

  function NibbleChar(n: nat): Option<byte> {
    if n <= 9 then Some(0x30 + n)
    else if n == 10 then Some(0x2A)
    else if n == 11 then Some(0x23)
    else if 12 <= n <= 14 then Some(0x61 + (n - 12))
    else None
  }

  /** The digits of the first `count` semi-octets, if each of them is one. */
  function NibbleText(data: seq<byte>, count: nat): (r: Option<seq<byte>>)
    requires (count + 1) / 2 <= |data|
    ensures r.Some? ==> |r.value| == count
  {
    if count == 0 then Some([])
    else match NibbleText(data, count - 1)
      case None => None
      case Some(t) =>
        match NibbleChar(Nibble(data, count - 1))
        case None => None
        case Some(c) => Some(t + [c])
  }

  function AlphanumericText(data: seq<byte>, count: nat, capacity: nat): Option<seq<byte>>
    requires (count + 1) / 2 <= |data|
  {
    var n := count * 4 / 7;
    if n > 11 then None
    else
      match Gsm7.DecodeText(Septets.Unpacked(data[..(count + 1) / 2], 0, n))
      case None => None
      case Some(t) => if |t| < capacity then Some(t) else None
  }

  function NumberText(data: seq<byte>, count: nat, international: bool, capacity: nat): Option<seq<byte>>
    requires (count + 1) / 2 <= |data|
  {
    match NibbleText(data, count)
    case None => None
    case Some(t) =>
      var all := if international then [PLUS] + t else t;
      if |all| < capacity then Some(all) else None
  }

  /** What an address field denotes (section 9.1.2.5): alphanumeric, international or other. */
  function Decoded(data: seq<byte>, count: nat, toa: byte, capacity: nat): Option<seq<byte>> {
    if capacity == 0 || |data| < (count + 1) / 2 then None
    else if toa / 16 % 8 == 5 then AlphanumericText(data, count, capacity)
    else NumberText(data, count, toa / 16 % 8 == 1, capacity)
  }

  /** address_decode. */
  method Decode(data: seq<byte>, count: nat, toa: byte, capacity: nat) returns (r: Option<seq<byte>>)
    ensures r == Decoded(data, count, toa, capacity)
  {
    var required := (count + 1) / 2;
    if capacity == 0 || |data| < required {
      return None;
    }
    var ton := toa / 16 % 8;
    if ton == 5 {
      var n := count * 4 / 7;
      if n > 11 {
        return None;
      }
      var ok, septets := Septets.UnpackSeptets(data[..required], 0, n);
      assert ok && septets == Septets.Unpacked(data[..required], 0, n);
      r := Gsm7.Decode(septets, capacity);
      return;
    }
    var out: seq<byte> := [];
    if ton == 1 {
      if 1 >= capacity {
        assert |[PLUS]| >= capacity;
        return None;
      }
      out := [PLUS];
    }
    ghost var prefix := out;
    for i := 0 to count
      invariant |out| < capacity
      invariant NibbleText(data, i).Some? && out == prefix + NibbleText(data, i).value
    {
      var ch := NibbleChar(Nibble(data, i));
      if ch.None? || |out| + 1 >= capacity {
        NibbleTextGrows(data, i + 1, count);
        return None;
      }
      out := out + [ch.value];
    }
    assert ton != 1 ==> out == NibbleText(data, count).value;
    return Some(out);
  }

  lemma {:induction false} NibbleTextGrows(data: seq<byte>, i: nat, count: nat)
    requires (count + 1) / 2 <= |data| && i <= count
    ensures NibbleText(data, i).None? ==> NibbleText(data, count).None?
    decreases count - i
  {
    if i < count { NibbleTextGrows(data, i, count - 1); }
  }

  lemma NibbleOfDigit(digits: seq<byte>, i: nat)
    requires forall j :: 0 <= j < |digits| ==> IsDigit(digits[j])
    requires i < |digits|
    ensures NibbleChar(Nibble(SemiOctets(digits), i)) == Some(digits[i])
  {
    var o := SemiOctets(digits)[i / 2];
    if i % 2 == 0 {
      assert o % 16 == DigitValue(digits[i]);
    } else {
      assert o / 16 == DigitValue(digits[i]);
    }
  }

  lemma {:induction false} NibblesOfDigits(digits: seq<byte>, count: nat)
    requires forall i :: 0 <= i < |digits| ==> IsDigit(digits[i])
    requires count <= |digits|
    ensures NibbleText(SemiOctets(digits), count) == Some(digits[..count])
  {
    if count > 0 {
      NibblesOfDigits(digits, count - 1);
      var i := count - 1;
      NibbleOfDigit(digits, i);
      assert digits[..count] == digits[..count - 1] + [digits[i]];
    }
  }

  /** Every address the encoder accepts is read back unchanged, plus sign included. */
  lemma AddressRoundTrip(address: seq<byte>, capacity: nat)
    requires Valid(address) && capacity >= 22
    ensures var e := Encoded(address); Decoded(e[2..], e[0], e[1], capacity) == Some(address)
  {
    var d, e := Digits(address), Encoded(address);
    assert e[0] == |d| && e[1] == TypeOfAddress(address) && e[2..] == SemiOctets(d);
    assert Decoded(SemiOctets(d), |d|, e[1], capacity) == Some(address) by {
      NumberRoundTrip(d, International(address), capacity);
      NotAlphanumeric(SemiOctets(d), |d|, e[1], capacity);
      assert address == if International(address) then [PLUS] + d else d;
    }
  }

  lemma NotAlphanumeric(data: seq<byte>, count: nat, toa: byte, capacity: nat)
    requires (count + 1) / 2 <= |data| && capacity > 0 && (toa == 0x91 || toa == 0x81)
    ensures Decoded(data, count, toa, capacity) == NumberText(data, count, toa == 0x91, capacity)
  {
    hide AlphanumericText, NumberText;
  }

  lemma NumberRoundTrip(d: seq<byte>, international: bool, capacity: nat)
    requires forall i :: 0 <= i < |d| ==> IsDigit(d[i])
    requires |d| + 1 < capacity
    ensures NumberText(SemiOctets(d), |d|, international, capacity) == Some(if international then [PLUS] + d else d)
  {
    NibblesOfDigits(d, |d|);
    assert d[..|d|] == d;
  }
}
