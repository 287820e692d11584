/**
 * UTF-16 code units (section 2 of RFC 2781), as the codec carries them under the UCS-2
 * data coding scheme: utf8_to_ucs2 and the UCS-2 branch of decode_user_data.
 */
module Ucs2 {
  import opened Bytes
  import Utf8

  type unit = x: int | 0 <= x < 0x10000

  predicate IsHigh(u: unit) { 0xD800 <= u <= 0xDBFF }
  predicate IsLow(u: unit) { 0xDC00 <= u <= 0xDFFF }

  /** The units of one scalar value. */
  function Units(cp: nat): (r: seq<unit>)
    requires Utf8.IsScalar(cp)
    ensures 1 <= |r| <= 2
  {
    if cp <= 0xFFFF then [cp]
    else [0xD800 + (cp - 0x10000) / 1024, 0xDC00 + (cp - 0x10000) % 1024]
  }

  function EncodeText(text: seq<byte>): Option<seq<unit>>
    decreases |text|
  {
    if text == [] then Some([])
    else match Utf8.Next(text)
      case None => None
      case Some(code) => Prepend(Units(code.cp), EncodeText(text[code.used..]))
  }

  lemma EncodeStep(rest: seq<byte>, code: Utf8.Code, done: seq<unit>)
    requires rest != [] && Utf8.Next(rest) == Some(code)
    ensures Prepend(done, EncodeText(rest)) == Prepend(done + Units(code.cp), EncodeText(rest[code.used..]))
  {
    var tail := EncodeText(rest[code.used..]);
    if tail.Some? { assert done + (Units(code.cp) + tail.value) == done + Units(code.cp) + tail.value; }
  }

  /** utf8_to_ucs2. */
  method Utf8ToUcs2(text: seq<byte>, capacity: nat) returns (r: Option<seq<unit>>)
    ensures r == match EncodeText(text)
                 case None => None
                 case Some(u) => if |u| <= capacity then Some(u) else None
  {
    hide Utf8.Next;
    var out: seq<unit>, cursor := [], 0;
    PrependNothing(EncodeText(text));
    assert text[0..] == text;
    while cursor < |text|
      invariant cursor <= |text| && |out| <= capacity
      invariant EncodeText(text) == Prepend(out, EncodeText(text[cursor..]))
    {
      var next := Utf8.Next(text[cursor..]);
      if next.None? {
        return None;
      }
      var Code(cp, used) := next.value;
      EncodeStep(text[cursor..], next.value, out);
      assert text[cursor..][used..] == text[cursor + used..];
      if cp <= 0xFFFF {
        if |out| >= capacity {
          return None;
        }
      } else if |out| + 2 > capacity {
        return None;
      }
      out := out + Units(cp);
      cursor := cursor + used;
    }
    assert text[cursor..] == [] && out + [] == out;
    return Some(out);
  }

  /** The scalar value at the head of the units, pairing surrogates. */
  function NextUnits(units: seq<unit>): (r: Option<Utf8.Code>)
    requires units != []
    ensures r.Some? ==> Utf8.IsScalar(r.value.cp) && 1 <= r.value.used <= |units|
  {
    if IsHigh(units[0]) then
      if |units| < 2 || !IsLow(units[1]) then None
      else var hi: int, lo: int := units[0], units[1];
           Some(Utf8.Code(0x10000 + (hi - 0xD800) * 1024 + (lo - 0xDC00), 2))
    else if IsLow(units[0]) then None
    else Some(Utf8.Code(units[0], 1))
  }

  /** The text of a unit string; none on an unpaired surrogate. */
  function DecodeText(units: seq<unit>): Option<seq<byte>>
    decreases |units|
  {
    if units == [] then Some([])
    else match NextUnits(units)
      case None => None
      case Some(code) => Prepend(Utf8.Encode(code.cp).value, DecodeText(units[code.used..]))
  }

  lemma UnitsAreRead(cp: nat, rest: seq<unit>)
    requires Utf8.IsScalar(cp)
    ensures NextUnits(Units(cp) + rest) == Some(Utf8.Code(cp, |Units(cp)|))
    ensures !IsHigh(Units(cp)[|Units(cp)| - 1])
  {
    var s := Units(cp) + rest;
    assert s[0] == Units(cp)[0];
    if cp > 0xFFFF { assert s[1] == Units(cp)[1]; }
  }

  /** Every UTF-8 text survives the way through UTF-16. */
  lemma {:induction false} TextRoundTrip(text: seq<byte>)
    requires EncodeText(text).Some?
    ensures DecodeText(EncodeText(text).value) == Some(text)
    decreases |text|
  {
    hide Utf8.Next, Utf8.Encode, Units, NextUnits;
    if text != [] {
      var code := Utf8.Next(text).value;
      var units := Units(code.cp);
      var rest := text[code.used..];
      TextRoundTrip(rest);
      UnitsAreRead(code.cp, EncodeText(rest).value);
      var all := units + EncodeText(rest).value;
      assert all[|units|..] == EncodeText(rest).value;
      Utf8.NextIsEncoded(text);
      assert text[..code.used] + rest == text;
    }
  }

  /** Cutting decodable units anywhere but behind a high surrogate leaves two decodable strings. */
  lemma {:induction false} CutDecodes(units: seq<unit>, p: nat)
    requires DecodeText(units).Some? && p <= |units|
    requires p > 0 ==> !IsHigh(units[p - 1])
    ensures DecodeText(units[..p]).Some? && DecodeText(units[p..]).Some?
    ensures DecodeText(units).value == DecodeText(units[..p]).value + DecodeText(units[p..]).value
    decreases |units|
  {
    hide Utf8.Encode;
    if p == 0 {
      assert units[..0] == [] && units[0..] == units;
    } else {
      var code := NextUnits(units).value;
      var rest := units[code.used..];
      if code.used > p {
        assert false;
      }
      var q := p - code.used;
      if q > 0 { assert rest[q - 1] == units[p - 1]; }
      CutDecodes(rest, q);
      assert units[..p][code.used..] == rest[..q];
      assert units[p..] == rest[q..];
      assert NextUnits(units[..p]) == Some(code);
      var e := Utf8.Encode(code.cp).value;
      assert e + (DecodeText(rest[..q]).value + DecodeText(rest[q..]).value)
          == e + DecodeText(rest[..q]).value + DecodeText(rest[q..]).value;
    }
  }

  /** Big-endian octets of the units. */
  function Octets(units: seq<unit>): (r: seq<byte>)
    ensures |r| == 2 * |units|
  {
    seq(2 * |units|, (i: nat) requires i < 2 * |units| =>
      if i % 2 == 0 then units[i / 2] / 256 else units[i / 2] % 256)
  }

  function FromOctets(octets: seq<byte>): (r: seq<unit>)
    ensures |r| == |octets| / 2
  {
    seq(|octets| / 2, (i: nat) requires i < |octets| / 2 => octets[2 * i] as int * 256 + octets[2 * i + 1])
  }

  lemma OctetsRoundTrip(units: seq<unit>)
    ensures FromOctets(Octets(units)) == units
  {
    var o := Octets(units);
    forall i: nat | i < |units| ensures FromOctets(o)[i] == units[i] {
      assert o[2 * i] == units[i] / 256 && o[2 * i + 1] == units[i] % 256;
    }
  }

  /** The payload loop of sms_submit_encode. */
  method ToOctets(units: seq<unit>) returns (payload: seq<byte>)
    ensures payload == Octets(units)
  {
    payload := [];
    for i := 0 to |units|
      invariant payload == Octets(units)[..2 * i]
    {
      assert Octets(units)[2 * i] == units[i] / 256 && Octets(units)[2 * i + 1] == units[i] % 256;
      payload := payload + [units[i] / 256, units[i] % 256];
    }
  }

  /** In decodable units a high surrogate is never followed by a high surrogate. */
  lemma {:induction false} HighsApart(units: seq<unit>, i: nat)
    requires DecodeText(units).Some? && i + 1 < |units| && IsHigh(units[i])
    ensures !IsHigh(units[i + 1])
    decreases |units|
  {
    var code := NextUnits(units).value;
    if i >= code.used {
      HighsApart(units[code.used..], i - code.used);
    }
  }

  lemma {:induction false} TextBound(units: seq<unit>)
    requires DecodeText(units).Some?
    ensures |DecodeText(units).value| <= 4 * |units|
    decreases |units|
  {
    if units != [] { TextBound(units[NextUnits(units).value.used..]); }
  }
}
