/**
 * TP-User-Data with its header (section 9.2.3.24 of 3GPP TS 23.040): the concatenation
 * elements of sections 9.2.3.24.1 and 9.2.3.24.8, and decode_user_data.
 */
module UserData {
  import opened Bytes
  import opened Address
  import Gsm7
  import Septets
  import Ucs2
  import Utf8

  datatype Encoding = Gsm7Bit | Ucs2Bit | EightBit | Unknown

  datatype Concat = Concat(present: bool, is16: bool, reference: nat, total: nat, part: nat)

  const NO_CONCAT := Concat(false, false, 0, 0, 0)

  /** dcs_encoding. */
  function DcsEncoding(dcs: byte): Encoding {
    if dcs / 64 == 0 then
      if dcs / 32 % 2 == 1 then Unknown
      else match dcs / 4 % 4
        case 0 => Gsm7Bit
        case 1 => EightBit
        case 2 => Ucs2Bit
        case _ => Unknown
    else if dcs / 16 == 15 then (if dcs / 4 % 2 == 1 then EightBit else Gsm7Bit)
    else Unknown
  }

  /** The coding schemes by range: general text, and the group with message class. */
  lemma DcsByRange(dcs: byte)
    ensures DcsEncoding(dcs) == Gsm7Bit <==> dcs <= 3 || 0x10 <= dcs <= 0x13 || 0xF0 <= dcs <= 0xF3 || 0xF8 <= dcs <= 0xFB
    ensures DcsEncoding(dcs) == EightBit <==> 4 <= dcs <= 7 || 0x14 <= dcs <= 0x17 || 0xF4 <= dcs <= 0xF7 || 0xFC <= dcs
    ensures DcsEncoding(dcs) == Ucs2Bit <==> 8 <= dcs <= 11 || 0x18 <= dcs <= 0x1B
  {
  }

  // ----- headers -----

  /** concat_header: an 8-bit reference when it fits, else a 16-bit one. */
  function ConcatHeader(reference: nat, total: byte, part: byte): (r: seq<byte>)
    requires reference < 0x10000
    ensures |r| == HeaderLength(reference)
  {
    if reference <= 0xFF then [0x05, 0x00, 0x03, reference, total, part]
    else [0x06, 0x08, 0x04, reference / 256, reference % 256, total, part]
  }

  function HeaderLength(reference: nat): nat {
    if reference <= 0xFF then 6 else 7
  }

  /** One information element, as the concatenation state after it. */
  function Element(udh: seq<byte>, pos: nat, c: Concat): Concat
    requires pos + 2 <= |udh| && pos + 2 + udh[pos + 1] as nat <= |udh|
  {
    var v := pos + 2;
    if udh[pos] == 0x00 && udh[pos + 1] == 3 then
      Concat(true, false, udh[v], udh[v + 1], udh[v + 2])
    else if udh[pos] == 0x08 && udh[pos + 1] == 4 then
      Concat(true, true, udh[v] as nat * 256 + udh[v + 1], udh[v + 2], udh[v + 3])
    else c
  }

  function Elements(udh: seq<byte>, pos: nat, c: Concat): Option<Concat>
    requires pos <= |udh|
    decreases |udh| - pos, c
  {
    if pos + 2 > |udh| then Some(c)
    else if pos + 2 + udh[pos + 1] as nat > |udh| then None
    else Elements(udh, pos + 2 + udh[pos + 1] as nat, Element(udh, pos, c))
  }

  predicate WellNumbered(c: Concat) {
    c.present ==> c.total > 0 && 1 <= c.part <= c.total
  }

  function ConcatOf(udh: seq<byte>): Option<Concat> {
    if udh == [] then Some(NO_CONCAT)
    else if udh[0] as nat + 1 > |udh| then None
    else match Elements(udh[..udh[0] as nat + 1], 1, NO_CONCAT)
      case None => None
      case Some(c) => if WellNumbered(c) then Some(c) else None
  }

  /** parse_concat_udh: the last concatenation element wins. */
  method ParseConcatUdh(udh: seq<byte>) returns (r: Option<Concat>)
    ensures r == ConcatOf(udh)
  {
    if |udh| == 0 {
      return Some(NO_CONCAT);
    }
    if udh[0] as nat + 1 > |udh| {
      return None;
    }
    var end := udh[0] as nat + 1;
    ghost var field := udh[..end];
    var c := NO_CONCAT;
    var pos := 1;
    while pos + 2 <= end
      invariant 1 <= pos <= end
      invariant Elements(field, 1, NO_CONCAT) == Elements(field, pos, c)
    {
      var iei := udh[pos];
      var len := udh[pos + 1];
      pos := pos + 2;
      if pos + len as nat > end {
        return None;
      }
      if iei == 0x00 && len == 3 {
        c := Concat(true, false, udh[pos], udh[pos + 1], udh[pos + 2]);
      } else if iei == 0x08 && len == 4 {
        c := Concat(true, true, udh[pos] as nat * 256 + udh[pos + 1], udh[pos + 2], udh[pos + 3]);
      }
      pos := pos + len as nat;
    }
    if c.present && (c.total == 0 || c.part == 0 || c.part > c.total) {
      return None;
    }
    return Some(c);
  }

  function ShiftFrom(udh: seq<byte>, pos: nat): bool
    requires pos <= |udh|
    decreases |udh| - pos, udh
  {
    pos + 2 <= |udh| && pos + 2 + udh[pos + 1] as nat <= |udh|
    && (udh[pos] == 0x24 || udh[pos] == 0x25 || ShiftFrom(udh, pos + 2 + udh[pos + 1] as nat))
  }

  predicate NationalShift(udh: seq<byte>) {
    |udh| > 0 && udh[0] as nat + 1 <= |udh| && ShiftFrom(udh[..udh[0] as nat + 1], 1)
  }

  /** udh_has_national_language_shift. */
  method HasNationalShift(udh: seq<byte>) returns (r: bool)
    ensures r == NationalShift(udh)
  {
    if |udh| == 0 || udh[0] as nat + 1 > |udh| {
      return false;
    }
    var end := udh[0] as nat + 1;
    ghost var field := udh[..end];
    var pos := 1;
    while pos + 2 <= end
      invariant 1 <= pos <= end
      invariant ShiftFrom(field, 1) == ShiftFrom(field, pos)
    {
      var iei := udh[pos];
      var len := udh[pos + 1];
      pos := pos + 2;
      if pos + len as nat > end {
        return false;
      }
      if iei == 0x24 || iei == 0x25 {
        return true;
      }
      pos := pos + len as nat;
    }
    return false;
  }

  /** Of two concatenation elements the second counts. */
  lemma SecondElementCounts(r: byte, total: byte, part: byte, r': byte, total': byte, part': byte)
    requires 1 <= part' <= total'
    ensures ConcatOf([10, 0, 3, r, total, part, 0, 3, r', total', part']) == Some(Concat(true, false, r', total', part'))
  {
    var h := [10, 0, 3, r, total, part, 0, 3, r', total', part'];
    assert h[..11] == h;
    assert Elements(h, 11, Element(h, 6, Element(h, 1, NO_CONCAT))) == Some(Element(h, 6, Element(h, 1, NO_CONCAT)));
    assert Elements(h, 6, Element(h, 1, NO_CONCAT)) == Elements(h, 11, Element(h, 6, Element(h, 1, NO_CONCAT)));
    assert Elements(h, 1, NO_CONCAT) == Elements(h, 6, Element(h, 1, NO_CONCAT));
  }

  /** The concatenation a header built by ConcatHeader announces. */
  function Announced(reference: nat, total: nat, part: nat): Concat {
    Concat(true, reference > 0xFF, reference, total, part)
  }

  lemma HeaderRoundTrip(reference: nat, total: byte, part: byte)
    requires reference < 0x10000 && 1 <= part <= total
    ensures var h := ConcatHeader(reference, total, part);
            h[0] as nat + 1 == |h| && ConcatOf(h) == Some(Announced(reference, total, part)) && !NationalShift(h)
  {
    var h := ConcatHeader(reference, total, part);
    assert h[..h[0] as nat + 1] == h;
    assert h[1] as nat == (if reference <= 0xFF then 0 else 8) && 3 + h[2] as nat == |h|;
    var c := Element(h, 1, NO_CONCAT);
    assert Elements(h, 1, NO_CONCAT) == Elements(h, |h|, c) == Some(c);
    assert !ShiftFrom(h, |h|);
  }

  // ----- user data -----

  datatype Decoded = Decoded(result: DecodeResult, encoding: Encoding, concat: Concat, text: seq<byte>)

  function Failed(result: DecodeResult, encoding: Encoding): Decoded {
    Decoded(result, encoding, NO_CONCAT, [])
  }

  /** The header of a user data field of `octets` octets: its length and concatenation. */
  datatype Header = Header(length: nat, concat: Concat)

  function HeaderOf(hasUdh: bool, ud: seq<byte>): (r: Result)
    ensures r.Fine? ==> r.header.length <= |ud|
    ensures r.Fine? && !hasUdh ==> r.header.length == 0
  {
    if !hasUdh then Fine(Header(0, NO_CONCAT))
    else if |ud| == 0 then Error(Invalid)
    else
      var length := ud[0] as nat + 1;
      if length > |ud| || ConcatOf(ud[..length]).None? then Error(Invalid)
      else if NationalShift(ud[..length]) then Error(Unsupported)
      else Fine(Header(length, ConcatOf(ud[..length]).value))
  }

  datatype Result = Fine(header: Header) | Error(why: DecodeResult)

  function DecodedGsm7(hasUdh: bool, udl: byte, ud: seq<byte>, capacity: nat): Decoded {
    var packedBytes := (udl as nat * 7 + 7) / 8;
    if packedBytes > |ud| || udl > 160 then Failed(Truncated, Gsm7Bit)
    else match HeaderOf(hasUdh, ud[..packedBytes])
      case Error(why) => Failed(why, Gsm7Bit)
      case Fine(header) =>
        var hs := Septets.HeaderSeptets(header.length);
        if hs > udl as nat then Failed(Invalid, Gsm7Bit)
        else match Gsm7.DecodeText(Septets.Unpacked(ud[..packedBytes], 7 * hs, udl as nat - hs))
          case None => Failed(TextTooLong, Gsm7Bit)
          case Some(t) =>
            if |t| < capacity then Decoded(Ok, Gsm7Bit, header.concat, t) else Failed(TextTooLong, Gsm7Bit)
  }

  function DecodedUcs2(hasUdh: bool, udl: byte, ud: seq<byte>, capacity: nat): Decoded {
    if udl as nat > |ud| || udl > 140 then Failed(Truncated, Ucs2Bit)
    else match HeaderOf(hasUdh, ud[..udl])
      case Error(why) => Failed(why, Ucs2Bit)
      case Fine(header) =>
        if (udl as nat - header.length) % 2 != 0 then Failed(Invalid, Ucs2Bit)
        else DecodedUnits(Ucs2.FromOctets(ud[header.length..udl]), header.concat, [], capacity)
  }

  /** Units behind an already decoded text; the first fault decides the result. */
  function DecodedUnits(units: seq<Ucs2.unit>, concat: Concat, text: seq<byte>, capacity: nat): Decoded
    decreases |units|
  {
    if units == [] then Decoded(Ok, Ucs2Bit, concat, text)
    else match Ucs2.NextUnits(units)
      case None => Failed(Invalid, Ucs2Bit)
      case Some(code) =>
        match Utf8.Append(code.cp, text, capacity)
        case None => Failed(TextTooLong, Ucs2Bit)
        case Some(t) => DecodedUnits(units[code.used..], concat, t, capacity)
  }

  function DecodedData(first: byte, dcs: byte, udl: byte, ud: seq<byte>, capacity: nat): Decoded {
    if capacity == 0 then Failed(Invalid, DcsEncoding(dcs))
    else match DcsEncoding(dcs)
      case Gsm7Bit => DecodedGsm7(first / 64 % 2 == 1, udl, ud, capacity)
      case Ucs2Bit => DecodedUcs2(first / 64 % 2 == 1, udl, ud, capacity)
      case e => Failed(Unsupported, e)
  }

  method ReadHeader(hasUdh: bool, ud: seq<byte>) returns (r: Result)
    ensures r == HeaderOf(hasUdh, ud)
  {
    if !hasUdh {
      return Fine(Header(0, NO_CONCAT));
    }
    if |ud| == 0 {
      return Error(Invalid);
    }
    var length := ud[0] as nat + 1;
    if length > |ud| {
      return Error(Invalid);
    }
    var concat := ParseConcatUdh(ud[..length]);
    if concat.None? {
      return Error(Invalid);
    }
    var shift := HasNationalShift(ud[..length]);
    if shift {
      return Error(Unsupported);
    }
    return Fine(Header(length, concat.value));
  }

  /** decode_user_data. */
  method DecodeUserData(first: byte, dcs: byte, udl: byte, ud: seq<byte>, capacity: nat) returns (r: Decoded)
    ensures r == DecodedData(first, dcs, udl, ud, capacity)
  {
    var encoding := DcsEncoding(dcs);
    if capacity == 0 {
      return Failed(Invalid, encoding);
    }
    var hasUdh := first / 64 % 2 == 1;
    if encoding == Gsm7Bit {
      r := DecodeGsm7(hasUdh, udl, ud, capacity);
    } else if encoding == Ucs2Bit {
      r := DecodeUcs2(hasUdh, udl, ud, capacity);
    } else {
      r := Failed(Unsupported, encoding);
    }
  }

  method DecodeGsm7(hasUdh: bool, udl: byte, ud: seq<byte>, capacity: nat) returns (r: Decoded)
    requires capacity > 0
    ensures r == DecodedGsm7(hasUdh, udl, ud, capacity)
  {
    hide HeaderOf, Gsm7.DecodeText, Septets.Unpacked;
    var packedBytes := (udl as nat * 7 + 7) / 8;
    if packedBytes > |ud| || udl > 160 {
      return Failed(Truncated, Gsm7Bit);
    }
    var header := ReadHeader(hasUdh, ud[..packedBytes]);
    if header.Error? {
      return Failed(header.why, Gsm7Bit);
    }
    var hs := Septets.HeaderSeptets(header.header.length);
    if hs > udl as nat {
      return Failed(Invalid, Gsm7Bit);
    }
    var ok, septets := Septets.UnpackSeptets(ud[..packedBytes], hs * 7, udl as nat - hs);
    assert ok && septets == Septets.Unpacked(ud[..packedBytes], 7 * hs, udl as nat - hs);
    var text := Gsm7.Decode(septets, capacity);
    if text.None? {
      return Failed(TextTooLong, Gsm7Bit);
    }
    return Decoded(Ok, Gsm7Bit, header.header.concat, text.value);
  }

  method DecodeUcs2(hasUdh: bool, udl: byte, ud: seq<byte>, capacity: nat) returns (r: Decoded)
    ensures r == DecodedUcs2(hasUdh, udl, ud, capacity)
  {
    if udl as nat > |ud| || udl > 140 {
      return Failed(Truncated, Ucs2Bit);
    }
    var header := ReadHeader(hasUdh, ud[..udl]);
    if header.Error? {
      return Failed(header.why, Ucs2Bit);
    }
    var pos := header.header.length;
    if (udl as nat - pos) % 2 != 0 {
      return Failed(Invalid, Ucs2Bit);
    }
    var body := ud[pos..udl];
    r := DecodeUnits(body, header.header.concat, capacity);
  }

  method DecodeUnits(body: seq<byte>, concat: Concat, capacity: nat) returns (r: Decoded)
    requires |body| % 2 == 0
    ensures r == DecodedUnits(Ucs2.FromOctets(body), concat, [], capacity)
  {
    ghost var units := Ucs2.FromOctets(body);
    var text: seq<byte>, i := [], 0;
    assert units[0..] == units;
    while i < |body| / 2
      invariant i <= |body| / 2
      invariant DecodedUnits(units, concat, [], capacity) == DecodedUnits(units[i..], concat, text, capacity)
    {
      var next := NextUnit(body, i);
      if next.None? {
        return Failed(Invalid, Ucs2Bit);
      }
      var Code(cp, used) := next.value;
      var appended := Utf8.Append(cp, text, capacity);
      if appended.None? {
        return Failed(TextTooLong, Ucs2Bit);
      }
      assert units[i..][used..] == units[i + used..];
      text := appended.value;
      i := i + used;
    }
    assert units[i..] == [];
    return Decoded(Ok, Ucs2Bit, concat, text);
  }

  /** The scalar value at unit i, a surrogate pair taken together. */
  method NextUnit(body: seq<byte>, i: nat) returns (r: Option<Utf8.Code>)
    requires |body| % 2 == 0 && i < |body| / 2
    ensures r == Ucs2.NextUnits(Ucs2.FromOctets(body)[i..])
  {
    var cp: nat := body[2 * i] as int * 256 + body[2 * i + 1];
    if 0xD800 <= cp <= 0xDBFF {
      if i + 1 >= |body| / 2 {
        return None;
      }
      var low: nat := body[2 * i + 2] as int * 256 + body[2 * i + 3];
      assert Ucs2.FromOctets(body)[i..][1] == low;
      if low < 0xDC00 || low > 0xDFFF {
        return None;
      }
      return Some(Utf8.Code(0x10000 + (cp - 0xD800) * 1024 + (low - 0xDC00), 2));
    } else if 0xDC00 <= cp <= 0xDFFF {
      return None;
    }
    return Some(Utf8.Code(cp, 1));
  }

  /** Decodable units whose text fits decode to exactly that text. */
  lemma {:induction false} UnitsDecode(units: seq<Ucs2.unit>, concat: Concat, text: seq<byte>, capacity: nat)
    requires Ucs2.DecodeText(units).Some?
    requires |text| + |Ucs2.DecodeText(units).value| < capacity
    ensures DecodedUnits(units, concat, text, capacity)
         == Decoded(Ok, Ucs2Bit, concat, text + Ucs2.DecodeText(units).value)
    decreases |units|
  {
    hide Utf8.Encode, Ucs2.NextUnits;
    if units == [] {
      assert text + [] == text;
    } else {
      var code := Ucs2.NextUnits(units).value;
      var e := Utf8.Encode(code.cp).value;
      var tail := units[code.used..];
      UnitsDecode(tail, concat, text + e, capacity);
      Gsm7.JoinsOn(text, e, Ucs2.DecodeText(tail).value);
    }
  }

  /** A complete field is decoded from the octets behind its header. */
  lemma UcsBody(hasUdh: bool, ud: seq<byte>, header: Header, capacity: nat)
    requires |ud| <= 140 && HeaderOf(hasUdh, ud) == Fine(header) && (|ud| - header.length) % 2 == 0
    ensures DecodedUcs2(hasUdh, |ud|, ud, capacity)
         == DecodedUnits(Ucs2.FromOctets(ud[header.length..]), header.concat, [], capacity)
  {
    assert ud[..|ud|] == ud;
    assert ud[header.length..|ud|] == ud[header.length..];
  }
}
