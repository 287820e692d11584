/**
 * SMS-SUBMIT (section 9.2.2.2 of 3GPP TS 23.040): build_submit_pdu, sms_submit_encode and
 * sms_submit_preflight, and the round trip through decode_user_data.
 */
module Submit {
  import opened Bytes
  import opened UserData
  import opened Split
  import Address
  import Gsm7
  import Septets
  import Ucs2

  const MAX_PDU_OCTETS := 176
  const MAX_TEXT_UTF8 := 2048

  // ----- one PDU -----

  datatype Field = Field(udl: nat, octets: seq<byte>)

  /** The TP-UD field and its TP-UDL. */
  function FieldOf(p: Payload, udh: seq<byte>): Field {
    match p
    case Gsm(s) => Field(Septets.HeaderSeptets(|udh|) + |s|, Septets.Packed(udh, s))
    case Ucs(u) => Field(|udh| + 2 * |u|, udh + Ucs2.Octets(u))
  }

  predicate Fits(p: Payload, udh: seq<byte>) {
    FieldOf(p, udh).udl <= 255 && |FieldOf(p, udh).octets| <= 140
  }

  function FirstOctet(report: bool, hasUdh: bool): byte {
    0x01 + (if report then 0x20 else 0) + (if hasUdh then 0x40 else 0)
  }

  function Dcs(p: Payload): byte {
    if p.Gsm? then 0x00 else 0x08
  }

  /** The octets of an SMS-SUBMIT that leaves the service centre to the modem. */
  function PduOf(recipient: seq<byte>, p: Payload, report: bool, udh: seq<byte>): (r: seq<byte>)
    requires Address.Valid(recipient) && Fits(p, udh)
    ensures |r| <= 158
  {
    [0x00, FirstOctet(report, |udh| > 0), 0x00] + Address.Encoded(recipient)
    + [0x00, Dcs(p), FieldOf(p, udh).udl] + FieldOf(p, udh).octets
  }

  datatype Segment = Segment(encoding: Encoding, concat: Concat, number: nat, count: nat,
                             tpduLength: nat, pduHex: seq<byte>)

  function SegmentOf(recipient: seq<byte>, p: Payload, report: bool, udh: seq<byte>,
                     number: nat, count: nat, concat: Concat): Segment
    requires Address.Valid(recipient) && Fits(p, udh)
  {
    var pdu := PduOf(recipient, p, report, udh);
    Segment(EncodingOf(p), concat, number, count, |pdu| - 1, Address.Hex(pdu))
  }

  /** build_submit_pdu. */
  method BuildSubmitPdu(recipient: seq<byte>, p: Payload, report: bool, udh: seq<byte>)
    returns (r: Option<(nat, seq<byte>)>)
    ensures r.Some? <==> Address.Valid(recipient) && Fits(p, udh)
    ensures r.Some? ==> r.value.0 == |PduOf(recipient, p, report, udh)| - 1
    ensures r.Some? ==> r.value.1 == Address.Hex(PduOf(recipient, p, report, udh))
  {
    hide FieldOf, Address.Valid, Address.Encoded, Address.Hex;
    var first := 0x01;
    if report {
      first := first + 0x20;
    }
    if |udh| > 0 {
      first := first + 0x40;
    }
    var pdu: seq<byte> := [0x00, first, 0x00];
    var address := Address.Encode(recipient);
    if address.None? || |pdu| + |address.value| + 1 > MAX_PDU_OCTETS {
      return None;
    }
    pdu := pdu + address.value;
    var data := BuildUserData(p, udh);
    if data.None? || |pdu| + 3 + |data.value.octets| > MAX_PDU_OCTETS {
      return None;
    }
    pdu := pdu + [0x00, Dcs(p), data.value.udl];
    pdu := pdu + data.value.octets;
    assert pdu == PduOf(recipient, p, report, udh);
    var hex := Address.HexEncode(pdu, 2 * MAX_PDU_OCTETS + 1);
    return Some((|pdu| - 1, hex.value));
  }

  /** The user data branches of build_submit_pdu. */
  method BuildUserData(p: Payload, udh: seq<byte>) returns (r: Option<Field>)
    ensures r == if Fits(p, udh) then Some(FieldOf(p, udh)) else None
  {
    match p {
      case Gsm(septets) =>
        var packed := new byte[140](_ => 0);
        var ok, length, udl := Septets.PackSeptets(septets, udh, packed);
        if !ok {
          return None;
        }
        return Some(Field(udl, packed[..length]));
      case Ucs(units) =>
        var payload := Ucs2.ToOctets(units);
        if |udh| + |payload| > 140 {
          return None;
        }
        return Some(Field(|udh| + |payload|, udh + payload));
    }
  }

  // ----- the receiving side of one PDU -----

  /** An SMS-SUBMIT without validity period, read field by field as section 9.2.2.2 lays it out. */
  datatype View = View(first: byte, recipient: seq<byte>, dcs: byte, udl: byte, ud: seq<byte>)

  function ViewOf(pdu: seq<byte>): Option<View> {
    if |pdu| < 5 || pdu[0] != 0 then None
    else
      var n := (pdu[3] as nat + 1) / 2;
      if |pdu| < 8 + n then None
      else
        match Address.Decoded(pdu[5..5 + n], pdu[3] as nat, pdu[4], 24)
        case None => None
        case Some(to) => Some(View(pdu[1], to, pdu[6 + n], pdu[7 + n], pdu[8 + n..]))
  }

  lemma ViewOfPdu(recipient: seq<byte>, p: Payload, report: bool, udh: seq<byte>)
    requires Address.Valid(recipient) && Fits(p, udh)
    ensures ViewOf(PduOf(recipient, p, report, udh))
         == Some(View(FirstOctet(report, |udh| > 0), recipient, Dcs(p), FieldOf(p, udh).udl, FieldOf(p, udh).octets))
  {
    hide Address.Decoded, FieldOf;
    var pdu, a := PduOf(recipient, p, report, udh), Address.Encoded(recipient);
    var n := (|Address.Digits(recipient)| + 1) / 2;
    assert a[0] as nat == |Address.Digits(recipient)| && |a| == 2 + n;
    assert pdu[3] == a[0] && pdu[4] == a[1] && pdu[5..5 + n] == a[2..];
    assert pdu[8 + n..] == FieldOf(p, udh).octets;
    Address.AddressRoundTrip(recipient, 24);
  }

  /** Header and concatenation belong together: none, or the element announcing it. */
  ghost predicate HeaderFor(udh: seq<byte>, concat: Concat) {
    || (udh == [] && concat == NO_CONCAT)
    || (&& concat.present && concat.reference < 0x10000 && 1 <= concat.part <= concat.total < 256
        && concat.is16 == (concat.reference > 0xFF)
        && udh == ConcatHeader(concat.reference, concat.total, concat.part))
  }

  lemma HeaderIsRead(udh: seq<byte>, concat: Concat, octets: seq<byte>)
    requires HeaderFor(udh, concat) && udh <= octets
    ensures HeaderOf(|udh| > 0, octets) == Fine(Header(|udh|, concat))
  {
    if udh != [] {
      HeaderRoundTrip(concat.reference, concat.total, concat.part);
      assert octets[..|udh|] == udh && octets[0] == udh[0];
    }
  }

  lemma GsmFieldRoundTrip(s: seq<byte>, udh: seq<byte>, concat: Concat)
    requires HeaderFor(udh, concat) && Fits(Gsm(s), udh)
    requires Gsm7.DecodeText(s).Some? && |Gsm7.DecodeText(s).value| < MAX_TEXT_UTF8
    requires forall x :: x in s ==> x < 128
    ensures DecodedGsm7(|udh| > 0, FieldOf(Gsm(s), udh).udl, FieldOf(Gsm(s), udh).octets, MAX_TEXT_UTF8)
         == UserData.Decoded(Address.Ok, Gsm7Bit, concat, Gsm7.DecodeText(s).value)
  {
    hide HeaderOf, HeaderFor, Gsm7.DecodeText, Septets.Packed;
    var f := FieldOf(Gsm(s), udh);
    assert forall i :: 0 <= i < |s| ==> s[i] in s;
    Septets.PackUnpack(udh, s);
    Septets.PackKeepsHeader(udh, s);
    HeaderIsRead(udh, concat, f.octets);
    assert f.octets[..(f.udl * 7 + 7) / 8] == f.octets;
  }

  lemma UcsFieldRoundTrip(u: seq<Ucs2.unit>, udh: seq<byte>, concat: Concat)
    requires HeaderFor(udh, concat) && Fits(Ucs(u), udh)
    requires Ucs2.DecodeText(u).Some? && |Ucs2.DecodeText(u).value| < MAX_TEXT_UTF8
    ensures DecodedUcs2(|udh| > 0, FieldOf(Ucs(u), udh).udl, FieldOf(Ucs(u), udh).octets, MAX_TEXT_UTF8)
         == UserData.Decoded(Address.Ok, Ucs2Bit, concat, Ucs2.DecodeText(u).value)
  {
    hide HeaderOf, HeaderFor, DecodedUnits, DecodedUcs2, Ucs2.DecodeText;
    var ud, text := udh + Ucs2.Octets(u), Ucs2.DecodeText(u).value;
    assert Ucs2.FromOctets(ud[|udh|..]) == u by {
      assert ud[|udh|..] == Ucs2.Octets(u);
      Ucs2.OctetsRoundTrip(u);
    }
    assert HeaderOf(|udh| > 0, ud) == Fine(Header(|udh|, concat)) by {
      HeaderIsRead(udh, concat, ud);
    }
    UcsBody(|udh| > 0, ud, Header(|udh|, concat), MAX_TEXT_UTF8);
    assert DecodedUnits(u, concat, [], MAX_TEXT_UTF8) == UserData.Decoded(Address.Ok, Ucs2Bit, concat, text) by {
      UnitsDecode(u, concat, [], MAX_TEXT_UTF8);
      assert [] + text == text;
    }
  }

  lemma ByDcs(first: byte, udl: byte, ud: seq<byte>)
    ensures DecodedData(first, 0x00, udl, ud, MAX_TEXT_UTF8) == DecodedGsm7(first / 64 % 2 == 1, udl, ud, MAX_TEXT_UTF8)
    ensures DecodedData(first, 0x08, udl, ud, MAX_TEXT_UTF8) == DecodedUcs2(first / 64 % 2 == 1, udl, ud, MAX_TEXT_UTF8)
  {
    assert DcsEncoding(0x00) == Gsm7Bit && DcsEncoding(0x08) == Ucs2Bit;
  }

  lemma FirstOctetBits(report: bool, hasUdh: bool)
    ensures (FirstOctet(report, hasUdh) / 64 % 2 == 1) == hasUdh
    ensures (FirstOctet(report, hasUdh) / 32 % 2 == 1) == report
  {
  }

  /** Decoding the user data of a segment gives its text and its place in the message. */
  lemma FieldRoundTrip(p: Payload, udh: seq<byte>, concat: Concat, report: bool)
    requires HeaderFor(udh, concat) && Fits(p, udh)
    requires TextOf(p).Some? && |TextOf(p).value| < MAX_TEXT_UTF8
    requires p.Gsm? ==> forall x :: x in p.septets ==> x < 128
    ensures var f := FieldOf(p, udh);
            DecodedData(FirstOctet(report, |udh| > 0), Dcs(p), f.udl, f.octets, MAX_TEXT_UTF8)
            == UserData.Decoded(Address.Ok, EncodingOf(p), concat, TextOf(p).value)
  {
    FirstOctetBits(report, |udh| > 0);
    ByDcs(FirstOctet(report, |udh| > 0), FieldOf(p, udh).udl, FieldOf(p, udh).octets);
    match p {
      case Gsm(s) => GsmFieldRoundTrip(s, udh, concat);
      case Ucs(u) => UcsFieldRoundTrip(u, udh, concat);
    }
  }

  // ----- the whole message -----

  lemma PieceFits(p: Payload, cap: nat, o: seq<nat>, i: nat, reference: nat, total: byte, part: byte)
    requires reference < 0x10000 && cap == Capacity(p, HeaderLength(reference))
    requires Bounded(p, cap, o) && 0 < i < |o|
    ensures Fits(Slice(p, o[i - 1], o[i]), ConcatHeader(reference, total, part))
  {
  }

  function OffsetsFor(p: Payload, reference: nat): (r: Option<seq<nat>>)
    requires reference < 0x10000
    ensures r.Some? ==> Bounded(p, Capacity(p, HeaderLength(reference)), r.value) && |r.value| <= MAX_SEGMENTS + 1
  {
    var cap := Capacity(p, HeaderLength(reference));
    var r := Offsets(p, cap);
    if r.Some? then CutsBounded(p, cap, 0); r else r
  }

  /** Segment number `part` of `|o| - 1`. */
  function PartOf(recipient: seq<byte>, p: Payload, report: bool, reference: nat, o: seq<nat>, part: nat): Segment
    requires Address.Valid(recipient) && reference < 0x10000
    requires Bounded(p, Capacity(p, HeaderLength(reference)), o) && 0 < part < |o| <= MAX_SEGMENTS + 1
  {
    var total := |o| - 1;
    PieceFits(p, Capacity(p, HeaderLength(reference)), o, part, reference, total, part);
    SegmentOf(recipient, Slice(p, o[part - 1], o[part]), report, ConcatHeader(reference, total, part),
              part, total, Announced(reference, total, part))
  }

  /** The segments of a message, if the encoder accepts it. */
  function Segments(recipient: seq<byte>, text: seq<byte>, report: bool, reference: nat, maxSegments: nat): Option<seq<Segment>>
    requires reference < 0x10000
  {
    if maxSegments == 0 || !Address.Valid(recipient) || PayloadOf(text).None? then None
    else
      var p := PayloadOf(text).value;
      if Length(p) <= Single(p) then Some([SegmentOf(recipient, p, report, [], 1, 1, NO_CONCAT)])
      else
        match OffsetsFor(p, reference)
        case None => None
        case Some(o) =>
          if |o| - 1 > maxSegments then None
          else Some(seq(|o| - 1, (i: nat) requires i < |o| - 1 => PartOf(recipient, p, report, reference, o, i + 1)))
  }

  lemma SingleFits(p: Payload)
    requires Length(p) <= Single(p)
    ensures Fits(p, [])
  {
  }

  /** sms_submit_encode. */
  method SubmitEncode(recipient: seq<byte>, text: seq<byte>, report: bool, reference: nat, maxSegments: nat)
    returns (r: Option<seq<Segment>>)
    requires reference < 0x10000
    ensures r == Segments(recipient, text, report, reference, maxSegments)
  {
    hide Fits, Address.Valid, PayloadOf, PduOf, Offsets, Bounded;
    if maxSegments == 0 {
      return None;
    }
    var valid, _, _ := Address.Validate(recipient);
    if !valid {
      return None;
    }
    var payload := ToPayload(text);
    if payload.None? {
      return None;
    }
    var p := payload.value;
    if Length(p) <= Single(p) {
      SingleFits(p);
      var pdu := BuildSubmitPdu(recipient, p, report, []);
      return Some([Segment(EncodingOf(p), NO_CONCAT, 1, 1, pdu.value.0, pdu.value.1)]);
    }
    var offsets := SplitPayload(p, Capacity(p, HeaderLength(reference)));
    if offsets.None? {
      return None;
    }
    var o := offsets.value;
    assert OffsetsFor(p, reference) == Some(o);
    var parts := |o| - 1;
    if parts > maxSegments {
      return None;
    }
    r := EncodeParts(recipient, p, report, reference, o);
  }

  /** The segment loop of sms_submit_encode. */
  method EncodeParts(recipient: seq<byte>, p: Payload, report: bool, reference: nat, o: seq<nat>)
    returns (r: Option<seq<Segment>>)
    requires Address.Valid(recipient) && reference < 0x10000
    requires Bounded(p, Capacity(p, HeaderLength(reference)), o) && |o| <= MAX_SEGMENTS + 1
    ensures r == Some(seq(|o| - 1, (i: nat) requires i < |o| - 1 => PartOf(recipient, p, report, reference, o, i + 1)))
  {
    hide Fits, PduOf, Address.Valid, Slice;
    var parts := |o| - 1;
    var segments: seq<Segment> := [];
    for i := 0 to parts
      invariant |segments| == i
      invariant forall j :: 0 <= j < i ==> segments[j] == PartOf(recipient, p, report, reference, o, j + 1)
    {
      PieceFits(p, Capacity(p, HeaderLength(reference)), o, i + 1, reference, parts, i + 1);
      var piece := Slice(p, o[i], o[i + 1]);
      var pdu := BuildSubmitPdu(recipient, piece, report, ConcatHeader(reference, parts, i + 1));
      segments := segments + [Segment(EncodingOf(p), Announced(reference, parts, i + 1), i + 1, parts,
                                      pdu.value.0, pdu.value.1)];
    }
    assert segments == seq(|o| - 1, (i: nat) requires i < |o| - 1 => PartOf(recipient, p, report, reference, o, i + 1));
    return Some(segments);
  }

  /** The choice of alphabet: the default alphabet whenever it covers the text. */
  method ToPayload(text: seq<byte>) returns (r: Option<Payload>)
    ensures r == PayloadOf(text)
  {
    var count := Gsm7.SeptetCount(text);
    if count.Some? {
      if count.value > MAX_SEGMENTS * 160 {
        return None;
      }
      var septets := Gsm7.Encode(text, MAX_SEGMENTS * 160);
      if septets.None? {
        return None;
      }
      return Some(Gsm(septets.value));
    }
    var units := Ucs2.Utf8ToUcs2(text, MAX_SEGMENTS * 70);
    if units.None? {
      return None;
    }
    return Some(Ucs(units.value));
  }

  method SplitPayload(p: Payload, cap: nat) returns (r: Option<seq<nat>>)
    ensures r == Offsets(p, cap)
  {
    match p {
      case Gsm(s) => r := SplitGsm7(s, cap);
      case Ucs(u) => r := SplitUcs2(u, cap);
    }
  }
}
