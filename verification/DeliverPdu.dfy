/**
 * SMS-DELIVER (section 9.2.2.1 of 3GPP TS 23.040): sms_deliver_decode, and which messages the
 * service keeps as text, keeps as raw PDU, or leaves on the modem.
 */
module DeliverPdu {
  import opened Bytes
  import opened Address
  import opened UserData
  import opened Inbound
  import Gsm7
  import Septets
  import Ucs2
  import Utf8

  const MAX_PDU_OCTETS := 176
  const SENDER_SIZE := 24
  const TEXT_SIZE := 2048

  // ----- the service centre time stamp -----

  /** Two decimal digits, the low one in the high half. */
  function SemiOctet(b: byte): Option<nat> {
    if b % 16 > 9 || b / 16 > 9 then None else Some(b % 16 * 10 + b / 16)
  }

  /** The digits of a number below a hundred. */
  function High(n: nat): byte
    requires n < 100
  {
    0x30 + n / 10
  }

  function Low(n: nat): byte
    requires n < 100
  {
    0x30 + n % 10
  }

  /** A semi-octet within bounds. */
  function Between(b: byte, low: nat, high: nat): bool {
    SemiOctet(b).Some? && low <= SemiOctet(b).value <= high
  }

  /** timestamp_decode: years 70 to 99 belong to the last century, the zone is in quarters of an hour. */
  function Stamp(data: seq<byte>): (r: Option<seq<byte>>)
    ensures r.Some? ==> |r.value| == 25
  {
    if |data| < 7 then None
    else
      var quarters := data[6] % 8 * 10 + data[6] / 16;
      if !Between(data[0], 0, 99) || !Between(data[1], 1, 12) || !Between(data[2], 1, 31) || !Between(data[3], 0, 23)
         || !Between(data[4], 0, 59) || !Between(data[5], 0, 59) || quarters > 79
      then None
      else
        var yy, month, day := SemiOctet(data[0]).value, SemiOctet(data[1]).value, SemiOctet(data[2]).value;
        var hour, minute, second := SemiOctet(data[3]).value, SemiOctet(data[4]).value, SemiOctet(data[5]).value;
        var century := if yy >= 70 then 19 else 20;
        Some([High(century), Low(century), High(yy), Low(yy), 0x2D, High(month), Low(month), 0x2D, High(day), Low(day), 0x54,
              High(hour), Low(hour), 0x3A, High(minute), Low(minute), 0x3A, High(second), Low(second),
              if data[6] / 8 % 2 == 1 then 0x2D else 0x2B, High(quarters / 4), Low(quarters / 4), 0x3A,
              High(quarters % 4 * 15), Low(quarters % 4 * 15)])
  }

  /** 2024-01-01T00:00:00+00:00 in semi-octets. */
  const NEW_YEAR: seq<byte> := [0x42, 0x10, 0x10, 0x00, 0x00, 0x00, 0x00]

  /** The same as text. */
  function NewYear(): (r: seq<byte>)
    ensures Stamp(NEW_YEAR) == Some(r)
  {
    Stamp(NEW_YEAR).value
  }

  /** The number two digits show. */
  function Shown(s: seq<byte>, i: nat): nat
    requires i + 1 < |s| && 48 <= s[i] <= 57 && 48 <= s[i + 1] <= 57
  {
    (s[i] - 48) * 10 + (s[i + 1] - 48)
  }

  predicate DigitsAt(s: seq<byte>, i: nat) {
    i + 1 < |s| && 48 <= s[i] <= 57 && 48 <= s[i + 1] <= 57
  }

  /** A semi-octet pair that shows n: the tens in the low half. */
  predicate ShowsPair(b: byte, n: nat) {
    n < 100 && b as int == n / 10 + 16 * (n % 10)
  }

  predicate ShowsDate(t: seq<byte>, year: nat, month: nat, day: nat) {
    && |t| == 25 && DigitsAt(t, 0) && DigitsAt(t, 2) && DigitsAt(t, 5) && DigitsAt(t, 8) && t[4] == t[7] == 0x2D
    && Shown(t, 0) * 100 + Shown(t, 2) == year && Shown(t, 5) == month && Shown(t, 8) == day
  }

  predicate ShowsTime(t: seq<byte>, hour: nat, minute: nat, second: nat) {
    && |t| == 25 && DigitsAt(t, 11) && DigitsAt(t, 14) && DigitsAt(t, 17) && t[10] == 0x54 && t[13] == t[16] == 0x3A
    && Shown(t, 11) == hour && Shown(t, 14) == minute && Shown(t, 17) == second
  }

  predicate ShowsZone(t: seq<byte>, negative: bool, quarters: nat) {
    && |t| == 25 && DigitsAt(t, 20) && DigitsAt(t, 23) && t[19] == (if negative then 0x2D else 0x2B) && t[22] == 0x3A
    && 60 * Shown(t, 20) + Shown(t, 23) == 15 * quarters && Shown(t, 23) < 60
  }

  /** What the text shows is what the semi-octets hold: date, time, and the zone in quarters of an hour with its sign. */
  lemma StampShows(data: seq<byte>, year: nat, month: nat, day: nat, hour: nat, minute: nat, second: nat)
    requires |data| >= 7 && Stamp(data).Some?
    requires ShowsPair(data[0], year) && ShowsPair(data[1], month) && ShowsPair(data[2], day)
    requires ShowsPair(data[3], hour) && ShowsPair(data[4], minute) && ShowsPair(data[5], second)
    ensures ShowsDate(Stamp(data).value, (if year >= 70 then 1900 else 2000) + year, month, day)
    ensures ShowsTime(Stamp(data).value, hour, minute, second)
    ensures ShowsZone(Stamp(data).value, data[6] / 8 % 2 == 1, data[6] % 8 * 10 + data[6] / 16)
    ensures 1 <= month <= 12 && 1 <= day <= 31 && hour <= 23 && minute <= 59 && second <= 59
  {
    hide ShowsDate, ShowsTime, ShowsZone, High, Low, SemiOctet;
    HeldIs(data[0], year);
    HeldIs(data[1], month);
    HeldIs(data[2], day);
    HeldIs(data[3], hour);
    HeldIs(data[4], minute);
    HeldIs(data[5], second);
    DateIsShown(Stamp(data).value, year, month, day);
    TimeIsShown(Stamp(data).value, hour, minute, second);
    ZoneIsShown(Stamp(data).value, data[6] / 8 % 2 == 1, data[6] % 8 * 10 + data[6] / 16);
  }

  lemma DateIsShown(t: seq<byte>, year: nat, month: nat, day: nat)
    requires |t| == 25 && year < 100 && month < 100 && day < 100 && t[4] == t[7] == 0x2D
    requires var century := if year >= 70 then 19 else 20; t[0] == High(century) && t[1] == Low(century)
    requires t[2] == High(year) && t[3] == Low(year) && t[5] == High(month) && t[6] == Low(month) && t[8] == High(day) && t[9] == Low(day)
    ensures ShowsDate(t, (if year >= 70 then 1900 else 2000) + year, month, day)
  {
    hide High, Low;
    TwoShows(if year >= 70 then 19 else 20);
    TwoShows(year);
    TwoShows(month);
    TwoShows(day);
  }

  lemma TimeIsShown(t: seq<byte>, hour: nat, minute: nat, second: nat)
    requires |t| == 25 && hour < 100 && minute < 100 && second < 100 && t[10] == 0x54 && t[13] == t[16] == 0x3A
    requires t[11] == High(hour) && t[12] == Low(hour) && t[14] == High(minute) && t[15] == Low(minute)
    requires t[17] == High(second) && t[18] == Low(second)
    ensures ShowsTime(t, hour, minute, second)
  {
    hide High, Low;
    TwoShows(hour);
    TwoShows(minute);
    TwoShows(second);
  }

  lemma ZoneIsShown(t: seq<byte>, negative: bool, quarters: nat)
    requires |t| == 25 && quarters <= 79 && t[19] == (if negative then 0x2D else 0x2B) && t[22] == 0x3A
    requires t[20] == High(quarters / 4) && t[21] == Low(quarters / 4) && t[23] == High(quarters % 4 * 15) && t[24] == Low(quarters % 4 * 15)
    ensures ShowsZone(t, negative, quarters)
  {
    hide High, Low;
    TwoShows(quarters / 4);
    TwoShows(quarters % 4 * 15);
  }

  lemma HeldIs(b: byte, n: nat)
    requires ShowsPair(b, n)
    ensures SemiOctet(b) == Some(n)
  {
    var high, low := n / 10, n % 10;
    assert b as int == high + 16 * low && high <= 9 && low <= 9;
    assert b % 16 == high && b / 16 == low;
  }

  lemma TwoShows(n: nat)
    requires n < 100
    ensures 48 <= High(n) <= 57 && 48 <= Low(n) <= 57 && (High(n) - 48) * 10 + (Low(n) - 48) == n
  {
  }

  // ----- framing -----

  /** The fields in front of the user data, and the user data. */
  datatype Frame =
    | Frame(sender: seq<byte>, stamp: seq<byte>, first: byte, dcs: byte, udl: byte, ud: seq<byte>)
    | NoFrame(why: DecodeResult)

  /** From the first octet on, with the service centre address already skipped. */
  function FrameOf(tpdu: seq<byte>): (r: Frame)
    ensures r.Frame? ==> |r.sender| < SENDER_SIZE && |r.stamp| == 25
  {
    if tpdu == [] then NoFrame(Truncated)
    else if tpdu[0] % 4 != 0 || |tpdu| < 3 then NoFrame(Unsupported)
    else
      var digits := tpdu[1] as nat;
      var end := 3 + (digits + 1) / 2;
      if end + 10 > |tpdu| then NoFrame(Invalid)
      else
        var sender := Address.Decoded(tpdu[3..], digits, tpdu[2], SENDER_SIZE);
        var stamp := Stamp(tpdu[end + 2..]);
        if sender.None? || stamp.None? then NoFrame(Invalid)
        else
          SenderFits(tpdu[3..], digits, tpdu[2]);
          Frame(sender.value, stamp.value, tpdu[0], tpdu[end + 1], tpdu[end + 9], tpdu[end + 10..])
  }

  lemma SenderFits(data: seq<byte>, count: nat, toa: byte)
    ensures var s := Address.Decoded(data, count, toa, SENDER_SIZE); s.Some? ==> |s.value| < SENDER_SIZE
  {
  }

  function Framed(pdu: seq<byte>): (r: Frame)
    ensures r.Frame? ==> |r.sender| < SENDER_SIZE && |r.stamp| == 25
  {
    match Unhex(pdu, MAX_PDU_OCTETS)
    case Bad(why) => NoFrame(why)
    case Good(octets) =>
      if |octets| < 2 || 1 + octets[0] as nat >= |octets| then NoFrame(Truncated)
      else FrameOf(octets[1 + octets[0] as nat..])
  }

  /** The result of sms_deliver_decode, with what it found out as far as the caller uses it. */
  datatype Decoding = Decoding(result: DecodeResult, message: Deliver)

  const BLANK := Deliver([], Gsm7Bit, NO_CONCAT, [], [])

  function DecodingOf(f: Frame): Decoding {
    match f
    case NoFrame(why) => Decoding(why, BLANK)
    case Frame(sender, stamp, first, dcs, udl, ud) =>
      var d := DecodedData(first, dcs, udl, ud, TEXT_SIZE);
      Decoding(d.result, Deliver(sender, d.encoding, d.concat, stamp, BeforeNul(d.text)))
  }

  lemma Behind(octets: seq<byte>, pos: nat, k: nat)
    requires pos + k < |octets|
    ensures octets[pos..][k] == octets[pos + k] && octets[pos..][k..] == octets[pos + k..]
    ensures octets[pos..][k + 1..] == octets[pos + k + 1..]
  {
  }

  /** sms_deliver_decode. */
  method DeliverDecode(pdu: seq<byte>) returns (r: Decoding)
    ensures r == DecodingOf(Framed(pdu))
  {
    hide DecodedData, FrameOf, BeforeNul;
    var hex := HexDecode(pdu, MAX_PDU_OCTETS);
    if hex.Bad? {
      return Decoding(hex.why, BLANK);
    }
    var octets := hex.data;
    if |octets| < 2 || 1 + octets[0] as nat >= |octets| {
      return Decoding(Truncated, BLANK);
    }
    r := DecodeBehindCentre(octets, 1 + octets[0] as nat);
  }

  /** The frame, with positions counted from the start of the PDU. */
  lemma FrameAt(octets: seq<byte>, start: nat)
    requires start < |octets|
    ensures var f := FrameOf(octets[start..]);
      if octets[start] % 4 != 0 || start + 3 > |octets| then f == NoFrame(Unsupported)
      else
        var digits := octets[start + 1] as nat;
        var end := start + 3 + (digits + 1) / 2;
        if end + 10 > |octets| then f == NoFrame(Invalid)
        else
          var sender := Address.Decoded(octets[start + 3..], digits, octets[start + 2], SENDER_SIZE);
          var stamp := Stamp(octets[end + 2..]);
          f == if sender.None? || stamp.None? then NoFrame(Invalid)
               else Frame(sender.value, stamp.value, octets[start], octets[end + 1], octets[end + 9], octets[end + 10..])
  {
    hide Address.Decoded, Stamp;
    Behind(octets, start, 0);
    if start + 3 <= |octets| {
      Behind(octets, start, 1);
      Behind(octets, start, 2);
      var size := (octets[start + 1] as nat + 1) / 2;
      if start + 3 + size + 10 <= |octets| {
        Behind(octets, start, 3 + size + 1);
        Behind(octets, start, 3 + size + 9);
      }
    }
  }

  /** The part behind the service centre address, with a cursor into the octets. */
  method DecodeBehindCentre(octets: seq<byte>, start: nat) returns (r: Decoding)
    requires start < |octets|
    ensures r == DecodingOf(FrameOf(octets[start..]))
  {
    hide DecodedData, Address.Decoded, Stamp, BeforeNul, FrameOf;
    var pos := start;
    var first := octets[pos];
    FrameAt(octets, start);
    pos := pos + 1;
    if first % 4 != 0 || pos + 2 > |octets| {
      return Decoding(Unsupported, BLANK);
    }
    var digits, toa := octets[pos] as nat, octets[pos + 1];
    pos := pos + 2;
    var size := (digits + 1) / 2;
    if pos + size + 10 > |octets| {
      return Decoding(Invalid, BLANK);
    }
    var sender := Address.Decode(octets[pos..], digits, toa, SENDER_SIZE);
    if sender.None? {
      return Decoding(Invalid, BLANK);
    }
    pos := pos + size + 1;
    var dcs := octets[pos];
    pos := pos + 1;
    var stamp := Stamp(octets[pos..]);
    if stamp.None? {
      return Decoding(Invalid, BLANK);
    }
    pos := pos + 7;
    var udl := octets[pos];
    var d := DecodeUserData(first, dcs, udl, octets[pos + 1..], TEXT_SIZE);
    return Decoding(d.result, Deliver(sender.value, d.encoding, d.concat, stamp.value, BeforeNul(d.text)));
  }

  // ----- a PDU built from its fields -----

  /** An originating address field: the number of semi-octets, their type, and the octets that hold them. */
  datatype Origin = Origin(digits: byte, toa: byte, octets: seq<byte>)

  function SenderOf(o: Origin): Option<seq<byte>> {
    if |o.octets| != (o.digits as nat + 1) / 2 then None else Address.Decoded(o.octets, o.digits as nat, o.toa, SENDER_SIZE)
  }

  /** Every address the gateway can send to can be the origin of a message. */
  lemma AddressIsOrigin(address: seq<byte>)
    requires Address.Valid(address)
    ensures var e := Address.Encoded(address); SenderOf(Origin(e[0], e[1], e[2..])) == Some(address)
  {
    hide Address.Decoded;
    AddressRoundTrip(address, SENDER_SIZE);
  }

  /** A name of up to eleven septets as origin: its length in semi-octets, the alphanumeric type, and the packed septets. */
  function NameOrigin(septets: seq<byte>): Origin
    requires |septets| <= 11
  {
    Origin((7 * |septets| + 3) / 4, 0xD0, Septets.Packed([], septets))
  }

  /** Every such name that decodes to a text of fewer than 24 octets is shown as that text. */
  lemma NameIsOrigin(septets: seq<byte>)
    requires |septets| <= 11 && forall i :: 0 <= i < |septets| ==> septets[i] < 128
    ensures var text := Gsm7.DecodeText(septets);
      SenderOf(NameOrigin(septets)) == if text.Some? && |text.value| < 24 then text else None
  {
    hide Gsm7.DecodeText, Septets.Unpacked, Septets.Packed;
    var n := |septets|;
    var packed, digits := Septets.Packed([], septets), (7 * n + 3) / 4;
    assert Septets.HeaderSeptets(0) == 0;
    assert |packed| == Septets.PackedBytes(0, n) == (7 * n + 7) / 8;
    NameLength(n);
    Septets.PackUnpack([], septets);
    assert packed[..|packed|] == packed;
  }

  lemma NameLength(n: nat)
    requires n <= 11
    ensures var digits := (7 * n + 3) / 4; (digits + 1) / 2 == (7 * n + 7) / 8 && digits * 4 / 7 == n
  {
    assert n in {0, 1, 2, 3, 4, 5, 6, 7, 8, 9, 10, 11};
  }

  function Tpdu(first: byte, origin: Origin, pid: byte, dcs: byte, scts: seq<byte>, udl: byte, ud: seq<byte>): seq<byte> {
    [first, origin.digits, origin.toa] + origin.octets + [pid, dcs] + scts + [udl] + ud
  }

  /** The decoder finds every field where it was put. */
  lemma FrameRoundTrip(first: byte, origin: Origin, pid: byte, dcs: byte, scts: seq<byte>, udl: byte, ud: seq<byte>)
    requires first % 4 == 0 && SenderOf(origin).Some? && |scts| == 7 && Stamp(scts).Some?
    ensures FrameOf(Tpdu(first, origin, pid, dcs, scts, udl, ud)) == Frame(SenderOf(origin).value, Stamp(scts).value, first, dcs, udl, ud)
  {
    hide Address.Decoded, Stamp;
    var t := Tpdu(first, origin, pid, dcs, scts, udl, ud);
    var end := 3 + |origin.octets|;
    var behind := [pid, dcs] + scts + [udl] + ud;
    assert t[3..] == origin.octets + behind;
    assert t[end + 1] == dcs && t[end + 9] == udl && t[end + 10..] == ud;
    assert t[end + 2..] == scts + ([udl] + ud);
    DecodedPrefix(origin.octets, behind, origin.digits as nat, origin.toa);
    StampPrefix(scts, [udl] + ud);
  }

  lemma StampPrefix(scts: seq<byte>, rest: seq<byte>)
    requires |scts| == 7
    ensures Stamp(scts + rest) == Stamp(scts)
  {
    var all := scts + rest;
    assert all[0] == scts[0] && all[1] == scts[1] && all[2] == scts[2] && all[3] == scts[3];
    assert all[4] == scts[4] && all[5] == scts[5] && all[6] == scts[6];
  }

  lemma DecodedPrefix(octets: seq<byte>, rest: seq<byte>, count: nat, toa: byte)
    requires |octets| == (count + 1) / 2
    ensures Address.Decoded(octets + rest, count, toa, SENDER_SIZE) == Address.Decoded(octets, count, toa, SENDER_SIZE)
  {
    hide Gsm7.DecodeText, Septets.Unpacked;
    assert (octets + rest)[..(count + 1) / 2] == octets == octets[..(count + 1) / 2];
    NibblePrefix(octets, rest, count);
  }

  lemma {:induction false} NibblePrefix(octets: seq<byte>, rest: seq<byte>, count: nat)
    requires (count + 1) / 2 <= |octets|
    ensures NibbleText(octets + rest, count) == NibbleText(octets, count)
  {
    if count > 0 {
      NibblePrefix(octets, rest, count - 1);
      assert (octets + rest)[(count - 1) / 2] == octets[(count - 1) / 2];
    }
  }

  /** With any service centre address in front, as hexadecimal text. */
  lemma PduRoundTrip(centre: seq<byte>, tpdu: seq<byte>)
    requires tpdu != [] && |centre| < 256 && 1 + |centre| + |tpdu| <= MAX_PDU_OCTETS
    ensures Framed(Hex([|centre| as byte] + centre + tpdu)) == FrameOf(tpdu)
  {
    hide Hex, Unhex, FrameOf;
    var octets := [|centre| as byte] + centre + tpdu;
    HexRoundTrip(octets, MAX_PDU_OCTETS);
    assert octets[1 + |centre|..] == tpdu;
  }

  /** Everything a PDU is made of. */
  datatype Fields = Fields(centre: seq<byte>, first: byte, origin: Origin, pid: byte, dcs: byte, scts: seq<byte>, udl: byte, ud: seq<byte>)

  function TpduOf(f: Fields): seq<byte> {
    Tpdu(f.first, f.origin, f.pid, f.dcs, f.scts, f.udl, f.ud)
  }

  /** An SMS-DELIVER with a readable sender and time that fits the buffer. */
  predicate Proper(f: Fields) {
    && f.first % 4 == 0 && SenderOf(f.origin).Some? && |f.scts| == 7 && Stamp(f.scts).Some?
    && 1 + |f.centre| + |TpduOf(f)| <= MAX_PDU_OCTETS
  }

  /** Its hexadecimal text. */
  function PduWith(f: Fields): seq<byte>
    requires |f.centre| < 256
  {
    Hex([|f.centre| as byte] + f.centre + TpduOf(f))
  }

  lemma FieldsAreRead(f: Fields)
    requires Proper(f)
    ensures Framed(PduWith(f)) == Frame(SenderOf(f.origin).value, Stamp(f.scts).value, f.first, f.dcs, f.udl, f.ud)
  {
    hide Framed, FrameOf, SenderOf, Stamp, Hex;
    FrameRoundTrip(f.first, f.origin, f.pid, f.dcs, f.scts, f.udl, f.ud);
    PduRoundTrip(f.centre, TpduOf(f));
  }

  // ----- what becomes of a message -----

  datatype Incoming = Text(message: Deliver) | Binary(sender: seq<byte>, timestamp: seq<byte>) | Undecodable

  /** The branches of process_deliver_pdu. */
  function Classify(d: Decoding): Incoming {
    if d.result == Unsupported && d.message.encoding == EightBit then Binary(d.message.sender, d.message.timestamp)
    else if d.result == Ok then Text(d.message)
    else Undecodable
  }

  function IncomingOf(pdu: seq<byte>): Incoming {
    Classify(DecodingOf(Framed(pdu)))
  }

  lemma {:induction false} UnitsFit(units: seq<Ucs2.unit>, concat: Concat, text: seq<byte>, capacity: nat)
    requires |text| < capacity
    ensures var d := DecodedUnits(units, concat, text, capacity);
      d.encoding == Ucs2Bit && (d.result == Ok ==> |d.text| < capacity && d.concat == concat)
    ensures DecodedUnits(units, concat, text, capacity).result != Unsupported
    decreases |units|
  {
    hide Utf8.Encode;
    if units != [] && Ucs2.NextUnits(units).Some? {
      var code := Ucs2.NextUnits(units).value;
      var t := Utf8.Append(code.cp, text, capacity);
      if t.Some? { UnitsFit(units[code.used..], concat, t.value, capacity); }
    }
  }

  lemma HeaderIsNumbered(hasUdh: bool, ud: seq<byte>)
    ensures HeaderOf(hasUdh, ud).Fine? ==> WellNumbered(HeaderOf(hasUdh, ud).header.concat)
    ensures HeaderOf(hasUdh, ud).Error? ==> HeaderOf(hasUdh, ud).why != Ok
  {
    hide NationalShift;
  }

  /** What a decoder of text guarantees. */
  ghost predicate Bounded(d: UserData.Decoded, encoding: Encoding) {
    d.encoding == encoding && (d.result == Ok ==> WellNumbered(d.concat) && |d.text| < TEXT_SIZE)
  }

  lemma Gsm7Facts(hasUdh: bool, udl: byte, ud: seq<byte>)
    ensures Bounded(DecodedGsm7(hasUdh, udl, ud, TEXT_SIZE), Gsm7Bit)
  {
    hide HeaderOf, Gsm7.DecodeText, Septets.Unpacked, WellNumbered;
    var packedBytes := (udl as nat * 7 + 7) / 8;
    if packedBytes <= |ud| { HeaderIsNumbered(hasUdh, ud[..packedBytes]); }
  }

  lemma Ucs2Facts(hasUdh: bool, udl: byte, ud: seq<byte>)
    ensures Bounded(DecodedUcs2(hasUdh, udl, ud, TEXT_SIZE), Ucs2Bit)
  {
    hide HeaderOf, DecodedUnits, WellNumbered;
    if udl as nat <= |ud| {
      HeaderIsNumbered(hasUdh, ud[..udl]);
      var h := HeaderOf(hasUdh, ud[..udl]);
      if h.Fine? && (udl as nat - h.header.length) % 2 == 0 {
        UnitsFit(Ucs2.FromOctets(ud[h.header.length..udl]), h.header.concat, [], TEXT_SIZE);
      }
    }
  }

  /** What decode_user_data guarantees. */
  lemma DecodedDataFacts(first: byte, dcs: byte, udl: byte, ud: seq<byte>)
    ensures var d := DecodedData(first, dcs, udl, ud, TEXT_SIZE);
      && Bounded(d, DcsEncoding(dcs)) && (d.result == Ok ==> d.encoding in {Gsm7Bit, Ucs2Bit})
      && (d.encoding !in {Gsm7Bit, Ucs2Bit} ==> d.result == Unsupported)
  {
    hide DecodedGsm7, DecodedUcs2, WellNumbered, DcsEncoding;
    Gsm7Facts(first / 64 % 2 == 1, udl, ud);
    Ucs2Facts(first / 64 % 2 == 1, udl, ud);
  }

  /** A message that is filed as text is bounded and well numbered, as the inbound half assumes. */
  lemma TextIsWellDecoded(pdu: seq<byte>)
    ensures IncomingOf(pdu).Text? ==> WellDecoded(IncomingOf(pdu).message)
  {
    hide DecodedData, Framed;
    var f := Framed(pdu);
    if f.Frame? { DecodedDataFacts(f.first, f.dcs, f.udl, f.ud); }
  }

  /** A PDU that is kept raw fits the field for it. */
  lemma BinaryFits(pdu: seq<byte>)
    ensures IncomingOf(pdu).Binary? ==> |pdu| <= 2 * MAX_PDU_OCTETS
    ensures IncomingOf(pdu).Binary? ==> |IncomingOf(pdu).sender| < SENDER_SIZE && |IncomingOf(pdu).timestamp| < 40
  {
    hide DecodedData, FrameOf;
  }

  // ----- what is preserved -----

  /** A raw PDU is kept if and only if the frame is sound and its coding scheme says 8-bit data. */
  lemma KeptRawExactly(pdu: seq<byte>)
    ensures IncomingOf(pdu).Binary? <==> Framed(pdu).Frame? && DcsEncoding(Framed(pdu).dcs) == EightBit
  {
    hide DecodedData, Framed, DcsEncoding;
    var f := Framed(pdu);
    if f.Frame? { DecodedDataFacts(f.first, f.dcs, f.udl, f.ud); }
  }

  /**
   * The documentation promises that formats the codec cannot read are preserved as raw PDU. Of the
   * messages with unsupported user data that holds exactly for 8-bit data.
   */
  lemma UnsupportedIsPreservedIffEightBit(f: Frame)
    requires f.Frame? && DecodedData(f.first, f.dcs, f.udl, f.ud, TEXT_SIZE).result == Unsupported
    ensures Classify(DecodingOf(f)).Binary? <==> DcsEncoding(f.dcs) == EightBit
    ensures Classify(DecodingOf(f)).Undecodable? <==> DcsEncoding(f.dcs) != EightBit
  {
    hide DecodedData, DcsEncoding;
    DecodedDataFacts(f.first, f.dcs, f.udl, f.ud);
  }

  /** Compressed text (coding schemes 0x20 to 0x3F) is unsupported and not preserved, whatever the PDU holds. */
  lemma CompressedIsNotPreserved(f: Fields)
    requires Proper(f) && 0x20 <= f.dcs < 0x40
    ensures DecodingOf(Framed(PduWith(f))).result == Unsupported && IncomingOf(PduWith(f)).Undecodable?
  {
    hide Framed, FrameOf, SenderOf, Stamp, BeforeNul;
    FieldsAreRead(f);
  }

  /** The octets of user data that the length announces. */
  function Announces(f: Fields): nat {
    if DcsEncoding(f.dcs) == Gsm7Bit then (f.udl as nat * 7 + 7) / 8 else f.udl as nat
  }

  /** A text whose user data is all there and begins with a sound header that selects a national language table. */
  predicate Shifted(f: Fields) {
    && f.first / 64 % 2 == 1
    && ((DcsEncoding(f.dcs) == Gsm7Bit && f.udl <= 160) || (DcsEncoding(f.dcs) == Ucs2Bit && f.udl <= 140))
    && 0 < Announces(f) <= |f.ud| && f.ud[0] as nat + 1 <= Announces(f)
    && ConcatOf(f.ud[..f.ud[0] as nat + 1]).Some? && NationalShift(f.ud[..f.ud[0] as nat + 1])
  }

  /** Nor is any message with a national language single shift (0x24) or locking shift (0x25) table. */
  lemma ShiftedIsNotPreserved(f: Fields)
    requires Proper(f) && Shifted(f)
    ensures DecodingOf(Framed(PduWith(f))).result == Unsupported && IncomingOf(PduWith(f)).Undecodable?
  {
    hide Framed, FrameOf, SenderOf, Stamp, BeforeNul, ConcatOf, NationalShift, Gsm7.DecodeText, Septets.Unpacked, DecodedUnits, DcsEncoding;
    FieldsAreRead(f);
    var n, h := Announces(f), f.ud[0] as nat + 1;
    assert f.ud[..n][..h] == f.ud[..h];
  }

  /** The header of one such element, with the number of a language. */
  lemma ElementShifts(element: byte, language: byte)
    requires element == 0x24 || element == 0x25
    ensures var h := [3, element, 1, language]; ConcatOf(h) == Some(NO_CONCAT) && NationalShift(h)
  {
    var h := [3, element, 1, language];
    assert h[..4] == h;
    assert Elements(h, 4, NO_CONCAT) == Some(NO_CONCAT);
    assert Elements(h, 1, NO_CONCAT) == Elements(h, 4, Element(h, 1, NO_CONCAT));
    assert ShiftFrom(h, 1);
  }

  /** The letter A in the default alphabet, from +1 on New Year 2024, with such a header. */
  function ShiftedExample(element: byte): Fields {
    Fields([], 0x40, Origin(1, 0x91, [0xF1]), 0x00, 0x00, NEW_YEAR, 6, [3, element, 1, 1, 0x08, 0x02])
  }

  lemma ShiftedExampleIsNotPreserved(element: byte)
    requires element == 0x24 || element == 0x25
    ensures Proper(ShiftedExample(element)) && IncomingOf(PduWith(ShiftedExample(element))).Undecodable?
  {
    hide Stamp, SenderOf, ConcatOf, NationalShift, IncomingOf, PduWith, Framed, DecodingOf;
    var f := ShiftedExample(element);
    assert Stamp(NEW_YEAR) == Some(NewYear());
    FromPlusOne();
    ElementShifts(element, 1);
    assert f.ud[..4] == [3, element, 1, 1];
    ShiftedIsNotPreserved(f);
  }

  lemma FromPlusOne()
    ensures SenderOf(Origin(1, 0x91, [0xF1])) == Some([0x2B, 0x31])
  {
    hide Address.Decoded;
    var a: seq<byte> := [0x2B, 0x31];
    assert Digits(a) == [0x31];
    var e := Address.Encoded(a);
    assert e == [1, 0x91, 0xF1];
    assert e[2..] == [0xF1];
    AddressIsOrigin(a);
  }
}
