/**
 * From one gateway to another: the segments of a text, delivered as its parts in any order and
 * with repeats, leave one received message that holds the text.
 */
module EndToEnd {
  import opened Bytes
  import opened UserData
  import opened Journal
  import opened Inbound
  import opened Reassembly
  import opened ArrivalOrder
  import Submit
  import SubmitTheorems
  import opened DeliverPdu
  import Gateway
  import Address
  import Split
  import Gsm7
  import Ucs2
  import Utf8

  /** The SMS-DELIVER that carries the user data of a segment. */
  function Delivered(segment: Submit.Segment, sender: seq<byte>, stamp: seq<byte>): Deliver {
    match SubmitTheorems.ReadBack(segment)
    case None => Deliver(sender, Unknown, NO_CONCAT, stamp, [])
    case Some(r) => Deliver(sender, r.data.encoding, r.data.concat, stamp, BeforeNul(r.data.text))
  }

  function AllDelivered(segments: seq<Submit.Segment>, sender: seq<byte>, stamps: seq<seq<byte>>): (r: seq<Deliver>)
    requires |stamps| == |segments|
    ensures |r| == |segments| && forall i :: 0 <= i < |r| ==> r[i] == Delivered(segments[i], sender, stamps[i])
  {
    seq(|segments|, i requires 0 <= i < |segments| => Delivered(segments[i], sender, stamps[i]))
  }

  /** No NUL in a joined text, none in its pieces. */
  lemma {:induction false} PiecesAreText(segments: seq<Submit.Segment>, n: nat, i: nat)
    requires i < n <= |segments| && 0 !in SubmitTheorems.Joined(segments, n)
    ensures 0 !in SubmitTheorems.TextBack(segments[i])
    decreases n
  {
    hide SubmitTheorems.TextBack;
    if i < n - 1 { PiecesAreText(segments, n - 1, i); }
  }

  /** What the other end makes of segment i. */
  lemma DeliveredIs(segments: seq<Submit.Segment>, i: nat, recipient: seq<byte>, report: bool, reference: nat, sender: seq<byte>, stamp: seq<byte>)
    requires i < |segments| && SubmitTheorems.ReadsAsPart(segments, i, recipient, report, reference)
    requires |sender| < 24 && |stamp| < 40 && 0 !in SubmitTheorems.TextBack(segments[i]) && 0 < |segments| <= MAX_SEGMENTS
    ensures var d := Delivered(segments[i], sender, stamp);
      && d.sender == sender && d.timestamp == stamp && d.text == SubmitTheorems.TextBack(segments[i])
      && d.encoding == segments[i].encoding && WellDecoded(d)
      && d.concat == if |segments| == 1 then NO_CONCAT else Announced(reference, |segments|, i + 1)
  {
    hide DecodedData, Submit.ViewOf, Address.Unhex, BeforeNul;
    var t: CString := SubmitTheorems.TextBack(segments[i]);
    BeforeNulOfText(t);
    ReadBackFacts(segments[i]);
  }

  lemma ReadBackFacts(segment: Submit.Segment)
    requires SubmitTheorems.ReadBack(segment).Some? && SubmitTheorems.ReadBack(segment).value.data.result == Address.Ok
    ensures var d := SubmitTheorems.ReadBack(segment).value.data;
      d.encoding in {Gsm7Bit, Ucs2Bit} && WellNumbered(d.concat) && |d.text| < 2048
  {
    hide DecodedData, Submit.ViewOf, Address.Unhex;
    var v := Submit.ViewOf(Address.Unhex(segment.pduHex, Submit.MAX_PDU_OCTETS).data).value;
    DecodedDataFacts(v.first, v.dcs, v.udl, v.ud);
  }

  lemma {:induction false} TextsAreJoined(segments: seq<Submit.Segment>, parts: seq<Deliver>, n: nat)
    requires n <= |segments| == |parts| && forall i :: 0 <= i < |parts| ==> parts[i].text == SubmitTheorems.TextBack(segments[i])
    ensures Texts(parts, n) == SubmitTheorems.Joined(segments, n)
    decreases n
  {
    hide SubmitTheorems.TextBack;
    if n > 0 { TextsAreJoined(segments, parts, n - 1); }
  }

  /** The delivered segments of an accepted text are the parts of one message in one encoding. */
  lemma SegmentsAreOneMessage(recipient: seq<byte>, text: CString, report: bool, reference: nat, sender: seq<byte>, stamps: seq<seq<byte>>)
    requires reference < 0x10000 && |text| < 4096 && |sender| < 24
    requires var s := Submit.Segments(recipient, text, report, reference, MAX_SEGMENTS); s.Some? && |s.value| == |stamps| > 1
    requires forall i :: 0 <= i < |stamps| ==> |stamps[i]| < 40
    ensures var parts := AllDelivered(Submit.Segments(recipient, text, report, reference, MAX_SEGMENTS).value, sender, stamps);
      OneMessage(parts) && SameEncoding(parts) && Texts(parts, |parts|) == text
  {
    hide Submit.Segments, SubmitTheorems.ReadsAsPart, Delivered, SubmitTheorems.TextBack, SubmitTheorems.PreflightOf;
    var segments := Submit.Segments(recipient, text, report, reference, MAX_SEGMENTS).value;
    SubmitTheorems.RoundTrip(recipient, text, report, reference, MAX_SEGMENTS);
    SubmitTheorems.PreflightAgrees(recipient, text, report, reference);
    var parts := AllDelivered(segments, sender, stamps);
    forall i | 0 <= i < |parts|
      ensures parts[i].text == SubmitTheorems.TextBack(segments[i]) && parts[i].encoding == segments[i].encoding && WellDecoded(parts[i])
      ensures parts[i].sender == sender && parts[i].concat == Announced(reference, |segments|, i + 1)
    {
      PiecesAreText(segments, |segments|, i);
      DeliveredIs(segments, i, recipient, report, reference, sender, stamps[i]);
    }
    TextsAreJoined(segments, parts, |parts|);
  }

  /**
   * Every text the encoder accepts in several segments: delivered in any order with repeats, its
   * segments leave exactly one received message, and that holds the text.
   */
  lemma TextArrivesOnce(s: State, recipient: seq<byte>, text: CString, report: bool, reference: nat,
                        sender: seq<byte>, stamps: seq<seq<byte>>, order: seq<nat>)
    requires reference < 0x10000 && |text| < 4096 && |sender| < 24
    requires var segments := Submit.Segments(recipient, text, report, reference, MAX_SEGMENTS); segments.Some? && |segments.value| == |stamps| > 1
    requires forall i :: 0 <= i < |stamps| ==> |stamps[i]| < 40
    requires var parts := AllDelivered(Submit.Segments(recipient, text, report, reference, MAX_SEGMENTS).value, sender, stamps);
             Beforehand(s, parts) && Covers(parts, order)
    ensures var parts := AllDelivered(Submit.Segments(recipient, text, report, reference, MAX_SEGMENTS).value, sender, stamps);
      && OneMessage(parts)
      && var s' := Arrivals(s, parts, order);
         exists id :: NewReceived(s, s') == {id} && s'.records[id].text == text && s'.records[id].sender == sender
                      && s'.records[id].timestamp == stamps[0]
  {
    hide Submit.Segments, Delivered, Arrivals, Beforehand, Covers, OneMessage;
    var segments := Submit.Segments(recipient, text, report, reference, MAX_SEGMENTS).value;
    var parts := AllDelivered(segments, sender, stamps);
    SegmentsAreOneMessage(recipient, text, report, reference, sender, stamps);
    OnceInAnyOrder(s, parts, order);
    SenderAndTime(segments[0], sender, stamps[0]);
  }

  lemma SenderAndTime(segment: Submit.Segment, sender: seq<byte>, stamp: seq<byte>)
    ensures Delivered(segment, sender, stamp).sender == sender && Delivered(segment, sender, stamp).timestamp == stamp
  {
    hide SubmitTheorems.ReadBack;
  }

  /** A text that fits one segment is received whole, whenever it can be stored. */
  lemma ShortTextArrives(s: State, recipient: seq<byte>, text: CString, report: bool, reference: nat, sender: seq<byte>, stamp: seq<byte>)
    requires InboundInv(s) && reference < 0x10000 && |sender| < 24 && |stamp| < 40
    requires var segments := Submit.Segments(recipient, text, report, reference, MAX_SEGMENTS); segments.Some? && |segments.value| == 1
    ensures var d := Delivered(Submit.Segments(recipient, text, report, reference, MAX_SEGMENTS).value[0], sender, stamp);
      && WellDecoded(d) && d.text == text && !d.concat.present
      && (Persist(s, d, CALM).err == Ok ==> ReceivedAs(Persist(s, d, CALM).state, sender, stamp, text))
  {
    hide Submit.Segments, SubmitTheorems.ReadsAsPart, Delivered, SubmitTheorems.TextBack, SaveOnce, InboundInv;
    var segments := Submit.Segments(recipient, text, report, reference, MAX_SEGMENTS).value;
    SubmitTheorems.RoundTrip(recipient, text, report, reference, MAX_SEGMENTS);
    assert SubmitTheorems.Joined(segments, 1) == SubmitTheorems.Joined(segments, 0) + SubmitTheorems.TextBack(segments[0]);
    DeliveredIs(segments, 0, recipient, report, reference, sender, stamp);
    var d := Delivered(segments[0], sender, stamp);
    SingleIsStored(s, d, CALM);
    if Persist(s, d, CALM).err == Ok {
      var s' := Persist(s, d, CALM).state;
      var id :| id in s'.records && WholeAt(s'.records[id], d);
      assert s'.records[id].text == text;
    }
  }

  /** A received message with that sender, time and text is stored. */
  ghost predicate ReceivedAs(s: State, sender: seq<byte>, stamp: seq<byte>, text: seq<byte>) {
    exists id :: id in s.records && s.records[id].direction == Inbound && s.records[id].status == Received
                 && s.records[id].sender == sender && s.records[id].timestamp == stamp && s.records[id].text == text
  }

  // ----- the same from the PDUs of the modem -----

  /** What the network adds to a segment: service centre, flags, origin, protocol and time. */
  datatype Envelope = Envelope(centre: seq<byte>, flags: byte, origin: Origin, pid: byte, scts: seq<byte>)

  /** SMS-DELIVER, with the header bit left to the segment, from that sender and at a valid time. */
  predicate Wraps(e: Envelope, sender: seq<byte>) {
    && e.flags % 4 == 0 && e.flags / 64 % 2 == 0
    && SenderOf(e.origin) == Some(sender) && |e.centre| + |e.origin.octets| <= 22
    && |e.scts| == 7 && Stamp(e.scts).Some?
  }

  function ViewIn(segment: Submit.Segment): Option<Submit.View> {
    match Address.Unhex(segment.pduHex, Submit.MAX_PDU_OCTETS)
    case Bad(_) => None
    case Good(pdu) => Submit.ViewOf(pdu)
  }

  function TpduIn(v: Submit.View, e: Envelope): seq<byte>
    requires e.flags / 64 % 2 == 0
  {
    Tpdu(e.flags + v.first / 64 % 2 * 64, e.origin, e.pid, v.dcs, e.scts, v.udl, v.ud)
  }

  /** The PDU the modem of the receiver shows for a segment. */
  function Carrier(segment: Submit.Segment, e: Envelope): seq<byte>
    requires e.flags / 64 % 2 == 0 && |e.centre| < 256
  {
    match ViewIn(segment)
    case None => []
    case Some(v) => Address.Hex([|e.centre| as byte] + e.centre + TpduIn(v, e))
  }

  lemma HeaderBit(flags: byte, first: byte)
    requires flags / 64 % 2 == 0 && flags % 4 == 0
    ensures (flags + first / 64 % 2 * 64) / 64 % 2 == first / 64 % 2 && (flags + first / 64 % 2 * 64) % 4 == 0
  {
  }

  /** The receiver decodes the carrier of a segment to the sender, the time and the text of the segment. */
  lemma CarrierIsDelivered(segment: Submit.Segment, e: Envelope, sender: seq<byte>)
    requires SubmitTheorems.ReadBack(segment).Some? && SubmitTheorems.ReadBack(segment).value.data.result == Address.Ok
    requires Wraps(e, sender) && |ViewIn(segment).value.ud| <= 140
    ensures IncomingOf(Carrier(segment, e)) == Text(Delivered(segment, sender, Stamp(e.scts).value))
  {
    hide DecodedData, Submit.ViewOf, Address.Unhex, Address.Hex, BeforeNul, Stamp, FrameOf, SenderOf, Framed;
    var v := ViewIn(segment).value;
    HeaderBit(e.flags, v.first);
    PduRoundTrip(e.centre, TpduIn(v, e));
    FrameRoundTrip(e.flags + v.first / 64 % 2 * 64, e.origin, e.pid, v.dcs, e.scts, v.udl, v.ud);
    OnlyHeaderBit(e.flags + v.first / 64 % 2 * 64, v.first, v.dcs, v.udl, v.ud);
  }

  lemma OnlyHeaderBit(a: byte, b: byte, dcs: byte, udl: byte, ud: seq<byte>)
    requires a / 64 % 2 == b / 64 % 2
    ensures DecodedData(a, dcs, udl, ud, TEXT_SIZE) == DecodedData(b, dcs, udl, ud, TEXT_SIZE)
  {
    hide DecodedGsm7, DecodedUcs2;
  }

  lemma UserDataFits(recipient: seq<byte>, p: Split.Payload, report: bool, udh: seq<byte>, number: nat, count: nat, concat: Concat)
    requires Address.Valid(recipient) && Submit.Fits(p, udh)
    ensures var v := ViewIn(Submit.SegmentOf(recipient, p, report, udh, number, count, concat)); v.Some? && |v.value.ud| <= 140
  {
    hide Address.Hex, Address.Unhex, Submit.ViewOf;
    var pdu := Submit.PduOf(recipient, p, report, udh);
    Address.HexRoundTrip(pdu, Submit.MAX_PDU_OCTETS);
    Submit.ViewOfPdu(recipient, p, report, udh);
  }

  lemma SegmentsFit(recipient: seq<byte>, text: seq<byte>, report: bool, reference: nat, i: nat)
    requires reference < 0x10000
    requires var s := Submit.Segments(recipient, text, report, reference, MAX_SEGMENTS); s.Some? && i < |s.value|
    ensures var v := ViewIn(Submit.Segments(recipient, text, report, reference, MAX_SEGMENTS).value[i]); v.Some? && |v.value.ud| <= 140
  {
    hide Submit.SegmentOf, ViewIn, Submit.Fits, ConcatHeader;
    var p := Split.PayloadOf(text).value;
    if Split.Length(p) <= Split.Single(p) {
      Submit.SingleFits(p);
      UserDataFits(recipient, p, report, [], 1, 1, NO_CONCAT);
    } else {
      var o := Submit.OffsetsFor(p, reference).value;
      PartFits(recipient, p, report, reference, o, i + 1);
    }
  }

  lemma PartFits(recipient: seq<byte>, p: Split.Payload, report: bool, reference: nat, o: seq<nat>, part: nat)
    requires Address.Valid(recipient) && reference < 0x10000
    requires Split.Bounded(p, Split.Capacity(p, HeaderLength(reference)), o) && 0 < part < |o| <= MAX_SEGMENTS + 1
    ensures var v := ViewIn(Submit.PartOf(recipient, p, report, reference, o, part)); v.Some? && |v.value.ud| <= 140
  {
    hide Submit.SegmentOf, ViewIn, Submit.Fits;
    var total := |o| - 1;
    Submit.PieceFits(p, Split.Capacity(p, HeaderLength(reference)), o, part, reference, total, part);
    UserDataFits(recipient, Split.Slice(p, o[part - 1], o[part]), report, ConcatHeader(reference, total, part), part, total,
                 Announced(reference, total, part));
  }

  /** The journal after these PDUs arrived in that order and nothing failed. */
  ghost function PduArrivals(s: State, pdus: seq<seq<byte>>, order: seq<nat>): State
    requires forall i :: 0 <= i < |order| ==> order[i] < |pdus|
  {
    if order == [] then s
    else Gateway.Arrived(PduArrivals(s, pdus, order[..|order| - 1]), pdus[order[|order| - 1]], CALM)
  }

  lemma {:induction false} SameArrivals(s: State, pdus: seq<seq<byte>>, parts: seq<Deliver>, order: seq<nat>)
    requires OneMessage(parts) && Order(parts, order) && |pdus| == |parts|
    requires forall i :: 0 <= i < |parts| ==> IncomingOf(pdus[i]) == Text(parts[i])
    ensures PduArrivals(s, pdus, order) == Arrivals(s, parts, order)
    decreases |order|
  {
    hide Persist, IncomingOf, OneMessage;
    if order != [] {
      SameArrivals(s, pdus, parts, order[..|order| - 1]);
    }
  }

  /**
   * From the text given to one gateway to the record of another: whatever the network wraps around the
   * segments, and in whatever order and how often their PDUs arrive, one received message holds the text.
   */
  lemma PdusArriveOnce(s: State, recipient: seq<byte>, text: CString, report: bool, reference: nat,
                       sender: seq<byte>, envelopes: seq<Envelope>, pdus: seq<seq<byte>>, order: seq<nat>)
    requires reference < 0x10000 && |text| < 4096
    requires var segments := Submit.Segments(recipient, text, report, reference, MAX_SEGMENTS);
      segments.Some? && |segments.value| == |envelopes| == |pdus| > 1
    requires var segments := Submit.Segments(recipient, text, report, reference, MAX_SEGMENTS).value;
      forall i :: 0 <= i < |pdus| ==>
        && Wraps(envelopes[i], sender) && pdus[i] == Carrier(segments[i], envelopes[i])
    requires forall i :: 0 <= i < |order| ==> order[i] < |pdus|
    requires var segments := Submit.Segments(recipient, text, report, reference, MAX_SEGMENTS).value;
      var parts := AllDelivered(segments, sender, Stamps(envelopes));
      Beforehand(s, parts) && Covers(parts, order)
    ensures var s' := PduArrivals(s, pdus, order);
      exists id :: NewReceived(s, s') == {id} && s'.records[id].text == text && s'.records[id].sender == sender
  {
    hide Submit.Segments, Delivered, Arrivals, PduArrivals, Beforehand, Covers, OneMessage, Stamp, SenderOf, Carrier, ViewIn, IncomingOf;
    var segments := Submit.Segments(recipient, text, report, reference, MAX_SEGMENTS).value;
    var stamps := Stamps(envelopes);
    var parts := AllDelivered(segments, sender, stamps);
    SubmitTheorems.RoundTrip(recipient, text, report, reference, MAX_SEGMENTS);
    forall i | 0 <= i < |parts| ensures IncomingOf(pdus[i]) == Text(parts[i]) {
      SegmentsFit(recipient, text, report, reference, i);
      assert SubmitTheorems.ReadsAsPart(segments, i, recipient, report, reference);
      CarrierIsDelivered(segments[i], envelopes[i], sender);
    }
    SenderLength(envelopes[0].origin);
    TextArrivesOnce(s, recipient, text, report, reference, sender, stamps, order);
    CoversIsOrder(parts, order);
    SameArrivals(s, pdus, parts, order);
  }

  lemma SenderLength(o: Origin)
    requires SenderOf(o).Some?
    ensures |SenderOf(o).value| < 24
  {
    hide Address.Decoded;
    SenderFits(o.octets, o.digits as nat, o.toa);
  }

  lemma CoversIsOrder(parts: seq<Deliver>, order: seq<nat>)
    requires Covers(parts, order)
    ensures Order(parts, order)
  {
  }

  function Stamps(envelopes: seq<Envelope>): (r: seq<seq<byte>>)
    ensures |r| == |envelopes| && forall i :: 0 <= i < |r| ==> |r[i]| < 40
    ensures forall i :: 0 <= i < |r| && Stamp(envelopes[i].scts).Some? ==> r[i] == Stamp(envelopes[i].scts).value
  {
    seq(|envelopes|, i requires 0 <= i < |envelopes| =>
      match Stamp(envelopes[i].scts) case None => [] case Some(t) => t)
  }

  // ----- a message in two encodings -----

  const HAPPY: Envelope := Envelope([], 0, Origin(1, 0x91, [0xF1]), 0, NEW_YEAR)

  /** Part 1 is the letter A in the default alphabet, part 2 the letter B in UCS-2. */
  function MixedSegments(): (r: seq<Submit.Segment>)
    ensures |r| == 2
  {
    LettersFit();
    [Submit.SegmentOf([0x31], LETTER_A, false, ConcatHeader(7, 2, 1), 1, 2, Announced(7, 2, 1)),
     Submit.SegmentOf([0x31], LETTER_B, false, ConcatHeader(7, 2, 2), 2, 2, Announced(7, 2, 2))]
  }

  const LETTER_A: Split.Payload := Split.Gsm([0x41])
  const LETTER_B: Split.Payload := Split.Ucs([0x42])

  lemma LettersFit()
    ensures Address.Valid([0x31]) && Submit.Fits(LETTER_A, ConcatHeader(7, 2, 1)) && Submit.Fits(LETTER_B, ConcatHeader(7, 2, 2))
  {
  }

  lemma LettersRead()
    ensures SubmitTheorems.ReadBack(MixedSegments()[0])
         == Some(SubmitTheorems.Received([0x31], false, UserData.Decoded(Address.Ok, Gsm7Bit, Announced(7, 2, 1), [0x41])))
    ensures SubmitTheorems.ReadBack(MixedSegments()[1])
         == Some(SubmitTheorems.Received([0x31], false, UserData.Decoded(Address.Ok, Ucs2Bit, Announced(7, 2, 2), [0x42])))
  {
    hide SubmitTheorems.ReadBack, Submit.SegmentOf;
    LettersFit();
    LetterTexts();
    SubmitTheorems.SegmentReadBack([0x31], LETTER_A, false, ConcatHeader(7, 2, 1), 1, 2, Announced(7, 2, 1));
    SubmitTheorems.SegmentReadBack([0x31], LETTER_B, false, ConcatHeader(7, 2, 2), 2, 2, Announced(7, 2, 2));
  }

  lemma LetterTexts()
    ensures Split.TextOf(LETTER_A) == Some([0x41]) && Split.TextOf(LETTER_B) == Some([0x42])
  {
    var a: seq<byte>, b: seq<Ucs2.unit> := [0x41], [0x42];
    assert a[1..] == [] && b[1..] == [];
    assert Gsm7.NextSeptets(a) == Some(Utf8.Code(0x41, 1)) && Ucs2.NextUnits(b) == Some(Utf8.Code(0x42, 1));
    assert Utf8.Encode(0x41) == Some([0x41]) && Utf8.Encode(0x42) == Some([0x42]);
    assert Gsm7.DecodeText([]) == Some([]) && Ucs2.DecodeText([]) == Some([]);
    assert a + [] == a && b + [] == b;
    assert Gsm7.DecodeText(a) == Prepend([0x41], Some([])) && Ucs2.DecodeText(b) == Prepend([0x42], Some([]));
  }

  lemma MixedFit(i: nat)
    requires i < 2
    ensures ViewIn(MixedSegments()[i]).Some? && |ViewIn(MixedSegments()[i]).value.ud| <= 140
  {
    hide ViewIn, Submit.SegmentOf;
    LettersFit();
    UserDataFits([0x31], LETTER_A, false, ConcatHeader(7, 2, 1), 1, 2, Announced(7, 2, 1));
    UserDataFits([0x31], LETTER_B, false, ConcatHeader(7, 2, 2), 2, 2, Announced(7, 2, 2));
  }

  /** The PDUs of that message. */
  function MixedPdus(): (r: seq<seq<byte>>)
    ensures |r| == 2
  {
    [Carrier(MixedSegments()[0], HAPPY), Carrier(MixedSegments()[1], HAPPY)]
  }

  lemma MixedPdusDecode(i: nat)
    requires i < 2
    ensures IncomingOf(MixedPdus()[i]) == Text(MIXED[i])
  {
    hide SubmitTheorems.ReadBack, MixedSegments, ViewIn, Carrier, IncomingOf, SenderOf, Stamp, BeforeNul;
    LettersRead();
    MixedFit(i);
    assert Stamp(NEW_YEAR) == Some(NewYear());
    FromPlusOne();
    CarrierIsDelivered(MixedSegments()[i], HAPPY, [0x2B, 0x31]);
    var a: CString, b: CString := [0x41], [0x42];
    BeforeNulOfText(a);
    BeforeNulOfText(b);
  }

  /** Two PDUs, one in each encoding, that an empty journal stores as two messages if they arrive as 2, 1, 1, 2. */
  lemma MixedPdusReceivedTwice()
    ensures var s := State(map[], 1, true, 0);
      ReceivedTwice(s, PduArrivals(s, MixedPdus(), [1, 0, 0, 1]), [0x2B, 0x31], [0x41, 0x42])
  {
    hide MixedPdus, IncomingOf, ReceivedTwice, PduArrivals, Arrivals, OneMessage;
    MixedReceivedTwice();
    forall i | 0 <= i < |MIXED| ensures IncomingOf(MixedPdus()[i]) == Text(MIXED[i]) {
      MixedPdusDecode(i);
    }
    SameArrivals(State(map[], 1, true, 0), MixedPdus(), MIXED, [1, 0, 0, 1]);
  }
}
