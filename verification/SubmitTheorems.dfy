/**
 * What the codec promises: no text is garbled on its way through segments, the preflight
 * tells the truth, and a queued message always encodes to the segment count it was queued with.
 */
module SubmitTheorems {
  import opened Bytes
  import opened UserData
  import opened Split
  import opened Submit
  import Address
  import Gsm7

  /** A segment as the other end reads it: hexadecimal text, SMS-SUBMIT fields, user data. */
  datatype Received = Received(recipient: seq<byte>, report: bool, data: Decoded)

  function ReadBack(s: Segment): Option<Received> {
    match Address.Unhex(s.pduHex, MAX_PDU_OCTETS)
    case Bad(_) => None
    case Good(pdu) =>
      match ViewOf(pdu)
      case None => None
      case Some(v) => Some(Received(v.recipient, v.first / 32 % 2 == 1,
                                    DecodedData(v.first, v.dcs, v.udl, v.ud, MAX_TEXT_UTF8)))
  }

  ghost predicate SevenBit(p: Payload) {
    p.Gsm? ==> forall x :: x in p.septets ==> x < 128
  }

  lemma SegmentReadBack(recipient: seq<byte>, p: Payload, report: bool, udh: seq<byte>,
                        number: nat, count: nat, concat: Concat)
    requires Address.Valid(recipient) && Fits(p, udh) && HeaderFor(udh, concat)
    requires TextOf(p).Some? && SevenBit(p) && Length(p) <= 160
    ensures ReadBack(SegmentOf(recipient, p, report, udh, number, count, concat))
         == Some(Received(recipient, report, UserData.Decoded(Address.Ok, EncodingOf(p), concat, TextOf(p).value)))
  {
    var pdu := PduOf(recipient, p, report, udh);
    Address.HexRoundTrip(pdu, MAX_PDU_OCTETS);
    ViewOfPdu(recipient, p, report, udh);
    TextBound(p);
    FieldRoundTrip(p, udh, concat, report);
    FirstOctetBits(report, |udh| > 0);
  }

  function TextBack(s: Segment): seq<byte> {
    match ReadBack(s) case None => [] case Some(r) => r.data.text
  }

  /** The texts of the first k segments, joined in part order. */
  function Joined(segments: seq<Segment>, k: nat): seq<byte>
    requires k <= |segments|
  {
    if k == 0 then [] else Joined(segments, k - 1) + TextBack(segments[k - 1])
  }

  /** Segment i reads back as part i + 1 of the message. */
  ghost predicate ReadsAsPart(segments: seq<Segment>, i: nat, recipient: seq<byte>, report: bool, reference: nat)
    requires i < |segments|
  {
    var s := segments[i];
    && ReadBack(s).Some?
    && var r := ReadBack(s).value;
       && r.recipient == recipient && r.report == report
       && r.data.result == Address.Ok && r.data.encoding == s.encoding && r.data.concat == s.concat
       && s.number == i + 1 && s.count == |segments|
       && s.concat == if |segments| == 1 then NO_CONCAT else Announced(reference, |segments|, i + 1)
  }

  lemma PartReadBack(recipient: seq<byte>, p: Payload, report: bool, reference: nat, o: seq<nat>, part: nat)
    requires Address.Valid(recipient) && reference < 0x10000
    requires OffsetsFor(p, reference) == Some(o) && 0 < part < |o|
    requires TextOf(Slice(p, o[part - 1], o[part])).Some? && SevenBit(p)
    ensures ReadBack(PartOf(recipient, p, report, reference, o, part))
         == Some(Received(recipient, report,
                          UserData.Decoded(Address.Ok, EncodingOf(p), Announced(reference, |o| - 1, part),
                                           TextOf(Slice(p, o[part - 1], o[part])).value)))
  {
    hide TextOf, Fits, ReadBack, SegmentOf;
    var total := |o| - 1;
    var piece := Slice(p, o[part - 1], o[part]);
    PieceFits(p, Capacity(p, HeaderLength(reference)), o, part, reference, total, part);
    assert SevenBit(piece) by {
      if p.Gsm? { assert forall x :: x in piece.septets ==> x in p.septets; }
    }
    SegmentReadBack(recipient, piece, report, ConcatHeader(reference, total, part), part, total,
                    Announced(reference, total, part));
  }

  /** Between consecutive boundaries there is decodable text, and behind each one too. */
  ghost predicate CleanOffsets(p: Payload, o: seq<nat>) {
    && |o| > 0 && o[0] == 0 && o[|o| - 1] == Length(p)
    && (forall k :: 0 <= k < |o| ==> CleanAt(p, o[k]))
    && (forall k :: 0 < k < |o| ==> CleanPiece(p, o[k - 1], o[k]))
  }

  ghost predicate CleanAt(p: Payload, pos: nat) {
    pos <= Length(p) && TextOf(From(p, pos)).Some?
  }

  ghost predicate CleanPiece(p: Payload, from: nat, to: nat) {
    && from < to && CleanAt(p, from) && CleanAt(p, to) && TextOf(Slice(p, from, to)).Some?
    && TextOf(From(p, from)).value == TextOf(Slice(p, from, to)).value + TextOf(From(p, to)).value
  }

  lemma {:induction false} CutsAreClean(p: Payload, cap: nat, pos: nat)
    requires cap >= 2 && CleanAt(p, pos) && Cuts(p, cap, pos).Some?
    ensures var o := [pos] + Cuts(p, cap, pos).value;
            && o[|o| - 1] == Length(p)
            && (forall k :: 0 <= k < |o| ==> CleanAt(p, o[k]))
            && (forall k :: 0 < k < |o| ==> CleanPiece(p, o[k - 1], o[k]))
    decreases Length(p) - pos
  {
    if pos < Length(p) {
      var c := NextCut(p, cap, pos);
      CutIsClean(p, cap, pos);
      CutText(p, cap, pos);
      CutsAreClean(p, cap, c);
      var o, q := [pos] + Cuts(p, cap, pos).value, [c] + Cuts(p, cap, c).value;
      assert o == [pos] + q;
    }
  }

  /** No escape pair and no surrogate pair is ever split, and no text is lost at a boundary. */
  lemma OffsetsAreClean(p: Payload, reference: nat)
    requires reference < 0x10000 && TextOf(p).Some? && OffsetsFor(p, reference).Some?
    ensures CleanOffsets(p, OffsetsFor(p, reference).value)
  {
    WholeSlice(p);
    CutsAreClean(p, Capacity(p, HeaderLength(reference)), 0);
  }

  function PieceTexts(p: Payload, o: seq<nat>, k: nat): seq<byte>
    requires k < |o| && CleanOffsets(p, o)
  {
    if k == 0 then [] else
      assert CleanPiece(p, o[k - 1], o[k]);
      PieceTexts(p, o, k - 1) + TextOf(Slice(p, o[k - 1], o[k])).value
  }

  lemma {:induction false} PiecesJoin(p: Payload, o: seq<nat>, k: nat)
    requires k < |o| && CleanOffsets(p, o) && TextOf(p).Some?
    ensures CleanAt(p, o[k]) && PieceTexts(p, o, k) + TextOf(From(p, o[k])).value == TextOf(p).value
  {
    hide TextOf, Slice;
    if k == 0 {
      WholeSlice(p);
      assert [] + TextOf(p).value == TextOf(p).value;
    } else {
      PiecesJoin(p, o, k - 1);
      assert CleanPiece(p, o[k - 1], o[k]);
      var t, rest := TextOf(Slice(p, o[k - 1], o[k])).value, TextOf(From(p, o[k])).value;
      Gsm7.JoinsOn(PieceTexts(p, o, k - 1), t, rest);
    }
  }

  lemma {:induction false} JoinedIsPieces(segments: seq<Segment>, p: Payload, o: seq<nat>, k: nat)
    requires CleanOffsets(p, o) && |segments| == |o| - 1 && k <= |segments|
    requires forall i :: 0 <= i < |segments| ==>
               CleanPiece(p, o[i], o[i + 1]) && TextBack(segments[i]) == TextOf(Slice(p, o[i], o[i + 1])).value
    ensures Joined(segments, k) == PieceTexts(p, o, k)
  {
    if k > 0 {
      JoinedIsPieces(segments, p, o, k - 1);
      assert TextBack(segments[k - 1]) == TextOf(Slice(p, o[k - 1], o[k - 1 + 1])).value;
    }
  }

  /** Segment number i of a multipart message reads back as its piece. */
  lemma PartReads(recipient: seq<byte>, p: Payload, report: bool, reference: nat, segments: seq<Segment>, i: nat)
    requires Address.Valid(recipient) && reference < 0x10000 && TextOf(p).Some? && SevenBit(p)
    requires OffsetsFor(p, reference).Some?
    requires i < |segments| == |OffsetsFor(p, reference).value| - 1 && |segments| > 1
    requires segments[i] == PartOf(recipient, p, report, reference, OffsetsFor(p, reference).value, i + 1)
    ensures ReadsAsPart(segments, i, recipient, report, reference)
    ensures var o := OffsetsFor(p, reference).value;
            CleanPiece(p, o[i], o[i + 1]) && TextBack(segments[i]) == TextOf(Slice(p, o[i], o[i + 1])).value
  {
    var o := OffsetsFor(p, reference).value;
    OffsetsAreClean(p, reference);
    assert CleanPiece(p, o[i + 1 - 1], o[i + 1]);
    PartReadBack(recipient, p, report, reference, o, i + 1);
  }

  lemma MoreThanOnePart(p: Payload, cap: nat, o: seq<nat>)
    requires Bounded(p, cap, o) && Length(p) > cap
    ensures |o| > 2
  {
    assert |o| > 1 ==> o[1] <= cap;
  }

  lemma MultipartRoundTrip(recipient: seq<byte>, p: Payload, report: bool, reference: nat, segments: seq<Segment>)
    requires Address.Valid(recipient) && reference < 0x10000 && TextOf(p).Some? && SevenBit(p)
    requires Length(p) > Single(p) && OffsetsFor(p, reference).Some?
    requires |segments| == |OffsetsFor(p, reference).value| - 1
    requires forall i :: 0 <= i < |segments| ==>
               segments[i] == PartOf(recipient, p, report, reference, OffsetsFor(p, reference).value, i + 1)
    ensures 2 <= |segments| <= MAX_SEGMENTS
    ensures forall i :: 0 <= i < |segments| ==> ReadsAsPart(segments, i, recipient, report, reference)
    ensures Joined(segments, |segments|) == TextOf(p).value
  {
    hide ReadsAsPart, TextBack, TextOf, PartOf, ReadBack;
    var o := OffsetsFor(p, reference).value;
    MoreThanOnePart(p, Capacity(p, HeaderLength(reference)), o);
    forall i: nat | i < |segments|
      ensures ReadsAsPart(segments, i, recipient, report, reference)
      ensures CleanPiece(p, o[i], o[i + 1]) && TextBack(segments[i]) == TextOf(Slice(p, o[i], o[i + 1])).value
    {
      PartReads(recipient, p, report, reference, segments, i);
    }
    OffsetsAreClean(p, reference);
    JoinedIsPieces(segments, p, o, |segments|);
    PiecesJoin(p, o, |segments|);
    EmptyTail(p);
    assert Joined(segments, |segments|) + [] == Joined(segments, |segments|);
  }

  lemma SingleRoundTrip(recipient: seq<byte>, p: Payload, report: bool, reference: nat)
    requires Address.Valid(recipient) && TextOf(p).Some? && SevenBit(p) && Length(p) <= Single(p)
    requires Fits(p, [])
    ensures var segments := [SegmentOf(recipient, p, report, [], 1, 1, NO_CONCAT)];
            ReadsAsPart(segments, 0, recipient, report, reference) && Joined(segments, 1) == TextOf(p).value
  {
    hide ReadBack, Fits, TextOf;
    SegmentReadBack(recipient, p, report, [], 1, 1, NO_CONCAT);
    var segments := [SegmentOf(recipient, p, report, [], 1, 1, NO_CONCAT)];
    assert Joined(segments, 1) == Joined(segments, 0) + TextOf(p).value;
  }

  /** Every accepted message: each segment reads back in its place, and the texts join to the original. */
  lemma RoundTrip(recipient: seq<byte>, text: seq<byte>, report: bool, reference: nat, maxSegments: nat)
    requires reference < 0x10000
    requires Segments(recipient, text, report, reference, maxSegments).Some?
    ensures var segments := Segments(recipient, text, report, reference, maxSegments).value;
            && 1 <= |segments| <= MAX_SEGMENTS && |segments| <= maxSegments
            && (forall i :: 0 <= i < |segments| ==> ReadsAsPart(segments, i, recipient, report, reference))
            && Joined(segments, |segments|) == text
  {
    var segments := Segments(recipient, text, report, reference, maxSegments).value;
    var p := PayloadOf(text).value;
    PayloadDecodes(text);
    if Length(p) <= Single(p) {
      SingleFits(p);
      SingleRoundTrip(recipient, p, report, reference);
    } else {
      MultipartRoundTrip(recipient, p, report, reference, segments);
    }
  }

  /** The length announced for a segment is that of its PDU behind the empty service centre field. */
  lemma LengthIsWhatFollows(recipient: seq<byte>, text: seq<byte>, report: bool, reference: nat, maxSegments: nat, i: nat)
    requires reference < 0x10000
    requires var s := Segments(recipient, text, report, reference, maxSegments); s.Some? && i < |s.value|
    ensures var s := Segments(recipient, text, report, reference, maxSegments).value[i];
      && Address.Unhex(s.pduHex, MAX_PDU_OCTETS).Good?
      && var octets := Address.Unhex(s.pduHex, MAX_PDU_OCTETS).data;
         octets != [] && octets[0] == 0 && s.tpduLength == |octets| - 1
  {
    hide SegmentOf, Fits;
    var p := PayloadOf(text).value;
    if Length(p) <= Single(p) {
      SingleFits(p);
      SegmentLength(recipient, p, report, [], 1, 1, NO_CONCAT);
    } else {
      var o := OffsetsFor(p, reference).value;
      var total, part := |o| - 1, i + 1;
      PieceFits(p, Capacity(p, HeaderLength(reference)), o, part, reference, total, part);
      SegmentLength(recipient, Slice(p, o[part - 1], o[part]), report, ConcatHeader(reference, total, part), part, total,
                    Announced(reference, total, part));
    }
  }

  lemma SegmentLength(recipient: seq<byte>, p: Payload, report: bool, udh: seq<byte>, number: nat, count: nat, concat: Concat)
    requires Address.Valid(recipient) && Fits(p, udh)
    ensures var s := SegmentOf(recipient, p, report, udh, number, count, concat);
      && Address.Unhex(s.pduHex, MAX_PDU_OCTETS).Good?
      && var octets := Address.Unhex(s.pduHex, MAX_PDU_OCTETS).data;
         octets != [] && octets[0] == 0 && s.tpduLength == |octets| - 1
  {
    hide Address.Hex, Address.Unhex;
    Address.HexRoundTrip(PduOf(recipient, p, report, udh), MAX_PDU_OCTETS);
  }

  // ----- preflight -----

  datatype Preflight = Preflight(encoding: Encoding, count: nat)

  /** Encoding and segment count, without building a PDU. */
  function PreflightOf(recipient: seq<byte>, text: seq<byte>, reference: nat): Option<Preflight>
    requires reference < 0x10000
  {
    if !Address.Valid(recipient) || PayloadOf(text).None? then None
    else
      var p := PayloadOf(text).value;
      if Length(p) <= Single(p) then Some(Preflight(EncodingOf(p), 1))
      else
        match Cuts(p, Capacity(p, HeaderLength(reference)), 0)
        case None => None
        case Some(c) => if 1 <= |c| <= MAX_SEGMENTS then Some(Preflight(EncodingOf(p), |c|)) else None
  }

  /** sms_submit_preflight. */
  method SubmitPreflight(recipient: seq<byte>, text: seq<byte>, reference: nat) returns (r: Option<Preflight>)
    requires reference < 0x10000
    ensures r == PreflightOf(recipient, text, reference)
  {
    hide Cuts, PayloadOf, Address.Valid, Length, Single;
    var valid, _, _ := Address.Validate(recipient);
    if !valid {
      return None;
    }
    var payload := ToPayload(text);
    if payload.None? {
      return None;
    }
    var p := payload.value;
    if Length(p) <= Single(p) {
      return Some(Preflight(EncodingOf(p), 1));
    }
    var capacity := Capacity(p, HeaderLength(reference));
    var parts: Option<nat>;
    match p {
      case Gsm(septets) =>
        var offsets := SplitGsm7(septets, capacity);
        parts := if offsets.Some? then Some(|offsets.value| - 1) else None;
      case Ucs(units) =>
        parts := CountUcs2(units, capacity);
    }
    if parts.None? || parts.value == 0 {
      return None;
    }
    return Some(Preflight(EncodingOf(p), parts.value));
  }

  /** The preflight accepts exactly what the sixteen-slot encoder accepts, with its encoding and count. */
  lemma PreflightAgrees(recipient: seq<byte>, text: seq<byte>, report: bool, reference: nat)
    requires reference < 0x10000
    ensures var segments := Segments(recipient, text, report, reference, MAX_SEGMENTS);
            var preflight := PreflightOf(recipient, text, reference);
            && (preflight.Some? <==> segments.Some?)
            && (preflight.Some? ==> |segments.value| == preflight.value.count)
            && (preflight.Some? ==>
                  forall i :: 0 <= i < |segments.value| ==> segments.value[i].encoding == preflight.value.encoding)
  {
    hide Cuts, PayloadOf, Address.Valid, Length, Single;
    if Address.Valid(recipient) && PayloadOf(text).Some? {
      var p := PayloadOf(text).value;
      var cap := Capacity(p, HeaderLength(reference));
      if Length(p) > Single(p) && Cuts(p, cap, 0).Some? {
        CutsBounded(p, cap, 0);
        assert |Cuts(p, cap, 0).value| > 0;
      }
    }
  }

  /** Acceptance at reference 0x0100 is acceptance at every reference, in the same encoding and no more segments. */
  lemma AcceptedAtEveryReference(recipient: seq<byte>, text: seq<byte>, reference: nat)
    requires reference < 0x10000 && PreflightOf(recipient, text, 0x0100).Some?
    ensures PreflightOf(recipient, text, reference).Some?
    ensures PreflightOf(recipient, text, reference).value.encoding == PreflightOf(recipient, text, 0x0100).value.encoding
    ensures PreflightOf(recipient, text, reference).value.count <= PreflightOf(recipient, text, 0x0100).value.count
  {
    var p := PayloadOf(text).value;
    var cap, cap16 := Capacity(p, HeaderLength(reference)), Capacity(p, HeaderLength(0x0100));
    if Length(p) > Single(p) {
      assert cap16 <= cap;
      CapacityMonotone(p, cap16, cap);
      CutsBounded(p, cap, 0);
      assert |Cuts(p, cap, 0).value| > 0;
    }
  }

  /** What strncpy keeps of a string in a field of that size. */
  function Stored(s: seq<byte>, fieldSize: nat): seq<byte>
    requires fieldSize > 0
  {
    if |s| < fieldSize then s else s[..fieldSize - 1]
  }

  lemma ShortRecipient(recipient: seq<byte>, text: seq<byte>, report: bool, reference: nat, maxSegments: nat)
    requires reference < 0x10000 && Segments(recipient, text, report, reference, maxSegments).Some?
    ensures |recipient| <= 21
  {
  }

  /** A message that was queued with n segments encodes, from its stored fields and into n slots, to the same n segments. */
  lemma QueuedMessageReencodes(recipient: seq<byte>, text: seq<byte>, report: bool, reference: nat)
    requires reference < 0x10000 && |text| < 4096
    requires Segments(recipient, text, report, reference, MAX_SEGMENTS).Some?
    ensures var segments := Segments(recipient, text, report, reference, MAX_SEGMENTS).value;
            Segments(Stored(recipient, 24), Stored(text, 4096), report, reference, |segments|) == Some(segments)
  {
    RoundTrip(recipient, text, report, reference, MAX_SEGMENTS);
    assert |recipient| <= 21;
  }
}
