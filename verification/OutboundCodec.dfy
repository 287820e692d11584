/**
 * The queue and the codec together: a message that sms_service_send accepted never fails
 * later because its stored fields would encode differently.
 */
module OutboundCodec {
  import opened Journal
  import opened Outbound
  import Submit
  import SubmitTheorems
  import Split

  /** The check sms_service_send makes, with the segment count it stores. */
  ghost predicate AcceptedBySend(m: Message) {
    && m.reference < 0x10000 && |m.text| < 4096
    && Submit.Segments(m.recipient, m.text, m.reportRequested, m.reference, Split.MAX_SEGMENTS).Some?
    && |Submit.Segments(m.recipient, m.text, m.reportRequested, m.reference, Split.MAX_SEGMENTS).value| == m.segmentCount
  }

  /** The check process_one_outbound makes, with as many slots as the stored segment count. */
  ghost predicate EncodesAsStored(m: Message) {
    && m.reference < 0x10000
    && Submit.Segments(m.recipient, m.text, m.reportRequested, m.reference, m.segmentCount).Some?
    && |Submit.Segments(m.recipient, m.text, m.reportRequested, m.reference, m.segmentCount).value| == m.segmentCount
  }

  /** The segments it then sends. */
  function SegmentsOf(m: Message): (r: seq<Submit.Segment>)
    requires EncodesAsStored(m)
    ensures |r| == m.segmentCount
  {
    Submit.Segments(m.recipient, m.text, m.reportRequested, m.reference, m.segmentCount).value
  }

  lemma AcceptedEncodes(m: Message)
    requires AcceptedBySend(m)
    ensures EncodesAsStored(m)
  {
    hide Submit.Segments;
    SubmitTheorems.QueuedMessageReencodes(m.recipient, m.text, m.reportRequested, m.reference);
    SubmitTheorems.ShortRecipient(m.recipient, m.text, m.reportRequested, m.reference, Split.MAX_SEGMENTS);
  }

  /** In every run whose enqueue calls passed the encoder, every outbound record still encodes to its stored count. */
  lemma QueuedNeverFailsToEncode(w: World, es: seq<Event>, id: nat)
    requires Fresh(w) && id in Run(w, es).journal.records && Run(w, es).journal.records[id].direction == Outbound
    requires forall k :: 0 <= k < |es| && es[k].Enqueue? ==> AcceptedBySend(es[k].m)
    ensures EncodesAsStored(Run(w, es).journal.records[id])
  {
    hide Submit.Segments, Run, Fresh;
    ContentIsWhatWasAsked(w, es, id);
    var k :| 0 <= k < |es| && es[k].Enqueue? && FreshOutbound(es[k].m) && SameContent(es[k].m, Run(w, es).journal.records[id]);
    AcceptedEncodes(es[k].m);
  }

  /** A message whose enqueue call passed the encoder is never failed for not encoding: picking it finds that it does. */
  lemma NoPickFails(w: World, es: seq<Event>)
    requires Fresh(w) && IdsWith(Run(w, es).journal, Queued) != {}
    requires forall k :: 0 <= k < |es| && es[k].Enqueue? ==> AcceptedBySend(es[k].m)
    ensures EncodesAsStored(Run(w, es).journal.records[Min(IdsWith(Run(w, es).journal, Queued))])
  {
    hide Submit.Segments, Run, EncodesAsStored, AcceptedBySend;
    var w' := Run(w, es);
    var id := Min(IdsWith(w'.journal, Queued));
    ReachableRecordsOk(w, es, id);
    QueuedNeverFailsToEncode(w, es, id);
  }
}
