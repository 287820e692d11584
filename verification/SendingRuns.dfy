/**
 * What process_one_outbound does to one message, as a run of the sending machine: segment by
 * segment, as far as the flash, the memory and the modem let it.
 */
module SendingRuns {
  import opened Bytes
  import opened Journal
  import opened Outbound
  import opened AtEngine
  import opened Submit
  import Cmgs

  /** What the surroundings do while one segment is sent: flash, memory, and what reaches the AT channel. */
  datatype Surroundings = Surroundings(
    markFault: Fault,
    memory: bool,
    modemReady: bool,
    idle: seq<Turn>,
    attempt: nat -> AttemptEnv,
    settleFault: Fault)

  /** Rewriting a stored record is not disturbed. */
  predicate Saves(fault: Fault) {
    !fault.ReadFault? && !fault.WriteFault?
  }

  lemma RewriteSucceeds(s: State, m: Message, fault: Fault)
    requires Journal.Valid(s) && m.id in s.records && Storable(m)
    ensures Save(s, m, fault).err.Ok? <==> Saves(fault)
    ensures Saves(fault) ==> Save(s, m, fault).state == With(s, m)
  {
    hide Storable;
  }

  /** The segment is handed to the modem. */
  predicate HandsOver(env: Surroundings) {
    Saves(env.markFault) && env.memory && env.modemReady
  }

  /** The segment is confirmed in flash. */
  predicate Succeeds(env: Surroundings, answer: Option<byte>) {
    HandsOver(env) && answer.Some? && Saves(env.settleFault)
  }

  /** The steps of send_segment. */
  function SegmentRun(env: Surroundings, answer: Option<byte>): seq<Event> {
    var mark := MarkSending(env.markFault);
    if !Saves(env.markFault) then [mark]
    else if !env.memory then [mark, NoMemory(env.settleFault)]
    else if !env.modemReady then [mark, Refuse(env.settleFault)]
    else [mark, Submit, if answer.None? then Doubt(env.settleFault) else Confirm(answer.value, env.settleFault)]
  }

  function ReferenceOr0(answer: Option<byte>): byte {
    if answer.Some? then answer.value else 0
  }

  /** The record in RAM behind its first n segments, and the steps up to there. */
  function Behind(m: Message, n: nat, env: nat -> Surroundings, answers: seq<Option<byte>>): (Message, seq<Event>)
    requires n <= |answers|
  {
    if n == 0 then (m, [])
    else
      var (held, es) := Behind(m, n - 1, env, answers);
      if n - 1 in held.sent then (held, es + [SkipSent])
      else (Confirmed(MarkedSending(held, n - 1), n - 1, ReferenceOr0(answers[n - 1])), es + SegmentRun(env(n - 1), answers[n - 1]))
  }

  lemma {:induction false} BehindKeeps(m: Message, n: nat, env: nat -> Surroundings, a: seq<Option<byte>>, b: seq<Option<byte>>)
    requires n <= |a| && n <= |b| && a[..n] == b[..n]
    ensures Behind(m, n, env, a) == Behind(m, n, env, b)
    decreases n
  {
    hide SegmentRun, Confirmed, MarkedSending;
    if n > 0 {
      assert a[..n - 1] == a[..n][..n - 1] && b[..n - 1] == b[..n][..n - 1];
      assert a[n - 1] == a[..n][n - 1] && b[n - 1] == b[..n][n - 1];
      BehindKeeps(m, n - 1, env, a, b);
    }
  }

  /** Which segments are sent behind the first n. */
  lemma {:induction false} BehindSent(m: Message, n: nat, env: nat -> Surroundings, answers: seq<Option<byte>>)
    requires n <= |answers|
    ensures var (held, _) := Behind(m, n, env, answers);
      && held.id == m.id && held.segmentCount == m.segmentCount && SameContent(m, held)
      && forall k: nat :: k in held.sent <==> k in m.sent || k < n
    decreases n
  {
    hide SegmentRun;
    if n > 0 { BehindSent(m, n - 1, env, answers); }
  }

  /** The steps of the sending loop that got as far as segment `stop`, which failed or does not exist. */
  function LoopRun(m: Message, stop: nat, env: nat -> Surroundings, answers: seq<Option<byte>>, finish: Fault): seq<Event>
    requires stop < |answers|
  {
    Behind(m, stop, env, answers).1 + if stop < m.segmentCount then SegmentRun(env(stop), answers[stop]) else [Finish(finish)]
  }

  /** The loop stops behind the last segment, or at the first that is not confirmed. */
  predicate StopsAt(m: Message, stop: nat, env: nat -> Surroundings, answers: seq<Option<byte>>) {
    && stop <= m.segmentCount && stop < |answers|
    && (forall k :: 0 <= k < stop ==> k in m.sent || Succeeds(env(k), answers[k]))
    && (stop < m.segmentCount ==> stop !in m.sent && !Succeeds(env(stop), answers[stop]))
  }

  /** Segments handed over by that loop. */
  predicate Handed(m: Message, stop: nat, env: nat -> Surroundings, k: nat) {
    k < m.segmentCount && k !in m.sent && (k < stop || (k == stop && HandsOver(env(k))))
  }

  // ----- what the modem gets to see -----

  /** One round: a segment that is sent already or not handed over says nothing. */
  function TalkOnce(c: Channel, sent: bool, segment: Segment, env: Surroundings): (Option<byte>, Channel) {
    if sent || !HandsOver(env) then (None, c) else Cmgs.HandOver(c, segment, env.idle, env.attempt)
  }

  /** The channel behind the first n segments, and the answers that the modem has given. */
  function Talk(c: Channel, m: Message, segments: seq<Segment>, env: nat -> Surroundings, n: nat): (r: (Channel, seq<Option<byte>>))
    requires n <= |segments|
    ensures |r.1| == n
  {
    if n == 0 then (c, [])
    else
      var (c1, answers) := Talk(c, m, segments, env, n - 1);
      var (answer, c2) := TalkOnce(c1, n - 1 in m.sent, segments[n - 1], env(n - 1));
      (c2, answers + [answer])
  }

  /** The payloads that were written with success. */
  function Payloads(said: seq<Act>): seq<seq<byte>> {
    if said == [] then []
    else
      var last := said[|said| - 1];
      Payloads(said[..|said| - 1]) + if last.Wrote? && last.ok then [last.payload] else []
  }

  lemma {:induction false} PayloadsConcat(a: seq<Act>, b: seq<Act>)
    ensures Payloads(a + b) == Payloads(a) + Payloads(b)
    decreases |b|
  {
    if b == [] {
      assert a + b == a;
    } else {
      assert (a + b)[..|a + b| - 1] == a + b[..|b| - 1];
      PayloadsConcat(a, b[..|b| - 1]);
    }
  }

  lemma {:induction false} PayloadsAreWrites(said: seq<Act>, req: Request)
    requires OnlyThese(said, req)
    ensures |Payloads(said)| <= Writes(said)
    ensures forall x :: x in Payloads(said) ==> x == req.payload
    ensures Wrote(req.payload, true) in said ==> req.payload in Payloads(said)
    decreases |said|
  {
    if said != [] {
      PayloadsAreWrites(said[..|said| - 1], req);
    }
  }

  /** A hand-over writes the PDU of its segment or nothing; with an answer it has written it. */
  lemma HandOverWrites(c: Channel, segment: Segment, idle: seq<Turn>, env: nat -> AttemptEnv)
    ensures var (answer, c') := Cmgs.HandOver(c, segment, idle, env);
      var said := Cmgs.Said(c, segment, idle, env);
      && c'.said == c.said + said
      && (Payloads(said) == [] || Payloads(said) == [Cmgs.PayloadFor(segment)])
      && (answer.Some? ==> Payloads(said) == [Cmgs.PayloadFor(segment)])
  {
    hide Cmgs.HandOver, Cmgs.Said, Writes, Payloads, OnlyThese;
    Cmgs.HandOverGuarantees(c, segment, idle, env);
    var said, payload := Cmgs.Said(c, segment, idle, env), Cmgs.PayloadFor(segment);
    PayloadsAreWrites(said, Cmgs.CmgsRequest(segment));
    OneAtMost(Payloads(said), payload);
  }

  lemma OneAtMost(all: seq<seq<byte>>, x: seq<byte>)
    requires |all| <= 1 && forall y :: y in all ==> y == x
    ensures all == [] || all == [x]
  {
    if all != [] {
      assert all[0] in all;
    }
  }

  /** The PDUs of the chosen segments below n, in order. */
  function Pdus(segments: seq<Segment>, chosen: set<nat>, n: nat): seq<seq<byte>>
    requires n <= |segments|
  {
    if n == 0 then []
    else Pdus(segments, chosen, n - 1) + if n - 1 in chosen then [Cmgs.PayloadFor(segments[n - 1])] else []
  }

  lemma {:induction false} PdusSame(segments: seq<Segment>, a: set<nat>, b: set<nat>, n: nat)
    requires n <= |segments| && forall k :: 0 <= k < n ==> (k in a <==> k in b)
    ensures Pdus(segments, a, n) == Pdus(segments, b, n)
    decreases n
  {
    if n > 0 { PdusSame(segments, a, b, n - 1); }
  }

  /**
   * What the sending loop writes to the modem: PDUs of segments that were not sent and are handed over, each
   * under its own number, at most once and in order, and among them every segment the modem has answered.
   */
  lemma {:induction false} ModemGets(c: Channel, m: Message, segments: seq<Segment>, env: nat -> Surroundings, n: nat)
    returns (chosen: set<nat>, said: seq<Act>)
    requires n <= |segments|
    ensures Talk(c, m, segments, env, n).0.said == c.said + said
    ensures Payloads(said) == Pdus(segments, chosen, n)
    ensures forall k :: k in chosen ==> 0 <= k < n && k !in m.sent && HandsOver(env(k))
    ensures forall k :: 0 <= k < n && Talk(c, m, segments, env, n).1[k].Some? ==> k in chosen
    decreases n
  {
    hide Cmgs.HandOver, Cmgs.Said, HandsOver, Payloads;
    if n == 0 {
      chosen, said := {}, [];
      PayloadsOfNone();
    } else {
      var before, earlier := ModemGets(c, m, segments, env, n - 1);
      var (c1, answers) := Talk(c, m, segments, env, n - 1);
      var surroundings := env(n - 1);
      if n - 1 in m.sent || !HandsOver(surroundings) {
        chosen, said := before, earlier;
      } else {
        var now := Cmgs.Said(c1, segments[n - 1], surroundings.idle, surroundings.attempt);
        HandOverWrites(c1, segments[n - 1], surroundings.idle, surroundings.attempt);
        said := earlier + now;
        PayloadsConcat(earlier, now);
        chosen := if Payloads(now) == [] then before else before + {n - 1};
        PdusSame(segments, before, chosen, n - 1);
      }
    }
  }

  lemma PayloadsOfNone()
    ensures Payloads([]) == []
  {
  }

  /** If every segment is sent or answered, the modem got exactly the PDUs of those that were not sent, in order. */
  lemma ModemGetsAll(c: Channel, m: Message, segments: seq<Segment>, env: nat -> Surroundings)
    returns (said: seq<Act>)
    requires forall k :: 0 <= k < |segments| ==> k in m.sent || Talk(c, m, segments, env, |segments|).1[k].Some?
    ensures Talk(c, m, segments, env, |segments|).0.said == c.said + said
    ensures Payloads(said) == Pdus(segments, set k: nat | k < |segments| && k !in m.sent, |segments|)
  {
    hide Talk, Payloads;
    var chosen;
    chosen, said := ModemGets(c, m, segments, env, |segments|);
    PdusSame(segments, chosen, set k: nat | k < |segments| && k !in m.sent, |segments|);
  }
}
