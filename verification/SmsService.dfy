/**
 * The outbound functions of sms_service.c over the slot store and the AT engine. Each function is
 * proved to perform a run of the outbound machine, event by event, whatever the flash and the
 * modem answer, and to perform all of it if they do not get in its way.
 */
module SmsService {
  import opened Bytes
  import opened Journal
  import opened UserData
  import opened Outbound
  import opened OutboundCodec
  import opened SendingRuns
  import opened SmsStore
  import AtEngine
  import Cmgs
  import Submit
  import SubmitTheorems

  ghost const ORIGIN: World := World(State(map[], 1, true, 0), Off, multiset{}, multiset{})

  class Service {
    const store: Store
    const engine: AtEngine.Engine
    ghost var task: Task
    ghost var submitted: multiset<(nat, nat)>
    ghost var retried: multiset<nat>
    /** How often the payload of each segment was written to the modem. */
    ghost var written: multiset<(nat, nat)>
    /** Everything that has happened since the gateway was new. */
    ghost var events: seq<Event>

    ghost function Now(): World
      requires store.Shape()
      reads this, store, store.slots
    {
      World(store.Abs(), task, submitted, retried)
    }

    ghost predicate EngineOk()
      reads this, engine, engine.parser, engine.parser.line
    {
      engine.Valid() && !engine.parser.prompt && (engine.parser.line as object) != store.slots
    }

    /** The state is the one the events lead to, and payloads are written only for hand-overs. */
    ghost predicate Valid()
      reads this, store, store.slots, engine, engine.parser, engine.parser.line
    {
      && store.Valid() && Now() == Run(ORIGIN, events) && Inv(Now())
      && EngineOk() && forall k :: written[k] <= submitted[k]
    }

    constructor ()
      ensures Valid() && fresh(store) && fresh(store.slots) && task.Off? && events == []
      ensures fresh(engine) && fresh(engine.router) && fresh(engine.parser) && fresh(engine.parser.line)
      ensures store.Abs() == State(map[], 1, true, 0)
    {
      store := new Store();
      engine := new AtEngine.Engine();
      task, submitted, retried, events := Off, multiset{}, multiset{}, [];
      written := multiset{};
      new;
      FreshIsFine(Now());
    }

    /** Book-keeping of the proof: the code has just performed event e. */
    ghost method Note(e: Event, before: World)
      requires store.Valid() && before == Run(ORIGIN, events) && Inv(before) && Now() == Step(before, e)
      requires EngineOk() && forall k :: written[k] <= submitted[k]
      modifies this`events
      ensures Valid() && events == old(events) + [e]
    {
      hide Run, Step, Inv;
      RunAppend(ORIGIN, events, e);
      StepKeeps(before, e);
      events := events + [e];
    }

    /** The same for a run of events. */
    ghost method NoteRun(es: seq<Event>, before: World)
      requires store.Valid() && before == Run(ORIGIN, events) && Inv(before) && Now() == Run(before, es)
      requires EngineOk() && forall k :: written[k] <= submitted[k]
      modifies this`events
      ensures Valid() && events == old(events) + es
    {
      hide Run, Inv;
      RunConcat(ORIGIN, events, es);
      RunKeeps(before, es);
      events := events + es;
    }

    /** Saving the record being worked on is exactly event e. */
    method SaveStep(m: Message, fault: Fault, ghost e: Event, ghost next: Task, ghost otherwise: Task) returns (err: Err)
      requires Valid() && m.id in Now().journal.records && Storable(m)
      requires Step(Now(), e) == Saved(Now(), m, fault, if Save(Now().journal, m, fault).err.Ok? then next else otherwise)
      modifies store, store.slots, this`task, this`events
      ensures Valid() && events == old(events) + [e]
      ensures err == Ok <==> Saves(fault)
      ensures task == if err == Ok then next else otherwise
      ensures m.id in Now().journal.records
      ensures Now().journal == Save(old(Now()).journal, m, fault).state
      ensures err == Ok ==> Now().journal == With(old(Now()).journal, m)
    {
      hide Run, Inv, Contents, Distinct, Journal.Valid, Save, Storable, Step;
      ghost var before := Now();
      InvJournal(before);
      RecordBelow(before, m.id);
      SaveStores(before.journal, m, fault);
      RewriteSucceeds(before.journal, m, fault);
      var saved, _ := store.Save(m, fault);
      err := saved;
      task := if err == Ok then next else otherwise;
      Note(e, before);
    }

    /** Handing the payload to the modem. */
    ghost method SubmitStep(m: Message, index: nat)
      requires Valid() && task == Marked(m, index)
      modifies this`task, this`submitted, this`events
      ensures Valid() && task == Submitted(m, index) && events == old(events) + [Submit]
      ensures submitted == old(submitted) + multiset{(m.id, index)} && Now().journal == old(Now()).journal
      ensures written[(m.id, index)] < submitted[(m.id, index)]
    {
      hide Run, Inv, Contents, Distinct, Journal.Valid, ApiStep, IdleStep, BootStep;
      var before := Now();
      submitted := submitted + multiset{(m.id, index)};
      task := Submitted(m, index);
      Note(Submit, before);
    }

    /** The AT transaction of a hand-over; its payload is written at most once. */
    method Transact(m: Message, index: nat, segment: Submit.Segment, env: Surroundings) returns (answer: Option<byte>)
      requires Valid() && task == Submitted(m, index) && written[(m.id, index)] < submitted[(m.id, index)]
      modifies engine, engine.router, engine.parser, engine.parser.line, this`written
      ensures Valid() && (answer, engine.Stand()) == Cmgs.HandOver(old(engine.Stand()), segment, env.idle, env.attempt)
    {
      hide Run, Inv, Contents, Distinct, Journal.Valid, AtEngine.Writes, AtEngine.OkAfterPayload, AtEngine.OnlyThese, Cmgs.HandOver, Cmgs.Said;
      ghost var c := engine.Stand();
      answer := Cmgs.ExecuteCmgs(engine, segment, env.idle, env.attempt);
      Cmgs.HandOverGuarantees(c, segment, env.idle, env.attempt);
      if AtEngine.Writes(Cmgs.Said(c, segment, env.idle, env.attempt)) > 0 {
        written := written + multiset{(m.id, index)};
      }
    }

    /**
     * send_segment. The record is in flash before the modem sees a byte, and doubt is never resolved
     * by sending again. It succeeds exactly if nothing fails and the modem gives a reference; the modem
     * is told the length and the PDU of this segment, and nothing if the segment is not handed over.
     */
    method SendSegment(message: Message, index: nat, segment: Submit.Segment, env: Surroundings)
      returns (ok: bool, updated: Message, answer: Option<byte>)
      requires Valid() && task == Working(message, index)
      requires index < message.segmentCount && index !in message.sent
      modifies store, store.slots, this, engine, engine.router, engine.parser, engine.parser.line
      ensures Valid()
      ensures events == old(events) + SegmentRun(env, answer)
      ensures ok <==> Succeeds(env, answer)
      ensures ok ==> updated == Confirmed(MarkedSending(message, index), index, ReferenceOr0(answer))
      ensures ok ==> SentUnder(message, updated, index, ReferenceOr0(answer)) && Now().journal == With(old(Now()).journal, updated)
      ensures task == if ok then Working(updated, index + 1) else Idle
      ensures submitted == old(submitted) + if HandsOver(env) then multiset{(message.id, index)} else multiset{}
      ensures (answer, engine.Stand()) == TalkOnce(old(engine.Stand()), false, segment, env)
    {
      hide Run, Inv, Contents, Distinct, Journal.Valid, Step, Save, Storable, Confirmed, Cmgs.HandOver, SentUnder;
      HeldFacts(Now());
      StoredIsStorable(Now(), message.id);
      MarkIsStep(Now(), env.markFault);
      updated, answer := MarkedSending(message, index), None;
      ok := false;
      StorableSame(message, updated);
      var err := SaveStep(updated, env.markFault, MarkSending(env.markFault), Marked(updated, index), Idle);
      if err != Ok {
        return;
      }
      if !env.memory || !env.modemReady {
        updated := Withdraw(updated, index, env);
        return;
      }
      ok, updated, answer := HandOver(updated, index, segment, env);
      ConfirmedIsSentUnder(message, index, ReferenceOr0(answer));
    }

    /** The payload goes to the modem, and the answer into the record. */
    method HandOver(message: Message, index: nat, segment: Submit.Segment, env: Surroundings)
      returns (ok: bool, updated: Message, answer: Option<byte>)
      requires Valid() && task == Marked(message, index) && message.id in Now().journal.records && Storable(message)
      modifies store, store.slots, this, engine, engine.router, engine.parser, engine.parser.line
      ensures Valid()
      ensures events == old(events) + [Submit, if answer.None? then Doubt(env.settleFault) else Confirm(answer.value, env.settleFault)]
      ensures ok <==> answer.Some? && Saves(env.settleFault)
      ensures ok ==> updated == Confirmed(message, index, answer.value) && Now().journal == With(old(Now()).journal, updated)
      ensures ok ==> index in updated.sent && index in updated.modemReference && updated.modemReference[index] == answer.value
      ensures task == if ok then Working(updated, index + 1) else Idle
      ensures submitted == old(submitted) + multiset{(message.id, index)}
      ensures (answer, engine.Stand()) == Cmgs.HandOver(old(engine.Stand()), segment, env.idle, env.attempt)
    {
      hide Run, Inv, Contents, Distinct, Journal.Valid, Step, Save, Storable, Confirmed, Cmgs.HandOver, Saves;
      SubmitStep(message, index);
      answer := Transact(message, index, segment, env);
      ok, updated := Settle(message, index, answer, env.settleFault);
      ghost var last := if answer.None? then Doubt(env.settleFault) else Confirm(answer.value, env.settleFault);
      Regroup(old(events), [Submit], [last]);
      assert [Submit] + [last] == [Submit, last];
      if ok { ConfirmedMeans(message, index, answer.value); }
    }

    /** Nothing has reached the modem: without memory the segment is safely queued again, without a modem it is left in doubt. */
    method Withdraw(message: Message, index: nat, env: Surroundings) returns (updated: Message)
      requires Valid() && task == Marked(message, index) && message.id in Now().journal.records && Storable(message)
      requires !env.memory || !env.modemReady
      modifies store, store.slots, this`task, this`events
      ensures Valid() && task.Idle?
      ensures events == old(events) + [if !env.memory then NoMemory(env.settleFault) else Refuse(env.settleFault)]
      ensures updated == if !env.memory then message.(status := Queued, inflight := 0) else message.(status := Uncertain)
    {
      hide Run, Inv, Contents, Distinct, Journal.Valid, ApiStep, IdleStep, BootStep, Save, Storable;
      if !env.memory {
        updated := message.(status := Queued, inflight := 0);
        StorableSame(message, updated);
        var _ := SaveStep(updated, env.settleFault, NoMemory(env.settleFault), Idle, Idle);
      } else {
        updated := message.(status := Uncertain);
        StorableSame(message, updated);
        var _ := SaveStep(updated, env.settleFault, Refuse(env.settleFault), Idle, Idle);
      }
    }

    /** The modem's answer: a reference confirms the segment, anything else leaves it uncertain. */
    method Settle(message: Message, index: nat, answer: Option<byte>, fault: Fault) returns (ok: bool, updated: Message)
      requires Valid() && task == Submitted(message, index) && message.id in Now().journal.records && Storable(message)
      modifies store, store.slots, this`task, this`events
      ensures Valid()
      ensures ok <==> answer.Some? && Saves(fault)
      ensures updated == if answer.Some? then Confirmed(message, index, answer.value) else message.(status := Uncertain)
      ensures answer.Some? ==> index in updated.sent && index in updated.modemReference && updated.modemReference[index] == answer.value
      ensures ok ==> Now().journal == With(old(Now()).journal, updated)
      ensures task == if ok then Working(updated, index + 1) else Idle
      ensures events == old(events) + [if answer.None? then Doubt(fault) else Confirm(answer.value, fault)]
    {
      hide Run, Inv, Contents, Distinct, Journal.Valid, ApiStep, IdleStep, BootStep, Save, Storable;
      if answer.None? {
        updated := message.(status := Uncertain);
        StorableSame(message, updated);
        var _ := SaveStep(updated, fault, Doubt(fault), Idle, Idle);
        return false, updated;
      }
      updated := Confirmed(message, index, answer.value);
      StorableSame(message, updated);
      var err := SaveStep(updated, fault, Confirm(answer.value, fault), Working(updated, index + 1), Idle);
      return err == Ok, updated;
    }

    /** Moving on past a segment whose sent bit is already durable. */
    ghost method SkipStep(m: Message, index: nat)
      requires Valid() && task == Working(m, index) && index < m.segmentCount && index in m.sent
      modifies this`task, this`events
      ensures Valid() && task == Working(m, index + 1) && events == old(events) + [SkipSent]
    {
      hide Run, Inv, Contents, Distinct, Journal.Valid, ApiStep, IdleStep, BootStep;
      var before := Now();
      task := Working(m, index + 1);
      Note(SkipSent, before);
    }

    /** The end of process_one_outbound: SENT only if every segment is. */
    method FinishMessage(message: Message, fault: Fault)
      requires Valid() && task.Working? && task.m == message && task.next == message.segmentCount
      modifies store, store.slots, this`task, this`events
      ensures Valid() && task.Idle? && events == old(events) + [Finish(fault)]
      ensures AllSegments(message) <= message.sent && Saves(fault) ==>
                Now().journal == With(old(Now()).journal, message.(status := Sent, inflight := 0))
    {
      hide Run, Inv, Contents, Distinct, Journal.Valid, ApiStep, IdleStep, BootStep, Save, Storable;
      HeldFacts(Now());
      StoredIsStorable(Now(), message.id);
      if AllSegments(message) <= message.sent {
        StorableSame(message, message.(status := Sent, inflight := 0));
        var _ := SaveStep(message.(status := Sent, inflight := 0), fault, Finish(fault), Idle, Idle);
      } else {
        ghost var before := Now();
        task := Idle;
        Note(Finish(fault), before);
      }
    }

    /** The choice of the oldest queued message; one that does not encode to its stored segment count is failed. */
    method PickMessage(fault: Fault) returns (picked: Option<(Message, seq<Submit.Segment>)>)
      requires Valid() && task.Idle?
      modifies store, store.slots, this`task, this`events
      ensures Valid()
      ensures var queued := IdsWith(old(Now()).journal, Queued);
        && (queued == {} ==> picked.None? && task.Idle? && events == old(events) && Now() == old(Now()))
        && (queued != {} ==>
              var m := old(Now()).journal.records[Min(queued)];
              && events == old(events) + [Pick(EncodesAsStored(m), fault)]
              && (picked.Some? <==> EncodesAsStored(m))
              && (picked.Some? ==> picked.value == (m, SegmentsOf(m)) && task == Working(m, 0))
              && (picked.None? ==> task.Idle?))
    {
      hide Run, Inv, Contents, Distinct, Journal.Valid, Step, Save, Storable, Min, Submit.Segments;
      var found := store.FindStatus(Queued);
      if found.None? {
        return None;
      }
      var message := found.value;
      PickIsStep(Now(), fault);
      QueuedFacts(Now(), message.id);
      StoredIsStorable(Now(), message.id);
      var segments := Submit.SubmitEncode(message.recipient, message.text, message.reportRequested, message.reference, message.segmentCount);
      if segments.None? || |segments.value| != message.segmentCount {
        StorableSame(message, message.(status := Failed));
        var _ := SaveStep(message.(status := Failed), fault, Pick(false, fault), Idle, Idle);
        return None;
      }
      ghost var before := Now();
      task := Working(message, 0);
      Note(Pick(true, fault), before);
      return Some((message, segments.value));
    }

    /**
     * process_one_outbound: the oldest queued message, its unsent segments in order, as far as they
     * are confirmed. If all are, the record is SENT and each unsent segment was handed over once.
     */
    method ProcessOneOutbound(ready: bool, memory: bool, pickFault: Fault, env: nat -> Surroundings, finishFault: Fault)
      returns (stop: nat, answers: seq<Option<byte>>)
      requires Valid() && task.Idle?
      modifies store, store.slots, this, engine, engine.router, engine.parser, engine.parser.line
      ensures Valid() && task.Idle?
      ensures var queued := IdsWith(old(Now()).journal, Queued);
        && (!ready || !memory || queued == {} ==> Now() == old(Now()) && events == old(events))
        && (ready && memory && queued != {} ==>
              var m := old(Now()).journal.records[Min(queued)];
              && (!EncodesAsStored(m) ==> events == old(events) + [Pick(false, pickFault)])
              && (EncodesAsStored(m) ==>
                    LoopDone(m, SegmentsOf(m), stop, env, answers, pickFault, finishFault, old(events), old(submitted), old(engine.Stand()))))
    {
      hide Run, Inv, Contents, Distinct, Journal.Valid, Step, Save, Storable, Min, EncodesAsStored, LoopDone, SegmentsOf;
      stop, answers := 0, [None];
      if !ready || !memory {
        return;
      }
      var picked := PickMessage(pickFault);
      if picked.None? {
        return;
      }
      stop, answers := SendAll(picked.value.0, picked.value.1, env, finishFault, pickFault, old(events));
    }

    /**
     * What the loop of process_one_outbound has done to the message m when it is through: where it stopped, its
     * steps, its hand-overs, and everything it said to the modem and got to hear.
     */
    ghost predicate LoopDone(m: Message, segments: seq<Submit.Segment>, stop: nat, env: nat -> Surroundings, answers: seq<Option<byte>>,
                             pickFault: Fault, finishFault: Fault, start: seq<Event>, before: multiset<(nat, nat)>, c: AtEngine.Channel)
      requires store.Shape() && engine.Valid()
      reads this, store, store.slots, engine, engine.parser, engine.parser.line
    {
      && stop < |answers| && StopsAt(m, stop, env, answers)
      && TalkedUntil(m, segments, stop, env, answers, c, engine.Stand())
      && events == start + [Pick(true, pickFault)] + LoopRun(m, stop, env, answers, finishFault)
      && CountedAtStop(m, stop, env, before, submitted)
      && (stop == m.segmentCount && Saves(finishFault) ==>
            && m.id in Now().journal.records && Now().journal.records[m.id].status == Sent
            && Now().journal.records[m.id].sent == AllSegments(m))
    }

    /** The loop over the segments. */
    method SendAll(m: Message, segments: seq<Submit.Segment>, env: nat -> Surroundings, finishFault: Fault, ghost pickFault: Fault, ghost start: seq<Event>)
      returns (stop: nat, answers: seq<Option<byte>>)
      requires Valid() && task == Working(m, 0) && |segments| == m.segmentCount
      requires events == start + [Pick(true, pickFault)]
      modifies store, store.slots, this, engine, engine.router, engine.parser, engine.parser.line
      ensures Valid() && task.Idle?
      ensures LoopDone(m, segments, stop, env, answers, pickFault, finishFault, start, old(submitted), old(engine.Stand()))
    {
      hide Run, Inv, Contents, Distinct, Journal.Valid, Step, Save, Storable, StopsAt, LoopRun, CountedAtStop, TalkedUntil, Through, AllSegments, Saves;
      ghost var c, before := engine.Stand(), submitted;
      WorkedRecordOk(Now(), m);
      var message;
      ghost var steps;
      stop, answers, message, steps := SendUpTo(m, segments, env);
      if stop < m.segmentCount {
        Stopped(m, stop, env, answers, finishFault);
        return;
      }
      Ends(m, segments, env, before, c, Progress(message, steps, answers, submitted, engine.Stand()), finishFault);
      Regroup(start + [Pick(true, pickFault)], steps, [Finish(finishFault)]);
      answers := answers + [None];
      FinishMessage(message, finishFault);
    }

    /** The rounds up to the first segment that is not confirmed. */
    method SendUpTo(m: Message, segments: seq<Submit.Segment>, env: nat -> Surroundings)
      returns (stop: nat, answers: seq<Option<byte>>, message: Message, ghost steps: seq<Event>)
      requires Valid() && task == Working(m, 0) && |segments| == m.segmentCount
      modifies store, store.slots, this, engine, engine.router, engine.parser, engine.parser.line
      ensures Valid() && events == old(events) + steps && stop <= m.segmentCount
      ensures stop == m.segmentCount ==>
                && task == Working(message, stop)
                && Through(m, segments, env, old(submitted), old(engine.Stand()), stop, Progress(message, steps, answers, submitted, engine.Stand()))
      ensures stop < m.segmentCount ==>
                && task.Idle? && stop < |answers| && StopsAt(m, stop, env, answers) && steps == LoopRun(m, stop, env, answers, NoFault)
                && CountedAtStop(m, stop, env, old(submitted), submitted)
                && TalkedUntil(m, segments, stop, env, answers, old(engine.Stand()), engine.Stand())
    {
      hide Run, Inv, Contents, Distinct, Journal.Valid, Step, Save, Storable, SegmentRun, Succeeds, CountedAtStop, StopsAt, LoopRun, Confirmed,
           MarkedSending, HandsOver, TalkOnce, TalkedUntil, Through, StepsOf;
      ghost var c, before := engine.Stand(), submitted;
      message, stop, answers, steps := m, 0, [], [];
      Begins(m, segments, env, before, c);
      while stop < m.segmentCount
        invariant Valid() && task == Working(message, stop) && stop <= m.segmentCount && events == old(events) + steps
        invariant Through(m, segments, env, before, c, stop, Progress(message, steps, answers, submitted, engine.Stand()))
        decreases m.segmentCount - stop
      {
        ghost var p := Progress(message, steps, answers, submitted, engine.Stand());
        ThroughFacts(m, segments, env, before, c, stop, p);
        var ok, next, answer := NextSegment(message, stop, segments[stop], env(stop));
        ghost var now := StepsOf(stop in m.sent, env(stop), answer);
        ghost var p' := Progress(next, steps + now, answers + [answer], submitted, engine.Stand());
        Regroup(old(events), steps, now);
        answers, steps := answers + [answer], steps + now;
        if !ok {
          Stops(m, segments, env, before, c, stop, p, answer, p', NoFault);
          return;
        }
        Continues(m, segments, env, before, c, stop, p, answer, p');
        message, stop := next, stop + 1;
      }
    }

    /** One round: a sent segment is passed over, another one is sent. */
    method NextSegment(message: Message, index: nat, segment: Submit.Segment, surroundings: Surroundings)
      returns (ok: bool, next: Message, answer: Option<byte>)
      requires Valid() && task == Working(message, index) && index < message.segmentCount
      modifies store, store.slots, this, engine, engine.router, engine.parser, engine.parser.line
      ensures Valid() && (ok <==> index in message.sent || Succeeds(surroundings, answer))
      ensures events == old(events) + StepsOf(index in message.sent, surroundings, answer)
      ensures ok ==> next == if index in message.sent then message else Confirmed(MarkedSending(message, index), index, ReferenceOr0(answer))
      ensures task == if ok then Working(next, index + 1) else Idle
      ensures submitted == old(submitted) + if index !in message.sent && HandsOver(surroundings) then multiset{(message.id, index)} else multiset{}
      ensures (answer, engine.Stand()) == TalkOnce(old(engine.Stand()), index in message.sent, segment, surroundings)
    {
      hide Run, Inv, Contents, Distinct, Journal.Valid, Step, Save, Storable, SegmentRun, Confirmed, MarkedSending, HandsOver, Cmgs.HandOver;
      if index in message.sent {
        SkipStep(message, index);
        return true, message, None;
      }
      ok, next, answer := SendSegment(message, index, segment, surroundings);
    }

    /** Power comes back; the service walks the journal before anything else. */
    ghost method PowerOn()
      requires Valid() && task.Off?
      modifies this`task, this`events
      ensures Valid() && task == Booting(0) && events == old(events) + [Boot] && Now().journal == old(Now()).journal
    {
      hide Run, Inv, Contents, Distinct, Journal.Valid, ApiStep, IdleStep, SendStep, BootStep;
      var before := Now();
      task := Booting(0);
      Note(Boot, before);
    }

    /**
     * mark_interrupted_sends_uncertain: unless listing fails, every record left in SENDING whose save
     * is not disturbed is UNCERTAIN afterwards, and no other record changes.
     */
    method MarkInterruptedSendsUncertain(readable: nat -> bool, faults: nat -> Fault)
      requires Valid() && task == Booting(0)
      modifies store, store.slots, this`task, this`events
      ensures Valid() && task.Idle? && BootEvents(events, old(events))
      ensures Now().journal.records.Keys == old(Now()).journal.records.Keys
      ensures (forall a :: readable(a)) ==> forall id :: id in old(Now()).journal.records ==>
                AfterBoot(old(Now()).journal.records[id], Now().journal.records[id], faults(id))
      ensures (forall a :: readable(a)) && (forall id :: Saves(faults(id))) ==>
                forall id :: id in Now().journal.records ==> !Interrupted(Now().journal.records[id])
    {
      hide Run, Inv, Contents, Distinct, Journal.Valid, Step, Save, Storable, Min, Walked, AfterBoot;
      var after: nat := 0;
      var more := true;
      ghost var s0 := store.Abs();
      WalkStarts(Now(), faults);
      while more
        invariant Valid() && BootEvents(events, old(events))
        invariant task == if more then Booting(after) else Idle
        invariant more ==> after < store.Abs().nextId
        invariant (more || forall a :: readable(a)) ==> Walked(s0, store.Abs(), if more then after else store.Abs().nextId, faults)
        invariant store.Abs().records.Keys == s0.records.Keys && store.Abs().nextId == s0.nextId
        decreases more, store.Abs().nextId - after
      {
        more, after := MarkNext(after, readable(after), faults, s0);
      }
      if forall a :: readable(a) {
        InvJournal(Now());
        WalkEnds(s0, store.Abs(), faults);
      }
    }

    /** One round: the next record by id, marked if it was being sent. */
    method MarkNext(after: nat, readable: bool, faults: nat -> Fault, ghost s0: State) returns (more: bool, next: nat)
      requires Valid() && task == Booting(after) && Walked(s0, store.Abs(), after, faults)
      modifies store, store.slots, this`task, this`events
      ensures Valid() && store.Abs().nextId == old(store.Abs().nextId) && store.Abs().records.Keys == old(store.Abs().records.Keys)
      ensures task == if more then Booting(next) else Idle
      ensures more <==> readable && Above(old(store.Abs()), after) != {}
      ensures more ==> next == Min(Above(old(store.Abs()), after)) && after < next < store.Abs().nextId
      ensures !more ==> store.Abs() == old(store.Abs())
      ensures events == old(events) + [if !readable then BootListFails else BootMark(if more then faults(next) else NoFault)]
      ensures more || readable ==> Walked(s0, store.Abs(), if more then next else store.Abs().nextId, faults)
    {
      hide Run, Inv, Contents, Distinct, Journal.Valid, ApiStep, SendStep, IdleStep, Save, Storable, Page, Min, Walked;
      if !readable {
        ghost var before := Now();
        task := Idle;
        Note(BootListFails, before);
        return false, after;
      }
      var found := store.NextRecord(after);
      if found.None? {
        ghost var before := Now();
        task := Idle;
        InvJournal(before);
        WalkedOut(s0, store.Abs(), after, faults);
        Note(BootMark(NoFault), before);
        return false, after;
      }
      next := found.value.id;
      VisitRecord(after, found.value, faults, s0);
      return true, next;
    }

    /** The record the walk has come to: marked if it was being sent. */
    method VisitRecord(ghost after: nat, m: Message, faults: nat -> Fault, ghost s0: State)
      requires Valid() && task == Booting(after) && Walked(s0, store.Abs(), after, faults)
      requires Above(store.Abs(), after) != {} && m.id == Min(Above(store.Abs(), after)) && m == store.Abs().records[m.id]
      modifies store, store.slots, this`task, this`events
      ensures Valid() && task == Booting(m.id) && events == old(events) + [BootMark(faults(m.id))]
      ensures store.Abs().nextId == old(store.Abs().nextId) && store.Abs().records.Keys == old(store.Abs().records.Keys)
      ensures Walked(s0, store.Abs(), m.id, faults)
    {
      hide Run, Inv, Contents, Distinct, Journal.Valid, Step, Save, Storable, Page, Min, Walked;
      var fault := faults(m.id);
      VisitIsStep(Now(), fault);
      RecordFacts(Now(), m.id);
      RecordBelow(Now(), m.id);
      ghost var s := store.Abs();
      if m.direction == Outbound && m.status == Sending {
        SameAllocator(Now(), m.(status := Uncertain), fault);
        StoredIsStorable(Now(), m.id);
        StorableSame(m, m.(status := Uncertain));
        InvJournal(Now());
        SaveOutcome(s, m.(status := Uncertain), fault);
        var _ := SaveStep(m.(status := Uncertain), fault, BootMark(fault), Booting(m.id), Booting(m.id));
        WalkedMark(s0, s, store.Abs(), after, m, faults);
      } else {
        ghost var before := Now();
        task := Booting(m.id);
        WalkedPast(s0, s, after, m, faults);
        Note(BootMark(fault), before);
      }
    }

    /** process_status_report_pdu, behind the decoder. */
    method ProcessStatusReport(recipient: seq<byte>, reference: byte, status: byte, fault: Fault) returns (err: Err)
      requires Valid() && task.Idle?
      modifies store, store.slots, this`task, this`events
      ensures Valid() && task.Idle? && events == old(events) + [Report(recipient, reference, status, fault)]
      ensures var ids := ReferencingIds(old(Now()).journal, recipient, reference);
              if ids == {} then err == NotFound else err == Ok <==> Saves(fault)
    {
      hide Run, Inv, Contents, Distinct, Journal.Valid, ApiStep, SendStep, BootStep, Save, Storable, FirstSegment, References;
      ghost var before := Now();
      var found := store.FindOutboundReference(recipient, reference);
      if found.None? {
        Note(Report(recipient, reference, status, fault), before);
        return NotFound;
      }
      var (message, segment) := found.value;
      var updated := UpdateMasks(message, segment, status);
      StoredIsStorable(before, message.id);
      StorableSame(message, updated);
      ReferenceMatches(before, recipient, reference, message, segment);
      err := SaveStep(updated, fault, Report(recipient, reference, status, fault), Idle, Idle);
    }

    /** The end of sms_service_send: the message is queued. */
    method Send(message: Message, fault: Fault) returns (err: Err, id: nat)
      requires Valid() && !task.Off? && FreshOutbound(message)
      modifies store, store.slots, this`events
      ensures Valid() && events == old(events) + [Enqueue(message, fault)]
      ensures err == Ok ==> id in Now().journal.records && Now().journal.records[id] == message.(id := id)
      ensures err == Save(old(Now()).journal, message, fault).err
    {
      hide Run, Inv, Contents, Distinct, Journal.Valid, IdleStep, SendStep, BootStep, Storable;
      ghost var before := Now();
      InvJournal(before);
      SaveNewEffect(before.journal, message, fault);
      err, id := store.Save(message, fault);
      Note(Enqueue(message, fault), before);
    }

    /**
     * sms_service_send: a text that is too long or does not encode is refused without a trace; else
     * exactly the message that was asked for is queued.
     */
    method SendText(recipient: seq<byte>, text: seq<byte>, report: bool, random: nat, memory: bool, fault: Fault)
      returns (err: Err, id: nat)
      requires Valid() && !task.Off? && random < 0x10000
      modifies store, store.slots, this`events
      ensures Valid()
      ensures |text| >= 4096 ==> err == InvalidSize
      ensures |text| < 4096 && memory && Submit.Segments(recipient, text, report, ReferenceOf(random), MAX_SEGMENTS).None? ==> err == InvalidArg
      ensures |text| >= 4096 || !memory || Submit.Segments(recipient, text, report, ReferenceOf(random), MAX_SEGMENTS).None? ==>
                Now() == old(Now()) && events == old(events)
      ensures |text| < 4096 && memory && Submit.Segments(recipient, text, report, ReferenceOf(random), MAX_SEGMENTS).Some? ==>
                |events| == |old(events)| + 1 && old(events) <= events && events[|old(events)|].Enqueue? && AcceptedBySend(events[|old(events)|].m)
                && err == Save(old(Now()).journal, events[|old(events)|].m, fault).err
      ensures |text| < 4096 && memory && Submit.Segments(recipient, text, report, ReferenceOf(random), MAX_SEGMENTS).Some? ==>
                fault == NoFault && |old(Now()).journal.records| < MAX_RECORDS ==> err == Ok
      ensures err == Ok ==> id in Now().journal.records && AcceptedBySend(Now().journal.records[id])
      ensures err == Ok ==> var m := Now().journal.records[id];
                m.recipient == recipient && m.text == text && m.reportRequested == report && m.reference == ReferenceOf(random)
    {
      hide Submit.Segments, Run, Inv, Step, Save, Contents, Distinct, Journal.Valid;
      if |text| >= 4096 {
        return InvalidSize, 0;
      }
      if !memory {
        return NoMem, 0;
      }
      var reference := ReferenceOf(random);
      var segments := Submit.SubmitEncode(recipient, text, report, reference, MAX_SEGMENTS);
      if segments.None? {
        return InvalidArg, 0;
      }
      SubmitTheorems.RoundTrip(recipient, text, report, reference, MAX_SEGMENTS);
      var m := NewMessage(recipient, text, report, reference, segments.value[0], |segments.value|);
      SubmitTheorems.ShortRecipient(recipient, text, report, reference, MAX_SEGMENTS);
      RoomForNew(Now(), m);
      err, id := Send(m, fault);
    }

    /** sms_service_delete: refuses messages that are queued or being sent. */
    method DeleteMessage(id: nat, fault: Fault) returns (err: Option<Err>)
      requires Valid() && !task.Off?
      modifies store, store.slots, this`retried, this`events
      ensures Valid() && task == old(task)
      ensures events == old(events) || events == old(events) + [DeleteCall(id, fault)]
      ensures var r := old(Now()).journal.records;
              id in r && !(r[id].direction == Outbound && r[id].status in {Queued, Sending}) ==> events == old(events) + [DeleteCall(id, fault)]
      ensures var r := old(Now()).journal.records;
              id in r && r[id].direction == Outbound && r[id].status in {Queued, Sending} ==> err.None? && Now() == old(Now())
      ensures err == Some(Ok) ==> id !in Now().journal.records
    {
      hide Run, Inv, Contents, Distinct, Journal.Valid, IdleStep, SendStep, BootStep, Storable;
      ghost var before := Now();
      InvJournal(before);
      var message := store.Get(id);
      if message.None? {
        return Some(NotFound);
      }
      if message.value.direction == Outbound && (message.value.status == Queued || message.value.status == Sending) {
        return None;
      }
      var deleted := store.Delete(id, fault);
      Note(DeleteCall(id, fault), before);
      return Some(deleted);
    }

    /** sms_service_retry_uncertain: the explicit operator decision, and only from UNCERTAIN. */
    method RetryUncertain(id: nat, fault: Fault) returns (err: Option<Err>)
      requires Valid() && !task.Off?
      modifies store, store.slots, this`retried, this`events
      ensures Valid() && task == old(task)
      ensures err.None? ==> Now() == old(Now()) && events == old(events)
      ensures err.Some? ==> events == old(events) + [RetryCall(id, fault)]
      ensures var r := old(Now()).journal.records;
              err.Some? <==> id in r && r[id].direction == Outbound && r[id].status == Uncertain
    {
      hide Run, Inv, Contents, Distinct, Journal.Valid, IdleStep, SendStep, BootStep, Save, Storable;
      ghost var before := Now();
      InvJournal(before);
      var message := store.Get(id);
      if message.None? || message.value.direction != Outbound || message.value.status != Uncertain {
        return None;
      }
      var saved, _ := store.Save(message.value.(status := Queued, inflight := 0), fault);
      if store.Abs() != before.journal {
        retried := retried + multiset{id};
      }
      Note(RetryCall(id, fault), before);
      return Some(saved);
    }

    /** Power goes away at any point between two durable writes; RAM is lost. */
    ghost method LosePower()
      requires Valid()
      modifies this`task, this`events
      ensures Valid() && task.Off? && events == old(events) + [PowerLoss] && Now().journal == old(Now()).journal
    {
      hide Run, Inv, Contents, Distinct, Journal.Valid, ApiStep, IdleStep, SendStep, BootStep;
      ghost var before := Now();
      task := Off;
      Note(PowerLoss, before);
    }

    /** Whatever calls were made, in any order and with any faults. */
    lemma Promise(id: nat, segment: nat)
      requires Valid()
      ensures written[(id, segment)] <= submitted[(id, segment)] <= 1 + retried[id]
    {
      hide Run;
      assert IdOk(Now(), id);
    }
  }

  /**
   * Over the channel c the loop has said what the surroundings make of the segments up to `stop`, and the
   * answers are those of the modem.
   */
  ghost predicate TalkedUntil(m: Message, segments: seq<Submit.Segment>, stop: nat, env: nat -> Surroundings, answers: seq<Option<byte>>,
                              c: AtEngine.Channel, c': AtEngine.Channel) {
    && stop <= |segments|
    && if stop < |segments| then (c', answers) == Talk(c, m, segments, env, stop + 1)
       else c' == Talk(c, m, segments, env, stop).0 && answers == Talk(c, m, segments, env, stop).1 + [None]
  }

  lemma TalkStep(c: AtEngine.Channel, m: Message, segments: seq<Submit.Segment>, env: nat -> Surroundings, n: nat)
    requires n < |segments|
    ensures var (c1, answers) := Talk(c, m, segments, env, n);
      var (answer, c2) := TalkOnce(c1, n in m.sent, segments[n], env(n));
      Talk(c, m, segments, env, n + 1) == (c2, answers + [answer])
  {
    hide TalkOnce;
  }

  /** The masks and the status a delivery report leaves behind. */
  method UpdateMasks(message: Message, segment: nat, status: byte) returns (updated: Message)
    ensures updated == Reported(message, segment, status)
  {
    updated := message;
    if status < 0x20 {
      updated := updated.(delivered := updated.delivered + {segment});
    } else if status >= 0x40 {
      updated := updated.(failed := updated.failed + {segment});
    }
    if AllSegments(message) <= updated.delivered {
      updated := updated.(status := Delivered);
    } else if updated.failed * AllSegments(message) != {} {
      updated := updated.(status := Failed);
    }
  }

  /** The record sms_service_send builds for a text that encodes to n segments. */
  function NewMessage(recipient: seq<byte>, text: seq<byte>, report: bool, reference: nat, first: Submit.Segment, n: nat): Message {
    Message(0, Direction.Outbound, Queued, first.encoding, [], recipient, [], text, [], NO_CONCAT, report, reference, n,
            {}, {}, {}, map[], 0, 0)
  }

  /** A reference of zero becomes one. */
  function ReferenceOf(random: nat): nat {
    if random == 0 then 1 else random
  }

  // ----- the walk after a reboot -----

  predicate Interrupted(m: Message) {
    m.direction == Outbound && m.status == Sending
  }

  /** What the walk leaves of a record. */
  ghost predicate AfterBoot(r: Message, r': Message, fault: Fault) {
    if !Interrupted(r) then r' == r
    else r' == r.(status := Uncertain) || (!Saves(fault) && r' == r)
  }

  /** Records up to n are through, the others as they were. */
  ghost predicate Walked(s0: State, s: State, n: nat, faults: nat -> Fault) {
    && s.records.Keys == s0.records.Keys
    && (forall id :: id in s.records && id <= n ==> AfterBoot(s0.records[id], s.records[id], faults(id)))
    && (forall id :: id in s.records && id > n ==> s.records[id] == s0.records[id])
  }

  lemma WalkedOut(s0: State, s: State, after: nat, faults: nat -> Fault)
    requires Journal.Valid(s) && Walked(s0, s, after, faults) && Above(s, after) == {}
    ensures Walked(s0, s, s.nextId, faults)
  {
    hide AfterBoot, Storable;
    forall id | id in s.records ensures id <= after {
      assert id > after ==> id in Above(s, after);
    }
  }

  lemma WalkedPast(s0: State, s: State, after: nat, m: Message, faults: nat -> Fault)
    requires Walked(s0, s, after, faults) && Above(s, after) != {} && m.id == Min(Above(s, after)) && s.records[m.id] == m
    requires !Interrupted(m)
    ensures Walked(s0, s, m.id, faults)
  {
    hide Min;
    forall id | id in s.records && id <= m.id ensures AfterBoot(s0.records[id], s.records[id], faults(id)) {
      assert id > after ==> id in Above(s, after);
    }
  }

  lemma WalkedMark(s0: State, s: State, s': State, after: nat, m: Message, faults: nat -> Fault)
    requires Walked(s0, s, after, faults) && Above(s, after) != {} && m.id == Min(Above(s, after)) && s.records[m.id] == m
    requires Interrupted(m) && (s' == With(s, m.(status := Uncertain)) || (!Saves(faults(m.id)) && s' == s))
    ensures Walked(s0, s', m.id, faults)
  {
    hide Min;
    forall id | id in s.records && id <= m.id ensures AfterBoot(s0.records[id], s'.records[id], faults(id)) {
      assert id > after ==> id in Above(s, after);
    }
  }

  lemma WalkStarts(w: World, faults: nat -> Fault)
    requires Inv(w)
    ensures Walked(w.journal, w.journal, 0, faults) && w.journal.nextId > 0
  {
    hide AfterBoot, Storable;
    assert forall id :: id in w.journal.records ==> id > 0;
  }

  lemma WalkEnds(s0: State, s: State, faults: nat -> Fault)
    requires Journal.Valid(s) && Walked(s0, s, s.nextId, faults)
    ensures forall id :: id in s0.records ==> id in s.records && AfterBoot(s0.records[id], s.records[id], faults(id))
    ensures (forall id :: Saves(faults(id))) ==> forall id :: id in s.records ==> !Interrupted(s.records[id])
  {
    hide Storable;
    forall id | id in s.records ensures AfterBoot(s0.records[id], s.records[id], faults(id)) {
      assert id <= s.nextId;
    }
  }

  lemma ReferenceMatches(w: World, recipient: seq<byte>, reference: byte, m: Message, segment: nat)
    requires Inv(w) && m.id in w.journal.records && w.journal.records[m.id] == m
    requires m.direction == Outbound && m.recipient == recipient && FirstSegment(m, reference) == Some(segment)
    requires forall id :: id in ReferencingIds(w.journal, recipient, reference) ==> id <= m.id
    ensures ReferencingIds(w.journal, recipient, reference) != {}
    ensures Max(ReferencingIds(w.journal, recipient, reference)) == m.id
    ensures forall status: byte :: Reported(m, segment, status).id == m.id
  {
    hide FirstSegment, Inv;
    assert m.id in ReferencingIds(w.journal, recipient, reference);
  }

  // ----- the sending loop -----

  lemma Regroup(a: seq<Event>, b: seq<Event>, c: seq<Event>)
    ensures (a + b) + c == a + (b + c)
  {
  }

  lemma MarkIsStep(w: World, fault: Fault)
    requires w.task.Working? && w.task.next < w.task.m.segmentCount && w.task.next !in w.task.m.sent
    ensures var m := MarkedSending(w.task.m, w.task.next);
      Step(w, MarkSending(fault)) == Saved(w, m, fault, if Save(w.journal, m, fault).err.Ok? then Marked(m, w.task.next) else Idle)
  {
    hide Save;
  }

  lemma PickIsStep(w: World, fault: Fault)
    requires w.task.Idle? && IdsWith(w.journal, Queued) != {}
    ensures var m := w.journal.records[Min(IdsWith(w.journal, Queued))];
      && Step(w, Pick(true, fault)) == w.(task := Working(m, 0))
      && Step(w, Pick(false, fault)) == Saved(w, m.(status := Failed), fault, Idle)
  {
    hide Save, Min;
  }

  lemma VisitIsStep(w: World, fault: Fault)
    requires w.task.Booting? && Above(w.journal, w.task.after) != {}
    ensures var id := Min(Above(w.journal, w.task.after));
      var m := w.journal.records[id];
      Step(w, BootMark(fault))
        == if m.direction == Outbound && m.status == Sending then Saved(w, m.(status := Uncertain), fault, Booting(id)) else w.(task := Booting(id))
  {
    hide Save, Min;
  }

  /** The steps of one round. */
  function StepsOf(sent: bool, env: Surroundings, answer: Option<byte>): seq<Event> {
    if sent then [SkipSent] else SegmentRun(env, answer)
  }

  /** How far the loop has come: the record in RAM, its steps and answers, all hand-overs so far, and the channel. */
  datatype Progress = Progress(message: Message, steps: seq<Event>, answers: seq<Option<byte>>, submitted: multiset<(nat, nat)>, channel: AtEngine.Channel)

  /** The first n segments are through. */
  ghost predicate Through(m: Message, segments: seq<Submit.Segment>, env: nat -> Surroundings, before: multiset<(nat, nat)>, c: AtEngine.Channel,
                          n: nat, p: Progress) {
    && n <= m.segmentCount == |segments| && n == |p.answers|
    && (p.message, p.steps) == Behind(m, n, env, p.answers) && Confirms(m, n, env, p.answers)
    && Counted(m, n, before, p.submitted) && (p.channel, p.answers) == Talk(c, m, segments, env, n)
  }

  lemma Begins(m: Message, segments: seq<Submit.Segment>, env: nat -> Surroundings, before: multiset<(nat, nat)>, c: AtEngine.Channel)
    requires m.segmentCount == |segments|
    ensures Through(m, segments, env, before, c, 0, Progress(m, [], [], before, c))
  {
  }

  lemma ThroughFacts(m: Message, segments: seq<Submit.Segment>, env: nat -> Surroundings, before: multiset<(nat, nat)>, c: AtEngine.Channel,
                     n: nat, p: Progress)
    requires Through(m, segments, env, before, c, n, p)
    ensures p.message.id == m.id && p.message.segmentCount == m.segmentCount == |segments| && n == |p.answers|
    ensures forall k: nat :: k in p.message.sent <==> k in m.sent || k < n
  {
    hide Behind, Confirms, Counted, Talk, SameContent;
    BehindSent(m, n, env, p.answers);
  }

  /** p' is p one round later, as far as nothing depends on whether the round succeeded. */
  ghost predicate OneRound(m: Message, segment: Submit.Segment, env: Surroundings, n: nat, p: Progress, answer: Option<byte>, p': Progress) {
    && p'.steps == p.steps + StepsOf(n in m.sent, env, answer) && p'.answers == p.answers + [answer]
    && p'.submitted == p.submitted + (if n !in m.sent && HandsOver(env) then multiset{(m.id, n)} else multiset{})
    && (answer, p'.channel) == TalkOnce(p.channel, n in m.sent, segment, env)
  }

  lemma Continues(m: Message, segments: seq<Submit.Segment>, env: nat -> Surroundings, before: multiset<(nat, nat)>, c: AtEngine.Channel,
                  n: nat, p: Progress, answer: Option<byte>, p': Progress)
    requires Through(m, segments, env, before, c, n, p) && n < m.segmentCount && OneRound(m, segments[n], env(n), n, p, answer, p')
    requires n in m.sent || Succeeds(env(n), answer)
    requires p'.message == if n in m.sent then p.message else Confirmed(MarkedSending(p.message, n), n, ReferenceOr0(answer))
    ensures Through(m, segments, env, before, c, n + 1, p')
  {
    hide Behind, Confirms, Counted, CountedAtStop, Talk, TalkOnce, HandsOver, Succeeds, Confirmed, MarkedSending, SegmentRun;
    ThroughFacts(m, segments, env, before, c, n, p);
    BehindStep(m, n, env, p.answers, answer);
    ConfirmsStep(m, n, env, p.answers, answer);
    TalkStep(c, m, segments, env, n);
    if n in m.sent {
      assert p.submitted + multiset{} == p.submitted;
      CountSkips(m, n, before, p.submitted);
    } else {
      SuccessHandsOver(env(n), answer);
      CountSends(m, n, env, before, p.submitted, p'.submitted);
    }
  }

  lemma Stops(m: Message, segments: seq<Submit.Segment>, env: nat -> Surroundings, before: multiset<(nat, nat)>, c: AtEngine.Channel,
              n: nat, p: Progress, answer: Option<byte>, p': Progress, finish: Fault)
    requires Through(m, segments, env, before, c, n, p) && n < m.segmentCount && OneRound(m, segments[n], env(n), n, p, answer, p')
    requires n !in m.sent && !Succeeds(env(n), answer)
    ensures n < |p'.answers| && StopsAt(m, n, env, p'.answers) && LoopRun(m, n, env, p'.answers, finish) == p'.steps
    ensures CountedAtStop(m, n, env, before, p'.submitted) && TalkedUntil(m, segments, n, env, p'.answers, c, p'.channel)
  {
    hide Behind, Confirms, Counted, CountedAtStop, Talk, TalkOnce, HandsOver, Succeeds, SegmentRun, StopsAt, LoopRun;
    TalkStep(c, m, segments, env, n);
    StoppedHere(m, n, env, p.answers, answer, finish);
    CountSends(m, n, env, before, p.submitted, p'.submitted);
  }

  /** A loop that stops early never comes to the last save. */
  lemma Stopped(m: Message, stop: nat, env: nat -> Surroundings, answers: seq<Option<byte>>, finish: Fault)
    requires stop < |answers| && stop < m.segmentCount
    ensures LoopRun(m, stop, env, answers, finish) == LoopRun(m, stop, env, answers, NoFault)
  {
    hide Behind, SegmentRun;
  }

  lemma Ends(m: Message, segments: seq<Submit.Segment>, env: nat -> Surroundings, before: multiset<(nat, nat)>, c: AtEngine.Channel,
             p: Progress, finish: Fault)
    requires Through(m, segments, env, before, c, m.segmentCount, p) && m.sent <= AllSegments(m)
    ensures var n := m.segmentCount;
      && n < |p.answers + [None]| && StopsAt(m, n, env, p.answers + [None]) && LoopRun(m, n, env, p.answers + [None], finish) == p.steps + [Finish(finish)]
      && CountedAtStop(m, n, env, before, p.submitted) && TalkedUntil(m, segments, n, env, p.answers + [None], c, p.channel)
      && p.message.id == m.id && p.message.segmentCount == n && p.message.sent == AllSegments(m) == AllSegments(p.message)
  {
    hide Behind, Confirms, Counted, CountedAtStop, Talk, StopsAt, LoopRun;
    ThroughFacts(m, segments, env, before, c, m.segmentCount, p);
    RanThrough(m, m.segmentCount, env, p.answers, finish);
    AllAreSent(m, p.message);
    AllCounted(m, env, before, p.submitted);
  }

  lemma BehindStep(m: Message, n: nat, env: nat -> Surroundings, answers: seq<Option<byte>>, answer: Option<byte>)
    requires n == |answers|
    ensures var (held, es) := Behind(m, n, env, answers);
      && Behind(m, n, env, answers + [answer]) == (held, es)
      && Behind(m, n + 1, env, answers + [answer])
         == if n in held.sent then (held, es + [SkipSent])
            else (Confirmed(MarkedSending(held, n), n, ReferenceOr0(answer)), es + SegmentRun(env(n), answer))
  {
    hide SegmentRun, Confirmed, MarkedSending;
    BehindKeeps(m, n, env, answers, answers + [answer]);
  }

  /** The first n segments are sent or confirmed. */
  ghost predicate Confirms(m: Message, n: nat, env: nat -> Surroundings, answers: seq<Option<byte>>) {
    n <= |answers| && forall k :: 0 <= k < n ==> k in m.sent || Succeeds(env(k), answers[k])
  }

  lemma StoppedHere(m: Message, stop: nat, env: nat -> Surroundings, answers: seq<Option<byte>>, answer: Option<byte>, finish: Fault)
    requires Confirms(m, stop, env, answers) && stop == |answers| < m.segmentCount && stop !in m.sent && !Succeeds(env(stop), answer)
    ensures StopsAt(m, stop, env, answers + [answer])
    ensures LoopRun(m, stop, env, answers + [answer], finish) == Behind(m, stop, env, answers).1 + SegmentRun(env(stop), answer)
  {
    hide Succeeds, SegmentRun, Behind;
    BehindKeeps(m, stop, env, answers, answers + [answer]);
  }

  lemma RanThrough(m: Message, stop: nat, env: nat -> Surroundings, answers: seq<Option<byte>>, finish: Fault)
    requires Confirms(m, stop, env, answers) && stop == |answers| == m.segmentCount
    ensures StopsAt(m, stop, env, answers + [None])
    ensures LoopRun(m, stop, env, answers + [None], finish) == Behind(m, stop, env, answers).1 + [Finish(finish)]
  {
    hide Succeeds, SegmentRun, Behind;
    BehindKeeps(m, stop, env, answers, answers + [None]);
  }

  lemma ConfirmsStep(m: Message, n: nat, env: nat -> Surroundings, answers: seq<Option<byte>>, answer: Option<byte>)
    requires Confirms(m, n, env, answers) && n == |answers|
    ensures n in m.sent || Succeeds(env(n), answer) ==> Confirms(m, n + 1, env, answers + [answer])
  {
    hide Succeeds;
  }

  /** Each unsent segment below n was handed over once since `before`. */
  ghost predicate Counted(m: Message, n: nat, before: multiset<(nat, nat)>, after: multiset<(nat, nat)>) {
    forall id: nat, k: nat :: after[(id, k)] == before[(id, k)] + if id == m.id && k < n && k !in m.sent then 1 else 0
  }

  ghost predicate CountedAtStop(m: Message, stop: nat, env: nat -> Surroundings, before: multiset<(nat, nat)>, after: multiset<(nat, nat)>) {
    forall id: nat, k: nat :: after[(id, k)] == before[(id, k)] + if id == m.id && Handed(m, stop, env, k) then 1 else 0
  }

  lemma CountSkips(m: Message, n: nat, before: multiset<(nat, nat)>, after: multiset<(nat, nat)>)
    requires Counted(m, n, before, after) && n in m.sent
    ensures Counted(m, n + 1, before, after)
  {
  }

  lemma CountSends(m: Message, n: nat, env: nat -> Surroundings, before: multiset<(nat, nat)>, sofar: multiset<(nat, nat)>, after: multiset<(nat, nat)>)
    requires Counted(m, n, before, sofar) && n < m.segmentCount && n !in m.sent
    requires after == sofar + if HandsOver(env(n)) then multiset{(m.id, n)} else multiset{}
    ensures HandsOver(env(n)) ==> Counted(m, n + 1, before, after)
    ensures CountedAtStop(m, n, env, before, after)
  {
    hide HandsOver;
  }

  lemma AllCounted(m: Message, env: nat -> Surroundings, before: multiset<(nat, nat)>, after: multiset<(nat, nat)>)
    requires Counted(m, m.segmentCount, before, after)
    ensures CountedAtStop(m, m.segmentCount, env, before, after)
  {
    hide HandsOver;
  }

  lemma SuccessHandsOver(env: Surroundings, answer: Option<byte>)
    requires Succeeds(env, answer)
    ensures HandsOver(env)
  {
  }

  lemma AllAreSent(m: Message, held: Message)
    requires held.segmentCount == m.segmentCount && m.sent <= AllSegments(m)
    requires forall k: nat :: k in held.sent <==> k in m.sent || k < m.segmentCount
    ensures held.sent == AllSegments(m) == AllSegments(held)
  {
  }

  lemma WorkedRecordOk(w: World, m: Message)
    requires Inv(w) && w.task.Working? && w.task.m == m
    ensures m.sent <= AllSegments(m)
  {
    HeldRecordOk(w);
  }

  lemma QueuedFacts(w: World, id: nat)
    requires Inv(w) && id in w.journal.records && w.journal.records[id].status == Queued
    ensures w.journal.records[id].direction == Outbound && w.journal.records[id].reference < 0x10000
    ensures 1 <= w.journal.records[id].segmentCount <= MAX_SEGMENTS
  {
    assert IdOk(w, id);
  }

  lemma StoredIsStorable(w: World, id: nat)
    requires Inv(w) && id in w.journal.records
    ensures Storable(w.journal.records[id])
  {
  }

  lemma RecordBelow(w: World, id: nat)
    requires Inv(w) && id in w.journal.records
    ensures id < w.journal.nextId
  {
  }

  lemma SaveStores(s: State, m: Message, fault: Fault)
    requires Journal.Valid(s) && m.id in s.records
    ensures m.id in Save(s, m, fault).state.records
  {
    hide Storable;
  }

  ghost predicate BootEvents(events: seq<Event>, before: seq<Event>) {
    before <= events && forall i :: |before| <= i < |events| ==> events[i].BootMark? || events[i].BootListFails?
  }

  lemma SameAllocator(w: World, m: Message, fault: Fault)
    requires Inv(w) && m.id in w.journal.records
    ensures Save(w.journal, m, fault).state.nextId == w.journal.nextId
  {
  }

  lemma RoomForNew(w: World, m: Message)
    requires Inv(w) && m.id == 0 && |m.text| < 4096 && m.sender == [] && |m.recipient| < 24 && m.timestamp == [] && m.rawPdu == []
    requires m.segmentCount <= MAX_SEGMENTS
    ensures |w.journal.records| < MAX_RECORDS ==> Save(w.journal, m, NoFault).err == Ok
  {
    hide Save, Prunable;
    SavedIfRoom(w.journal, m);
  }

  lemma InvJournal(w: World)
    requires Inv(w)
    ensures Journal.Valid(w.journal)
  {
  }
}
