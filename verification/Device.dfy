/**
 * The whole device: the sending service, the inbox and the replay of received messages over one
 * store, switched on, used and switched off in any order. Whatever sequence of its methods is called, its promises hold.
 */
module Device {
  import opened Bytes
  import opened Journal
  import opened Outbound
  import opened SendingRuns
  import opened SmsStore
  import opened SmsService
  import opened InboundService
  import Inbound
  import Reassembly
  import DeliverPdu
  import AtParser
  import Gateway
  import Replay
  import opened ReplayService
  import OutboundCodec
  import Submit

  class Firmware {
    const service: Service
    const inbox: Inbox
    const replayer: Replayer

    ghost predicate Valid()
      reads this, service, service.store, service.store.slots, service.engine, service.engine.parser, service.engine.parser.line, inbox, replayer
      reads replayer.store, replayer.store.slots
    {
      && service.Valid() && inbox.store == service.store && replayer.store == service.store && replayer.Valid()
      && Inbound.InboundInv(service.store.Abs())
    }

    constructor ()
      ensures Valid() && fresh(service) && fresh(service.store) && fresh(service.store.slots) && fresh(inbox) && fresh(replayer)
      ensures fresh(service.engine) && fresh(service.engine.router) && fresh(service.engine.parser) && fresh(service.engine.parser.line)
      ensures service.task.Off? && replayer.worker.Down?
    {
      var s := new Service();
      Gateway.EmptyIsFine(s.store.Abs());
      var i := new Inbox(s.store);
      var r := new Replayer(s.store);
      service, inbox, replayer := s, i, r;
    }

    /** The service has performed the events behind `start`; the inbox and the replay side take note. */
    ghost method Settle(start: seq<Event>, before: Replay.World)
      requires service.Valid() && inbox.store == service.store && replayer.store == service.store
      requires start <= service.events && Quiet(service.events[|start|..])
      requires Inv(Run(ORIGIN, start)) && Inbound.InboundInv(Run(ORIGIN, start).journal)
      requires Replay.Fresh(replayer.origin) && before == Replay.Run(replayer.origin, replayer.events) && Replay.Inv(before)
      requires before.journal == Run(ORIGIN, start).journal && replayer.Now() == before.(journal := service.store.Abs())
      modifies replayer`events
      ensures Valid()
    {
      hide Run, Inv, Inbound.InboundInv, Contents, Distinct, Journal.Valid, Quiet, Replay.Run, Replay.Inv, Replay.Fresh, Replay.Rely;
      StillInbound(start, service.events);
      StillRely(start, service.events);
      replayer.NoteOthers(before);
    }

    /** The replay side may have set new marks; the service takes note. */
    ghost method NoteMarks(before: World)
      requires service.store.Valid() && inbox.store == service.store && replayer.store == service.store && replayer.Valid()
      requires before == Run(ORIGIN, service.events) && Inv(before) && Inbound.InboundInv(before.journal)
      requires service.Now() == before.(journal := service.store.Abs()) && OnlyMarks(before.journal, service.store.Abs())
      requires service.EngineOk() && forall k :: service.written[k] <= service.submitted[k]
      modifies service`events
      ensures Valid()
    {
      hide Run, Inv, Inbound.InboundInv, Contents, Distinct, Journal.Valid, Replay.Run, Replay.Inv, Replay.Fresh;
      var s := service.store.Abs();
      MarksKeepInbound(before.journal, s);
      service.Note(SetWatermark(s.protect, s.watermark), before);
    }

    /** Power on: the line parser is new, and the service walks over interrupted sends. */
    method SwitchOn(readable: nat -> bool, faults: nat -> Fault)
      requires Valid() && service.task.Off?
      modifies service, service.store, service.store.slots, service.engine.parser, replayer`events
      ensures Valid() && service.task.Idle? && service.engine.parser.Abs() == AtParser.RESET
      ensures service.store.Abs().records.Keys == old(service.store.Abs()).records.Keys
      ensures (forall a :: readable(a)) ==> forall id :: id in old(service.store.Abs()).records ==>
                AfterBoot(old(service.store.Abs()).records[id], service.store.Abs().records[id], faults(id))
    {
      hide Run, Inv, Inbound.InboundInv, Contents, Distinct, Journal.Valid, AfterBoot, Replay.Run, Replay.Inv, Replay.Fresh;
      ghost var start, before := service.events, replayer.Now();
      service.engine.parser.Reset();
      service.PowerOn();
      service.MarkInterruptedSendsUncertain(readable, faults);
      BootIsQuiet(start, service.events);
      Settle(start, before);
    }

    /** One round of sending. */
    method Work(ready: bool, memory: bool, pickFault: Fault, env: nat -> Surroundings, finishFault: Fault)
      returns (stop: nat, answers: seq<Option<byte>>)
      requires Valid() && service.task.Idle?
      modifies service, service.store, service.store.slots, service.engine, service.engine.router, service.engine.parser, service.engine.parser.line
      modifies replayer`events
      ensures Valid() && service.task.Idle?
      ensures var s := old(service.Now()).journal;
        ready && memory && IdsWith(s, Queued) != {} && OutboundCodec.EncodesAsStored(s.records[Min(IdsWith(s, Queued))]) ==>
          var m := s.records[Min(IdsWith(s, Queued))];
          service.LoopDone(m, OutboundCodec.SegmentsOf(m), stop, env, answers, pickFault, finishFault, old(service.events), old(service.submitted),
                           old(service.engine.Stand()))
    {
      hide Run, Inv, Inbound.InboundInv, Contents, Distinct, Journal.Valid, LoopRun, Succeeds, CountedAtStop, TalkedUntil, OutboundCodec.EncodesAsStored, OutboundCodec.SegmentsOf, Min,
           StopsAt, Quiet, Replay.Run, Replay.Inv, Replay.Fresh;
      ghost var start, before := service.events, replayer.Now();
      ghost var s := service.Now().journal;
      stop, answers := service.ProcessOneOutbound(ready, memory, pickFault, env, finishFault);
      NothingIsQuiet(start);
      if ready && memory && IdsWith(s, Queued) != {} {
        ghost var m := s.records[Min(IdsWith(s, Queued))];
        if OutboundCodec.EncodesAsStored(m) {
          SentIsQuiet(m, stop, env, answers, finishFault, start, service.events, pickFault);
        } else {
          PickedIsQuiet(start, service.events, Pick(false, pickFault), []);
        }
      }
      Settle(start, before);
    }

    /** A PDU from the modem's storage; its copy there is deleted only behind durable storage. */
    method Receive(pdu: seq<byte>, modemIndex: Option<nat>, env: Reassembly.Env)
      returns (incoming: DeliverPdu.Incoming, err: Option<Err>, deleteModemCopy: bool)
      requires Valid() && service.task.Idle?
      modifies service`events, service.store, service.store.slots, replayer`events
      ensures Valid() && service.task.Idle?
      ensures incoming == DeliverPdu.IncomingOf(pdu) && (deleteModemCopy <==> modemIndex.Some? && err == Some(Ok))
      ensures incoming.Text? && err == Some(Ok) ==> Reassembly.Holds(service.store.Abs(), incoming.message.sender, incoming.message.text)
      ensures incoming.Binary? && err == Some(Ok) ==> exists id :: Inbound.RawIds(service.store.Abs(), pdu) == {id}
    {
      hide Run, Inv, Inbound.InboundInv, Contents, Distinct, Journal.Valid, Reassembly.Persist, Reassembly.KeepRaw, DeliverPdu.IncomingOf,
           Reassembly.Holds, Inbound.RawIds, Reassembly.Superseded, Reassembly.ReceivedKept, Replay.Run, Replay.Inv, Replay.Fresh, Replay.Rely;
      ghost var before, rbefore := service.Now(), replayer.Now();
      ghost var es := Gateway.ArrivalIsRun(before, pdu, env);
      incoming, err, deleteModemCopy := inbox.ProcessDeliverPdu(pdu, modemIndex, env);
      service.NoteRun(es, before);
      RunIsRely(before, es);
      replayer.NoteOthers(rbefore);
    }

    method Report(recipient: seq<byte>, reference: byte, status: byte, fault: Fault) returns (err: Err)
      requires Valid() && service.task.Idle?
      modifies service, service.store, service.store.slots, replayer`events
      ensures Valid() && service.task.Idle? && service.events == old(service.events) + [Outbound.Report(recipient, reference, status, fault)]
      ensures var ids := ReferencingIds(old(service.Now()).journal, recipient, reference);
              if ids == {} then err == NotFound else err == Ok <==> Saves(fault)
    {
      hide Run, Inv, Inbound.InboundInv, Contents, Distinct, Journal.Valid, Replay.Run, Replay.Inv, Replay.Fresh;
      ghost var start, before := service.events, replayer.Now();
      err := service.ProcessStatusReport(recipient, reference, status, fault);
      Settle(start, before);
    }

    method Send(recipient: seq<byte>, text: seq<byte>, report: bool, random: nat, memory: bool, fault: Fault) returns (err: Err, id: nat)
      requires Valid() && !service.task.Off? && random < 0x10000
      modifies service, service.store, service.store.slots, replayer`events
      ensures Valid() && service.task == old(service.task)
      ensures |text| >= 4096 ==> err == InvalidSize
      ensures |text| < 4096 && memory && Submit.Segments(recipient, text, report, ReferenceOf(random), MAX_SEGMENTS).None? ==> err == InvalidArg
      ensures |text| < 4096 && memory && Submit.Segments(recipient, text, report, ReferenceOf(random), MAX_SEGMENTS).Some? ==>
                |service.events| == |old(service.events)| + 1 && service.events[|old(service.events)|].Enqueue?
      ensures err == Ok ==> id in service.store.Abs().records && service.store.Abs().records[id].text == text
    {
      hide Run, Inv, Inbound.InboundInv, Contents, Distinct, Journal.Valid, Submit.Segments, OutboundCodec.AcceptedBySend, Replay.Run, Replay.Inv, Replay.Fresh;
      ghost var start, before := service.events, replayer.Now();
      err, id := service.SendText(recipient, text, report, random, memory, fault);
      Settle(start, before);
    }

    method Delete(id: nat, fault: Fault) returns (err: Option<Err>)
      requires Valid() && !service.task.Off?
      modifies service, service.store, service.store.slots, replayer`events
      ensures Valid() && service.task == old(service.task)
      ensures var r := old(service.Now()).journal.records;
              id in r && !(r[id].direction == Outbound && r[id].status in {Queued, Sending}) ==>
                service.events == old(service.events) + [DeleteCall(id, fault)]
      ensures err == Some(Ok) ==> id !in service.Now().journal.records
    {
      hide Run, Inv, Inbound.InboundInv, Contents, Distinct, Journal.Valid, Replay.Run, Replay.Inv, Replay.Fresh;
      ghost var start, before := service.events, replayer.Now();
      err := service.DeleteMessage(id, fault);
      Settle(start, before);
    }

    method Retry(id: nat, fault: Fault) returns (err: Option<Err>)
      requires Valid() && !service.task.Off?
      modifies service, service.store, service.store.slots, replayer`events
      ensures Valid() && service.task == old(service.task)
      ensures err.Some? ==> service.events == old(service.events) + [RetryCall(id, fault)]
      ensures var r := old(service.Now()).journal.records;
              err.Some? <==> id in r && r[id].direction == Outbound && r[id].status == Uncertain
    {
      hide Run, Inv, Inbound.InboundInv, Contents, Distinct, Journal.Valid, Replay.Run, Replay.Inv, Replay.Fresh;
      ghost var start, before := service.events, replayer.Now();
      err := service.RetryUncertain(id, fault);
      Settle(start, before);
    }

    /** The start of the MQTT service. */
    method StartPublishing(readable: bool) returns (ok: bool)
      requires Valid() && replayer.worker.Down?
      modifies service`events, service.store, replayer
      ensures Valid() && ok == readable && (ok ==> replayer.worker.Ready? && replayer.cursor == replayer.flash)
    {
      hide Run, Inv, Inbound.InboundInv, Contents, Distinct, Journal.Valid, Replay.Run, Replay.Inv, Replay.Fresh;
      ghost var before := service.Now();
      ok := replayer.Init(readable);
      NoteMarks(before);
    }

    /** The worker's rounds: a scan, a watchdog tick. */
    method Publish(expired: bool, env: ScanEnv)
      requires Valid() && replayer.worker.Ready?
      requires env.packet.Some? ==> env.packet.value != 0 && env.packet.value !in replayer.carried
      modifies replayer
      ensures Valid() && replayer.worker.Ready?
      ensures env.connected && (old(replayer.messageId) == 0 || expired) ==> replayer.Scanned(env, old(replayer.carried))
    {
      hide Run, Inv, Inbound.InboundInv, Contents, Distinct, Journal.Valid, Replay.Run, Replay.Inv, Replay.Fresh;
      if replayer.messageId == 0 {
        replayer.ReplayNextInbound(env);
      } else {
        replayer.ReplayWatchdog(expired, env);
      }
    }

    /** What the MQTT client reports: an acknowledged packet, or a lost connection. */
    method Heard(packet: Option<nat>, queued: bool)
      requires Valid()
      modifies replayer
      ensures Valid() && replayer.worker == old(replayer.worker)
      ensures packet.Some? && packet.value in old(replayer.carried) ==> old(replayer.carried)[packet.value] in replayer.acked
      ensures packet.None? ==> replayer.messageId == 0
    {
      hide Run, Inv, Inbound.InboundInv, Contents, Distinct, Journal.Valid, Replay.Run, Replay.Inv, Replay.Fresh;
      if packet.Some? {
        replayer.OnPublished(packet.value, queued);
      } else {
        replayer.InflightClear();
      }
    }

    /** An acknowledgement from the work queue. */
    method Acknowledge(id: nat, write: CursorWrite, env: ScanEnv)
      requires Valid() && replayer.worker.Ready? && id in replayer.queue
      requires env.packet.Some? ==> env.packet.value != 0 && env.packet.value !in replayer.carried
      modifies service`events, service.store, replayer
      ensures Valid() && replayer.worker.Ready?
      ensures id != 0 && old(replayer.messageId) == id && write.Written? ==> replayer.flash == replayer.cursor == id
    {
      hide Run, Inv, Inbound.InboundInv, Contents, Distinct, Journal.Valid, Replay.Run, Replay.Inv, Replay.Fresh;
      ghost var before := service.Now();
      replayer.HandleReplayAck(id, write, env);
      NoteMarks(before);
    }

    method Reconfigure(enabled: bool)
      requires Valid() && replayer.worker.Ready?
      modifies service`events, service.store, replayer
      ensures Valid() && replayer.worker.Ready? && service.store.protect == enabled
    {
      hide Run, Inv, Inbound.InboundInv, Contents, Distinct, Journal.Valid, Replay.Run, Replay.Inv, Replay.Fresh;
      ghost var before := service.Now();
      replayer.Reconfigure(enabled);
      NoteMarks(before);
    }

    /** Power goes away. */
    method SwitchOff()
      requires Valid()
      modifies service, service.store, replayer
      ensures Valid() && service.task.Off? && replayer.worker.Down?
    {
      hide Run, Inv, Inbound.InboundInv, Contents, Distinct, Journal.Valid, Replay.Run, Replay.Inv, Replay.Fresh;
      service.LosePower();
      ghost var before := service.Now();
      replayer.LosePower();
      NoteMarks(before);
    }

    /**
     * Whatever methods were called, in whatever order and with whatever faults: payloads and hand-overs
     * of a segment are bounded by the decisions to send it, no two received messages share an identity,
     * no part or raw PDU is stored twice, and what pruning may take was acknowledged.
     */
    lemma Promise(id: nat, segment: nat, a: nat, b: nat)
      requires Valid()
      ensures service.written[(id, segment)] <= service.submitted[(id, segment)] <= 1 + service.retried[id]
      ensures var r := service.store.Abs().records;
        a in r && b in r && a != b ==> Inbound.Apart(r[a], r[b])
      ensures var s := service.store.Abs();
        s.protect && Replay.IsReceived(s, id) && Prunable(s.records[id], s.protect, s.watermark) ==> id in replayer.acked
    {
      hide Run, Inbound.Apart, Inbound.PartOk, Replay.Run;
      service.Promise(id, segment);
      if replayer.store.protect && Replay.IsReceived(replayer.store.Abs(), id) { replayer.Promise(id); }
    }
  }

  /** No inbound record is saved, and no mark set, by these events. */
  ghost predicate Quiet(es: seq<Event>) {
    forall i :: 0 <= i < |es| ==> !es[i].InboundSave? && !es[i].SetWatermark?
  }

  ghost predicate NoMarks(es: seq<Event>) {
    forall i :: 0 <= i < |es| ==> !es[i].SetWatermark?
  }

  lemma {:induction false} QuietRunKeeps(w: World, es: seq<Event>)
    requires Inv(w) && Inbound.InboundInv(w.journal) && Quiet(es)
    ensures Inbound.InboundInv(Run(w, es).journal)
    decreases |es|
  {
    hide Inv, Inbound.InboundInv, Step;
    if es != [] {
      StepKeeps(w, es[0]);
      Gateway.SendingKeepsInbound(w, es[0]);
      assert forall i :: 0 <= i < |es[1..]| ==> es[1..][i] == es[i + 1];
      QuietRunKeeps(Step(w, es[0]), es[1..]);
    }
  }

  /** Quiet events behind a sound history leave the inbound side sound. */
  lemma StillInbound(before: seq<Event>, after: seq<Event>)
    requires before <= after && Quiet(after[|before|..])
    requires Inv(Run(ORIGIN, before)) && Inbound.InboundInv(Run(ORIGIN, before).journal)
    ensures Inbound.InboundInv(Run(ORIGIN, after).journal)
  {
    hide Inv, Inbound.InboundInv, Run;
    var es := after[|before|..];
    assert after == before + es;
    RunConcat(ORIGIN, before, es);
    QuietRunKeeps(Run(ORIGIN, before), es);
  }

  lemma BootIsQuiet(before: seq<Event>, after: seq<Event>)
    requires BootEvents(after, before + [Boot])
    ensures before <= after && Quiet(after[|before|..])
  {
    assert before <= before + [Boot] <= after;
    assert after[|before|] == (before + [Boot])[|before|];
  }

  lemma PickedIsQuiet(before: seq<Event>, after: seq<Event>, pick: Event, es: seq<Event>)
    requires after == before + [pick] + es && pick.Pick? && Quiet(es)
    ensures before <= after && Quiet(after[|before|..])
  {
    assert after[|before|..] == [pick] + es;
  }

  lemma {:induction false} BehindIsQuiet(m: Message, n: nat, env: nat -> Surroundings, answers: seq<Option<byte>>)
    requires n <= |answers|
    ensures Quiet(Behind(m, n, env, answers).1)
    decreases n
  {
    if n > 0 { BehindIsQuiet(m, n - 1, env, answers); }
  }

  lemma NothingIsQuiet(start: seq<Event>)
    ensures Quiet(start[|start|..]) && Quiet([])
  {
  }

  lemma SentIsQuiet(m: Message, stop: nat, env: nat -> Surroundings, answers: seq<Option<byte>>, finish: Fault,
                    start: seq<Event>, events: seq<Event>, pick: Fault)
    requires stop < |answers| && events == start + [Pick(true, pick)] + LoopRun(m, stop, env, answers, finish)
    ensures start <= events && Quiet(events[|start|..])
  {
    hide LoopRun, Quiet;
    LoopIsQuiet(m, stop, env, answers, finish);
    PickedIsQuiet(start, events, Pick(true, pick), LoopRun(m, stop, env, answers, finish));
  }

  lemma LoopIsQuiet(m: Message, stop: nat, env: nat -> Surroundings, answers: seq<Option<byte>>, finish: Fault)
    requires stop < |answers|
    ensures Quiet(LoopRun(m, stop, env, answers, finish))
  {
    hide Behind;
    BehindIsQuiet(m, stop, env, answers);
  }

  lemma RelyTrans(a: State, b: State, c: State)
    requires Replay.Rely(a, b) && Replay.Rely(b, c)
    ensures Replay.Rely(a, c)
  {
    hide Journal.Valid, Replay.IsReceived;
  }

  /** Any run without new marks is one the replay machine allows for. */
  lemma {:induction false} RunIsRely(w: World, es: seq<Event>)
    requires Inv(w) && (NoMarks(es) || Gateway.InboundEvents(es))
    ensures Replay.Rely(w.journal, Run(w, es).journal)
    decreases |es|
  {
    hide Inv, Step, Replay.Rely;
    if es == [] {
      SelfRely(w);
    } else {
      StepKeeps(w, es[0]);
      Gateway.GatewayIsRely(w, es[0]);
      assert forall i :: 0 <= i < |es[1..]| ==> es[1..][i] == es[i + 1];
      RunIsRely(Step(w, es[0]), es[1..]);
      RelyTrans(w.journal, Step(w, es[0]).journal, Run(w, es).journal);
    }
  }

  lemma SelfRely(w: World)
    requires Inv(w)
    ensures Replay.Rely(w.journal, w.journal)
  {
  }

  lemma StillRely(before: seq<Event>, after: seq<Event>)
    requires before <= after && Quiet(after[|before|..]) && Inv(Run(ORIGIN, before))
    ensures Replay.Rely(Run(ORIGIN, before).journal, Run(ORIGIN, after).journal)
  {
    hide Inv, Run, Replay.Rely;
    var es := after[|before|..];
    assert after == before + es;
    RunConcat(ORIGIN, before, es);
    RunIsRely(Run(ORIGIN, before), es);
  }

  lemma MarksKeepInbound(s: State, s': State)
    requires Inbound.InboundInv(s) && OnlyMarks(s, s')
    ensures Inbound.InboundInv(s')
  {
    hide Inbound.Apart, Inbound.PartOk;
  }
}
