/**
 * The halves together: no step of the sending side touches received messages or parts, so what
 * the inbound side and the replay machine promise holds over every run of the whole gateway.
 */
module Gateway {
  import opened Bytes
  import opened Journal
  import Inbound
  import Reassembly
  import DeliverPdu
  import Outbound
  import Replay

  /** Inbound records are as they were, or gone. */
  ghost predicate InboundSame(s: State, s': State) {
    && Valid(s') && s.nextId <= s'.nextId
    && forall id :: id in s'.records && s'.records[id].direction == Inbound ==> id in s.records && s'.records[id] == s.records[id]
  }

  ghost predicate SameMarks(s: State, s': State) {
    s'.protect == s.protect && s'.watermark == s.watermark
  }

  lemma SaveOutbound(s: State, m: Message, fault: Fault)
    requires Valid(s) && m.direction == Outbound && (m.id == 0 || m.id in s.records)
    ensures InboundSame(s, Save(s, m, fault).state)
  {
    hide Save, Storable;
    SaveKeepsValid(s, m, fault);
    SaveMarks(s, m, fault);
    if m.id == 0 { NewRecordEffect(s, m, fault); } else { Inbound.ExistingOnly(s, m, fault); }
  }

  lemma SaveMarks(s: State, m: Message, fault: Fault)
    ensures SameMarks(s, Save(s, m, fault).state) && s.nextId <= Save(s, m, fault).state.nextId
  {
    hide Storable, Prunable, Min;
  }

  lemma DeleteSame(s: State, id: nat, fault: Fault)
    requires Valid(s)
    ensures InboundSame(s, Delete(s, id, fault).state) && SameMarks(s, Delete(s, id, fault).state)
  {
    hide Valid;
    DeleteKeepsValid(s, id, fault);
  }

  lemma HeldIsOutbound(w: Outbound.World)
    requires Outbound.Inv(w) && Outbound.Holding(w.task)
    ensures w.task.m.direction == Outbound && w.task.m.id in w.journal.records
  {
    Outbound.HeldFacts(w);
  }

  lemma SendSame(w: Outbound.World, e: Outbound.Event)
    requires Outbound.Inv(w) && Valid(w.journal)
    ensures InboundSame(w.journal, Outbound.SendStep(w, e).journal) && SameMarks(w.journal, Outbound.SendStep(w, e).journal)
  {
    hide Save, Valid, Outbound.Inv, InboundSame, SameMarks;
    Unchanged(w.journal);
    if Outbound.Holding(w.task) {
      HeldIsOutbound(w);
      var m := w.task.m;
      match (w.task, e)
      case (Working(_, k), MarkSending(fault)) => BothSame(w.journal, Outbound.MarkedSending(m, k), fault);
      case (Working(_, k), Finish(fault)) => BothSame(w.journal, m.(status := Sent, inflight := 0), fault);
      case (Marked(_, k), NoMemory(fault)) => BothSame(w.journal, m.(status := Queued, inflight := 0), fault);
      case (Marked(_, k), Refuse(fault)) => BothSame(w.journal, m.(status := Uncertain), fault);
      case (Submitted(_, k), Doubt(fault)) => BothSame(w.journal, m.(status := Uncertain), fault);
      case (Submitted(_, k), Confirm(reference, fault)) => BothSame(w.journal, Outbound.Confirmed(m, k, reference), fault);
      case _ =>
    }
  }

  lemma BothSame(s: State, m: Message, fault: Fault)
    requires Valid(s) && m.direction == Outbound && (m.id == 0 || m.id in s.records)
    ensures InboundSame(s, Save(s, m, fault).state) && SameMarks(s, Save(s, m, fault).state)
  {
    hide Save, Valid;
    SaveOutbound(s, m, fault);
    SaveMarks(s, m, fault);
  }

  lemma Unchanged(s: State)
    requires Valid(s)
    ensures InboundSame(s, s) && SameMarks(s, s)
  {
  }

  lemma IdleSame(w: Outbound.World, e: Outbound.Event)
    requires Outbound.Inv(w) && Valid(w.journal) && w.task.Idle? && !e.InboundSave?
    ensures InboundSame(w.journal, Outbound.IdleStep(w, e).journal) && SameMarks(w.journal, Outbound.IdleStep(w, e).journal)
  {
    hide Save, Delete, Valid, Outbound.Inv, InboundSame, SameMarks, FirstSegment, Outbound.Reported;
    var s := w.journal;
    Unchanged(s);
    match e
    case InboundDelete(id, fault) => DeleteSame(s, id, fault);
    case Report(recipient, reference, status, fault) =>
      if ReferencingIds(s, recipient, reference) != {} {
        var k := Max(ReferencingIds(s, recipient, reference));
        ReportSame(w, k, FirstSegment(s.records[k], reference).value, status, fault);
      }
    case Pick(encodes, fault) =>
      if IdsWith(s, Queued) != {} { PickSame(w, Min(IdsWith(s, Queued)), fault); }
    case _ =>
  }

  lemma ReportSame(w: Outbound.World, k: nat, segment: nat, status: byte, fault: Fault)
    requires Outbound.Inv(w) && k in w.journal.records && w.journal.records[k].direction == Outbound
    ensures var s' := Save(w.journal, Outbound.Reported(w.journal.records[k], segment, status), fault).state;
      InboundSame(w.journal, s') && SameMarks(w.journal, s')
  {
    hide Save, InboundSame, SameMarks, Outbound.AllSegments;
    Outbound.RecordFacts(w, k);
    BothSame(w.journal, Outbound.Reported(w.journal.records[k], segment, status), fault);
  }

  lemma PickSame(w: Outbound.World, k: nat, fault: Fault)
    requires Outbound.Inv(w) && k in w.journal.records && w.journal.records[k].status == Queued
    ensures var s' := Save(w.journal, w.journal.records[k].(status := Failed), fault).state;
      InboundSame(w.journal, s') && SameMarks(w.journal, s')
  {
    hide Save, InboundSame, SameMarks;
    Outbound.RecordFacts(w, k);
    assert Outbound.IdOk(w, k);
    BothSame(w.journal, w.journal.records[k].(status := Failed), fault);
  }

  lemma ApiSame(w: Outbound.World, e: Outbound.Event)
    requires Outbound.Inv(w) && Valid(w.journal)
    ensures InboundSame(w.journal, Outbound.ApiStep(w, e).journal)
    ensures !e.SetWatermark? ==> SameMarks(w.journal, Outbound.ApiStep(w, e).journal)
  {
    hide Save, Delete, Valid, Outbound.Inv, InboundSame, SameMarks;
    var s := w.journal;
    Unchanged(s);
    match e
    case Enqueue(m, fault) => if Outbound.FreshOutbound(m) { BothSame(s, m, fault); }
    case DeleteCall(id, fault) => DeleteSame(s, id, fault);
    case RetryCall(id, fault) =>
      if id in s.records && s.records[id].direction == Outbound {
        Outbound.RecordFacts(w, id);
        BothSame(s, s.records[id].(status := Queued, inflight := 0), fault);
      }
    case SetWatermark(protect, watermark) => NewMarks(s, protect, watermark);
    case _ =>
  }

  lemma NewMarks(s: State, protect: bool, watermark: nat)
    requires Valid(s)
    ensures InboundSame(s, s.(protect := protect, watermark := watermark))
  {
  }

  lemma BootSame(w: Outbound.World, e: Outbound.Event)
    requires Outbound.Inv(w) && Valid(w.journal) && w.task.Booting?
    ensures InboundSame(w.journal, Outbound.BootStep(w, e).journal) && SameMarks(w.journal, Outbound.BootStep(w, e).journal)
  {
    hide Save, Valid, Outbound.Inv, InboundSame, SameMarks;
    var s := w.journal;
    Unchanged(s);
    if e.BootMark? && Above(s, w.task.after) != {} {
      var id := Min(Above(s, w.task.after));
      Outbound.RecordFacts(w, id);
      if s.records[id].direction == Outbound { BothSame(s, s.records[id].(status := Uncertain), e.fault); }
    }
  }

  /** No step but the inbound task's own saves adds or changes an inbound record. */
  lemma StepSame(w: Outbound.World, e: Outbound.Event)
    requires Outbound.Inv(w) && !e.InboundSave?
    ensures InboundSame(w.journal, Outbound.Step(w, e).journal)
    ensures !e.SetWatermark? ==> SameMarks(w.journal, Outbound.Step(w, e).journal)
  {
    hide Valid, Outbound.Inv, InboundSame, SameMarks, Outbound.ApiStep, Outbound.IdleStep, Outbound.BootStep, Outbound.SendStep;
    InvValid(w);
    Unchanged(w.journal);
    ApiSame(w, e);
    SendSame(w, e);
    if w.task.Idle? { IdleSame(w, e); }
    if w.task.Booting? { BootSame(w, e); }
  }

  lemma InvValid(w: Outbound.World)
    requires Outbound.Inv(w)
    ensures Valid(w.journal)
  {
  }

  /** Received identities and parts stay pairwise distinct whatever the sending side does. */
  lemma SendingKeepsInbound(w: Outbound.World, e: Outbound.Event)
    requires Outbound.Inv(w) && Inbound.InboundInv(w.journal) && !e.InboundSave?
    ensures Inbound.InboundInv(Outbound.Step(w, e).journal)
  {
    hide Outbound.Inv, Inbound.InboundInv, Outbound.Step, Valid;
    StepSame(w, e);
    Inbound.OthersKeep(w.journal, Outbound.Step(w, e).journal);
  }

  lemma InboundSaveRely(w: Outbound.World, m: Message, fault: Fault)
    requires Outbound.Inv(w)
    ensures Replay.Rely(w.journal, Outbound.Step(w, Outbound.InboundSave(m, fault)).journal)
  {
    hide Save, Storable, Outbound.Inv, Outbound.SendStep, Outbound.BootStep;
    InvValid(w);
    var s := w.journal;
    if w.task.Idle? && m.direction == Inbound && m.status in {Partial, Received, Unsupported} {
      if m.id == 0 {
        SaveKeepsValid(s, m, fault);
        SaveMarks(s, m, fault);
        NewRecordEffect(s, m, fault);
      } else if m.id in s.records && s.records[m.id].status == Partial && m.status == Partial {
        SaveKeepsValid(s, m, fault);
        SaveMarks(s, m, fault);
        Inbound.ExistingOnly(s, m, fault);
      }
    } else {
      BootSendQuiet(w, m, fault);
    }
  }

  lemma BootSendQuiet(w: Outbound.World, m: Message, fault: Fault)
    requires !(w.task.Idle? && m.direction == Inbound && m.status in {Partial, Received, Unsupported})
    ensures Outbound.Step(w, Outbound.InboundSave(m, fault)).journal == w.journal
  {
  }

  /** Every step of the gateway is one the replay machine allows for. */
  lemma GatewayIsRely(w: Outbound.World, e: Outbound.Event)
    requires Outbound.Inv(w) && !e.SetWatermark?
    ensures Replay.Rely(w.journal, Outbound.Step(w, e).journal)
  {
    hide Outbound.Inv, Outbound.Step, Valid;
    if e.InboundSave? {
      InboundSaveRely(w, e.m, e.fault);
    } else {
      StepSame(w, e);
    }
  }

  /**
   * While protection is on, a received message leaves the journal only if a call deletes it or
   * after the broker acknowledged it.
   */
  lemma ReceivedLeavesOnlyAcknowledged(w: Outbound.World, r: Replay.World, e: Outbound.Event, id: nat)
    requires Outbound.Inv(w) && Replay.Inv(r) && r.journal == w.journal && w.journal.protect
    requires Replay.IsReceived(w.journal, id) && id !in Outbound.Step(w, e).journal.records
    ensures (e.DeleteCall? && e.id == id) || id in r.acked
  {
    hide Outbound.Inv, Outbound.Step, Replay.Gap, Replay.WorkerOk;
    Outbound.RemovedOnlyWhenAskedOrPrunable(w, e, id);
    Outbound.RecordFacts(w, id);
  }

  // ----- filing an SMS-DELIVER as steps of the gateway -----

  ghost predicate InboundEvents(es: seq<Outbound.Event>) {
    forall i :: 0 <= i < |es| ==> es[i].InboundSave? || es[i].InboundDelete?
  }

  lemma RunOne(w: Outbound.World, e: Outbound.Event)
    ensures Outbound.Run(w, [e]) == Outbound.Step(w, e)
  {
    hide Outbound.Step;
    assert [e][1..] == [];
  }

  lemma SaveIsStep(w: Outbound.World, m: Message, fault: Fault)
    requires w.task.Idle? && m.direction == Inbound && m.status in {Partial, Received, Unsupported}
    requires m.id == 0 || (m.id in w.journal.records && w.journal.records[m.id].direction == Inbound
                           && w.journal.records[m.id].status == Partial && m.status == Partial)
    ensures Outbound.Run(w, [Outbound.InboundSave(m, fault)]) == w.(journal := Save(w.journal, m, fault).state)
  {
    hide Outbound.Run, Save;
    RunOne(w, Outbound.InboundSave(m, fault));
  }

  lemma DeleteIsStep(w: Outbound.World, id: nat, fault: Fault)
    requires w.task.Idle? && (id in w.journal.records ==> Reassembly.StoredPart(w.journal.records[id]))
    ensures Outbound.Run(w, [Outbound.InboundDelete(id, fault)]) == w.(journal := Delete(w.journal, id, fault).state)
  {
    hide Outbound.Run;
    RunOne(w, Outbound.InboundDelete(id, fault));
  }

  lemma {:induction false} DeleteAllIsRun(w: Outbound.World, ids: seq<nat>, faults: nat -> Fault) returns (es: seq<Outbound.Event>)
    requires w.task.Idle? && Inbound.InboundInv(w.journal)
    requires forall i :: 0 <= i < |ids| && ids[i] in w.journal.records ==> Reassembly.StoredPart(w.journal.records[ids[i]])
    ensures InboundEvents(es) && Outbound.Run(w, es) == w.(journal := Reassembly.DeleteAll(w.journal, ids, faults))
    decreases |ids|
  {
    hide Outbound.Run, Delete, Inbound.InboundInv;
    if ids == [] {
      es := [];
      RunNone(w);
    } else {
      var n := |ids| - 1;
      var before := DeleteAllIsRun(w, ids[..n], faults);
      Reassembly.DeleteAllEffect(w.journal, ids[..n], faults);
      var w1 := Outbound.Run(w, before);
      DeleteIsStep(w1, ids[n], faults(n));
      es := before + [Outbound.InboundDelete(ids[n], faults(n))];
      Outbound.RunConcat(w, before, [Outbound.InboundDelete(ids[n], faults(n))]);
    }
  }

  lemma RunNone(w: Outbound.World)
    ensures Outbound.Run(w, []) == w
  {
  }

  lemma SaveOnceIsRun(w: Outbound.World, m: Message, identity: Reassembly.Trouble, fault: Fault) returns (es: seq<Outbound.Event>)
    requires w.task.Idle? && m.id == 0 && m.direction == Inbound && m.status == Received
    ensures InboundEvents(es) && Outbound.Run(w, es) == w.(journal := Reassembly.SaveOnce(w.journal, m, identity, fault).state)
  {
    hide Outbound.Run, Save, Inbound.Known;
    if identity == Ok && !Inbound.Known(w.journal, m) {
      SaveIsStep(w, m, fault);
      es := [Outbound.InboundSave(m, fault)];
    } else {
      RunNone(w);
      es := [];
    }
  }

  lemma FilePartIsRun(w: Outbound.World, d: Inbound.Deliver, env: Reassembly.Env) returns (es: seq<Outbound.Event>)
    requires w.task.Idle? && Valid(w.journal) && d.concat.present
    ensures InboundEvents(es) && Outbound.Run(w, es) == w.(journal := Reassembly.FilePart(w.journal, d, env).state)
  {
    hide Outbound.Run, Save, Inbound.HasPart;
    RunNone(w);
    es := [];
    var s := w.journal;
    if env.lookup == Ok {
      if !Inbound.HasPart(s, Inbound.KeyOf(d), d.concat.part) {
        SaveIsStep(w, Inbound.PartialRecord(d), env.save);
        es := [Outbound.InboundSave(Inbound.PartialRecord(d), env.save)];
      } else {
        var known := Reassembly.Part(s, Inbound.KeyOf(d), d.concat.part);
        if known.text != d.text {
          SaveIsStep(w, Inbound.Rewritten(known, d), env.save);
          es := [Outbound.InboundSave(Inbound.Rewritten(known, d), env.save)];
        }
      }
    }
  }

  lemma AssembleIsRun(w: Outbound.World, d: Inbound.Deliver, env: Reassembly.Env) returns (es: seq<Outbound.Event>)
    requires w.task.Idle? && Inbound.InboundInv(w.journal) && Inbound.WellDecoded(d) && d.concat.present
    ensures InboundEvents(es) && Outbound.Run(w, es) == w.(journal := Reassembly.Assemble(w.journal, d, env).state)
  {
    hide Outbound.Run, Reassembly.SaveOnce, Reassembly.Gather, Reassembly.DeleteAll, Inbound.InboundInv, Inbound.Known;
    var s, total := w.journal, d.concat.total;
    if Reassembly.Gather(s, Inbound.KeyOf(d), total, env.gather) != Ok {
      RunNone(w);
      es := [];
      return;
    }
    var m := Reassembly.Whole(s, d);
    var saved := Reassembly.SaveOnce(s, m, env.identity, env.assembled);
    Reassembly.SaveOnceKeeps(s, m, env.identity, env.assembled);
    es := SaveOnceIsRun(w, m, env.identity, env.assembled);
    if saved.err == Ok {
      var ids := Reassembly.PartIds(s, Inbound.KeyOf(d), total);
      var w1 := w.(journal := saved.state);
      forall i | 0 <= i < |ids| && ids[i] in saved.state.records ensures Reassembly.StoredPart(saved.state.records[ids[i]]) {
        assert Inbound.IsPartOf(Reassembly.Part(s, Inbound.KeyOf(d), i + 1), Inbound.KeyOf(d), i + 1);
      }
      var more := DeleteAllIsRun(w1, ids, env.deletes);
      Outbound.RunConcat(w, es, more);
      es := es + more;
    }
  }

  /** Filing a message is a run of inbound saves and deletions, so the sending side's promises hold across it. */
  lemma PersistIsRun(w: Outbound.World, d: Inbound.Deliver, env: Reassembly.Env) returns (es: seq<Outbound.Event>)
    requires w.task.Idle? && Inbound.InboundInv(w.journal) && Inbound.WellDecoded(d)
    ensures InboundEvents(es) && Outbound.Run(w, es) == w.(journal := Reassembly.Persist(w.journal, d, env).state)
  {
    hide Outbound.Run, Reassembly.SaveOnce, Reassembly.FilePart, Reassembly.Assemble, Inbound.InboundInv;
    if !d.concat.present {
      es := SaveOnceIsRun(w, Inbound.ReceivedRecord(d), env.identity, env.save);
    } else {
      Inbound.InvValid(w.journal);
      es := FilePartIsRun(w, d, env);
      Reassembly.FilePartKeeps(w.journal, d, env);
      var filed := Reassembly.FilePart(w.journal, d, env);
      if filed.err == Ok && Reassembly.Assemble(filed.state, d, env).err != NotFound {
        var more := AssembleIsRun(w.(journal := filed.state), d, env);
        Outbound.RunConcat(w, es, more);
        es := es + more;
      }
    }
  }

  lemma KeepRawIsRun(w: Outbound.World, sender: seq<byte>, timestamp: seq<byte>, pdu: seq<byte>, lookup: Reassembly.Trouble, fault: Fault)
    returns (es: seq<Outbound.Event>)
    requires w.task.Idle?
    ensures InboundEvents(es) && Outbound.Run(w, es) == w.(journal := Reassembly.KeepRaw(w.journal, sender, timestamp, pdu, lookup, fault).state)
  {
    hide Outbound.Run, Save, Inbound.RawIds;
    RunNone(w);
    es := [];
    if lookup == Ok && Inbound.RawIds(w.journal, pdu) == {} {
      var m := Inbound.BinaryRecord(sender, timestamp, pdu);
      SaveIsStep(w, m, fault);
      es := [Outbound.InboundSave(m, fault)];
    }
  }

  /** What process_deliver_pdu does to the journal. */
  ghost function Arrived(s: State, pdu: seq<byte>, env: Reassembly.Env): State {
    match DeliverPdu.IncomingOf(pdu)
    case Undecodable => s
    case Binary(sender, timestamp) => Reassembly.KeepRaw(s, sender, timestamp, pdu, env.lookup, env.save).state
    case Text(d) =>
      DeliverPdu.TextIsWellDecoded(pdu);
      Reassembly.Persist(s, d, env).state
  }

  /** Whatever arrives, what is done about it is a run of inbound saves and deletions. */
  lemma ArrivalIsRun(w: Outbound.World, pdu: seq<byte>, env: Reassembly.Env) returns (es: seq<Outbound.Event>)
    requires w.task.Idle? && Inbound.InboundInv(w.journal)
    ensures InboundEvents(es) && Outbound.Run(w, es) == w.(journal := Arrived(w.journal, pdu, env))
    ensures Inbound.InboundInv(Arrived(w.journal, pdu, env))
  {
    hide Outbound.Run, Inbound.InboundInv, Reassembly.Persist, Reassembly.KeepRaw, DeliverPdu.IncomingOf, Reassembly.ReceivedKept, Reassembly.Holds;
    match DeliverPdu.IncomingOf(pdu)
    case Undecodable =>
      RunNone(w);
      es := [];
    case Binary(sender, timestamp) =>
      es := KeepRawIsRun(w, sender, timestamp, pdu, env.lookup, env.save);
      Reassembly.RawKeptOnce(w.journal, sender, timestamp, pdu, env.lookup, env.save);
    case Text(d) =>
      DeliverPdu.TextIsWellDecoded(pdu);
      es := PersistIsRun(w, d, env);
      Reassembly.NothingLost(w.journal, d, env);
  }

  // ----- whole histories -----

  /** What can happen to the gateway: a step of the sending side or of its callers, or an SMS-DELIVER. */
  datatype Happening = Sending(e: Outbound.Event) | Arrival(pdu: seq<byte>, env: Reassembly.Env)

  ghost function Happen(w: Outbound.World, h: Happening): Outbound.World {
    match h
    case Sending(e) => if e.InboundSave? then w else Outbound.Step(w, e)
    case Arrival(pdu, env) => if w.task.Idle? then w.(journal := Arrived(w.journal, pdu, env)) else w
  }

  ghost function History(w: Outbound.World, hs: seq<Happening>): Outbound.World
    decreases |hs|
  {
    if hs == [] then w else History(Happen(w, hs[0]), hs[1..])
  }

  lemma HappenKeeps(w: Outbound.World, h: Happening)
    requires Outbound.Inv(w) && Inbound.InboundInv(w.journal)
    ensures Outbound.Inv(Happen(w, h)) && Inbound.InboundInv(Happen(w, h).journal)
  {
    hide Outbound.Inv, Inbound.InboundInv, Outbound.Step, Arrived;
    match h
    case Sending(e) =>
      if !e.InboundSave? {
        Outbound.StepKeeps(w, e);
        SendingKeepsInbound(w, e);
      }
    case Arrival(pdu, env) =>
      if w.task.Idle? {
        var es := ArrivalIsRun(w, pdu, env);
        Outbound.RunKeeps(w, es);
      }
  }

  lemma {:induction false} HistoryKeeps(w: Outbound.World, hs: seq<Happening>)
    requires Outbound.Inv(w) && Inbound.InboundInv(w.journal)
    ensures Outbound.Inv(History(w, hs)) && Inbound.InboundInv(History(w, hs).journal)
    decreases |hs|
  {
    hide Outbound.Inv, Inbound.InboundInv, Happen;
    if hs != [] {
      HappenKeeps(w, hs[0]);
      HistoryKeeps(Happen(w, hs[0]), hs[1..]);
    }
  }

  /**
   * Over every history of a new gateway: no segment is handed over more often than once per
   * decision to send, no two received messages share an identity, and no part or raw PDU is stored twice.
   */
  lemma GatewayPromises(w: Outbound.World, hs: seq<Happening>, id: nat, segment: nat, a: nat, b: nat)
    requires Outbound.Fresh(w)
    ensures var w' := History(w, hs);
      && w'.submitted[(id, segment)] <= 1 + w'.retried[id]
      && (a in w'.journal.records && b in w'.journal.records && a != b ==>
            Inbound.Apart(w'.journal.records[a], w'.journal.records[b]))
      && (a in w'.journal.records ==> Inbound.PartOk(w'.journal.records[a]))
  {
    hide Happen, Inbound.Apart, Inbound.PartOk;
    Outbound.FreshIsFine(w);
    EmptyIsFine(w.journal);
    HistoryKeeps(w, hs);
    assert Outbound.IdOk(History(w, hs), id);
  }

  lemma EmptyIsFine(s: State)
    requires s.records == map[] && s.nextId == 1
    ensures Inbound.InboundInv(s)
  {
  }
}
