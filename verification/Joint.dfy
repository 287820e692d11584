/**
 * The sending and receiving machine and the replay machine over one journal: every step of
 * either, in any order, with power losses that hit both.
 */
module Joint {
  import opened Journal
  import Outbound
  import Replay
  import Gateway

  /**
   * gateway and replay share the journal. seen: ids that were received messages; deleted: received
   * messages that a delete call removed; exposed: those that left while protection was off.
   */
  datatype World = World(gateway: Outbound.World, replay: Replay.World, seen: set<nat>, deleted: set<nat>, exposed: set<nat>)

  datatype Event = GatewayStep(e: Outbound.Event) | ReplayStep(r: Replay.Event) | PowerLoss

  function ReceivedIds(s: State): set<nat> {
    set id | id in s.records && Replay.ToPublish(s.records[id])
  }

  /** Watermarks come from the replay side, and power is lost by both. */
  predicate GatewayAlone(e: Outbound.Event) {
    !e.SetWatermark? && !e.PowerLoss?
  }

  predicate ReplayAlone(e: Replay.Event) {
    !e.Others? && !e.PowerLoss?
  }

  ghost function Step(w: World, e: Event): World {
    match e
    case GatewayStep(g) =>
      if !GatewayAlone(g) then w
      else
        var g' := Outbound.Step(w.gateway, g);
        var s, s' := w.gateway.journal, g'.journal;
        World(g', Replay.Step(w.replay, Replay.Others(s')), w.seen + ReceivedIds(s'),
              if g.DeleteCall? then w.deleted + {g.id} * (ReceivedIds(s) - ReceivedIds(s')) else w.deleted,
              if s.protect then w.exposed else w.exposed + (ReceivedIds(s) - ReceivedIds(s')))
    case ReplayStep(r) =>
      if !ReplayAlone(r) then w
      else
        var r' := Replay.Step(w.replay, r);
        w.(replay := r', gateway := w.gateway.(journal := r'.journal))
    case PowerLoss =>
      var r' := Replay.Step(w.replay, Replay.PowerLoss);
      w.(replay := r', gateway := Outbound.Step(w.gateway, Outbound.PowerLoss).(journal := r'.journal))
  }

  ghost function Run(w: World, es: seq<Event>): World
    decreases |es|
  {
    if es == [] then w else Run(Step(w, es[0]), es[1..])
  }

  /** Every message that was ever received is there, was deleted by a call, acknowledged, or lost while unprotected. */
  ghost predicate Accounted(w: World) {
    w.seen <= ReceivedIds(w.gateway.journal) + w.deleted + w.replay.acked + w.exposed
  }

  ghost predicate Inv(w: World) {
    && Outbound.Inv(w.gateway) && Replay.Inv(w.replay) && w.gateway.journal == w.replay.journal
    && Accounted(w) && ReceivedIds(w.gateway.journal) <= w.seen
  }

  ghost predicate Fresh(w: World) {
    && Outbound.Fresh(w.gateway) && Replay.Fresh(w.replay) && w.gateway.journal == w.replay.journal
    && w.seen == w.deleted == w.exposed == {}
  }

  lemma FreshIsFine(w: World)
    requires Fresh(w)
    ensures Inv(w)
  {
    hide Outbound.Inv, Replay.Inv;
    Outbound.FreshIsFine(w.gateway);
    Replay.FreshIsFine(w.replay);
  }

  /** A received message that stays in the journal stays a received message. */
  lemma ReceivedStays(g: Outbound.World, e: Outbound.Event, id: nat)
    requires Outbound.Inv(g) && id in ReceivedIds(g.journal) && id in Outbound.Step(g, e).journal.records
    ensures id in ReceivedIds(Outbound.Step(g, e).journal)
  {
    hide Outbound.Inv, Outbound.Step;
    if e.InboundSave? {
      InboundSaveLeaves(g, e.m, e.fault, id);
    } else {
      Gateway.StepSame(g, e);
      Outbound.StepEvolves(g, e, id);
    }
  }

  lemma InboundSaveLeaves(g: Outbound.World, m: Message, fault: Fault, id: nat)
    requires Outbound.Inv(g) && id in ReceivedIds(g.journal) && id in Outbound.Step(g, Outbound.InboundSave(m, fault)).journal.records
    ensures Outbound.Step(g, Outbound.InboundSave(m, fault)).journal.records[id] == g.journal.records[id]
  {
    hide Outbound.Inv, Save, Storable, Outbound.SendStep, Outbound.BootStep;
    Gateway.InvValid(g);
    if g.task.Idle? {
      if m.id == 0 { NewRecordEffect(g.journal, m, fault); } else { SaveExistingEffect(g.journal, m, fault); }
    } else {
      Gateway.BootSendQuiet(g, m, fault);
    }
  }

  lemma GatewayStepAccounts(w: World, g: Outbound.Event)
    requires Inv(w) && GatewayAlone(g)
    ensures Accounted(Step(w, GatewayStep(g)))
  {
    hide Outbound.Inv, Replay.Inv, Outbound.Step, ReceivedIds;
    var w' := Step(w, GatewayStep(g));
    RelyStep(w, g);
    forall id | id in w.seen && id in ReceivedIds(w.gateway.journal)
      ensures id in ReceivedIds(w'.gateway.journal) + w'.deleted + w'.replay.acked + w'.exposed
    {
      Leaves(w, g, id);
    }
  }

  /** Where a received message has gone after a step of the gateway. */
  lemma Leaves(w: World, g: Outbound.Event, id: nat)
    requires Inv(w) && GatewayAlone(g) && id in ReceivedIds(w.gateway.journal)
    ensures var w' := Step(w, GatewayStep(g));
      id in ReceivedIds(w'.gateway.journal) || id in w'.deleted || id in w'.exposed || id in w.replay.acked
  {
    hide Outbound.Inv, Replay.Inv, Outbound.Step;
    if id in Outbound.Step(w.gateway, g).journal.records {
      ReceivedStays(w.gateway, g, id);
    } else if w.gateway.journal.protect {
      Gateway.ReceivedLeavesOnlyAcknowledged(w.gateway, w.replay, g, id);
    }
  }

  /** The replay machine takes note of the new journal, and of nothing else. */
  lemma RelyStep(w: World, g: Outbound.Event)
    requires Inv(w) && GatewayAlone(g)
    ensures Replay.Step(w.replay, Replay.Others(Outbound.Step(w.gateway, g).journal))
         == w.replay.(journal := Outbound.Step(w.gateway, g).journal)
  {
    hide Outbound.Inv, Replay.Inv, Outbound.Step, Replay.Rely;
    Gateway.GatewayIsRely(w.gateway, g);
  }

  /** New marks change nothing the sending side relies on. */
  lemma MarksKeep(g: Outbound.World, s: State)
    requires Outbound.Inv(g) && s == g.journal.(protect := s.protect, watermark := s.watermark)
    ensures Outbound.Inv(g.(journal := s))
  {
    hide Outbound.Inv;
    Outbound.ApiKeeps(g, Outbound.SetWatermark(s.protect, s.watermark));
  }

  /** A step of the replay side changes marks only, and forgets no acknowledgement. */
  lemma ReplayLeavesRecords(r: Replay.World, e: Replay.Event)
    requires !e.Others?
    ensures var r' := Replay.Step(r, e);
      r'.journal == r.journal.(protect := r'.journal.protect, watermark := r'.journal.watermark) && r.acked <= r'.acked
  {
    hide Min, Above, Replay.ToPublish;
  }

  lemma StepKeeps(w: World, e: Event)
    requires Inv(w)
    ensures Inv(Step(w, e))
  {
    hide Outbound.Inv, Replay.Inv, Outbound.Step, Replay.Step, ReceivedIds;
    match e
    case GatewayStep(g) =>
      if GatewayAlone(g) {
        Outbound.StepKeeps(w.gateway, g);
        Replay.StepKeeps(w.replay, Replay.Others(Outbound.Step(w.gateway, g).journal));
        RelyStep(w, g);
        GatewayStepAccounts(w, g);
      }
    case ReplayStep(r) =>
      if ReplayAlone(r) { ReplayKeeps(w, r); }
    case PowerLoss =>
      PowerKeeps(w);
  }

  lemma ReplayKeeps(w: World, r: Replay.Event)
    requires Inv(w) && ReplayAlone(r)
    ensures Inv(Step(w, ReplayStep(r)))
  {
    hide Outbound.Inv, Replay.Inv, Replay.Step;
    Replay.StepKeeps(w.replay, r);
    ReplayLeavesRecords(w.replay, r);
    MarksKeep(w.gateway, Replay.Step(w.replay, r).journal);
  }

  lemma PowerKeeps(w: World)
    requires Inv(w)
    ensures Inv(Step(w, PowerLoss))
  {
    hide Outbound.Inv, Replay.Inv, Replay.Step;
    Replay.StepKeeps(w.replay, Replay.PowerLoss);
    ReplayLeavesRecords(w.replay, Replay.PowerLoss);
    Outbound.StepKeeps(w.gateway, Outbound.PowerLoss);
    MarksKeep(Outbound.Step(w.gateway, Outbound.PowerLoss), Replay.Step(w.replay, Replay.PowerLoss).journal);
  }

  lemma {:induction false} RunKeeps(w: World, es: seq<Event>)
    requires Inv(w)
    ensures Inv(Run(w, es))
    decreases |es|
  {
    hide Inv, Step;
    if es != [] {
      StepKeeps(w, es[0]);
      RunKeeps(Step(w, es[0]), es[1..]);
    }
  }

  /**
   * Over every joint run: a message that was received and is no longer in the journal was deleted by
   * a call, was acknowledged by the broker, or left while protection was off.
   */
  lemma ReceivedIsNeverLostUnacknowledged(w: World, es: seq<Event>, id: nat)
    requires Fresh(w)
    ensures var w' := Run(w, es);
      id in w'.seen && id !in ReceivedIds(w'.gateway.journal) ==> id in w'.deleted || id in w'.replay.acked || id in w'.exposed
    ensures var w' := Run(w, es); Outbound.Inv(w'.gateway) && Replay.Inv(w'.replay) && w'.gateway.journal == w'.replay.journal
  {
    hide Step, Outbound.Inv, Replay.Inv, ReceivedIds;
    FreshIsFine(w);
    RunKeeps(w, es);
  }

  // ----- while protection stays on -----

  predicate KeepsProtection(e: Event) {
    !(e.ReplayStep? && e.r.Reconfigure? && !e.r.enabled)
  }

  lemma ProtectionStays(w: World, e: Event)
    requires Inv(w) && w.gateway.journal.protect && w.exposed == {} && KeepsProtection(e)
    ensures Step(w, e).gateway.journal.protect && Step(w, e).exposed == {}
  {
    hide Outbound.Inv, Replay.Inv, Outbound.Step, ReceivedIds, Min, Above, Replay.ToPublish;
    match e
    case GatewayStep(g) =>
      if GatewayAlone(g) { Gateway.GatewayIsRely(w.gateway, g); }
    case ReplayStep(r) =>
    case PowerLoss =>
  }

  lemma {:induction false} NothingIsExposed(w: World, es: seq<Event>)
    requires Inv(w) && w.gateway.journal.protect && w.exposed == {}
    requires forall i :: 0 <= i < |es| ==> KeepsProtection(es[i])
    ensures Run(w, es).exposed == {}
    decreases |es|
  {
    hide Inv, Step;
    if es != [] {
      StepKeeps(w, es[0]);
      ProtectionStays(w, es[0]);
      NothingIsExposed(Step(w, es[0]), es[1..]);
    }
  }

  /** As long as MQTT is not switched off, a received message leaves only by a delete call or acknowledged. */
  lemma ProtectedIsNeverLost(w: World, es: seq<Event>, id: nat)
    requires Fresh(w) && forall i :: 0 <= i < |es| ==> KeepsProtection(es[i])
    ensures var w' := Run(w, es);
      id in w'.seen && id !in ReceivedIds(w'.gateway.journal) ==> id in w'.deleted || id in w'.replay.acked
  {
    hide Step, Outbound.Inv, Replay.Inv, ReceivedIds, Run;
    FreshIsFine(w);
    ReceivedIsNeverLostUnacknowledged(w, es, id);
    NothingIsExposed(w, es);
  }
}
