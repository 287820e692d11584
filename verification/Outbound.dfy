/**
 * The outbound half of sms_service.c as a state machine. The service task is a program
 * counter with the record it holds in RAM; every durable write, every hand-over to the modem,
 * every API call, a power loss and a reboot are separate steps, so runs interleave them freely.
 */
module Outbound {
  import opened Bytes
  import opened Journal

  /** Where the service task is, and the record it works on. */
  datatype Task =
    | Off
    | Booting(after: nat)
    | Idle
    | Working(m: Message, next: nat)
    | Marked(m: Message, segment: nat)
    | Submitted(m: Message, segment: nat)

  /** submitted: how often each segment was handed to the modem; retried: operator retries that took effect. */
  datatype World = World(journal: State, task: Task, submitted: multiset<(nat, nat)>, retried: multiset<nat>)

  datatype Event =
    | Enqueue(m: Message, fault: Fault)
    | DeleteCall(id: nat, fault: Fault)
    | RetryCall(id: nat, fault: Fault)
    | InboundSave(m: Message, fault: Fault)
    | InboundDelete(id: nat, fault: Fault)
    | SetWatermark(protect: bool, watermark: nat)
    | Report(recipient: seq<byte>, reference: byte, status: byte, fault: Fault)
    | Pick(encodes: bool, fault: Fault)
    | SkipSent
    | MarkSending(fault: Fault)
    | NoMemory(fault: Fault)
    | Refuse(fault: Fault)
    | Submit
    | Doubt(fault: Fault)
    | Confirm(reference: byte, fault: Fault)
    | Finish(fault: Fault)
    | PowerLoss
    | Boot
    | BootMark(fault: Fault)
    | BootListFails

  function Upto(n: nat): (r: set<nat>)
    ensures forall i: nat :: i in r <==> i < n
  {
    if n == 0 then {} else Upto(n - 1) + {n - 1}
  }

  function AllSegments(m: Message): set<nat> {
    Upto(m.segmentCount)
  }

  /** What sms_service_send stores. */
  predicate FreshOutbound(m: Message) {
    && m.id == 0 && m.direction == Outbound && m.status == Queued && 1 <= m.segmentCount <= MAX_SEGMENTS
    && m.sent == {} && m.delivered == {} && m.failed == {} && m.modemReference == map[] && m.inflight == 0 && m.attempts == 0
    && m.reference < 0x10000
  }

  /** The record after a delivery report for one of its segments. */
  function Reported(m: Message, segment: nat, status: byte): Message {
    var delivered := if status < 0x20 then m.delivered + {segment} else m.delivered;
    var failed := if status >= 0x40 then m.failed + {segment} else m.failed;
    var m1 := m.(delivered := delivered, failed := failed);
    if AllSegments(m) <= delivered then m1.(status := Delivered)
    else if failed * AllSegments(m) != {} then m1.(status := Failed)
    else m1
  }

  function MarkedSending(m: Message, segment: nat): Message {
    m.(status := Sending, inflight := segment + 1, attempts := (m.attempts + 1) % 256)
  }

  function Confirmed(m: Message, segment: nat, reference: byte): Message {
    m.(sent := m.sent + {segment}, modemReference := m.modemReference[segment := reference], inflight := 0)
  }

  ghost function Saved(w: World, m: Message, fault: Fault, task: Task): World {
    w.(journal := Save(w.journal, m, fault).state, task := task)
  }

  /** Steps of the API, of the inbound half and of the MQTT service; they interleave with sending. */
  ghost function ApiStep(w: World, e: Event): World {
    var s := w.journal;
    match e
    case Enqueue(m, fault) =>
      if FreshOutbound(m) then Saved(w, m, fault, w.task) else w
    case DeleteCall(id, fault) =>
      if id !in s.records || (s.records[id].direction == Outbound && s.records[id].status in {Queued, Sending}) then w
      else w.(journal := Delete(s, id, fault).state)
    case RetryCall(id, fault) =>
      if id !in s.records || s.records[id].direction != Outbound || s.records[id].status != Uncertain then w
      else
        var w' := Saved(w, s.records[id].(status := Queued, inflight := 0), fault, w.task);
        if w'.journal == s then w' else w'.(retried := w.retried + multiset{id})
    case SetWatermark(protect, watermark) => w.(journal := s.(protect := protect, watermark := watermark))
    case _ => w
  }

  /** Steps the service task takes between two sends. */
  ghost function IdleStep(w: World, e: Event): World
    requires w.task.Idle?
  {
    var s := w.journal;
    match e
    case InboundSave(m, fault) =>
      if m.direction == Inbound && m.status in {Partial, Received, Unsupported}
         && (m.id == 0 || (m.id in s.records && s.records[m.id].direction == Inbound
                           && s.records[m.id].status == Partial && m.status == Partial))
      then Saved(w, m, fault, Idle) else w
    case InboundDelete(id, fault) =>
      if id in s.records && s.records[id].direction == Inbound && s.records[id].status == Partial
      then w.(journal := Delete(s, id, fault).state) else w
    case Report(recipient, reference, status, fault) =>
      if ReferencingIds(s, recipient, reference) == {} then w
      else
        var m := s.records[Max(ReferencingIds(s, recipient, reference))];
        Saved(w, Reported(m, FirstSegment(m, reference).value, status), fault, Idle)
    case Pick(encodes, fault) =>
      if IdsWith(s, Queued) == {} then w
      else
        var m := s.records[Min(IdsWith(s, Queued))];
        if encodes then w.(task := Working(m, 0)) else Saved(w, m.(status := Failed), fault, Idle)
    case _ => w
  }

  /** Steps of the service task inside process_one_outbound and send_segment. */
  ghost function SendStep(w: World, e: Event): World {
    match (w.task, e)
    case (Working(m, k), SkipSent) =>
      if k < m.segmentCount && k in m.sent then w.(task := Working(m, k + 1)) else w
    case (Working(m, k), MarkSending(fault)) =>
      if k >= m.segmentCount || k in m.sent then w
      else
        var m' := MarkedSending(m, k);
        Saved(w, m', fault, if Save(w.journal, m', fault).err.Ok? then Marked(m', k) else Idle)
    case (Working(m, k), Finish(fault)) =>
      if k < m.segmentCount then w
      else if AllSegments(m) <= m.sent then Saved(w, m.(status := Sent, inflight := 0), fault, Idle)
      else w.(task := Idle)
    case (Marked(m, k), NoMemory(fault)) => Saved(w, m.(status := Queued, inflight := 0), fault, Idle)
    case (Marked(m, k), Refuse(fault)) => Saved(w, m.(status := Uncertain), fault, Idle)
    case (Marked(m, k), Submit) =>
      w.(task := Submitted(m, k), submitted := w.submitted + multiset{(m.id, k)})
    case (Submitted(m, k), Doubt(fault)) => Saved(w, m.(status := Uncertain), fault, Idle)
    case (Submitted(m, k), Confirm(reference, fault)) =>
      var m' := Confirmed(m, k, reference);
      Saved(w, m', fault, if Save(w.journal, m', fault).err.Ok? then Working(m', k + 1) else Idle)
    case _ => w
  }

  /** mark_interrupted_sends_uncertain, one record per step. */
  ghost function BootStep(w: World, e: Event): World
    requires w.task.Booting?
  {
    var s := w.journal;
    match e
    case BootMark(fault) =>
      if Above(s, w.task.after) == {} then w.(task := Idle)
      else
        var id := Min(Above(s, w.task.after));
        var m := s.records[id];
        if m.direction == Outbound && m.status == Sending
        then Saved(w, m.(status := Uncertain), fault, Booting(id)) else w.(task := Booting(id))
    case BootListFails => w.(task := Idle)
    case _ => w
  }

  /** One step; an event that the state does not allow changes nothing. */
  ghost function Step(w: World, e: Event): World {
    if e.PowerLoss? then w.(task := Off)
    else if e.SetWatermark? then ApiStep(w, e)
    else if w.task.Off? then (if e.Boot? then w.(task := Booting(0)) else w)
    else if e.Enqueue? || e.DeleteCall? || e.RetryCall? then ApiStep(w, e)
    else if w.task.Idle? then IdleStep(w, e)
    else if w.task.Booting? then BootStep(w, e)
    else SendStep(w, e)
  }

  ghost function Run(w: World, es: seq<Event>): World
    decreases |es|
  {
    if es == [] then w else Run(Step(w, es[0]), es[1..])
  }

  /** A gateway that was never used. */
  ghost predicate Fresh(w: World) {
    w.journal.records == map[] && w.journal.nextId == 1 && w.task.Off? && w.submitted == multiset{} && w.retried == multiset{}
  }

  // ----- the invariant -----

  ghost predicate RecordOk(m: Message) {
    if m.direction == Inbound then m.status in {Partial, Received, Unsupported}
    else
      && 1 <= m.segmentCount <= MAX_SEGMENTS && m.reference < 0x10000
      && m.status in {Queued, Sending, Sent, Delivered, Failed, Uncertain}
      && m.sent <= AllSegments(m) && m.delivered <= m.sent && m.failed <= m.sent && m.modemReference.Keys == m.sent
      && (m.status == Sent ==> m.sent == AllSegments(m))
      && (m.status == Delivered ==> m.delivered == AllSegments(m))
  }

  predicate Holding(t: Task) {
    t.Working? || t.Marked? || t.Submitted?
  }

  /** The record in RAM is the one in flash, and its progress matches the program counter. */
  ghost predicate TaskOk(w: World) {
    Holding(w.task) ==>
      var m := w.task.m;
      && m.id in w.journal.records && w.journal.records[m.id] == m && m.direction == Outbound
      && (w.task.Working? ==> m.status in {Queued, Sending} && forall i :: 0 <= i < w.task.next && i < m.segmentCount ==> i in m.sent)
      && (!w.task.Working? ==> m.status == Sending && w.task.segment < m.segmentCount && w.task.segment !in m.sent)
      && (!w.task.Working? ==> forall i :: 0 <= i < w.task.segment ==> i in m.sent)
  }

  /** Segment i of the record may still be handed over without a further operator decision. */
  ghost predicate Sendable(w: World, id: nat, i: nat) {
    && id in w.journal.records && i !in w.journal.records[id].sent
    && (w.journal.records[id].status == Queued || (Holding(w.task) && w.task.m.id == id))
    && !(w.task.Submitted? && w.task.m.id == id && w.task.segment == i)
  }

  ghost predicate IdOk(w: World, id: nat) {
    && (id in w.journal.records ==> RecordOk(w.journal.records[id]))
    && (forall i: nat :: w.submitted[(id, i)] <= 1 + w.retried[id])
    && (forall i: nat :: Sendable(w, id, i) ==> w.submitted[(id, i)] <= w.retried[id])
    && (id >= w.journal.nextId ==> w.retried[id] == 0 && forall i: nat :: w.submitted[(id, i)] == 0)
  }

  ghost predicate Inv(w: World) {
    Valid(w.journal) && TaskOk(w) && forall id: nat :: IdOk(w, id)
  }

  /** Nothing the invariant says about id has changed, or the record is gone. */
  ghost predicate SameAt(w: World, w': World, id: nat) {
    && (id in w'.journal.records ==> id in w.journal.records && w'.journal.records[id] == w.journal.records[id])
    && (forall i: nat :: w'.submitted[(id, i)] == w.submitted[(id, i)])
    && w'.retried[id] == w.retried[id]
    && (forall i: nat :: Sendable(w', id, i) ==> Sendable(w, id, i))
    && w.journal.nextId <= w'.journal.nextId
  }

  lemma IdFrame(w: World, w': World, id: nat)
    requires IdOk(w, id) && SameAt(w, w', id)
    ensures IdOk(w', id)
  {
    hide Sendable, RecordOk;
  }

  /** Rewriting the record of one id, stored or not, and moving the program counter. */
  lemma RewriteKeeps(w: World, w': World, m: Message)
    requires Inv(w) && m.id in w.journal.records && Storable(m)
    requires w'.journal == w.journal || w'.journal == With(w.journal, m)
    requires Holding(w.task) && w.task.m.id != m.id ==> w'.task == w.task
    requires Holding(w'.task) && w'.task.m.id != m.id ==> w'.task == w.task
    requires forall id: nat, i: nat :: id != m.id ==> w'.submitted[(id, i)] == w.submitted[(id, i)]
    requires forall id: nat :: id != m.id ==> w'.retried[id] == w.retried[id]
    requires TaskOk(w') && IdOk(w', m.id)
    ensures Inv(w')
  {
    hide RecordOk, Storable, TaskOk;
    WithSize(w.journal, m);
    forall id: nat ensures IdOk(w', id) {
      if id != m.id {
        assert SameAt(w, w', id);
        IdFrame(w, w', id);
      }
    }
  }

  lemma SaveOutcome(s: State, m: Message, fault: Fault)
    requires Valid(s) && m.id in s.records
    ensures Save(s, m, fault).state == s || (Save(s, m, fault).state == With(s, m) && Storable(m))
    ensures Save(s, m, fault).err.Ok? ==> Save(s, m, fault).state == With(s, m) && Storable(m)
  {
    hide Storable;
  }

  // ----- every step keeps the invariant -----

  lemma MarkKeeps(w: World, fault: Fault)
    requires Inv(w) && w.task.Working? && w.task.next < w.task.m.segmentCount && w.task.next !in w.task.m.sent
    ensures Inv(SendStep(w, MarkSending(fault)))
  {
    hide Save, Storable;
    var m, k := w.task.m, w.task.next;
    var m' := MarkedSending(m, k);
    var w' := SendStep(w, MarkSending(fault));
    SaveOutcome(w.journal, m', fault);
    assert IdOk(w, m.id);
    assert forall i: nat :: Sendable(w', m.id, i) ==> Sendable(w, m.id, i);
    assert Storable(m') by { StorableSame(m, m'); }
    RewriteKeeps(w, w', m');
  }

  lemma StorableSame(m: Message, m': Message)
    requires Storable(m)
    requires m'.text == m.text && m'.sender == m.sender && m'.recipient == m.recipient
    requires m'.timestamp == m.timestamp && m'.rawPdu == m.rawPdu && m'.segmentCount == m.segmentCount
    ensures Storable(m')
  {
  }

  lemma SettleKeeps(w: World, status: Status, fault: Fault)
    requires Inv(w) && Holding(w.task) && status in {Queued, Uncertain, Sent}
    requires status == Queued ==> w.task.Marked?
    requires status == Sent ==> w.task.m.sent == AllSegments(w.task.m)
    ensures Inv(Saved(w, w.task.m.(status := status, inflight := 0), fault, Idle))
    ensures Inv(Saved(w, w.task.m.(status := status), fault, Idle))
  {
    hide Save, Storable;
    var m := w.task.m;
    var a, b := m.(status := status, inflight := 0), m.(status := status);
    StorableSame(m, a);
    StorableSame(m, b);
    SaveOutcome(w.journal, a, fault);
    SaveOutcome(w.journal, b, fault);
    assert IdOk(w, m.id);
    var wa, wb := Saved(w, a, fault, Idle), Saved(w, b, fault, Idle);
    assert forall i: nat :: Sendable(wa, m.id, i) ==> Sendable(w, m.id, i);
    assert forall i: nat :: Sendable(wb, m.id, i) ==> Sendable(w, m.id, i);
    RewriteKeeps(w, wa, a);
    RewriteKeeps(w, wb, b);
  }

  lemma SubmitKeeps(w: World)
    requires Inv(w) && w.task.Marked?
    ensures Inv(SendStep(w, Submit))
  {
    var m, k := w.task.m, w.task.segment;
    var w' := SendStep(w, Submit);
    assert IdOk(w, m.id);
    assert Sendable(w, m.id, k);
    forall i: nat ensures w'.submitted[(m.id, i)] <= 1 + w'.retried[m.id] {
      if i == k { assert w.submitted[(m.id, k)] <= w.retried[m.id]; }
    }
    forall i: nat | Sendable(w', m.id, i) ensures w'.submitted[(m.id, i)] <= w'.retried[m.id] {
      assert i != k && Sendable(w, m.id, i);
    }
    assert IdOk(w', m.id);
    RewriteKeeps(w, w', m);
  }

  lemma ConfirmedOk(m: Message, k: nat, reference: byte)
    requires RecordOk(m) && m.direction == Outbound && m.status == Sending && k < m.segmentCount
    ensures RecordOk(Confirmed(m, k, reference))
  {
  }

  lemma ConfirmKeeps(w: World, reference: byte, fault: Fault)
    requires Inv(w) && w.task.Submitted?
    ensures Inv(SendStep(w, Confirm(reference, fault)))
  {
    hide Save, Storable, RecordOk;
    var m, k := w.task.m, w.task.segment;
    var m' := Confirmed(m, k, reference);
    var w' := SendStep(w, Confirm(reference, fault));
    SaveOutcome(w.journal, m', fault);
    assert IdOk(w, m.id);
    ConfirmedOk(m, k, reference);
    StorableSame(m, m');
    assert IdOk(w, m.id);
    assert forall i: nat :: Sendable(w', m.id, i) ==> Sendable(w, m.id, i);
    RewriteKeeps(w, w', m');
  }

  lemma SendKeeps(w: World, e: Event)
    requires Inv(w)
    ensures Inv(SendStep(w, e))
  {
    hide Inv, Saved, MarkedSending, Confirmed;
    match (w.task, e)
    case (Working(m, k), SkipSent) =>
      if k < m.segmentCount && k in m.sent { MoveKeeps(w, Working(m, k + 1)); }
    case (Working(m, k), MarkSending(fault)) =>
      if k < m.segmentCount && k !in m.sent { MarkKeeps(w, fault); }
    case (Working(m, k), Finish(fault)) =>
      if k >= m.segmentCount {
        HeldRecordOk(w);
        if AllSegments(m) <= m.sent { SettleKeeps(w, Sent, fault); } else { MoveKeeps(w, Idle); }
      }
    case (Marked(m, k), NoMemory(fault)) => SettleKeeps(w, Queued, fault);
    case (Marked(m, k), Refuse(fault)) => SettleKeeps(w, Uncertain, fault);
    case (Marked(m, k), Submit) => SubmitKeeps(w);
    case (Submitted(m, k), Doubt(fault)) => SettleKeeps(w, Uncertain, fault);
    case (Submitted(m, k), Confirm(reference, fault)) => ConfirmKeeps(w, reference, fault);
    case _ =>
  }

  lemma HeldRecordOk(w: World)
    requires Inv(w) && Holding(w.task)
    ensures RecordOk(w.task.m) && w.task.m.direction == Outbound && w.task.m.sent <= AllSegments(w.task.m)
  {
    assert IdOk(w, w.task.m.id);
  }

  /** Moving the program counter without touching the journal. */
  lemma MoveKeeps(w: World, task: Task)
    requires Inv(w)
    requires task.Off? || task.Booting? || task.Idle?
             || (w.task.Working? && w.task.next in w.task.m.sent && task == Working(w.task.m, w.task.next + 1))
    ensures Inv(w.(task := task))
  {
    hide RecordOk, Valid;
    var w' := w.(task := task);
    forall id: nat ensures IdOk(w', id) {
      assert forall i: nat :: Sendable(w', id, i) ==> Sendable(w, id, i);
      assert IdOk(w, id);
      assert SameAt(w, w', id);
      IdFrame(w, w', id);
    }
  }

  lemma NewRecordKeeps(w: World, m: Message, fault: Fault)
    requires Inv(w) && m.id == 0 && RecordOk(m)
    ensures Inv(Saved(w, m, fault, w.task))
  {
    hide Storable, Save, RecordOk, Sendable, TaskOk;
    var w' := Saved(w, m, fault, w.task);
    var s, s' := w.journal, w'.journal;
    SaveKeepsValid(s, m, fault);
    NewRecordEffect(s, m, fault);
    HeldStays(w, m, fault);
    RecordOkUnder(m, s.nextId);
    forall id: nat ensures IdOk(w', id) {
      assert IdOk(w, id);
      if id in s'.records && id !in s.records {
        assert id == s.nextId && RecordOk(s'.records[id]);
      } else {
        SendableAsBefore(w, w', id);
        assert SameAt(w, w', id);
        IdFrame(w, w', id);
      }
    }
  }

  lemma RecordOkUnder(m: Message, id: nat)
    requires RecordOk(m)
    ensures RecordOk(m.(id := id))
  {
  }

  lemma HeldStays(w: World, m: Message, fault: Fault)
    requires Inv(w) && m.id == 0
    ensures TaskOk(Saved(w, m, fault, w.task))
  {
    hide Storable, Save;
    if Holding(w.task) {
      HeldRecordOk(w);
      HeldNotDropped(w, m, fault);
    }
  }

  lemma SendableAsBefore(w: World, w': World, id: nat)
    requires w'.task == w.task
    requires id in w'.journal.records ==> id in w.journal.records && w'.journal.records[id] == w.journal.records[id]
    ensures forall i: nat :: Sendable(w', id, i) ==> Sendable(w, id, i)
  {
  }

  lemma HeldNotDropped(w: World, m: Message, fault: Fault)
    requires Inv(w) && m.id == 0 && Holding(w.task)
    ensures w.task.m.id in Save(w.journal, m, fault).state.records
    ensures Save(w.journal, m, fault).state.records[w.task.m.id] == w.task.m
  {
    hide Storable, Save, RecordOk;
    ProtectedNeverPruned(w.journal, m, fault, w.task.m.id);
  }

  lemma RemovalKeeps(w: World, id: nat, fault: Fault)
    requires Inv(w) && id in w.journal.records
    requires Holding(w.task) ==> w.task.m.id != id
    ensures Inv(w.(journal := Delete(w.journal, id, fault).state))
  {
    hide RecordOk, Storable;
    var w' := w.(journal := Delete(w.journal, id, fault).state);
    DeleteKeepsValid(w.journal, id, fault);
    forall k: nat ensures IdOk(w', k) {
      assert IdOk(w, k);
      assert SameAt(w, w', k);
      IdFrame(w, w', k);
    }
  }

  lemma RetryKeeps(w: World, id: nat, fault: Fault)
    requires Inv(w) && id in w.journal.records
    requires w.journal.records[id].direction == Outbound && w.journal.records[id].status == Uncertain
    ensures Inv(ApiStep(w, RetryCall(id, fault)))
  {
    hide Save, Storable;
    var r := w.journal.records[id];
    var m := r.(status := Queued, inflight := 0);
    var w' := ApiStep(w, RetryCall(id, fault));
    StorableSame(r, m);
    SaveOutcome(w.journal, m, fault);
    assert IdOk(w, id);
    assert Holding(w.task) ==> w.task.m.id != id;
    RewriteKeeps(w, w', m);
  }

  lemma ApiKeeps(w: World, e: Event)
    requires Inv(w)
    ensures Inv(ApiStep(w, e))
  {
    hide Save, Storable, Inv, FreshOutbound;
    match e
    case Enqueue(m, fault) =>
      if FreshOutbound(m) {
        FreshIsOk(m);
        NewRecordKeeps(w, m, fault);
      }
    case DeleteCall(id, fault) =>
      if id in w.journal.records && !(w.journal.records[id].direction == Outbound && w.journal.records[id].status in {Queued, Sending}) {
        HeldFacts(w);
        RecordFacts(w, id);
        RemovalKeeps(w, id, fault);
      }
    case RetryCall(id, fault) =>
      if id in w.journal.records && w.journal.records[id].direction == Outbound && w.journal.records[id].status == Uncertain {
        RetryKeeps(w, id, fault);
      }
    case SetWatermark(protect, watermark) => MarksKeep(w, protect, watermark);
    case _ =>
  }

  lemma FreshIsOk(m: Message)
    requires FreshOutbound(m)
    ensures m.id == 0 && RecordOk(m)
  {
  }

  lemma MarksKeep(w: World, protect: bool, watermark: nat)
    requires Inv(w)
    ensures Inv(w.(journal := w.journal.(protect := protect, watermark := watermark)))
  {
    hide Storable, RecordOk, Sendable;
    var w' := w.(journal := w.journal.(protect := protect, watermark := watermark));
    forall id: nat ensures IdOk(w', id) {
      assert IdOk(w, id);
      SendableAsBefore(w, w', id);
      assert SameAt(w, w', id);
      IdFrame(w, w', id);
    }
  }

  /** A delivery report for a segment. */
  datatype Verdict = Verdict(segment: nat, status: byte)

  function AfterReports(m: Message, reports: seq<Verdict>): Message {
    if reports == [] then m
    else
      var last := reports[|reports| - 1];
      Reported(AfterReports(m, reports[..|reports| - 1]), last.segment, last.status)
  }

  function ReportedDelivered(reports: seq<Verdict>): set<nat> {
    set v <- reports | v.status < 0x20 :: v.segment
  }

  function ReportedFailed(reports: seq<Verdict>): set<nat> {
    set v <- reports | v.status >= 0x40 :: v.segment
  }

  /** r is m with the given segments reported; DELIVERED and FAILED follow from the masks alone. */
  ghost predicate Accounts(m: Message, r: Message, delivered: set<nat>, failed: set<nat>) {
    && r.delivered == m.delivered + delivered && r.failed == m.failed + failed
    && (r.status == Delivered <==> r.delivered == AllSegments(m))
    && (r.status != Delivered ==> r.status == if r.failed != {} then Failed else m.status)
    && r == m.(delivered := r.delivered, failed := r.failed, status := r.status)
  }

  /**
   * What any number of delivery reports amount to: the masks hold what was reported, DELIVERED
   * means that every segment was, FAILED that one failed and some are not delivered.
   */
  lemma {:induction false} ReportsMean(m: Message, reports: seq<Verdict>)
    requires RecordOk(m) && m.direction == Outbound && reports != []
    requires forall v <- reports :: v.segment in m.sent
    ensures RecordOk(AfterReports(m, reports))
    ensures Accounts(m, AfterReports(m, reports), ReportedDelivered(reports), ReportedFailed(reports))
  {
    hide RecordOk, Reported, Accounts;
    var k := |reports| - 1;
    var before, last := reports[..k], reports[k];
    assert reports == before + [last];
    assert ReportedDelivered(reports) == ReportedDelivered(before) + if last.status < 0x20 then {last.segment} else {};
    assert ReportedFailed(reports) == ReportedFailed(before) + if last.status >= 0x40 then {last.segment} else {};
    if k > 0 {
      ReportsMean(m, before);
    } else {
      assert before == [];
    }
    OneMore(m, AfterReports(m, before), ReportedDelivered(before), ReportedFailed(before), last);
  }

  lemma OneMore(m: Message, r: Message, delivered: set<nat>, failed: set<nat>, last: Verdict)
    requires RecordOk(m) && RecordOk(r) && m.direction == Outbound && last.segment in m.sent
    requires (r == m && delivered == failed == {}) || Accounts(m, r, delivered, failed)
    ensures var r' := Reported(r, last.segment, last.status);
            && RecordOk(r')
            && Accounts(m, r', delivered + (if last.status < 0x20 then {last.segment} else {}),
                        failed + if last.status >= 0x40 then {last.segment} else {})
  {
    ReportKeepsRecord(r, last.segment, last.status);
    assert r.sent == m.sent && r.failed <= AllSegments(m) && r.segmentCount == m.segmentCount && last.segment in AllSegments(m);
    assert r.delivered <= AllSegments(m) && (m.status == Delivered ==> m.delivered == AllSegments(m));
    hide RecordOk;
    AccountsMore(m, r, delivered, failed, last);
  }

  lemma AccountsMore(m: Message, r: Message, delivered: set<nat>, failed: set<nat>, last: Verdict)
    requires (r == m && delivered == failed == {}) || Accounts(m, r, delivered, failed)
    requires r.segmentCount == m.segmentCount && r.failed <= AllSegments(m) && r.delivered <= AllSegments(m)
    requires last.segment in AllSegments(m) && (m.status == Delivered ==> m.delivered == AllSegments(m))
    ensures Accounts(m, Reported(r, last.segment, last.status), delivered + (if last.status < 0x20 then {last.segment} else {}),
                     failed + if last.status >= 0x40 then {last.segment} else {})
  {
    hide Upto;
  }

  /** The order of the reports and their repetition do not matter. */
  lemma ReportsInAnyOrder(m: Message, reports: seq<Verdict>, others: seq<Verdict>)
    requires RecordOk(m) && m.direction == Outbound && reports != []
    requires forall v <- reports :: v.segment in m.sent
    requires forall v :: v in reports <==> v in others
    ensures AfterReports(m, reports) == AfterReports(m, others)
  {
    assert reports[0] in others;
    ReportsMean(m, reports);
    ReportsMean(m, others);
    assert ReportedDelivered(reports) == ReportedDelivered(others);
    assert ReportedFailed(reports) == ReportedFailed(others);
  }

  lemma ReportKeepsRecord(m: Message, segment: nat, status: byte)
    requires RecordOk(m) && m.direction == Outbound && segment in m.sent
    ensures RecordOk(Reported(m, segment, status))
    ensures Reported(m, segment, status).sent == m.sent
    ensures Reported(m, segment, status).status in {m.status, Delivered, Failed}
    ensures m.status == Delivered ==> Reported(m, segment, status).status == Delivered
    ensures SameContent(m, Reported(m, segment, status))
  {
  }

  /** Rewriting a record nobody holds, without making it sendable. */
  lemma UpdateKeeps(w: World, m: Message, fault: Fault, task: Task)
    requires Inv(w) && !Holding(w.task) && !Holding(task) && m.id in w.journal.records && RecordOk(m)
    requires Storable(m)
    requires m.status == Queued ==> w.journal.records[m.id].status == Queued && m.sent == w.journal.records[m.id].sent
    ensures Inv(Saved(w, m, fault, task))
  {
    hide Save, Storable, RecordOk;
    var w' := Saved(w, m, fault, task);
    SaveOutcome(w.journal, m, fault);
    assert IdOk(w, m.id);
    assert forall i: nat :: Sendable(w', m.id, i) ==> Sendable(w, m.id, i);
    RewriteKeeps(w, w', m);
  }

  lemma ReportKeeps(w: World, recipient: seq<byte>, reference: byte, status: byte, fault: Fault)
    requires Inv(w) && w.task.Idle?
    ensures Inv(IdleStep(w, Report(recipient, reference, status, fault)))
  {
    hide Save, Storable, RecordOk, FirstSegment;
    var ids := ReferencingIds(w.journal, recipient, reference);
    if ids != {} {
      var m := w.journal.records[Max(ids)];
      assert IdOk(w, m.id);
      var segment := FirstSegment(m, reference).value;
      ReportKeepsRecord(m, segment, status);
      var m' := Reported(m, segment, status);
      StorableSame(m, m');
      UpdateKeeps(w, m', fault, Idle);
    }
  }

  lemma TakenKeeps(w: World, m: Message)
    requires Inv(w) && w.task.Idle? && m.id in w.journal.records && w.journal.records[m.id] == m && m.status == Queued
    ensures Inv(w.(task := Working(m, 0)))
  {
    hide Storable;
    var w' := w.(task := Working(m, 0));
    assert IdOk(w, m.id);
    assert forall i: nat :: Sendable(w', m.id, i) ==> Sendable(w, m.id, i);
    RewriteKeeps(w, w', m);
  }

  lemma PickKeeps(w: World, encodes: bool, fault: Fault)
    requires Inv(w) && w.task.Idle?
    ensures Inv(IdleStep(w, Pick(encodes, fault)))
  {
    hide Save, Storable;
    var ids := IdsWith(w.journal, Queued);
    if ids != {} {
      var m := w.journal.records[Min(ids)];
      assert IdOk(w, m.id);
      if encodes {
        TakenKeeps(w, m);
      } else {
        StorableSame(m, m.(status := Failed));
        UpdateKeeps(w, m.(status := Failed), fault, Idle);
      }
    }
  }

  lemma InboundSaveKeeps(w: World, m: Message, fault: Fault)
    requires Inv(w) && w.task.Idle?
    ensures Inv(IdleStep(w, InboundSave(m, fault)))
  {
    hide Save, Storable;
    var s := w.journal;
    if m.direction == Inbound && m.status in {Partial, Received, Unsupported} {
      if m.id == 0 {
        NewRecordKeeps(w, m, fault);
      } else if m.id in s.records && s.records[m.id].direction == Inbound {
        if Storable(m) {
          UpdateKeeps(w, m, fault, Idle);
        } else {
          RejectedUnchanged(s, m, fault);
        }
      }
    }
  }

  lemma RejectedUnchanged(s: State, m: Message, fault: Fault)
    requires !Storable(m)
    ensures Save(s, m, fault).state == s
  {
  }

  lemma IdleKeeps(w: World, e: Event)
    requires Inv(w) && w.task.Idle?
    ensures Inv(IdleStep(w, e))
  {
    hide Inv, Save, Saved;
    match e
    case InboundSave(m, fault) => InboundSaveKeeps(w, m, fault);
    case InboundDelete(id, fault) =>
      if id in w.journal.records && w.journal.records[id].direction == Inbound { RemovalKeeps(w, id, fault); }
    case Report(recipient, reference, status, fault) => ReportKeeps(w, recipient, reference, status, fault);
    case Pick(encodes, fault) => PickKeeps(w, encodes, fault);
    case _ =>
  }

  lemma BootKeeps(w: World, e: Event)
    requires Inv(w) && w.task.Booting?
    ensures Inv(BootStep(w, e))
  {
    hide Save, Storable;
    match e
    case BootMark(fault) =>
      if Above(w.journal, w.task.after) == {} {
        MoveKeeps(w, Idle);
      } else {
        var id := Min(Above(w.journal, w.task.after));
        var m := w.journal.records[id];
        assert IdOk(w, id);
        if m.direction == Outbound && m.status == Sending {
          StorableSame(m, m.(status := Uncertain));
          UpdateKeeps(w, m.(status := Uncertain), fault, Booting(id));
        } else {
          MoveKeeps(w, Booting(id));
        }
      }
    case BootListFails => MoveKeeps(w, Idle);
    case _ =>
  }

  lemma StepKeeps(w: World, e: Event)
    requires Inv(w)
    ensures Inv(Step(w, e))
  {
    hide Inv, ApiStep, IdleStep, BootStep, SendStep;
    if e.PowerLoss? {
      MoveKeeps(w, Off);
    } else if e.SetWatermark? {
      ApiKeeps(w, e);
    } else if w.task.Off? {
      if e.Boot? { MoveKeeps(w, Booting(0)); }
    } else if e.Enqueue? || e.DeleteCall? || e.RetryCall? {
      ApiKeeps(w, e);
    } else if w.task.Idle? {
      IdleKeeps(w, e);
    } else if w.task.Booting? {
      BootKeeps(w, e);
    } else {
      SendKeeps(w, e);
    }
  }

  lemma {:induction false} RunKeeps(w: World, es: seq<Event>)
    requires Inv(w)
    ensures Inv(Run(w, es))
    decreases |es|
  {
    hide Inv, Step;
    if es != [] {
      StepKeeps(w, es[0]);
      RunKeeps(Step(w, es[0]), es[1..]);
    }
  }

  lemma FreshIsFine(w: World)
    requires Fresh(w)
    ensures Inv(w)
  {
  }

  // ----- what runs promise -----

  /** Over every run, a segment is handed to the modem at most once, plus once per operator retry that took effect. */
  lemma SubmittedAtMostOncePerDecision(w: World, es: seq<Event>, id: nat, segment: nat)
    requires Fresh(w)
    ensures Run(w, es).submitted[(id, segment)] <= 1 + Run(w, es).retried[id]
  {
    hide Run, Fresh;
    FreshIsFine(w);
    RunKeeps(w, es);
    assert IdOk(Run(w, es), id);
  }

  /** In every reachable state every record is consistent: masks nest, SENT and DELIVERED mean all segments. */
  lemma ReachableRecordsOk(w: World, es: seq<Event>, id: nat)
    requires Fresh(w) && id in Run(w, es).journal.records
    ensures RecordOk(Run(w, es).journal.records[id])
  {
    hide Run, Fresh, RecordOk;
    FreshIsFine(w);
    RunKeeps(w, es);
    assert IdOk(Run(w, es), id);
  }

  /** What was to be sent to whom has not changed. */
  ghost predicate SameContent(a: Message, b: Message) {
    && a.recipient == b.recipient && a.text == b.text && a.reportRequested == b.reportRequested
    && a.reference == b.reference && a.segmentCount == b.segmentCount
  }

  /** How a record may change: outbound content never, outbound masks only grow, and DELIVERED stays. */
  ghost predicate Evolves(r: Message, r': Message) {
    && r'.direction == r.direction
    && (r.direction == Outbound ==>
          && SameContent(r, r')
          && r.sent <= r'.sent && r.delivered <= r'.delivered && r.failed <= r'.failed
          && (forall i :: i in r.modemReference ==> i in r'.modemReference && r'.modemReference[i] == r.modemReference[i])
          && (r.status == Delivered ==> r'.status == Delivered))
  }

  /** One step of the world, seen from one id. */
  ghost predicate EvolvesAt(w: World, w': World, id: nat) {
    && w.journal.nextId <= w'.journal.nextId
    && (id in w'.journal.records && id in w.journal.records ==> Evolves(w.journal.records[id], w'.journal.records[id]))
    && (id in w'.journal.records && id !in w.journal.records ==> id >= w.journal.nextId)
    && (forall i: nat :: id in w.journal.records && i in w.journal.records[id].sent ==> w'.submitted[(id, i)] == w.submitted[(id, i)])
    && (forall i: nat :: id !in w.journal.records ==> w'.submitted[(id, i)] == w.submitted[(id, i)])
  }

  lemma SaveEvolves(w: World, m: Message, fault: Fault, task: Task, id: nat)
    requires Inv(w)
    requires m.id != 0 ==> m.id in w.journal.records && Evolves(w.journal.records[m.id], m)
    ensures EvolvesAt(w, Saved(w, m, fault, task), id)
  {
    hide Save, Storable, RecordOk;
    if m.id == 0 { NewRecordEffect(w.journal, m, fault); } else { SaveOutcome(w.journal, m, fault); }
  }

  lemma QuietEvolves(w: World, w': World, id: nat)
    requires w'.submitted == w.submitted && w.journal.nextId == w'.journal.nextId
    requires forall k :: k in w'.journal.records ==> k in w.journal.records && w'.journal.records[k] == w.journal.records[k]
    ensures EvolvesAt(w, w', id)
  {
  }

  lemma ApiEvolves(w: World, e: Event, id: nat)
    requires Inv(w)
    ensures EvolvesAt(w, ApiStep(w, e), id)
  {
    hide Save, Storable, Inv, EvolvesAt;
    match e
    case Enqueue(m, fault) =>
      if FreshOutbound(m) { SaveEvolves(w, m, fault, w.task, id); } else { QuietEvolves(w, w, id); }
    case RetryCall(k, fault) =>
      if k in w.journal.records && w.journal.records[k].direction == Outbound && w.journal.records[k].status == Uncertain {
        RetryEvolves(w, k, fault, id);
      } else {
        QuietEvolves(w, w, id);
      }
    case _ => QuietEvolves(w, ApiStep(w, e), id);
  }

  lemma RetryEvolves(w: World, k: nat, fault: Fault, id: nat)
    requires Inv(w) && k in w.journal.records
    requires w.journal.records[k].direction == Outbound && w.journal.records[k].status == Uncertain
    ensures EvolvesAt(w, ApiStep(w, RetryCall(k, fault)), id)
  {
    hide Save, Storable, Inv;
    RecordFacts(w, k);
    SaveEvolves(w, w.journal.records[k].(status := Queued, inflight := 0), fault, w.task, id);
  }

  lemma IdleEvolves(w: World, e: Event, id: nat)
    requires Inv(w) && w.task.Idle?
    ensures EvolvesAt(w, IdleStep(w, e), id)
  {
    hide Save, Storable, FirstSegment, Inv, EvolvesAt;
    match e
    case InboundSave(m, fault) =>
      if m.direction == Inbound && m.status in {Partial, Received, Unsupported}
         && (m.id == 0 || (m.id in w.journal.records && w.journal.records[m.id].direction == Inbound
                           && w.journal.records[m.id].status == Partial && m.status == Partial)) {
        SaveEvolves(w, m, fault, Idle, id);
      } else {
        QuietEvolves(w, w, id);
      }
    case Report(recipient, reference, status, fault) => ReportEvolves(w, recipient, reference, status, fault, id);
    case Pick(encodes, fault) =>
      var ids := IdsWith(w.journal, Queued);
      if ids != {} && !encodes {
        RecordFacts(w, Min(ids));
        SaveEvolves(w, w.journal.records[Min(ids)].(status := Failed), fault, Idle, id);
      } else {
        QuietEvolves(w, IdleStep(w, e), id);
      }
    case _ => QuietEvolves(w, IdleStep(w, e), id);
  }

  lemma ReportEvolves(w: World, recipient: seq<byte>, reference: byte, status: byte, fault: Fault, id: nat)
    requires Inv(w) && w.task.Idle?
    ensures EvolvesAt(w, IdleStep(w, Report(recipient, reference, status, fault)), id)
  {
    hide Save, Storable, FirstSegment, Inv, EvolvesAt;
    var ids := ReferencingIds(w.journal, recipient, reference);
    if ids == {} {
      QuietEvolves(w, w, id);
    } else {
      hide RecordOk, Reported, Evolves;
      var m := w.journal.records[Max(ids)];
      RecordFacts(w, Max(ids));
      ReportedEvolves(m, FirstSegment(m, reference).value, status);
      SaveEvolves(w, Reported(m, FirstSegment(m, reference).value, status), fault, Idle, id);
    }
  }

  lemma ReportedEvolves(m: Message, segment: nat, status: byte)
    requires RecordOk(m) && m.direction == Outbound && segment in m.sent
    ensures Evolves(m, Reported(m, segment, status)) && Reported(m, segment, status).id == m.id
  {
    ReportKeepsRecord(m, segment, status);
  }

  lemma RecordFacts(w: World, id: nat)
    requires Inv(w) && id in w.journal.records
    ensures id != 0 && w.journal.records[id].id == id && RecordOk(w.journal.records[id])
  {
    assert IdOk(w, id);
  }

  lemma SendEvolves(w: World, e: Event, id: nat)
    requires Inv(w)
    ensures EvolvesAt(w, SendStep(w, e), id)
  {
    hide Save, Storable, Inv, EvolvesAt;
    HeldFacts(w);
    QuietEvolves(w, w, id);
    if Holding(w.task) {
      var m := w.task.m;
      match (w.task, e)
      case (Working(_, k), SkipSent) => QuietEvolves(w, SendStep(w, e), id);
      case (Marked(_, k), Submit) => SubmitEvolves(w, id);
      case (Working(_, k), MarkSending(fault)) =>
        SaveEvolves(w, MarkedSending(m, k), fault, SendStep(w, e).task, id);
      case (Working(_, k), Finish(fault)) =>
        QuietEvolves(w, w.(task := Idle), id);
        SaveEvolves(w, m.(status := Sent, inflight := 0), fault, Idle, id);
      case (Marked(_, k), NoMemory(fault)) => SaveEvolves(w, m.(status := Queued, inflight := 0), fault, Idle, id);
      case (Marked(_, k), Refuse(fault)) => SaveEvolves(w, m.(status := Uncertain), fault, Idle, id);
      case (Submitted(_, k), Doubt(fault)) => SaveEvolves(w, m.(status := Uncertain), fault, Idle, id);
      case (Submitted(_, k), Confirm(reference, fault)) => ConfirmEvolves(w, reference, fault, id);
      case _ =>
    }
  }

  lemma SubmitEvolves(w: World, id: nat)
    requires Inv(w) && w.task.Marked?
    ensures EvolvesAt(w, SendStep(w, Submit), id)
  {
    hide Inv;
    HeldFacts(w);
  }

  lemma ConfirmEvolves(w: World, reference: byte, fault: Fault, id: nat)
    requires Inv(w) && w.task.Submitted?
    ensures EvolvesAt(w, SendStep(w, Confirm(reference, fault)), id)
  {
    hide Save, Storable, Inv, EvolvesAt;
    HeldFacts(w);
    RecordFacts(w, w.task.m.id);
    SaveEvolves(w, Confirmed(w.task.m, w.task.segment, reference), fault, SendStep(w, Confirm(reference, fault)).task, id);
  }

  lemma BootEvolves(w: World, e: Event, id: nat)
    requires Inv(w) && w.task.Booting?
    ensures EvolvesAt(w, BootStep(w, e), id)
  {
    hide Save, Storable, Inv;
    match e
    case BootMark(fault) =>
      var above := Above(w.journal, w.task.after);
      if above != {} {
        RecordFacts(w, Min(above));
        var m := w.journal.records[Min(above)];
        if m.status == Sending { SaveEvolves(w, m.(status := Uncertain), fault, Booting(Min(above)), id); }
      }
    case _ =>
  }

  lemma StepEvolves(w: World, e: Event, id: nat)
    requires Inv(w)
    ensures EvolvesAt(w, Step(w, e), id)
  {
    hide Inv, ApiStep, IdleStep, BootStep, SendStep;
    if e.SetWatermark? {
      ApiEvolves(w, e, id);
    } else if e.PowerLoss? || w.task.Off? {
    } else if e.Enqueue? || e.DeleteCall? || e.RetryCall? {
      ApiEvolves(w, e, id);
    } else if w.task.Idle? {
      IdleEvolves(w, e, id);
    } else if w.task.Booting? {
      BootEvolves(w, e, id);
    } else {
      SendEvolves(w, e, id);
    }
  }

  /** The segment is known to be submitted, or its record is gone for good. */
  ghost predicate Settled(w: World, id: nat, segment: nat) {
    && id < w.journal.nextId
    && (id in w.journal.records ==> w.journal.records[id].direction == Outbound && segment in w.journal.records[id].sent)
  }

  /** Once the sent bit of a segment is durable, no run ever hands that segment to the modem again. */
  lemma {:induction false} NeverAgainOnceSent(w: World, es: seq<Event>, id: nat, segment: nat)
    requires Inv(w) && Settled(w, id, segment)
    ensures Settled(Run(w, es), id, segment)
    ensures Run(w, es).submitted[(id, segment)] == w.submitted[(id, segment)]
    decreases |es|
  {
    hide Inv, Step;
    if es != [] {
      StepEvolves(w, es[0], id);
      StepKeeps(w, es[0]);
      NeverAgainOnceSent(Step(w, es[0]), es[1..], id, segment);
    }
  }

  // ----- references and reports -----

  /** A confirmed segment carries the sent bit and the reference of the modem; nothing else of the record changes but the marker. */
  lemma ConfirmedMeans(m: Message, segment: nat, reference: byte)
    ensures var r := Confirmed(m, segment, reference);
      && (forall k :: k in r.sent <==> k in m.sent || k == segment)
      && segment in r.modemReference && r.modemReference[segment] == reference
      && (forall k :: k != segment ==> (k in r.modemReference <==> k in m.modemReference))
      && (forall k :: k != segment && k in m.modemReference ==> r.modemReference[k] == m.modemReference[k])
      && r == m.(sent := r.sent, modemReference := r.modemReference, inflight := 0)
  {
  }

  /** The record before and after a segment was sent under that reference, field by field. */
  ghost predicate SentUnder(m: Message, r: Message, segment: nat, reference: byte) {
    && (forall k :: k in r.sent <==> k in m.sent || k == segment)
    && segment in r.modemReference && r.modemReference[segment] == reference
    && (forall k :: k != segment ==> (k in r.modemReference <==> k in m.modemReference))
    && (forall k :: k != segment && k in m.modemReference ==> r.modemReference[k] == m.modemReference[k])
    && r.status == Sending && r.delivered == m.delivered && r.failed == m.failed && r.id == m.id && SameContent(m, r)
  }

  lemma ConfirmedIsSentUnder(m: Message, segment: nat, reference: byte)
    ensures SentUnder(m, Confirmed(MarkedSending(m, segment), segment, reference), segment, reference)
  {
    ConfirmedMeans(MarkedSending(m, segment), segment, reference);
  }

  /** A segment that is being sent shows in the record: its number, the status and one more attempt. */
  lemma MarkedMeans(m: Message, segment: nat)
    ensures var r := MarkedSending(m, segment);
      && r.status == Sending && r.inflight == segment + 1
      && (m.attempts < 255 ==> r.attempts == m.attempts + 1) && (m.attempts == 255 ==> r.attempts == 0)
      && r == m.(status := r.status, inflight := r.inflight, attempts := r.attempts)
  {
  }

  /** The reference under which a segment was sent stays with it as long as the record is there. */
  lemma {:induction false} ReferenceStays(w: World, es: seq<Event>, id: nat, segment: nat, reference: byte)
    requires Inv(w) && id < w.journal.nextId && (id in w.journal.records ==> Carries(w.journal.records[id], segment, reference))
    ensures id < Run(w, es).journal.nextId
    ensures id in Run(w, es).journal.records ==> Carries(Run(w, es).journal.records[id], segment, reference)
    ensures id in Run(w, es).journal.records && id in w.journal.records ==>
              SameContent(w.journal.records[id], Run(w, es).journal.records[id])
    ensures id !in w.journal.records ==> id !in Run(w, es).journal.records
    decreases |es|
  {
    hide Inv, Step;
    if es != [] {
      StepEvolves(w, es[0], id);
      StepKeeps(w, es[0]);
      ReferenceStays(Step(w, es[0]), es[1..], id, segment, reference);
    }
  }

  /** The segment was sent and the modem named it so. */
  ghost predicate Carries(m: Message, segment: nat, reference: byte) {
    m.direction == Outbound && segment in m.sent && segment in m.modemReference && m.modemReference[segment] == reference
  }

  /** No newer record for that recipient carries the reference. */
  ghost predicate NewestFor(s: State, id: nat, reference: byte)
    requires id in s.records
  {
    forall k, i :: k in s.records && k > id && s.records[k].recipient == s.records[id].recipient ==> !Carries(s.records[k], i, reference)
  }

  /** The record is there, and neither a newer one nor a lower segment of it carries the reference. */
  ghost predicate FirstFor(s: State, id: nat, segment: nat, reference: byte) {
    id in s.records && NewestFor(s, id, reference) && forall k :: 0 <= k < segment ==> !Carries(s.records[id], k, reference)
  }

  /** The record after a report for that segment, field by field. */
  ghost predicate ReportedFor(m: Message, m': Message, segment: nat, status: byte) {
    && (forall k :: k in m'.delivered <==> k in m.delivered || (k == segment && status < 0x20))
    && (forall k :: k in m'.failed <==> k in m.failed || (k == segment && status >= 0x40))
    && (m'.status == Delivered <==> forall k :: 0 <= k < m.segmentCount ==> k in m'.delivered)
    && (m'.status != Delivered ==> m'.status == if m'.failed != {} then Failed else m.status)
    && m' == m.(delivered := m'.delivered, failed := m'.failed, status := m'.status)
  }

  /** That record is reported for that segment, and all others are as they were. */
  ghost predicate OnlyReported(s: State, s': State, id: nat, segment: nat, status: byte) {
    && id in s.records && s'.records.Keys == s.records.Keys && ReportedFor(s.records[id], s'.records[id], segment, status)
    && forall k :: k in s.records && k != id ==> s'.records[k] == s.records[k]
  }

  lemma {:induction false} FirstCarrying(m: Message, reference: byte, i: nat, segment: nat)
    requires i <= segment < m.segmentCount && HasReference(m, reference, segment)
    requires forall k :: i <= k < segment ==> !HasReference(m, reference, k)
    ensures FirstFrom(m, reference, i) == Some(segment)
    decreases segment - i
  {
    if i < segment { FirstCarrying(m, reference, i + 1, segment); }
  }

  /**
   * A delivery report finds its segment: if no newer record for the recipient and no lower segment carries the
   * reference, exactly the segment that carries it is reported, and nothing else in the journal changes.
   */
  lemma ReportFindsSegment(w: World, id: nat, segment: nat, reference: byte, status: byte)
    requires Inv(w) && w.task.Idle? && id in w.journal.records && Carries(w.journal.records[id], segment, reference)
    requires FirstFor(w.journal, id, segment, reference)
    ensures var m := w.journal.records[id];
      var s' := Step(w, Report(m.recipient, reference, status, NoFault)).journal;
      OnlyReported(w.journal, s', id, segment, status)
  {
    hide Save, Storable, ApiStep, SendStep, BootStep;
    var m := w.journal.records[id];
    RecordFacts(w, id);
    assert segment in AllSegments(m);
    forall k | 0 <= k < segment ensures !HasReference(m, reference, k) {
      assert !Carries(m, k, reference);
    }
    FirstCarrying(m, reference, 0, segment);
    var ids := ReferencingIds(w.journal, m.recipient, reference);
    assert id in ids;
    forall k | k in ids ensures k <= id {
      var i := FirstSegment(w.journal.records[k], reference).value;
      assert k > id ==> !Carries(w.journal.records[k], i, reference);
    }
    assert Max(ids) == id;
    ReportKeepsRecord(m, segment, status);
    ReportedField(m, segment, status);
    StoredAgain(w, Reported(m, segment, status));
  }

  lemma ReportedField(m: Message, segment: nat, status: byte)
    requires RecordOk(m) && m.direction == Outbound && segment in m.sent
    ensures ReportedFor(m, Reported(m, segment, status), segment, status)
  {
    ReportKeepsRecord(m, segment, status);
    var r := Reported(m, segment, status);
    assert AllSegments(m) <= r.delivered <==> forall k :: 0 <= k < m.segmentCount ==> k in r.delivered;
    assert r.failed * AllSegments(m) == r.failed;
  }

  predicate SameStorage(m: Message, m': Message) {
    && m'.text == m.text && m'.sender == m.sender && m'.recipient == m.recipient
    && m'.timestamp == m.timestamp && m'.rawPdu == m.rawPdu && m'.segmentCount == m.segmentCount
  }

  lemma StoredAgain(w: World, m: Message)
    requires Inv(w) && m.id in w.journal.records && SameStorage(w.journal.records[m.id], m)
    ensures Save(w.journal, m, NoFault).state == With(w.journal, m)
  {
    RecordFacts(w, m.id);
    StorableSame(w.journal.records[m.id], m);
  }

  /** From the confirmation on, whatever happens in between: a later report for that reference reaches that segment. */
  lemma SentIsReported(w: World, reference: byte, es: seq<Event>, status: byte)
    requires Inv(w) && w.task.Submitted?
    requires var w1 := Run(Step(w, Confirm(reference, NoFault)), es);
      w1.task.Idle? && FirstFor(w1.journal, w.task.m.id, w.task.segment, reference)
    ensures var w1 := Run(Step(w, Confirm(reference, NoFault)), es);
      OnlyReported(w1.journal, Step(w1, Report(w.task.m.recipient, reference, status, NoFault)).journal, w.task.m.id, w.task.segment, status)
  {
    hide Inv, Run, Step, Save, Storable, NewestFor, OnlyReported;
    var id, k := w.task.m.id, w.task.segment;
    var w0 := Step(w, Confirm(reference, NoFault));
    StepKeeps(w, Confirm(reference, NoFault));
    ConfirmStores(w, reference);
    ReferenceStays(w0, es, id, k, reference);
    RunKeeps(w0, es);
    ReportFindsSegment(Run(w0, es), id, k, reference, status);
  }

  lemma ConfirmStores(w: World, reference: byte)
    requires Inv(w) && w.task.Submitted?
    ensures var s' := Step(w, Confirm(reference, NoFault)).journal;
      && w.task.m.id in s'.records && w.task.m.id < s'.nextId && Carries(s'.records[w.task.m.id], w.task.segment, reference)
      && s'.records[w.task.m.id].recipient == w.task.m.recipient
  {
    hide Save, Storable, ApiStep, IdleStep, BootStep;
    HeldFacts(w);
    StoredAgain(w, Confirmed(w.task.m, w.task.segment, reference));
  }

  ghost predicate DeliveredOrGone(w: World, id: nat) {
    && id < w.journal.nextId
    && (id in w.journal.records ==> w.journal.records[id].direction == Outbound && w.journal.records[id].status == Delivered)
  }

  /** DELIVERED is left only by losing the record. */
  lemma {:induction false} DeliveredStays(w: World, es: seq<Event>, id: nat)
    requires Inv(w) && DeliveredOrGone(w, id)
    ensures DeliveredOrGone(Run(w, es), id)
    decreases |es|
  {
    hide Inv, Step;
    if es != [] {
      StepEvolves(w, es[0], id);
      StepKeeps(w, es[0]);
      DeliveredStays(Step(w, es[0]), es[1..], id);
    }
  }

  // ----- records leave for a reason -----

  /** The call that removes records on request. */
  ghost predicate Requested(w: World, e: Event, id: nat)
    requires id in w.journal.records
  {
    var r := w.journal.records[id];
    || (e.DeleteCall? && e.id == id && !(r.direction == Outbound && r.status in {Queued, Sending}))
    || (e.InboundDelete? && e.id == id && r.direction == Inbound && r.status == Partial)
  }

  lemma SaveRemoves(w: World, m: Message, fault: Fault, task: Task, id: nat)
    requires Inv(w) && (m.id != 0 ==> m.id in w.journal.records)
    requires id in w.journal.records && id !in Saved(w, m, fault, task).journal.records
    ensures |w.journal.records| == MAX_RECORDS && id in PrunableIds(w.journal)
  {
    hide Storable, Prunable, Save;
    if m.id == 0 { SaveNewEffect(w.journal, m, fault); } else { SaveOutcome(w.journal, m, fault); }
  }

  lemma ApiRemoves(w: World, e: Event, id: nat)
    requires Inv(w) && id in w.journal.records && id !in ApiStep(w, e).journal.records
    ensures Requested(w, e, id) || (|w.journal.records| == MAX_RECORDS && id in PrunableIds(w.journal))
  {
    hide Storable, Prunable, Save, Inv;
    match e
    case Enqueue(m, fault) => SaveRemoves(w, m, fault, w.task, id);
    case RetryCall(k, fault) =>
      RecordFacts(w, k);
      SaveRemoves(w, w.journal.records[k].(status := Queued, inflight := 0), fault, w.task, id);
    case _ =>
  }

  lemma IdleRemoves(w: World, e: Event, id: nat)
    requires Inv(w) && w.task.Idle? && id in w.journal.records && id !in IdleStep(w, e).journal.records
    ensures Requested(w, e, id) || (|w.journal.records| == MAX_RECORDS && id in PrunableIds(w.journal))
  {
    hide Storable, Prunable, Save, Inv, FirstSegment, Reported;
    var s := w.journal;
    match e
    case InboundSave(m, fault) => SaveRemoves(w, m, fault, Idle, id);
    case Report(recipient, reference, status, fault) =>
      var k := Max(ReferencingIds(s, recipient, reference));
      RecordFacts(w, k);
      var m' := Reported(s.records[k], FirstSegment(s.records[k], reference).value, status);
      ReportedId(s.records[k], FirstSegment(s.records[k], reference).value, status);
      SaveRemoves(w, m', fault, Idle, id);
    case Pick(_, fault) =>
      RecordFacts(w, Min(IdsWith(s, Queued)));
      SaveRemoves(w, s.records[Min(IdsWith(s, Queued))].(status := Failed), fault, Idle, id);
    case _ =>
  }

  lemma ReportedId(m: Message, segment: nat, status: byte)
    ensures Reported(m, segment, status).id == m.id
  {
  }

  lemma RewriteRemovesNothing(w: World, m: Message, fault: Fault, task: Task, id: nat)
    requires Inv(w) && m.id in w.journal.records && id in w.journal.records
    ensures id in Saved(w, m, fault, task).journal.records
  {
    hide Storable, Save;
    SaveOutcome(w.journal, m, fault);
  }

  lemma BootRemovesNothing(w: World, e: Event, id: nat)
    requires Inv(w) && w.task.Booting? && id in w.journal.records
    ensures id in BootStep(w, e).journal.records
  {
    hide Storable, Prunable, Save, Inv, Min;
    if e.BootMark? && Above(w.journal, w.task.after) != {} {
      var k := Min(Above(w.journal, w.task.after));
      RecordFacts(w, k);
      RewriteRemovesNothing(w, w.journal.records[k].(status := Uncertain), e.fault, Booting(k), id);
    }
  }

  /** A record disappears only when a call asks for it, or when the journal is full and it is safe to prune. */
  lemma RemovedOnlyWhenAskedOrPrunable(w: World, e: Event, id: nat)
    requires Inv(w) && id in w.journal.records && id !in Step(w, e).journal.records
    ensures Requested(w, e, id) || (|w.journal.records| == MAX_RECORDS && id in PrunableIds(w.journal))
  {
    hide Inv, ApiStep, IdleStep, BootStep, SendStep, PrunableIds, Requested;
    if e.Enqueue? || e.DeleteCall? || e.RetryCall? || e.SetWatermark? {
      ApiRemoves(w, e, id);
    } else if w.task.Idle? {
      IdleRemoves(w, e, id);
    } else if w.task.Booting? {
      BootRemovesNothing(w, e, id);
    } else {
      SendRemovesNothing(w, e, id);
    }
  }

  lemma HeldFacts(w: World)
    requires Inv(w)
    ensures Holding(w.task) ==> w.task.m.id in w.journal.records && w.task.m.id != 0
    ensures Holding(w.task) ==> w.journal.records[w.task.m.id] == w.task.m && w.task.m.status in {Queued, Sending}
    ensures Holding(w.task) && !w.task.Working? ==> w.task.segment !in w.task.m.sent
  {
  }

  lemma SendRemovesNothing(w: World, e: Event, id: nat)
    requires Inv(w) && id in w.journal.records
    ensures id in SendStep(w, e).journal.records
  {
    hide Storable, Prunable, Save, Inv;
    HeldFacts(w);
    match (w.task, e)
    case (Working(m, k), MarkSending(fault)) => RewriteRemovesNothing(w, MarkedSending(m, k), fault, SendStep(w, e).task, id);
    case (Working(m, k), Finish(fault)) => RewriteRemovesNothing(w, m.(status := Sent, inflight := 0), fault, Idle, id);
    case (Marked(m, k), NoMemory(fault)) => RewriteRemovesNothing(w, m.(status := Queued, inflight := 0), fault, Idle, id);
    case (Marked(m, k), Refuse(fault)) => RewriteRemovesNothing(w, m.(status := Uncertain), fault, Idle, id);
    case (Submitted(m, k), Doubt(fault)) => RewriteRemovesNothing(w, m.(status := Uncertain), fault, Idle, id);
    case (Submitted(m, k), Confirm(reference, fault)) =>
      RewriteRemovesNothing(w, Confirmed(m, k, reference), fault, SendStep(w, e).task, id);
    case _ =>
  }

  // ----- content -----

  lemma NoNewId(w: World, m: Message, fault: Fault, task: Task, id: nat)
    requires Inv(w) && m.id in w.journal.records && id in Saved(w, m, fault, task).journal.records
    ensures id in w.journal.records
  {
    hide Save, Storable;
    SaveOutcome(w.journal, m, fault);
  }

  lemma NewIdSource(w: World, m: Message, fault: Fault, task: Task, id: nat)
    requires Inv(w) && m.id == 0
    requires id in Saved(w, m, fault, task).journal.records && id !in w.journal.records
    ensures Saved(w, m, fault, task).journal.records[id] == m.(id := id)
  {
    hide Save, Storable;
    NewRecordEffect(w.journal, m, fault);
  }

  /** A new outbound record comes from an enqueue call and holds what that call was given. */
  lemma OnlyEnqueueCreates(w: World, e: Event, id: nat)
    requires Inv(w) && id in Step(w, e).journal.records && id !in w.journal.records
    requires Step(w, e).journal.records[id].direction == Outbound
    ensures e.Enqueue? && FreshOutbound(e.m) && Step(w, e).journal.records[id] == e.m.(id := id)
  {
    hide Save, Storable, Inv, FirstSegment, Reported;
    var s := w.journal;
    if e.Enqueue? {
      NewIdSource(w, e.m, e.fault, w.task, id);
    } else if e.RetryCall? {
      RecordFacts(w, e.id);
      NoNewId(w, s.records[e.id].(status := Queued, inflight := 0), e.fault, w.task, id);
    } else if w.task.Idle? {
      NoIdleCreation(w, e, id);
    } else if w.task.Booting? && e.BootMark? && Above(s, w.task.after) != {} {
      RecordFacts(w, Min(Above(s, w.task.after)));
      NoNewId(w, s.records[Min(Above(s, w.task.after))].(status := Uncertain), e.fault, Booting(Min(Above(s, w.task.after))), id);
    } else {
      NoSendCreation(w, e, id);
    }
  }

  lemma NoIdleCreation(w: World, e: Event, id: nat)
    requires Inv(w) && w.task.Idle? && id in IdleStep(w, e).journal.records && id !in w.journal.records
    ensures IdleStep(w, e).journal.records[id].direction == Inbound
  {
    hide Save, Storable, Inv, FirstSegment, Reported;
    var s := w.journal;
    match e
    case InboundSave(m, fault) =>
      if m.id == 0 { NewIdSource(w, m, fault, Idle, id); } else { NoNewId(w, m, fault, Idle, id); }
    case Report(recipient, reference, status, fault) =>
      var k := Max(ReferencingIds(s, recipient, reference));
      RecordFacts(w, k);
      ReportedId(s.records[k], FirstSegment(s.records[k], reference).value, status);
      NoNewId(w, Reported(s.records[k], FirstSegment(s.records[k], reference).value, status), fault, Idle, id);
    case Pick(_, fault) =>
      RecordFacts(w, Min(IdsWith(s, Queued)));
      NoNewId(w, s.records[Min(IdsWith(s, Queued))].(status := Failed), fault, Idle, id);
    case _ =>
  }

  lemma NoSendCreation(w: World, e: Event, id: nat)
    requires Inv(w) && id in SendStep(w, e).journal.records
    ensures id in w.journal.records
  {
    hide Save, Storable, Inv;
    HeldFacts(w);
    if Holding(w.task) {
      var m := w.task.m;
      match (w.task, e)
      case (Working(_, k), MarkSending(fault)) =>
        if k < m.segmentCount && k !in m.sent { NoNewId(w, MarkedSending(m, k), fault, SendStep(w, e).task, id); }
      case (Working(_, k), Finish(fault)) =>
        if k >= m.segmentCount && AllSegments(m) <= m.sent { NoNewId(w, m.(status := Sent, inflight := 0), fault, Idle, id); }
      case (Marked(_, k), NoMemory(fault)) => NoNewId(w, m.(status := Queued, inflight := 0), fault, Idle, id);
      case (Marked(_, k), Refuse(fault)) => NoNewId(w, m.(status := Uncertain), fault, Idle, id);
      case (Submitted(_, k), Doubt(fault)) => NoNewId(w, m.(status := Uncertain), fault, Idle, id);
      case (Submitted(_, k), Confirm(reference, fault)) =>
        NoNewId(w, Confirmed(m, k, reference), fault, SendStep(w, e).task, id);
      case _ =>
    }
  }

  /** Some call of the run put this content into the journal. */
  ghost predicate Asked(es: seq<Event>, m: Message) {
    exists k :: 0 <= k < |es| && es[k].Enqueue? && FreshOutbound(es[k].m) && SameContent(es[k].m, m)
  }

  /** Whatever happens to it, an outbound record says what the call that queued it was given. */
  lemma {:induction false} ContentIsWhatWasAsked(w: World, es: seq<Event>, id: nat)
    requires Fresh(w) && id in Run(w, es).journal.records && Run(w, es).journal.records[id].direction == Outbound
    ensures Asked(es, Run(w, es).journal.records[id])
    decreases |es|
  {
    hide Step, Inv, FreshOutbound, SameContent;
    FreshIsFine(w);
    if es == [] {
      assert false;
    } else {
      var before, e := es[..|es| - 1], es[|es| - 1];
      assert es == before + [e];
      RunAppend(w, before, e);
      RunKeeps(w, before);
      var v := Run(w, before);
      StepEvolves(v, e, id);
      if id in v.journal.records {
        ContentIsWhatWasAsked(w, before, id);
        var k :| 0 <= k < |before| && before[k].Enqueue? && FreshOutbound(before[k].m) && SameContent(before[k].m, v.journal.records[id]);
        SameContentTrans(before[k].m, v.journal.records[id], Step(v, e).journal.records[id]);
        assert es[k] == before[k];
      } else {
        OnlyEnqueueCreates(v, e, id);
        SameContentId(e.m, id);
        assert es[|es| - 1] == e;
      }
    }
  }

  lemma SameContentTrans(a: Message, b: Message, c: Message)
    requires SameContent(a, b) && Evolves(b, c) && b.direction == Outbound
    ensures SameContent(a, c)
  {
  }

  lemma SameContentId(m: Message, id: nat)
    ensures SameContent(m, m.(id := id))
  {
  }

  lemma {:induction false} RunConcat(w: World, a: seq<Event>, b: seq<Event>)
    ensures Run(w, a + b) == Run(Run(w, a), b)
    decreases |a|
  {
    hide Step;
    if a == [] {
      assert a + b == b;
    } else {
      assert (a + b)[1..] == a[1..] + b;
      RunConcat(Step(w, a[0]), a[1..], b);
    }
  }

  lemma {:induction false} RunAppend(w: World, es: seq<Event>, e: Event)
    ensures Run(w, es + [e]) == Step(Run(w, es), e)
    decreases |es|
  {
    hide Step;
    if es == [] {
      assert [e][1..] == [];
    } else {
      RunAppend(Step(w, es[0]), es[1..], e);
      assert (es + [e])[1..] == es[1..] + [e];
    }
  }
}
