/**
 * MQTT replay of received messages (mqtt_service.c): a durable cursor, one publication in
 * flight, and the pruning watermark, as a machine whose steps interleave with power losses,
 * disconnects, timeouts, failing cursor writes and everything else that happens to the journal.
 */
module Replay {
  import opened Journal

  /** Where the worker task is. */
  datatype Worker =
    | Down
    | Ready
    | Scanning(scan: nat)
    | Found(id: nat)
    | Published(id: nat, packet: nat)
    | Storing(id: nat)
    | Stored(id: nat)

  /**
   * flash: the durable cursor; cursor, inflight, packet: RAM, 0 for none; carried: which message each
   * packet carried; acked: messages the broker acknowledged; queue: acknowledgements not yet handled.
   */
  datatype World = World(
    journal: State,
    flash: nat,
    worker: Worker,
    cursor: nat,
    inflight: nat,
    packet: nat,
    carried: map<nat, nat>,
    acked: set<nat>,
    queue: set<nat>)

  datatype Event =
    | Others(journal: State)
    | PowerLoss
    | Init
    | StartScan
    | ScanNext
    | ScanFails
    | Publish(packet: nat)
    | PublishFails
    | NotePublished
    | PubAck(packet: nat, queued: bool)
    | ClearInflight
    | HandleAck(id: nat)
    | StoreCursor
    | StoreFails(stored: bool)
    | RaiseWatermark
    | Reconfigure(enabled: bool)

  const UINT32_MAX := 0xFFFF_FFFF

  predicate ToPublish(m: Message) {
    m.direction == Inbound && m.status == Received
  }

  ghost predicate IsReceived(s: State, id: nat) {
    id in s.records && ToPublish(s.records[id])
  }

  /** What the rest of the gateway does: received messages are only added, under new ids, or removed. */
  ghost predicate Rely(s: State, s': State) {
    && Valid(s') && s.nextId <= s'.nextId && s'.protect == s.protect && s'.watermark == s.watermark
    && forall id: nat :: IsReceived(s', id) ==> id >= s.nextId || IsReceived(s, id)
  }

  function WithMark(s: State, protect: bool, watermark: nat): State {
    s.(protect := protect, watermark := watermark)
  }

  ghost function WorkerStep(w: World, e: Event): World {
    match (w.worker, e)
    case (Ready, StartScan) => if w.inflight != 0 then w else w.(worker := Scanning(w.cursor))
    case (Scanning(scan), ScanFails) => w.(worker := Ready)
    case (Scanning(scan), ScanNext) =>
      if Above(w.journal, scan) == {} then w.(worker := Ready)
      else
        var id := Min(Above(w.journal, scan));
        w.(worker := if ToPublish(w.journal.records[id]) then Found(id) else Scanning(id))
    case (Found(id), PublishFails) => w.(worker := Ready)
    case (Found(id), Publish(packet)) =>
      if packet == 0 || packet in w.carried then w
      else w.(worker := Published(id, packet), carried := w.carried[packet := id])
    case (Published(id, packet), NotePublished) => w.(worker := Ready, inflight := id, packet := packet)
    case (Ready, HandleAck(id)) =>
      if id !in w.queue then w
      else if id == 0 || w.inflight != id then w.(queue := w.queue - {id})
      else w.(queue := w.queue - {id}, inflight := 0, packet := 0, worker := Storing(id))
    case (Storing(id), StoreFails(stored)) => w.(worker := Ready, flash := if stored then id else w.flash)
    case (Storing(id), StoreCursor) => w.(worker := Stored(id), flash := id, cursor := id)
    case (Stored(id), RaiseWatermark) => w.(worker := Ready, journal := WithMark(w.journal, true, id))
    case (Ready, Reconfigure(enabled)) =>
      w.(journal := WithMark(w.journal, enabled, if enabled then w.cursor else UINT32_MAX))
    case _ => w
  }

  /** One step; an event that the state does not allow changes nothing. */
  ghost function Step(w: World, e: Event): World {
    match e
    case Others(s) => if Rely(w.journal, s) then w.(journal := s) else w
    case PowerLoss =>
      w.(worker := Down, cursor := 0, inflight := 0, packet := 0, queue := {}, journal := WithMark(w.journal, true, 0))
    case Init =>
      if !w.worker.Down? then w
      else w.(worker := Ready, cursor := w.flash, journal := WithMark(w.journal, true, w.flash))
    case PubAck(packet, queued) =>
      if packet !in w.carried then w
      else
        var heard := queued && packet == w.packet && w.inflight != 0;
        w.(acked := w.acked + {w.carried[packet]}, queue := if heard then w.queue + {w.inflight} else w.queue)
    case ClearInflight => w.(inflight := 0, packet := 0)
    case _ => WorkerStep(w, e)
  }

  ghost function Run(w: World, es: seq<Event>): World
    decreases |es|
  {
    if es == [] then w else Run(Step(w, es[0]), es[1..])
  }

  // ----- the invariant -----

  /** Everything received up to here is acknowledged. */
  ghost predicate AckedUpTo(w: World, n: nat) {
    forall id: nat :: IsReceived(w.journal, id) && id <= n ==> id in w.acked
  }

  /** No received message strictly between the cursor and n. */
  ghost predicate Gap(w: World, n: nat) {
    forall id: nat :: IsReceived(w.journal, id) && w.cursor < id ==> n <= id
  }

  /** n is the next message to publish, or was until it was deleted. */
  ghost predicate NextUp(w: World, n: nat) {
    Gap(w, n) && w.cursor < n < w.journal.nextId && w.flash <= n
  }

  ghost predicate WorkerOk(w: World) {
    match w.worker
    case Scanning(scan) => w.cursor <= scan < w.journal.nextId && Gap(w, scan + 1)
    case Found(id) => NextUp(w, id)
    case Published(id, packet) => NextUp(w, id) && packet != 0 && packet in w.carried && w.carried[packet] == id
    case Storing(id) => NextUp(w, id) && id in w.acked
    case Stored(id) => id == w.cursor && w.flash == w.cursor
    case Down => w.cursor == 0
    case Ready => true
  }

  ghost predicate Inv(w: World) {
    && Valid(w.journal) && AckedUpTo(w, w.flash) && w.flash < w.journal.nextId
    && w.cursor <= w.flash && (w.worker.Down? || Gap(w, w.flash))
    && (w.inflight != 0 ==> NextUp(w, w.inflight) && w.packet in w.carried && w.carried[w.packet] == w.inflight)
    && (w.inflight != 0 ==> w.worker.Ready?)
    && w.queue <= w.acked
    && (w.journal.protect ==> w.journal.watermark <= w.cursor)
    && WorkerOk(w)
  }

  /** A journal that never saw a cursor. */
  ghost predicate Fresh(w: World) {
    Valid(w.journal) && w.flash == 0 && w.worker.Down? && w.cursor == 0 && w.inflight == 0 && w.packet == 0
    && w.carried == map[] && w.queue == {} && w.journal.protect && w.journal.watermark == 0
  }

  lemma FreshIsFine(w: World)
    requires Fresh(w)
    ensures Inv(w)
  {
  }

  lemma OthersKeep(w: World, s: State)
    requires Inv(w) && Rely(w.journal, s)
    ensures Inv(w.(journal := s))
  {
    hide Valid, IsReceived;
    var w' := w.(journal := s);
    assert AckedUpTo(w', w.flash);
    forall n: nat | Gap(w, n) && n <= w.journal.nextId ensures Gap(w', n) {
    }
  }

  lemma MarkKeeps(w: World, protect: bool, mark: nat)
    requires Inv(w) && (protect ==> mark <= w.cursor)
    ensures Inv(w.(journal := WithMark(w.journal, protect, mark)))
  {
    var s := WithMark(w.journal, protect, mark);
    assert forall id: nat :: IsReceived(s, id) <==> IsReceived(w.journal, id);
    assert Valid(s);
  }

  lemma WorkerKeeps(w: World, e: Event)
    requires Inv(w)
    ensures Inv(WorkerStep(w, e)) && w.flash <= WorkerStep(w, e).flash
  {
    hide Valid, IsReceived, Min;
    match (w.worker, e)
    case (Scanning(scan), ScanNext) => ScanKeeps(w);
    case (Stored(id), RaiseWatermark) => MarkKeeps(w.(worker := Ready), true, id);
    case (Ready, Reconfigure(enabled)) => MarkKeeps(w, enabled, if enabled then w.cursor else UINT32_MAX);
    case _ =>
  }

  lemma ScanKeeps(w: World)
    requires Inv(w) && w.worker.Scanning?
    ensures Inv(WorkerStep(w, ScanNext))
  {
    hide Storable;
    var above := Above(w.journal, w.worker.scan);
    if above != {} {
      var id := Min(above);
      var w' := WorkerStep(w, ScanNext);
      forall k: nat | IsReceived(w.journal, k) && w.cursor < k ensures id <= k {
        assert k in above;
      }
      assert Gap(w', id) && id < w.journal.nextId;
      assert IsReceived(w.journal, id) <==> ToPublish(w.journal.records[id]);
    }
  }

  lemma StepKeeps(w: World, e: Event)
    requires Inv(w)
    ensures Inv(Step(w, e)) && w.flash <= Step(w, e).flash
  {
    hide Valid, IsReceived;
    match e
    case Others(s) =>
      if Rely(w.journal, s) { OthersKeep(w, s); }
    case PowerLoss =>
      MarkKeeps(w, true, 0);
    case Init =>
      InitKeeps(w);
    case PubAck(packet, queued) =>
    case ClearInflight =>
    case _ =>
      WorkerKeeps(w, e);
  }

  lemma InitKeeps(w: World)
    requires Inv(w)
    ensures Inv(Step(w, Init))
  {
    hide Valid;
    if w.worker.Down? {
      var w1 := w.(worker := Ready, cursor := w.flash);
      assert Inv(w1);
      MarkKeeps(w1, true, w.flash);
    }
  }

  lemma {:induction false} RunKeeps(w: World, es: seq<Event>)
    requires Inv(w)
    ensures Inv(Run(w, es)) && w.flash <= Run(w, es).flash
    decreases |es|
  {
    hide Inv, Step;
    if es != [] {
      StepKeeps(w, es[0]);
      RunKeeps(Step(w, es[0]), es[1..]);
    }
  }

  // ----- the promises -----

  /** Over every run the durable cursor only grows and never passes an unacknowledged message. */
  lemma CursorNeverPassesUnacknowledged(w: World, es: seq<Event>, more: seq<Event>, id: nat)
    requires Fresh(w)
    ensures Run(w, es).flash <= Run(Run(w, es), more).flash
    ensures var w' := Run(w, es);
      IsReceived(w'.journal, id) && id <= w'.flash ==> id in w'.acked
  {
    hide Inv, Step, IsReceived;
    FreshIsFine(w);
    RunKeeps(w, es);
    RunKeeps(Run(w, es), more);
    if IsReceived(Run(w, es).journal, id) && id <= Run(w, es).flash { InvAcked(Run(w, es), id); }
  }

  lemma InvAcked(w: World, id: nat)
    requires Inv(w) && IsReceived(w.journal, id) && id <= w.flash
    ensures id in w.acked
  {
  }

  /** While protection is on, whatever received message may be pruned has been acknowledged. */
  lemma PrunableIsAcknowledged(w: World, es: seq<Event>, id: nat)
    requires Fresh(w)
    ensures var w' := Run(w, es);
      w'.journal.protect && IsReceived(w'.journal, id) && Prunable(w'.journal.records[id], w'.journal.protect, w'.journal.watermark)
      ==> id in w'.acked
  {
    hide Step;
    FreshIsFine(w);
    RunKeeps(w, es);
  }

  lemma {:induction false} RunAppend(w: World, es: seq<Event>, e: Event)
    ensures Run(w, es + [e]) == Step(Run(w, es), e)
    decreases |es|
  {
    hide Step;
    if es == [] {
      assert (es + [e])[1..] == [];
    } else {
      assert (es + [e])[1..] == es[1..] + [e];
      RunAppend(Step(w, es[0]), es[1..], e);
    }
  }
}
