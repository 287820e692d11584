/**
 * The replay functions of mqtt_service.c over the slot store. Each is proved to perform a run
 * of the replay machine, so its promises hold whatever is called, fails or is interrupted.
 */
module ReplayService {
  import opened Bytes
  import opened Journal
  import opened Replay
  import opened SmsStore

  /** How writing the cursor ends; a failed commit may have stored it. */
  datatype CursorWrite = Written | NotWritten(stored: bool)

  /** What one scan meets: whether the client is connected, which reads fail, and the packet id or failure of the publish call. */
  datatype ScanEnv = ScanEnv(connected: bool, readable: nat -> bool, packet: Option<nat>)

  class Replayer {
    const store: Store
    /** Durable cursor. */
    var flash: nat
    var cursor: nat
    var messageId: nat
    var packetId: nat
    ghost var worker: Worker
    ghost var carried: map<nat, nat>
    ghost var acked: set<nat>
    ghost var queue: set<nat>
    ghost const origin: World
    ghost var events: seq<Event>

    ghost function Now(): World
      requires store.Shape()
      reads this, store, store.slots
    {
      World(store.Abs(), flash, worker, cursor, messageId, packetId, carried, acked, queue)
    }

    ghost predicate Valid()
      reads this, store, store.slots
    {
      store.Valid() && Fresh(origin) && Now() == Run(origin, events) && Inv(Now())
    }

    constructor (s: Store)
      requires s.Valid() && s.Abs() == State(map[], 1, true, 0)
      ensures Valid() && store == s && worker.Down? && events == []
    {
      store := s;
      flash, cursor, messageId, packetId := 0, 0, 0, 0;
      worker, carried, acked, queue, events := Down, map[], {}, {}, [];
      origin := World(State(map[], 1, true, 0), 0, Down, 0, 0, 0, map[], {}, {});
      new;
      FreshIsFine(Now());
    }

    /** Book-keeping of the proof: event e has just been performed. */
    ghost method Note(e: Event, before: World)
      requires store.Valid() && Fresh(origin) && before == Run(origin, events) && Inv(before) && Now() == Step(before, e)
      modifies this`events
      ensures Valid() && events == old(events) + [e] && before.flash <= flash
    {
      hide Run, Step, Inv, Fresh;
      RunAppend(origin, events, e);
      StepKeeps(before, e);
      events := events + [e];
    }

    /** The start of mqtt_service_init; an unreadable cursor stops it. */
    method Init(readable: bool) returns (ok: bool)
      requires Valid() && worker.Down?
      modifies this, store
      ensures Valid() && ok == readable
      ensures ok ==> worker.Ready? && cursor == flash == old(flash) && store.protect && store.watermark == flash
      ensures !ok ==> Now() == old(Now())
      ensures acked == old(acked) && OnlyMarks(old(store.Abs()), store.Abs())
    {
      hide Run, Inv, Contents, Distinct, Journal.Valid, Fresh;
      if !readable {
        return false;
      }
      ghost var before := Now();
      cursor := flash;
      store.SetReplayWatermark(true, cursor);
      worker := Ready;
      Note(Replay.Init, before);
      return true;
    }

    /**
     * replay_next_inbound: publishes the oldest received message above the cursor, unless one is in
     * flight. The 128 rounds of the scan are enough to find it.
     */
    method ReplayNextInbound(env: ScanEnv)
      requires Valid() && worker.Ready?
      requires env.packet.Some? ==> env.packet.value != 0 && env.packet.value !in carried
      modifies this
      ensures Valid() && worker.Ready? && flash == old(flash) && cursor == old(cursor) && acked == old(acked) && queue == old(queue)
      ensures !env.connected || old(messageId) != 0 ==> Now() == old(Now())
      ensures env.connected && old(messageId) == 0 ==> Scanned(env, old(carried))
    {
      hide Run, Inv, Contents, Distinct, Journal.Valid, Fresh, NextUp, Min, Unmet, WorkerStep, Visited;
      if !env.connected || messageId != 0 {
        return;
      }
      StartStep(Now());
      WorkerNote(StartScan, Scanning(cursor));
      var scan := cursor;
      ghost var s := store.Abs();
      NothingMet(s, cursor);
      for i := 0 to MAX_RECORDS
        invariant Valid() && worker == Scanning(scan) && messageId == 0 && store.Abs() == s && cursor <= scan
        invariant flash == old(flash) && cursor == old(cursor) && acked == old(acked) && carried == old(carried) && queue == old(queue)
        invariant Unmet(s, cursor, scan, i) && forall k :: 0 <= k < i ==> env.readable(k)
      {
        if !env.readable(i) {
          Unreadable(s, cursor, scan, i, env);
          ScanStops(Now());
          WorkerNote(ScanFails, Ready);
          return;
        }
        var found := store.NextRecord(scan);
        ScanFinds(Now());
        if found.None? {
          WorkerNote(ScanNext, Ready);
          NoneLeft(s, cursor, scan, i);
          return;
        }
        ghost var passed := scan;
        scan := found.value.id;
        if ToPublish(found.value) {
          WorkerNote(ScanNext, Found(scan));
          FirstFound(s, cursor, passed, scan, i, env);
          PublishInboundReplay(scan, env.packet);
          return;
        }
        WorkerNote(ScanNext, Scanning(scan));
        PassedBy(s, cursor, passed, scan, i);
      }
      JournalSize(Now());
      AllMet(s, cursor, scan);
      ScanStops(Now());
      WorkerNote(ScanFails, Ready);
    }

    /** What a scan with nothing in flight has found and published. */
    ghost predicate Scanned(env: ScanEnv, before: map<nat, nat>)
      requires store.Shape()
      reads this, store, store.slots
    {
      if Finds(store.Abs(), cursor, env) && env.packet.Some? then
        && messageId == Min(ReceivedAbove(store.Abs(), cursor)) && packetId == env.packet.value
        && carried == before[packetId := messageId]
      else messageId == 0 && carried == before
    }

    /** The worker moves on and nothing else changes. */
    ghost method WorkerNote(e: Event, next: Worker)
      requires Valid() && Step(Now(), e) == Now().(worker := next)
      modifies this`worker, this`events
      ensures Valid() && worker == next && events == old(events) + [e]
    {
      hide Run, Inv, Contents, Distinct, Journal.Valid, Fresh, Step;
      ghost var before := Now();
      worker := next;
      Note(e, before);
    }

    /** publish_inbound_replay. */
    method PublishInboundReplay(id: nat, packet: Option<nat>)
      requires Valid() && worker == Found(id) && messageId == 0
      requires packet.Some? ==> packet.value != 0 && packet.value !in carried
      modifies this
      ensures Valid() && worker.Ready? && flash == old(flash) && cursor == old(cursor) && acked == old(acked) && queue == old(queue)
      ensures packet.Some? ==> messageId == id && packetId == packet.value && carried == old(carried)[packetId := id]
      ensures packet.Some? ==> NextUp(Now(), messageId)
      ensures packet.None? ==> messageId == 0 && carried == old(carried)
    {
      hide Run, Inv, Contents, Distinct, Journal.Valid, Fresh, NextUp;
      if packet.None? {
        WorkerNote(PublishFails, Ready);
        return;
      }
      FoundIsPositive(Now());
      PublishStep(id, packet.value);
      ghost var before := Now();
      messageId, packetId := id, packet.value;
      worker := Ready;
      Note(NotePublished, before);
      InflightNext(Now());
    }

    /** The packet leaves for the broker. */
    ghost method PublishStep(id: nat, packet: nat)
      requires Valid() && worker == Found(id) && packet != 0 && packet !in carried
      modifies this`carried, this`worker, this`events
      ensures Valid() && worker == Published(id, packet) && carried == old(carried)[packet := id]
    {
      hide Run, Inv, Contents, Distinct, Journal.Valid, Fresh;
      var before := Now();
      carried := carried[packet := id];
      worker := Published(id, packet);
      Note(Publish(packet), before);
    }

    /** replay_inflight_clear, on a disconnect. */
    method InflightClear()
      requires Valid()
      modifies this
      ensures Valid() && worker == old(worker) && messageId == 0 && packetId == 0
      ensures flash == old(flash) && cursor == old(cursor) && acked == old(acked) && carried == old(carried) && queue == old(queue)
    {
      hide Run, Inv, Contents, Distinct, Journal.Valid, Fresh;
      ghost var before := Now();
      messageId, packetId := 0, 0;
      Note(ClearInflight, before);
    }

    /** replay_watchdog: an expired publication is given up and started again, with whatever is then first. */
    method ReplayWatchdog(expired: bool, env: ScanEnv)
      requires Valid() && worker.Ready?
      requires env.packet.Some? ==> env.packet.value != 0 && env.packet.value !in carried
      modifies this
      ensures Valid() && worker.Ready? && flash == old(flash) && cursor == old(cursor) && acked == old(acked) && queue == old(queue)
      ensures !expired || old(messageId) == 0 ==> Now() == old(Now())
      ensures expired && old(messageId) != 0 && env.connected ==> Scanned(env, old(carried))
      ensures expired && old(messageId) != 0 && !env.connected ==> messageId == 0
    {
      hide Run, Inv, Contents, Distinct, Journal.Valid, Fresh;
      if messageId != 0 && expired {
        InflightClear();
        ReplayNextInbound(env);
      }
    }

    /** The PUBLISHED branch of mqtt_event_handler: the broker acknowledged a packet. */
    method OnPublished(packet: nat, queued: bool)
      requires Valid()
      modifies this
      ensures Valid() && worker == old(worker) && flash == old(flash) && cursor == old(cursor)
      ensures carried == old(carried) && acked == old(acked) + (if packet in old(carried) then {old(carried)[packet]} else {})
      ensures messageId == old(messageId) && packetId == old(packetId)
      ensures queue == old(queue) + if queued && packet == packetId && messageId != 0 then {messageId} else {}
    {
      hide Run, Inv, Contents, Distinct, Journal.Valid, Fresh;
      ghost var before := Now();
      var replayId := 0;
      if packet == packetId {
        replayId := messageId;
      }
      if replayId != 0 {
        InflightNext(Now());
      }
      if replayId != 0 && queued {
        queue := queue + {replayId};
      }
      acked := acked + (if packet in carried then {carried[packet]} else {});
      Note(PubAck(packet, queued), before);
    }

    /** replay_cursor_store: flash first, then RAM, then the watermark. */
    method ReplayCursorStore(id: nat, write: CursorWrite) returns (ok: bool)
      requires Valid() && worker == Storing(id)
      modifies this, store
      ensures Valid() && worker.Ready? && ok == write.Written? && OnlyMarks(old(store.Abs()), store.Abs())
      ensures acked == old(acked) && carried == old(carried) && messageId == old(messageId) && flash >= old(flash) && queue == old(queue)
      ensures ok ==> flash == cursor == store.watermark == id && store.protect
      ensures !ok ==> cursor == old(cursor) && store.Abs() == old(store.Abs()) && flash == if write.stored then id else old(flash)
    {
      hide Run, Inv, Contents, Distinct, Journal.Valid, Fresh;
      ghost var before := Now();
      match write
      case NotWritten(stored) =>
        if stored {
          flash := id;
        }
        worker := Ready;
        Note(StoreFails(stored), before);
        return false;
      case Written =>
        flash := id;
        cursor := id;
        worker := Stored(id);
        Note(StoreCursor, before);
        RaiseMark(id);
        return true;
    }

    /** The watermark follows the cursor. */
    method RaiseMark(id: nat)
      requires Valid() && worker == Stored(id)
      modifies this`worker, this`events, store
      ensures Valid() && worker.Ready? && store.protect && store.watermark == id && OnlyMarks(old(store.Abs()), store.Abs())
    {
      hide Run, Inv, Contents, Distinct, Journal.Valid, Fresh;
      ghost var before := Now();
      store.SetReplayWatermark(true, id);
      worker := Ready;
      Note(RaiseWatermark, before);
    }

    /** handle_replay_ack: only the message in flight moves the cursor. */
    method HandleReplayAck(id: nat, write: CursorWrite, env: ScanEnv)
      requires Valid() && worker.Ready? && id in queue
      requires env.packet.Some? ==> env.packet.value != 0 && env.packet.value !in carried
      modifies this, store
      ensures Valid() && worker.Ready? && flash >= old(flash) && acked == old(acked) && OnlyMarks(old(store.Abs()), store.Abs())
      ensures queue == old(queue) - {id}
      ensures id == 0 || old(messageId) != id ==>
                && flash == old(flash) && cursor == old(cursor) && store.Abs() == old(store.Abs())
                && messageId == old(messageId) && packetId == old(packetId) && carried == old(carried)
      ensures id != 0 && old(messageId) == id && write.Written? ==>
                flash == cursor == id && if env.connected then Scanned(env, old(carried)) else messageId == 0
      ensures id != 0 && old(messageId) == id && write.NotWritten? ==>
                && messageId == 0 && cursor == old(cursor) && store.Abs() == old(store.Abs())
                && flash == if write.stored then id else old(flash)
    {
      hide Run, Inv, Contents, Distinct, Journal.Valid, Fresh, NextUp;
      ghost var before := Now();
      var current := messageId == id && id != 0;
      queue := queue - {id};
      if !current {
        Note(HandleAck(id), before);
        return;
      }
      messageId, packetId := 0, 0;
      worker := Storing(id);
      Note(HandleAck(id), before);
      var ok := ReplayCursorStore(id, write);
      if !ok {
        return;
      }
      ReplayNextInbound(env);
    }

    /** The watermark at the end of a reconfiguration. */
    method Reconfigure(enabled: bool)
      requires Valid() && worker.Ready?
      modifies this, store
      ensures Valid() && worker.Ready? && flash == old(flash) && cursor == old(cursor)
      ensures store.protect == enabled && (enabled ==> store.watermark == cursor)
      ensures acked == old(acked) && OnlyMarks(old(store.Abs()), store.Abs())
    {
      hide Run, Inv, Contents, Distinct, Journal.Valid, Fresh;
      ghost var before := Now();
      store.SetReplayWatermark(enabled, if enabled then cursor else UINT32_MAX);
      Note(Replay.Reconfigure(enabled), before);
    }

    /** Power goes away: RAM is lost, the journal starts out protected. */
    method LosePower()
      requires Valid()
      modifies this, store
      ensures Valid() && worker.Down? && flash == old(flash) && acked == old(acked)
      ensures store.protect && store.watermark == 0 && OnlyMarks(old(store.Abs()), store.Abs())
    {
      hide Run, Inv, Contents, Distinct, Journal.Valid, Fresh;
      ghost var before := Now();
      cursor, messageId, packetId := 0, 0, 0;
      worker, queue := Down, {};
      store.SetReplayWatermark(true, 0);
      Note(PowerLoss, before);
    }

    /** Another task used the store in the meantime. */
    ghost method NoteOthers(before: World)
      requires store.Valid() && Fresh(origin) && before == Run(origin, events) && Inv(before)
      requires Rely(before.journal, store.Abs()) && Now() == before.(journal := store.Abs())
      modifies this`events
      ensures Valid()
    {
      hide Run, Inv, Contents, Distinct, Journal.Valid, Fresh, Rely;
      Note(Others(store.Abs()), before);
    }

    /** Whatever was called, failed or interrupted: a message pruning may take has been acknowledged. */
    lemma Promise(id: nat)
      requires Valid() && store.protect && IsReceived(store.Abs(), id)
      ensures Prunable(store.Abs().records[id], store.protect, store.watermark) ==> id in acked
      ensures id <= flash ==> id in acked
    {
      hide Run, Gap;
    }
  }

  /** Records and allocator are as they were. */
  ghost predicate OnlyMarks(s: State, s': State) {
    s' == s.(protect := s'.protect, watermark := s'.watermark)
  }

  lemma InflightNext(w: World)
    requires Inv(w) && w.inflight != 0
    ensures NextUp(w, w.inflight) && w.packet in w.carried
  {
  }

  lemma FoundIsPositive(w: World)
    requires Inv(w) && w.worker.Found?
    ensures w.worker.id > 0
  {
  }

  // ----- the scan -----

  function ReceivedAbove(s: State, cursor: nat): set<nat> {
    set id | id in s.records && id > cursor && s.records[id].direction == Inbound && s.records[id].status == Received
  }

  function Visited(s: State, cursor: nat, scan: nat): set<nat> {
    set id | id in s.records && cursor < id <= scan
  }

  /** A message waits above the cursor, and every record up to it can be read. */
  ghost predicate Finds(s: State, cursor: nat, env: ScanEnv) {
    var waiting := ReceivedAbove(s, cursor);
    waiting != {} && forall k :: 0 <= k < |Visited(s, cursor, Min(waiting))| ==> env.readable(k)
  }

  /** None of the records up to scan is to be published, and these are i records. */
  ghost predicate Unmet(s: State, cursor: nat, scan: nat, i: nat) {
    && (forall id :: id in ReceivedAbove(s, cursor) ==> id > scan)
    && i == |Visited(s, cursor, scan)|
  }

  lemma NothingMet(s: State, cursor: nat)
    ensures Unmet(s, cursor, cursor, 0)
  {
  }

  lemma NoneLeft(s: State, cursor: nat, scan: nat, i: nat)
    requires Unmet(s, cursor, scan, i) && Above(s, scan) == {}
    ensures ReceivedAbove(s, cursor) == {}
  {
    assert ReceivedAbove(s, cursor) <= Above(s, scan);
  }

  /** A read fails before the scan has come to the message that waits. */
  lemma Unreadable(s: State, cursor: nat, scan: nat, i: nat, env: ScanEnv)
    requires Unmet(s, cursor, scan, i) && !env.readable(i)
    ensures !Finds(s, cursor, env)
  {
    hide Min;
    var waiting := ReceivedAbove(s, cursor);
    if waiting != {} {
      var first := Min(waiting);
      var v, v' := Visited(s, cursor, scan), Visited(s, cursor, first);
      assert v + {first} <= v' && first !in v;
      SubsetSize(v + {first}, v');
    }
  }

  lemma FirstFound(s: State, cursor: nat, passed: nat, scan: nat, i: nat, env: ScanEnv)
    requires forall k :: 0 <= k <= i ==> env.readable(k)
    requires Unmet(s, cursor, passed, i) && cursor <= passed && Above(s, passed) != {} && scan == Min(Above(s, passed)) && ToPublish(s.records[scan])
    ensures Finds(s, cursor, env) && Min(ReceivedAbove(s, cursor)) == scan
  {
    hide Min;
    OneMoreVisited(s, cursor, passed, scan);
    assert scan in ReceivedAbove(s, cursor);
    forall id | id in ReceivedAbove(s, cursor) ensures scan <= id {
      assert id in Above(s, passed);
    }
  }

  lemma PassedBy(s: State, cursor: nat, passed: nat, scan: nat, i: nat)
    requires Unmet(s, cursor, passed, i) && cursor <= passed && Above(s, passed) != {} && scan == Min(Above(s, passed)) && !ToPublish(s.records[scan])
    ensures Unmet(s, cursor, scan, i + 1)
  {
    hide Min;
    forall id | id in ReceivedAbove(s, cursor) ensures id > scan {
      assert id in Above(s, passed);
    }
    OneMoreVisited(s, cursor, passed, scan);
  }

  lemma OneMoreVisited(s: State, cursor: nat, passed: nat, scan: nat)
    requires cursor <= passed && Above(s, passed) != {} && scan == Min(Above(s, passed))
    ensures |Visited(s, cursor, scan)| == |Visited(s, cursor, passed)| + 1
  {
    hide Min;
    var v, v' := Visited(s, cursor, passed), Visited(s, cursor, scan);
    forall id | id in v' ensures id in v + {scan} {
      assert id > passed ==> id in Above(s, passed);
    }
    assert v' == v + {scan} && scan !in v;
  }

  /** After as many rounds as there are slots every record has been visited. */
  lemma AllMet(s: State, cursor: nat, scan: nat)
    requires Unmet(s, cursor, scan, MAX_RECORDS) && |s.records| <= MAX_RECORDS
    ensures ReceivedAbove(s, cursor) == {}
  {
    var v := Visited(s, cursor, scan);
    assert v <= s.records.Keys;
    SubsetIsAll(v, s.records.Keys);
    assert ReceivedAbove(s, cursor) <= v;
  }

  lemma SubsetIsAll(a: set<nat>, b: set<nat>)
    requires a <= b && |a| >= |b|
    ensures a == b
  {
    assert b == a + (b - a);
  }

  lemma JournalSize(w: World)
    requires Inv(w)
    ensures |w.journal.records| <= MAX_RECORDS
  {
  }

  lemma StartStep(w: World)
    requires w.worker.Ready? && w.inflight == 0
    ensures Step(w, StartScan) == w.(worker := Scanning(w.cursor))
  {
  }

  lemma ScanStops(w: World)
    requires w.worker.Scanning?
    ensures Step(w, ScanFails) == w.(worker := Ready)
  {
  }

  lemma ScanFinds(w: World)
    requires w.worker.Scanning?
    ensures var above := Above(w.journal, w.worker.scan);
      Step(w, ScanNext) == w.(worker := if above == {} then Ready else if ToPublish(w.journal.records[Min(above)]) then Found(Min(above)) else Scanning(Min(above)))
  {
    hide Min;
  }
}
