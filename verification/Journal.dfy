/**
 * The SMS journal as a value: what the durable store holds and what one store call does to it.
 *
 * Non-volatile writes can fail. A failing call says which step failed and whether the flash
 * took the step all the same, since a failed commit leaves that open.
 */
module Journal {
  import opened Bytes
  import opened UserData

  const MAX_RECORDS := 128
  const MAX_SEGMENTS := 16

  datatype Direction = Inbound | Outbound

  datatype Status =
    Partial | Received | Queued | Sending | Sent | Delivered | Failed | Unsupported | Uncertain

  /** A record. Segment masks are sets of zero-based segment indices. */
  datatype Message = Message(
    id: nat,
    direction: Direction,
    status: Status,
    encoding: Encoding,
    sender: seq<byte>,
    recipient: seq<byte>,
    timestamp: seq<byte>,
    text: seq<byte>,
    rawPdu: seq<byte>,
    concat: Concat,
    reportRequested: bool,
    reference: nat,
    segmentCount: nat,
    sent: set<nat>,
    delivered: set<nat>,
    failed: set<nat>,
    modemReference: map<nat, byte>,
    inflight: nat,
    attempts: nat)

  /** What sms_store_save insists on: terminated fields and at most sixteen segments. */
  predicate Storable(m: Message) {
    && |m.text| < 4096 && |m.sender| < 24 && |m.recipient| < 24 && |m.timestamp| < 40 && |m.rawPdu| < 353
    && m.segmentCount <= MAX_SEGMENTS
  }

  /** records: by id; nextId: the durable allocator; protect, watermark: volatile replay protection. */
  datatype State = State(records: map<nat, Message>, nextId: nat, protect: bool, watermark: nat)

  ghost predicate Valid(s: State) {
    && s.nextId >= 1 && |s.records| <= MAX_RECORDS
    && forall id :: id in s.records ==> 1 <= id < s.nextId && s.records[id].id == id && Storable(s.records[id])
  }

  /** record_prunable. */
  predicate Prunable(m: Message, protect: bool, watermark: nat) {
    match m.status
    case Received => !protect || m.id <= watermark
    case Sent => !m.reportRequested
    case Delivered => true
    case Failed => true
    case Unsupported => true
    case _ => false
  }

  /** What may be pruned: finished messages, unsupported ones, and received ones that are published or need not be. */
  lemma PrunableExactly(m: Message, protect: bool, watermark: nat)
    ensures Prunable(m, protect, watermark) <==>
      || m.status in {Delivered, Failed, Unsupported}
      || (m.status == Sent && !m.reportRequested)
      || (m.status == Received && !(protect && m.id > watermark))
  {
  }

  function PrunableIds(s: State): set<nat> {
    set id | id in s.records && Prunable(s.records[id], s.protect, s.watermark)
  }

  ghost function Min(ids: set<nat>): (m: nat)
    requires ids != {}
    ensures m in ids && forall x :: x in ids ==> m <= x
  {
    var x :| x in ids;
    var rest := ids - {x};
    assert ids == rest + {x};
    if rest == {} then x
    else
      var y := Min(rest);
      if x <= y then x else y
  }

  /** Where a store call goes wrong. */
  datatype Fault =
    | NoFault
    | ReadFault
    | EraseFault(erased: bool)
    | IdFault(advanced: bool)
    | WriteFault(stored: bool)

  /** How a store call ends. */
  datatype Err = Ok | InvalidArg | InvalidSize | NoMem | NotFound | NvsError

  datatype Outcome = Outcome(state: State, err: Err, id: nat)

  function Without(s: State, id: nat): State {
    s.(records := s.records - {id})
  }

  function With(s: State, m: Message): State {
    s.(records := s.records[m.id := m])
  }

  /** allocate_id and write_slot for a record that takes a free slot. */
  function Insert(s: State, m: Message, fault: Fault): Outcome {
    var id := s.nextId;
    var taken := s.(nextId := id + 1);
    match fault
    case IdFault(advanced) => Outcome(if advanced then taken else s, NvsError, 0)
    case WriteFault(stored) => Outcome(if stored then With(taken, m.(id := id)) else taken, NvsError, 0)
    case _ => Outcome(With(taken, m.(id := id)), Ok, id)
  }

  /** sms_store_save of a record without an id. */
  ghost function SaveNew(s: State, m: Message, fault: Fault): Outcome {
    if !Storable(m) then Outcome(s, InvalidArg, 0)
    else if fault.ReadFault? then Outcome(s, NvsError, 0)
    else if |s.records| < MAX_RECORDS then Insert(s, m, fault)
    else if PrunableIds(s) == {} then Outcome(s, NoMem, 0)
    else
      var victim := Min(PrunableIds(s));
      if fault.EraseFault? then Outcome(if fault.erased then Without(s, victim) else s, NvsError, 0)
      else Insert(Without(s, victim), m, fault)
  }

  /** sms_store_save of a record that has an id. */
  function SaveExisting(s: State, m: Message, fault: Fault): Outcome {
    if !Storable(m) then Outcome(s, InvalidArg, m.id)
    else if fault.ReadFault? then Outcome(s, NvsError, m.id)
    else if m.id !in s.records && |s.records| >= MAX_RECORDS then Outcome(s, NoMem, m.id)
    else
      match fault
      case WriteFault(stored) => Outcome(if stored then With(s, m) else s, NvsError, m.id)
      case _ => Outcome(With(s, m), Ok, m.id)
  }

  ghost function Save(s: State, m: Message, fault: Fault): Outcome {
    if m.id == 0 then SaveNew(s, m, fault) else SaveExisting(s, m, fault)
  }

  /** sms_store_delete. */
  function Delete(s: State, id: nat, fault: Fault): Outcome {
    if id == 0 then Outcome(s, InvalidArg, id)
    else if fault.ReadFault? then Outcome(s, NvsError, id)
    else if id !in s.records then Outcome(s, NotFound, id)
    else
      match fault
      case EraseFault(erased) => Outcome(if erased then Without(s, id) else s, NvsError, id)
      case _ => Outcome(Without(s, id), Ok, id)
  }

  // ----- what every store call keeps -----

  lemma WithoutSize(s: State, id: nat)
    requires id in s.records
    ensures |Without(s, id).records| == |s.records| - 1
  {
    assert Without(s, id).records.Keys == s.records.Keys - {id};
  }

  lemma WithSize(s: State, m: Message)
    ensures |With(s, m).records| == |s.records| + if m.id in s.records then 0 else 1
  {
    assert With(s, m).records.Keys == s.records.Keys + {m.id};
  }

  lemma InsertKeepsValid(s: State, m: Message, fault: Fault)
    requires Valid(s) && Storable(m) && |s.records| < MAX_RECORDS
    ensures Valid(Insert(s, m, fault).state)
  {
    hide Storable;
    StorableUnder(m, s.nextId);
    WithSize(s.(nextId := s.nextId + 1), m.(id := s.nextId));
  }

  lemma StorableUnder(m: Message, id: nat)
    requires Storable(m)
    ensures Storable(m.(id := id))
  {
  }

  lemma SaveKeepsValid(s: State, m: Message, fault: Fault)
    requires Valid(s) && m.id < s.nextId
    ensures Valid(Save(s, m, fault).state)
  {
    if m.id != 0 {
      WithSize(s, m);
    } else {
      SaveNewKeepsValid(s, m, fault);
    }
  }

  lemma SaveNewKeepsValid(s: State, m: Message, fault: Fault)
    requires Valid(s)
    ensures Valid(SaveNew(s, m, fault).state)
  {
    hide Prunable, Min, Insert;
    if Storable(m) && !fault.ReadFault? {
      if |s.records| < MAX_RECORDS {
        InsertKeepsValid(s, m, fault);
      } else if PrunableIds(s) != {} {
        var victim := Min(PrunableIds(s));
        WithoutSize(s, victim);
        assert Valid(Without(s, victim));
        InsertKeepsValid(Without(s, victim), m, fault);
      }
    }
  }

  lemma DeleteKeepsValid(s: State, id: nat, fault: Fault)
    requires Valid(s)
    ensures Valid(Delete(s, id, fault).state)
  {
    if id in s.records { WithoutSize(s, id); }
  }

  /** The records a call may have dropped on its own: none, or the smallest prunable id of a full journal. */
  ghost predicate OnlyVictimDropped(s: State, s': State) {
    forall id :: id in s.records && (id !in s'.records || s'.records[id] != s.records[id]) ==>
      |s.records| == MAX_RECORDS && PrunableIds(s) != {} && id == Min(PrunableIds(s)) && id !in s'.records
  }

  /** A new record gets an id above every stored one; other records stay, but for the victim of a full journal. */
  lemma SaveNewEffect(s: State, m: Message, fault: Fault)
    requires Valid(s) && m.id == 0
    ensures var o := Save(s, m, fault);
      && OnlyVictimDropped(s, o.state)
      && (o.err.Ok? ==> o.id == s.nextId && o.id in o.state.records && o.state.records[o.id] == m.(id := o.id))
      && (o.err.Ok? ==> forall id :: id in s.records ==> id < o.id)
      && (forall id :: id in o.state.records && id !in s.records ==> id == s.nextId)
  {
    hide Prunable, Storable, Min, PrunableIds, Insert, OnlyVictimDropped, Valid;
    NextIsAbove(s);
    NothingDropped(s);
    InsertAdds(s, m, fault);
    if PrunableIds(s) != {} && |s.records| >= MAX_RECORDS {
      PrunableIsStored(s);
      VictimDropped(s, m, fault);
    }
  }

  /** What an insertion leaves and adds. */
  ghost predicate Adds(s: State, o: Outcome, m: Message, next: nat) {
    && (forall id :: id in s.records ==> id in o.state.records && o.state.records[id] == s.records[id])
    && (o.err.Ok? ==> o.id == next && o.id in o.state.records && o.state.records[o.id] == m.(id := o.id))
    && (forall id :: id in o.state.records && id !in s.records ==> id == next)
  }

  lemma InsertAdds(s: State, m: Message, fault: Fault)
    requires s.nextId !in s.records
    ensures Adds(s, Insert(s, m, fault), m, s.nextId) && OnlyVictimDropped(s, Insert(s, m, fault).state)
  {
    hide Prunable, PrunableIds, Min;
  }

  lemma NothingDropped(s: State)
    ensures OnlyVictimDropped(s, s)
  {
  }

  lemma NextIsAbove(s: State)
    requires Valid(s)
    ensures forall id :: id in s.records ==> id < s.nextId
    ensures |s.records| <= MAX_RECORDS
  {
    hide Storable;
  }

  lemma VictimDropped(s: State, m: Message, fault: Fault)
    requires s.nextId !in s.records && |s.records| == MAX_RECORDS
    requires PrunableIds(s) != {} && Min(PrunableIds(s)) in s.records
    ensures var victim := Min(PrunableIds(s));
      && OnlyVictimDropped(s, Without(s, victim))
      && Adds(Without(s, victim), Insert(Without(s, victim), m, fault), m, s.nextId)
      && OnlyVictimDropped(s, Insert(Without(s, victim), m, fault).state)
  {
    hide Prunable, PrunableIds, Min;
  }

  lemma PrunableIsStored(s: State)
    requires PrunableIds(s) != {}
    ensures Min(PrunableIds(s)) in s.records
  {
    hide Prunable, Min;
  }

  /** A record that fits its fields is saved if a slot is free or something may be pruned, and refused if not. */
  lemma SavedIfRoom(s: State, m: Message)
    requires Valid(s) && m.id == 0 && |m.text| < 4096 && |m.sender| < 24 && |m.recipient| < 24
    requires |m.timestamp| < 40 && |m.rawPdu| < 353 && m.segmentCount <= MAX_SEGMENTS
    ensures Save(s, m, NoFault).err == Ok <==> |s.records| < 128 || exists id :: id in s.records && Prunable(s.records[id], s.protect, s.watermark)
    ensures Save(s, m, NoFault).err in {Ok, NoMem}
  {
    hide Prunable, Min;
    if id :| id in s.records && Prunable(s.records[id], s.protect, s.watermark) {
      assert id in PrunableIds(s);
    }
    if PrunableIds(s) != {} {
      var id :| id in PrunableIds(s);
    }
  }

  /** One that does not fit is refused, and nothing changes. */
  lemma RefusedIfTooLong(s: State, m: Message, fault: Fault)
    requires |m.text| >= 4096 || |m.sender| >= 24 || |m.recipient| >= 24 || |m.timestamp| >= 40 || |m.rawPdu| >= 353 || m.segmentCount > 16
    ensures Save(s, m, fault).err == InvalidArg && Save(s, m, fault).state == s
  {
  }

  /** Seen from the new state: a record is an old one unchanged, or the new one under the next id. */
  ghost predicate OldOrNew(s: State, s': State, m: Message, next: nat) {
    forall id :: id in s'.records ==>
      if id in s.records then s'.records[id] == s.records[id] else id == next && s'.records[id] == m.(id := id)
  }

  lemma InsertEffect(s: State, m: Message, fault: Fault)
    requires Valid(s)
    ensures OldOrNew(s, Insert(s, m, fault).state, m, s.nextId) && s.nextId <= Insert(s, m, fault).state.nextId
  {
    hide Storable;
  }

  lemma NewRecordEffect(s: State, m: Message, fault: Fault)
    requires Valid(s) && m.id == 0
    ensures var s' := Save(s, m, fault).state; s.nextId <= s'.nextId && OldOrNew(s, s', m, s.nextId)
  {
    hide Storable, Insert, Prunable, Min;
    InsertEffect(s, m, fault);
    if PrunableIds(s) != {} {
      DroppedEffect(s, Min(PrunableIds(s)), m, fault);
    }
  }

  lemma DroppedEffect(s: State, victim: nat, m: Message, fault: Fault)
    requires Valid(s) && victim in s.records
    ensures var s' := Insert(Without(s, victim), m, fault).state; s.nextId <= s'.nextId && OldOrNew(s, s', m, s.nextId)
  {
    hide Storable;
    WithoutSize(s, victim);
    assert Valid(Without(s, victim));
    InsertEffect(Without(s, victim), m, fault);
  }

  /** Rewriting a record touches no other record and never prunes. */
  lemma SaveExistingEffect(s: State, m: Message, fault: Fault)
    requires Valid(s) && m.id != 0
    ensures var o := Save(s, m, fault);
      && (forall id :: id in s.records && id != m.id ==> id in o.state.records && o.state.records[id] == s.records[id])
      && (forall id :: id in o.state.records && id !in s.records ==> id == m.id)
      && (m.id in s.records ==> m.id in o.state.records)
      && (o.err.Ok? ==> m.id in o.state.records && o.state.records[m.id] == m)
      && (!o.err.Ok? && !fault.WriteFault? ==> o.state == s)
  {
    hide Storable;
  }

  /** Whatever is dropped by a save was safe to drop. */
  lemma ProtectedNeverPruned(s: State, m: Message, fault: Fault, id: nat)
    requires Valid(s) && m.id < s.nextId && id in s.records && id != m.id
    requires var r := s.records[id];
             r.status in {Partial, Queued, Sending, Uncertain}
             || (r.status == Sent && r.reportRequested)
             || (r.status == Received && s.protect && s.watermark < r.id)
    ensures id in Save(s, m, fault).state.records && Save(s, m, fault).state.records[id] == s.records[id]
  {
    if m.id == 0 { SaveNewEffect(s, m, fault); } else { SaveExistingEffect(s, m, fault); }
  }

  // ----- pages -----

  function Above(s: State, after: nat): set<nat> {
    set id | id in s.records && id > after
  }

  /** The records above `after`, at most `max` of them, lowest id first. */
  ghost function Page(s: State, after: nat, max: nat): (r: seq<Message>)
    requires Valid(s)
    ensures |r| <= max
    decreases max, after
  {
    if max == 0 || Above(s, after) == {} then []
    else
      var id := Min(Above(s, after));
      [s.records[id]] + Page(s, id, max - 1)
  }

  ghost predicate Ascending(r: seq<Message>, after: nat) {
    (forall i :: 0 <= i < |r| ==> after < r[i].id)
    && forall i, j :: 0 <= i < j < |r| ==> r[i].id < r[j].id
  }

  lemma {:induction false} PageAscends(s: State, after: nat, max: nat)
    requires Valid(s)
    ensures Ascending(Page(s, after, max), after)
    ensures forall i :: 0 <= i < |Page(s, after, max)| ==>
              var m := Page(s, after, max)[i]; m.id in s.records && s.records[m.id] == m
    decreases max
  {
    if max > 0 && Above(s, after) != {} {
      PageAscends(s, Min(Above(s, after)), max - 1);
    }
  }

  lemma PageUnfolds(s: State, after: nat, max: nat)
    requires Valid(s)
    ensures Page(s, after, max) ==
      if max == 0 || Above(s, after) == {} then []
      else [s.records[Min(Above(s, after))]] + Page(s, Min(Above(s, after)), max - 1)
  {
    hide Min, Above;
  }

  lemma Prefixed(x: Message, q: seq<Message>, r: seq<Message>)
    ensures [x] + (q + r) == ([x] + q) + r
    ensures ([x] + q)[|q|] == if q == [] then x else q[|q| - 1]
  {
  }

  lemma OwnId(s: State, id: nat)
    requires Valid(s) && id in s.records
    ensures s.records[id].id == id
  {
    hide Storable;
  }

  /** Reading on from the last id of a page continues the longer page. */
  lemma {:induction false} PagesContinue(s: State, after: nat, first: nat, second: nat)
    requires Valid(s)
    ensures var p := Page(s, after, first);
            var last := if p == [] then after else p[|p| - 1].id;
            |p| == first ==> Page(s, after, first + second) == p + Page(s, last, second)
    ensures var p := Page(s, after, first);
            |p| < first ==> Page(s, after, first + second) == p
    decreases first
  {
    hide Min, Valid, Page;
    PageUnfolds(s, after, first);
    PageUnfolds(s, after, first + second);
    PageUnfolds(s, after, second);
    if first > 0 && Above(s, after) != {} {
      var id := Min(Above(s, after));
      OwnId(s, id);
      PagesContinue(s, id, first - 1, second);
      var q := Page(s, id, first - 1);
      Prefixed(s.records[id], q, Page(s, if q == [] then id else q[|q| - 1].id, second));
    }
  }

  /** A page shorter than asked for holds every record above `after`. */
  lemma {:induction false} ShortPageIsAll(s: State, after: nat, max: nat, id: nat)
    requires Valid(s) && |Page(s, after, max)| < max && id in Above(s, after)
    ensures s.records[id] in Page(s, after, max)
    decreases max
  {
    var least := Min(Above(s, after));
    if id != least { ShortPageIsAll(s, least, max - 1, id); }
  }

  lemma {:induction false} PageFits(s: State, after: nat, max: nat)
    requires Valid(s)
    ensures |Page(s, after, max)| <= |Above(s, after)|
    decreases max
  {
    hide Storable, Min;
    if max > 0 && Above(s, after) != {} {
      var id := Min(Above(s, after));
      PageFits(s, id, max - 1);
      assert Above(s, after) == Above(s, id) + {id};
    }
  }

  /** A page of one record. */
  lemma PageOfOne(s: State, after: nat)
    requires Valid(s)
    ensures Above(s, after) == {} ==> Page(s, after, 1) == []
    ensures Above(s, after) != {} ==> Page(s, after, 1) == [s.records[Min(Above(s, after))]] && Min(Above(s, after)) < s.nextId
    ensures forall id :: id in s.records ==> s.records[id].id == id
  {
    if Above(s, after) != {} {
      var id := Min(Above(s, after));
      assert Page(s, id, 0) == [];
    }
  }

  /** One page of a full journal's size is the whole journal above `after`: each record once, in order. */
  lemma WholeJournalInOnePage(s: State, after: nat)
    requires Valid(s)
    ensures forall id :: id in Above(s, after) ==> s.records[id] in Page(s, after, 129)
    ensures Ascending(Page(s, after, 129), after)
  {
    PageFits(s, after, MAX_RECORDS + 1);
    AboveSize(s, after);
    forall id | id in Above(s, after) ensures s.records[id] in Page(s, after, MAX_RECORDS + 1) {
      ShortPageIsAll(s, after, MAX_RECORDS + 1, id);
    }
    PageAscends(s, after, MAX_RECORDS + 1);
  }

  lemma AboveSize(s: State, after: nat)
    ensures |Above(s, after)| <= |s.records|
  {
    SubsetSize(Above(s, after), s.records.Keys);
  }

  lemma {:induction false} SubsetSize(a: set<nat>, b: set<nat>)
    requires a <= b
    ensures |a| <= |b|
    decreases a
  {
    if a != {} {
      var x :| x in a;
      SubsetSize(a - {x}, b - {x});
    }
  }

  // ----- searches -----

  function IdsWith(s: State, status: Status): set<nat> {
    set id | id in s.records && s.records[id].status == status
  }

  /** Segment i was submitted and the modem gave it that reference. */
  predicate HasReference(m: Message, reference: byte, i: nat) {
    i < m.segmentCount && i in m.sent && i in m.modemReference && m.modemReference[i] == reference
  }

  function FirstFrom(m: Message, reference: byte, i: nat): (r: Option<nat>)
    requires i <= m.segmentCount
    ensures r.Some? ==> HasReference(m, reference, r.value)
    decreases m.segmentCount - i, reference
  {
    if i == m.segmentCount then None
    else if HasReference(m, reference, i) then Some(i)
    else FirstFrom(m, reference, i + 1)
  }

  function FirstSegment(m: Message, reference: byte): (r: Option<nat>)
    ensures r.Some? ==> HasReference(m, reference, r.value)
  {
    FirstFrom(m, reference, 0)
  }

  predicate References(m: Message, recipient: seq<byte>, reference: byte) {
    m.direction == Outbound && m.recipient == recipient && FirstSegment(m, reference).Some?
  }

  function ReferencingIds(s: State, recipient: seq<byte>, reference: byte): set<nat> {
    set id | id in s.records && References(s.records[id], recipient, reference)
  }

  ghost function Max(ids: set<nat>): (m: nat)
    requires ids != {}
    ensures m in ids && forall x :: x in ids ==> x <= m
  {
    var x :| x in ids;
    var rest := ids - {x};
    assert ids == rest + {x};
    if rest == {} then x
    else
      var y := Max(rest);
      if x <= y then y else x
  }
}
