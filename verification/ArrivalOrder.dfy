/**
 * The parts of one message arriving in any order, with repeats: what the journal holds
 * afterwards, and when that is exactly one received message.
 */
module ArrivalOrder {
  import opened Bytes
  import opened UserData
  import opened Journal
  import opened Inbound
  import opened Reassembly
  import DeliverPdu

  /** Nothing goes wrong. */
  ghost const CALM: Env := Env(Ok, NoFault, (_: nat) => Ok, Ok, NoFault, (_: nat) => NoFault)

  ghost function Texts(parts: seq<Deliver>, n: nat): seq<byte>
    requires n <= |parts|
  {
    if n == 0 then [] else Texts(parts, n - 1) + parts[n - 1].text
  }

  /** Part k + 1 of one message is parts[k]. */
  ghost predicate OneMessage(parts: seq<Deliver>) {
    && 1 <= |parts| <= MAX_SEGMENTS
    && (forall k :: 0 <= k < |parts| ==> WellDecoded(parts[k]) && parts[k].concat.present)
    && (forall k :: 0 <= k < |parts| ==> parts[k].concat.part == k + 1 && KeyOf(parts[k]) == KeyOf(parts[0]))
    && parts[0].concat.total == |parts|
    && |Texts(parts, |parts|)| < 4096
  }

  /** The received message, under one of the encodings the parts may have. */
  ghost function WholeMessage(parts: seq<Deliver>, encoding: Encoding): Message
    requires parts != []
  {
    AssembledRecord(parts[0].(encoding := encoding), parts[0].timestamp, Texts(parts, |parts|))
  }

  ghost predicate Order(parts: seq<Deliver>, order: seq<nat>) {
    forall i :: 0 <= i < |order| ==> order[i] < |parts|
  }

  ghost predicate Covers(parts: seq<Deliver>, order: seq<nat>) {
    Order(parts, order) && forall k: nat :: k < |parts| ==> k in order
  }

  /** The journal after the parts arrived in that order. */
  ghost function Arrivals(s: State, parts: seq<Deliver>, order: seq<nat>): State
    requires OneMessage(parts) && Order(parts, order)
  {
    if order == [] then s
    else Persist(Arrivals(s, parts, order[..|order| - 1]), parts[order[|order| - 1]], CALM).state
  }

  // ----- the same on sets -----

  /** collected: the parts waiting; received: the encodings under which the whole message is stored. */
  datatype View = View(collected: set<nat>, received: set<Encoding>)

  function Indices(n: nat): (r: set<nat>)
    ensures forall i: nat :: i in r <==> i < n
    ensures |r| == n
  {
    if n == 0 then {} else Indices(n - 1) + {n - 1}
  }

  function Arrive(v: View, parts: seq<Deliver>, k: nat): View
    requires k < |parts|
  {
    var collected := v.collected + {k};
    if collected == Indices(|parts|) then View({}, v.received + {parts[k].encoding}) else v.(collected := collected)
  }

  ghost function ArriveAll(v: View, parts: seq<Deliver>, order: seq<nat>): View
    requires Order(parts, order)
  {
    if order == [] then v
    else Arrive(ArriveAll(v, parts, order[..|order| - 1]), parts, order[|order| - 1])
  }

  lemma {:induction false} ArriveAllSplit(v: View, parts: seq<Deliver>, a: seq<nat>, b: seq<nat>)
    requires Order(parts, a) && Order(parts, b)
    ensures Order(parts, a + b) && ArriveAll(v, parts, a + b) == ArriveAll(ArriveAll(v, parts, a), parts, b)
    decreases |b|
  {
    if b == [] {
      assert a + b == a;
    } else {
      var n := |b| - 1;
      ArriveAllSplit(v, parts, a, b[..n]);
      assert (a + b)[..|a + b| - 1] == a + b[..n];
    }
  }

  /** Until the first completion the collected parts are those that arrived. */
  lemma {:induction false} CollectedUntilComplete(parts: seq<Deliver>, order: seq<nat>)
    requires |parts| > 0 && Order(parts, order)
    ensures var v := ArriveAll(View({}, {}), parts, order);
      && v.collected <= Indices(|parts|) && v.collected != Indices(|parts|)
      && (v.received == {} ==> forall k :: k in order ==> k in v.collected)
      && (forall e :: e in v.received ==> exists k :: 0 <= k < |parts| && parts[k].encoding == e)
    decreases |order|
  {
    if order == [] {
      assert 0 in Indices(|parts|);
    } else {
      var n := |order| - 1;
      CollectedUntilComplete(parts, order[..n]);
      assert 0 in Indices(|parts|);
      assert order == order[..n] + [order[n]];
    }
  }

  /** Once every part has arrived the message has been completed. */
  lemma CoveredIsReceived(parts: seq<Deliver>, order: seq<nat>)
    requires |parts| > 0 && Covers(parts, order)
    ensures ArriveAll(View({}, {}), parts, order).received != {}
  {
    CollectedUntilComplete(parts, order);
    var v := ArriveAll(View({}, {}), parts, order);
    var all := Indices(|parts|);
    assert v.received == {} ==> v.collected == all;
  }

  ghost predicate SameEncoding(parts: seq<Deliver>) {
    forall k :: 0 <= k < |parts| ==> parts[k].encoding == parts[0].encoding
  }

  lemma SameEncodingReceived(parts: seq<Deliver>, order: seq<nat>)
    requires |parts| > 0 && Covers(parts, order) && SameEncoding(parts)
    ensures ArriveAll(View({}, {}), parts, order).received == {parts[0].encoding}
  {
    CollectedUntilComplete(parts, order);
    CoveredIsReceived(parts, order);
    var r := ArriveAll(View({}, {}), parts, order).received;
    var e :| e in r;
  }

  /** Every index but one, lowest first. */
  ghost function AllBut(n: nat, k: nat): (r: seq<nat>)
    ensures forall i :: 0 <= i < |r| ==> r[i] < n && r[i] != k
    ensures forall j: nat :: j < n && j != k ==> j in r
  {
    if n == 0 then [] else if n - 1 == k then AllBut(n - 1, k) else AllBut(n - 1, k) + [n - 1]
  }

  ghost function Elements(order: seq<nat>): set<nat> {
    set i | i in order
  }

  lemma ElementsSnoc(order: seq<nat>)
    requires order != []
    ensures Elements(order) == Elements(order[..|order| - 1]) + {order[|order| - 1]}
  {
    assert order == order[..|order| - 1] + [order[|order| - 1]];
  }

  lemma {:induction false} WithoutOneIncomplete(v: View, parts: seq<Deliver>, order: seq<nat>, k: nat)
    requires k < |parts| && Order(parts, order) && k !in order && v.collected == {}
    ensures ArriveAll(v, parts, order) == View(Elements(order), v.received)
    decreases |order|
  {
    hide Indices;
    if order != [] {
      var n := |order| - 1;
      WithoutOneIncomplete(v, parts, order[..n], k);
      ElementsSnoc(order);
      assert k !in Elements(order) && k in Indices(|parts|);
    }
  }

  ghost function EndingWith(parts: seq<Deliver>, k: nat): seq<nat> {
    AllBut(|parts|, k) + [k]
  }

  lemma CompletedBy(v: View, parts: seq<Deliver>, k: nat)
    requires k < |parts| && v.collected == {}
    ensures Covers(parts, EndingWith(parts, k))
    ensures ArriveAll(v, parts, EndingWith(parts, k)) == View({}, v.received + {parts[k].encoding})
  {
    hide Indices, AllBut;
    var most := AllBut(|parts|, k);
    WithoutOneIncomplete(v, parts, most, k);
    assert EndingWith(parts, k)[..|most|] == most;
    assert Elements(most) + {k} == Indices(|parts|);
  }

  /** Every part once with a last, then every part again with b last. */
  ghost function Twice(parts: seq<Deliver>, a: nat, b: nat): seq<nat> {
    EndingWith(parts, a) + EndingWith(parts, b)
  }

  lemma TwiceReceived(parts: seq<Deliver>, a: nat, b: nat)
    requires a < |parts| && b < |parts|
    ensures Covers(parts, Twice(parts, a, b))
    ensures ArriveAll(View({}, {}), parts, Twice(parts, a, b)).received == {parts[a].encoding, parts[b].encoding}
  {
    var v := View({}, {});
    CompletedBy(v, parts, a);
    CompletedBy(View({}, {parts[a].encoding}), parts, b);
    ArriveAllSplit(v, parts, EndingWith(parts, a), EndingWith(parts, b));
  }

  // ----- the journal shows the view -----

  function EncodingsOf(parts: seq<Deliver>): set<Encoding> {
    set k | 0 <= k < |parts| :: parts[k].encoding
  }

  /** Records that were not there before. */
  ghost function NewIds(s0: State, s: State): set<nat> {
    s.records.Keys - s0.records.Keys
  }

  /** What the journal s, started from s0, has to do with a view. */
  ghost predicate Shows(s0: State, s: State, parts: seq<Deliver>, v: View)
    requires OneMessage(parts)
  {
    && InboundInv(s) && Collected(s, parts, v.collected) && Completed(s, parts, v.received)
    && v.collected <= Indices(|parts|) && v.collected != Indices(|parts|) && v.received <= EncodingsOf(parts)
    && |NewIds(s0, s)| <= |v.collected| + |v.received|
    && OnlyThisMessage(s0, s, parts)
  }

  ghost predicate Collected(s: State, parts: seq<Deliver>, collected: set<nat>)
    requires parts != []
  {
    && (forall k: nat :: k in collected ==> k < |parts| && PartIs(s, KeyOf(parts[0]), k, parts[k]))
    && (forall k: nat :: k < |parts| && k !in collected ==> !HasPart(s, KeyOf(parts[0]), k + 1))
  }

  ghost predicate PartIs(s: State, key: Key, k: nat, d: Deliver) {
    HasPart(s, key, k + 1) && Part(s, key, k + 1).text == d.text && Part(s, key, k + 1).timestamp == d.timestamp
  }

  ghost predicate Completed(s: State, parts: seq<Deliver>, received: set<Encoding>)
    requires parts != []
  {
    forall e :: e in received <==> Known(s, WholeMessage(parts, e))
  }

  /** Old records are as they were, or were free to prune; new ones are parts or completions of this message. */
  ghost predicate OnlyThisMessage(s0: State, s: State, parts: seq<Deliver>)
    requires parts != []
  {
    && (forall id :: id in s0.records && id in s.records ==> s.records[id] == s0.records[id])
    && (forall id :: id in s0.records && id !in s.records ==> Prunable(s0.records[id], s0.protect, s0.watermark))
    && (forall id :: id in s.records && id !in s0.records ==> id >= s0.nextId && OfThisMessage(s.records[id], parts))
    && s0.nextId <= s.nextId && s.protect == s0.protect && s.watermark == s0.watermark
  }

  ghost predicate OfThisMessage(m: Message, parts: seq<Deliver>)
    requires parts != []
  {
    || IsPartOf(m, KeyOf(parts[0]), m.concat.part)
    || (m.direction == Inbound && m.status == Received && m.sender == parts[0].sender
        && m.timestamp == parts[0].timestamp && m.text == Texts(parts, |parts|))
  }

  /** Free slots and prunable records together hold the parts and one completion per encoding. */
  ghost predicate Room(s0: State, parts: seq<Deliver>) {
    |s0.records| + |parts| + |EncodingsOf(parts)| <= MAX_RECORDS + |PrunableIds(s0)|
  }

  /** The journal before the first part: room for the message, and no trace of it. */
  ghost predicate Beforehand(s: State, parts: seq<Deliver>)
    requires parts != []
  {
    && InboundInv(s) && Room(s, parts)
    && NoParts(s, KeyOf(parts[0]))
    && (forall e :: !Known(s, WholeMessage(parts, e)))
  }

  /** s' is s with record n, and perhaps without an old record that was free to prune. */
  ghost predicate Added(s0: State, s: State, s': State, n: Message) {
    && n.id == s.nextId && n.id !in s.records && n.id in s'.records && s'.records[n.id] == n
    && (forall id :: id in s'.records && id != n.id ==> id in s.records && s'.records[id] == s.records[id])
    && (forall id :: id in s.records && id !in s'.records ==>
          id in s0.records && s.records[id] == s0.records[id] && Prunable(s0.records[id], s0.protect, s0.watermark))
    && s'.nextId == s.nextId + 1 && s'.protect == s.protect && s'.watermark == s.watermark
  }

  /** If no old prunable record is left, what is stored is old and kept, or new. */
  lemma SizeIfNoneLeft(s0: State, s: State)
    requires PrunableIds(s0) * s.records.Keys == {}
    ensures |s.records| + |PrunableIds(s0)| <= |s0.records| + |NewIds(s0, s)|
  {
    hide Prunable;
    var kept := s0.records.Keys - PrunableIds(s0);
    assert PrunableIds(s0) <= s0.records.Keys;
    assert s0.records.Keys == kept + PrunableIds(s0);
    forall id | id in s.records.Keys ensures id in kept + NewIds(s0, s) {
      assert id in PrunableIds(s0) ==> id in PrunableIds(s0) * s.records.Keys;
    }
    SubsetSize(s.records.Keys, kept + NewIds(s0, s));
  }

  lemma OldPrunableLeft(s0: State, s: State, parts: seq<Deliver>) returns (id: nat)
    requires parts != [] && OnlyThisMessage(s0, s, parts)
    requires |s.records| == MAX_RECORDS && |s0.records| + |NewIds(s0, s)| < MAX_RECORDS + |PrunableIds(s0)|
    ensures id in s0.records && id in PrunableIds(s)
  {
    hide OfThisMessage, Prunable;
    if PrunableIds(s0) * s.records.Keys == {} {
      SizeIfNoneLeft(s0, s);
      assert false;
    }
    id :| id in PrunableIds(s0) * s.records.Keys;
  }

  lemma FreeSlotAdds(s0: State, s: State, m: Message)
    requires Valid(s) && Storable(m) && m.id == 0 && |s.records| < MAX_RECORDS
    ensures Save(s, m, NoFault).err == Ok && Added(s0, s, Save(s, m, NoFault).state, m.(id := s.nextId))
  {
    hide Storable, Prunable, PrunableIds;
  }

  lemma VictimAdds(s0: State, s: State, m: Message)
    requires Valid(s) && Storable(m) && m.id == 0 && |s.records| == MAX_RECORDS && PrunableIds(s) != {}
    requires var victim := Min(PrunableIds(s));
             victim in s0.records && victim in s.records && s.records[victim] == s0.records[victim] && Prunable(s0.records[victim], s0.protect, s0.watermark)
    ensures Save(s, m, NoFault).err == Ok && Added(s0, s, Save(s, m, NoFault).state, m.(id := s.nextId))
  {
    hide Storable, Prunable, PrunableIds, Min;
    assert s.nextId !in s.records;
    var victim := Min(PrunableIds(s));
    var s' := Save(s, m, NoFault).state;
    assert s'.records == (s.records - {victim})[s.nextId := m.(id := s.nextId)];
  }

  /** With room left a save succeeds, if need be by pruning an old record. */
  lemma SaveFindsRoom(s0: State, s: State, parts: seq<Deliver>, m: Message)
    requires parts != [] && Valid(s0) && Valid(s) && OnlyThisMessage(s0, s, parts) && Storable(m) && m.id == 0
    requires |s0.records| + |NewIds(s0, s)| < MAX_RECORDS + |PrunableIds(s0)|
    ensures Save(s, m, NoFault).err == Ok && Added(s0, s, Save(s, m, NoFault).state, m.(id := s.nextId))
  {
    hide Storable, Prunable, OfThisMessage, Save, Added, NewIds;
    if |s.records| < MAX_RECORDS {
      FreeSlotAdds(s0, s, m);
    } else {
      var id := OldPrunableLeft(s0, s, parts);
      var victim := Min(PrunableIds(s));
      assert victim <= id < s0.nextId;
      VictimAdds(s0, s, m);
    }
  }

  lemma NewIdsGrow(s0: State, s: State, s': State, n: Message)
    requires Valid(s0) && s0.nextId <= s.nextId && Added(s0, s, s', n)
    ensures |NewIds(s0, s')| <= |NewIds(s0, s)| + 1
  {
    hide Storable, Prunable;
    SubsetSize(NewIds(s0, s'), NewIds(s0, s) + {n.id});
  }

  lemma SamePart(s: State, s': State, key: Key, k: nat, d: Deliver)
    requires InboundInv(s') && PartIs(s, key, k, d)
    requires PartId(s, key, k + 1) in s'.records && s'.records[PartId(s, key, k + 1)] == s.records[PartId(s, key, k + 1)]
    ensures PartIs(s', key, k, d)
  {
    hide InboundInv;
    PartIsUnique(s', key, k + 1, PartId(s, key, k + 1));
  }

  /** Adding a record that is no part of the message, or its missing part k. */
  lemma CollectedGrows(s0: State, s: State, s': State, parts: seq<Deliver>, c: set<nat>, m: Message)
    requires OneMessage(parts) && Collected(s, parts, c) && InboundInv(s') && Added(s0, s, s', m)
    ensures m.status == Received ==> Collected(s', parts, c)
    ensures forall k :: 0 <= k < |parts| && m == PartialRecord(parts[k]).(id := m.id) ==> Collected(s', parts, c + {k})
  {
    hide InboundInv, Texts, WellDecoded, PartIs, HasPart, IsPartOf, Added;
    var key := KeyOf(parts[0]);
    forall j: nat | j in c ensures PartIs(s', key, j, parts[j]) {
      StillPart(s0, s, s', key, j, parts[j], m);
    }
    forall j: nat | j < |parts| && j !in c ensures HasPart(s', key, j + 1) <==> IsPartOf(m, key, j + 1) {
      NewPartOrNone(s0, s, s', key, j, m);
    }
    if m.status == Received { ReceivedIsNoPart(m, key); }
    forall k | 0 <= k < |parts| && m == PartialRecord(parts[k]).(id := m.id) ensures Collected(s', parts, c + {k}) {
      ThisPart(s0, s, s', parts, k, m);
    }
  }

  lemma StillPart(s0: State, s: State, s': State, key: Key, j: nat, part: Deliver, m: Message)
    requires PartIs(s, key, j, part) && InboundInv(s') && Added(s0, s, s', m)
    ensures PartIs(s', key, j, part)
  {
    hide InboundInv;
    assert IsPartOf(Part(s, key, j + 1), key, j + 1);
    SamePart(s, s', key, j, part);
  }

  lemma NewPartOrNone(s0: State, s: State, s': State, key: Key, j: nat, m: Message)
    requires !HasPart(s, key, j + 1) && Added(s0, s, s', m)
    ensures HasPart(s', key, j + 1) <==> IsPartOf(m, key, j + 1)
  {
    hide IsPartOf;
    assert s'.records[m.id] == m;
  }

  lemma ReceivedIsNoPart(m: Message, key: Key)
    requires m.status == Received
    ensures forall n :: !IsPartOf(m, key, n)
  {
  }

  lemma ThisPart(s0: State, s: State, s': State, parts: seq<Deliver>, k: nat, m: Message)
    requires OneMessage(parts) && InboundInv(s') && Added(s0, s, s', m) && k < |parts| && m == PartialRecord(parts[k]).(id := m.id)
    ensures PartIs(s', KeyOf(parts[0]), k, parts[k])
    ensures forall n: nat :: n != k + 1 ==> !IsPartOf(m, KeyOf(parts[0]), n)
  {
    hide InboundInv, Texts, WellDecoded;
    assert IsPartOf(m, KeyOf(parts[0]), k + 1);
    PartIsUnique(s', KeyOf(parts[0]), k + 1, m.id);
  }

  lemma KnownGrows(s0: State, s: State, s': State, m: Message, n: Message)
    requires Added(s0, s, s', m) && !Known(s0, n)
    ensures Known(s', n) <==> Known(s, n) || SameIdentity(m, n.sender, n.timestamp, n.encoding, n.text)
  {
    hide Prunable;
    assert s'.records[m.id] == m;
    if Known(s, n) {
      var id :| id in s.records && SameIdentity(s.records[id], n.sender, n.timestamp, n.encoding, n.text);
      assert id in s'.records && s'.records[id] == s.records[id];
    }
  }

  /** Adding a record that is no completion, or the completion under encoding e. */
  lemma CompletedGrows(s0: State, s: State, s': State, parts: seq<Deliver>, r: set<Encoding>, m: Message)
    requires parts != [] && Completed(s, parts, r) && Added(s0, s, s', m)
    requires forall e :: !Known(s0, WholeMessage(parts, e))
    ensures m.status == Partial ==> Completed(s', parts, r)
    ensures forall e :: m == WholeMessage(parts, e).(id := m.id) ==> Completed(s', parts, r + {e})
  {
    hide Texts, Known, Added;
    forall e { KnownGrows(s0, s, s', m, WholeMessage(parts, e)); }
  }

  lemma OnlyGrows(s0: State, s: State, s': State, parts: seq<Deliver>, m: Message)
    requires parts != [] && Valid(s0) && OnlyThisMessage(s0, s, parts) && OfThisMessage(m, parts) && Added(s0, s, s', m)
    ensures OnlyThisMessage(s0, s', parts)
  {
    hide OfThisMessage, Prunable, Storable;
  }

  lemma FilePartCalm(s0: State, s: State, parts: seq<Deliver>, v: View, k: nat)
    requires OneMessage(parts) && Shows(s0, s, parts, v) && Beforehand(s0, parts) && k < |parts|
    ensures var f := FilePart(s, parts[k], CALM);
      var c := v.collected + {k};
      && f.err == Ok && InboundInv(f.state) && Collected(f.state, parts, c) && Completed(f.state, parts, v.received)
      && |NewIds(s0, f.state)| <= |c| + |v.received| && OnlyThisMessage(s0, f.state, parts)
  {
    hide InboundInv, Texts, Save, Storable, Indices, IsPartOf, Collected, Completed, OnlyThisMessage, OneMessage, Beforehand, NewIds, EncodingsOf;
    PartFields(parts, k);
    if k in v.collected {
      AlreadyCollected(s, parts, v.collected, k);
      assert v.collected + {k} == v.collected;
    } else {
      NotCollected(s, parts, v.collected, k);
      NewPartCalm(s0, s, parts, v, k);
    }
  }

  lemma AlreadyCollected(s: State, parts: seq<Deliver>, c: set<nat>, k: nat)
    requires parts != [] && Collected(s, parts, c) && k in c && k < |parts|
    ensures PartIs(s, KeyOf(parts[0]), k, parts[k])
  {
  }

  lemma NotCollected(s: State, parts: seq<Deliver>, c: set<nat>, k: nat)
    requires parts != [] && Collected(s, parts, c) && k !in c && k < |parts|
    ensures !HasPart(s, KeyOf(parts[0]), k + 1)
  {
  }

  lemma NotEmpty(parts: seq<Deliver>)
    requires OneMessage(parts)
    ensures |parts| > 0
  {
  }

  lemma PartFields(parts: seq<Deliver>, k: nat)
    requires OneMessage(parts) && k < |parts|
    ensures var d := parts[k];
      && KeyOf(d) == KeyOf(parts[0]) && d.concat.part == k + 1 && d.concat.present && d.concat.total == |parts| <= MAX_SEGMENTS
      && WellDecoded(d) && Storable(PartialRecord(d)) && d.encoding in EncodingsOf(parts)
  {
  }

  lemma NewPartCalm(s0: State, s: State, parts: seq<Deliver>, v: View, k: nat)
    requires OneMessage(parts) && Shows(s0, s, parts, v) && Beforehand(s0, parts) && k < |parts| && k !in v.collected
    requires !HasPart(s, KeyOf(parts[0]), k + 1)
    ensures var o := Save(s, PartialRecord(parts[k]), NoFault);
      var c := v.collected + {k};
      && o.err == Ok && InboundInv(o.state) && Collected(o.state, parts, c) && Completed(o.state, parts, v.received)
      && |NewIds(s0, o.state)| <= |c| + |v.received| && OnlyThisMessage(s0, o.state, parts)
  {
    hide Texts, Save, Storable, Indices, Collected, Completed, OnlyThisMessage, OneMessage, InboundInv, Added, EncodingsOf, NoParts, PrunableIds, Known,
         NewIds, Room;
    PartFields(parts, k);
    InvValid(s);
    InvValid(s0);
    RoomForPart(s0, s, parts, v, k);
    var d := parts[k];
    var m := PartialRecord(d);
    var o := Save(s, m, NoFault);
    SaveFindsRoom(s0, s, parts, m);
    SavePartKeeps(s, d, NoFault);
    var n := m.(id := s.nextId);
    OnlyMonotone(s0, s, parts);
    NewIdsGrow(s0, s, o.state, n);
    CollectedGrows(s0, s, o.state, parts, v.collected, n);
    CompletedGrows(s0, s, o.state, parts, v.received, n);
    OnlyGrows(s0, s, o.state, parts, n);
  }

  /** The counts of what is stored leave room for one more part. */
  lemma RoomForPart(s0: State, s: State, parts: seq<Deliver>, v: View, k: nat)
    requires OneMessage(parts) && Shows(s0, s, parts, v) && Beforehand(s0, parts) && k < |parts| && k !in v.collected
    ensures |s0.records| + |NewIds(s0, s)| < MAX_RECORDS + |PrunableIds(s0)|
    ensures |v.collected + {k}| == |v.collected| + 1
  {
    hide Texts, Collected, Completed, OnlyThisMessage, OneMessage, InboundInv, EncodingsOf, NoParts, PrunableIds, Known;
    SubsetSize(v.collected, Indices(|parts|) - {k});
    EncodingCount(v.received, EncodingsOf(parts));
  }

  lemma OnlyMonotone(s0: State, s: State, parts: seq<Deliver>)
    requires parts != [] && OnlyThisMessage(s0, s, parts)
    ensures s0.nextId <= s.nextId
  {
  }

  lemma EncodingCount(r: set<Encoding>, all: set<Encoding>)
    requires r <= all
    ensures |r| <= |all| && (r != all ==> |r| < |all|)
  {
    var rest := all - r;
    assert all == r + rest;
  }

  ghost predicate First(c: set<nat>, n: nat) {
    forall k: nat :: k < n ==> k in c
  }

  lemma FirstStep(c: set<nat>, n: nat)
    ensures First(c, n) <==> n == 0 || (First(c, n - 1) && n - 1 in c)
  {
  }

  /** With the parts in c stored, gathering succeeds exactly if none of the first n is missing. */
  lemma {:induction false} GatherCollected(s: State, parts: seq<Deliver>, c: set<nat>, n: nat)
    requires OneMessage(parts) && Collected(s, parts, c) && n <= |parts|
    ensures var err := Gather(s, KeyOf(parts[0]), n, CALM.gather);
      && err == (if First(c, n) then Ok else NotFound)
      && (err == Ok ==> Joined(s, KeyOf(parts[0]), n) == Texts(parts, n))
    decreases n
  {
    hide OneMessage, Collected, HasPart, First;
    FirstStep(c, n);
    NotEmpty(parts);
    if n > 0 {
      GatherCollected(s, parts, c, n - 1);
      TextsGrow(parts, n, |parts|);
      TextsBound(parts);
      if n - 1 in c {
        AlreadyCollected(s, parts, c, n - 1);
      } else {
        NotCollected(s, parts, c, n - 1);
      }
    }
  }

  lemma TextsBound(parts: seq<Deliver>)
    requires OneMessage(parts)
    ensures |Texts(parts, |parts|)| < 4096
  {
  }

  lemma {:induction false} TextsGrow(parts: seq<Deliver>, m: nat, n: nat)
    requires m <= n <= |parts|
    ensures |Texts(parts, m)| <= |Texts(parts, n)|
    decreases n - m
  {
    if m < n { TextsGrow(parts, m, n - 1); }
  }

  /** Without faults exactly the named records go. */
  lemma {:induction false} DeleteAllCalm(s: State, ids: seq<nat>)
    requires Valid(s) && forall i :: 0 <= i < |ids| ==> ids[i] in s.records
    ensures var s' := DeleteAll(s, ids, CALM.deletes);
      s'.records == s.records - Elements(ids)
    decreases |ids|
  {
    hide Storable;
    if ids == [] {
      assert Elements(ids) == {};
    } else {
      var n := |ids| - 1;
      DeleteAllCalm(s, ids[..n]);
      ElementsSnoc(ids);
      assert 0 !in s.records;
      assert ids[n] in s.records;
    }
  }

  /** The last missing part completes the message. */
  lemma CompletionCalm(s0: State, s: State, parts: seq<Deliver>, received: set<Encoding>, k: nat)
    requires OneMessage(parts) && Beforehand(s0, parts) && k < |parts| && received <= EncodingsOf(parts)
    requires InboundInv(s) && Collected(s, parts, Indices(|parts|)) && Completed(s, parts, received)
    requires |NewIds(s0, s)| <= |parts| + |received| && OnlyThisMessage(s0, s, parts)
    ensures var a := Assemble(s, parts[k], CALM);
      a.err == Ok && Shows(s0, a.state, parts, View({}, received + {parts[k].encoding}))
  {
    hide InboundInv, Texts, Save, Storable, Indices, IsPartOf, Collected, Completed, OnlyThisMessage, OneMessage, SaveOnce, Gather, Joined, DeleteAll, Shows, NewIds, EncodingsOf, Room, Known, NoParts;
    PartFields(parts, k);
    GatherCollected(s, parts, Indices(|parts|), |parts|);
    WholeIs(s, parts, k);
    var e := parts[k].encoding;
    var w := Whole(s, parts[k]);
    var saved := SaveOnce(s, w, CALM.identity, CALM.assembled);
    SaveOnceCalm(s0, s, parts, received, k);
    DeleteParts(s0, s, saved.state, parts, received + {e});
  }

  lemma WholeIs(s: State, parts: seq<Deliver>, k: nat)
    requires OneMessage(parts) && k < |parts|
    requires Collected(s, parts, Indices(|parts|))
    ensures HasParts(s, KeyOf(parts[k]), |parts|) && Whole(s, parts[k]) == WholeMessage(parts, parts[k].encoding)
    ensures Storable(Whole(s, parts[k]))
  {
    hide Texts, Joined, Gather, OneMessage, HasPart, HasParts, Collected, First;
    NotEmpty(parts);
    PartFields(parts, k);
    PartFields(parts, 0);
    AllFirst(|parts|);
    GatherCollected(s, parts, Indices(|parts|), |parts|);
    TextsBound(parts);
    AlreadyCollected(s, parts, Indices(|parts|), 0);
  }

  lemma AllFirst(n: nat)
    ensures First(Indices(n), n) && (n > 0 ==> 0 in Indices(n))
  {
  }

  lemma CompletedAt(s: State, parts: seq<Deliver>, received: set<Encoding>, e: Encoding)
    requires parts != [] && Completed(s, parts, received)
    ensures e in received <==> Known(s, WholeMessage(parts, e))
  {
  }

  lemma SelfStays(s: State)
    ensures PartsStay(s, s)
  {
  }

  lemma SaveOnceCalm(s0: State, s: State, parts: seq<Deliver>, received: set<Encoding>, k: nat)
    requires OneMessage(parts) && Beforehand(s0, parts) && k < |parts| && received <= EncodingsOf(parts)
    requires InboundInv(s) && Collected(s, parts, Indices(|parts|)) && Completed(s, parts, received)
    requires |NewIds(s0, s)| <= |parts| + |received| && OnlyThisMessage(s0, s, parts)
    ensures var e := parts[k].encoding;
      var f := SaveOnce(s, WholeMessage(parts, e), Ok, NoFault);
      var r := received + {e};
      && f.err == Ok && InboundInv(f.state) && Collected(f.state, parts, Indices(|parts|)) && Completed(f.state, parts, r)
      && |NewIds(s0, f.state)| <= |parts| + |r| && OnlyThisMessage(s0, f.state, parts)
      && PartsStay(s, f.state)
  {
    hide InboundInv, Texts, Save, Storable, Indices, Collected, OnlyThisMessage, OneMessage, Known, PartsStay, ReceivedKept, Completed, Added, EncodingsOf, NoParts, PrunableIds, NewIds;
    NotEmpty(parts);
    InvValid(s0);
    CompletedAt(s, parts, received, parts[k].encoding);
    PartFields(parts, k);
    WholeIs(s, parts, k);
    InvValid(s);
    var e := parts[k].encoding;
    var w := WholeMessage(parts, e);
    if e in received {
      SelfStays(s);
      assert received + {e} == received;
    } else {
      EncodingCount(received, EncodingsOf(parts));
      SaveFindsRoom(s0, s, parts, w);
      SaveReceivedKeeps(s, w, NoFault);
      NewSaveStays(s, w, NoFault);
      var s' := Save(s, w, NoFault).state;
      var n := w.(id := s.nextId);
      OnlyMonotone(s0, s, parts);
      NewIdsGrow(s0, s, s', n);
      CollectedGrows(s0, s, s', parts, Indices(|parts|), n);
      CompletedGrows(s0, s, s', parts, received, n);
      OnlyGrows(s0, s, s', parts, n);
    }
  }

  lemma {:induction false} PartIdsCount(s: State, key: Key, n: nat)
    requires HasParts(s, key, n)
    ensures |Elements(PartIds(s, key, n))| == n
    ensures forall id :: id in Elements(PartIds(s, key, n)) ==> id in s.records && 1 <= s.records[id].concat.part <= n
    ensures forall id :: id in Elements(PartIds(s, key, n)) ==> IsPartOf(s.records[id], key, s.records[id].concat.part)
    decreases n
  {
    var ids := PartIds(s, key, n);
    if n == 0 {
      assert Elements(ids) == {};
    } else {
      PartIdsCount(s, key, n - 1);
      ElementsSnoc(ids);
      assert ids[..n - 1] == PartIds(s, key, n - 1);
      assert IsPartOf(s.records[ids[n - 1]], key, n);
    }
  }

  predicate Own(m: Message, key: Key) {
    IsPartOf(m, key, m.concat.part)
  }

  ghost predicate NoParts(s: State, key: Key) {
    forall id :: id in s.records ==> !Own(s.records[id], key)
  }

  /** Everything but the parts of the message is still there. */
  ghost predicate PartsGone(s: State, s': State, key: Key) {
    && (forall id :: id in s'.records ==> id in s.records && s'.records[id] == s.records[id])
    && (forall id :: id in s.records && id !in s'.records ==> Own(s.records[id], key))
    && NoParts(s', key) && |s.records.Keys - s'.records.Keys| == key.total
  }

  lemma DeleteParts(s0: State, s: State, s1: State, parts: seq<Deliver>, r: set<Encoding>)
    requires OneMessage(parts) && InboundInv(s) && InboundInv(s1) && PartsStay(s, s1) && r <= EncodingsOf(parts)
    requires HasParts(s, KeyOf(parts[0]), |parts|)
    requires Completed(s1, parts, r) && OnlyThisMessage(s0, s1, parts)
    requires |NewIds(s0, s1)| <= |parts| + |r|
    requires NoParts(s0, KeyOf(parts[0]))
    ensures Shows(s0, DeleteAll(s1, PartIds(s, KeyOf(parts[0]), |parts|), CALM.deletes), parts, View({}, r))
  {
    hide InboundInv, Texts, IsPartOf, Completed, OnlyThisMessage, OneMessage, DeleteAll, PartsStay, NoParts, Collected, HasPart, NewIds, EncodingsOf, Own, PartId, PartsGone;
    NotEmpty(parts);
    PartFields(parts, 0);
    var key := KeyOf(parts[0]);
    var ids := PartIds(s, key, |parts|);
    var s' := DeleteAll(s1, ids, CALM.deletes);
    DeleteAllEffect(s1, ids, CALM.deletes);
    DeletedAreGone(s, s1, key);
    NewIdsShrink(s0, s1, s', parts);
    GoneMeansNone(s1, s', key);
    NoneCollected(s', parts);
    StillCompleted(s1, s', parts, r);
    StillOnly(s0, s1, s', parts);
    assert 0 in Indices(|parts|);
  }

  lemma PartsAreListed(s: State, s1: State, key: Key, id: nat)
    requires InboundInv(s) && InboundInv(s1) && PartsStay(s, s1) && HasParts(s, key, key.total)
    requires id in s1.records && Own(s1.records[id], key)
    ensures id in Elements(PartIds(s, key, key.total))
  {
    hide Apart;
    var k := s1.records[id].concat.part;
    assert PartOk(s1.records[id]);
    var mine := PartIds(s, key, key.total)[k - 1];
    assert IsPartOf(s.records[mine], key, k);
    PartIsUnique(s1, key, k, id);
    PartIsUnique(s1, key, k, mine);
  }

  lemma DeletedAreGone(s: State, s1: State, key: Key)
    requires InboundInv(s) && InboundInv(s1) && PartsStay(s, s1) && HasParts(s, key, key.total)
    ensures PartsGone(s1, DeleteAll(s1, PartIds(s, key, key.total), CALM.deletes), key)
  {
    hide InboundInv, DeleteAll, Elements, HasParts;
    InvValid(s1);
    var ids := PartIds(s, key, key.total);
    PartIdsCount(s, key, key.total);
    forall id | id in Elements(ids) ensures id in s1.records && Own(s1.records[id], key) {
      assert StoredPart(s.records[id]);
    }
    DeletedExactly(s1, ids);
    forall id | id in s1.records && Own(s1.records[id], key) ensures id in Elements(ids) {
      PartsAreListed(s, s1, key, id);
    }
    WithoutThese(s1, DeleteAll(s1, ids, CALM.deletes), key, Elements(ids));
  }

  lemma WithoutThese(s: State, s': State, key: Key, gone: set<nat>)
    requires s'.records == s.records - gone && gone <= s.records.Keys && |gone| == key.total
    requires forall id :: id in s.records ==> (Own(s.records[id], key) <==> id in gone)
    ensures PartsGone(s, s', key)
  {
    hide Own;
    assert s.records.Keys - s'.records.Keys == gone;
  }

  lemma SizeWithout(a: set<nat>, b: set<nat>, c: set<nat>)
    requires b <= a && (a - b) !! c
    ensures |b - c| + |a - b| == |a - c|
  {
    assert a - c == (b - c) + (a - b);
  }

  /** Only new records went. */
  lemma NewIdsShrink(s0: State, s: State, s': State, parts: seq<Deliver>)
    requires parts != [] && OnlyThisMessage(s0, s, parts) && NoParts(s0, KeyOf(parts[0])) && PartsGone(s, s', KeyOf(parts[0]))
    ensures |NewIds(s0, s')| + KeyOf(parts[0]).total == |NewIds(s0, s)|
  {
    hide OfThisMessage, Prunable, IsPartOf;
    SizeWithout(s.records.Keys, s'.records.Keys, s0.records.Keys);
  }

  lemma DeletedExactly(s: State, ids: seq<nat>)
    requires Valid(s) && Elements(ids) <= s.records.Keys
    ensures DeleteAll(s, ids, CALM.deletes).records == s.records - Elements(ids)
  {
    hide Storable, DeleteAll;
    forall i | 0 <= i < |ids| ensures ids[i] in s.records {
      assert ids[i] in Elements(ids);
    }
    DeleteAllCalm(s, ids);
  }

  lemma NoneCollected(s: State, parts: seq<Deliver>)
    requires parts != [] && NoParts(s, KeyOf(parts[0]))
    ensures Collected(s, parts, {})
  {
  }

  lemma GoneMeansNone(s: State, s': State, key: Key)
    requires PartsGone(s, s', key)
    ensures NoParts(s', key)
  {
  }

  lemma StillCompleted(s: State, s': State, parts: seq<Deliver>, r: set<Encoding>)
    requires parts != [] && PartsGone(s, s', KeyOf(parts[0])) && Completed(s, parts, r)
    ensures Completed(s', parts, r)
  {
    hide Texts, NoParts;
    forall e ensures Known(s', WholeMessage(parts, e)) <==> Known(s, WholeMessage(parts, e)) {
      SameKnown(s, s', KeyOf(parts[0]), WholeMessage(parts, e));
    }
  }

  lemma SameKnown(s: State, s': State, key: Key, w: Message)
    requires PartsGone(s, s', key)
    ensures Known(s', w) <==> Known(s, w)
  {
    hide NoParts;
    if Known(s, w) {
      var id :| id in s.records && SameIdentity(s.records[id], w.sender, w.timestamp, w.encoding, w.text);
      assert !Own(s.records[id], key);
    }
  }

  lemma StillOnly(s0: State, s: State, s': State, parts: seq<Deliver>)
    requires parts != [] && PartsGone(s, s', KeyOf(parts[0])) && OnlyThisMessage(s0, s, parts)
    requires NoParts(s0, KeyOf(parts[0])) && s'.nextId == s.nextId && s'.protect == s.protect && s'.watermark == s.watermark
    ensures OnlyThisMessage(s0, s', parts)
  {
    hide Texts, OfThisMessage, IsPartOf, Prunable;
  }

  /** One arrival does to the journal what Arrive does to the view. */
  lemma ArrivalShows(s0: State, s: State, parts: seq<Deliver>, v: View, k: nat)
    requires OneMessage(parts) && Shows(s0, s, parts, v) && Beforehand(s0, parts) && k < |parts|
    ensures Persist(s, parts[k], CALM).err == Ok
    ensures Shows(s0, Persist(s, parts[k], CALM).state, parts, Arrive(v, parts, k))
  {
    hide InboundInv, Texts, Indices, IsPartOf, Collected, Completed, OnlyThisMessage, OneMessage, FilePart, Gather, Beforehand, NewIds, EncodingsOf, SaveOnce, DeleteAll, Joined;
    PartFields(parts, k);
    FilePartCalm(s0, s, parts, v, k);
    var s1 := FilePart(s, parts[k], CALM).state;
    var c := v.collected + {k};
    GatherCollected(s1, parts, c, |parts|);
    if c == Indices(|parts|) {
      CompletionCalm(s0, s1, parts, v.received, k);
    }
  }

  /** Any number of arrivals in any order. */
  lemma {:induction false} ArrivalsShow(s: State, parts: seq<Deliver>, order: seq<nat>)
    requires OneMessage(parts) && Beforehand(s, parts) && Order(parts, order)
    ensures Shows(s, Arrivals(s, parts, order), parts, ArriveAll(View({}, {}), parts, order))
    decreases |order|
  {
    hide InboundInv, Texts, IsPartOf, Persist, NoParts, Collected, Known, OneMessage, OfThisMessage;
    if order == [] {
      NotEmpty(parts);
      NoneCollected(s, parts);
      assert 0 in Indices(|parts|);
    } else {
      var n := |order| - 1;
      ArrivalsShow(s, parts, order[..n]);
      ArrivalShows(s, Arrivals(s, parts, order[..n]), parts, ArriveAll(View({}, {}), parts, order[..n]), order[n]);
    }
  }

  // ----- how many received messages -----

  /** Received messages that were not there before. */
  ghost function NewReceived(s0: State, s: State): set<nat> {
    set id | id in s.records && id !in s0.records && s.records[id].direction == Inbound && s.records[id].status == Received
  }

  ghost predicate ReceivedOnce(s0: State, s: State, parts: seq<Deliver>)
    requires parts != []
  {
    exists id :: NewReceived(s0, s) == {id} && s.records[id].sender == parts[0].sender
                 && s.records[id].timestamp == parts[0].timestamp && s.records[id].text == Texts(parts, |parts|)
  }

  lemma NotBefore(s0: State, s: State, parts: seq<Deliver>, e: Encoding, id: nat)
    requires parts != [] && Beforehand(s0, parts) && OnlyThisMessage(s0, s, parts) && id in s.records
    requires var w := WholeMessage(parts, e); SameIdentity(s.records[id], w.sender, w.timestamp, w.encoding, w.text)
    ensures id !in s0.records
  {
    hide InboundInv, Texts, NoParts;
    assert !Known(s0, WholeMessage(parts, e));
  }

  lemma CompletionRecord(s0: State, s: State, parts: seq<Deliver>, v: View, e: Encoding) returns (id: nat)
    requires OneMessage(parts) && Beforehand(s0, parts) && Shows(s0, s, parts, v) && e in v.received
    ensures id in NewReceived(s0, s) && s.records[id].encoding == e
    ensures s.records[id].sender == parts[0].sender && s.records[id].timestamp == parts[0].timestamp
    ensures s.records[id].text == Texts(parts, |parts|)
  {
    hide InboundInv, Texts, Collected, OneMessage;
    var w := WholeMessage(parts, e);
    id :| id in s.records && SameIdentity(s.records[id], w.sender, w.timestamp, w.encoding, w.text);
    NotBefore(s0, s, parts, e, id);
  }

  /** If all parts have one encoding, every order that brings them all leaves exactly one received message. */
  lemma OnceInAnyOrder(s: State, parts: seq<Deliver>, order: seq<nat>)
    requires OneMessage(parts) && Beforehand(s, parts) && Covers(parts, order) && SameEncoding(parts)
    ensures ReceivedOnce(s, Arrivals(s, parts, order), parts)
  {
    hide Texts, Shows, Beforehand, OneMessage, Arrivals, ArriveAll, NewReceived, SameEncoding;
    NotEmpty(parts);
    ArrivalsShow(s, parts, order);
    SameEncodingReceived(parts, order);
    var e := parts[0].encoding;
    var s' := Arrivals(s, parts, order);
    var v := ArriveAll(View({}, {}), parts, order);
    var id := CompletionRecord(s, s', parts, v, e);
    forall other | other in NewReceived(s, s') ensures other == id {
      OnlyOneWhole(s, s', parts, v, id, other);
    }
    assert NewReceived(s, s') == {id};
  }

  /** Two received messages under the same encoding are one. */
  lemma OnlyOneWhole(s0: State, s: State, parts: seq<Deliver>, v: View, id: nat, other: nat)
    requires OneMessage(parts) && Shows(s0, s, parts, v) && v.received == {parts[0].encoding}
    requires id in NewReceived(s0, s) && other in NewReceived(s0, s)
    ensures other == id
  {
    hide Texts, Collected, Completed, OneMessage, OnlyThisMessage, PartOk;
    NewIsWhole(s0, s, parts, v, id);
    NewIsWhole(s0, s, parts, v, other);
    assert Apart(s.records[other], s.records[id]) || other == id;
  }

  lemma NewIsWhole(s0: State, s: State, parts: seq<Deliver>, v: View, id: nat)
    requires OneMessage(parts) && Shows(s0, s, parts, v) && id in NewReceived(s0, s)
    ensures s.records[id].encoding in v.received
    ensures SameIdentity(s.records[id], parts[0].sender, parts[0].timestamp, s.records[id].encoding, Texts(parts, |parts|))
  {
    hide InboundInv, Texts, Collected, OneMessage, EncodingsOf, Indices;
    NotEmpty(parts);
    var w := WholeMessage(parts, s.records[id].encoding);
    assert OfThisMessage(s.records[id], parts);
    assert SameIdentity(s.records[id], w.sender, w.timestamp, w.encoding, w.text);
  }

  /** Two new received messages of that sender hold the text. */
  ghost predicate ReceivedTwice(s0: State, s: State, sender: seq<byte>, text: seq<byte>) {
    exists i, j :: i != j && i in NewReceived(s0, s) && j in NewReceived(s0, s)
                   && s.records[i].sender == s.records[j].sender == sender && s.records[i].text == s.records[j].text == text
  }

  lemma TwiceIsNotOnce(s0: State, s: State, parts: seq<Deliver>, sender: seq<byte>, text: seq<byte>)
    requires parts != [] && ReceivedTwice(s0, s, sender, text)
    ensures !ReceivedOnce(s0, s, parts)
  {
    hide NewReceived, Texts;
    var i, j :| i != j && i in NewReceived(s0, s) && j in NewReceived(s0, s);
    forall id ensures NewReceived(s0, s) != {id} {
      assert i !in {id} || j !in {id};
    }
  }

  /** Two encodings: the message is received twice if it is sent twice with different parts last. */
  lemma TwiceIfMixed(s: State, parts: seq<Deliver>, a: nat, b: nat)
    requires OneMessage(parts) && Beforehand(s, parts) && a < |parts| && b < |parts|
    requires parts[a].encoding != parts[b].encoding
    ensures Covers(parts, Twice(parts, a, b))
    ensures ReceivedTwice(s, Arrivals(s, parts, Twice(parts, a, b)), parts[0].sender, Texts(parts, |parts|))
  {
    hide Texts, IsPartOf, Persist, Collected, Indices, ArriveAll, Twice, Beforehand, OneMessage, Arrivals, NewReceived, Shows;
    var order := Twice(parts, a, b);
    TwiceReceived(parts, a, b);
    ArrivalsShow(s, parts, order);
    var v := ArriveAll(View({}, {}), parts, order);
    var s' := Arrivals(s, parts, order);
    var i := CompletionRecord(s, s', parts, v, parts[a].encoding);
    var j := CompletionRecord(s, s', parts, v, parts[b].encoding);
    assert i != j;
  }

  ghost predicate OnceAfter(s: State, parts: seq<Deliver>, order: seq<nat>)
    requires OneMessage(parts) && Covers(parts, order)
  {
    ReceivedOnce(s, Arrivals(s, parts, order), parts)
  }

  /**
   * Exactly one received message in every order with repeats, holding the parts joined by number,
   * if and only if all parts have the same encoding.
   */
  lemma ExactlyOneReceived(s: State, parts: seq<Deliver>)
    requires OneMessage(parts) && Beforehand(s, parts)
    ensures (forall order :: Covers(parts, order) ==> OnceAfter(s, parts, order)) <==> SameEncoding(parts)
  {
    hide Arrivals, ReceivedOnce, Beforehand, OneMessage, Covers;
    if SameEncoding(parts) {
      forall order | Covers(parts, order) ensures OnceAfter(s, parts, order) {
        OnceInAnyOrder(s, parts, order);
      }
    } else {
      var k :| 0 <= k < |parts| && parts[k].encoding != parts[0].encoding;
      TwiceIfMixed(s, parts, 0, k);
      TwiceIsNotOnce(s, Arrivals(s, parts, Twice(parts, 0, k)), parts, parts[0].sender, Texts(parts, |parts|));
      assert !OnceAfter(s, parts, Twice(parts, 0, k));
    }
  }

  /** Two parts with one letter each, the second as UCS-2. */
  const MIXED: seq<Deliver> := [
    Deliver([0x2B, 0x31], Gsm7Bit, Concat(true, false, 7, 2, 1), DeliverPdu.NewYear(), [0x41]),
    Deliver([0x2B, 0x31], Ucs2Bit, Concat(true, false, 7, 2, 2), DeliverPdu.NewYear(), [0x42])]

  /** An empty journal receives that message twice if its parts arrive as 2, 1, 1, 2. */
  lemma MixedReceivedTwice()
    ensures OneMessage(MIXED) && Beforehand(State(map[], 1, true, 0), MIXED)
    ensures ReceivedTwice(State(map[], 1, true, 0), Arrivals(State(map[], 1, true, 0), MIXED, [1, 0, 0, 1]), [0x2B, 0x31], [0x41, 0x42])
  {
    hide Arrivals, ReceivedTwice, OneMessage, Beforehand, Twice, Texts, Covers;
    var s := State(map[], 1, true, 0);
    MixedIsOneMessage();
    TwoTwice(MIXED);
    TwiceIfMixed(s, MIXED, 0, 1);
    MixedTexts();
  }

  lemma TwoTwice(parts: seq<Deliver>)
    requires |parts| == 2
    ensures Twice(parts, 0, 1) == [1, 0, 0, 1]
  {
    assert AllBut(2, 0) == [1] by { assert AllBut(1, 0) == AllBut(0, 0) == []; }
    assert AllBut(2, 1) == [0] by { assert AllBut(1, 1) == AllBut(0, 1) + [0]; }
  }

  lemma MixedTexts()
    ensures Texts(MIXED, 2) == [0x41, 0x42]
  {
    assert Texts(MIXED, 2) == Texts(MIXED, 1) + [0x42];
    assert Texts(MIXED, 1) == Texts(MIXED, 0) + [0x41];
  }

  lemma MixedIsOneMessage()
    ensures OneMessage(MIXED) && Beforehand(State(map[], 1, true, 0), MIXED)
  {
    assert Texts(MIXED, 2) == Texts(MIXED, 1) + [0x42];
    assert Texts(MIXED, 1) == Texts(MIXED, 0) + [0x41];
    EncodingCount(EncodingsOf(MIXED), {Gsm7Bit, Ucs2Bit});
  }

  /** Mixed or not, the text, the sender and the time never depend on the order. */
  lemma ContentInAnyOrder(s: State, parts: seq<Deliver>, order: seq<nat>, id: nat)
    requires OneMessage(parts) && Beforehand(s, parts) && Covers(parts, order)
    ensures NewReceived(s, Arrivals(s, parts, order)) != {}
    ensures var s' := Arrivals(s, parts, order);
      id in NewReceived(s, s') ==>
        SameIdentity(s'.records[id], parts[0].sender, parts[0].timestamp, s'.records[id].encoding, Texts(parts, |parts|))
  {
    hide Texts, IsPartOf, Persist, Collected, Indices, ArriveAll;
    ArrivalsShow(s, parts, order);
    CoveredIsReceived(parts, order);
    var v := ArriveAll(View({}, {}), parts, order);
    var e :| e in v.received;
    var i := CompletionRecord(s, Arrivals(s, parts, order), parts, v, e);
    if id in NewReceived(s, Arrivals(s, parts, order)) {
      NewIsWhole(s, Arrivals(s, parts, order), parts, v, id);
    }
  }
}
