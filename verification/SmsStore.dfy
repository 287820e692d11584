/**
 * sms_store.c: 128 slots of non-volatile memory, scanned linearly. Every operation is
 * proved to do to the slots what the journal operation of the same name does to the value.
 */
module SmsStore {
  import opened Bytes
  import opened Journal
  import opened StoreQueries
  import SlotMap

  type Slot = Option<Message>

  function IdOf(m: Message): nat {
    m.id
  }

  ghost predicate Distinct(s: seq<Slot>) {
    SlotMap.Distinct(s, IdOf)
  }

  /** The journal's records in the slots. */
  ghost function Contents(s: seq<Slot>): map<nat, Message>
    requires Distinct(s)
  {
    SlotMap.Contents(s, IdOf)
  }

  lemma ContentsWrite(s: seq<Slot>, i: nat, m: Message)
    requires Distinct(s) && i < |s|
    requires s[i].None? ==> m.id !in Contents(s)
    requires s[i].Some? ==> s[i].value.id == m.id
    ensures Distinct(s[i := Some(m)]) && Contents(s[i := Some(m)]) == Contents(s)[m.id := m]
  {
    hide SlotMap.Distinct, SlotMap.Contents;
    SlotMap.ContentsWrite(s, IdOf, i, m);
    assert (Contents(s) - {m.id})[m.id := m] == Contents(s)[m.id := m];
  }

  lemma ContentsErase(s: seq<Slot>, i: nat)
    requires Distinct(s) && i < |s| && s[i].Some?
    ensures Distinct(s[i := None]) && Contents(s[i := None]) == Contents(s) - {s[i].value.id}
  {
    SlotMap.ContentsErase(s, IdOf, i);
  }

  lemma ContentsSize(s: seq<Slot>)
    requires Distinct(s)
    ensures (forall i :: 0 <= i < |s| ==> s[i].Some?) <==> |Contents(s)| == |s|
    ensures |Contents(s)| <= |s|
  {
    SlotMap.ContentsSize(s, IdOf);
  }

  lemma NotStored(s: seq<Slot>, id: nat)
    requires Distinct(s)
    requires forall j :: 0 <= j < |s| && s[j].Some? ==> s[j].value.id != id
    ensures id !in Contents(s)
  {
    SlotMap.NotStored(s, IdOf, id);
  }

  lemma ContentsAt(s: seq<Slot>, i: nat)
    requires Distinct(s) && i < |s| && s[i].Some?
    ensures s[i].value.id in Contents(s) && Contents(s)[s[i].value.id] == s[i].value
  {
    SlotMap.ContentsAt(s, IdOf, i);
  }

  lemma ContentsFrom(s: seq<Slot>, id: nat) returns (i: nat)
    requires Distinct(s) && id in Contents(s)
    ensures i < |s| && s[i] == Some(Contents(s)[id]) && s[i].value.id == id
  {
    i := SlotMap.ContentsFrom(s, IdOf, id);
  }

  class Store {
    const slots: array<Slot>
    /** Durable allocator; 0 when it was never written. */
    var nextId: nat
    var protect: bool
    var watermark: nat

    ghost predicate Shape()
      reads this, slots
    {
      slots.Length == MAX_RECORDS && Distinct(slots[..])
    }

    ghost function Abs(): State
      requires Shape()
      reads this, slots
    {
      State(Contents(slots[..]), if nextId == 0 then 1 else nextId, protect, watermark)
    }

    ghost predicate Valid()
      reads this, slots
    {
      Shape() && Journal.Valid(Abs())
    }

    constructor ()
      ensures Valid() && fresh(slots)
      ensures Abs() == State(map[], 1, true, 0)
    {
      slots := new Slot[MAX_RECORDS](_ => None);
      nextId, protect, watermark := 0, true, 0;
    }

    /** find_id_slot. */
    method FindIdSlot(id: nat) returns (r: Option<nat>)
      requires Valid()
      ensures r.Some? <==> id in Abs().records
      ensures r.Some? ==> r.value < MAX_RECORDS && slots[r.value].Some? && slots[r.value].value == Abs().records[id]
    {
      for slot := 0 to MAX_RECORDS
        invariant forall j :: 0 <= j < slot && slots[j].Some? ==> slots[j].value.id != id
      {
        if slots[slot].Some? && slots[slot].value.id == id {
          ContentsAt(slots[..], slot);
          return Some(slot);
        }
      }
      NotStored(slots[..], id);
      return None;
    }

    /** find_empty_slot. */
    method FindEmptySlot() returns (r: Option<nat>)
      requires Valid()
      ensures r.Some? <==> |Abs().records| < MAX_RECORDS
      ensures r.Some? ==> r.value < MAX_RECORDS && slots[r.value].None?
    {
      ContentsSize(slots[..]);
      for slot := 0 to MAX_RECORDS
        invariant forall j :: 0 <= j < slot ==> slots[j].Some?
      {
        if slots[slot].None? {
          assert slots[..][slot].None?;
          return Some(slot);
        }
      }
      return None;
    }

    /** find_prunable_slot: the running minimum over prunable records. */
    method FindPrunableSlot() returns (r: Option<nat>)
      requires Valid()
      ensures r.Some? <==> PrunableIds(Abs()) != {}
      ensures r.Some? ==> r.value < MAX_RECORDS && slots[r.value].Some?
      ensures r.Some? ==> slots[r.value].value.id == Min(PrunableIds(Abs()))
    {
      hide Contents, Distinct, Prunable, Min, Storable, Best;
      ghost var all, p, w := slots[..], protect, watermark;
      ghost var want := (m: Message) => Prunable(m, p, w);
      r := None;
      NoneYet(all, want);
      for slot := 0 to MAX_RECORDS
        invariant r.Some? ==> r.value < slot && slots[r.value].Some?
        invariant Best(all, want, slot, r)
      {
        BestStep(all, want, slot, r);
        if slots[slot].Some? && Prunable(slots[slot].value, protect, watermark)
           && (r.None? || slots[slot].value.id < slots[r.value].value.id) {
          r := Some(slot);
        }
      }
      BestIsLeast(all, want, r, PrunableIds(Abs()));
    }

    /** write_slot. */
    method WriteSlot(slot: nat, m: Message, fault: Fault) returns (err: Err)
      requires Shape() && slot < MAX_RECORDS
      requires slots[slot].None? ==> m.id !in Abs().records
      requires slots[slot].Some? ==> slots[slot].value.id == m.id
      modifies slots
      ensures Shape()
      ensures Abs() == if fault == WriteFault(false) then old(Abs()) else With(old(Abs()), m)
      ensures err == if fault.WriteFault? then NvsError else Ok
    {
      if fault != WriteFault(false) {
        ContentsWrite(slots[..], slot, m);
        ghost var after := slots[..][slot := Some(m)];
        slots[slot] := Some(m);
        assert slots[..] == after;
      }
      err := if fault.WriteFault? then NvsError else Ok;
    }

    /** erase_slot, and the erasing part of sms_store_delete. */
    method EraseSlot(slot: nat, fault: Fault) returns (err: Err)
      requires Shape() && slot < MAX_RECORDS && slots[slot].Some?
      modifies slots
      ensures Shape()
      ensures Abs() == if fault == EraseFault(false) then old(Abs()) else Without(old(Abs()), old(slots[slot].value.id))
      ensures fault != EraseFault(false) ==> slots[slot].None?
      ensures err == if fault.EraseFault? then NvsError else Ok
    {
      if fault != EraseFault(false) {
        ContentsErase(slots[..], slot);
        ghost var after := slots[..][slot := None];
        slots[slot] := None;
        assert slots[..] == after;
      }
      err := if fault.EraseFault? then NvsError else Ok;
    }

    /** allocate_id and the write that follows it. */
    method InsertAt(slot: nat, m: Message, fault: Fault) returns (err: Err, id: nat)
      requires Valid() && slot < MAX_RECORDS && slots[slot].None?
      modifies this`nextId, slots
      ensures Shape()
      ensures var o := Journal.Insert(old(Abs()), m, fault); Abs() == o.state && err == o.err && id == o.id
    {
      hide Contents, Distinct, Prunable, Storable;
      id := if nextId == 0 then 1 else nextId;
      if fault.IdFault? {
        if fault.advanced {
          nextId := id + 1;
        }
        return NvsError, 0;
      }
      nextId := id + 1;
      err := WriteSlot(slot, m.(id := id), fault);
      if err != Ok {
        id := 0;
      }
    }

    /** sms_store_save. */
    method Save(m: Message, fault: Fault) returns (err: Err, id: nat)
      requires Valid() && m.id < Abs().nextId
      modifies this`nextId, slots
      ensures Valid()
      ensures var o := Journal.Save(old(Abs()), m, fault); Abs() == o.state && err == o.err && id == o.id
    {
      hide Contents, Distinct, Prunable, PrunableIds, Storable, Journal.Valid, Min;
      SaveKeepsValid(Abs(), m, fault);
      if !Storable(m) {
        return InvalidArg, m.id;
      }
      if fault.ReadFault? {
        return NvsError, m.id;
      }
      if m.id == 0 {
        err, id := SaveFresh(m, fault);
      } else {
        err := SaveStored(m, fault);
        id := m.id;
      }
    }

    /** The branch of sms_store_save for records with an id. */
    method SaveStored(m: Message, fault: Fault) returns (err: Err)
      requires Valid() && m.id != 0 && Storable(m) && !fault.ReadFault?
      modifies slots
      ensures Shape()
      ensures var o := SaveExisting(old(Abs()), m, fault); Abs() == o.state && err == o.err
    {
      hide Contents, Distinct, Storable;
      var found := FindIdSlot(m.id);
      if found.None? {
        found := FindEmptySlot();
        if found.None? {
          return NoMem;
        }
      }
      err := WriteSlot(found.value, m, fault);
    }

    /** The branch of sms_store_save for records without an id. */
    method SaveFresh(m: Message, fault: Fault) returns (err: Err, id: nat)
      requires Valid() && m.id == 0 && Storable(m) && !fault.ReadFault?
      modifies this`nextId, slots
      ensures Shape()
      ensures var o := SaveNew(old(Abs()), m, fault); Abs() == o.state && err == o.err && id == o.id
    {
      hide Contents, Distinct, Prunable, PrunableIds, Storable, Min;
      var slot := FindEmptySlot();
      if slot.None? {
        slot := FindPrunableSlot();
        if slot.None? {
          return NoMem, 0;
        }
        ghost var victim := slots[slot.value].value.id;
        PrunableIsStored(Abs());
        WithoutSize(Abs(), victim);
        var erased := EraseSlot(slot.value, fault);
        if erased != Ok {
          return erased, 0;
        }
      }
      err, id := InsertAt(slot.value, m, fault);
    }

    /** sms_store_get. */
    method Get(id: nat) returns (r: Option<Message>)
      requires Valid()
      ensures r == if id != 0 && id in Abs().records then Some(Abs().records[id]) else None
    {
      if id == 0 {
        return None;
      }
      var slot := FindIdSlot(id);
      if slot.None? {
        return None;
      }
      return slots[slot.value];
    }

    /** sms_store_delete. */
    method Delete(id: nat, fault: Fault) returns (err: Err)
      requires Valid()
      modifies slots
      ensures Valid()
      ensures var o := Journal.Delete(old(Abs()), id, fault); Abs() == o.state && err == o.err
    {
      DeleteKeepsValid(Abs(), id, fault);
      if id == 0 {
        return InvalidArg;
      }
      if fault.ReadFault? {
        return NvsError;
      }
      var slot := FindIdSlot(id);
      if slot.None? {
        return NotFound;
      }
      err := EraseSlot(slot.value, fault);
    }

    /** sms_store_set_replay_watermark. */
    method SetReplayWatermark(protectionEnabled: bool, mark: nat)
      requires Valid()
      modifies this`protect, this`watermark
      ensures Valid() && Abs() == old(Abs()).(protect := protectionEnabled, watermark := mark)
    {
      protect, watermark := protectionEnabled, mark;
    }

    /** sms_store_list: the page behind `after`, in place in the caller's array. */
    method List(after: nat, out: array<Message>) returns (count: nat)
      requires Valid() && out.Length > 0 && (out as object) != slots
      modifies out
      ensures slots[..] == old(slots[..]) && Valid() && Abs() == old(Abs())
      ensures count <= out.Length && out[..count] == Page(Abs(), after, out.Length)
    {
      hide Contents, Distinct, Storable, Sorted, Selected, Page;
      count := 0;
      ghost var s := slots[..];
      SelectNone(after, out.Length);
      assert Scanned(s[..0]) == {};
      for slot := 0 to MAX_RECORDS
        invariant count <= out.Length && slots[..] == s
        invariant Selected(Scanned(s[..slot]), after, out.Length, out[..count])
      {
        ScannedStep(s, slot);
        if slots[slot].Some? {
          var m := slots[slot].value;
          if m.id <= after {
            SelectSkip(Scanned(s[..slot]), after, out.Length, out[..count], m);
          } else {
            count := Offer(out, count, m, after, Scanned(s[..slot]));
          }
        } else {
          assert Scanned(s[..slot + 1]) == Scanned(s[..slot]);
        }
      }
      assert s[..MAX_RECORDS] == s;
      ghost var chosen := out[..count];
      InsertionSort(out, count);
      SelectionIsPage(s, Abs(), after, out.Length, chosen);
    }

    /** sms_store_list with room for one record, as the callers that walk the journal use it. */
    method NextRecord(after: nat) returns (r: Option<Message>)
      requires Valid()
      ensures r.None? <==> Above(Abs(), after) == {}
      ensures r.Some? ==> r.value.id == Min(Above(Abs(), after)) && r.value == Abs().records[r.value.id]
      ensures r.Some? ==> after < r.value.id < Abs().nextId
    {
      hide Contents, Distinct, Storable, Page, Min;
      ghost var s := Abs();
      var record := new Message[1];
      var count := List(after, record);
      PageOfOne(s, after);
      if count == 0 {
        return None;
      }
      assert record[..count][0] == record[0];
      return Some(record[0]);
    }

    /** sms_store_find_status: the oldest record with that status. */
    method FindStatus(status: Status) returns (r: Option<Message>)
      requires Valid()
      ensures r.None? <==> IdsWith(Abs(), status) == {}
      ensures r.Some? ==> r.value.id == Min(IdsWith(Abs(), status)) && r.value == Abs().records[r.value.id]
    {
      hide Contents, Distinct, Min, Storable, Best;
      ghost var all := slots[..];
      ghost var want := (m: Message) => m.status == status;
      var best: Option<nat> := None;
      NoneYet(all, want);
      for slot := 0 to MAX_RECORDS
        invariant best.Some? ==> best.value < slot && slots[best.value].Some?
        invariant Best(all, want, slot, best)
      {
        BestStep(all, want, slot, best);
        if slots[slot].Some? && slots[slot].value.status == status
           && (best.None? || slots[slot].value.id < slots[best.value].value.id) {
          best := Some(slot);
        }
      }
      BestIsLeast(all, want, best, IdsWith(Abs(), status));
      if best.None? {
        return None;
      }
      ContentsAt(all, best.value);
      return slots[best.value];
    }

    /** The linear scans of sms_store_find_partial and its siblings: the first slot that matches. */
    method FindFirst(matches: Message -> bool) returns (r: Option<Message>)
      requires Valid()
      ensures r.Some? ==> r.value.id in Abs().records && Abs().records[r.value.id] == r.value && matches(r.value)
      ensures r.None? ==> forall id :: id in Abs().records ==> !matches(Abs().records[id])
    {
      for slot := 0 to MAX_RECORDS
        invariant forall j :: 0 <= j < slot && slots[j].Some? ==> !matches(slots[j].value)
      {
        if slots[slot].Some? && matches(slots[slot].value) {
          ContentsAt(slots[..], slot);
          return slots[slot];
        }
      }
      forall id | id in Abs().records ensures !matches(Abs().records[id]) {
        var i := ContentsFrom(slots[..], id);
        assert slots[i].Some?;
      }
      return None;
    }

    /** sms_store_find_outbound_reference: the newest record, and in it the first segment, that matches. */
    method FindOutboundReference(recipient: seq<byte>, reference: byte) returns (r: Option<(Message, nat)>)
      requires Valid()
      ensures r.None? <==> ReferencingIds(Abs(), recipient, reference) == {}
      ensures r.Some? ==> r.value.0.id in Abs().records && Abs().records[r.value.0.id] == r.value.0
      ensures r.Some? ==> r.value.0.direction == Outbound && r.value.0.recipient == recipient
      ensures r.Some? ==> FirstSegment(r.value.0, reference) == Some(r.value.1)
      ensures r.Some? ==> forall id :: id in ReferencingIds(Abs(), recipient, reference) ==> id <= r.value.0.id
    {
      hide FirstSegment, Storable, Contents, Distinct, Journal.Valid;
      var best: Option<nat> := None;
      var index := 0;
      for slot := 0 to MAX_RECORDS
        invariant best.Some? ==> best.value < slot && slots[best.value].Some?
        invariant best.Some? ==> References(slots[best.value].value, recipient, reference)
        invariant best.Some? ==> FirstSegment(slots[best.value].value, reference) == Some(index)
        invariant forall j :: 0 <= j < slot && slots[j].Some? && References(slots[j].value, recipient, reference) ==>
                    best.Some? && slots[j].value.id <= slots[best.value].value.id
      {
        if slots[slot].Some? && slots[slot].value.direction == Outbound && slots[slot].value.recipient == recipient {
          var i := SearchSegments(slots[slot].value, reference);
          if i.Some? && (best.None? || slots[slot].value.id > slots[best.value].value.id) {
            best, index := Some(slot), i.value;
          }
        }
      }
      forall id | id in ReferencingIds(Abs(), recipient, reference) ensures best.Some? && id <= slots[best.value].value.id {
        var i := ContentsFrom(slots[..], id);
        assert slots[i].Some? && References(slots[i].value, recipient, reference);
      }
      if best.None? {
        return None;
      }
      ContentsAt(slots[..], best.value);
      assert slots[best.value].value.id in ReferencingIds(Abs(), recipient, reference);
      return Some((slots[best.value].value, index));
    }
  }

  // ----- the running minimum -----

  /** r is the slot with the smallest id among the first n that hold what is wanted. */
  ghost predicate Best(s: seq<Slot>, want: Message -> bool, n: nat, r: Option<nat>) {
    && (r.Some? ==> r.value < n && r.value < |s| && s[r.value].Some? && want(s[r.value].value))
    && (forall j :: 0 <= j < n && j < |s| && s[j].Some? && want(s[j].value) ==> r.Some? && s[r.value].value.id <= s[j].value.id)
  }

  lemma NoneYet(s: seq<Slot>, want: Message -> bool)
    ensures Best(s, want, 0, None)
  {
  }

  lemma BestStep(s: seq<Slot>, want: Message -> bool, n: nat, r: Option<nat>)
    requires n < |s| && Best(s, want, n, r)
    ensures if s[n].Some? && want(s[n].value) && (r.None? || s[n].value.id < s[r.value].value.id) then Best(s, want, n + 1, Some(n))
            else Best(s, want, n + 1, r)
  {
  }

  lemma BestIsLeast(s: seq<Slot>, want: Message -> bool, r: Option<nat>, ids: set<nat>)
    requires Distinct(s) && Best(s, want, |s|, r)
    requires forall id :: id in ids <==> id in Contents(s) && want(Contents(s)[id])
    ensures r.Some? <==> ids != {}
    ensures r.Some? ==> r.value < |s| && s[r.value].Some? && s[r.value].value.id == Min(ids)
  {
    hide Distinct, Contents, Min;
    if r.Some? {
      ContentsAt(s, r.value);
      var m := s[r.value].value;
      assert m.id in ids;
    }
    forall id | id in ids ensures r.Some? && s[r.value].value.id <= id {
      var i := ContentsFrom(s, id);
      assert s[i].Some? && want(s[i].value);
    }
    if r.Some? { LeastIsMin(ids, s[r.value].value.id); }
  }

  lemma LeastIsMin(ids: set<nat>, x: nat)
    requires x in ids && forall id :: id in ids ==> x <= id
    ensures Min(ids) == x
  {
  }

  // ----- reference searches -----

  method SearchSegments(m: Message, reference: byte) returns (r: Option<nat>)
    ensures r == FirstSegment(m, reference)
  {
    for i := 0 to m.segmentCount
      invariant FirstFrom(m, reference, 0) == FirstFrom(m, reference, i)
    {
      if i in m.sent && i in m.modemReference && m.modemReference[i] == reference {
        return Some(i);
      }
    }
    return None;
  }

  // ----- listing -----

  ghost function Scanned(s: seq<Slot>): set<Message> {
    set i | 0 <= i < |s| && s[i].Some? :: s[i].value
  }

  lemma ScannedStep(s: seq<Slot>, i: nat)
    requires Distinct(s) && i < |s|
    ensures Scanned(s[..i + 1]) == Scanned(s[..i]) + (if s[i].Some? then {s[i].value} else {})
    ensures s[i].Some? ==> forall x :: x in Scanned(s[..i]) ==> x.id != s[i].value.id
  {
    var t, u := s[..i], s[..i + 1];
    forall x | x in Scanned(u) ensures x in Scanned(t) || (s[i].Some? && x == s[i].value) {
      var j :| 0 <= j < |u| && u[j].Some? && u[j].value == x;
      if j < i { assert t[j] == u[j]; }
    }
    forall x | x in Scanned(t) ensures x in Scanned(u) {
      var j :| 0 <= j < |t| && t[j].Some? && t[j].value == x;
      assert u[j] == t[j];
    }
    if s[i].Some? { assert u[i] == s[i]; }
  }

  lemma SelectNone(after: nat, max: nat)
    ensures Selected({}, after, max, [])
  {
  }

  /** One record offered to the selection: appended, or in place of the highest kept so far. */
  method Offer(out: array<Message>, count: nat, m: Message, after: nat, ghost scanned: set<Message>)
    returns (newCount: nat)
    requires count <= out.Length && out.Length > 0 && m.id > after
    requires Selected(scanned, after, out.Length, out[..count])
    requires forall x :: x in scanned ==> x.id != m.id
    modifies out
    ensures newCount <= out.Length
    ensures Selected(scanned + {m}, after, out.Length, out[..newCount])
  {
    hide Selected;
    if count < out.Length {
      SelectAppend(scanned, after, out.Length, out[..count], m);
      ghost var r := out[..count] + [m];
      out[count] := m;
      assert out[..count + 1] == r;
      return count + 1;
    }
    var highest := 0;
    for i := 1 to count
      invariant highest < count
      invariant forall j :: 0 <= j < i ==> out[j].id <= out[highest].id
    {
      if out[i].id > out[highest].id {
        highest := i;
      }
    }
    if m.id < out[highest].id {
      SelectReplace(scanned, after, out.Length, out[..count], m, highest);
      ghost var r := out[..count][highest := m];
      out[highest] := m;
      assert out[..count] == r;
    } else {
      SelectedNotEqual(scanned, after, out.Length, out[..count], m, highest);
      SelectSkip(scanned, after, out.Length, out[..count], m);
    }
    return count;
  }

  lemma SelectedNotEqual(scanned: set<Message>, after: nat, max: nat, r: seq<Message>, m: Message, highest: nat)
    requires Selected(scanned, after, max, r) && highest < |r|
    requires forall x :: x in scanned ==> x.id != m.id
    requires forall i :: 0 <= i < |r| ==> r[i].id <= r[highest].id
    requires m.id >= r[highest].id
    ensures AllBelow(r, m.id)
  {
    assert r[highest] in scanned;
  }

  /** Sorting the selection of all slots gives the page. */
  lemma SelectionIsPage(slots: seq<Slot>, s: State, after: nat, max: nat, r: seq<Message>)
    requires Distinct(slots) && s.records == Contents(slots) && Journal.Valid(s)
    requires Selected(Scanned(slots), after, max, r)
    ensures Sorted(r) == Page(s, after, max)
  {
    hide Storable, Sorted, Contents, Scanned, Page;
    var t := Sorted(r);
    SortedIsSorted(r);
    SameElements(r, t);
    SortedAscends(r, t, after);
    forall i | 0 <= i < |t| ensures t[i].id in s.records && s.records[t[i].id] == t[i] {
      assert t[i] in r;
      ScannedStored(slots, t[i]);
    }
    forall id | id in Above(s, after) ensures s.records[id] in t || (|t| == max && AllBelow(t, id)) {
      StoredScanned(slots, id);
      if s.records[id] !in r {
        assert AllBelow(r, id);
        forall i | 0 <= i < |t| ensures t[i].id < id { assert t[i] in r; }
      }
    }
    PickedIsPage(s, after, max, t);
  }

  lemma SameElements(r: seq<Message>, t: seq<Message>)
    requires multiset(r) == multiset(t)
    ensures forall x :: x in r <==> x in t
  {
    forall x ensures x in r <==> x in t {
      assert x in multiset(r) <==> x in multiset(t);
    }
  }

  lemma SortedAscends(r: seq<Message>, t: seq<Message>, after: nat)
    requires SortedById(t) && multiset(r) == multiset(t)
    requires forall i, j :: 0 <= i < j < |r| ==> r[i].id != r[j].id
    requires forall i :: 0 <= i < |r| ==> r[i].id > after
    ensures Ascending(t, after)
  {
    SameElements(r, t);
    forall i, j | 0 <= i < j < |t| ensures t[i].id < t[j].id {
      if t[i].id == t[j].id {
        assert t[i] in r && t[j] in r;
        assert t[i] == t[j];
        TwiceInSeq(t, i, j);
        OnceInSeq(r, t[i]);
        assert false;
      }
    }
    forall i | 0 <= i < |t| ensures after < t[i].id { assert t[i] in r; }
  }

  lemma TwiceInSeq(t: seq<Message>, i: nat, j: nat)
    requires i < j < |t| && t[i] == t[j]
    ensures multiset(t)[t[i]] >= 2
  {
    assert t == t[..j] + [t[j]] + t[j + 1..];
    assert t[..j][i] == t[i];
    assert t[i] in multiset(t[..j]);
  }

  lemma {:induction false} OnceInSeq(r: seq<Message>, x: Message)
    requires forall i, j :: 0 <= i < j < |r| ==> r[i].id != r[j].id
    ensures multiset(r)[x] <= 1
  {
    if r != [] {
      var t := r[1..];
      OnceInSeq(t, x);
      assert r == [r[0]] + t;
      assert multiset(r) == multiset{r[0]} + multiset(t);
      assert forall k :: 0 <= k < |t| ==> t[k] == r[k + 1] && t[k].id != r[0].id;
      assert r[0] !in t;
    }
  }

  lemma ScannedStored(slots: seq<Slot>, m: Message)
    requires Distinct(slots) && m in Scanned(slots)
    ensures m.id in Contents(slots) && Contents(slots)[m.id] == m
  {
    var j :| 0 <= j < |slots| && slots[j].Some? && slots[j].value == m;
    ContentsAt(slots, j);
  }

  lemma StoredScanned(slots: seq<Slot>, id: nat)
    requires Distinct(slots) && id in Contents(slots)
    ensures Contents(slots)[id] in Scanned(slots) && Contents(slots)[id].id == id
  {
    var j := ContentsFrom(slots, id);
    assert slots[j].value in Scanned(slots);
  }
}
