/**
 * api_idempotency.c: the ledger in 32 slots of non-volatile memory. Every operation is proved
 * to do to the slots what the ledger operation of the same name does to the value.
 */
module IdempotencyStore {
  import opened Bytes
  import opened Journal
  import opened Idempotency
  import SlotMap

  datatype Record = Record(key: Digest, entry: Entry)

  type Slot = Option<Record>

  function KeyOf(r: Record): Digest {
    r.key
  }

  ghost predicate Distinct(s: seq<Slot>) {
    SlotMap.Distinct(s, KeyOf)
  }

  ghost function Entries(m: map<Digest, Record>): Ledger {
    map k | k in m :: m[k].entry
  }

  /** The ledger in the slots. */
  ghost function Contents(s: seq<Slot>): Ledger
    requires Distinct(s)
  {
    Entries(SlotMap.Contents(s, KeyOf))
  }

  lemma ContentsAt(s: seq<Slot>, i: nat)
    requires Distinct(s) && i < |s| && s[i].Some?
    ensures s[i].value.key in Contents(s) && Contents(s)[s[i].value.key] == s[i].value.entry
  {
    SlotMap.ContentsAt(s, KeyOf, i);
  }

  lemma ContentsFrom(s: seq<Slot>, key: Digest) returns (i: nat)
    requires Distinct(s) && key in Contents(s)
    ensures i < |s| && s[i] == Some(Record(key, Contents(s)[key]))
  {
    i := SlotMap.ContentsFrom(s, KeyOf, key);
  }

  lemma NotThere(s: seq<Slot>, key: Digest)
    requires Distinct(s)
    requires forall i :: 0 <= i < |s| && s[i].Some? ==> s[i].value.key != key
    ensures key !in Contents(s)
  {
    SlotMap.NotStored(s, KeyOf, key);
  }

  /** Writing a record over a free slot, over its own key, or over another key that goes. */
  lemma ContentsWrite(s: seq<Slot>, i: nat, r: Record)
    requires Distinct(s) && i < |s|
    requires r.key in Contents(s) ==> s[i].Some? && s[i].value.key == r.key
    ensures Distinct(s[i := Some(r)])
    ensures Contents(s[i := Some(r)]) == (if s[i].Some? then Contents(s) - {s[i].value.key} else Contents(s))[r.key := r.entry]
  {
    hide SlotMap.Contents, SlotMap.Distinct;
    SlotMap.ContentsWrite(s, KeyOf, i, r);
    var rest := SlotMap.Rest(s, KeyOf, i);
    assert Entries(rest) == if s[i].Some? then Contents(s) - {s[i].value.key} else Contents(s);
    assert Entries(rest[r.key := r]) == Entries(rest)[r.key := r.entry];
  }

  lemma ContentsErase(s: seq<Slot>, i: nat)
    requires Distinct(s) && i < |s| && s[i].Some?
    ensures Distinct(s[i := None]) && Contents(s[i := None]) == Contents(s) - {s[i].value.key}
  {
    hide SlotMap.Contents, SlotMap.Distinct;
    SlotMap.ContentsErase(s, KeyOf, i);
    assert Entries(SlotMap.Rest(s, KeyOf, i)) == Contents(s) - {s[i].value.key};
  }

  lemma ContentsSize(s: seq<Slot>)
    requires Distinct(s)
    ensures |Contents(s)| <= |s|
    ensures (forall i :: 0 <= i < |s| ==> s[i].Some?) <==> |Contents(s)| == |s|
  {
    hide SlotMap.Contents, SlotMap.Distinct;
    SlotMap.ContentsSize(s, KeyOf);
    assert Contents(s).Keys == SlotMap.Contents(s, KeyOf).Keys;
  }

  class Slots {
    const slots: array<Slot>

    ghost predicate Shape()
      reads this, slots
    {
      slots.Length == MAX_KEYS && Distinct(slots[..])
    }

    ghost function Abs(): Ledger
      requires Shape()
      reads this, slots
    {
      Contents(slots[..])
    }

    ghost predicate Valid()
      reads this, slots
    {
      Shape() && Idempotency.Valid(Abs())
    }

    constructor ()
      ensures Valid() && fresh(slots) && Abs() == map[]
    {
      slots := new Slot[MAX_KEYS](_ => None);
    }

    /** The search that finalize, release and lookup share. */
    method Find(key: Digest) returns (r: Option<nat>)
      requires Valid()
      ensures r.Some? <==> key in Abs()
      ensures r.Some? ==> r.value < MAX_KEYS && slots[r.value] == Some(Record(key, Abs()[key]))
    {
      for i := 0 to MAX_KEYS
        invariant forall j :: 0 <= j < i && slots[j].Some? ==> slots[j].value.key != key
      {
        if slots[i].Some? && slots[i].value.key == key {
          ContentsAt(slots[..], i);
          return Some(i);
        }
      }
      NotThere(slots[..], key);
      return None;
    }

    /** gateway_idempotency_lookup. */
    method Lookup(key: Digest, request: Digest) returns (answer: Answer)
      requires Valid()
      ensures answer.Miss? <==> key !in Abs()
      ensures key in Abs() ==> answer == if Abs()[key].request == request then Replayed(Abs()[key].id) else Conflict(Abs()[key].id)
    {
      var found := Find(key);
      if found.None? {
        return Miss;
      }
      var e := slots[found.value].value.entry;
      return if e.request == request then Replayed(e.id) else Conflict(e.id);
    }

    /** write_slot. */
    method WriteSlot(i: nat, r: Record, fault: Fault) returns (err: Err)
      requires Shape() && i < MAX_KEYS
      requires r.key in Abs() ==> slots[i].Some? && slots[i].value.key == r.key
      modifies slots
      ensures Shape()
      ensures Abs() == if fault == WriteFault(false) then old(Abs())
                       else (if old(slots[i]).Some? then old(Abs()) - {old(slots[i]).value.key} else old(Abs()))[r.key := r.entry]
      ensures err == if fault.WriteFault? then NvsError else Ok
    {
      if fault != WriteFault(false) {
        ContentsWrite(slots[..], i, r);
        ghost var after := slots[..][i := Some(r)];
        slots[i] := Some(r);
        assert slots[..] == after;
      }
      err := if fault.WriteFault? then NvsError else Ok;
    }

    /** The scan of a claim: the key itself, or a free slot, the oldest finalized slot and the highest sequence. */
    method Scan(key: Digest) returns (found: Option<nat>, empty: Option<nat>, oldest: Option<nat>, top: nat)
      requires Valid()
      ensures found.Some? <==> key in Abs()
      ensures found.Some? ==> found.value < MAX_KEYS && slots[found.value] == Some(Record(key, Abs()[key]))
      ensures found.None? ==> (empty.Some? <==> |Abs()| < MAX_KEYS)
      ensures found.None? && empty.Some? ==> empty.value < MAX_KEYS && slots[empty.value].None?
      ensures found.None? ==> (oldest.Some? <==> Finalized(Abs()) != {})
      ensures found.None? && oldest.Some? ==> oldest.value < MAX_KEYS && slots[oldest.value].Some?
      ensures found.None? && oldest.Some? ==> slots[oldest.value].value.key == Oldest(Abs())
      ensures found.None? ==> top == Top(Abs())
    {
      hide Contents, Distinct, Finalized, Oldest, Top;
      found, empty, oldest, top := None, None, None, 0;
      for i := 0 to MAX_KEYS
        invariant forall j :: 0 <= j < i && slots[j].Some? ==> slots[j].value.key != key
        invariant empty.Some? ==> empty.value < i && slots[empty.value].None?
        invariant empty.None? ==> forall j :: 0 <= j < i ==> slots[j].Some?
        invariant oldest.Some? ==> oldest.value < i && IsFinal(slots[oldest.value])
        invariant forall j :: 0 <= j < i && IsFinal(slots[j]) ==>
                    oldest.Some? && slots[oldest.value].value.entry.sequence <= slots[j].value.entry.sequence
        invariant forall j :: 0 <= j < i && slots[j].Some? ==> slots[j].value.entry.sequence <= top
        invariant top == 0 || exists j :: 0 <= j < i && slots[j].Some? && slots[j].value.entry.sequence == top
      {
        if slots[i].None? {
          if empty.None? {
            empty := Some(i);
          }
        } else {
          var r := slots[i].value;
          if r.entry.sequence > top {
            top := r.entry.sequence;
          }
          if r.entry.id != 0 && (oldest.None? || r.entry.sequence < slots[oldest.value].value.entry.sequence) {
            oldest := Some(i);
          }
          if r.key == key {
            ContentsAt(slots[..], i);
            return Some(i), empty, oldest, top;
          }
        }
      }
      NotThere(slots[..], key);
      ContentsSize(slots[..]);
      TopScanned(slots[..], top);
      OldestScanned(slots[..], oldest);
    }

    /** gateway_idempotency_claim. */
    method Claim(key: Digest, request: Digest, fault: Fault) returns (err: Err, answer: Answer)
      requires Valid()
      modifies slots
      ensures Valid()
      ensures var c := Idempotency.Claim(old(Abs()), key, request, fault); Abs() == c.ledger && err == c.err && answer == c.answer
      ensures !fault.ReadFault? && key in old(Abs()) ==>
                && Abs() == old(Abs()) && err == Ok
                && answer == if old(Abs())[key].request == request then Replayed(old(Abs())[key].id) else Conflict(old(Abs())[key].id)
    {
      hide Contents, Distinct, Idempotency.Valid, Finalized, Oldest, Top;
      ClaimKeeps(Abs(), key, request, fault);
      if fault.ReadFault? {
        return NvsError, Miss;
      }
      var found, empty, oldest, top := Scan(key);
      if found.Some? {
        var e := slots[found.value].value.entry;
        return Ok, if e.request == request then Replayed(e.id) else Conflict(e.id);
      }
      if empty.None? && oldest.None? {
        return NoMem, Miss;
      }
      var chosen := if empty.Some? then empty.value else oldest.value;
      SizeBound(Abs());
      err := WriteSlot(chosen, Record(key, Entry(top + 1, request, 0)), fault);
      answer := Miss;
    }

    /** gateway_idempotency_finalize. */
    method Finalize(key: Digest, request: Digest, id: nat, fault: Fault) returns (err: Err)
      requires Valid()
      modifies slots
      ensures Valid()
      ensures var c := Idempotency.Finalize(old(Abs()), key, request, id, fault); Abs() == c.ledger && err == c.err
    {
      hide Contents, Distinct, Idempotency.Valid;
      FinalizeKeeps(Abs(), key, request, id, fault);
      if id == 0 {
        return InvalidArg;
      }
      if fault.ReadFault? {
        return NvsError;
      }
      var found := Find(key);
      if found.None? {
        return NotFound;
      }
      var e := slots[found.value].value.entry;
      if e.request != request {
        return InvalidArg;
      }
      ghost var before := Abs();
      err := WriteSlot(found.value, Record(key, e.(id := id)), fault);
      assert (before - {key})[key := e.(id := id)] == before[key := e.(id := id)];
    }

    /** gateway_idempotency_release_pending. */
    method ReleasePending(key: Digest, request: Digest, fault: Fault) returns (err: Err)
      requires Valid()
      modifies slots
      ensures Valid()
      ensures var c := Release(old(Abs()), key, request, fault); Abs() == c.ledger && err == c.err
    {
      hide Contents, Distinct, Idempotency.Valid;
      ReleaseKeeps(Abs(), key, request, fault);
      if fault.ReadFault? {
        return NvsError;
      }
      var found := Find(key);
      if found.None? {
        return NotFound;
      }
      var e := slots[found.value].value.entry;
      if e.request != request || e.id != 0 {
        return InvalidArg;
      }
      if fault != EraseFault(false) {
        ContentsErase(slots[..], found.value);
        ghost var after := slots[..][found.value := None];
        slots[found.value] := None;
        assert slots[..] == after;
      }
      err := if fault.EraseFault? then NvsError else Ok;
    }

    /** gateway_idempotency_remember: a claim and its finalization in one call. */
    method Remember(key: Digest, request: Digest, id: nat, claimFault: Fault, finalizeFault: Fault) returns (err: Err)
      requires Valid()
      modifies slots
      ensures Valid()
      ensures err == Ok ==> key in Abs() && Abs()[key].request == request && Abs()[key].id == id != 0
      ensures key in old(Abs()) && old(Abs())[key].id !in {0, id} ==> err != Ok && Abs() == old(Abs())
      ensures key in old(Abs()) && old(Abs())[key].request != request ==> err != Ok && Abs() == old(Abs())
      ensures claimFault == finalizeFault == NoFault && id != 0 && Free(old(Abs()), key, request, id) ==> err == Ok
    {
      hide Contents, Distinct, Idempotency.Valid, Finalized, Oldest, Top;
      var answer;
      ClaimAnswers(Abs(), key, request, claimFault);
      err, answer := Claim(key, request, claimFault);
      if err != Ok {
        return err;
      }
      if answer.Conflict? || (answer.Replayed? && answer.id != 0 && answer.id != id) {
        return InvalidArg;
      }
      err := Finalize(key, request, id, finalizeFault);
    }
  }

  /** The key is open to this request and id, or there is room for it. */
  predicate Free(l: Ledger, key: Digest, request: Digest, id: nat) {
    if key in l then l[key].request == request && l[key].id in {0, id} else |l| < 32
  }

  predicate IsFinal(s: Slot) {
    s.Some? && s.value.entry.id != 0
  }

  lemma SizeBound(l: Ledger)
    requires Idempotency.Valid(l)
    ensures |l| <= MAX_KEYS
  {
  }

  lemma TopScanned(s: seq<Slot>, top: nat)
    requires Distinct(s)
    requires forall j :: 0 <= j < |s| && s[j].Some? ==> s[j].value.entry.sequence <= top
    requires top == 0 || exists j :: 0 <= j < |s| && s[j].Some? && s[j].value.entry.sequence == top
    ensures Top(Contents(s)) == top
  {
    hide Contents, Distinct;
    var l := Contents(s);
    forall k | k in l ensures l[k].sequence <= top {
      var j := ContentsFrom(s, k);
    }
    if top != 0 {
      var j :| 0 <= j < |s| && s[j].Some? && s[j].value.entry.sequence == top;
      ContentsAt(s, j);
    }
    TopIsUnique(l, top);
  }

  lemma OldestScanned(s: seq<Slot>, oldest: Option<nat>)
    requires Distinct(s) && Idempotency.Valid(Contents(s))
    requires oldest.Some? ==> oldest.value < |s| && IsFinal(s[oldest.value])
    requires forall j :: 0 <= j < |s| && IsFinal(s[j]) ==>
               oldest.Some? && s[oldest.value].value.entry.sequence <= s[j].value.entry.sequence
    ensures oldest.Some? <==> Finalized(Contents(s)) != {}
    ensures oldest.Some? ==> s[oldest.value].value.key == Oldest(Contents(s))
  {
    hide Contents, Distinct, Oldest;
    var l := Contents(s);
    if oldest.Some? {
      ContentsAt(s, oldest.value);
      assert s[oldest.value].value.key in Finalized(l);
    }
    if Finalized(l) != {} {
      var j := ContentsFrom(s, Oldest(l));
      assert IsFinal(s[j]);
    }
  }
}
