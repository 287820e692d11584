/**
 * What filing one decoded SMS-DELIVER does to the journal (persist_deliver and
 * assemble_if_complete), and that nothing received is lost on the way.
 */
module Reassembly {
  import opened Bytes
  import opened UserData
  import opened Journal
  import opened Inbound

  /** Allocations and look-ups may fail; the call then ends with that error. */
  type Trouble = e: Err | e in {Ok, NoMem, NvsError} witness Ok

  /** What goes wrong during one call. */
  datatype Env = Env(
    lookup: Trouble,
    save: Fault,
    gather: nat -> Trouble,
    identity: Trouble,
    assembled: Fault,
    deletes: nat -> Fault)

  datatype Filed = Filed(state: State, err: Err, created: bool)

  // ----- the stored parts of a message -----

  ghost function PartId(s: State, key: Key, part: nat): (id: nat)
    requires HasPart(s, key, part)
    ensures id in s.records && IsPartOf(s.records[id], key, part)
  {
    var id :| id in s.records && IsPartOf(s.records[id], key, part);
    id
  }

  ghost function Part(s: State, key: Key, part: nat): (m: Message)
    requires HasPart(s, key, part)
    ensures IsPartOf(m, key, part)
  {
    s.records[PartId(s, key, part)]
  }

  /** Whatever search finds a part finds this one. */
  lemma PartIsUnique(s: State, key: Key, part: nat, id: nat)
    requires InboundInv(s) && id in s.records && IsPartOf(s.records[id], key, part)
    ensures HasPart(s, key, part) && PartId(s, key, part) == id
  {
    assert HasPart(s, key, part);
    var other := PartId(s, key, part);
    assert other == id || Apart(s.records[id], s.records[other]);
  }

  ghost predicate HasParts(s: State, key: Key, n: nat) {
    forall part :: 1 <= part <= n ==> HasPart(s, key, part)
  }

  ghost function Joined(s: State, key: Key, n: nat): seq<byte>
    requires HasParts(s, key, n)
  {
    if n == 0 then [] else Joined(s, key, n - 1) + Part(s, key, n).text
  }

  ghost function PartIds(s: State, key: Key, n: nat): (ids: seq<nat>)
    requires HasParts(s, key, n)
    ensures |ids| == n && forall i :: 0 <= i < n ==> ids[i] == PartId(s, key, i + 1)
  {
    if n == 0 then [] else PartIds(s, key, n - 1) + [PartId(s, key, n)]
  }

  /** The loop over the parts: the first missing, unreadable or overlong one ends it. */
  ghost function Gather(s: State, key: Key, n: nat, trouble: nat -> Trouble): (err: Err)
    ensures err == Ok ==> HasParts(s, key, n) && |Joined(s, key, n)| < 4096
  {
    if n == 0 then Ok
    else
      var before := Gather(s, key, n - 1, trouble);
      if before != Ok then before
      else if trouble(n) != Ok then trouble(n)
      else if !HasPart(s, key, n) then NotFound
      else if |Joined(s, key, n - 1)| + |Part(s, key, n).text| >= 4096 then InvalidSize
      else Ok
  }

  ghost function DeleteAll(s: State, ids: seq<nat>, faults: nat -> Fault): State {
    if ids == [] then s
    else
      var n := |ids| - 1;
      Delete(DeleteAll(s, ids[..n], faults), ids[n], faults(n)).state
  }

  // ----- the two functions -----

  ghost function Whole(s: State, d: Deliver): Message
    requires d.concat.total > 0 && HasParts(s, KeyOf(d), d.concat.total)
  {
    AssembledRecord(d, Part(s, KeyOf(d), 1).timestamp, Joined(s, KeyOf(d), d.concat.total))
  }

  /** Saving a received message unless its identity is known. */
  ghost function SaveOnce(s: State, m: Message, identity: Trouble, fault: Fault): Filed {
    if identity != Ok then Filed(s, identity, false)
    else if Known(s, m) then Filed(s, Ok, false)
    else
      var o := Save(s, m, fault);
      Filed(o.state, o.err, o.err == Ok)
  }

  /** assemble_if_complete. */
  ghost function Assemble(s: State, d: Deliver, env: Env): Filed
    requires d.concat.total > 0
  {
    var gathered := Gather(s, KeyOf(d), d.concat.total, env.gather);
    if gathered != Ok then Filed(s, gathered, false)
    else
      var saved := SaveOnce(s, Whole(s, d), env.identity, env.assembled);
      if saved.err != Ok then saved
      else saved.(state := DeleteAll(saved.state, PartIds(s, KeyOf(d), d.concat.total), env.deletes))
  }

  /** The first half of persist_deliver for a part: keep, rewrite or store it. */
  ghost function FilePart(s: State, d: Deliver, env: Env): Filed {
    if env.lookup != Ok then Filed(s, env.lookup, false)
    else if HasPart(s, KeyOf(d), d.concat.part) then
      var known := Part(s, KeyOf(d), d.concat.part);
      if known.text == d.text then Filed(s, Ok, false)
      else
        var o := Save(s, Rewritten(known, d), env.save);
        Filed(o.state, o.err, false)
    else
      var o := Save(s, PartialRecord(d), env.save);
      Filed(o.state, o.err, false)
  }

  /** persist_deliver. An incomplete message is no error. */
  ghost function Persist(s: State, d: Deliver, env: Env): Filed
    requires WellNumbered(d.concat)
  {
    if !d.concat.present then SaveOnce(s, ReceivedRecord(d), env.identity, env.save)
    else
      var filed := FilePart(s, d, env);
      if filed.err != Ok then filed
      else
        var a := Assemble(filed.state, d, env);
        if a.err == NotFound then Filed(filed.state, Ok, false) else a
  }

  /** persist_unsupported_deliver. */
  ghost function KeepRaw(s: State, sender: seq<byte>, timestamp: seq<byte>, pdu: seq<byte>, lookup: Trouble, fault: Fault): Filed {
    if lookup != Ok then Filed(s, lookup, false)
    else if RawIds(s, pdu) != {} then Filed(s, Ok, false)
    else
      var o := Save(s, BinaryRecord(sender, timestamp, pdu), fault);
      Filed(o.state, o.err, o.err == Ok)
  }

  // ----- nothing is lost -----

  ghost predicate Occurs(text: seq<byte>, whole: seq<byte>) {
    exists i :: OccursAt(text, whole, i)
  }

  predicate OccursAt(text: seq<byte>, whole: seq<byte>, i: int) {
    0 <= i <= |whole| - |text| && whole[i..i + |text|] == text
  }

  /** The text is in flash, by itself or inside a received message of that sender. */
  ghost predicate Holds(s: State, sender: seq<byte>, text: seq<byte>) {
    exists id :: id in s.records && HoldsAt(s.records[id], sender, text)
  }

  ghost predicate HoldsAt(m: Message, sender: seq<byte>, text: seq<byte>) {
    m.direction == Inbound && m.status in {Partial, Received} && m.sender == sender && Occurs(text, m.text)
  }

  predicate StoredPart(m: Message) {
    m.direction == Inbound && m.status == Partial
  }

  /** Every part and every received message outlives the change, but for received ones that may be pruned. */
  ghost predicate PartsHeld(s: State, s': State) {
    forall id :: id in s.records && StoredPart(s.records[id]) ==> Holds(s', s.records[id].sender, s.records[id].text)
  }

  ghost predicate ReceivedKept(s: State, s': State) {
    forall id :: id in s.records && s.records[id].direction == Inbound && s.records[id].status == Received
                 && !Prunable(s.records[id], s.protect, s.watermark) ==>
      id in s'.records && s'.records[id] == s.records[id]
  }

  /** Parts stay as they are. */
  ghost predicate PartsStay(s: State, s': State) {
    forall id :: id in s.records && StoredPart(s.records[id]) ==> id in s'.records && s'.records[id] == s.records[id]
  }

  lemma OccursSelf(text: seq<byte>)
    ensures Occurs(text, text)
  {
    assert OccursAt(text, text, 0);
  }

  lemma OccursWider(text: seq<byte>, a: seq<byte>, b: seq<byte>)
    requires Occurs(text, a)
    ensures Occurs(text, a + b)
  {
    var i :| OccursAt(text, a, i);
    assert OccursAt(text, a + b, i);
  }

  lemma OccursLast(a: seq<byte>, text: seq<byte>)
    ensures Occurs(text, a + text)
  {
    assert OccursAt(text, a + text, |a|);
  }

  lemma {:induction false} PartOccurs(s: State, key: Key, n: nat, part: nat)
    requires HasParts(s, key, n) && 1 <= part <= n
    ensures Occurs(Part(s, key, part).text, Joined(s, key, n))
    decreases n
  {
    if part == n {
      OccursLast(Joined(s, key, n - 1), Part(s, key, n).text);
    } else {
      PartOccurs(s, key, n - 1, part);
      OccursWider(Part(s, key, part).text, Joined(s, key, n - 1), Part(s, key, n).text);
    }
  }

  lemma StayHeld(s: State, s': State)
    requires PartsStay(s, s')
    ensures PartsHeld(s, s')
  {
    hide Occurs;
    forall id | id in s.records && StoredPart(s.records[id]) ensures Holds(s', s.records[id].sender, s.records[id].text) {
      OccursSelf(s.records[id].text);
      assert HoldsAt(s'.records[id], s.records[id].sender, s.records[id].text);
    }
  }

  lemma NewSaveStays(s: State, m: Message, fault: Fault)
    requires Valid(s) && m.id == 0
    ensures PartsStay(s, Save(s, m, fault).state) && ReceivedKept(s, Save(s, m, fault).state)
  {
    hide Save, Storable, Min;
    SaveNewEffect(s, m, fault);
  }

  ghost function Cut(faults: nat -> Fault, n: nat): nat -> Fault {
    (i: nat) => if i < n then faults(i) else ReadFault
  }

  /** Losing power before the n-th deletion is the same as all later deletions failing. */
  lemma {:induction false} CutShort(s: State, ids: seq<nat>, faults: nat -> Fault, n: nat)
    requires n <= |ids|
    ensures DeleteAll(s, ids[..n], faults) == DeleteAll(s, ids, Cut(faults, n))
    decreases |ids|
  {
    var cut := Cut(faults, n);
    if n == |ids| {
      SameFaults(s, ids, faults, cut);
      assert ids[..n] == ids;
    } else {
      var last := |ids| - 1;
      CutShort(s, ids[..last], faults, n);
      assert ids[..last][..n] == ids[..n];
      assert cut(last) == ReadFault;
    }
  }

  lemma {:induction false} SameFaults(s: State, ids: seq<nat>, f: nat -> Fault, g: nat -> Fault)
    requires forall i :: 0 <= i < |ids| ==> f(i) == g(i)
    ensures DeleteAll(s, ids, f) == DeleteAll(s, ids, g)
    decreases |ids|
  {
    if ids != [] { SameFaults(s, ids[..|ids| - 1], f, g); }
  }

  /** Deleting ids removes nothing else, and under faults perhaps not even those. */
  lemma {:induction false} DeleteAllEffect(s: State, ids: seq<nat>, faults: nat -> Fault)
    requires InboundInv(s)
    ensures var s' := DeleteAll(s, ids, faults);
      && InboundInv(s')
      && (forall id :: id in s'.records ==> id in s.records && s'.records[id] == s.records[id])
      && (forall id :: id in s.records && id !in ids ==> id in s'.records)
      && s'.protect == s.protect && s'.watermark == s.watermark && s'.nextId == s.nextId
    decreases |ids|
  {
    hide InboundInv;
    if ids != [] {
      var n := |ids| - 1;
      DeleteAllEffect(s, ids[..n], faults);
      DeleteKeeps(DeleteAll(s, ids[..n], faults), ids[n], faults(n));
      assert forall id :: id in ids[..n] ==> id in ids;
      assert ids[n] in ids;
    }
  }

  /** A part is in flash, with the text that arrived. */
  ghost predicate PartFiled(s: State, d: Deliver) {
    HasPart(s, KeyOf(d), d.concat.part) && Part(s, KeyOf(d), d.concat.part).text == d.text
  }

  /** The stored copy that this arrival replaces. */
  predicate Superseded(m: Message, d: Deliver) {
    d.concat.present && IsPartOf(m, KeyOf(d), d.concat.part) && m.text != d.text
  }

  /** Filing a part leaves every other part and every received message alone. */
  lemma FilePartKeeps(s: State, d: Deliver, env: Env)
    requires InboundInv(s) && WellDecoded(d) && d.concat.present
    ensures var f := FilePart(s, d, env);
      && InboundInv(f.state) && ReceivedKept(s, f.state)
      && (forall id :: id in s.records && StoredPart(s.records[id]) && !Superseded(s.records[id], d) ==>
            id in f.state.records && f.state.records[id] == s.records[id])
      && (f.err == Ok ==> PartFiled(f.state, d) && d.concat.total <= MAX_SEGMENTS)
  {
    hide Save, Storable, InboundInv, Prunable;
    if env.lookup == Ok {
      if HasPart(s, KeyOf(d), d.concat.part) {
        KnownPartKeeps(s, d, env);
      } else {
        NewPartKeeps(s, d, env);
      }
    }
  }

  lemma NewPartKeeps(s: State, d: Deliver, env: Env)
    requires InboundInv(s) && WellDecoded(d) && d.concat.present && !HasPart(s, KeyOf(d), d.concat.part)
    ensures var o := Save(s, PartialRecord(d), env.save);
      && InboundInv(o.state) && ReceivedKept(s, o.state) && PartsStay(s, o.state)
      && (o.err == Ok ==> PartFiled(o.state, d) && d.concat.total <= MAX_SEGMENTS)
  {
    hide Save, Storable, Prunable, Apart, PartOk;
    var m := PartialRecord(d);
    var o := Save(s, m, env.save);
    SavePartKeeps(s, d, env.save);
    SaveNewEffect(s, m, env.save);
    NewSaveStays(s, m, env.save);
    if o.err == Ok {
      assert IsPartOf(o.state.records[o.id], KeyOf(d), d.concat.part);
      PartIsUnique(o.state, KeyOf(d), d.concat.part, o.id);
    }
  }

  lemma KnownPartKeeps(s: State, d: Deliver, env: Env)
    requires InboundInv(s) && WellDecoded(d) && d.concat.present && HasPart(s, KeyOf(d), d.concat.part)
    ensures Part(s, KeyOf(d), d.concat.part).text == d.text ==> PartFiled(s, d)
    ensures d.concat.total <= MAX_SEGMENTS
    ensures var known := Part(s, KeyOf(d), d.concat.part);
      var o := Save(s, Rewritten(known, d), env.save);
      && InboundInv(o.state)
      && (forall id :: id in s.records && id != known.id ==> id in o.state.records && o.state.records[id] == s.records[id])
      && (o.err == Ok ==> PartFiled(o.state, d))
    ensures forall id :: id in s.records && IsPartOf(s.records[id], KeyOf(d), d.concat.part) ==> id == Part(s, KeyOf(d), d.concat.part).id
  {
    hide Save, Storable, Prunable, Apart;
    var id := PartId(s, KeyOf(d), d.concat.part);
    var known := s.records[id];
    var m := Rewritten(known, d);
    var o := Save(s, m, env.save);
    assert PartOk(known);
    RewriteKeeps(s, id, d, env.save);
    SaveExistingEffect(s, m, env.save);
    if o.err == Ok {
      assert IsPartOf(o.state.records[id], KeyOf(d), d.concat.part);
      PartIsUnique(o.state, KeyOf(d), d.concat.part, id);
    }
    forall k | k in s.records && IsPartOf(s.records[k], KeyOf(d), d.concat.part) ensures k == known.id {
      PartIsUnique(s, KeyOf(d), d.concat.part, k);
    }
  }

  lemma SaveOnceKeeps(s: State, m: Message, identity: Trouble, fault: Fault)
    requires InboundInv(s) && m.id == 0 && m.direction == Inbound && m.status == Received
    ensures var f := SaveOnce(s, m, identity, fault);
      && InboundInv(f.state) && ReceivedKept(s, f.state) && PartsStay(s, f.state)
      && (f.err == Ok ==> Known(f.state, m))
  {
    hide Save, Storable, Prunable, Apart, PartOk;
    if identity == Ok && !Known(s, m) {
      SaveReceivedKeeps(s, m, fault);
      NewSaveStays(s, m, fault);
      SaveNewEffect(s, m, fault);
      var o := Save(s, m, fault);
      if o.err == Ok {
        assert SameIdentity(o.state.records[o.id], m.sender, m.timestamp, m.encoding, m.text);
      }
    }
  }

  lemma KnownHolds(s: State, m: Message, text: seq<byte>)
    requires Known(s, m) && Occurs(text, m.text)
    ensures Holds(s, m.sender, text)
  {
    hide Occurs;
    var id :| id in s.records && SameIdentity(s.records[id], m.sender, m.timestamp, m.encoding, m.text);
    assert HoldsAt(s.records[id], m.sender, text);
  }

  /** Deleting the parts of a message that is in flash as a whole loses nothing. */
  lemma DeletePartsHeld(s: State, s1: State, d: Deliver, faults: nat -> Fault)
    requires InboundInv(s) && InboundInv(s1) && PartsStay(s, s1) && ReceivedKept(s, s1)
    requires d.concat.total > 0 && HasParts(s, KeyOf(d), d.concat.total) && Known(s1, Whole(s, d))
    ensures var s' := DeleteAll(s1, PartIds(s, KeyOf(d), d.concat.total), faults);
      InboundInv(s') && PartsHeld(s, s') && ReceivedKept(s, s') && Known(s', Whole(s, d))
  {
    hide InboundInv, Occurs, Prunable, DeleteAll, Joined, PartIds, HasPart;
    var total := d.concat.total;
    var ids := PartIds(s, KeyOf(d), total);
    var s' := DeleteAll(s1, ids, faults);
    DeleteAllEffect(s1, ids, faults);
    forall id | id in ids ensures id in s1.records && StoredPart(s1.records[id]) && id in s.records && StoredPart(s.records[id]) {
      var i :| 0 <= i < |ids| && ids[i] == id;
      assert IsPartOf(Part(s, KeyOf(d), i + 1), KeyOf(d), i + 1);
    }
    var w := Whole(s, d);
    var k :| k in s1.records && SameIdentity(s1.records[k], w.sender, w.timestamp, w.encoding, w.text);
    assert k !in ids;
    assert SameIdentity(s'.records[k], w.sender, w.timestamp, w.encoding, w.text);
    forall id | id in s.records && StoredPart(s.records[id]) ensures Holds(s', s.records[id].sender, s.records[id].text) {
      if id in ids {
        var i :| 0 <= i < |ids| && ids[i] == id;
        PartOccurs(s, KeyOf(d), total, i + 1);
        KnownHolds(s', w, s.records[id].text);
      } else {
        OccursSelf(s.records[id].text);
        assert HoldsAt(s'.records[id], s.records[id].sender, s.records[id].text);
      }
    }
  }

  lemma AssembleHolds(s: State, d: Deliver, env: Env)
    requires InboundInv(s) && WellDecoded(d) && d.concat.present
    ensures var a := Assemble(s, d, env);
      InboundInv(a.state) && PartsHeld(s, a.state) && ReceivedKept(s, a.state)
  {
    hide InboundInv, SaveOnce, Prunable, Occurs, DeleteAll, Joined;
    StayHeld(s, s);
    if Gather(s, KeyOf(d), d.concat.total, env.gather) == Ok {
      var w := Whole(s, d);
      SaveOnceKeeps(s, w, env.identity, env.assembled);
      var saved := SaveOnce(s, w, env.identity, env.assembled);
      StayHeld(s, saved.state);
      if saved.err == Ok {
        DeletePartsHeld(s, saved.state, d, env.deletes);
      }
    }
  }

  /**
   * Whatever fails and wherever power is lost: no stored part and no protected received message
   * is lost, and a call that reports success has the arrived text in flash.
   */
  lemma NothingLost(s: State, d: Deliver, env: Env)
    requires InboundInv(s) && WellDecoded(d)
    ensures var p := Persist(s, d, env);
      && InboundInv(p.state) && ReceivedKept(s, p.state)
      && (forall id :: id in s.records && StoredPart(s.records[id]) && !Superseded(s.records[id], d) ==>
            Holds(p.state, s.records[id].sender, s.records[id].text))
      && (p.err == Ok ==> Holds(p.state, d.sender, d.text))
  {
    hide InboundInv, SaveOnce, Prunable, Occurs, Assemble, FilePart;
    if d.concat.present {
      PartNotLost(s, d, env);
    } else {
      var m := ReceivedRecord(d);
      SaveOnceKeeps(s, m, env.identity, env.save);
      StayHeld(s, SaveOnce(s, m, env.identity, env.save).state);
      OccursSelf(d.text);
      if SaveOnce(s, m, env.identity, env.save).err == Ok {
        KnownHolds(SaveOnce(s, m, env.identity, env.save).state, m, d.text);
      }
    }
  }

  lemma PartNotLost(s: State, d: Deliver, env: Env)
    requires InboundInv(s) && WellDecoded(d) && d.concat.present
    ensures var p := Persist(s, d, env);
      && InboundInv(p.state) && ReceivedKept(s, p.state)
      && (forall id :: id in s.records && StoredPart(s.records[id]) && !Superseded(s.records[id], d) ==>
            Holds(p.state, s.records[id].sender, s.records[id].text))
      && (p.err == Ok ==> Holds(p.state, d.sender, d.text))
  {
    hide InboundInv, Prunable, Occurs, Assemble, FilePart, Superseded;
    var f := FilePart(s, d, env);
    FilePartKeeps(s, d, env);
    StayHeld(f.state, f.state);
    AssembleHolds(f.state, d, env);
    var p := Persist(s, d, env);
    assert PartsHeld(f.state, p.state);
    forall id | id in s.records && StoredPart(s.records[id]) && !Superseded(s.records[id], d)
      ensures Holds(p.state, s.records[id].sender, s.records[id].text)
    {
      assert id in f.state.records && f.state.records[id] == s.records[id];
    }
    if f.err == Ok {
      var id := PartId(f.state, KeyOf(d), d.concat.part);
      assert StoredPart(f.state.records[id]);
    }
    FilePartProtection(s, d, env);
    KeptTwice(s, f.state, p.state);
  }

  lemma FilePartProtection(s: State, d: Deliver, env: Env)
    ensures var s' := FilePart(s, d, env).state; s'.protect == s.protect && s'.watermark == s.watermark
  {
    hide Storable, Min, Prunable;
  }

  lemma KeptTwice(s: State, s1: State, s2: State)
    requires ReceivedKept(s, s1) && ReceivedKept(s1, s2)
    requires s1.protect == s.protect && s1.watermark == s.watermark
    ensures ReceivedKept(s, s2)
  {
    hide Prunable;
  }

  lemma RawIsUnique(s: State, pdu: seq<byte>, a: nat, b: nat)
    requires InboundInv(s) && a in RawIds(s, pdu) && b in RawIds(s, pdu)
    ensures a == b
  {
    var m, n := s.records[a], s.records[b];
    assert HasRaw(m, pdu) && HasRaw(n, pdu);
  }

  /** A raw PDU is stored once: a repeat changes nothing, and success leaves exactly one record of it. */
  lemma RawKeptOnce(s: State, sender: seq<byte>, timestamp: seq<byte>, pdu: seq<byte>, lookup: Trouble, fault: Fault)
    requires InboundInv(s)
    ensures var f := KeepRaw(s, sender, timestamp, pdu, lookup, fault);
      && InboundInv(f.state) && ReceivedKept(s, f.state) && PartsStay(s, f.state)
      && (RawIds(s, pdu) != {} ==> f.state == s)
      && (f.err == Ok ==> exists id :: RawIds(f.state, pdu) == {id})
  {
    hide Save, Storable, Prunable, PartOk;
    var m := BinaryRecord(sender, timestamp, pdu);
    var f := KeepRaw(s, sender, timestamp, pdu, lookup, fault);
    if lookup == Ok && RawIds(s, pdu) == {} {
      SaveRawKeeps(s, m, fault);
      NewSaveStays(s, m, fault);
      SaveNewEffect(s, m, fault);
      var o := Save(s, m, fault);
      assert o.err == Ok ==> o.id in RawIds(o.state, pdu);
    }
    if f.err == Ok {
      assert RawIds(f.state, pdu) != {};
      var id :| id in RawIds(f.state, pdu);
      forall k | k in RawIds(f.state, pdu) ensures k == id {
        RawIsUnique(f.state, pdu, k, id);
      }
      assert RawIds(f.state, pdu) == {id};
    }
  }

  // ----- what is stored, field by field -----

  /** The record is a received message with the sender, encoding, time and text of the arrival. */
  ghost predicate WholeAt(m: Message, d: Deliver) {
    && m.direction == Inbound && m.status == Received
    && m.sender == d.sender && m.encoding == d.encoding && m.timestamp == d.timestamp && m.text == d.text
  }

  ghost predicate StoredWhole(s: State, d: Deliver) {
    exists id :: id in s.records && WholeAt(s.records[id], d)
  }

  /** A message in one part is stored as it came: known already, or as one new record beside the old ones. */
  lemma SingleIsStored(s: State, d: Deliver, env: Env)
    requires InboundInv(s) && WellDecoded(d) && !d.concat.present
    ensures var f := Persist(s, d, env);
      && (f.err == Ok ==> StoredWhole(f.state, d))
      && (f.err == Ok && StoredWhole(s, d) ==> f.state == s)
      && (forall id :: id in s.records && id in f.state.records ==> f.state.records[id] == s.records[id])
      && (env.identity == Ok && env.save == NoFault && (StoredWhole(s, d) || |s.records| < MAX_RECORDS) ==> f.err == Ok)
  {
    hide InboundInv, Prunable, Min;
    InvValid(s);
    var m := ReceivedRecord(d);
    assert Known(s, m) <==> StoredWhole(s, d) by { SameKnownness(s, d); }
    if env.identity == Ok && !Known(s, m) {
      hide Save, Storable;
      SaveNewEffect(s, m, env.save);
      var o := Save(s, m, env.save);
      if o.err == Ok { assert WholeAt(o.state.records[o.id], d); }
      if |s.records| < MAX_RECORDS && env.save == NoFault { RoomSaves(s, m); }
    }
  }

  lemma RoomSaves(s: State, m: Message)
    requires m.id == 0 && |s.records| < MAX_RECORDS && |m.text| < 4096 && |m.sender| < 24 && |m.recipient| < 24
    requires |m.timestamp| < 40 && |m.rawPdu| < 353 && m.segmentCount <= MAX_SEGMENTS
    ensures Save(s, m, NoFault).err == Ok
  {
  }

  lemma SameKnownness(s: State, d: Deliver)
    ensures Known(s, ReceivedRecord(d)) <==> StoredWhole(s, d)
  {
    if StoredWhole(s, d) {
      var id :| id in s.records && WholeAt(s.records[id], d);
      assert SameIdentity(s.records[id], d.sender, d.timestamp, d.encoding, d.text);
    }
    if Known(s, ReceivedRecord(d)) {
      var id :| id in s.records && SameIdentity(s.records[id], d.sender, d.timestamp, d.encoding, d.text);
      assert WholeAt(s.records[id], d);
    }
  }

  /** The arrivals differ in something a message is known by. */
  predicate Differ(a: Deliver, b: Deliver) {
    a.sender != b.sender || a.encoding != b.encoding || a.timestamp != b.timestamp || a.text != b.text
  }

  /** Two single-part messages that differ in sender, encoding, time or text are two records, unless the first was pruned. */
  lemma TwoArrivalsAreTwo(s: State, a: Deliver, b: Deliver, first: Env, second: Env)
    requires InboundInv(s) && WellDecoded(a) && WellDecoded(b) && !a.concat.present && !b.concat.present && Differ(a, b)
    requires Persist(s, a, first).err == Ok && Persist(Persist(s, a, first).state, b, second).err == Ok
    ensures var s1 := Persist(s, a, first).state;
      var s2 := Persist(s1, b, second).state;
      (forall id :: id in s1.records && WholeAt(s1.records[id], a) ==> id in s2.records) ==>
        exists i, j :: i != j && i in s2.records && j in s2.records && WholeAt(s2.records[i], a) && WholeAt(s2.records[j], b)
  {
    hide InboundInv, Persist;
    var s1 := Persist(s, a, first).state;
    SingleIsStored(s, a, first);
    NothingLost(s, a, first);
    SingleIsStored(s1, b, second);
    var s2 := Persist(s1, b, second).state;
    var i :| i in s1.records && WholeAt(s1.records[i], a);
    var j :| j in s2.records && WholeAt(s2.records[j], b);
    if i in s2.records { assert i != j; }
  }

  /** The part is stored with everything that came with it. */
  ghost predicate PartAt(s: State, d: Deliver) {
    && HasPart(s, KeyOf(d), d.concat.part)
    && var m := Part(s, KeyOf(d), d.concat.part);
       m.sender == d.sender && m.encoding == d.encoding && m.timestamp == d.timestamp && m.text == d.text && m.concat == d.concat
  }

  /** A part that is new, or came with another text, is stored as it came; a repeat changes nothing. */
  lemma PartIsStored(s: State, d: Deliver, env: Env)
    requires InboundInv(s) && WellDecoded(d) && d.concat.present
    ensures var f := FilePart(s, d, env);
      f.err == Ok ==> if PartFiled(s, d) then f.state == s else PartAt(f.state, d)
  {
    hide InboundInv, Save, Storable;
    FilePartKeeps(s, d, env);
    var f := FilePart(s, d, env);
    if f.err == Ok && !PartFiled(s, d) {
      InvValid(s);
      if HasPart(s, KeyOf(d), d.concat.part) {
        var id := PartId(s, KeyOf(d), d.concat.part);
        OwnPartId(s, id);
        SaveExistingEffect(s, Rewritten(s.records[id], d), env.save);
        PartIsUnique(f.state, KeyOf(d), d.concat.part, id);
      } else {
        SaveNewEffect(s, PartialRecord(d), env.save);
        PartIsUnique(f.state, KeyOf(d), d.concat.part, Save(s, PartialRecord(d), env.save).id);
      }
    }
  }

  lemma OwnPartId(s: State, id: nat)
    requires Valid(s) && id in s.records
    ensures s.records[id].id == id != 0
  {
    hide Storable;
  }

  /** A raw PDU that is new is stored with its sender and time. */
  lemma RawIsStored(s: State, sender: seq<byte>, timestamp: seq<byte>, pdu: seq<byte>, lookup: Trouble, fault: Fault)
    requires InboundInv(s) && RawIds(s, pdu) == {}
    ensures var f := KeepRaw(s, sender, timestamp, pdu, lookup, fault);
      f.err == Ok ==> exists id :: id in f.state.records && RawAt(f.state.records[id], sender, timestamp, pdu)
  {
    hide InboundInv, Save, Storable;
    InvValid(s);
    var m := BinaryRecord(sender, timestamp, pdu);
    SaveNewEffect(s, m, fault);
    var o := Save(s, m, fault);
    if o.err == Ok { assert RawAt(o.state.records[o.id], sender, timestamp, pdu); }
  }

  ghost predicate RawAt(m: Message, sender: seq<byte>, timestamp: seq<byte>, pdu: seq<byte>) {
    && m.direction == Inbound && m.status == Unsupported && m.encoding == EightBit
    && m.sender == sender && m.timestamp == timestamp && m.rawPdu == pdu && m.text == []
  }

  /** What a reassembled message is stored as. */
  lemma AssembledFields(d: Deliver, timestamp: seq<byte>, text: seq<byte>)
    ensures var m := AssembledRecord(d, timestamp, text);
      && m.direction == Inbound && m.status == Received && m.sender == d.sender && m.encoding == d.encoding
      && m.timestamp == timestamp && m.text == text && m.reference == d.concat.reference && m.segmentCount == d.concat.total
      && m.rawPdu == [] && m.recipient == [] && m.id == 0
  {
  }
}
