/**
 * The inbound functions of sms_service.c over the slot store: each is proved to change the
 * journal as its specification says, whatever fails, and to leave the modem's copy alone
 * until the text is in flash.
 */
module InboundService {
  import opened Bytes
  import opened Journal
  import opened Inbound
  import opened Reassembly
  import opened SmsStore
  import opened DeliverPdu

  class Inbox {
    const store: Store

    ghost predicate Valid()
      reads this, store, store.slots
    {
      store.Valid() && InboundInv(store.Abs())
    }

    ghost function Now(): State
      requires store.Shape()
      reads this, store, store.slots
    {
      store.Abs()
    }

    constructor (s: Store)
      requires s.Valid() && InboundInv(s.Abs())
      ensures store == s && Valid()
    {
      store := s;
    }

    /** sms_store_find_partial. */
    method FindPartial(key: Key, part: nat) returns (r: Option<Message>)
      requires Valid()
      ensures r.Some? <==> HasPart(Now(), key, part)
      ensures r.Some? ==> r.value == Part(Now(), key, part) && r.value.id == PartId(Now(), key, part)
    {
      hide InboundInv, Contents, Distinct, Journal.Valid, IsPartOf;
      r := store.FindFirst(m => IsPartOf(m, key, part));
      if r.Some? {
        PartIsUnique(Now(), key, part, r.value.id);
      }
    }

    /** sms_store_find_inbound_identity. */
    method FindIdentity(m: Message) returns (r: Option<Message>)
      requires Valid()
      ensures r.Some? <==> Known(Now(), m)
    {
      hide InboundInv, Contents, Distinct, Journal.Valid, SameIdentity;
      r := store.FindFirst(n => SameIdentity(n, m.sender, m.timestamp, m.encoding, m.text));
    }

    /** The search for a received message's identity, and the save if there is none. */
    method SaveUnlessKnown(m: Message, identity: Trouble, fault: Fault) returns (err: Err, created: bool)
      requires Valid() && m.id == 0 && m.direction == Inbound && m.status == Received
      modifies store, store.slots
      ensures Valid()
      ensures var f := SaveOnce(old(Now()), m, identity, fault); Now() == f.state && err == f.err && created == f.created
    {
      hide InboundInv, Contents, Distinct, Save, Storable, Known;
      InvValid(Now());
      SaveOnceKeeps(Now(), m, identity, fault);
      if identity != Ok {
        return identity, false;
      }
      var existing := FindIdentity(m);
      if existing.Some? {
        return Ok, false;
      }
      var saved, _ := store.Save(m, fault);
      return saved, saved == Ok;
    }

    /** The gathering loop of assemble_if_complete; every part found fits the sixteen-entry array. */
    method GatherParts(d: Deliver, trouble: nat -> Trouble, ids: array<nat>)
      returns (err: Err, text: seq<byte>, timestamp: seq<byte>)
      requires Valid() && WellDecoded(d) && d.concat.present && ids.Length == MAX_SEGMENTS
      modifies ids
      ensures Valid() && Now() == old(Now())
      ensures err == Gather(Now(), KeyOf(d), d.concat.total, trouble)
      ensures err == Ok ==> d.concat.total <= MAX_SEGMENTS && ids[..d.concat.total] == PartIds(Now(), KeyOf(d), d.concat.total)
      ensures err == Ok ==> text == Joined(Now(), KeyOf(d), d.concat.total) && timestamp == Part(Now(), KeyOf(d), 1).timestamp
    {
      hide InboundInv, Contents, Distinct, Journal.Valid, HasPart;
      text, timestamp := [], d.timestamp;
      for part := 1 to d.concat.total + 1
        invariant Valid() && Now() == old(Now())
        invariant Gather(Now(), KeyOf(d), part - 1, trouble) == Ok && part - 1 <= MAX_SEGMENTS
        invariant text == Joined(Now(), KeyOf(d), part - 1)
        invariant ids[..part - 1] == PartIds(Now(), KeyOf(d), part - 1)
        invariant part > 1 ==> timestamp == Part(Now(), KeyOf(d), 1).timestamp
      {
        if trouble(part) != Ok {
          GatherStops(Now(), KeyOf(d), part, d.concat.total, trouble);
          return trouble(part), text, timestamp;
        }
        var partial := FindPartial(KeyOf(d), part);
        if partial.None? {
          GatherStops(Now(), KeyOf(d), part, d.concat.total, trouble);
          return NotFound, text, timestamp;
        }
        if |text| + |partial.value.text| >= 4096 {
          GatherStops(Now(), KeyOf(d), part, d.concat.total, trouble);
          return InvalidSize, text, timestamp;
        }
        FoundPartFits(Now(), KeyOf(d), part);
        text := text + partial.value.text;
        ghost var known := ids[..part - 1];
        ids[part - 1] := partial.value.id;
        assert ids[..part] == known + [partial.value.id];
        if part == 1 {
          timestamp := partial.value.timestamp;
        }
      }
      err := Ok;
    }

    /** The loop that removes the parts of a stored message; failures are only logged. */
    method DeletePartials(ids: array<nat>, n: nat, faults: nat -> Fault)
      requires Valid() && n <= ids.Length && (ids as object) != store.slots
      modifies store.slots
      ensures Valid() && Now() == DeleteAll(old(Now()), ids[..n], faults)
    {
      hide InboundInv, Contents, Distinct, Journal.Valid;
      for i := 0 to n
        invariant Valid() && ids[..] == old(ids[..])
        invariant Now() == DeleteAll(old(Now()), ids[..i], faults)
      {
        assert ids[..i + 1][..i] == ids[..i];
        DeleteKeeps(Now(), ids[i], faults(i));
        var _ := store.Delete(ids[i], faults(i));
      }
    }

    /** assemble_if_complete. */
    method AssembleIfComplete(d: Deliver, env: Env) returns (err: Err, created: bool)
      requires Valid() && WellDecoded(d) && d.concat.present
      modifies store, store.slots
      ensures Valid()
      ensures var f := Assemble(old(Now()), d, env); Now() == f.state && err == f.err && created == f.created
    {
      hide InboundInv, Contents, Distinct, Journal.Valid, Gather, DeleteAll, SaveOnce, Joined, PartIds;
      var ids := new nat[MAX_SEGMENTS];
      var text, timestamp;
      ghost var before := Now();
      err, text, timestamp := GatherParts(d, env.gather, ids);
      if err != Ok {
        return err, false;
      }
      err, created := SaveUnlessKnown(AssembledRecord(d, timestamp, text), env.identity, env.assembled);
      if err != Ok {
        return err, created;
      }
      DeletePartials(ids, d.concat.total, env.deletes);
    }

    /** The part of persist_deliver that keeps, rewrites or stores a part. */
    method FileOnePart(d: Deliver, env: Env) returns (err: Err)
      requires Valid() && WellDecoded(d) && d.concat.present
      modifies store, store.slots
      ensures Valid()
      ensures var f := FilePart(old(Now()), d, env); Now() == f.state && err == f.err
    {
      hide InboundInv, Contents, Distinct, Save, Storable, HasPart;
      InvValid(Now());
      FilePartKeeps(Now(), d, env);
      if env.lookup != Ok {
        return env.lookup;
      }
      var existing := FindPartial(KeyOf(d), d.concat.part);
      if existing.None? {
        var id;
        err, id := store.Save(PartialRecord(d), env.save);
      } else if existing.value.text == d.text {
        return Ok;
      } else {
        var id;
        err, id := store.Save(Rewritten(existing.value, d), env.save);
      }
    }

    /** persist_deliver. */
    method PersistDeliver(d: Deliver, env: Env) returns (err: Err, created: bool)
      requires Valid() && WellDecoded(d)
      modifies store, store.slots
      ensures Valid()
      ensures var f := Persist(old(Now()), d, env); Now() == f.state && err == f.err && created == f.created
      ensures err == Ok && !d.concat.present ==> StoredWhole(Now(), d)
    {
      hide InboundInv, Contents, Distinct, Journal.Valid, Assemble, FilePart, SaveOnce, StoredWhole;
      if !d.concat.present { SingleIsStored(Now(), d, env); }
      if !d.concat.present {
        err, created := SaveUnlessKnown(ReceivedRecord(d), env.identity, env.save);
        return;
      }
      err := FileOnePart(d, env);
      FilePartCreates(old(Now()), d, env);
      if err != Ok {
        return err, false;
      }
      ghost var filed := Now();
      err, created := AssembleIfComplete(d, env);
      if err == NotFound {
        AssembleNotFound(filed, d, env);
        return Ok, false;
      }
    }

    /** persist_unsupported_deliver: an 8-bit message is kept as it came, once. */
    method PersistUnsupported(sender: seq<byte>, timestamp: seq<byte>, pdu: seq<byte>, lookup: Trouble, fault: Fault)
      returns (err: Err)
      requires Valid()
      modifies store, store.slots
      ensures Valid()
      ensures var f := KeepRaw(old(Now()), sender, timestamp, pdu, lookup, fault); Now() == f.state && err == f.err
    {
      hide InboundInv, Contents, Distinct, Save, Storable, HasRaw;
      RawKeptOnce(Now(), sender, timestamp, pdu, lookup, fault);
      if lookup != Ok {
        return lookup;
      }
      InvValid(Now());
      var existing := store.FindFirst(m => HasRaw(m, pdu));
      if existing.Some? {
        assert existing.value.id in RawIds(Now(), pdu);
        return Ok;
      }
      assert RawIds(Now(), pdu) == {};
      var id;
      err, id := store.Save(BinaryRecord(sender, timestamp, pdu), fault);
    }

    /**
     * process_deliver_pdu. The modem's copy is deleted exactly when storing succeeded, and then
     * the text (or the raw PDU) is in flash; no earlier part or protected message was lost for it.
     */
    method ProcessDeliverPdu(pdu: seq<byte>, modemIndex: Option<nat>, env: Env)
      returns (incoming: Incoming, err: Option<Err>, deleteModemCopy: bool)
      requires Valid()
      modifies store, store.slots
      ensures incoming == IncomingOf(pdu)
      ensures Valid() && ReceivedKept(old(Now()), Now())
      ensures deleteModemCopy <==> modemIndex.Some? && err == Some(Ok)
      ensures incoming.Undecodable? <==> err.None?
      ensures incoming.Undecodable? ==> Now() == old(Now())
      ensures incoming.Text? ==> WellDecoded(incoming.message) && Now() == Persist(old(Now()), incoming.message, env).state
      ensures incoming.Text? && err == Some(Ok) ==> Holds(Now(), incoming.message.sender, incoming.message.text)
      ensures incoming.Text? && !incoming.message.concat.present && err == Some(Ok) ==> StoredWhole(Now(), incoming.message)
      ensures incoming.Binary? ==>
                Now() == KeepRaw(old(Now()), incoming.sender, incoming.timestamp, pdu, env.lookup, env.save).state
      ensures incoming.Binary? && err == Some(Ok) ==> exists id :: RawIds(Now(), pdu) == {id}
      ensures forall id :: id in old(Now()).records && StoredPart(old(Now()).records[id])
                           && !(incoming.Text? && Superseded(old(Now()).records[id], incoming.message)) ==>
                Holds(Now(), old(Now()).records[id].sender, old(Now()).records[id].text)
    {
      hide InboundInv, Contents, Distinct, Journal.Valid, Persist, KeepRaw, Prunable, Holds, Superseded, RawIds, DecodingOf, Framed, StoredWhole;
      ghost var before := Now();
      var decoding := DeliverDecode(pdu);
      TextIsWellDecoded(pdu);
      incoming := Classify(decoding);
      match incoming
      case Undecodable =>
        StayHeld(before, before);
        err, deleteModemCopy := None, false;
      case Binary(sender, timestamp) =>
        RawKeptOnce(before, sender, timestamp, pdu, env.lookup, env.save);
        var stored := PersistUnsupported(sender, timestamp, pdu, env.lookup, env.save);
        StayHeld(before, Now());
        err, deleteModemCopy := Some(stored), stored == Ok && modemIndex.Some?;
      case Text(d) =>
        NothingLost(before, d, env);
        var stored, _ := PersistDeliver(d, env);
        err, deleteModemCopy := Some(stored), stored == Ok && modemIndex.Some?;
    }
  }

  lemma {:induction false} GatherStops(s: State, key: Key, m: nat, n: nat, trouble: nat -> Trouble)
    requires m <= n && Gather(s, key, m, trouble) != Ok
    ensures Gather(s, key, n, trouble) == Gather(s, key, m, trouble)
    decreases n
  {
    if m < n { GatherStops(s, key, m, n - 1, trouble); }
  }

  lemma FoundPartFits(s: State, key: Key, part: nat)
    requires InboundInv(s) && HasPart(s, key, part)
    ensures part <= MAX_SEGMENTS
  {
    hide Apart;
    assert PartOk(Part(s, key, part));
  }

  lemma FilePartCreates(s: State, d: Deliver, env: Env)
    ensures !FilePart(s, d, env).created
  {
    hide Save;
  }

  lemma AssembleNotFound(s: State, d: Deliver, env: Env)
    requires InboundInv(s) && WellDecoded(d) && d.concat.present && Assemble(s, d, env).err == NotFound
    ensures Assemble(s, d, env).state == s
  {
    hide Storable, Min, Prunable, InboundInv, Gather, DeleteAll;
  }
}
