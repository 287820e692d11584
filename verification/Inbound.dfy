/**
 * The inbound half of sms_service.c on the journal: storing parts, reassembling messages
 * and recognising repeats (persist_deliver and assemble_if_complete).
 */
module Inbound {
  import opened Bytes
  import opened UserData
  import opened Journal

  /** A decoded SMS-DELIVER. */
  datatype Deliver = Deliver(sender: seq<byte>, encoding: Encoding, concat: Concat, timestamp: seq<byte>, text: seq<byte>)

  /** What the decoder guarantees of a text message: bounded fields and a well-numbered concatenation. */
  predicate WellDecoded(d: Deliver) {
    && |d.sender| < 24 && |d.timestamp| < 40 && |d.text| < 2048 && WellNumbered(d.concat)
    && d.encoding in {Gsm7Bit, Ucs2Bit}
  }

  function BlankInbound(d: Deliver, status: Status): Message {
    Message(0, Inbound, status, d.encoding, d.sender, [], d.timestamp, d.text, [], NO_CONCAT, false, 0, 1,
            {}, {}, {}, map[], 0, 0)
  }

  function PartialRecord(d: Deliver): Message {
    BlankInbound(d, Partial).(concat := d.concat, reference := d.concat.reference, segmentCount := d.concat.total)
  }

  function ReceivedRecord(d: Deliver): Message {
    BlankInbound(d, Received)
  }

  /** What persist_unsupported_deliver stores; a PDU has at most 352 characters. */
  function BinaryRecord(sender: seq<byte>, timestamp: seq<byte>, pdu: seq<byte>): Message {
    Message(0, Inbound, Unsupported, EightBit, sender, [], timestamp, [], pdu, NO_CONCAT, false, 0, 1,
            {}, {}, {}, map[], 0, 0)
  }

  function AssembledRecord(d: Deliver, timestamp: seq<byte>, text: seq<byte>): Message {
    BlankInbound(d, Received).(timestamp := timestamp, text := text, segmentCount := d.concat.total, reference := d.concat.reference)
  }

  /** What the parts of one message have in common. */
  datatype Key = Key(sender: seq<byte>, reference: nat, total: nat)

  function KeyOf(d: Deliver): Key {
    Key(d.sender, d.concat.reference, d.concat.total)
  }

  /** The search of sms_store_find_partial. */
  predicate IsPartOf(m: Message, key: Key, part: nat) {
    && m.direction == Inbound && m.status == Partial && m.concat.present && m.concat.reference == key.reference
    && m.concat.total == key.total && m.concat.part == part && m.sender == key.sender
  }

  /** The search of sms_store_find_inbound_identity. */
  predicate SameIdentity(m: Message, sender: seq<byte>, timestamp: seq<byte>, encoding: Encoding, text: seq<byte>) {
    && m.direction == Inbound && m.status == Received && m.encoding == encoding
    && m.sender == sender && m.timestamp == timestamp && m.text == text
  }

  /** The search of sms_store_find_inbound_raw_pdu. */
  predicate HasRaw(m: Message, pdu: seq<byte>) {
    m.direction == Inbound && m.status == Unsupported && m.rawPdu == pdu
  }

  function RawIds(s: State, pdu: seq<byte>): set<nat> {
    set id | id in s.records && HasRaw(s.records[id], pdu)
  }

  ghost predicate Known(s: State, m: Message) {
    exists id :: id in s.records && SameIdentity(s.records[id], m.sender, m.timestamp, m.encoding, m.text)
  }

  /** No two received messages with one identity, no part twice, no raw PDU twice, and no stored part of more than sixteen. */
  ghost predicate InboundInv(s: State) {
    && Valid(s)
    && (forall a, b :: a in s.records && b in s.records && a != b ==> Apart(s.records[a], s.records[b]))
    && (forall a :: a in s.records ==> PartOk(s.records[a]))
  }

  lemma InvValid(s: State)
    requires InboundInv(s)
    ensures Valid(s)
  {
  }

  /** Two records that may stand side by side. */
  ghost predicate Apart(m: Message, n: Message) {
    && !(m.direction == Inbound && m.status == Received && SameIdentity(n, m.sender, m.timestamp, m.encoding, m.text))
    && !(m.direction == Inbound && m.status == Partial && IsPartOf(n, Key(m.sender, m.concat.reference, m.concat.total), m.concat.part))
    && !(m.direction == Inbound && m.status == Unsupported && HasRaw(n, m.rawPdu))
  }

  ghost predicate PartOk(m: Message) {
    m.direction == Inbound && m.status == Partial ==>
      m.concat.present && 1 <= m.concat.part <= m.concat.total <= MAX_SEGMENTS
  }

  /** Records that other steps may add: not of an inbound message. */
  ghost predicate Neutral(m: Message) {
    m.direction == Outbound || m.status !in {Received, Partial, Unsupported}
  }

  lemma NeutralApart(m: Message, n: Message)
    requires Neutral(m)
    ensures Apart(m, n) && Apart(n, m) && PartOk(m)
  {
  }

  /** Dropping records and writing neutral ones, as every other step does, keeps the invariant. */
  lemma OthersKeep(s: State, s': State)
    requires InboundInv(s) && Valid(s')
    requires forall id :: id in s'.records ==> (id in s.records && s'.records[id] == s.records[id]) || Neutral(s'.records[id])
    ensures InboundInv(s')
  {
    hide Apart, PartOk, Neutral, Valid;
    forall a, b | a in s'.records && b in s'.records && a != b ensures Apart(s'.records[a], s'.records[b]) {
      if Neutral(s'.records[a]) {
        NeutralApart(s'.records[a], s'.records[b]);
      } else if Neutral(s'.records[b]) {
        NeutralApart(s'.records[b], s'.records[a]);
      }
    }
    forall a | a in s'.records ensures PartOk(s'.records[a]) {
      if Neutral(s'.records[a]) { NeutralApart(s'.records[a], s'.records[a]); }
    }
  }

  /** A record that fits beside all others may be written under its id. */
  lemma PutKeeps(s: State, s': State, m: Message)
    requires InboundInv(s) && Valid(s') && PartOk(m)
    requires forall id :: id in s'.records ==>
               (id in s.records && s'.records[id] == s.records[id]) || (id == m.id && s'.records[id] == m)
    requires forall id :: id in s.records && id != m.id ==> Apart(s.records[id], m) && Apart(m, s.records[id])
    ensures InboundInv(s')
  {
    hide Apart, PartOk, Valid;
  }

  /** Saving a received message that was looked for and not found. */
  lemma SaveReceivedKeeps(s: State, m: Message, fault: Fault)
    requires InboundInv(s) && m.id == 0 && m.direction == Inbound && m.status == Received && !Known(s, m)
    ensures InboundInv(Save(s, m, fault).state)
  {
    hide Save, Storable;
    SaveKeepsValid(s, m, fault);
    NewRecordEffect(s, m, fault);
    var n := m.(id := s.nextId);
    forall id | id in s.records ensures Apart(s.records[id], n) && Apart(n, s.records[id]) {
      assert !SameIdentity(s.records[id], m.sender, m.timestamp, m.encoding, m.text);
    }
    PutKeeps(s, Save(s, m, fault).state, n);
  }

  /** Saving a raw PDU that was looked for and not found. */
  lemma SaveRawKeeps(s: State, m: Message, fault: Fault)
    requires InboundInv(s) && m.id == 0 && m.direction == Inbound && m.status == Unsupported && RawIds(s, m.rawPdu) == {}
    ensures InboundInv(Save(s, m, fault).state)
  {
    hide Save, Storable;
    SaveKeepsValid(s, m, fault);
    NewRecordEffect(s, m, fault);
    var n := m.(id := s.nextId);
    forall id | id in s.records ensures Apart(s.records[id], n) && Apart(n, s.records[id]) {
      assert !HasRaw(s.records[id], m.rawPdu) by { assert id !in RawIds(s, m.rawPdu); }
    }
    PutKeeps(s, Save(s, m, fault).state, n);
  }

  ghost predicate HasPart(s: State, key: Key, part: nat) {
    exists id :: id in s.records && IsPartOf(s.records[id], key, part)
  }

  lemma RefusedKeeps(s: State, m: Message, fault: Fault)
    requires !Storable(m)
    ensures Save(s, m, fault).state == s && Save(s, m, fault).err == InvalidArg
  {
  }

  /** Saving a part that was looked for and not found; a total above sixteen is refused. */
  lemma SavePartKeeps(s: State, d: Deliver, fault: Fault)
    requires InboundInv(s) && WellDecoded(d) && d.concat.present && !HasPart(s, KeyOf(d), d.concat.part)
    ensures InboundInv(Save(s, PartialRecord(d), fault).state)
    ensures Save(s, PartialRecord(d), fault).err == Ok ==> d.concat.total <= MAX_SEGMENTS
  {
    hide Save;
    var m := PartialRecord(d);
    if d.concat.total > MAX_SEGMENTS {
      RefusedKeeps(s, m, fault);
    } else {
      SaveKeepsValid(s, m, fault);
      NewRecordEffect(s, m, fault);
      var n := m.(id := s.nextId);
      forall id | id in s.records ensures Apart(s.records[id], n) && Apart(n, s.records[id]) {
        assert !IsPartOf(s.records[id], KeyOf(d), d.concat.part);
      }
      PutKeeps(s, Save(s, m, fault).state, n);
    }
  }

  /** The rewritten record of a part that arrived again with other content. */
  function Rewritten(m: Message, d: Deliver): Message {
    m.(encoding := d.encoding, concat := d.concat, text := d.text, timestamp := d.timestamp)
  }

  lemma RewriteKeeps(s: State, id: nat, d: Deliver, fault: Fault)
    requires InboundInv(s) && WellDecoded(d) && d.concat.present && id in s.records && IsPartOf(s.records[id], KeyOf(d), d.concat.part)
    ensures InboundInv(Save(s, Rewritten(s.records[id], d), fault).state)
  {
    hide Save, Storable;
    var r := s.records[id];
    var m := Rewritten(r, d);
    SaveKeepsValid(s, m, fault);
    SaveExistingEffect(s, m, fault);
    ExistingOnly(s, m, fault);
    forall k | k in s.records && k != m.id ensures Apart(s.records[k], m) && Apart(m, s.records[k]) {
      assert Apart(s.records[k], r) && Apart(r, s.records[k]);
    }
    assert PartOk(r);
    PutKeeps(s, Save(s, m, fault).state, m);
  }

  lemma ExistingOnly(s: State, m: Message, fault: Fault)
    requires Valid(s) && m.id in s.records
    ensures var s' := Save(s, m, fault).state;
            forall id :: id in s'.records ==> (id in s.records && s'.records[id] == s.records[id]) || (id == m.id && s'.records[id] == m)
  {
    hide Storable;
  }

  lemma DeleteKeeps(s: State, id: nat, fault: Fault)
    requires InboundInv(s)
    ensures InboundInv(Delete(s, id, fault).state)
  {
    hide Apart, PartOk, Storable;
    DeleteKeepsValid(s, id, fault);
    OthersKeep(s, Delete(s, id, fault).state);
  }
}
