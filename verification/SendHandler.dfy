/**
 * The claim, queue, finalize and release sequence that messages_post_handler (api_server.c) and
 * handle_structured_send (mqtt_service.c) share, over the slot ledger.
 */
module SendHandler {
  import opened Journal
  import opened Idempotency
  import opened IdempotencyStore
  import opened IdempotentSend

  const FINALIZE_ATTEMPTS := 3

  /** What the flash and the message store do during one request. */
  datatype Env = Env(claim: Fault, queueing: Queueing, finalize: nat -> Fault, release: Fault)

  datatype Reply =
    | Unavailable
    | KeyConflict(id: nat)
    | StillPending
    | AlreadyQueued(id: nat)
    | QueueFailed
    | NewlyQueued(id: nat, finalized: bool)

  class Handler {
    const slots: Slots
    var nextId: nat
    ghost var processes: map<nat, Process>
    ghost var made: map<Digest, set<nat>>
    ghost var hidden: map<Digest, set<nat>>
    ghost var times: map<Digest, nat>
    ghost var clock: nat
    ghost var asked: map<nat, Digest>
    /** Everything that has happened since the ledger was new. */
    ghost var events: seq<Event>

    ghost function Now(): World
      requires slots.Shape()
      reads this, slots, slots.slots
    {
      World(slots.Abs(), processes, nextId, made, hidden, times, clock, asked)
    }

    /** The state is the one the events lead to, and they are guarded. */
    ghost predicate Sound()
      reads this, slots, slots.slots
    {
      slots.Valid() && Now() == Run(NEW, events) && nextId >= 1 && GuardedRun(NEW, events)
    }

    /** Between two calls no request is under way. */
    ghost predicate Valid()
      reads this, slots, slots.slots
    {
      Sound() && processes == map[]
    }

    constructor ()
      ensures Valid() && fresh(slots) && fresh(slots.slots) && events == []
    {
      slots := new Slots();
      nextId := 1;
      processes, made, hidden, times, clock, asked, events := map[], map[], map[], map[], 0, map[], [];
    }

    /** Book-keeping of the proof: the ghost state follows event e. */
    ghost method Note(e: Event, before: World)
      requires slots.Valid() && nextId >= 1 && before == Run(NEW, events) && slots.Abs() == Step(before, e).ledger && nextId == Step(before, e).nextId
      requires GuardedRun(NEW, events) && Guarded(before, e)
      modifies this`processes, this`made, this`hidden, this`times, this`clock, this`asked, this`events
      ensures Sound() && events == old(events) + [e] && Now() == Step(before, e)
    {
      hide Run, Step, Guarded, GuardedRun;
      GuardedAppend(NEW, events, e);
      RunSplit(NEW, events, [e]);
      RunOne(before, e);
      var w := Step(before, e);
      processes, made, hidden, times, clock, asked := w.processes, w.made, w.hidden, w.times, w.clock, w.asked;
      events := events + [e];
    }

    /** One request, from the claim to the reply. */
    method HandleSend(pid: nat, key: Digest, request: Digest, env: Env) returns (reply: Reply)
      requires Valid()
      modifies this, slots.slots
      ensures Valid() && old(events) <= events
      ensures Answers(old(slots.Abs()), slots.Abs(), key, request, env, old(nextId), reply)
      ensures nextId == old(nextId) + if reply.NewlyQueued? || (reply.QueueFailed? && env.queueing == Rejected(true)) then 1 else 0
      ensures reply.AlreadyQueued? ==> reply.id != 0 && Of(old(made), key) == {reply.id}
      ensures reply.AlreadyQueued? ==> reply.id in old(asked) && old(asked)[reply.id] == request
      ensures RetainedIsAnswered(old(slots.Abs()), slots.Abs(), key, request, env.claim, reply)
      ensures reply.NewlyQueued? ==> Of(old(made), key) == {}
      ensures Of(made, key) == if reply.NewlyQueued? then {reply.id} else Of(old(made), key)
    {
      hide Run, Step, Contents, Distinct, Idempotency.Valid, Claim, Of, GuardedRun, Reserves, SomeWorks;
      ghost var before := Now();
      GuardedStart(events, key, request, env.claim);
      ClaimAnswers(before.ledger, key, request, env.claim);
      var err, answer := slots.Claim(key, request, env.claim);
      ClaimIs(before, pid, key, request, env.claim);
      Note(ClaimKey(pid, key, request, env.claim), before);
      if err != Ok {
        return Unavailable;
      }
      match answer
      case Conflict(id) => return KeyConflict(id);
      case Replayed(id) =>
        if id == 0 {
          return StillPending;
        }
        return AlreadyQueued(id);
      case Miss =>
        reply := QueueAndSettle(pid, key, request, env);
    }

    /** The rest of the request once its key is reserved. */
    method QueueAndSettle(pid: nat, key: Digest, request: Digest, env: Env) returns (reply: Reply)
      requires Sound() && processes == map[pid := Holding(key, request)]
      requires Retained(slots.Abs(), key, request, 0)
      modifies this, slots.slots
      ensures Valid() && old(events) <= events
      ensures reply == if env.queueing.Accepted? then NewlyQueued(old(nextId), SomeWorks(env.finalize)) else QueueFailed
      ensures Of(made, key) == Of(old(made), key) + if reply.NewlyQueued? then {reply.id} else {}
      ensures nextId == old(nextId) + if reply.NewlyQueued? || env.queueing == Rejected(true) then 1 else 0
      ensures Settled(slots.Abs(), key, request, env, reply)
    {
      hide Run, Contents, Distinct, Idempotency.Valid, Claim, GuardedRun;
      ghost var before := Now();
      var id := nextId;
      match env.queueing
      case Rejected(stored) =>
        if stored {
          nextId := id + 1;
        }
        Note(QueueMessage(pid, env.queueing), before);
        GiveBack(pid, key, request, env.release);
        return QueueFailed;
      case Accepted =>
        nextId := id + 1;
        Note(QueueMessage(pid, env.queueing), before);
        var finalized := FinalizeWithRetries(pid, key, request, id, env);
        return NewlyQueued(id, finalized);
    }

    /** The release of a key whose message was not queued. */
    method GiveBack(pid: nat, key: Digest, request: Digest, fault: Fault)
      requires Sound() && processes == map[pid := Refused(key, request)] && Retained(slots.Abs(), key, request, 0)
      modifies this, slots.slots
      ensures Valid() && events == old(events) + [ReleaseKey(pid, fault)] && nextId == old(nextId) && made == old(made)
      ensures EraseWorks(fault) ==> key !in slots.Abs()
    {
      hide Run, Contents, Distinct, Idempotency.Valid, GuardedRun;
      ghost var before := Now();
      var _ := slots.ReleasePending(key, request, fault);
      Note(ReleaseKey(pid, fault), before);
    }

    /** At most three attempts; if none succeeds the request gives up and the key stays reserved. */
    method FinalizeWithRetries(pid: nat, key: Digest, request: Digest, id: nat, env: Env) returns (finalized: bool)
      requires Sound() && processes == map[pid := Enqueued(key, request, id)] && id != 0
      requires Retained(slots.Abs(), key, request, 0)
      modifies this, slots.slots
      ensures Valid() && old(events) <= events && nextId == old(nextId) && made == old(made)
      ensures finalized <==> SomeWorks(env.finalize)
      ensures |events| <= |old(events)| + 3 + if finalized then 0 else 1
      ensures !finalized ==> events[|events| - 1] == GiveUp(pid)
      ensures finalized ==> Retained(slots.Abs(), key, request, id)
      ensures key in slots.Abs() && slots.Abs()[key].request == request
    {
      hide Run, Contents, Distinct, Idempotency.Valid, GuardedRun;
      finalized := false;
      var attempt := 0;
      while attempt < FINALIZE_ATTEMPTS && !finalized
        invariant Sound() && old(events) <= events && nextId == old(nextId) && made == old(made)
        invariant attempt <= FINALIZE_ATTEMPTS && |events| == |old(events)| + attempt
        invariant processes == if finalized then map[] else map[pid := Enqueued(key, request, id)]
        invariant key in slots.Abs() && slots.Abs()[key].request == request
        invariant finalized ==> slots.Abs()[key].id == id && SomeWorks(env.finalize)
        invariant !finalized ==> forall k :: 0 <= k < attempt ==> !WriteWorks(env.finalize(k))
      {
        ghost var before := Now();
        var err := slots.Finalize(key, request, id, env.finalize(attempt));
        Note(FinalizeKey(pid, env.finalize(attempt)), before);
        finalized := err == Ok;
        attempt := attempt + 1;
      }
      if !finalized {
        ghost var before := Now();
        Note(GiveUp(pid), before);
      }
    }
  }

  /** Whether finalizing, and releasing, is not disturbed. */
  predicate WriteWorks(fault: Fault) {
    !fault.ReadFault? && !fault.WriteFault?
  }

  predicate EraseWorks(fault: Fault) {
    !fault.ReadFault? && !fault.EraseFault?
  }

  predicate SomeWorks(faults: nat -> Fault) {
    exists k :: 0 <= k < 3 && WriteWorks(faults(k))
  }

  ghost predicate Retained(l: Ledger, key: Digest, request: Digest, id: nat) {
    key in l && l[key].request == request && l[key].id == id
  }

  /** What a request leaves of its key: finalized, still reserved, or released. */
  ghost predicate Settled(l: Ledger, key: Digest, request: Digest, env: Env, reply: Reply) {
    && (reply.NewlyQueued? && reply.finalized ==> Retained(l, key, request, reply.id))
    && (reply.NewlyQueued? && !reply.finalized ==> key in l && l[key].request == request)
    && (reply.QueueFailed? && EraseWorks(env.release) ==> key !in l)
  }

  /** A key that is retained is answered from the ledger alone, which stays as it is. */
  ghost predicate RetainedIsAnswered(before: Ledger, after: Ledger, key: Digest, request: Digest, claim: Fault, reply: Reply) {
    !claim.ReadFault? && key in before ==>
      && after == before
      && reply == if before[key].request != request then KeyConflict(before[key].id)
                  else if before[key].id == 0 then StillPending else AlreadyQueued(before[key].id)
  }

  /** The reply follows from the claim and the faults, and so does what is left of the key. */
  ghost predicate Answers(before: Ledger, after: Ledger, key: Digest, request: Digest, env: Env, nextId: nat, reply: Reply) {
    var c := Claim(before, key, request, env.claim);
    && reply == ReplyTo(c, env, nextId) && Settled(after, key, request, env, reply)
    && (!reply.NewlyQueued? && !reply.QueueFailed? ==> after == c.ledger)
  }

  /** What a request is answered, given what its claim was answered. */
  function ReplyTo(c: Claimed, env: Env, nextId: nat): Reply {
    if c.err != Ok then Unavailable
    else match c.answer
      case Conflict(id) => KeyConflict(id)
      case Replayed(id) => if id == 0 then StillPending else AlreadyQueued(id)
      case Miss => if env.queueing.Accepted? then NewlyQueued(nextId, SomeWorks(env.finalize)) else QueueFailed
  }

  lemma ClaimIs(w: World, pid: nat, key: Digest, request: Digest, fault: Fault)
    requires pid !in w.processes && Idempotency.Valid(w.ledger)
    ensures var w' := Step(w, ClaimKey(pid, key, request, fault));
      var c := Claim(w.ledger, key, request, fault);
      && w'.ledger == c.ledger && w'.nextId == w.nextId
      && (c.err != Ok || c.answer != Miss ==> w'.processes == w.processes)
      && Of(w'.made, key) == Of(w.made, key)
      && (c.err == Ok && c.answer == Miss ==> w'.processes == w.processes[pid := Holding(key, request)])
      && (c.err == Ok && c.answer == Miss ==> Retained(c.ledger, key, request, 0))
  {
    hide Claim, Idempotency.Valid;
    ClaimFacts(w.ledger, key, request, fault);
  }

  lemma GuardedStart(es: seq<Event>, key: Digest, request: Digest, fault: Fault)
    requires GuardedRun(NEW, es)
    ensures var w := Run(NEW, es);
      var c := Claim(w.ledger, key, request, fault);
      && (c.answer.Replayed? && c.answer.id != 0 ==> Of(w.made, key) == {c.answer.id})
      && (c.err == Ok && c.answer == Miss ==> Of(w.made, key) == {})
      && (c.answer.Replayed? && c.answer.id != 0 ==> c.answer.id in w.asked && w.asked[c.answer.id] == request)
  {
    hide Run, Claim, Of;
    ReplayIsTheSameRequest(NEW, es, key, request, fault);
    AtMostOneRecordPerKey(NEW, es, key, request, fault);
    MissMeansNone(NEW, es, key, request, fault);
  }
}
