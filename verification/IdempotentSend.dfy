/**
 * The two callers of the ledger (messages_post_handler in api_server.c, handle_structured_send
 * in mqtt_service.c) as processes that claim a key, queue a message and finalize or release the
 * key, interleaved with each other and cut short by power losses.
 */
module IdempotentSend {
  import opened Journal
  import opened Idempotency

  /** A request behind its claim: about to queue the message, queued, or refused by the store. */
  datatype Process =
    | Holding(key: Digest, request: Digest)
    | Enqueued(key: Digest, request: Digest, id: nat)
    | Refused(key: Digest, request: Digest)

  /** What queueing the message does; a failed save may have stored the record all the same. */
  datatype Queueing = Accepted | Rejected(stored: bool)

  /**
   * made: per key, the records whose queueing was reported as done since the key was last forgotten;
   * hidden: the same for records that a failed save left behind; times: when each key was claimed;
   * asked: the request each queued record was made for.
   */
  datatype World = World(
    ledger: Ledger,
    processes: map<nat, Process>,
    nextId: nat,
    made: map<Digest, set<nat>>,
    hidden: map<Digest, set<nat>>,
    times: map<Digest, nat>,
    clock: nat,
    asked: map<nat, Digest>)

  datatype Event =
    | ClaimKey(pid: nat, key: Digest, request: Digest, fault: Fault)
    | QueueMessage(pid: nat, queueing: Queueing)
    | FinalizeKey(pid: nat, fault: Fault)
    | ReleaseKey(pid: nat, fault: Fault)
    | GiveUp(pid: nat)
    | PowerLoss

  function Of(m: map<Digest, set<nat>>, key: Digest): set<nat> {
    if key in m then m[key] else {}
  }

  /** The key a claim pushes out of the ledger. */
  ghost function Forgotten(l: Ledger, l': Ledger): set<Digest> {
    l.Keys - l'.Keys
  }

  ghost function ClaimStep(w: World, pid: nat, key: Digest, request: Digest, fault: Fault): World {
    var c := Claim(w.ledger, key, request, fault);
    var gone := Forgotten(w.ledger, c.ledger);
    var w1 := w.(ledger := c.ledger, made := w.made - gone, hidden := w.hidden - gone,
                 times := if key in c.ledger && key !in w.ledger then (w.times - gone)[key := w.clock] else w.times,
                 clock := w.clock + 1);
    if c.err == Ok && c.answer == Miss then w1.(processes := w.processes[pid := Holding(key, request)]) else w1
  }

  ghost function QueueStep(w: World, pid: nat, p: Process, queueing: Queueing): World {
    var id := w.nextId;
    match queueing
    case Accepted =>
      w.(processes := w.processes[pid := Enqueued(p.key, p.request, id)], nextId := id + 1,
         made := w.made[p.key := Of(w.made, p.key) + {id}], asked := w.asked[id := p.request])
    case Rejected(stored) =>
      var w1 := w.(processes := w.processes[pid := Refused(p.key, p.request)]);
      if stored then w1.(nextId := id + 1, hidden := w.hidden[p.key := Of(w.hidden, p.key) + {id}]) else w1
  }

  /** One step; an event that the state does not allow changes nothing. */
  ghost function Step(w: World, e: Event): World {
    match e
    case ClaimKey(pid, key, request, fault) =>
      if pid in w.processes then w else ClaimStep(w, pid, key, request, fault)
    case QueueMessage(pid, queueing) =>
      if pid in w.processes && w.processes[pid].Holding? then QueueStep(w, pid, w.processes[pid], queueing) else w
    case FinalizeKey(pid, fault) =>
      if pid in w.processes && w.processes[pid].Enqueued? then
        var p := w.processes[pid];
        var c := Finalize(w.ledger, p.key, p.request, p.id, fault);
        w.(ledger := c.ledger, processes := if c.err == Ok then w.processes - {pid} else w.processes)
      else w
    case ReleaseKey(pid, fault) =>
      if pid in w.processes && w.processes[pid].Refused? then
        var p := w.processes[pid];
        var c := Release(w.ledger, p.key, p.request, fault);
        w.(ledger := c.ledger, processes := w.processes - {pid},
           times := if p.key in c.ledger then w.times else w.times - {p.key})
      else w
    case GiveUp(pid) => w.(processes := w.processes - {pid})
    case PowerLoss => w.(processes := map[])
  }

  ghost function Run(w: World, es: seq<Event>): World
    decreases |es|
  {
    if es == [] then w else Run(Step(w, es[0]), es[1..])
  }

  /** The claim writes a reservation, reported or not. */
  ghost predicate Reserves(w: World, key: Digest, request: Digest, fault: Fault) {
    key !in w.ledger && key in Claim(w.ledger, key, request, fault).ledger
  }

  /** A queued request with that key and content is still trying to finalize. */
  ghost predicate StillTrying(w: World, key: Digest, request: Digest) {
    exists pid :: pid in w.processes && TriesFor(w.processes[pid], key, request)
  }

  predicate TriesFor(p: Process, key: Digest, request: Digest) {
    p.Enqueued? && p.key == key && p.request == request
  }

  /** No key is reserved anew for a request of which an earlier instance is still trying to finalize. */
  ghost predicate Guarded(w: World, e: Event) {
    e.ClaimKey? && e.pid !in w.processes && Reserves(w, e.key, e.request, e.fault) ==> !StillTrying(w, e.key, e.request)
  }

  ghost predicate GuardedRun(w: World, es: seq<Event>)
    decreases |es|
  {
    es == [] || (Guarded(w, es[0]) && GuardedRun(Step(w, es[0]), es[1..]))
  }

  lemma {:induction false} GuardedAppend(w: World, es: seq<Event>, e: Event)
    requires GuardedRun(w, es) && Guarded(Run(w, es), e)
    ensures GuardedRun(w, es + [e])
    decreases |es|
  {
    hide Step, Guarded;
    if es == [] {
      assert es + [e] == [e] && [e][1..] == [];
    } else {
      assert (es + [e])[1..] == es[1..] + [e];
      GuardedAppend(Step(w, es[0]), es[1..], e);
    }
  }

  // ----- the invariant -----

  /** The ledger entry of the key is the one of this request. */
  ghost predicate Owns(w: World, p: Process) {
    p.key in w.ledger && w.ledger[p.key].request == p.request
  }

  /** A request that has not queued yet owns an open reservation; one that has may have been finalized and forgotten. */
  ghost predicate ProcessOk(w: World, p: Process) {
    if p.Enqueued? then p.id != 0 && (Owns(w, p) ==> w.ledger[p.key].id in {0, p.id} && Of(w.made, p.key) == {p.id})
    else Owns(w, p) && w.ledger[p.key].id == 0 && Of(w.made, p.key) == {}
  }

  ghost predicate KeyOk(w: World, key: Digest) {
    && |Of(w.made, key)| <= 1
    && (key !in w.ledger ==> Of(w.made, key) == {})
    && (key in w.ledger && w.ledger[key].id != 0 ==> Of(w.made, key) == {w.ledger[key].id})
  }

  /** Sequence numbers follow the clock. */
  ghost predicate InOrder(w: World) {
    && (forall k :: k in w.times <==> k in w.ledger)
    && (forall k :: k in w.times ==> w.times[k] < w.clock)
    && (forall a, b :: a in w.ledger && b in w.ledger ==> (w.ledger[a].sequence < w.ledger[b].sequence <==> w.times[a] < w.times[b]))
  }

  /** One owner per key. */
  ghost predicate Alone(w: World, p: Process, q: Process) {
    Owns(w, p) && Owns(w, q) ==> p.key != q.key
  }

  ghost predicate Inv(w: World) {
    && Idempotency.Valid(w.ledger) && w.nextId >= 1
    && (forall pid :: pid in w.processes ==> ProcessOk(w, w.processes[pid]))
    && (forall p, q :: p in w.processes && q in w.processes && p != q ==> Alone(w, w.processes[p], w.processes[q]))
    && (forall key :: KeyOk(w, key))
  }

  ghost predicate Fresh(w: World) {
    w.ledger == map[] && w.processes == map[] && w.nextId >= 1 && w.made == map[] && w.hidden == map[] && w.times == map[] && w.asked == map[]
  }

  lemma FreshIsFine(w: World)
    requires Fresh(w)
    ensures Inv(w)
  {
  }

  // ----- every step keeps it -----

  /** l' is l with a fresh reservation for key, and perhaps without some finalized key. */
  ghost predicate Grew(l: Ledger, l': Ledger, key: Digest, request: Digest) {
    && key !in l && key in l' && l'[key].id == 0 && l'[key].request == request
    && (forall k :: k in l ==> l[k].sequence < l'[key].sequence)
    && (forall k :: k in l' && k != key ==> k in l && l'[k] == l[k])
    && (forall k :: k in l && k !in l' ==> l[k].id != 0)
  }

  lemma ReservedGrew(l: Ledger, key: Digest, request: Digest)
    requires key !in l && (|l| < MAX_KEYS || Finalized(l) != {})
    ensures Grew(l, Reserved(l, key, request), key, request)
  {
  }

  lemma ClaimFacts(l: Ledger, key: Digest, request: Digest, fault: Fault)
    requires Idempotency.Valid(l)
    ensures var c := Claim(l, key, request, fault);
      && Idempotency.Valid(c.ledger)
      && (c.ledger == l || Grew(l, c.ledger, key, request))
      && (c.err == Ok && c.answer == Miss ==> Grew(l, c.ledger, key, request))
      && (c.err == Ok && c.answer != Miss ==> c.ledger == l)
  {
    hide Idempotency.Valid, Reserved, Grew;
    ClaimKeeps(l, key, request, fault);
    if key !in l && (|l| < MAX_KEYS || Finalized(l) != {}) { ReservedGrew(l, key, request); }
  }

  lemma KeyFrame(w: World, w': World, k: Digest)
    requires KeyOk(w, k) && Of(w'.made, k) == Of(w.made, k)
    requires k in w'.ledger <==> k in w.ledger
    requires k in w.ledger ==> w'.ledger[k].id == w.ledger[k].id
    ensures KeyOk(w', k)
  {
    hide Of;
  }

  lemma ProcessFrame(w: World, w': World, p: Process)
    requires ProcessOk(w, p)
    requires Owns(w', p) ==> Owns(w, p) && Of(w'.made, p.key) == Of(w.made, p.key) && w'.ledger[p.key].id == w.ledger[p.key].id
    requires !p.Enqueued? ==> Owns(w', p)
    ensures ProcessOk(w', p)
  {
    hide Of;
  }

  lemma NoChange(w: World, pid: nat, key: Digest, request: Digest, fault: Fault)
    requires Inv(w) && pid !in w.processes && Claim(w.ledger, key, request, fault).ledger == w.ledger
    requires Claim(w.ledger, key, request, fault).err == Ok ==> Claim(w.ledger, key, request, fault).answer != Miss
    ensures Inv(ClaimStep(w, pid, key, request, fault))
  {
    hide Claim, Idempotency.Valid, Of;
    var w' := ClaimStep(w, pid, key, request, fault);
    assert Forgotten(w.ledger, w.ledger) == {};
    assert w.made - {} == w.made;
    forall k ensures KeyOk(w', k) {
      assert KeyOk(w, k);
      KeyFrame(w, w', k);
    }
    forall q | q in w.processes ensures ProcessOk(w', w.processes[q]) {
      ProcessFrame(w, w', w.processes[q]);
    }
    forall p, q | p in w'.processes && q in w'.processes && p != q ensures Alone(w', w'.processes[p], w'.processes[q]) {
      assert Alone(w, w.processes[p], w.processes[q]);
    }
  }

  lemma GrownKeys(w: World, pid: nat, key: Digest, request: Digest, fault: Fault, k: Digest)
    requires Inv(w) && Grew(w.ledger, Claim(w.ledger, key, request, fault).ledger, key, request)
    ensures KeyOk(ClaimStep(w, pid, key, request, fault), k)
    ensures k in w.ledger && k in Claim(w.ledger, key, request, fault).ledger ==> Of(ClaimStep(w, pid, key, request, fault).made, k) == Of(w.made, k)
    ensures k == key ==> Of(ClaimStep(w, pid, key, request, fault).made, k) == {}
  {
    hide Claim, Idempotency.Valid, Of, Forgotten, ProcessOk, Alone;
    assert KeyOk(w, k);
    var l' := Claim(w.ledger, key, request, fault).ledger;
    OfWithout(w.made, Forgotten(w.ledger, l'), k);
    ForgottenKeys(w.ledger, l', k);
  }

  /** What a granted or stored reservation means for a request that was already there. */
  lemma GrownProcess(w: World, pid: nat, key: Digest, request: Digest, fault: Fault, p: Process)
    requires Inv(w) && Grew(w.ledger, Claim(w.ledger, key, request, fault).ledger, key, request)
    requires ProcessOk(w, p) && !TriesFor(p, key, request)
    ensures var w' := ClaimStep(w, pid, key, request, fault);
      ProcessOk(w', p) && (Owns(w', p) ==> Owns(w, p) && p.key != key)
  {
    hide Claim, Idempotency.Valid, Of, Forgotten, KeyOk, Alone, Inv;
    var w' := ClaimStep(w, pid, key, request, fault);
    GrownKeys(w, pid, key, request, fault, p.key);
    ProcessFrame(w, w', p);
  }

  lemma GrownKeeps(w: World, pid: nat, key: Digest, request: Digest, fault: Fault)
    requires Inv(w) && pid !in w.processes && Grew(w.ledger, Claim(w.ledger, key, request, fault).ledger, key, request)
    requires !StillTrying(w, key, request)
    ensures Inv(ClaimStep(w, pid, key, request, fault))
  {
    hide Claim, Idempotency.Valid, Of, Forgotten, ProcessOk;
    ClaimFacts(w.ledger, key, request, fault);
    var w' := ClaimStep(w, pid, key, request, fault);
    forall k ensures KeyOk(w', k) {
      GrownKeys(w, pid, key, request, fault, k);
    }
    forall q | q in w.processes
      ensures ProcessOk(w', w.processes[q]) && (Owns(w', w.processes[q]) ==> Owns(w, w.processes[q]) && w.processes[q].key != key)
    {
      GrownProcess(w, pid, key, request, fault, w.processes[q]);
    }
    forall p, q | p in w.processes && q in w.processes && p != q ensures Alone(w', w.processes[p], w.processes[q]) {
      assert Alone(w, w.processes[p], w.processes[q]);
    }
    NewOwner(w, pid, key, request, fault);
  }

  lemma NewOwner(w: World, pid: nat, key: Digest, request: Digest, fault: Fault)
    requires Inv(w) && Grew(w.ledger, Claim(w.ledger, key, request, fault).ledger, key, request)
    ensures ProcessOk(ClaimStep(w, pid, key, request, fault), Holding(key, request))
  {
    hide Claim, Idempotency.Valid, Of, Forgotten, Alone;
    GrownKeys(w, pid, key, request, fault, key);
  }

  lemma ClaimStepKeeps(w: World, pid: nat, key: Digest, request: Digest, fault: Fault)
    requires Inv(w) && pid !in w.processes && Guarded(w, ClaimKey(pid, key, request, fault))
    ensures Inv(ClaimStep(w, pid, key, request, fault))
  {
    hide Claim, Idempotency.Valid, ClaimStep, KeyOk, ProcessOk, StillTrying, Alone;
    ClaimFacts(w.ledger, key, request, fault);
    if Grew(w.ledger, Claim(w.ledger, key, request, fault).ledger, key, request) {
      GrownKeeps(w, pid, key, request, fault);
    } else {
      NoChange(w, pid, key, request, fault);
    }
  }

  lemma ForgottenKeys(l: Ledger, l': Ledger, k: Digest)
    ensures k in Forgotten(l, l') <==> k in l && k !in l'
  {
  }

  lemma OfWithout(m: map<Digest, set<nat>>, gone: set<Digest>, k: Digest)
    ensures Of(m - gone, k) == if k in gone then {} else Of(m, k)
  {
  }

  lemma ClaimInOrder(w: World, pid: nat, key: Digest, request: Digest, fault: Fault)
    requires InOrder(w) && Grew(w.ledger, Claim(w.ledger, key, request, fault).ledger, key, request)
    ensures InOrder(ClaimStep(w, pid, key, request, fault))
  {
    hide Claim, InOrder;
    SameTimes(w);
    OrderGrows(w, ClaimStep(w, pid, key, request, fault), key);
  }

  lemma SameTimes(w: World)
    requires InOrder(w)
    ensures forall k :: k in w.times <==> k in w.ledger
  {
  }

  lemma OrderGrows(w: World, w': World, key: Digest)
    requires InOrder(w) && key in w'.times && w'.times[key] == w.clock && w'.clock == w.clock + 1
    requires forall k :: k in w'.times <==> k in w'.ledger
    requires forall k :: k in w'.ledger && k != key ==> k in w.ledger && w'.ledger[k] == w.ledger[k]
    requires forall k :: k in w'.times && k != key ==> k in w.times && w'.times[k] == w.times[k]
    requires forall k :: k in w.ledger ==> w.ledger[k].sequence < w'.ledger[key].sequence
    ensures InOrder(w')
  {
  }

  lemma QueueKeeps(w: World, pid: nat, queueing: Queueing)
    requires Inv(w) && pid in w.processes && w.processes[pid].Holding?
    ensures Inv(QueueStep(w, pid, w.processes[pid], queueing))
  {
    hide Idempotency.Valid, KeyOk, ProcessOk, Of;
    var p := w.processes[pid];
    var w' := QueueStep(w, pid, p, queueing);
    assert ProcessOk(w, p) && KeyOk(w, p.key);
    OwnsKey(w, p);
    QueuedKey(w, pid, queueing);
    forall k ensures KeyOk(w', k) {
      assert KeyOk(w, k);
      if k != p.key {
        QueuedOther(w, pid, queueing, k);
        KeyFrame(w, w', k);
      }
    }
    forall q | q in w.processes && q != pid ensures ProcessOk(w', w.processes[q]) {
      assert Alone(w, p, w.processes[q]);
      if w.processes[q].key != p.key { QueuedOther(w, pid, queueing, w.processes[q].key); }
      if !w.processes[q].Enqueued? { OwnsKey(w, w.processes[q]); }
      ProcessFrame(w, w', w.processes[q]);
    }
    forall a, b | a in w'.processes && b in w'.processes && a != b ensures Alone(w', w'.processes[a], w'.processes[b]) {
      assert Alone(w, w.processes[a], w.processes[b]);
    }
  }

  lemma OwnsKey(w: World, p: Process)
    requires ProcessOk(w, p) && !p.Enqueued?
    ensures Owns(w, p)
  {
  }

  lemma QueuedOther(w: World, pid: nat, queueing: Queueing, k: Digest)
    requires pid in w.processes && w.processes[pid].Holding? && k != w.processes[pid].key
    ensures Of(QueueStep(w, pid, w.processes[pid], queueing).made, k) == Of(w.made, k)
  {
  }

  lemma QueuedKey(w: World, pid: nat, queueing: Queueing)
    requires w.nextId >= 1 && pid in w.processes && w.processes[pid].Holding? && ProcessOk(w, w.processes[pid])
    ensures var w' := QueueStep(w, pid, w.processes[pid], queueing);
      ProcessOk(w', w'.processes[pid]) && KeyOk(w', w.processes[pid].key)
  {
  }

  lemma SameOrder(w: World, w': World)
    requires InOrder(w) && w'.ledger.Keys == w.ledger.Keys && w'.times == w.times && w'.clock == w.clock
    requires forall k :: k in w.ledger ==> w'.ledger[k].sequence == w.ledger[k].sequence
    ensures InOrder(w')
  {
  }

  lemma FinalizeStepKeeps(w: World, pid: nat, fault: Fault)
    requires Inv(w) && pid in w.processes && w.processes[pid].Enqueued?
    ensures Inv(Step(w, FinalizeKey(pid, fault)))
  {
    hide Idempotency.Valid, Of, KeyOk, ProcessOk, Finalize, Alone;
    var p := w.processes[pid];
    var w' := Step(w, FinalizeKey(pid, fault));
    assert ProcessOk(w, p);
    FinalizeKeeps(w.ledger, p.key, p.request, p.id, fault);
    FinalizeFacts(w.ledger, p.key, p.request, p.id, fault);
    FinalizedKey(w, pid, fault);
    forall k ensures KeyOk(w', k) {
      assert KeyOk(w, k);
      if k != p.key { KeyFrame(w, w', k); }
    }
    forall q | q in w'.processes ensures ProcessOk(w', w'.processes[q]) {
      if q != pid { OtherProcess(w, pid, q, fault); }
    }
    forall a, b | a in w'.processes && b in w'.processes && a != b ensures Alone(w', w'.processes[a], w'.processes[b]) {
      StillAlone(w, pid, fault, a, b);
    }
  }

  lemma OtherProcess(w: World, pid: nat, q: nat, fault: Fault)
    requires Inv(w) && pid in w.processes && w.processes[pid].Enqueued? && q in w.processes && q != pid
    ensures ProcessOk(Step(w, FinalizeKey(pid, fault)), w.processes[q])
  {
    hide Idempotency.Valid, Of, KeyOk, ProcessOk, Finalize;
    var p := w.processes[pid];
    FinalizeFacts(w.ledger, p.key, p.request, p.id, fault);
    assert ProcessOk(w, w.processes[q]);
    assert Alone(w, p, w.processes[q]);
    if !w.processes[q].Enqueued? { OwnsKey(w, w.processes[q]); }
    ProcessFrame(w, Step(w, FinalizeKey(pid, fault)), w.processes[q]);
  }

  lemma StillAlone(w: World, pid: nat, fault: Fault, a: nat, b: nat)
    requires Inv(w) && pid in w.processes && w.processes[pid].Enqueued? && a in w.processes && b in w.processes && a != b
    ensures Alone(Step(w, FinalizeKey(pid, fault)), w.processes[a], w.processes[b])
  {
    hide Idempotency.Valid, Of, KeyOk, ProcessOk, Finalize;
    var p := w.processes[pid];
    FinalizeFacts(w.ledger, p.key, p.request, p.id, fault);
    assert Alone(w, w.processes[a], w.processes[b]);
  }

  lemma FinalizeFacts(l: Ledger, key: Digest, request: Digest, id: nat, fault: Fault)
    ensures var l' := Finalize(l, key, request, id, fault).ledger;
      && l'.Keys == l.Keys && (forall k :: k in l ==> l'[k].sequence == l[k].sequence)
      && (forall k :: k in l && k != key ==> l'[k] == l[k])
      && (key in l ==> l'[key].request == l[key].request)
      && (key in l && l[key].request != request ==> l'[key] == l[key])
  {
  }

  lemma FinalizedKey(w: World, pid: nat, fault: Fault)
    requires pid in w.processes && w.processes[pid].Enqueued?
    requires ProcessOk(w, w.processes[pid]) && KeyOk(w, w.processes[pid].key)
    ensures var w' := Step(w, FinalizeKey(pid, fault));
      KeyOk(w', w.processes[pid].key) && (pid in w'.processes ==> ProcessOk(w', w.processes[pid]))
  {
    hide Of;
  }

  lemma ReleaseStepKeeps(w: World, pid: nat, fault: Fault)
    requires Inv(w) && pid in w.processes && w.processes[pid].Refused?
    ensures Inv(Step(w, ReleaseKey(pid, fault)))
  {
    hide Idempotency.Valid, Of, KeyOk, ProcessOk, Release;
    var p := w.processes[pid];
    var w' := Step(w, ReleaseKey(pid, fault));
    assert ProcessOk(w, p);
    OwnsKey(w, p);
    ReleaseFacts(w.ledger, p.key, p.request, fault);
    ReleaseKeeps(w.ledger, p.key, p.request, fault);
    ReleasedKey(w, pid, fault);
    forall k ensures KeyOk(w', k) {
      assert KeyOk(w, k);
      if k != p.key { KeyFrame(w, w', k); }
    }
    forall q | q in w'.processes ensures ProcessOk(w', w'.processes[q]) {
      assert Alone(w, p, w.processes[q]);
      if !w.processes[q].Enqueued? { OwnsKey(w, w.processes[q]); }
      ProcessFrame(w, w', w.processes[q]);
    }
    forall a, b | a in w'.processes && b in w'.processes && a != b ensures Alone(w', w'.processes[a], w'.processes[b]) {
      assert Alone(w, w.processes[a], w.processes[b]);
    }
  }

  lemma ReleaseInOrder(w: World, pid: nat, fault: Fault)
    requires InOrder(w) && pid in w.processes && w.processes[pid].Refused?
    ensures InOrder(Step(w, ReleaseKey(pid, fault)))
  {
    hide Release;
    var p := w.processes[pid];
    ReleaseFacts(w.ledger, p.key, p.request, fault);
  }

  lemma ReleaseFacts(l: Ledger, key: Digest, request: Digest, fault: Fault)
    ensures var l' := Release(l, key, request, fault).ledger;
      && (forall k :: k in l' ==> k in l && l'[k] == l[k])
      && (forall k :: k in l && k != key ==> k in l')
  {
  }

  lemma ReleasedKey(w: World, pid: nat, fault: Fault)
    requires pid in w.processes && w.processes[pid].Refused?
    requires ProcessOk(w, w.processes[pid]) && KeyOk(w, w.processes[pid].key)
    ensures KeyOk(Step(w, ReleaseKey(pid, fault)), w.processes[pid].key)
  {
    hide Of;
  }

  lemma StepKeeps(w: World, e: Event)
    requires Inv(w) && Guarded(w, e)
    ensures Inv(Step(w, e))
  {
    match e
    case ClaimKey(pid, key, request, fault) =>
      hide Inv, ClaimStep, Guarded;
      if pid !in w.processes { ClaimStepKeeps(w, pid, key, request, fault); }
    case QueueMessage(pid, queueing) =>
      hide Inv, QueueStep;
      if pid in w.processes && w.processes[pid].Holding? { QueueKeeps(w, pid, queueing); }
    case FinalizeKey(pid, fault) =>
      hide Inv, Finalize;
      if pid in w.processes && w.processes[pid].Enqueued? { FinalizeStepKeeps(w, pid, fault); }
    case ReleaseKey(pid, fault) =>
      hide Inv, Release;
      if pid in w.processes && w.processes[pid].Refused? { ReleaseStepKeeps(w, pid, fault); }
    case GiveUp(pid) => FewerProcesses(w, w.processes - {pid});
    case PowerLoss => FewerProcesses(w, map[]);
  }

  lemma FewerProcesses(w: World, processes: map<nat, Process>)
    requires Inv(w) && forall p :: p in processes ==> p in w.processes && processes[p] == w.processes[p]
    ensures Inv(w.(processes := processes))
  {
    hide Idempotency.Valid, Of;
    var w' := w.(processes := processes);
    forall k ensures KeyOk(w', k) {
      assert KeyOk(w, k);
    }
    forall q | q in processes ensures ProcessOk(w', processes[q]) {
      assert ProcessOk(w, processes[q]);
    }
    forall a, b | a in processes && b in processes && a != b ensures Alone(w', processes[a], processes[b]) {
      assert Alone(w, processes[a], processes[b]);
    }
  }

  lemma {:induction false} RunKeeps(w: World, es: seq<Event>)
    requires Inv(w) && GuardedRun(w, es)
    ensures Inv(Run(w, es))
    decreases |es|
  {
    hide Inv, Step, Guarded;
    if es != [] {
      StepKeeps(w, es[0]);
      RunKeeps(Step(w, es[0]), es[1..]);
    }
  }

  // ----- the order of claims, over every run -----

  ghost predicate Ordered(w: World) {
    Idempotency.Valid(w.ledger) && InOrder(w)
  }

  lemma ClaimKeepsOrder(w: World, pid: nat, key: Digest, request: Digest, fault: Fault)
    requires Ordered(w)
    ensures Ordered(ClaimStep(w, pid, key, request, fault))
  {
    hide Claim, Idempotency.Valid, InOrder, Grew;
    ClaimFacts(w.ledger, key, request, fault);
    if Grew(w.ledger, Claim(w.ledger, key, request, fault).ledger, key, request) {
      ClaimInOrder(w, pid, key, request, fault);
    } else {
      LaterClock(w, ClaimStep(w, pid, key, request, fault));
    }
  }

  lemma LaterClock(w: World, w': World)
    requires InOrder(w) && w'.ledger == w.ledger && w'.times == w.times && w'.clock >= w.clock
    ensures InOrder(w')
  {
  }

  lemma StepKeepsOrder(w: World, e: Event)
    requires Ordered(w)
    ensures Ordered(Step(w, e))
  {
    hide Ordered, ClaimStep, Finalize, Release, QueueStep;
    match e
    case ClaimKey(pid, key, request, fault) => ClaimKeepsOrder(w, pid, key, request, fault);
    case FinalizeKey(pid, fault) =>
      if pid in w.processes && w.processes[pid].Enqueued? { FinalizeKeepsOrder(w, pid, fault); }
    case ReleaseKey(pid, fault) =>
      if pid in w.processes && w.processes[pid].Refused? { ReleaseKeepsOrder(w, pid, fault); }
    case QueueMessage(pid, queueing) => QueueKeepsOrder(w, pid, queueing);
    case GiveUp(pid) => SameLedger(w, w.processes - {pid});
    case PowerLoss => SameLedger(w, map[]);
  }

  lemma SameLedger(w: World, processes: map<nat, Process>)
    requires Ordered(w)
    ensures Ordered(w.(processes := processes))
  {
    hide Idempotency.Valid, InOrder;
    SameOrder(w, w.(processes := processes));
  }

  lemma FinalizeKeepsOrder(w: World, pid: nat, fault: Fault)
    requires Ordered(w) && pid in w.processes && w.processes[pid].Enqueued?
    ensures Ordered(Step(w, FinalizeKey(pid, fault)))
  {
    hide Idempotency.Valid, InOrder, Finalize;
    var p := w.processes[pid];
    FinalizeKeeps(w.ledger, p.key, p.request, p.id, fault);
    FinalizeFacts(w.ledger, p.key, p.request, p.id, fault);
    SameOrder(w, Step(w, FinalizeKey(pid, fault)));
  }

  lemma ReleaseKeepsOrder(w: World, pid: nat, fault: Fault)
    requires Ordered(w) && pid in w.processes && w.processes[pid].Refused?
    ensures Ordered(Step(w, ReleaseKey(pid, fault)))
  {
    hide Idempotency.Valid, InOrder, Release;
    var p := w.processes[pid];
    ReleaseKeeps(w.ledger, p.key, p.request, fault);
    ReleaseInOrder(w, pid, fault);
  }

  lemma QueueKeepsOrder(w: World, pid: nat, queueing: Queueing)
    requires Ordered(w)
    ensures Ordered(Step(w, QueueMessage(pid, queueing)))
  {
    hide Idempotency.Valid, InOrder, Of;
    SameOrder(w, Step(w, QueueMessage(pid, queueing)));
  }

  lemma {:induction false} RunKeepsOrder(w: World, es: seq<Event>)
    requires Ordered(w)
    ensures Ordered(Run(w, es))
    decreases |es|
  {
    hide Ordered, Step;
    if es != [] {
      StepKeepsOrder(w, es[0]);
      RunKeepsOrder(Step(w, es[0]), es[1..]);
    }
  }

  // ----- the promises -----

  /** All records that exist for a key since it was last forgotten. */
  ghost function Records(w: World, key: Digest): set<nat> {
    Of(w.made, key) + Of(w.hidden, key)
  }

  /**
   * For every interleaving and every power loss, guarded as above: one record per key at most, not counting what
   * failed saves left behind, and a replay that names a record names that one.
   */
  lemma AtMostOneRecordPerKey(w: World, es: seq<Event>, key: Digest, request: Digest, fault: Fault)
    requires Fresh(w) && GuardedRun(w, es)
    ensures var w' := Run(w, es);
      && |Of(w'.made, key)| <= 1
      && (Of(w'.hidden, key) == {} ==> |Records(w', key)| <= 1)
      && var answer := Claim(w'.ledger, key, request, fault).answer;
         (answer.Replayed? && answer.id != 0 ==> Of(w'.made, key) == {answer.id})
  {
    hide Step, Of;
    FreshIsFine(w);
    RunKeeps(w, es);
    assert KeyOk(Run(w, es), key);
  }

  /** A key that was answered with a miss has no reported record yet, so its request may queue one. */
  lemma MissMeansNone(w: World, es: seq<Event>, key: Digest, request: Digest, fault: Fault)
    requires Fresh(w) && GuardedRun(w, es)
    ensures var w' := Run(w, es);
      var c := Claim(w'.ledger, key, request, fault);
      c.err == Ok && c.answer == Miss ==> Of(w'.made, key) == {}
  {
    hide Step, Of;
    FreshIsFine(w);
    RunKeeps(w, es);
    assert KeyOk(Run(w, es), key);
  }

  /** A finalized key is forgotten only after 31 - p others were claimed, p of the earlier ones being still open. */
  lemma ForgottenOnlyAfterLaterClaims(w: World, es: seq<Event>, key: Digest, request: Digest, fault: Fault, k: Digest)
    requires Fresh(w)
    ensures var w' := Run(w, es);
      k in w'.ledger && k !in Claim(w'.ledger, key, request, fault).ledger ==>
        && w'.times.Keys == w'.ledger.Keys && w'.ledger[k].id != 0
        && var open := set j | j in w'.times && w'.times[j] < w'.times[k];
           var later := set j | j in w'.times && w'.times[j] > w'.times[k];
           (forall j :: j in open ==> w'.ledger[j].id == 0) && |later| == 31 - |open|
  {
    hide Step, Run, Claim, InOrder, Idempotency.Valid, Earlier, Later;
    FreshIsOrdered(w);
    RunKeepsOrder(w, es);
    var w' := Run(w, es);
    if k in w'.ledger && k !in Claim(w'.ledger, key, request, fault).ledger {
      ForgottenAfterManyClaims(w'.ledger, key, request, fault, k);
      ClaimForgets(w'.ledger, key, request, fault, k);
      ByTime(w', k);
    }
  }

  lemma FreshIsOrdered(w: World)
    requires Fresh(w)
    ensures Ordered(w)
  {
  }

  /** Earlier and later keys by sequence number are those by time. */
  lemma ByTime(w: World, k: Digest)
    requires InOrder(w) && k in w.ledger
    ensures w.times.Keys == w.ledger.Keys
    ensures Earlier(w.ledger, k) == set j | j in w.times && w.times[j] < w.times[k]
    ensures Later(w.ledger, k) == set j | j in w.times && w.times[j] > w.times[k]
  {
  }

  // ----- which request a record was made for -----

  /** A record is known by the request it was made for, wherever its id stands. */
  ghost predicate AskedOk(w: World) {
    && (forall id :: id in w.asked ==> id < w.nextId)
    && (forall pid :: pid in w.processes && w.processes[pid].Enqueued? ==> MadeFor(w, w.processes[pid].id, w.processes[pid].request))
    && (forall key :: key in w.ledger && w.ledger[key].id != 0 ==> MadeFor(w, w.ledger[key].id, w.ledger[key].request))
  }

  ghost predicate MadeFor(w: World, id: nat, request: Digest) {
    id in w.asked && w.asked[id] == request
  }

  lemma StepKeepsAsked(w: World, e: Event)
    requires AskedOk(w) && Idempotency.Valid(w.ledger)
    ensures AskedOk(Step(w, e))
  {
    hide Idempotency.Valid, Claim, Finalize, Release, QueueStep, ClaimStep, AskedOk;
    match e
    case ClaimKey(pid, key, request, fault) => ClaimKeepsAsked(w, pid, key, request, fault);
    case FinalizeKey(pid, fault) =>
      if pid in w.processes && w.processes[pid].Enqueued? { FinalizeKeepsAsked(w, pid, fault); }
    case ReleaseKey(pid, fault) =>
      if pid in w.processes && w.processes[pid].Refused? { ReleaseKeepsAsked(w, pid, fault); }
    case QueueMessage(pid, queueing) =>
      if pid in w.processes && w.processes[pid].Holding? { QueueKeepsAsked(w, pid, queueing); }
    case GiveUp(pid) => FewerKeepAsked(w, w.processes - {pid});
    case PowerLoss => FewerKeepAsked(w, map[]);
  }

  lemma FewerKeepAsked(w: World, processes: map<nat, Process>)
    requires AskedOk(w) && forall p :: p in processes ==> p in w.processes && processes[p] == w.processes[p]
    ensures AskedOk(w.(processes := processes))
  {
  }

  lemma ClaimKeepsAsked(w: World, pid: nat, key: Digest, request: Digest, fault: Fault)
    requires AskedOk(w)
    ensures pid !in w.processes ==> AskedOk(ClaimStep(w, pid, key, request, fault))
  {
    hide Claim;
    ClaimedEntries(w.ledger, key, request, fault);
  }

  /** A claim adds nothing but a reservation. */
  lemma ClaimedEntries(l: Ledger, key: Digest, request: Digest, fault: Fault)
    ensures var l' := Claim(l, key, request, fault).ledger;
      forall k :: k in l' && l'[k].id != 0 ==> k in l && l'[k] == l[k]
  {
    hide Oldest, Top;
  }

  lemma ReleaseKeepsAsked(w: World, pid: nat, fault: Fault)
    requires AskedOk(w) && pid in w.processes && w.processes[pid].Refused?
    ensures AskedOk(Step(w, ReleaseKey(pid, fault)))
  {
    var p := w.processes[pid];
    assert forall k :: k in Release(w.ledger, p.key, p.request, fault).ledger ==>
             k in w.ledger && Release(w.ledger, p.key, p.request, fault).ledger[k] == w.ledger[k];
  }

  lemma QueueKeepsAsked(w: World, pid: nat, queueing: Queueing)
    requires AskedOk(w) && pid in w.processes && w.processes[pid].Holding?
    ensures AskedOk(QueueStep(w, pid, w.processes[pid], queueing))
  {
    hide Of;
  }

  lemma FinalizeKeepsAsked(w: World, pid: nat, fault: Fault)
    requires AskedOk(w) && pid in w.processes && w.processes[pid].Enqueued?
    ensures AskedOk(Step(w, FinalizeKey(pid, fault)))
  {
    var p, w' := w.processes[pid], Step(w, FinalizeKey(pid, fault));
    forall key | key in w'.ledger && w'.ledger[key].id != 0 ensures MadeFor(w', w'.ledger[key].id, w'.ledger[key].request) {
      if key != p.key { assert w'.ledger[key] == w.ledger[key]; }
    }
  }

  lemma {:induction false} RunKeepsAsked(w: World, es: seq<Event>)
    requires AskedOk(w) && Ordered(w)
    ensures AskedOk(Run(w, es))
    decreases |es|
  {
    hide AskedOk, Step, InOrder, Idempotency.Valid;
    if es != [] {
      StepKeepsAsked(w, es[0]);
      StepKeepsOrder(w, es[0]);
      RunKeepsAsked(Step(w, es[0]), es[1..]);
    }
  }

  /**
   * Over every run, guarded or not: an id that is replayed is the id of a record that was queued for the same
   * request; a key that is retained for another request is answered with a conflict.
   */
  lemma ReplayIsTheSameRequest(w: World, es: seq<Event>, key: Digest, request: Digest, fault: Fault)
    requires Fresh(w)
    ensures var w' := Run(w, es);
      var answer := Claim(w'.ledger, key, request, fault).answer;
      && (answer.Replayed? && answer.id != 0 ==> MadeFor(w', answer.id, request))
      && (answer.Conflict? && answer.id != 0 ==> answer.id in w'.asked && w'.asked[answer.id] != request)
  {
    hide Step, Run, Idempotency.Valid, InOrder;
    FreshIsOrdered(w);
    assert AskedOk(w);
    RunKeepsAsked(w, es);
    ClaimAnswers(Run(w, es).ledger, key, request, fault);
  }

  // ----- the two conditions are needed -----

  ghost const NEW: World := World(map[], map[], 1, map[], map[], map[], 0, map[])

  lemma {:induction false} RunSplit(w: World, a: seq<Event>, b: seq<Event>)
    ensures Run(w, a + b) == Run(Run(w, a), b)
    decreases |a|
  {
    hide Step;
    if a == [] {
      assert a + b == b;
    } else {
      assert (a + b)[1..] == a[1..] + b;
      RunSplit(Step(w, a[0]), a[1..], b);
    }
  }

  lemma RunOne(w: World, e: Event)
    ensures Run(w, [e]) == Step(w, e)
  {
    hide Step;
    assert [e][1..] == [];
  }

  lemma ReservedFree(l: Ledger, key: Digest, request: Digest)
    requires |l| < MAX_KEYS && key !in l
    ensures var l' := Reserved(l, key, request);
      l'.Keys == l.Keys + {key} && |l'.Keys| == |l.Keys| + 1 && Forgotten(l, l') == {} && Finalized(l') == Finalized(l)
  {
  }

  /** A claim in a ledger with a free slot. */
  lemma ClaimFree(w: World, pid: nat, key: Digest, request: Digest)
    requires Idempotency.Valid(w.ledger) && |w.ledger| < MAX_KEYS && key !in w.ledger && pid !in w.processes
    ensures var w' := Step(w, ClaimKey(pid, key, request, NoFault));
      && w'.ledger == Reserved(w.ledger, key, request) && Idempotency.Valid(w'.ledger)
      && |w'.ledger| == |w.ledger| + 1 && w'.ledger.Keys == w.ledger.Keys + {key} && Finalized(w'.ledger) == Finalized(w.ledger)
      && w'.ledger[key].id == 0 && w'.ledger[key].request == request
      && w'.processes == w.processes[pid := Holding(key, request)]
      && w'.made == w.made && w'.hidden == w.hidden && w'.nextId == w.nextId
  {
    hide Forgotten, Idempotency.Valid, Finalized, Top, Oldest;
    ClaimKeeps(w.ledger, key, request, NoFault);
    ReservedFree(w.ledger, key, request);
    assert w.made - {} == w.made && w.hidden - {} == w.hidden;
  }

  lemma ReservedFull(l: Ledger, key: Digest, request: Digest, victim: Digest)
    requires |l| == MAX_KEYS && key !in l && Finalized(l) == {victim}
    ensures var l' := Reserved(l, key, request);
      l'.Keys == l.Keys - {victim} + {key} && |l'.Keys| == MAX_KEYS && Forgotten(l, l') == {victim} && Finalized(l') == {}
  {
    hide Top;
    assert Oldest(l) in Finalized(l);
    var l' := Reserved(l, key, request);
    assert victim in l && victim != key;
    assert l'.Keys == l.Keys - {victim} + {key};
  }

  /** A claim in a full ledger with one finalized key. */
  lemma ClaimFull(w: World, pid: nat, key: Digest, request: Digest, victim: Digest)
    requires Idempotency.Valid(w.ledger) && |w.ledger| == MAX_KEYS && key !in w.ledger && pid !in w.processes
    requires Finalized(w.ledger) == {victim}
    ensures var w' := Step(w, ClaimKey(pid, key, request, NoFault));
      && Idempotency.Valid(w'.ledger) && |w'.ledger| == MAX_KEYS && w'.ledger.Keys == w.ledger.Keys - {victim} + {key}
      && Finalized(w'.ledger) == {} && w'.ledger[key].id == 0 && w'.ledger[key].request == request
      && w'.processes == w.processes[pid := Holding(key, request)] && w'.made == w.made - {victim} && w'.nextId == w.nextId
  {
    hide Forgotten, Idempotency.Valid, Finalized, Top, Oldest;
    ClaimKeeps(w.ledger, key, request, NoFault);
    ReservedFull(w.ledger, key, request, victim);
  }

  /** A save that reports failure but stored the record leads to two records for one key. */
  lemma HiddenSaveDuplicates(key: Digest, request: Digest)
    ensures var es := [ClaimKey(1, key, request, NoFault), QueueMessage(1, Rejected(true)), ReleaseKey(1, NoFault),
                       ClaimKey(2, key, request, NoFault), QueueMessage(2, Accepted)];
      && GuardedRun(NEW, es) && Records(Run(NEW, es), key) == {1, 2} && key in Run(NEW, es).ledger
  {
    hide Step, Run, Idempotency.Valid, GuardedRun, Reserves;
    var e1, e2, e3 := ClaimKey(1, key, request, NoFault), QueueMessage(1, Rejected(true)), ReleaseKey(1, NoFault);
    var e4, e5 := ClaimKey(2, key, request, NoFault), QueueMessage(2, Accepted);
    RunFive(NEW, e1, e2, e3, e4, e5);
    RejectedTry(key, request);
    GuardedFive(NEW, e1, e2, e3, e4, e5);
    SecondTry(Step(Step(Step(NEW, e1), e2), e3), key, request);
  }

  lemma RejectedTry(key: Digest, request: Digest)
    ensures var w := Step(Step(Step(NEW, ClaimKey(1, key, request, NoFault)), QueueMessage(1, Rejected(true))), ReleaseKey(1, NoFault));
      w.ledger == map[] && w.processes == map[] && w.made == map[] && w.hidden == map[key := {1}] && w.nextId == 2
  {
    hide Claim, Idempotency.Valid, ClaimStep;
    FreshIsFine(NEW);
    ClaimFree(NEW, 1, key, request);
    var w2 := Step(Step(NEW, ClaimKey(1, key, request, NoFault)), QueueMessage(1, Rejected(true)));
    assert w2.ledger.Keys == {key};
    assert w2.ledger - {key} == map[];
  }

  lemma SecondTry(w: World, key: Digest, request: Digest)
    requires w.ledger == map[] && w.processes == map[] && w.made == map[] && w.hidden == map[key := {1}] && w.nextId == 2
    ensures var w' := Step(Step(w, ClaimKey(2, key, request, NoFault)), QueueMessage(2, Accepted));
      Records(w', key) == {1, 2} && key in w'.ledger
  {
    hide Claim, ClaimStep;
    ClaimFree(w, 2, key, request);
  }

  lemma RunFive(w: World, e1: Event, e2: Event, e3: Event, e4: Event, e5: Event)
    ensures Run(w, [e1, e2, e3, e4, e5]) == Step(Step(Step(Step(Step(w, e1), e2), e3), e4), e5)
  {
    hide Step;
    RunSplit(w, [e1], [e2, e3, e4, e5]);
    RunOne(w, e1);
    var w1 := Step(w, e1);
    RunSplit(w1, [e2], [e3, e4, e5]);
    RunOne(w1, e2);
    var w2 := Step(w1, e2);
    RunSplit(w2, [e3], [e4, e5]);
    RunOne(w2, e3);
    var w3 := Step(w2, e3);
    RunSplit(w3, [e4], [e5]);
    RunOne(w3, e4);
    RunOne(Step(w3, e4), e5);
    assert [e1, e2, e3, e4, e5] == [e1] + [e2, e3, e4, e5];
    assert [e2, e3, e4, e5] == [e2] + [e3, e4, e5];
    assert [e3, e4, e5] == [e3] + [e4, e5];
    assert [e4, e5] == [e4] + [e5];
  }

  lemma GuardedFive(w: World, e1: Event, e2: Event, e3: Event, e4: Event, e5: Event)
    requires Guarded(w, e1) && !e2.ClaimKey? && !e3.ClaimKey? && !e5.ClaimKey?
    requires Guarded(Step(Step(Step(w, e1), e2), e3), e4)
    ensures GuardedRun(w, [e1, e2, e3, e4, e5])
  {
    hide Step, Reserves, StillTrying;
    var w4 := Step(Step(Step(Step(w, e1), e2), e3), e4);
    assert [e5][1..] == [] && [e4, e5][1..] == [e5] && [e3, e4, e5][1..] == [e4, e5];
    assert [e2, e3, e4, e5][1..] == [e3, e4, e5] && [e1, e2, e3, e4, e5][1..] == [e2, e3, e4, e5];
    assert GuardedRun(Step(w4, e5), []);
    assert GuardedRun(w4, [e5]);
    assert GuardedRun(Step(Step(Step(w, e1), e2), e3), [e4, e5]);
    assert GuardedRun(Step(Step(w, e1), e2), [e3, e4, e5]);
  }

  /** A replay of the key would name a record that was not made for it since it was last forgotten. */
  ghost predicate Misled(w: World, key: Digest) {
    key in w.ledger && w.ledger[key].id != 0 && Of(w.made, key) != {w.ledger[key].id}
  }

  /** Following the guard is also necessary: a claim that breaks it lets a replay name a forgotten record. */
  lemma BrokenGuardMisleads(w: World, pid: nat, key: Digest, request: Digest, fault: Fault, q: nat)
    requires Inv(w) && pid !in w.processes && Reserves(w, key, request, fault)
    requires q in w.processes && TriesFor(w.processes[q], key, request)
    ensures Misled(Run(w, [ClaimKey(pid, key, request, fault), FinalizeKey(q, NoFault)]), key)
  {
    hide Claim, Run, Idempotency.Valid, Of, Forgotten, Alone, ClaimStep, KeyOk;
    var p := w.processes[q];
    assert ProcessOk(w, p);
    ClaimFacts(w.ledger, key, request, fault);
    ClaimStepFacts(w, pid, key, request, fault);
    GrownKeys(w, pid, key, request, fault, key);
    RunTwo(w, ClaimKey(pid, key, request, fault), FinalizeKey(q, NoFault));
  }

  lemma ClaimStepFacts(w: World, pid: nat, key: Digest, request: Digest, fault: Fault)
    requires pid !in w.processes
    ensures var w' := ClaimStep(w, pid, key, request, fault);
      w'.ledger == Claim(w.ledger, key, request, fault).ledger && forall q :: q in w.processes ==> q in w'.processes && w'.processes[q] == w.processes[q]
  {
    hide Claim;
  }

  /**
   * The guard is exact: from any state a guarded run reaches, a claim breaks it if and only if some
   * later successful finalization makes a replay of that key name a record that was not made for it.
   */
  lemma GuardIsExact(w: World, pid: nat, key: Digest, request: Digest, fault: Fault)
    requires Inv(w) && pid !in w.processes
    ensures var e := ClaimKey(pid, key, request, fault);
      !Guarded(w, e) <==> exists q :: Misled(Run(w, [e, FinalizeKey(q, NoFault)]), key)
  {
    hide Inv, Run, Step, Reserves, Misled, TriesFor;
    var e := ClaimKey(pid, key, request, fault);
    if !Guarded(w, e) {
      var q :| q in w.processes && TriesFor(w.processes[q], key, request);
      BrokenGuardMisleads(w, pid, key, request, fault, q);
    } else {
      forall q ensures !Misled(Run(w, [e, FinalizeKey(q, NoFault)]), key) {
        StepKeeps(w, e);
        StepKeeps(Step(w, e), FinalizeKey(q, NoFault));
        RunTwo(w, e, FinalizeKey(q, NoFault));
        NotMisled(Run(w, [e, FinalizeKey(q, NoFault)]), key);
      }
    }
  }

  lemma NotMisled(w: World, key: Digest)
    requires Inv(w)
    ensures !Misled(w, key)
  {
    hide Of;
    assert KeyOk(w, key);
  }

  /** A stored finalization that is given up or repeated at once is the same as one that was reported. */
  lemma StoredFinalizationIsHarmless(w: World, pid: nat)
    requires Inv(w) && pid in w.processes && w.processes[pid].Enqueued? && Owns(w, w.processes[pid])
    ensures var stored := FinalizeKey(pid, WriteFault(true));
      && Run(w, [stored, GiveUp(pid)]) == Step(w, FinalizeKey(pid, NoFault))
      && Run(w, [stored, FinalizeKey(pid, NoFault)]) == Step(w, FinalizeKey(pid, NoFault))
  {
    hide Run, Of, KeyOk, Alone, Idempotency.Valid;
    var stored := FinalizeKey(pid, WriteFault(true));
    assert ProcessOk(w, w.processes[pid]);
    RunTwo(w, stored, GiveUp(pid));
    RunTwo(w, stored, FinalizeKey(pid, NoFault));
    var p := w.processes[pid];
    assert w.ledger[p.key := w.ledger[p.key].(id := p.id)][p.key := w.ledger[p.key].(id := p.id)] == w.ledger[p.key := w.ledger[p.key].(id := p.id)];
  }

  lemma QueueAccepted(w: World, pid: nat, key: Digest, request: Digest)
    requires pid in w.processes && w.processes[pid] == Holding(key, request)
    ensures var w' := Step(w, QueueMessage(pid, Accepted));
      && w'.ledger == w.ledger && w'.processes == w.processes[pid := Enqueued(key, request, w.nextId)]
      && w'.nextId == w.nextId + 1 && forall k :: k != key ==> (k in w'.made <==> k in w.made)
  {
  }

  /** A finalization that reaches the flash, reported or not. */
  lemma FinalizeStored(w: World, pid: nat, key: Digest, request: Digest, id: nat, fault: Fault)
    requires pid in w.processes && w.processes[pid] == Enqueued(key, request, id) && id != 0
    requires Idempotency.Valid(w.ledger) && key in w.ledger && w.ledger[key].request == request
    requires fault in {NoFault, WriteFault(true)}
    ensures var w' := Step(w, FinalizeKey(pid, fault));
      && Idempotency.Valid(w'.ledger) && w'.ledger.Keys == w.ledger.Keys && |w'.ledger| == |w.ledger|
      && Finalized(w'.ledger) == Finalized(w.ledger) + {key} && w'.ledger[key] == w.ledger[key].(id := id)
      && w'.processes == (if fault == NoFault then w.processes - {pid} else w.processes)
      && w'.made == w.made && w'.nextId == w.nextId
  {
    hide Idempotency.Valid;
    FinalizeKeeps(w.ledger, key, request, id, fault);
    assert w.ledger[key := w.ledger[key].(id := id)].Keys == w.ledger.Keys;
  }

  /** Every slot but one reserved, none finalized, nothing going on. */
  ghost predicate Crowded(w: World, a: Digest, b: Digest) {
    && Idempotency.Valid(w.ledger) && |w.ledger| == MAX_KEYS - 1 && Finalized(w.ledger) == {} && w.processes == map[]
    && a != b && a !in w.ledger && b !in w.ledger && w.nextId >= 1
  }

  /** A request for key a is queued; its finalization is stored but reported as failed. */
  lemma PhantomFinalization(w: World, a: Digest, b: Digest, request: Digest)
    requires Crowded(w, a, b)
    ensures var w' := Step(Step(Step(w, ClaimKey(1, a, request, NoFault)), QueueMessage(1, Accepted)), FinalizeKey(1, WriteFault(true)));
      && Idempotency.Valid(w'.ledger) && |w'.ledger| == MAX_KEYS && Finalized(w'.ledger) == {a} && b !in w'.ledger
      && w'.processes == map[1 := Enqueued(a, request, w.nextId)] && w'.nextId == w.nextId + 1
  {
    hide Step, Idempotency.Valid, Finalized, Reserved;
    ClaimFree(w, 1, a, request);
    var w1 := Step(w, ClaimKey(1, a, request, NoFault));
    QueueAccepted(w1, 1, a, request);
    FinalizeStored(Step(w1, QueueMessage(1, Accepted)), 1, a, request, w.nextId, WriteFault(true));
  }

  /** A request for key b pushes a out and is finalized. */
  lemma PushedOut(w: World, a: Digest, b: Digest, request: Digest, id: nat)
    requires Idempotency.Valid(w.ledger) && |w.ledger| == MAX_KEYS && Finalized(w.ledger) == {a} && b !in w.ledger && a != b
    requires w.processes == map[1 := Enqueued(a, request, id)] && w.nextId >= 1
    ensures var w' := Step(Step(Step(w, ClaimKey(2, b, request, NoFault)), QueueMessage(2, Accepted)), FinalizeKey(2, NoFault));
      && Idempotency.Valid(w'.ledger) && |w'.ledger| == MAX_KEYS && Finalized(w'.ledger) == {b} && a !in w'.ledger
      && w'.processes == w.processes && a !in w'.made
  {
    hide Step, Idempotency.Valid, Finalized;
    ClaimFull(w, 2, b, request, a);
    var w1 := Step(w, ClaimKey(2, b, request, NoFault));
    QueueAccepted(w1, 2, b, request);
    FinalizeStored(Step(w1, QueueMessage(2, Accepted)), 2, b, request, w.nextId, NoFault);
  }

  /** A new request for a is reserved, and the first request's retry finalizes that reservation. */
  lemma StaleRetry(w: World, a: Digest, b: Digest, request: Digest, id: nat)
    requires Idempotency.Valid(w.ledger) && |w.ledger| == MAX_KEYS && Finalized(w.ledger) == {b} && a !in w.ledger
    requires w.processes == map[1 := Enqueued(a, request, id)] && a !in w.made && id != 0
    ensures var w' := Step(Step(w, ClaimKey(3, a, request, NoFault)), FinalizeKey(1, NoFault));
      Claim(w'.ledger, a, request, NoFault).answer == Replayed(id) && Of(w'.made, a) == {}
  {
    hide Step, Idempotency.Valid, Finalized, Reserved;
    ClaimFull(w, 3, a, request, b);
    FinalizeStored(Step(w, ClaimKey(3, a, request, NoFault)), 1, a, request, id, NoFault);
  }

  function StaleRun(a: Digest, b: Digest, request: Digest): seq<Event> {
    [ClaimKey(1, a, request, NoFault), QueueMessage(1, Accepted), FinalizeKey(1, WriteFault(true))]
    + [ClaimKey(2, b, request, NoFault), QueueMessage(2, Accepted), FinalizeKey(2, NoFault)]
    + [ClaimKey(3, a, request, NoFault), FinalizeKey(1, NoFault)]
  }

  /**
   * A finalization that is stored but reported as failed is retried; if the key was forgotten and
   * claimed again in between, a replay names a record of the forgotten request.
   */
  lemma PhantomFinalizationMisleads(w: World, a: Digest, b: Digest, request: Digest)
    requires Crowded(w, a, b)
    ensures var w' := Run(w, StaleRun(a, b, request));
      Claim(w'.ledger, a, request, NoFault).answer == Replayed(w.nextId) && w.nextId !in Of(w'.made, a)
  {
    hide Step, Run, Claim, Idempotency.Valid;
    var x1, x2, x3 := ClaimKey(1, a, request, NoFault), QueueMessage(1, Accepted), FinalizeKey(1, WriteFault(true));
    var y1, y2, y3 := ClaimKey(2, b, request, NoFault), QueueMessage(2, Accepted), FinalizeKey(2, NoFault);
    var z1, z2 := ClaimKey(3, a, request, NoFault), FinalizeKey(1, NoFault);
    RunSplit(w, [x1, x2, x3] + [y1, y2, y3], [z1, z2]);
    RunSplit(w, [x1, x2, x3], [y1, y2, y3]);
    RunThree(w, x1, x2, x3);
    var wx := Run(w, [x1, x2, x3]);
    PhantomFinalization(w, a, b, request);
    RunThree(wx, y1, y2, y3);
    var wy := Run(wx, [y1, y2, y3]);
    PushedOut(wx, a, b, request, w.nextId);
    RunTwo(wy, z1, z2);
    StaleRetry(wy, a, b, request, w.nextId);
  }

  lemma RunTwo(w: World, e1: Event, e2: Event)
    ensures Run(w, [e1, e2]) == Step(Step(w, e1), e2)
  {
    hide Step;
    RunSplit(w, [e1], [e2]);
    RunOne(w, e1);
    RunOne(Step(w, e1), e2);
    assert [e1, e2] == [e1] + [e2];
  }

  lemma RunThree(w: World, e1: Event, e2: Event, e3: Event)
    ensures Run(w, [e1, e2, e3]) == Step(Step(Step(w, e1), e2), e3)
  {
    hide Step;
    RunSplit(w, [e1], [e2, e3]);
    RunOne(w, e1);
    RunTwo(Step(w, e1), e2, e3);
    assert [e1, e2, e3] == [e1] + [e2, e3];
  }

  /** Requests for n keys that are all cut short after their claim. */
  ghost function Fill(n: nat): seq<Event>
    requires n < MAX_KEYS
  {
    if n == 0 then [] else Fill(n - 1) + [ClaimKey(n, [n], [], NoFault)]
  }

  lemma {:induction false} Filled(n: nat)
    requires n < MAX_KEYS
    ensures var w := Run(NEW, Fill(n));
      && Idempotency.Valid(w.ledger) && |w.ledger| == n && Finalized(w.ledger) == {} && w.nextId >= 1
      && (forall k :: k in w.ledger ==> |k| == 1 && 1 <= k[0] <= n) && (forall pid :: pid in w.processes ==> pid <= n)
  {
    hide Step, Idempotency.Valid, Finalized;
    if n == 0 {
      NothingYet();
    } else {
      Filled(n - 1);
      var w := Run(NEW, Fill(n - 1));
      var e := ClaimKey(n, [n], [], NoFault);
      RunSplit(NEW, Fill(n - 1), [e]);
      RunOne(w, e);
      ClaimFree(w, n, [n], []);
    }
  }

  lemma NothingYet()
    ensures Idempotency.Valid(NEW.ledger) && Finalized(NEW.ledger) == {}
  {
  }

  /** From a new ledger: 31 requests cut short, a power loss, and then the stale retry. */
  lemma StaleRetryIsReachable(request: Digest)
    ensures var a, b: Digest := [100], [101];
      var w := Run(NEW, Fill(MAX_KEYS - 1) + [PowerLoss]);
      var w' := Run(w, StaleRun(a, b, request));
      exists id :: id != 0 && Claim(w'.ledger, a, request, NoFault).answer == Replayed(id) && id !in Of(w'.made, a)
  {
    hide Run, Fill, Claim, Idempotency.Valid, StaleRun, Finalized;
    var a, b: Digest := [100], [101];
    Filled(MAX_KEYS - 1);
    var w0 := Run(NEW, Fill(MAX_KEYS - 1));
    RunSplit(NEW, Fill(MAX_KEYS - 1), [PowerLoss]);
    RunOne(w0, PowerLoss);
    var w := Run(NEW, Fill(MAX_KEYS - 1) + [PowerLoss]);
    assert Crowded(w, a, b);
    PhantomFinalizationMisleads(w, a, b, request);
  }
}
