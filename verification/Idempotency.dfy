/**
 * The idempotency ledger as a value (api_idempotency.c): at most 32 keys, each reserved
 * (id 0) or finalized with a message id, in the order in which they were claimed.
 */
module Idempotency {
  import opened Bytes
  import opened Journal

  const MAX_KEYS := 32

  /** SHA-256 values; distinct keys and distinct requests have distinct digests. */
  type Digest = seq<byte>

  /** id 0 is a reservation that is not finalized. */
  datatype Entry = Entry(sequence: nat, request: Digest, id: nat)

  type Ledger = map<Digest, Entry>

  datatype Answer = Miss | Replayed(id: nat) | Conflict(id: nat)

  datatype Claimed = Claimed(ledger: Ledger, err: Err, answer: Answer)

  ghost predicate Valid(l: Ledger) {
    && |l| <= MAX_KEYS
    && forall a, b :: a in l && b in l && a != b ==> l[a].sequence != l[b].sequence
  }

  function Finalized(l: Ledger): set<Digest> {
    set k | k in l && l[k].id != 0
  }

  ghost predicate OldestIn(l: Ledger, ks: set<Digest>, k: Digest)
    requires ks <= l.Keys
  {
    k in ks && forall j :: j in ks ==> l[k].sequence <= l[j].sequence
  }

  ghost predicate IsOldest(l: Ledger, k: Digest) {
    OldestIn(l, Finalized(l), k)
  }

  /** The finalized key with the smallest sequence number. */
  ghost function Oldest(l: Ledger): (k: Digest)
    requires Finalized(l) != {}
    ensures IsOldest(l, k)
  {
    OldestExists(l, Finalized(l));
    var k :| OldestIn(l, Finalized(l), k);
    k
  }

  lemma {:induction false} OldestExists(l: Ledger, ks: set<Digest>)
    requires ks != {} && ks <= l.Keys
    ensures exists k :: OldestIn(l, ks, k)
    decreases |ks|
  {
    var x :| x in ks;
    var rest := ks - {x};
    if rest == {} {
      assert ks == {x};
      assert OldestIn(l, ks, x);
    } else {
      OldestExists(l, rest);
      var y :| OldestIn(l, rest, y);
      var k := if l[x].sequence <= l[y].sequence then x else y;
      forall j | j in ks ensures l[k].sequence <= l[j].sequence {
        if j != x { assert j in rest; }
      }
      assert OldestIn(l, ks, k);
    }
  }

  ghost predicate AboveAll(l: Ledger, n: nat) {
    forall k :: k in l ==> l[k].sequence <= n
  }

  ghost predicate IsTop(l: Ledger, n: nat) {
    AboveAll(l, n) && (n == 0 || exists k :: k in l && l[k].sequence == n)
  }

  /** The highest sequence number in use, 0 for an empty ledger. */
  ghost function Top(l: Ledger): (n: nat)
    ensures IsTop(l, n)
  {
    TopExists(l);
    var n: nat :| IsTop(l, n);
    n
  }

  lemma {:induction false} TopExists(l: Ledger)
    ensures exists n: nat :: IsTop(l, n)
    decreases |l|
  {
    if l == map[] {
      assert IsTop(l, 0);
    } else {
      var x :| x in l;
      var rest := l - {x};
      assert rest.Keys == l.Keys - {x};
      TopExists(rest);
      var n: nat :| IsTop(rest, n);
      var top := if l[x].sequence <= n then n else l[x].sequence;
      forall k | k in l ensures l[k].sequence <= top {
        if k != x { assert k in rest; }
      }
      if top == n && n != 0 {
        var k :| k in rest && rest[k].sequence == n;
        assert k in l && l[k].sequence == top;
      }
      assert IsTop(l, top);
    }
  }

  lemma TopIsUnique(l: Ledger, n: nat)
    requires IsTop(l, n)
    ensures Top(l) == n
  {
  }

  /** The ledger with a new reservation, in a free slot or in place of the oldest finalized key. */
  ghost function Reserved(l: Ledger, key: Digest, request: Digest): Ledger
    requires |l| < MAX_KEYS || Finalized(l) != {}
  {
    var kept := if |l| < MAX_KEYS then l else l - {Oldest(l)};
    kept[key := Entry(Top(l) + 1, request, 0)]
  }

  /** gateway_idempotency_claim. */
  ghost function Claim(l: Ledger, key: Digest, request: Digest, fault: Fault): Claimed {
    if fault.ReadFault? then Claimed(l, NvsError, Miss)
    else if key in l then Claimed(l, Ok, if l[key].request == request then Replayed(l[key].id) else Conflict(l[key].id))
    else if |l| >= MAX_KEYS && Finalized(l) == {} then Claimed(l, NoMem, Miss)
    else
      match fault
      case WriteFault(stored) => Claimed(if stored then Reserved(l, key, request) else l, NvsError, Miss)
      case _ => Claimed(Reserved(l, key, request), Ok, Miss)
  }

  /** What a claim is answered, seen from the ledger before it. */
  lemma ClaimAnswers(l: Ledger, key: Digest, request: Digest, fault: Fault)
    ensures var c := Claim(l, key, request, fault);
      && (fault.ReadFault? ==> c.err != Ok && c.ledger == l)
      && (!fault.ReadFault? && key in l && l[key].request != request ==> c == Claimed(l, Ok, Conflict(l[key].id)))
      && (!fault.ReadFault? && key in l && l[key].request == request ==> c == Claimed(l, Ok, Replayed(l[key].id)))
      && (key !in l ==> c.answer == Miss)
      && (key !in l && c.err == Ok ==> key in c.ledger && c.ledger[key].request == request && c.ledger[key].id == 0)
      && (key !in l && fault == NoFault && (|l| < 32 || exists k :: k in l && l[k].id != 0) ==> c.err == Ok)
  {
    hide Oldest, Top;
    if k :| k in l && l[k].id != 0 {
      assert k in Finalized(l);
    }
  }

  datatype Changed = Changed(ledger: Ledger, err: Err)

  /** gateway_idempotency_finalize; InvalidArg stands for its invalid-state answer. */
  function Finalize(l: Ledger, key: Digest, request: Digest, id: nat, fault: Fault): Changed {
    if id == 0 then Changed(l, InvalidArg)
    else if fault.ReadFault? then Changed(l, NvsError)
    else if key !in l then Changed(l, NotFound)
    else if l[key].request != request then Changed(l, InvalidArg)
    else
      match fault
      case WriteFault(stored) => Changed(if stored then l[key := l[key].(id := id)] else l, NvsError)
      case _ => Changed(l[key := l[key].(id := id)], Ok)
  }

  /** gateway_idempotency_release_pending. */
  function Release(l: Ledger, key: Digest, request: Digest, fault: Fault): Changed {
    if fault.ReadFault? then Changed(l, NvsError)
    else if key !in l then Changed(l, NotFound)
    else if l[key].request != request || l[key].id != 0 then Changed(l, InvalidArg)
    else
      match fault
      case EraseFault(erased) => Changed(if erased then l - {key} else l, NvsError)
      case _ => Changed(l - {key}, Ok)
  }

  /** Finalizing changes the id of one entry of the same request, and nothing else. */
  lemma FinalizeExactly(l: Ledger, key: Digest, request: Digest, id: nat, fault: Fault)
    ensures var c := Finalize(l, key, request, id, fault);
      && (c.err == Ok <==> id != 0 && key in l && l[key].request == request && !fault.ReadFault? && !fault.WriteFault?)
      && (c.err == Ok ==> key in c.ledger && c.ledger[key].id == id)
      && c.ledger.Keys == l.Keys
      && (forall k :: k in l ==> c.ledger[k].request == l[k].request && c.ledger[k].sequence == l[k].sequence)
      && (forall k :: k in l && c.ledger[k] != l[k] ==> k == key && l[k].request == request && c.ledger[k].id == id)
  {
  }

  /** Releasing removes an open reservation of the same request, and nothing else. */
  lemma ReleaseExactly(l: Ledger, key: Digest, request: Digest, fault: Fault)
    ensures var c := Release(l, key, request, fault);
      && (c.err == Ok <==> key in l && l[key].request == request && l[key].id == 0 && !fault.ReadFault? && !fault.EraseFault?)
      && (c.err == Ok ==> key !in c.ledger)
      && (forall k :: k in c.ledger ==> k in l && c.ledger[k] == l[k])
      && (forall k :: k in l && k !in c.ledger ==> k == key && l[k].request == request && l[k].id == 0)
  {
  }

  // ----- what claims keep -----

  lemma ReservedKeeps(l: Ledger, key: Digest, request: Digest)
    requires Valid(l) && key !in l && (|l| < MAX_KEYS || Finalized(l) != {})
    ensures Valid(Reserved(l, key, request))
  {
    var r := Reserved(l, key, request);
    if |l| < MAX_KEYS {
      assert r.Keys == l.Keys + {key};
    } else {
      assert Oldest(l) in l;
      assert r.Keys == l.Keys - {Oldest(l)} + {key};
    }
  }

  lemma ClaimKeeps(l: Ledger, key: Digest, request: Digest, fault: Fault)
    requires Valid(l)
    ensures Valid(Claim(l, key, request, fault).ledger)
  {
    if key !in l && (|l| < MAX_KEYS || Finalized(l) != {}) { ReservedKeeps(l, key, request); }
  }

  lemma FinalizeKeeps(l: Ledger, key: Digest, request: Digest, id: nat, fault: Fault)
    requires Valid(l)
    ensures Valid(Finalize(l, key, request, id, fault).ledger)
  {
    if key in l { assert l[key := l[key].(id := id)].Keys == l.Keys; }
  }

  lemma ReleaseKeeps(l: Ledger, key: Digest, request: Digest, fault: Fault)
    requires Valid(l)
    ensures Valid(Release(l, key, request, fault).ledger)
  {
    if key in l { assert (l - {key}).Keys == l.Keys - {key}; }
  }

  /** A claim forgets nothing but the oldest finalized key of a full ledger; reservations stay. */
  lemma ClaimForgets(l: Ledger, key: Digest, request: Digest, fault: Fault, k: Digest)
    requires Valid(l) && k in l
    ensures var l' := Claim(l, key, request, fault).ledger;
      && (k in l' ==> l'[k] == l[k])
      && (k !in l' ==> |l| == MAX_KEYS && k == Oldest(l) && l[k].id != 0 && key !in l)
  {
  }

  // ----- how long a finalized key is remembered -----

  function Earlier(l: Ledger, k: Digest): set<Digest>
    requires k in l
  {
    set j | j in l && l[j].sequence < l[k].sequence
  }

  function Later(l: Ledger, k: Digest): set<Digest>
    requires k in l
  {
    set j | j in l && l[j].sequence > l[k].sequence
  }

  /** When a key is forgotten, all other 31 are newer but for reservations that are still open. */
  lemma ForgottenAfterManyClaims(l: Ledger, key: Digest, request: Digest, fault: Fault, k: Digest)
    requires Valid(l) && k in l && k !in Claim(l, key, request, fault).ledger
    ensures forall j :: j in Earlier(l, k) ==> l[j].id == 0
    ensures |Later(l, k)| == 31 - |Earlier(l, k)|
  {
    hide Claim;
    ClaimForgets(l, key, request, fault, k);
    var a, b := Earlier(l, k), Later(l, k);
    assert l.Keys == a + b + {k};
    assert a !! b && k !in a && k !in b;
    assert |a + b| == |a| + |b|;
    assert |a + b + {k}| == |a + b| + 1;
    forall j | j in a ensures l[j].id == 0 {
      assert l[j].id != 0 ==> j in Finalized(l);
    }
  }
}
