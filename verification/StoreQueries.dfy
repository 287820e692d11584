/**
 * Selecting and sorting records by id: the selection loop and the insertion sort behind
 * sms_store_list, on plain sequences and in place.
 */
module StoreQueries {
  import opened Journal

  // ----- insertion sort -----

  ghost predicate SortedById(s: seq<Message>) {
    forall i, j :: 0 <= i < j < |s| ==> s[i].id <= s[j].id
  }

  /** Insert behind everything that is not larger. */
  function Insert(s: seq<Message>, x: Message): (r: seq<Message>)
    ensures |r| == |s| + 1
  {
    if s == [] || s[|s| - 1].id <= x.id then s + [x]
    else Insert(s[..|s| - 1], x) + [s[|s| - 1]]
  }

  function Sorted(s: seq<Message>): (r: seq<Message>)
    ensures |r| == |s|
  {
    if s == [] then [] else Insert(Sorted(s[..|s| - 1]), s[|s| - 1])
  }

  lemma {:induction false} InsertAt(s: seq<Message>, x: Message, j: nat)
    requires j <= |s|
    requires j > 0 ==> s[j - 1].id <= x.id
    requires forall k :: j <= k < |s| ==> s[k].id > x.id
    ensures Insert(s, x) == s[..j] + [x] + s[j..]
    decreases |s|
  {
    if j < |s| {
      var t, last := s[..|s| - 1], s[|s| - 1];
      InsertAt(t, x, j);
      assert t[..j] == s[..j] && t[j..] + [last] == s[j..];
      assert Insert(s, x) == Insert(t, x) + [last];
      assert s[..j] + [x] + t[j..] + [last] == s[..j] + [x] + (t[j..] + [last]);
    } else {
      assert s[..j] == s && s[j..] == [];
    }
  }

  lemma {:induction false} InsertSorts(s: seq<Message>, x: Message)
    requires SortedById(s)
    ensures SortedById(Insert(s, x)) && multiset(Insert(s, x)) == multiset(s) + multiset{x}
  {
    hide SortedById, Insert;
    InsertUnfolds(s, x);
    if s == [] || s[|s| - 1].id <= x.id {
      Largest(s, x);
    } else {
      var t, last := s[..|s| - 1], s[|s| - 1];
      assert s == t + [last];
      SortedPrefix(s);
      InsertSorts(t, x);
      InsertedBelow(t, x, last.id);
      Largest(Insert(t, x), last);
      assert multiset(s) == multiset(t) + multiset{last};
    }
  }

  lemma InsertUnfolds(s: seq<Message>, x: Message)
    ensures Insert(s, x) == if s == [] || s[|s| - 1].id <= x.id then s + [x] else Insert(s[..|s| - 1], x) + [s[|s| - 1]]
  {
  }

  lemma SortedPrefix(s: seq<Message>)
    requires SortedById(s) && s != []
    ensures SortedById(s[..|s| - 1]) && (|s| > 1 ==> s[|s| - 2].id <= s[|s| - 1].id)
  {
  }

  /** A last element that none exceeds keeps a sequence sorted. */
  lemma Largest(s: seq<Message>, x: Message)
    requires SortedById(s) && (s != [] ==> s[|s| - 1].id <= x.id)
    ensures SortedById(s + [x]) && multiset(s + [x]) == multiset(s) + multiset{x}
  {
  }

  lemma {:induction false} InsertedBelow(s: seq<Message>, x: Message, bound: nat)
    requires x.id <= bound && (s != [] ==> s[|s| - 1].id <= bound)
    ensures Insert(s, x)[|s|].id <= bound
  {
  }

  lemma {:induction false} SortedIsSorted(s: seq<Message>)
    ensures SortedById(Sorted(s)) && multiset(Sorted(s)) == multiset(s)
  {
    hide SortedById, Insert;
    if s == [] {
      NothingIsSorted();
    } else {
      var t, last := s[..|s| - 1], s[|s| - 1];
      SortedIsSorted(t);
      InsertSorts(Sorted(t), last);
      assert s == t + [last];
      assert multiset(s) == multiset(t) + multiset{last};
    }
  }

  lemma NothingIsSorted()
    ensures SortedById([])
  {
  }

  /** One round of the sort: element i moves down to its place among the sorted ones before it. */
  method Sink(a: array<Message>, i: nat)
    requires i < a.Length
    modifies a
    ensures a[..i + 1] == Insert(old(a[..i]), old(a[i])) && a[i + 1..] == old(a[i + 1..])
  {
    hide Insert, Around;
    ghost var t, rest := a[..i], a[i + 1..];
    var x := a[i];
    var j := i;
    HoleStarts(a[..], i);
    while j > 0 && a[j - 1].id > x.id
      invariant 0 <= j <= i && a[..] == Around(t, j, a[j], rest)
      invariant forall k :: j <= k < i ==> t[k].id > x.id
    {
      ghost var before := a[..];
      HoleMoves(before, t, j, rest);
      a[j] := a[j - 1];
      assert a[..] == before[j := before[j - 1]];
      j := j - 1;
    }
    ghost var before := a[..];
    HoleFills(before, t, j, rest, x);
    InsertAt(t, x, j);
    a[j] := x;
    assert a[..] == before[j := x];
    assert a[..i + 1] == a[..][..i + 1] && a[i + 1..] == a[..][i + 1..];
  }

  /** The sorted elements with a hole at j, and what follows. */
  ghost function Around(t: seq<Message>, j: nat, hole: Message, rest: seq<Message>): seq<Message>
    requires j <= |t|
  {
    t[..j] + [hole] + t[j..] + rest
  }

  lemma HoleStarts(w: seq<Message>, i: nat)
    requires i < |w|
    ensures w == Around(w[..i], i, w[i], w[i + 1..])
  {
  }

  lemma HoleMoves(w: seq<Message>, t: seq<Message>, j: nat, rest: seq<Message>)
    requires 0 < j <= |t| && j < |w| && w == Around(t, j, w[j], rest)
    ensures w[j - 1] == t[j - 1] && w[j := w[j - 1]] == Around(t, j - 1, t[j - 1], rest)
  {
  }

  lemma HoleFills(w: seq<Message>, t: seq<Message>, j: nat, rest: seq<Message>, x: Message)
    requires j <= |t| && j < |w| && w == Around(t, j, w[j], rest)
    ensures j > 0 ==> w[j - 1] == t[j - 1]
    ensures var w' := w[j := x]; w'[..|t| + 1] == t[..j] + [x] + t[j..] && w'[|t| + 1..] == rest
  {
  }

  /** insertion_sort on the first `count` elements. */
  method InsertionSort(a: array<Message>, count: nat)
    requires count <= a.Length
    modifies a
    ensures a[..count] == Sorted(old(a[..count])) && a[count..] == old(a[count..])
  {
    hide Insert;
    ghost var was := a[..];
    if count == 0 {
      return;
    }
    SortedOne(was);
    for i := 1 to count
      invariant a[..i] == Sorted(was[..i]) && a[i..] == was[i..]
    {
      ghost var rest := a[i..];
      assert a[i] == rest[0] == was[i] && a[i + 1..] == rest[1..] == was[i + 1..];
      Sink(a, i);
      SortedNext(was, i);
    }
  }

  lemma SortedNext(s: seq<Message>, i: nat)
    requires i < |s|
    ensures Sorted(s[..i + 1]) == Insert(Sorted(s[..i]), s[i])
  {
    hide Insert;
    assert s[..i + 1][..i] == s[..i];
  }

  lemma SortedOne(s: seq<Message>)
    ensures |s| > 0 ==> s[..1] == Sorted(s[..1])
  {
    if |s| > 0 {
      assert s[..1][..0] == [] && Insert([], s[0]) == [s[0]];
    }
  }

  // ----- selecting the lowest ids -----

  /** r holds the lowest ids above `after` among the scanned records, at most max of them. */
  ghost predicate Selected(scanned: set<Message>, after: nat, max: nat, r: seq<Message>) {
    && |r| <= max
    && (forall i, j :: 0 <= i < j < |r| ==> r[i].id != r[j].id)
    && (forall i :: 0 <= i < |r| ==> r[i] in scanned && r[i].id > after)
    && (forall m :: m in scanned && m.id > after ==> m in r || (|r| == max && AllBelow(r, m.id)))
  }

  ghost predicate AllBelow(r: seq<Message>, id: nat) {
    forall i :: 0 <= i < |r| ==> r[i].id < id
  }

  lemma SelectAppend(scanned: set<Message>, after: nat, max: nat, r: seq<Message>, m: Message)
    requires Selected(scanned, after, max, r) && |r| < max && m.id > after
    requires forall x :: x in scanned ==> x.id != m.id
    ensures Selected(scanned + {m}, after, max, r + [m])
  {
    var t := r + [m];
    assert forall x :: x in r ==> x in t;
    assert t[|r|] == m;
  }

  lemma SelectSkip(scanned: set<Message>, after: nat, max: nat, r: seq<Message>, m: Message)
    requires Selected(scanned, after, max, r)
    requires m.id <= after || (|r| == max && AllBelow(r, m.id))
    ensures Selected(scanned + {m}, after, max, r)
  {
  }

  lemma SelectReplace(scanned: set<Message>, after: nat, max: nat, r: seq<Message>, m: Message, highest: nat)
    requires Selected(scanned, after, max, r) && |r| == max && highest < |r| && m.id > after
    requires forall x :: x in scanned ==> x.id != m.id
    requires forall i :: 0 <= i < |r| ==> r[i].id <= r[highest].id
    requires m.id < r[highest].id
    ensures Selected(scanned + {m}, after, max, r[highest := m])
  {
    var t, gone := r[highest := m], r[highest];
    forall i | 0 <= i < |t| && i != highest ensures t[i].id < gone.id { assert t[i] == r[i]; }
    assert AllBelow(t, gone.id);
    assert t[highest] == m;
    forall x | x in scanned + {m} && x.id > after ensures x in t || AllBelow(t, x.id) {
      if x != m {
        if x in r {
          var i :| 0 <= i < |r| && r[i] == x;
          if i != highest { assert t[i] == x; }
        } else {
          assert gone.id < x.id;
        }
      }
    }
  }

  /** r holds, in ascending order, the lowest ids above `after`, at most max of them. */
  ghost predicate Picked(s: State, after: nat, max: nat, r: seq<Message>) {
    && Ascending(r, after) && |r| <= max
    && (forall i :: 0 <= i < |r| ==> r[i].id in s.records && s.records[r[i].id] == r[i])
    && (forall id :: id in Above(s, after) ==> s.records[id] in r || (|r| == max && AllBelow(r, id)))
  }

  /** Such a selection is the page. */
  lemma {:induction false} PickedIsPage(s: State, after: nat, max: nat, r: seq<Message>)
    requires Valid(s) && Picked(s, after, max, r)
    ensures r == Page(s, after, max)
    decreases max
  {
    hide Storable, Min, Picked, Above;
    if r == [] {
      PickedNone(s, after, max);
    } else {
      PickedFirst(s, after, max, r);
      PickedRest(s, after, max, r);
      PickedIsPage(s, r[0].id, max - 1, r[1..]);
      assert r == [r[0]] + r[1..];
    }
  }

  lemma PickedNone(s: State, after: nat, max: nat)
    requires Valid(s) && Picked(s, after, max, [])
    ensures max == 0 || Above(s, after) == {}
  {
    hide Storable, Min;
    if Above(s, after) != {} {
      assert Min(Above(s, after)) in Above(s, after);
    }
  }

  lemma PickedFirst(s: State, after: nat, max: nat, r: seq<Message>)
    requires Valid(s) && Picked(s, after, max, r) && r != []
    ensures max > 0 && Above(s, after) != {} && r[0].id == Min(Above(s, after)) && s.records[r[0].id] == r[0]
  {
    hide Storable, Min;
    assert r[0].id in Above(s, after);
    var least := Min(Above(s, after));
    assert s.records[least] in r || AllBelow(r, least);
  }

  lemma PickedRest(s: State, after: nat, max: nat, r: seq<Message>)
    requires Valid(s) && Picked(s, after, max, r) && r != []
    ensures max > 0 && Picked(s, r[0].id, max - 1, r[1..])
  {
    hide Storable, Min;
    var t := r[1..];
    assert forall i :: 0 <= i < |t| ==> t[i] == r[i + 1];
    forall id | id in Above(s, r[0].id) ensures s.records[id] in t || (|t| == max - 1 && AllBelow(t, id)) {
      assert id in Above(s, after);
      if s.records[id] in r {
        var i :| 0 <= i < |r| && r[i] == s.records[id];
        assert i > 0 && t[i - 1] == r[i];
      }
    }
  }
}
