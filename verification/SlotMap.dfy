/**
 * Slots of non-volatile memory that hold values with distinct keys, as a finite map.
 */
module SlotMap {
  import opened Bytes

  ghost predicate Distinct<K(!new), V(!new)>(s: seq<Option<V>>, key: V -> K) {
    forall i, j :: 0 <= i < j < |s| && s[i].Some? && s[j].Some? ==> key(s[i].value) != key(s[j].value)
  }

  /** The finite map the slots stand for. */
  ghost function Contents<K(!new), V(!new)>(s: seq<Option<V>>, key: V -> K): map<K, V>
    requires Distinct(s, key)
  {
    map i | 0 <= i < |s| && s[i].Some? :: key(s[i].value) := s[i].value
  }

  lemma ContentsAt<K(!new), V(!new)>(s: seq<Option<V>>, key: V -> K, i: nat)
    requires Distinct(s, key) && i < |s| && s[i].Some?
    ensures key(s[i].value) in Contents(s, key) && Contents(s, key)[key(s[i].value)] == s[i].value
  {
    assert key(s[i].value) in Contents(s, key);
  }

  lemma ContentsFrom<K(!new), V(!new)>(s: seq<Option<V>>, key: V -> K, k: K) returns (i: nat)
    requires Distinct(s, key) && k in Contents(s, key)
    ensures i < |s| && s[i] == Some(Contents(s, key)[k]) && key(s[i].value) == k
  {
    i :| 0 <= i < |s| && s[i].Some? && key(s[i].value) == k;
  }

  lemma NotStored<K(!new), V(!new)>(s: seq<Option<V>>, key: V -> K, k: K)
    requires Distinct(s, key)
    requires forall i :: 0 <= i < |s| && s[i].Some? ==> key(s[i].value) != k
    ensures k !in Contents(s, key)
  {
  }

  /** The slots without what is in slot i. */
  ghost function Rest<K(!new), V(!new)>(s: seq<Option<V>>, key: V -> K, i: nat): map<K, V>
    requires Distinct(s, key) && i < |s|
  {
    if s[i].Some? then Contents(s, key) - {key(s[i].value)} else Contents(s, key)
  }

  /** Writing a value over a free slot, over its own key, or over another key that goes. */
  lemma ContentsWrite<K(!new), V(!new)>(s: seq<Option<V>>, key: V -> K, i: nat, v: V)
    requires Distinct(s, key) && i < |s|
    requires key(v) in Contents(s, key) ==> s[i].Some? && key(s[i].value) == key(v)
    ensures Distinct(s[i := Some(v)], key)
    ensures Contents(s[i := Some(v)], key) == Rest(s, key, i)[key(v) := v]
  {
    var t := s[i := Some(v)];
    forall j | 0 <= j < |s| && j != i && s[j].Some? ensures key(s[j].value) != key(v) {
      ContentsAt(s, key, j);
    }
    assert Distinct(t, key);
    var after := Rest(s, key, i)[key(v) := v];
    forall k | k in Contents(t, key) ensures k in after {
      var j := ContentsFrom(t, key, k);
      if j != i { ContentsAt(s, key, j); }
    }
    forall k | k in after ensures k in Contents(t, key) && Contents(t, key)[k] == after[k] {
      if k == key(v) {
        ContentsAt(t, key, i);
      } else {
        var j := ContentsFrom(s, key, k);
        ContentsAt(t, key, j);
      }
    }
  }

  lemma ContentsErase<K(!new), V(!new)>(s: seq<Option<V>>, key: V -> K, i: nat)
    requires Distinct(s, key) && i < |s|
    ensures Distinct(s[i := None], key) && Contents(s[i := None], key) == Rest(s, key, i)
  {
    var t := s[i := None];
    assert Distinct(t, key);
    forall k | k in Contents(t, key) ensures k in Rest(s, key, i) {
      var j := ContentsFrom(t, key, k);
      ContentsAt(s, key, j);
    }
    forall k | k in Rest(s, key, i) ensures k in Contents(t, key) && Contents(t, key)[k] == Contents(s, key)[k] {
      var j := ContentsFrom(s, key, k);
      ContentsAt(t, key, j);
    }
  }

  /** As many values as occupied slots. */
  lemma {:induction false} ContentsSize<K(!new), V(!new)>(s: seq<Option<V>>, key: V -> K)
    requires Distinct(s, key)
    ensures |Contents(s, key)| <= |s|
    ensures (forall i :: 0 <= i < |s| ==> s[i].Some?) <==> |Contents(s, key)| == |s|
    decreases |s|
  {
    hide Contents, Distinct;
    if |s| == 0 {
      NoContents(s, key);
    } else {
      var n := |s| - 1;
      var t := s[..n];
      ContentsPrefix(s, key);
      ContentsSize(t, key);
      assert forall i :: 0 <= i < n ==> t[i] == s[i];
      if s[n].None? {
        assert |Contents(s, key).Keys| == |Contents(t, key).Keys|;
      } else {
        assert |Contents(s, key).Keys| == |Contents(t, key).Keys| + 1;
        if forall i :: 0 <= i < n ==> t[i].Some? { assert forall i :: 0 <= i < |s| ==> s[i].Some?; }
        if forall i :: 0 <= i < |s| ==> s[i].Some? { assert forall i :: 0 <= i < n ==> s[i].Some?; }
      }
    }
  }

  lemma NoContents<K(!new), V(!new)>(s: seq<Option<V>>, key: V -> K)
    requires |s| == 0
    ensures Distinct(s, key) && Contents(s, key) == map[]
  {
  }

  lemma ContentsPrefix<K(!new), V(!new)>(s: seq<Option<V>>, key: V -> K)
    requires Distinct(s, key) && |s| > 0
    ensures var n := |s| - 1;
            && Distinct(s[..n], key)
            && Contents(s, key).Keys == Contents(s[..n], key).Keys + (if s[n].Some? then {key(s[n].value)} else {})
            && (s[n].Some? ==> key(s[n].value) !in Contents(s[..n], key))
  {
    var n := |s| - 1;
    var t := s[..n];
    forall k | k in Contents(s, key) ensures k in Contents(t, key) || (s[n].Some? && k == key(s[n].value)) {
      var j := ContentsFrom(s, key, k);
      if j < n { ContentsAt(t, key, j); }
    }
    forall k | k in Contents(t, key) ensures k in Contents(s, key) {
      var j := ContentsFrom(t, key, k);
      ContentsAt(s, key, j);
    }
    if s[n].Some? { ContentsAt(s, key, n); }
  }
}
