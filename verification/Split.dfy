/**
 * Splitting a message into segments: split_gsm7 and the UCS-2 loops of sms_submit_encode
 * and sms_submit_preflight are one greedy rule over septets or UTF-16 units.
 */
module Split {
  import opened Bytes
  import opened UserData
  import Gsm7
  import Septets
  import Ucs2

  const MAX_SEGMENTS := 16

  /** What is to be carried: septets or UTF-16 units. */
  datatype Payload = Gsm(septets: seq<byte>) | Ucs(units: seq<Ucs2.unit>)

  function Length(p: Payload): nat {
    match p case Gsm(s) => |s| case Ucs(u) => |u|
  }

  function EncodingOf(p: Payload): Encoding {
    match p case Gsm(_) => Gsm7Bit case Ucs(_) => Ucs2Bit
  }

  function Slice(p: Payload, from: nat, to: nat): (r: Payload)
    requires from <= to <= Length(p)
    ensures Length(r) == to - from && r.Gsm? == p.Gsm?
  {
    match p case Gsm(s) => Gsm(s[from..to]) case Ucs(u) => Ucs(u[from..to])
  }

  /** Position i may not be the last of a segment: an escape or a high surrogate. */
  predicate LeadAt(p: Payload, i: nat)
    requires i < Length(p)
  {
    match p case Gsm(s) => s[i] == Gsm7.ESC case Ucs(u) => Ucs2.IsHigh(u[i])
  }

  function TextOf(p: Payload): Option<seq<byte>> {
    match p case Gsm(s) => Gsm7.DecodeText(s) case Ucs(u) => Ucs2.DecodeText(u)
  }

  /** The preferred representation of a text, within the sixteen-segment buffers. */
  function PayloadOf(text: seq<byte>): Option<Payload> {
    match Gsm7.EncodeText(text)
    case Some(s) => if |s| > MAX_SEGMENTS * 160 then None else Some(Gsm(s))
    case None =>
      match Ucs2.EncodeText(text)
      case None => None
      case Some(u) => if |u| > MAX_SEGMENTS * 70 then None else Some(Ucs(u))
  }

  lemma PayloadDecodes(text: seq<byte>)
    requires PayloadOf(text).Some?
    ensures TextOf(PayloadOf(text).value) == Some(text)
    ensures PayloadOf(text).value.Gsm? ==> forall x :: x in PayloadOf(text).value.septets ==> x < 128
  {
    if Gsm7.EncodeText(text).Some? { Gsm7.TextRoundTrip(text); } else { Ucs2.TextRoundTrip(text); }
  }

  /** What fits one segment without a header, and with a header of that many octets. */
  function Single(p: Payload): nat {
    if p.Gsm? then 160 else 70
  }

  function Capacity(p: Payload, headerLength: nat): nat
    requires headerLength <= 7
  {
    if p.Gsm? then 160 - Septets.HeaderSeptets(headerLength) else (140 - headerLength) / 2
  }

  // ----- splitting -----

  function NextCut(p: Payload, cap: nat, pos: nat): (r: nat)
    requires pos < Length(p)
    ensures pos <= r <= Length(p)
  {
    if Length(p) - pos <= cap then Length(p)
    else if cap > 0 && LeadAt(p, pos + cap - 1) then pos + cap - 1
    else pos + cap
  }

  /** The ends of the segments from pos on; none if a segment would be empty. */
  function Cuts(p: Payload, cap: nat, pos: nat): Option<seq<nat>>
    requires pos <= Length(p)
    decreases Length(p) - pos, cap
  {
    if pos == Length(p) then Some([])
    else if NextCut(p, cap, pos) == pos then None
    else Prepend([NextCut(p, cap, pos)], Cuts(p, cap, NextCut(p, cap, pos)))
  }

  /** Segment boundaries, the leading zero included. */
  function Offsets(p: Payload, cap: nat): Option<seq<nat>> {
    match Cuts(p, cap, 0)
    case None => None
    case Some(c) => if |c| <= MAX_SEGMENTS then Some([0] + c) else None
  }

  lemma CutsStep(p: Payload, cap: nat, done: seq<nat>, pos: nat)
    requires pos < Length(p) && NextCut(p, cap, pos) != pos
    ensures Prepend(done, Cuts(p, cap, pos))
         == Prepend(done + [NextCut(p, cap, pos)], Cuts(p, cap, NextCut(p, cap, pos)))
  {
    var c := NextCut(p, cap, pos);
    var tail := Cuts(p, cap, c);
    if tail.Some? { assert done + ([c] + tail.value) == done + [c] + tail.value; }
  }

  /** split_gsm7. */
  method SplitGsm7(septets: seq<byte>, perSegment: nat) returns (r: Option<seq<nat>>)
    ensures r == Offsets(Gsm(septets), perSegment)
  {
    ghost var p := Gsm(septets);
    var pos: nat, offsets: seq<nat> := 0, [0];
    PrependNothing(Cuts(p, perSegment, 0));
    assert offsets[1..] == [];
    while pos < |septets|
      invariant pos <= |septets|
      invariant 1 <= |offsets| <= MAX_SEGMENTS + 1 && offsets[0] == 0
      invariant Cuts(p, perSegment, 0) == Prepend(offsets[1..], Cuts(p, perSegment, pos))
      decreases |septets| - pos
    {
      if |offsets| - 1 >= MAX_SEGMENTS {
        return None;
      }
      var take := |septets| - pos;
      if take > perSegment {
        take := perSegment;
        if take > 0 && septets[pos + take - 1] == Gsm7.ESC {
          take := take - 1;
        }
      }
      assert NextCut(p, perSegment, pos) == pos + take;
      if take == 0 {
        return None;
      }
      CutsStep(p, perSegment, offsets[1..], pos);
      pos := pos + take;
      assert (offsets + [pos])[1..] == offsets[1..] + [pos];
      offsets := offsets + [pos];
    }
    assert offsets[1..] + [] == offsets[1..] && [0] + offsets[1..] == offsets;
    return Some(offsets);
  }

  /** The UCS-2 splitting loop of sms_submit_encode. */
  method SplitUcs2(units: seq<Ucs2.unit>, unitsPerSegment: nat) returns (r: Option<seq<nat>>)
    ensures r == Offsets(Ucs(units), unitsPerSegment)
  {
    ghost var p := Ucs(units);
    var cursor: nat, offsets: seq<nat> := 0, [0];
    PrependNothing(Cuts(p, unitsPerSegment, 0));
    assert offsets[1..] == [];
    while cursor < |units|
      invariant cursor <= |units|
      invariant 1 <= |offsets| <= MAX_SEGMENTS + 1 && offsets[0] == 0
      invariant Cuts(p, unitsPerSegment, 0) == Prepend(offsets[1..], Cuts(p, unitsPerSegment, cursor))
      decreases |units| - cursor
    {
      if |offsets| - 1 >= MAX_SEGMENTS {
        return None;
      }
      var count := |units| - cursor;
      if count > unitsPerSegment {
        count := unitsPerSegment;
      }
      if count > 0 && cursor + count < |units| && Ucs2.IsHigh(units[cursor + count - 1]) {
        count := count - 1;
      }
      assert NextCut(p, unitsPerSegment, cursor) == cursor + count;
      if count == 0 {
        return None;
      }
      CutsStep(p, unitsPerSegment, offsets[1..], cursor);
      cursor := cursor + count;
      assert (offsets + [cursor])[1..] == offsets[1..] + [cursor];
      offsets := offsets + [cursor];
    }
    assert offsets[1..] + [] == offsets[1..] && [0] + offsets[1..] == offsets;
    return Some(offsets);
  }

  /** The UCS-2 counting loop of sms_submit_preflight, which keeps no offsets. */
  method CountUcs2(units: seq<Ucs2.unit>, unitsPerSegment: nat) returns (r: Option<nat>)
    ensures var cuts := Cuts(Ucs(units), unitsPerSegment, 0);
      r == if cuts.Some? && |cuts.value| <= MAX_SEGMENTS then Some(|cuts.value|) else None
  {
    ghost var p := Ucs(units);
    var cursor: nat, parts: nat := 0, 0;
    while cursor < |units|
      invariant cursor <= |units| && parts <= MAX_SEGMENTS
      invariant Cuts(p, unitsPerSegment, 0).Some? <==> Cuts(p, unitsPerSegment, cursor).Some?
      invariant Cuts(p, unitsPerSegment, 0).Some? ==>
                  |Cuts(p, unitsPerSegment, 0).value| == parts + |Cuts(p, unitsPerSegment, cursor).value|
      decreases |units| - cursor
    {
      var count := |units| - cursor;
      if count > unitsPerSegment {
        count := unitsPerSegment;
      }
      if count > 0 && cursor + count < |units| && Ucs2.IsHigh(units[cursor + count - 1]) {
        count := count - 1;
      }
      assert NextCut(p, unitsPerSegment, cursor) == cursor + count;
      if parts >= MAX_SEGMENTS || count == 0 {
        return None;
      }
      cursor := cursor + count;
      parts := parts + 1;
    }
    return Some(parts);
  }

  // ----- what a cut does to the text -----

  function From(p: Payload, pos: nat): (r: Payload)
    requires pos <= Length(p)
    ensures Length(r) == Length(p) - pos && r.Gsm? == p.Gsm?
  {
    Slice(p, pos, Length(p))
  }

  lemma LeadsApart(p: Payload, i: nat)
    requires TextOf(p).Some? && i + 1 < Length(p) && LeadAt(p, i)
    ensures !LeadAt(p, i + 1)
  {
    match p case Gsm(s) => Gsm7.EscapesApart(s, i); case Ucs(u) => Ucs2.HighsApart(u, i);
  }

  lemma CutDecodes(p: Payload, k: nat)
    requires TextOf(p).Some? && 0 < k <= Length(p) && !LeadAt(p, k - 1)
    ensures TextOf(Slice(p, 0, k)).Some? && TextOf(From(p, k)).Some?
    ensures TextOf(p).value == TextOf(Slice(p, 0, k)).value + TextOf(From(p, k)).value
  {
    hide Gsm7.DecodeText, Ucs2.DecodeText;
    match p {
      case Gsm(s) => Gsm7.CutDecodes(s, k); assert s[0..k] == s[..k] && s[k..|s|] == s[k..];
      case Ucs(u) => Ucs2.CutDecodes(u, k); assert u[0..k] == u[..k] && u[k..|u|] == u[k..];
    }
  }

  lemma SliceOfFrom(p: Payload, pos: nat, a: nat, b: nat)
    requires pos <= Length(p) && a <= b <= Length(p) - pos
    ensures Slice(From(p, pos), a, b) == Slice(p, pos + a, pos + b)
  {
    match p {
      case Gsm(s) => SliceOfSlice(s, pos, a, b);
      case Ucs(u) => SliceOfSlice(u, pos, a, b);
    }
  }

  lemma LeadOfFrom(p: Payload, pos: nat, i: nat)
    requires pos <= Length(p) && i < Length(p) - pos
    ensures LeadAt(From(p, pos), i) == LeadAt(p, pos + i)
  {
  }

  lemma WholeSlice(p: Payload)
    ensures Slice(p, 0, Length(p)) == p
  {
    match p case Gsm(s) => assert s[0..|s|] == s; case Ucs(u) => assert u[0..|u|] == u;
  }

  /** The greedy cut never separates an escape or a high surrogate from what belongs to it. */
  lemma CutIsClean(p: Payload, cap: nat, pos: nat)
    requires pos < Length(p) && cap >= 2 && TextOf(From(p, pos)).Some?
    ensures var c := NextCut(p, cap, pos); pos < c <= pos + cap
    ensures var c := NextCut(p, cap, pos); c < Length(p) ==> !LeadAt(p, c - 1)
  {
    hide TextOf, LeadAt;
    if Length(p) - pos > cap && LeadAt(p, pos + cap - 1) && LeadAt(p, pos + cap - 2) {
      LeadOfFrom(p, pos, cap - 2);
      LeadOfFrom(p, pos, cap - 1);
      LeadsApart(From(p, pos), cap - 2);
    }
  }

  /** One greedy step splits the remaining text in two. */
  lemma CutText(p: Payload, cap: nat, pos: nat)
    requires pos < Length(p) && cap >= 2 && TextOf(From(p, pos)).Some?
    ensures var c := NextCut(p, cap, pos);
            TextOf(Slice(p, pos, c)).Some? && TextOf(From(p, c)).Some?
            && TextOf(From(p, pos)).value == TextOf(Slice(p, pos, c)).value + TextOf(From(p, c)).value
  {
    var c := NextCut(p, cap, pos);
    CutIsClean(p, cap, pos);
    if c == Length(p) {
      EmptyTail(p);
    } else {
      TextAt(p, pos, c);
    }
  }

  lemma EmptyTail(p: Payload)
    ensures TextOf(From(p, Length(p))) == Some([])
  {
    match p case Gsm(s) => assert s[|s|..|s|] == []; case Ucs(u) => assert u[|u|..|u|] == [];
  }

  lemma TextAt(p: Payload, pos: nat, c: nat)
    requires pos < c < Length(p) && TextOf(From(p, pos)).Some? && !LeadAt(p, c - 1)
    ensures TextOf(Slice(p, pos, c)).Some? && TextOf(From(p, c)).Some?
    ensures TextOf(From(p, pos)).value == TextOf(Slice(p, pos, c)).value + TextOf(From(p, c)).value
  {
    hide TextOf, LeadAt;
    var q, k := From(p, pos), c - pos;
    LeadOfFrom(p, pos, k - 1);
    CutDecodes(q, k);
    SliceOfFrom(p, pos, 0, k);
    SliceOfFrom(p, pos, k, Length(q));
  }

  /** Boundaries start at 0, ascend, stay within the capacity and end at the end. */
  ghost predicate Bounded(p: Payload, cap: nat, o: seq<nat>) {
    && |o| >= 1 && o[0] == 0 && o[|o| - 1] == Length(p)
    && forall i :: 0 < i < |o| ==> o[i - 1] < o[i] <= Length(p) && o[i] - o[i - 1] <= cap
  }

  lemma {:induction false} CutsBounded(p: Payload, cap: nat, pos: nat)
    requires pos <= Length(p) && Cuts(p, cap, pos).Some?
    ensures var o := [pos] + Cuts(p, cap, pos).value;
            o[|o| - 1] == Length(p)
            && forall i :: 0 < i < |o| ==> o[i - 1] < o[i] <= Length(p) && o[i] - o[i - 1] <= cap
    decreases Length(p) - pos
  {
    hide LeadAt;
    if pos < Length(p) {
      var c := NextCut(p, cap, pos);
      CutsBounded(p, cap, c);
      var o, q := [pos] + Cuts(p, cap, pos).value, [c] + Cuts(p, cap, c).value;
      assert o == [pos] + q;
      assert forall i :: 0 < i < |o| ==> o[i] == q[i - 1];
    }
  }

  /** Either representation needs at most four octets of UTF-8 per element. */
  lemma TextBound(p: Payload)
    requires TextOf(p).Some?
    ensures |TextOf(p).value| <= 4 * Length(p)
  {
    match p case Gsm(s) => Gsm7.TextBound(s); case Ucs(u) => Ucs2.TextBound(u);
  }

  // ----- monotonicity in the capacity -----

  /** The position the greedy rule has reached after k segments, the end included. */
  function Reached(p: Payload, cap: nat, k: nat): (r: nat)
    ensures r <= Length(p)
  {
    if k == 0 then 0
    else
      var pos := Reached(p, cap, k - 1);
      if pos == Length(p) then pos else NextCut(p, cap, pos)
  }

  /** A larger capacity, or a later start, never falls behind. */
  lemma NextCutMonotone(p: Payload, cap: nat, larger: nat, pos: nat, later: nat)
    requires pos < Length(p) && later < Length(p) && cap <= larger && pos <= later
    ensures NextCut(p, cap, pos) <= NextCut(p, larger, later)
  {
  }

  lemma {:induction false} ReachedMonotone(p: Payload, cap: nat, larger: nat, k: nat)
    requires cap <= larger
    ensures Reached(p, cap, k) <= Reached(p, larger, k)
  {
    if k > 0 {
      ReachedMonotone(p, cap, larger, k - 1);
      var a, b := Reached(p, cap, k - 1), Reached(p, larger, k - 1);
      if a < Length(p) && b < Length(p) {
        NextCutMonotone(p, cap, larger, a, b);
      }
    }
  }

  lemma {:induction false} ReachedByCuts(p: Payload, cap: nat, k: nat)
    requires cap >= 2
    ensures Reached(p, cap, k) < Length(p) ==> Cuts(p, cap, 0).None? || |Cuts(p, cap, 0).value| > k
    ensures Cuts(p, cap, 0).Some? && k <= |Cuts(p, cap, 0).value| ==> Reached(p, cap, k) == ([0] + Cuts(p, cap, 0).value)[k]
    ensures Cuts(p, cap, 0).Some? && k == |Cuts(p, cap, 0).value| ==> Reached(p, cap, k) == Length(p)
  {
    CutsExist(p, cap, 0);
    CutsBounded(p, cap, 0);
    if k > 0 {
      ReachedByCuts(p, cap, k - 1);
      var o := [0] + Cuts(p, cap, 0).value;
      if k < |o| {
        CutsFollow(p, cap, 0, k);
      }
    }
  }

  /** With room for an element and its lead, no segment is ever empty. */
  lemma {:induction false} CutsExist(p: Payload, cap: nat, pos: nat)
    requires cap >= 2 && pos <= Length(p)
    ensures Cuts(p, cap, pos).Some?
    decreases Length(p) - pos
  {
    if pos < Length(p) { CutsExist(p, cap, NextCut(p, cap, pos)); }
  }

  lemma {:induction false} CutsFollow(p: Payload, cap: nat, pos: nat, k: nat)
    requires cap >= 2 && pos <= Length(p) && Cuts(p, cap, pos).Some? && 0 < k <= |Cuts(p, cap, pos).value|
    ensures var o := [pos] + Cuts(p, cap, pos).value;
            o[k - 1] < Length(p) && o[k] == NextCut(p, cap, o[k - 1])
    decreases k
  {
    var c := NextCut(p, cap, pos);
    var o, q := [pos] + Cuts(p, cap, pos).value, [c] + Cuts(p, cap, c).value;
    assert o == [pos] + q;
    if k > 1 {
      CutsFollow(p, cap, c, k - 1);
    }
  }

  /** A larger capacity never needs more segments. */
  lemma CapacityMonotone(p: Payload, cap: nat, larger: nat)
    requires 2 <= cap <= larger
    ensures Cuts(p, cap, 0).Some? && Cuts(p, larger, 0).Some?
    ensures |Cuts(p, larger, 0).value| <= |Cuts(p, cap, 0).value|
  {
    CutsExist(p, cap, 0);
    CutsExist(p, larger, 0);
    var n := |Cuts(p, cap, 0).value|;
    ReachedByCuts(p, cap, n);
    ReachedMonotone(p, cap, larger, n);
    var m := |Cuts(p, larger, 0).value|;
    if n < m {
      ReachedByCuts(p, larger, n);
      CutsBounded(p, larger, 0);
      CutsFollow(p, larger, 0, n + 1);
      assert false;
    }
  }
}
