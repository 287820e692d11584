/**
 * Which texts the encoder accepts, in which encoding and in how many segments, said of their code
 * points: without the splitter, and without the functions that choose the representation.
 */
module Acceptance {
  import opened Bytes
  import opened UserData
  import opened Split
  import Address
  import Utf8
  import Gsm7
  import Ucs2
  import Submit

  // ----- texts as code points -----

  /** Scalar values, none of them NUL, which would end the text. */
  predicate Writable(cps: seq<nat>) {
    forall i :: 0 <= i < |cps| ==> Utf8.IsScalar(cps[i]) && cps[i] > 0
  }

  function TextFrom(cps: seq<nat>): seq<byte>
    requires Writable(cps)
  {
    if cps == [] then [] else Utf8.Encode(cps[0]).value + TextFrom(cps[1..])
  }

  predicate IsBasic(cp: nat) {
    exists i :: 0 <= i < 128 && i != Gsm7.ESC && Gsm7.Basic(i) == cp
  }

  predicate IsExtended(cp: nat) {
    exists j :: 0 <= j < |Gsm7.EXTENSION| && Gsm7.EXTENSION[j].cp == cp
  }

  /** The default alphabet, with its extension table, covers the text. */
  predicate Covered(cps: seq<nat>) {
    forall i :: 0 <= i < |cps| ==> IsBasic(cps[i]) || IsExtended(cps[i])
  }

  /** What one code point takes: septets in the default alphabet, units elsewhere. */
  function Weight(cp: nat, covered: bool): nat {
    if covered then (if IsBasic(cp) then 1 else 2) else if cp <= 0xFFFF then 1 else 2
  }

  function Weights(cps: seq<nat>): (ws: seq<nat>)
    ensures |ws| == |cps|
  {
    seq(|cps|, i requires 0 <= i < |cps| => Weight(cps[i], Covered(cps)))
  }

  // ----- splitting by hand -----

  /** The first k elements together. */
  function Upto(ws: seq<nat>, k: nat): nat
    requires k <= |ws|
  {
    if k == 0 then 0 else Upto(ws, k - 1) + ws[k - 1]
  }

  /** A split behind these elements into pieces that are not empty and not too heavy. */
  ghost predicate SplitAt(ws: seq<nat>, cap: nat, o: seq<nat>) {
    && |o| >= 1 && o[0] == 0 && o[|o| - 1] == |ws|
    && forall i :: 0 < i < |o| ==> o[i - 1] < o[i] <= |ws| && Upto(ws, o[i]) - Upto(ws, o[i - 1]) <= cap
  }

  /** The elements can be split into at most n such pieces. */
  ghost predicate Splits(ws: seq<nat>, cap: nat, n: nat) {
    exists o :: SplitAt(ws, cap, o) && |o| <= n + 1
  }

  // ----- a payload and the elements it is made of -----

  /** Elements of one or two units; the first of two is a lead, and nothing else is. */
  ghost predicate Spells(p: Payload, ws: seq<nat>) {
    && (forall k :: 0 <= k < |ws| ==> 1 <= ws[k] <= 2)
    && Length(p) == Upto(ws, |ws|)
    && (forall k :: 0 <= k < |ws| ==> SpelledAt(p, ws, k))
  }

  ghost predicate SpelledAt(p: Payload, ws: seq<nat>, k: nat)
    requires k < |ws|
  {
    var i := Upto(ws, k);
    i + ws[k] <= Length(p) && (ws[k] >= 1 ==> (LeadAt(p, i) <==> ws[k] == 2)) && (ws[k] == 2 ==> !LeadAt(p, i + 1))
  }

  lemma {:induction false} UptoGrows(ws: seq<nat>, a: nat, b: nat)
    requires a <= b <= |ws| && forall k :: 0 <= k < |ws| ==> ws[k] >= 1
    ensures Upto(ws, a) + (b - a) <= Upto(ws, b)
    decreases b - a
  {
    if a < b { UptoGrows(ws, a, b - 1); }
  }

  /** The element that unit i belongs to. */
  lemma {:induction false} ElementOf(ws: seq<nat>, i: nat, n: nat) returns (k: nat)
    requires n <= |ws| && i < Upto(ws, n)
    ensures k < n && Upto(ws, k) <= i < Upto(ws, k + 1)
    decreases n
  {
    if i >= Upto(ws, n - 1) { k := n - 1; } else { k := ElementOf(ws, i, n - 1); }
  }

  /** A position that is not behind a lead is the end of an element. */
  lemma CleanIsEnd(p: Payload, ws: seq<nat>, pos: nat) returns (k: nat)
    requires Spells(p, ws) && pos <= Length(p) && (pos > 0 ==> !LeadAt(p, pos - 1))
    ensures k <= |ws| && Upto(ws, k) == pos
  {
    hide LeadAt;
    if pos == 0 {
      k := 0;
    } else {
      var j := ElementOf(ws, pos - 1, |ws|);
      assert SpelledAt(p, ws, j);
      k := j + 1;
    }
  }

  /** Two leads never stand side by side. */
  lemma LeadsStandAlone(p: Payload, ws: seq<nat>, i: nat)
    requires Spells(p, ws) && i + 1 < Length(p) && LeadAt(p, i)
    ensures !LeadAt(p, i + 1)
  {
    hide LeadAt;
    var k := ElementOf(ws, i, |ws|);
    assert SpelledAt(p, ws, k);
  }

  /** A greedy cut is the end of an element. */
  lemma CutIsEnd(p: Payload, ws: seq<nat>, cap: nat, pos: nat) returns (k: nat)
    requires Spells(p, ws) && cap >= 2 && pos < Length(p)
    ensures k <= |ws| && Upto(ws, k) == NextCut(p, cap, pos)
  {
    hide LeadAt;
    var c := NextCut(p, cap, pos);
    if c == Length(p) {
      k := |ws|;
    } else {
      if LeadAt(p, pos + cap - 1) {
        if LeadAt(p, pos + cap - 2) { LeadsStandAlone(p, ws, pos + cap - 2); }
      }
      k := CleanIsEnd(p, ws, c);
    }
  }

  /** Greedy cuts are a split. */
  lemma {:induction false} CutsSplit(p: Payload, ws: seq<nat>, cap: nat, from: nat) returns (ends: seq<nat>)
    requires Spells(p, ws) && cap >= 2 && from <= |ws| && Upto(ws, from) <= Length(p) && Cuts(p, cap, Upto(ws, from)).Some?
    ensures |ends| == |Cuts(p, cap, Upto(ws, from)).value|
    ensures PiecesFit(ws, cap, [from] + ends)
    decreases |ws| - from
  {
    hide LeadAt, SpelledAt, PiecesFit;
    UptoGrows(ws, from, |ws|);
    var pos := Upto(ws, from);
    if from == |ws| {
      ends := [];
      assert [from] + [] == [from];
      LastPiece(ws, cap);
    } else {
      var c := NextCut(p, cap, pos);
      var k := CutIsEnd(p, ws, cap, pos);
      if k <= from { UptoGrows(ws, k, from); }
      var rest := CutsSplit(p, ws, cap, k);
      ends := [k] + rest;
      FirstPiece(ws, cap, from, [k] + rest);
    }
  }

  ghost predicate PiecesFit(ws: seq<nat>, cap: nat, o: seq<nat>) {
    && |o| >= 1 && o[|o| - 1] == |ws|
    && forall i :: 0 < i < |o| ==> o[i - 1] < o[i] <= |ws| && Upto(ws, o[i]) - Upto(ws, o[i - 1]) <= cap
  }

  lemma LastPiece(ws: seq<nat>, cap: nat)
    ensures PiecesFit(ws, cap, [|ws|])
  {
  }

  lemma FirstPiece(ws: seq<nat>, cap: nat, from: nat, q: seq<nat>)
    requires PiecesFit(ws, cap, q) && from < q[0] <= |ws| && Upto(ws, q[0]) - Upto(ws, from) <= cap
    ensures PiecesFit(ws, cap, [from] + q)
  {
    hide Upto;
    var o := [from] + q;
    forall i | 0 < i < |o| ensures o[i - 1] < o[i] <= |ws| && Upto(ws, o[i]) - Upto(ws, o[i - 1]) <= cap {
      assert o[i] == q[i - 1];
      if i > 1 { assert o[i - 1] == q[i - 2]; }
    }
  }

  /** No split gets further than the greedy rule. */
  lemma {:induction false} NoneGetsFurther(p: Payload, ws: seq<nat>, cap: nat, o: seq<nat>, i: nat)
    requires Spells(p, ws) && cap >= 2 && SplitAt(ws, cap, o) && i < |o|
    ensures Upto(ws, o[i]) <= Reached(p, cap, i)
    decreases i
  {
    hide LeadAt;
    if i > 0 {
      NoneGetsFurther(p, ws, cap, o, i - 1);
      UptoGrows(ws, o[i], |ws|);
      var pos, b := Reached(p, cap, i - 1), Upto(ws, o[i]);
      if pos < Length(p) && b > NextCut(p, cap, pos) {
        // Only a cut behind a lead lies beyond the greedy one.
        assert b == pos + cap && LeadAt(p, b - 1);
        EndIsClean(p, ws, o[i]);
      }
    }
  }

  lemma EndIsClean(p: Payload, ws: seq<nat>, k: nat)
    requires Spells(p, ws) && 0 < k <= |ws|
    ensures 0 < Upto(ws, k) <= Length(p) && !LeadAt(p, Upto(ws, k) - 1)
  {
    hide LeadAt;
    UptoGrows(ws, k, |ws|);
    assert SpelledAt(p, ws, k - 1);
  }

  /** The greedy rule needs at most n segments if and only if the elements can be split into n pieces at all. */
  lemma GreedyIsBest(p: Payload, ws: seq<nat>, cap: nat, n: nat)
    requires Spells(p, ws) && cap >= 2
    ensures Cuts(p, cap, 0).Some? && (|Cuts(p, cap, 0).value| <= n <==> Splits(ws, cap, n))
  {
    hide LeadAt, SpelledAt, Spells;
    CutsExist(p, cap, 0);
    var c := Cuts(p, cap, 0).value;
    if |c| <= n {
      var ends := CutsSplit(p, ws, cap, 0);
      assert SplitAt(ws, cap, [0] + ends);
    }
    if Splits(ws, cap, n) {
      var o :| SplitAt(ws, cap, o) && |o| <= n + 1;
      var m := |o| - 1;
      NoneGetsFurther(p, ws, cap, o, m);
      WholeLength(p, ws);
      if |c| > m { NotThroughYet(p, cap, m); }
    }
  }

  lemma NotThroughYet(p: Payload, cap: nat, m: nat)
    requires cap >= 2 && Cuts(p, cap, 0).Some? && m < |Cuts(p, cap, 0).value|
    ensures Reached(p, cap, m) < Length(p)
  {
    hide LeadAt;
    ReachedByCuts(p, cap, m);
    CutsBounded(p, cap, 0);
    var o := [0] + Cuts(p, cap, 0).value;
    assert o[m + 1 - 1] < o[m + 1];
  }

  /** As many elements as fit in any case: every piece but the last may have to leave one unit free. */
  lemma {:induction false} AlwaysSplits(ws: seq<nat>, cap: nat, n: nat)
    requires cap >= 2 && (forall k :: 0 <= k < |ws| ==> 1 <= ws[k] <= 2) && Upto(ws, |ws|) <= n * (cap - 1)
    ensures Splits(ws, cap, n)
    decreases n
  {
    hide SplitAt;
    var m := |ws|;
    if m == 0 {
      NoPieces(ws, cap);
      assert SplitAt(ws, cap, [0]);
    } else {
      UptoGrows(ws, 0, m);
      assert 0 * (cap - 1) == 0;
      var k := HeaviestEnd(ws, cap, m);
      var rest := ws[..k];
      UptoOfPrefix(ws, k, k);
      assert (n - 1) * (cap - 1) == n * (cap - 1) - (cap - 1);
      AlwaysSplits(rest, cap, n - 1);
      var o :| SplitAt(rest, cap, o) && |o| <= n;
      OnePieceMore(ws, cap, k, o);
      assert SplitAt(ws, cap, o + [m]);
    }
  }

  lemma NoPieces(ws: seq<nat>, cap: nat)
    requires ws == []
    ensures SplitAt(ws, cap, [0])
  {
  }

  lemma OnePieceMore(ws: seq<nat>, cap: nat, k: nat, o: seq<nat>)
    requires k < |ws| && Upto(ws, |ws|) - Upto(ws, k) <= cap && SplitAt(ws[..k], cap, o)
    ensures SplitAt(ws, cap, o + [|ws|])
  {
    var all := o + [|ws|];
    forall i | 0 < i < |all| ensures all[i - 1] < all[i] <= |ws| && Upto(ws, all[i]) - Upto(ws, all[i - 1]) <= cap {
      if i < |o| {
        UptoOfPrefix(ws, k, o[i]);
        UptoOfPrefix(ws, k, o[i - 1]);
      }
    }
  }

  /** A last piece that leaves at most one unit free, or all there is. */
  lemma {:induction false} HeaviestEnd(ws: seq<nat>, cap: nat, m: nat) returns (k: nat)
    requires cap >= 2 && 0 < m <= |ws| && forall i :: 0 <= i < |ws| ==> 1 <= ws[i] <= 2
    ensures k < m && Upto(ws, m) - Upto(ws, k) <= cap && (k == 0 || Upto(ws, m) - Upto(ws, k) >= cap - 1)
    decreases m
  {
    k := m - 1;
    while k > 0 && Upto(ws, m) - Upto(ws, k) < cap - 1
      invariant k < m && Upto(ws, m) - Upto(ws, k) <= cap
    {
      k := k - 1;
    }
  }

  lemma {:induction false} UptoOfPrefix(ws: seq<nat>, k: nat, i: nat)
    requires i <= k <= |ws|
    ensures Upto(ws[..k], i) == Upto(ws, i)
    decreases i
  {
    if i > 0 { UptoOfPrefix(ws, k, i - 1); }
  }

  lemma WholeLength(p: Payload, ws: seq<nat>)
    requires Spells(p, ws)
    ensures Length(p) == Upto(ws, |ws|)
  {
  }

  // ----- the two representations -----

  function SeptetsOf(cps: seq<nat>): seq<byte>
    requires Covered(cps)
  {
    if cps == [] then [] else FindCovered(cps[0]) + SeptetsOf(cps[1..])
  }

  function FindCovered(cp: nat): (r: seq<byte>)
    requires IsBasic(cp) || IsExtended(cp)
    ensures Gsm7.Find(cp) == Some(r) && |r| == Weight(cp, true) && (r[0] == Gsm7.ESC <==> |r| == 2) && r[|r| - 1] != Gsm7.ESC
  {
    FindExactly(cp);
    Gsm7.Find(cp).value
  }

  lemma {:induction false} BasicFound(cp: nat, i: nat, j: nat)
    requires i <= j < 128 && j != Gsm7.ESC && Gsm7.Basic(j) == cp
    ensures Gsm7.BasicIndex(cp, i).Some?
    decreases j - i
  {
    hide Gsm7.Basic;
    if i < j { BasicFound(cp, i + 1, j); }
  }

  lemma {:induction false} ExtensionFound(cp: nat, i: nat, j: nat)
    requires i <= j < |Gsm7.EXTENSION| && Gsm7.EXTENSION[j].cp == cp
    ensures Gsm7.ExtByCp(cp, i).Some?
    decreases j - i
  {
    if i < j { ExtensionFound(cp, i + 1, j); }
  }

  /** The table search finds exactly what the alphabet has, with one septet for the basic table and two for the extension. */
  lemma FindExactly(cp: nat)
    ensures Gsm7.Find(cp).Some? <==> IsBasic(cp) || IsExtended(cp)
    ensures Gsm7.Find(cp).Some? ==>
              var r := Gsm7.Find(cp).value;
              |r| == Weight(cp, true) && (r[0] == Gsm7.ESC <==> |r| == 2) && r[|r| - 1] != Gsm7.ESC
  {
    hide Gsm7.Basic, Gsm7.BasicIndex, Gsm7.ExtByCp;
    if i :| 0 <= i < 128 && i != Gsm7.ESC && Gsm7.Basic(i) == cp {
      BasicFound(cp, 0, i);
    }
    if j :| 0 <= j < |Gsm7.EXTENSION| && Gsm7.EXTENSION[j].cp == cp {
      ExtensionFound(cp, 0, j);
    }
    if Gsm7.Find(cp).Some? { Gsm7.FindIsRead(cp, []); }
  }

  lemma {:induction false} GsmOfText(cps: seq<nat>)
    requires Writable(cps)
    ensures Gsm7.EncodeText(TextFrom(cps)) == if Covered(cps) then Some(SeptetsOf(cps)) else None
    decreases |cps|
  {
    hide Utf8.Next, Utf8.Encode, Gsm7.Find, IsBasic, IsExtended;
    if cps != [] {
      var cp, rest := cps[0], cps[1..];
      var e := Utf8.Encode(cp).value;
      GsmOfText(rest);
      Utf8.NextOfEncode(cp, TextFrom(rest));
      assert (e + TextFrom(rest))[|e|..] == TextFrom(rest);
      FindExactly(cp);
      CoveredRest(cps);
    }
  }

  lemma CoveredRest(cps: seq<nat>)
    requires cps != []
    ensures Covered(cps) <==> (IsBasic(cps[0]) || IsExtended(cps[0])) && Covered(cps[1..])
  {
    hide IsBasic, IsExtended;
    if (IsBasic(cps[0]) || IsExtended(cps[0])) && Covered(cps[1..]) {
      forall i | 0 <= i < |cps| ensures IsBasic(cps[i]) || IsExtended(cps[i]) {
        if i > 0 { assert cps[i] == cps[1..][i - 1]; }
      }
    }
    if Covered(cps) {
      forall i | 0 <= i < |cps[1..]| ensures IsBasic(cps[1..][i]) || IsExtended(cps[1..][i]) {
        assert cps[1..][i] == cps[i + 1];
      }
    }
  }

  function UnitsOf(cps: seq<nat>): seq<Ucs2.unit>
    requires Writable(cps)
  {
    if cps == [] then [] else Ucs2.Units(cps[0]) + UnitsOf(cps[1..])
  }

  lemma {:induction false} UcsOfText(cps: seq<nat>)
    requires Writable(cps)
    ensures Ucs2.EncodeText(TextFrom(cps)) == Some(UnitsOf(cps))
    decreases |cps|
  {
    hide Utf8.Next, Utf8.Encode, Ucs2.Units;
    if cps != [] {
      var e, rest := Utf8.Encode(cps[0]).value, cps[1..];
      UcsOfText(rest);
      Utf8.NextOfEncode(cps[0], TextFrom(rest));
      assert (e + TextFrom(rest))[|e|..] == TextFrom(rest);
    }
  }

  // ----- they spell the code points -----

  /** Another element in front. */
  lemma SpellsMore(p: Payload, q: Payload, w: nat, ws: seq<nat>)
    requires Spells(q, ws) && 1 <= w <= 2 && Length(p) == w + Length(q)
    requires (LeadAt(p, 0) <==> w == 2) && (w == 2 ==> !LeadAt(p, 1))
    requires forall i: nat :: i < Length(q) ==> (LeadAt(p, w + i) <==> LeadAt(q, i))
    ensures Spells(p, [w] + ws)
  {
    hide LeadAt;
    var all := [w] + ws;
    UptoMore(w, ws, |ws|);
    forall k | 0 <= k < |all| ensures SpelledAt(p, all, k) {
      if k > 0 {
        UptoMore(w, ws, k - 1);
        assert SpelledAt(q, ws, k - 1) && all[k] == ws[k - 1];
      }
    }
  }

  lemma {:induction false} UptoMore(w: nat, ws: seq<nat>, k: nat)
    requires k <= |ws|
    ensures Upto([w] + ws, k + 1) == w + Upto(ws, k)
    decreases k
  {
    var all := [w] + ws;
    if k > 0 {
      UptoMore(w, ws, k - 1);
      assert all[k] == ws[k - 1];
    } else {
      assert Upto(all, 1) == Upto(all, 0) + all[0];
    }
  }

  function SeptetWeights(cps: seq<nat>): seq<nat> {
    if cps == [] then [] else [Weight(cps[0], true)] + SeptetWeights(cps[1..])
  }

  function UnitWeights(cps: seq<nat>): seq<nat> {
    if cps == [] then [] else [Weight(cps[0], false)] + UnitWeights(cps[1..])
  }

  lemma {:induction false} GsmSpells(cps: seq<nat>)
    requires Covered(cps)
    ensures Spells(Gsm(SeptetsOf(cps)), SeptetWeights(cps))
    decreases |cps|
  {
    hide IsBasic, IsExtended, Spells;
    if cps == [] {
      NothingSpells(Gsm([]));
    } else {
      CoveredRest(cps);
      var e, rest := FindCovered(cps[0]), SeptetsOf(cps[1..]);
      GsmSpells(cps[1..]);
      forall i: nat | i < |rest| ensures LeadAt(Gsm(e + rest), |e| + i) <==> LeadAt(Gsm(rest), i) {
        assert (e + rest)[|e| + i] == rest[i];
      }
      assert (e + rest)[0] == e[0] && (|e| == 2 ==> (e + rest)[1] == e[1]);
      SpellsMore(Gsm(e + rest), Gsm(rest), |e|, SeptetWeights(cps[1..]));
    }
  }

  lemma NothingSpells(p: Payload)
    requires Length(p) == 0
    ensures Spells(p, [])
  {
  }

  lemma {:induction false} UcsSpells(cps: seq<nat>)
    requires Writable(cps)
    ensures Spells(Ucs(UnitsOf(cps)), UnitWeights(cps))
    decreases |cps|
  {
    hide Spells;
    if cps == [] {
      NothingSpells(Ucs([]));
    } else {
      var e, rest := Ucs2.Units(cps[0]), UnitsOf(cps[1..]);
      UcsSpells(cps[1..]);
      forall i: nat | i < |rest| ensures LeadAt(Ucs(e + rest), |e| + i) <==> LeadAt(Ucs(rest), i) {
        assert (e + rest)[|e| + i] == rest[i];
      }
      assert (e + rest)[0] == e[0] && (|e| == 2 ==> (e + rest)[1] == e[1]);
      SpellsMore(Ucs(e + rest), Ucs(rest), |e|, UnitWeights(cps[1..]));
    }
  }

  lemma {:induction false} WeightsAre(cps: seq<nat>, covered: bool)
    ensures var ws := if covered then SeptetWeights(cps) else UnitWeights(cps);
      |ws| == |cps| && forall i :: 0 <= i < |cps| ==> ws[i] == Weight(cps[i], covered)
    decreases |cps|
  {
    hide Weight;
    if cps != [] {
      WeightsAre(cps[1..], covered);
    }
  }

  /** The representation the encoder works on. */
  lemma Represented(cps: seq<nat>) returns (p: Payload)
    requires Writable(cps)
    ensures Spells(p, Weights(cps)) && p.Gsm? == Covered(cps)
    ensures p == if Covered(cps) then Gsm(SeptetsOf(cps)) else Ucs(UnitsOf(cps))
  {
    hide IsBasic, IsExtended, Spells, Weight;
    if Covered(cps) {
      p := Gsm(SeptetsOf(cps));
      GsmSpells(cps);
      WeightsAre(cps, true);
      assert SeptetWeights(cps) == Weights(cps);
    } else {
      p := Ucs(UnitsOf(cps));
      UcsSpells(cps);
      WeightsAre(cps, false);
      assert UnitWeights(cps) == Weights(cps);
    }
  }

  // ----- acceptance -----

  /** What one segment holds without a header, and with the header for that reference. */
  function Alone(cps: seq<nat>): nat {
    if Covered(cps) then 160 else 70
  }

  function Together(cps: seq<nat>, reference: nat): nat {
    if Covered(cps) then (if reference <= 0xFF then 153 else 152) else if reference <= 0xFF then 67 else 66
  }

  /** The text goes into at most n segments. */
  ghost predicate FitsIn(cps: seq<nat>, reference: nat, n: nat) {
    var ws := Weights(cps);
    n >= 1 && (Upto(ws, |ws|) <= Alone(cps) || Splits(ws, Together(cps, reference), n))
  }

  lemma Capacities(p: Payload, cps: seq<nat>, reference: nat)
    requires p.Gsm? == Covered(cps) && reference < 0x10000
    ensures Single(p) == Alone(cps) && Capacity(p, HeaderLength(reference)) == Together(cps, reference)
  {
  }

  lemma {:induction false} SplitIsBounded(ws: seq<nat>, cap: nat, o: seq<nat>, i: nat)
    requires SplitAt(ws, cap, o) && i < |o|
    ensures Upto(ws, o[i]) <= i * cap
    decreases i
  {
    if i > 0 {
      SplitIsBounded(ws, cap, o, i - 1);
      assert i * cap == (i - 1) * cap + cap;
    }
  }

  /** What fits sixteen segments fits the buffers of the encoder. */
  lemma FitsBuffers(cps: seq<nat>, reference: nat)
    requires FitsIn(cps, reference, MAX_SEGMENTS)
    ensures Upto(Weights(cps), |cps|) <= MAX_SEGMENTS * Alone(cps)
  {
    hide Covered, Weights;
    var ws, cap := Weights(cps), Together(cps, reference);
    if Upto(ws, |ws|) > Alone(cps) {
      var o :| SplitAt(ws, cap, o) && |o| <= MAX_SEGMENTS + 1;
      SplitIsBounded(ws, cap, o, |o| - 1);
      assert (|o| - 1) * cap <= MAX_SEGMENTS * cap;
    }
  }

  /**
   * Exactly which texts are accepted: those that fit one segment of 160 septets or 70 units, or can be split into
   * sixteen pieces of what is left beside the header. The default alphabet is used exactly if it covers the
   * text, and the encoder never uses more segments than any split needs.
   */
  lemma AcceptedExactly(recipient: seq<byte>, cps: seq<nat>, report: bool, reference: nat, n: nat)
    requires Writable(cps) && reference < 0x10000 && n <= 16
    ensures var segments := Submit.Segments(recipient, TextFrom(cps), report, reference, 16);
      && (segments.Some? <==> Address.Valid(recipient) && FitsIn(cps, reference, 16))
      && (segments.Some? ==> forall i :: 0 <= i < |segments.value| ==> segments.value[i].encoding == if Covered(cps) then Gsm7Bit else Ucs2Bit)
      && (segments.Some? ==> (|segments.value| <= n <==> FitsIn(cps, reference, n)))
  {
    hide Covered, Weights, Spells, Address.Valid, Submit.SegmentOf, Splits, TextFrom;
    var text, ws := TextFrom(cps), Weights(cps);
    var p := Represented(cps);
    WholeLength(p, ws);
    Capacities(p, cps, reference);
    ChosenPayload(cps, p);
    GreedyIsBest(p, ws, Together(cps, reference), 16);
    GreedyIsBest(p, ws, Together(cps, reference), n);
    if FitsIn(cps, reference, 16) { FitsBuffers(cps, reference); }
    SegmentsByLength(recipient, text, report, reference, p);
  }

  lemma ChosenPayload(cps: seq<nat>, p: Payload)
    requires Writable(cps) && p == if Covered(cps) then Gsm(SeptetsOf(cps)) else Ucs(UnitsOf(cps))
    ensures PayloadOf(TextFrom(cps)) == if Length(p) <= MAX_SEGMENTS * Alone(cps) then Some(p) else None
  {
    hide Covered, TextFrom, SeptetsOf, UnitsOf, Gsm7.EncodeText, Ucs2.EncodeText;
    GsmOfText(cps);
    UcsOfText(cps);
  }

  lemma SegmentsByLength(recipient: seq<byte>, text: seq<byte>, report: bool, reference: nat, p: Payload)
    requires reference < 0x10000
    ensures var segments := Submit.Segments(recipient, text, report, reference, MAX_SEGMENTS);
      && (segments.Some? ==> Address.Valid(recipient) && PayloadOf(text).Some?)
      && (Address.Valid(recipient) && PayloadOf(text) == Some(p) && Length(p) <= Single(p) ==>
            segments.Some? && |segments.value| == 1 && segments.value[0].encoding == EncodingOf(p))
      && (Address.Valid(recipient) && PayloadOf(text) == Some(p) && Length(p) > Single(p) ==>
            var c := Cuts(p, Capacity(p, HeaderLength(reference)), 0);
            && (segments.Some? <==> c.Some? && |c.value| <= MAX_SEGMENTS)
            && (segments.Some? ==> |segments.value| == |c.value|)
            && (segments.Some? ==> forall i :: 0 <= i < |segments.value| ==> segments.value[i].encoding == EncodingOf(p)))
  {
    hide PayloadOf, Address.Valid, Cuts, Submit.PduOf;
  }

  /** Nothing but UTF-8 without NUL is accepted. */
  lemma OnlyTextIsAccepted(recipient: seq<byte>, text: seq<byte>, report: bool, reference: nat)
    requires reference < 0x10000 && Submit.Segments(recipient, text, report, reference, MAX_SEGMENTS).Some?
    ensures exists cps :: Writable(cps) && TextFrom(cps) == text
  {
    hide TextFrom, Writable, Submit.SegmentOf, Address.Valid;
    var cps := ReadText(text);
  }

  lemma {:induction false} ReadText(text: seq<byte>) returns (cps: seq<nat>)
    requires PayloadOf(text).Some?
    ensures Writable(cps) && TextFrom(cps) == text
  {
    hide Gsm7.EncodeText, Ucs2.EncodeText;
    if Gsm7.EncodeText(text).Some? { cps := ReadGsm(text); } else { cps := ReadUcs(text); }
  }

  lemma {:induction false} ReadGsm(text: seq<byte>) returns (cps: seq<nat>)
    requires Gsm7.EncodeText(text).Some?
    ensures Writable(cps) && TextFrom(cps) == text
    decreases |text|
  {
    hide Utf8.Next, Utf8.Encode, Gsm7.Find;
    if text == [] {
      cps := [];
    } else {
      var rest := ReadGsm(text[Utf8.Next(text).value.used..]);
      cps := ReadOne(text, rest);
    }
  }

  lemma {:induction false} ReadUcs(text: seq<byte>) returns (cps: seq<nat>)
    requires Ucs2.EncodeText(text).Some?
    ensures Writable(cps) && TextFrom(cps) == text
    decreases |text|
  {
    hide Utf8.Next, Utf8.Encode;
    if text == [] {
      cps := [];
    } else {
      var rest := ReadUcs(text[Utf8.Next(text).value.used..]);
      cps := ReadOne(text, rest);
    }
  }

  lemma ReadOne(text: seq<byte>, rest: seq<nat>) returns (cps: seq<nat>)
    requires text != [] && Utf8.Next(text).Some? && Writable(rest) && TextFrom(rest) == text[Utf8.Next(text).value.used..]
    ensures Writable(cps) && TextFrom(cps) == text
  {
    hide Utf8.Next, Utf8.Encode;
    var code := Utf8.Next(text).value;
    Utf8.NextIsEncoded(text);
    cps := [code.cp] + rest;
    assert cps[1..] == rest;
    assert text == text[..code.used] + text[code.used..];
  }

  /** In particular: up to sixteen times what a piece holds in any case is always accepted, from every valid number. */
  lemma ShortTextsAreAccepted(recipient: seq<byte>, cps: seq<nat>, report: bool, reference: nat)
    requires Writable(cps) && reference < 0x10000 && Address.Valid(recipient)
    requires Upto(Weights(cps), |cps|) <= 16 * (Together(cps, reference) - 1)
    ensures Submit.Segments(recipient, TextFrom(cps), report, reference, 16).Some?
  {
    hide Covered, Address.Valid, TextFrom;
    AcceptedExactly(recipient, cps, report, reference, 16);
    AlwaysSplits(Weights(cps), Together(cps, reference), 16);
  }

  /** Numbers of one to twenty digits, with or without a plus, are valid recipients; nothing else is. */
  lemma ValidRecipients(recipient: seq<byte>)
    ensures Address.Valid(recipient) <==>
      || (1 <= |recipient| <= 20 && forall i :: 0 <= i < |recipient| ==> 48 <= recipient[i] <= 57)
      || (2 <= |recipient| <= 21 && recipient[0] == 43 && forall i :: 1 <= i < |recipient| ==> 48 <= recipient[i] <= 57)
  {
    if |recipient| > 0 && recipient[0] == 43 {
      assert forall i :: 1 <= i < |recipient| ==> recipient[i] == recipient[1..][i - 1];
    }
  }
}
