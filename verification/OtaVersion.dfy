/**
 * ota_version_policy.c: reading and comparing version texts with cursors, and the decision
 * whether an image may be installed, proved against semantic versioning.
 */
module OtaVersion {
  import opened Bytes
  import opened SemVer
  import opened SemVerText

  /** parse_number at position p: the cursor behind it. */
  method ParseNumber(s: CString, p: nat) returns (ok: bool, value: nat, q: nat)
    requires p <= |s|
    ensures ok <==> NumberLength(s[p..]) > 0
    ensures ok ==> q == p + NumberLength(s[p..]) <= |s| && AllDigits(s[p..q]) && value == Value(s[p..q])
  {
    hide Value, NumberLength, DigitRun, Canonical, AllDigits, IsDigit;
    ghost var rest := s[p..];
    ghost var n := DigitRun(rest);
    if p == |s| || !IsDigit(s[p]) {
      NoDigit(rest);
      return false, 0, p;
    }
    assert s[p] == rest[0];
    if s[p] == ZERO && p + 1 < |s| && IsDigit(s[p + 1]) {
      TwoDigits(rest);
      return false, 0, p;
    }
    value, q := 0, p;
    NoDigitsValue();
    assert rest[..0] == [];
    while q < |s| && IsDigit(s[q])
      invariant p <= q <= p + n && n <= |rest|
      invariant AllDigits(rest[..q - p]) && value == Value(rest[..q - p]) && value <= ULONG_MAX
    {
      var digit := DigitOf(s[q]);
      assert rest[q - p] == s[q];
      RunContinues(rest, q - p);
      ValueSnoc(rest, q - p);
      OverflowTest(value, digit);
      if value > (ULONG_MAX - digit) / 10 {
        TooLarge(rest, q - p + 1);
        return false, 0, p;
      }
      value := value * 10 + digit;
      q := q + 1;
    }
    assert q < |s| ==> rest[q - p] == s[q];
    assert 1 < |rest| ==> rest[1] == s[p + 1];
    RunEnds(rest, q - p);
    assert s[p..q] == rest[..q - p];
    ok := true;
  }

  function DigitOf(c: byte): (d: nat)
    requires IsDigit(c)
    ensures d == c - 48 <= 9
  {
    c - 48
  }

  lemma NoDigit(s: seq<byte>)
    requires s == [] || !IsDigit(s[0])
    ensures NumberLength(s) == 0
  {
  }

  lemma TooLarge(s: seq<byte>, k: nat)
    requires k <= DigitRun(s) && AllDigits(s[..k]) && Value(s[..k]) > ULONG_MAX
    ensures NumberLength(s) == 0
  {
    hide Value;
    ValueGrows(s, k, DigitRun(s));
  }

  /** The test before the multiplication is exact. */
  lemma OverflowTest(value: nat, digit: nat)
    requires digit <= 9
    ensures value > (ULONG_MAX - digit) / 10 <==> value * 10 + digit > ULONG_MAX
  {
  }

  lemma NoDigitsValue()
    ensures AllDigits([]) && Value([]) == 0
  {
  }

  lemma TwoDigits(s: seq<byte>)
    requires |s| > 1 && s[0] == ZERO && IsDigit(s[1])
    ensures NumberLength(s) == 0
  {
    assert s[1..][0] == s[1];
    assert DigitRun(s) >= 2;
  }

  lemma RunContinues(s: seq<byte>, k: nat)
    requires k <= DigitRun(s) && k < |s| && IsDigit(s[k])
    ensures k < DigitRun(s)
  {
  }

  lemma RunEnds(s: seq<byte>, k: nat)
    requires 0 < k <= DigitRun(s) && (k < |s| ==> !IsDigit(s[k]))
    requires AllDigits(s[..k]) && Value(s[..k]) <= ULONG_MAX && (s[0] == ZERO && 1 < |s| ==> !IsDigit(s[1]))
    ensures NumberLength(s) == k
  {
    hide DigitRun, Value, IsDigit;
    var n := DigitRun(s);
    assert forall i :: 0 <= i < n ==> s[..n][i] == s[i];
    assert k == n;
    assert k > 1 ==> IsDigit(s[..n][1]);
    assert IsDigit(s[..n][0]);
  }

  lemma ValueSnoc(s: seq<byte>, k: nat)
    requires k < |s| && AllDigits(s[..k]) && IsDigit(s[k])
    ensures AllDigits(s[..k + 1]) && Value(s[..k + 1]) == 10 * Value(s[..k]) + (s[k] - 48)
  {
    assert s[..k + 1][..k] == s[..k];
  }

  lemma {:induction false} ValueGrows(s: seq<byte>, k: nat, n: nat)
    requires k <= n <= |s| && AllDigits(s[..n])
    ensures AllDigits(s[..k]) && Value(s[..k]) <= Value(s[..n])
    decreases n - k
  {
    assert forall i :: 0 <= i < k ==> s[..k][i] == s[..n][i];
    if k < n {
      assert s[..n][..n - 1] == s[..n - 1];
      assert forall i :: 0 <= i < n - 1 ==> s[..n - 1][i] == s[..n][i];
      ValueGrows(s, k, n - 1);
    }
  }

  // ----- dotted identifiers -----

  /** The character loop over identifiers; previous says that a dot (or nothing) came before. */
  predicate DottedFrom(t: seq<byte>, previous: bool) {
    if t == [] then !previous
    else if t[0] == DOT then !previous && DottedFrom(t[1..], true)
    else IsIdentifierChar(t[0]) && DottedFrom(t[1..], false)
  }

  predicate OnlyIdentifierChars(s: seq<byte>) {
    forall i :: 0 <= i < |s| ==> IsIdentifierChar(s[i])
  }

  /** What the rest of a text must be: its first identifier may continue one. */
  predicate GoodRest(t: seq<byte>, previous: bool) {
    && (forall i :: 0 <= i < |Split(t)| ==> OnlyIdentifierChars(Split(t)[i]))
    && (forall i :: (if previous then 0 else 1) <= i < |Split(t)| ==> Split(t)[i] != [])
  }

  lemma SplitCons(t: seq<byte>)
    requires t != []
    ensures Split(t) == if t[0] == DOT then [[]] + Split(t[1..]) else [[t[0]] + Split(t[1..])[0]] + Split(t[1..])[1..]
  {
    hide Split, FirstDot;
    var u := t[1..];
    SplitParts(u);
    SplitParts(t);
    FirstDotCons(t);
    assert Split(t) == [Split(t)[0]] + Split(t)[1..];
    if t[0] != DOT {
      var n := FirstDot(u);
      assert t[..n + 1] == [t[0]] + u[..n];
      if n < |u| { assert t[n + 2..] == u[n + 1..]; }
    }
  }

  lemma FirstDotCons(t: seq<byte>)
    requires t != []
    ensures FirstDot(t) == if t[0] == DOT then 0 else 1 + FirstDot(t[1..])
  {
  }

  lemma {:induction false} DottedIsSplit(t: seq<byte>, previous: bool)
    ensures DottedFrom(t, previous) <==> GoodRest(t, previous)
    decreases |t|
  {
    hide Split, IsIdentifierChar;
    if t == [] {
      NothingToSplit();
      EmptyIsFine();
      assert Split(t)[0] == [];
    } else {
      SplitCons(t);
      DottedIsSplit(t[1..], t[0] == DOT);
      if t[0] == DOT { GoodAfterDot(t, previous); } else { GoodAfterChar(t, previous); }
    }
  }

  lemma NothingToSplit()
    ensures Split([]) == [[]]
  {
  }

  lemma GoodAfterDot(t: seq<byte>, previous: bool)
    requires t != [] && t[0] == DOT && Split(t) == [[]] + Split(t[1..])
    ensures GoodRest(t, previous) <==> !previous && GoodRest(t[1..], true)
  {
    hide Split, OnlyIdentifierChars;
    var a, b := Split(t), Split(t[1..]);
    assert forall i :: 0 <= i < |b| ==> a[i + 1] == b[i];
    assert a[0] == [] && OnlyIdentifierChars([]) by { EmptyIsFine(); }
    if GoodRest(t, previous) {
      forall i | 0 <= i < |b| ensures OnlyIdentifierChars(b[i]) && b[i] != [] { assert b[i] == a[i + 1]; }
    }
  }

  lemma EmptyIsFine()
    ensures OnlyIdentifierChars([])
  {
  }

  lemma GoodAfterChar(t: seq<byte>, previous: bool)
    requires t != [] && t[0] != DOT && Split(t) == [[t[0]] + Split(t[1..])[0]] + Split(t[1..])[1..]
    ensures GoodRest(t, previous) <==> IsIdentifierChar(t[0]) && GoodRest(t[1..], false)
  {
    hide Split, IsIdentifierChar, OnlyIdentifierChars;
    var a, b := Split(t), Split(t[1..]);
    assert forall i :: 1 <= i < |b| ==> a[i] == b[i];
    assert a[0] == [t[0]] + b[0];
    OnlyCons(t[0], b[0]);
    if GoodRest(t, previous) {
      forall i | 0 <= i < |b| ensures OnlyIdentifierChars(b[i]) { if i > 0 { assert b[i] == a[i]; } }
    }
  }

  lemma OnlyCons(c: byte, s: seq<byte>)
    ensures OnlyIdentifierChars([c] + s) <==> IsIdentifierChar(c) && OnlyIdentifierChars(s)
  {
    hide IsIdentifierChar;
    if OnlyIdentifierChars([c] + s) {
      assert ([c] + s)[0] == c;
      forall i | 0 <= i < |s| ensures IsIdentifierChar(s[i]) { assert ([c] + s)[i + 1] == s[i]; }
    }
  }

  /** For a whole text that is validity of all its identifiers. */
  lemma DottedIsValidBuild(t: seq<byte>)
    ensures DottedFrom(t, true) <==> ValidBuildText(t)
  {
    hide Split;
    DottedIsSplit(t, true);
  }

  /** The loops of parse_semver over pre-release and build text, from p up to a stop character. */
  method ScanDotted(s: CString, p: nat, stopAtPlus: bool) returns (ok: bool, q: nat)
    requires p <= |s|
    ensures var end := p + (if stopAtPlus then FirstPlus(s[p..]) else |s| - p);
      (ok <==> ValidBuildText(s[p..end])) && (ok ==> q == end)
  {
    hide ValidBuildText, IsIdentifierChar;
    ghost var end := p + (if stopAtPlus then FirstPlus(s[p..]) else |s| - p);
    ghost var t := s[p..end];
    DottedIsValidBuild(t);
    q := p;
    var previousDot := true;
    while q < |s| && !(stopAtPlus && s[q] == PLUS)
      invariant p <= q <= end
      invariant DottedFrom(t, true) <==> DottedFrom(s[q..end], previousDot)
    {
      StopsAtEnd(s, p, q, stopAtPlus);
      ghost var u := s[q..end];
      assert u[0] == s[q] && u[1..] == s[q + 1..end];
      if s[q] == DOT {
        if previousDot {
          return false, q;
        }
        previousDot := true;
      } else {
        if !IsIdentifierChar(s[q]) {
          return false, q;
        }
        previousDot := false;
      }
      q := q + 1;
    }
    StopsAtEnd(s, p, q, stopAtPlus);
    assert q == end;
    return q != p && !previousDot, q;
  }

  lemma StopsAtEnd(s: seq<byte>, p: nat, q: nat, stopAtPlus: bool)
    requires p <= q <= |s| && q <= p + (if stopAtPlus then FirstPlus(s[p..]) else |s| - p)
    ensures (q < |s| && !(stopAtPlus && s[q] == PLUS)) <==> q < p + (if stopAtPlus then FirstPlus(s[p..]) else |s| - p)
  {
    if stopAtPlus && q < |s| { assert s[q] == s[p..][q - p]; }
  }

  // ----- pre-release identifiers -----

  lemma PreStep(u: seq<byte>)
    ensures var n := FirstDot(u);
      ValidPreText(u) <==> ValidPre(u[..n]) && (n < |u| ==> ValidPreText(u[n + 1..]))
  {
    hide Split, FirstDot, ValidPre;
    SplitParts(u);
    var n := FirstDot(u);
    var all := Split(u);
    assert all == [all[0]] + all[1..];
    if n < |u| && ValidPreText(u) {
      var rest := Split(u[n + 1..]);
      forall i | 0 <= i < |rest| ensures ValidPre(rest[i]) { assert rest[i] == all[i + 1]; }
    }
  }

  lemma BuildStep(u: seq<byte>)
    requires ValidBuildText(u)
    ensures var n := FirstDot(u); n > 0 && OnlyIdentifierChars(u[..n])
    ensures var n := FirstDot(u); n < |u| ==> n + 1 < |u| && ValidBuildText(u[n + 1..])
  {
    hide Split, FirstDot, IsIdentifierChar, ValidBuildText;
    BuildHead(u);
    var n := FirstDot(u);
    if n < |u| {
      RestIsValid(u);
      BuildHead(u[n + 1..]);
    }
  }

  lemma BuildHead(u: seq<byte>)
    requires ValidBuildText(u)
    ensures 0 < FirstDot(u) <= |u| && OnlyIdentifierChars(u[..FirstDot(u)])
  {
    hide Split, FirstDot, IsIdentifierChar;
    SplitParts(u);
    assert ValidBuild(Split(u)[0]);
  }

  /** valid_prerelease_sequence, behind the character loop. */
  method ValidPrereleaseSequence(t: seq<byte>) returns (ok: bool)
    requires ValidBuildText(t)
    ensures ok <==> ValidPreText(t)
  {
    hide ValidBuildText, ValidPreText, Split, FirstDot, IsIdentifierChar;
    var start := 0;
    assert t[0..] == t;
    BuildStep(t);
    while start < |t|
      invariant start <= |t|
      invariant start < |t| ==> ValidBuildText(t[start..]) && (ValidPreText(t) <==> ValidPreText(t[start..]))
      invariant start == |t| ==> ValidPreText(t)
    {
      ghost var u := t[start..];
      BuildStep(u);
      PreStep(u);
      var end, numeric := ScanIdentifier(t, start);
      ghost var n := FirstDot(u);
      assert t[start..end] == u[..n];
      assert t[start] == u[..n][0];
      if end == start || (numeric && end - start > 1 && t[start] == ZERO) {
        return false;
      }
      assert ValidPre(u[..n]);
      if end < |t| { assert u[n + 1..] == t[end + 1..]; }
      start := if end < |t| then end + 1 else end;
    }
    return true;
  }

  /** One identifier: its end, and whether it has only digits. */
  method ScanIdentifier(t: seq<byte>, start: nat) returns (end: nat, numeric: bool)
    requires start <= |t|
    ensures end == start + FirstDot(t[start..]) <= |t| && numeric == AllDigits(t[start..end])
  {
    hide FirstDot, AllDigits, IsDigit;
    end, numeric := start, true;
    ghost var n := FirstDot(t[start..]);
    NoDigitsValue();
    assert t[start..start] == [];
    while end < |t| && t[end] != DOT
      invariant start <= end <= start + n <= |t|
      invariant numeric == AllDigits(t[start..end])
    {
      DotAhead(t, start, end);
      DigitsAhead(t, start, end);
      if !IsDigit(t[end]) {
        numeric := false;
      }
      end := end + 1;
    }
    DotAhead(t, start, end);
  }

  lemma DotAhead(t: seq<byte>, start: nat, end: nat)
    requires start <= end <= |t| && end <= start + FirstDot(t[start..])
    ensures end < start + FirstDot(t[start..]) <==> end < |t| && t[end] != DOT
  {
    hide FirstDot;
    var u := t[start..];
    if end < |t| { assert u[end - start] == t[end]; }
  }

  lemma DigitsAhead(t: seq<byte>, start: nat, end: nat)
    requires start <= end < |t|
    ensures AllDigits(t[start..end + 1]) <==> AllDigits(t[start..end]) && IsDigit(t[end])
  {
    assert t[start..end + 1] == t[start..end] + [t[end]];
    AllDigitsSnoc(t[start..end], t[end]);
  }

  lemma AllDigitsSnoc(s: seq<byte>, c: byte)
    ensures AllDigits(s + [c]) <==> AllDigits(s) && IsDigit(c)
  {
    hide IsDigit;
    if AllDigits(s + [c]) {
      assert (s + [c])[|s|] == c;
      forall i | 0 <= i < |s| ensures IsDigit(s[i]) { assert (s + [c])[i] == s[i]; }
    }
  }

  // ----- parse_semver -----

  datatype Parsed = Parsed(major: nat, minor: nat, patch: nat, pre: seq<byte>)

  function PartsOf(v: Version): Parsed
    requires Valid(v)
  {
    Parsed(Value(v.major), Value(v.minor), Value(v.patch), v.pre)
  }

  /** A number and the dot behind it. */
  method ParseDotted(s: CString, p: nat) returns (ok: bool, value: nat, q: nat)
    requires p <= |s|
    ensures ok <==> DottedNumber(s[p..]) > 0
    ensures ok ==> q == p + DottedNumber(s[p..]) < |s| && AllDigits(s[p..q]) && value == Value(s[p..q])
  {
    hide NumberLength, Value, AllDigits;
    ok, value, q := ParseNumber(s, p);
    AtCursor(s, p, NumberLength(s[p..]));
    ok := ok && q < |s| && s[q] == DOT;
  }

  /** Reading by cursors. */
  lemma ReadByCursors(s: seq<byte>, p: nat, q: nat)
    requires p == DottedNumber(s) > 0 && p + 1 <= q < |s| && q == p + 1 + DottedNumber(s[p + 1..])
    ensures q == p + 1 ==> Read(s).None?
    ensures var c := NumberLength(s[q + 1..]);
      var e := q + 1 + c;
      q > p + 1 ==> Read(s) == if c == 0 then None else ReadTail(Version(s[..p], s[p + 1..q], s[q + 1..e], [], []), s[e..])
  {
    hide NumberLength, DottedNumber, ReadTail;
    var s1 := s[p + 1..];
    var b := q - p - 1;
    if b > 0 {
      AtCursor(s, p + 1, b);
      AtCursor(s, q + 1, NumberLength(s[q + 1..]));
    }
  }

  lemma ReadNeedsMinor(s: seq<byte>)
    requires DottedNumber(s) == 0 || DottedNumber(s[DottedNumber(s) + 1..]) == 0
    ensures Read(s).None?
  {
    hide DottedNumber;
  }

  /** The three numbers: what is left to read behind them. */
  method ParseCore(s: CString) returns (ok: bool, major: nat, minor: nat, patch: nat, e: nat, ghost v: Version)
    ensures !ok ==> Read(s).None?
    ensures ok ==> e <= |s| && Read(s) == ReadTail(v, s[e..]) && v.pre == [] && v.build == []
    ensures ok ==> AllDigits(v.major) && AllDigits(v.minor) && AllDigits(v.patch)
    ensures ok ==> major == Value(v.major) && minor == Value(v.minor) && patch == Value(v.patch)
  {
    hide NumberLength, DottedNumber, Read, ReadTail, Value, AllDigits;
    v := Version([], [], [], [], []);
    minor, patch, e := 0, 0, 0;
    var p, q;
    assert s[0..] == s;
    ok, major, p := ParseDotted(s, 0);
    if !ok {
      ReadNeedsMinor(s);
      return;
    }
    assert s[0..p] == s[..p];
    ok, minor, q := ParseDotted(s, p + 1);
    if !ok {
      ReadNeedsMinor(s);
      return;
    }
    ReadByCursors(s, p, q);
    ok, patch, e := ParseNumber(s, q + 1);
    v := if ok then Version(s[..p], s[p + 1..q], s[q + 1..e], [], []) else v;
  }

  /** parse_semver: accepts exactly the texts of versions, and finds their parts. */
  method ParseSemver(s: CString) returns (r: Option<Parsed>)
    ensures r.Some? <==> Read(s).Some?
    ensures r.Some? ==> Valid(Read(s).value) && r.value == PartsOf(Read(s).value)
  {
    hide Read, ReadTail, Value, AllDigits, Valid;
    var ok, major, minor, patch, e, v := ParseCore(s);
    if !ok {
      return None;
    }
    var pre;
    ok, pre := ParseTail(s, e, v);
    if !ok {
      return None;
    }
    ReadIsRender(s, Read(s).value);
    ReadTailExact(v, s[e..], Read(s).value);
    return Some(Parsed(major, minor, patch, pre));
  }

  lemma AtCursor(s: seq<byte>, p: nat, n: nat)
    requires p + n <= |s|
    ensures s[p..][..n] == s[p..p + n] && s[p..][n..] == s[p + n..]
    ensures p + n < |s| ==> s[p..][n] == s[p + n] && s[p..][n + 1..] == s[p + n + 1..]
  {
  }

  /** What follows the three numbers. */
  method ParseTail(s: CString, e: nat, ghost v: Version) returns (ok: bool, pre: seq<byte>)
    requires e <= |s| && v.pre == [] && v.build == []
    ensures ok <==> ReadTail(v, s[e..]).Some?
    ensures ok ==> pre == ReadTail(v, s[e..]).value.pre
  {
    hide ValidBuildText, ValidPreText, FirstPlus, ReadBuild;
    pre := [];
    var p := e;
    ghost var t := s[e..];
    ghost var w := v;
    if p < |s| && s[p] == MINUS {
      p := p + 1;
      assert t[0] == s[e] && t[1..] == s[p..];
      var start := p;
      ghost var n := FirstPlus(s[p..]);
      AtCursor(s, start, n);
      ok, p := ScanDotted(s, p, true);
      if !ok {
        NotPre(s[start..start + n]);
        return false, [];
      }
      ok := ValidPrereleaseSequence(s[start..p]);
      if !ok {
        return false, [];
      }
      pre := s[start..p];
      w := v.(pre := pre);
      assert ReadTail(v, t) == ReadBuild(w, s[p..]);
    } else {
      assert t != [] ==> t[0] == s[e];
    }
    ok := ParseBuild(s, p, w);
  }

  /** The build metadata, if any. */
  method ParseBuild(s: CString, p: nat, ghost w: Version) returns (ok: bool)
    requires p <= |s|
    ensures ok <==> ReadBuild(w, s[p..]).Some?
    ensures ok ==> ReadBuild(w, s[p..]).value.pre == w.pre
  {
    hide ValidBuildText;
    if p < |s| && s[p] == PLUS {
      assert s[p..][0] == s[p] && s[p..][1..] == s[p + 1..];
      var from := p + 1;
      var end;
      ok, end := ScanDotted(s, from, false);
      assert s[from..from + (|s| - from)] == s[from..];
      return;
    }
    assert s[p..] == [] <==> p == |s|;
    assert p < |s| ==> s[p..][0] == s[p];
    return p == |s|;
  }

  lemma NotPre(t: seq<byte>)
    requires !ValidBuildText(t)
    ensures !ValidPreText(t)
  {
    if ValidPreText(t) { PreIsBuild(t); }
  }

  // ----- comparison -----

  predicate IdentifierNumeric(s: seq<byte>) {
    s != [] && !(|s| > 1 && s[0] == ZERO) && AllDigits(s)
  }

  /** compare_identifiers; memcmp over equal lengths is the ASCII order. */
  function CompareIdentifiers(a: Identifier, b: Identifier): int {
    var an, bn := IdentifierNumeric(a), IdentifierNumeric(b);
    if an && bn then
      if |a| != |b| then Sign(|a|, |b|) else Lex(a, b)
    else if an != bn then (if an then -1 else 1)
    else
      var n := if |a| < |b| then |a| else |b|;
      Then(Lex(a[..n], b[..n]), Sign(|a|, |b|))
  }

  lemma {:induction false} LexByPrefix(a: seq<byte>, b: seq<byte>)
    ensures var n := if |a| < |b| then |a| else |b|;
      Lex(a, b) == Then(Lex(a[..n], b[..n]), Sign(|a|, |b|))
    decreases |a|
  {
    var n := if |a| < |b| then |a| else |b|;
    if n > 0 {
      LexByPrefix(a[1..], b[1..]);
      assert a[..n][1..] == a[1..][..n - 1] && b[..n][1..] == b[1..][..n - 1];
    }
  }

  /** Length and then digits is numeric order, so the code follows section 11.4. */
  lemma CompareIdentifiersIsOrder(a: Identifier, b: Identifier)
    requires ValidPre(a) && ValidPre(b)
    ensures CompareIdentifiers(a, b) == IdentifierOrder(a, b)
  {
    hide Lex, Value;
    LexByPrefix(a, b);
    if Numeric(a) && Numeric(b) {
      if |a| < |b| { ShorterIsSmaller(a, b); }
      else if |b| < |a| { ShorterIsSmaller(b, a); }
      else { SameLengthLex(a, b); }
    }
  }

  /** The identifiers that are left at a cursor. */
  function Rest(t: seq<byte>, i: nat): seq<Identifier>
    requires i <= |t|
  {
    if i == |t| then [] else Split(t[i..])
  }

  lemma RestStep(t: seq<byte>, i: nat)
    requires i < |t| && ValidPreText(t[i..])
    ensures var end := i + FirstDot(t[i..]);
      var next := if end < |t| then end + 1 else end;
      && end <= |t| && Rest(t, i) == [t[i..end]] + Rest(t, next)
      && ValidPre(t[i..end]) && (next < |t| ==> ValidPreText(t[next..])) && (end < |t| ==> next < |t|)
  {
    hide Split, FirstDot, ValidPre;
    var u := t[i..];
    SplitParts(u);
    PreStep(u);
    PreIsBuild(u);
    BuildStep(u);
    var n := FirstDot(u);
    assert t[i..i + n] == u[..n];
    assert Split(u) == [Split(u)[0]] + Split(u)[1..];
    if n < |u| { assert t[i + n + 1..] == u[n + 1..]; }
  }

  /** compare_prerelease: two cursors, identifier by identifier. */
  method ComparePrerelease(a: seq<byte>, b: seq<byte>) returns (c: int)
    requires (a != [] ==> ValidPreText(a)) && (b != [] ==> ValidPreText(b))
    ensures c == PreOrder(a, b)
  {
    hide Split, FirstDot, ValidPre, ValidPreText, IdentifierOrder, CompareIdentifiers, Rest;
    if a == [] && b == [] {
      return 0;
    }
    if a == [] {
      return 1;
    }
    if b == [] {
      return -1;
    }
    var ai, bi := 0, 0;
    RestAll(a);
    RestAll(b);
    while ai < |a| && bi < |b|
      invariant ai <= |a| && bi <= |b|
      invariant ai < |a| ==> ValidPreText(a[ai..])
      invariant bi < |b| ==> ValidPreText(b[bi..])
      invariant PreOrder(a, b) == IdentifiersOrder(Rest(a, ai), Rest(b, bi))
      decreases |a| - ai
    {
      var ae, _ := ScanIdentifier(a, ai);
      var be, _ := ScanIdentifier(b, bi);
      RestStep(a, ai);
      RestStep(b, bi);
      CompareIdentifiersIsOrder(a[ai..ae], b[bi..be]);
      c := CompareIdentifiers(a[ai..ae], b[bi..be]);
      PreAdvances(a[ai..ae]);
      ghost var an := if ae < |a| then ae + 1 else ae;
      ghost var bn := if be < |b| then be + 1 else be;
      OrderStep(Rest(a, ai), Rest(b, bi), a[ai..ae], b[bi..be], Rest(a, an), Rest(b, bn));
      if c != 0 {
        return c;
      }
      ai := if ae < |a| then ae + 1 else ae;
      bi := if be < |b| then be + 1 else be;
    }
    RestEnd(a, ai);
    RestEnd(b, bi);
    return if ai < |a| then 1 else if bi < |b| then -1 else 0;
  }

  lemma PreAdvances(s: Identifier)
    requires ValidPre(s)
    ensures |s| > 0
  {
  }

  lemma OrderStep(xs: seq<Identifier>, ys: seq<Identifier>, x: Identifier, y: Identifier, xr: seq<Identifier>, yr: seq<Identifier>)
    requires xs == [x] + xr && ys == [y] + yr
    ensures IdentifiersOrder(xs, ys) == Then(IdentifierOrder(x, y), IdentifiersOrder(xr, yr))
  {
    hide IdentifierOrder;
    assert xs[1..] == xr && ys[1..] == yr;
  }

  lemma RestAll(t: seq<byte>)
    requires t != []
    ensures Rest(t, 0) == Split(t) && t[0..] == t
  {
  }

  lemma RestEnd(t: seq<byte>, i: nat)
    requires i <= |t|
    ensures Rest(t, i) == [] <==> i == |t|
  {
  }

  /** ota_semver_compare: nothing unless both texts are versions, and then their precedence. */
  method SemverCompare(a: CString, b: CString) returns (r: Option<int>)
    ensures r.Some? <==> Read(a).Some? && Read(b).Some?
    ensures r.Some? ==> Valid(Read(a).value) && Valid(Read(b).value)
    ensures r.Some? ==> r.value == Precedence(Read(a).value, Read(b).value)
  {
    hide Read, Value, ValidPreText, PreOrder;
    var av := ParseSemver(a);
    if av.None? {
      return None;
    }
    var bv := ParseSemver(b);
    if bv.None? {
      return None;
    }
    if av.value.major != bv.value.major {
      return Some(if av.value.major < bv.value.major then -1 else 1);
    }
    if av.value.minor != bv.value.minor {
      return Some(if av.value.minor < bv.value.minor then -1 else 1);
    }
    if av.value.patch != bv.value.patch {
      return Some(if av.value.patch < bv.value.patch then -1 else 1);
    }
    var c := ComparePrerelease(av.value.pre, bv.value.pre);
    return Some(c);
  }

  /** Two version texts tie exactly if they agree up to the build metadata. */
  lemma TiesDifferInBuildOnly(a: seq<byte>, b: seq<byte>)
    requires Read(a).Some? && Read(b).Some?
    ensures Valid(Read(a).value) && Valid(Read(b).value)
    ensures Precedence(Read(a).value, Read(b).value) == 0 <==> Core(Read(a).value) == Core(Read(b).value)
  {
    hide Read, Precedence, Valid, Core, Render;
    var v, w := Read(a).value, Read(b).value;
    ReadIsRender(a, v);
    ReadIsRender(b, w);
    PrecedenceLaws(v, w, w);
    CoreInjective(v, w);
  }

  lemma CoreInjective(v: Version, w: Version)
    requires Valid(v) && Valid(w) && InRange(v) && InRange(w)
    ensures Core(v) == Core(w) <==> v == w.(build := v.build)
  {
    hide Read, Valid, ValidPreText;
    if Core(v) == Core(w) {
      WithoutBuild(v);
      WithoutBuild(w);
    }
  }

  lemma WithoutBuild(v: Version)
    requires Valid(v) && InRange(v)
    ensures Read(Core(v)) == Some(v.(build := []))
  {
    hide Read, ValidPreText, ValidBuildText;
    assert Render(v.(build := [])) == Core(v);
    RenderIsRead(v.(build := []));
  }

  // ----- the policy -----

  datatype Decision = Accept | RejectProject | RejectSecureVersion | RejectFormat | RejectReinstall | RejectDowngrade

  /** What the application descriptor of an image says. */
  datatype Image = Image(project: CString, version: CString, secure: nat)

  datatype Overrides = Overrides(reinstall: bool, downgrade: bool)

  function VersionOrder(a: CString, b: CString): (c: int)
    requires Read(a).Some? && Read(b).Some?
  {
    ReadIsRender(a, Read(a).value);
    ReadIsRender(b, Read(b).value);
    Precedence(Read(a).value, Read(b).value)
  }

  /** What may be installed over the running image. */
  predicate MayInstall(project: CString, running: Image, candidate: Image, overrides: Overrides) {
    && candidate.project == project && candidate.secure >= running.secure
    && Read(candidate.version).Some? && Read(running.version).Some?
    && var c := VersionOrder(candidate.version, running.version);
       c > 0 || (c == 0 && overrides.reinstall) || (c < 0 && overrides.downgrade)
  }

  /** Without overrides: the same project, no lower secure version, and a newer version by the numbers and the pre-release. */
  lemma InstallsExactlyNewer(project: CString, running: Image, candidate: Image)
    ensures MayInstall(project, running, candidate, Overrides(false, false)) <==>
      && candidate.project == project && candidate.secure >= running.secure
      && Read(candidate.version).Some? && Read(running.version).Some?
      && var c, r := Read(candidate.version).value, Read(running.version).value;
         SemVer.Valid(c) && SemVer.Valid(r) && Newer(c, r)
  {
    hide Read, Precedence, Newer, SemVer.Valid;
    if Read(candidate.version).Some? && Read(running.version).Some? {
      var c, r := Read(candidate.version).value, Read(running.version).value;
      ReadIsRender(candidate.version, c);
      ReadIsRender(running.version, r);
      PrecedenceIsNewer(c, r);
    }
  }

  /** ota_version_policy_decide: accepts exactly what may be installed, and names the first objection. */
  method Decide(project: CString, running: Image, candidate: Image, overrides: Overrides) returns (d: Decision)
    ensures d == Accept <==> MayInstall(project, running, candidate, overrides)
    ensures d == RejectProject <==> candidate.project != project
    ensures d == RejectSecureVersion <==> candidate.project == project && candidate.secure < running.secure
    ensures d == RejectFormat <==> candidate.project == project && candidate.secure >= running.secure
                                   && (Read(candidate.version).None? || Read(running.version).None?)
    ensures d in {RejectReinstall, RejectDowngrade} ==> Read(candidate.version).Some? && Read(running.version).Some?
    ensures d == RejectReinstall ==> VersionOrder(candidate.version, running.version) == 0 && !overrides.reinstall
    ensures d == RejectDowngrade ==> VersionOrder(candidate.version, running.version) < 0 && !overrides.downgrade
  {
    hide Read, Precedence;
    if candidate.project != project {
      return RejectProject;
    }
    if candidate.secure < running.secure {
      return RejectSecureVersion;
    }
    var cmp := SemverCompare(candidate.version, running.version);
    if cmp.None? {
      return RejectFormat;
    }
    if cmp.value == 0 && !overrides.reinstall {
      return RejectReinstall;
    }
    if cmp.value < 0 && !overrides.downgrade {
      return RejectDowngrade;
    }
    return Accept;
  }

  /** Images installed one over the other, each accepted by the policy. */
  ghost predicate Chain(project: CString, images: seq<Image>, overrides: seq<Overrides>) {
    && |images| == |overrides| + 1
    && forall i :: 0 <= i < |overrides| ==> MayInstall(project, images[i], images[i + 1], overrides[i])
  }

  /** The secure version never falls along a chain of updates. */
  lemma {:induction false} SecureVersionNeverFalls(project: CString, images: seq<Image>, overrides: seq<Overrides>, i: nat, j: nat)
    requires Chain(project, images, overrides) && i <= j < |images|
    ensures images[i].secure <= images[j].secure
    decreases j - i
  {
    hide VersionOrder, Read;
    if i < j {
      SecureVersionNeverFalls(project, images, overrides, i, j - 1);
      assert MayInstall(project, images[j - 1], images[j - 1 + 1], overrides[j - 1]);
    }
  }

  /** Without overrides the version strictly increases along a chain of updates. */
  lemma {:induction false} VersionStrictlyIncreases(project: CString, images: seq<Image>, overrides: seq<Overrides>, i: nat, j: nat)
    requires Chain(project, images, overrides) && i < j < |images|
    requires forall k :: 0 <= k < |overrides| ==> overrides[k] == Overrides(false, false)
    ensures Read(images[i].version).Some? && Read(images[j].version).Some?
    ensures VersionOrder(images[j].version, images[i].version) > 0
    decreases j - i
  {
    hide VersionOrder, Read;
    assert MayInstall(project, images[i], images[i + 1], overrides[i]);
    assert MayInstall(project, images[j - 1], images[j - 1 + 1], overrides[j - 1]);
    if i + 1 < j {
      VersionStrictlyIncreases(project, images, overrides, i, j - 1);
      OrderTransitive(images[j].version, images[j - 1].version, images[i].version);
    }
  }

  lemma OrderTransitive(a: CString, b: CString, c: CString)
    requires Read(a).Some? && Read(b).Some? && Read(c).Some?
    requires VersionOrder(a, b) > 0 && VersionOrder(b, c) > 0
    ensures VersionOrder(a, c) > 0
  {
    hide Read, Precedence;
    ReadIsRender(a, Read(a).value);
    ReadIsRender(b, Read(b).value);
    ReadIsRender(c, Read(c).value);
    PrecedenceLaws(Read(a).value, Read(b).value, Read(c).value);
  }
}
