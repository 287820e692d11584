/**
 * Reading a version: the reader accepts exactly the texts of valid versions and gives back
 * their parts.
 */
module SemVerText {
  import opened Bytes
  import opened SemVer

  /** unsigned long has 32 bits on the target. */
  const ULONG_MAX := 0xFFFF_FFFF

  predicate InRange(v: Version) {
    && AllDigits(v.major) && AllDigits(v.minor) && AllDigits(v.patch)
    && Value(v.major) <= ULONG_MAX && Value(v.minor) <= ULONG_MAX && Value(v.patch) <= ULONG_MAX
  }

  function DigitRun(s: seq<byte>): (n: nat)
    ensures n <= |s| && AllDigits(s[..n])
    ensures n < |s| ==> !IsDigit(s[n])
  {
    if s == [] || !IsDigit(s[0]) then 0
    else
      var n := 1 + DigitRun(s[1..]);
      assert forall i :: 1 <= i < n ==> s[i] == s[1..][i - 1];
      n
  }

  /** The length of the number at the start, 0 if there is none that fits. */
  function NumberLength(s: seq<byte>): (n: nat)
    ensures n <= |s|
    ensures n > 0 ==> Canonical(s[..n])
  {
    var n := DigitRun(s);
    if Canonical(s[..n]) && Value(s[..n]) <= ULONG_MAX then n else 0
  }

  function FirstPlus(s: seq<byte>): (n: nat)
    ensures n <= |s| && (n < |s| ==> s[n] == PLUS)
    ensures forall i :: 0 <= i < n ==> s[i] != PLUS
  {
    if s == [] || s[0] == PLUS then 0 else 1 + FirstPlus(s[1..])
  }

  function ReadBuild(v: Version, t: seq<byte>): Option<Version> {
    if t == [] then Some(v)
    else if t[0] == PLUS && ValidBuildText(t[1..]) then Some(v.(build := t[1..]))
    else None
  }

  function ReadTail(v: Version, t: seq<byte>): Option<Version> {
    if t != [] && t[0] == MINUS then
      var n := FirstPlus(t[1..]);
      var pre := t[1..][..n];
      if ValidPreText(pre) then ReadBuild(v.(pre := pre), t[1..][n..]) else None
    else ReadBuild(v, t)
  }

  /** A number and the dot behind it. */
  function DottedNumber(s: seq<byte>): (n: nat)
    ensures n > 0 ==> n < |s| && s[n] == DOT && Canonical(s[..n])
  {
    var n := NumberLength(s);
    if n > 0 && n < |s| && s[n] == DOT then n else 0
  }

  function Read(s: seq<byte>): Option<Version> {
    var a := DottedNumber(s);
    if a == 0 then None
    else
      var s1 := s[a + 1..];
      var b := DottedNumber(s1);
      if b == 0 then None
      else
        var s2 := s1[b + 1..];
        var c := NumberLength(s2);
        if c == 0 then None
        else ReadTail(Version(s[..a], s1[..b], s2[..c], [], []), s2[c..])
  }

  // ----- identifiers and dots -----

  lemma {:induction false} CharsOfSplit(s: seq<byte>, i: nat)
    requires ValidBuildText(s) && i < |s|
    ensures s[i] == DOT || IsIdentifierChar(s[i])
    decreases |s|
  {
    hide Split, FirstDot;
    var n := FirstDot(s);
    SplitParts(s);
    assert ValidBuild(Split(s)[0]);
    if i < n {
      assert Split(s)[0][i] == s[i];
    } else if i > n {
      RestIsValid(s);
      CharsOfSplit(s[n + 1..], i - n - 1);
    }
  }

  lemma RestIsValid(s: seq<byte>)
    requires ValidBuildText(s) && FirstDot(s) < |s|
    ensures ValidBuildText(s[FirstDot(s) + 1..])
  {
    hide Split, FirstDot;
    SplitParts(s);
    var rest := Split(s[FirstDot(s) + 1..]);
    forall i | 0 <= i < |rest| ensures ValidBuild(rest[i]) {
      assert rest[i] == Split(s)[1..][i] == Split(s)[i + 1];
    }
  }

  lemma PreIsBuild(s: seq<byte>)
    requires ValidPreText(s)
    ensures ValidBuildText(s)
  {
    hide Split;
  }

  lemma NoPlusInside(s: seq<byte>)
    requires ValidBuildText(s)
    ensures forall i :: 0 <= i < |s| ==> s[i] != PLUS
  {
    hide ValidBuildText;
    forall i | 0 <= i < |s| ensures s[i] != PLUS { CharsOfSplit(s, i); }
  }

  // ----- the reader is exact -----

  function PrePart(pre: seq<byte>): seq<byte> {
    if pre == [] then [] else [MINUS] + pre
  }

  function BuildPart(build: seq<byte>): seq<byte> {
    if build == [] then [] else [PLUS] + build
  }

  function Tail(v: Version): seq<byte> {
    PrePart(v.pre) + BuildPart(v.build)
  }

  lemma ReadBuildExact(v: Version, t: seq<byte>, w: Version)
    requires ReadBuild(v, t) == Some(w) && v.build == []
    ensures w == v.(build := w.build) && t == BuildPart(w.build)
    ensures w.build != [] ==> ValidBuildText(w.build)
  {
    hide Split;
    if t != [] {
      assert t == [t[0]] + t[1..];
      assert Split(t[1..])[0] != [] ==> t[1..] != [] by { SplitParts(t[1..]); }
    }
  }

  lemma PreNotEmpty(pre: seq<byte>)
    requires ValidPreText(pre)
    ensures pre != []
  {
    hide Split;
    SplitParts(pre);
    assert ValidPre(Split(pre)[0]);
  }

  lemma ReadTailExact(v: Version, t: seq<byte>, w: Version)
    requires ReadTail(v, t) == Some(w) && v.pre == [] && v.build == []
    ensures w == v.(pre := w.pre, build := w.build) && t == Tail(w)
    ensures (w.pre != [] ==> ValidPreText(w.pre)) && (w.build != [] ==> ValidBuildText(w.build))
  {
    hide Split, ReadBuild, ValidBuildText, ValidPreText, FirstPlus, PrePart, BuildPart;
    if t != [] && t[0] == MINUS {
      var n := FirstPlus(t[1..]);
      ReadBuildExact(v.(pre := t[1..][..n]), t[1..][n..], w);
      PreNotEmpty(t[1..][..n]);
      MinusTail(t, n);
    } else {
      ReadBuildExact(v, t, w);
      NoPre(t);
    }
  }

  lemma MinusTail(t: seq<byte>, n: nat)
    requires t != [] && t[0] == MINUS && 0 < n <= |t| - 1
    ensures t == PrePart(t[1..][..n]) + t[1..][n..]
  {
    assert [MINUS] + t[1..][..n] == t[..n + 1];
    assert t[1..][n..] == t[n + 1..];
  }

  lemma NoPre(t: seq<byte>)
    ensures t == PrePart([]) + t
  {
  }

  function Glue(a: seq<byte>, rest: seq<byte>): seq<byte> {
    a + ([DOT] + rest)
  }

  lemma GlueParts(a: seq<byte>, rest: seq<byte>)
    ensures var s := Glue(a, rest); |s| == |a| + 1 + |rest| && s[..|a|] == a && s[|a|] == DOT && s[|a| + 1..] == rest
  {
  }

  lemma UnGlue(s: seq<byte>, n: nat)
    requires n < |s| && s[n] == DOT
    ensures s == Glue(s[..n], s[n + 1..])
  {
  }

  lemma RenderGlue(v: Version)
    ensures Render(v) == Glue(v.major, Glue(v.minor, v.patch + Tail(v)))
  {
    FiveParts(v.major, v.minor, v.patch, PrePart(v.pre), BuildPart(v.build));
  }

  lemma FiveParts(a: seq<byte>, b: seq<byte>, c: seq<byte>, d: seq<byte>, e: seq<byte>)
    ensures a + [DOT] + b + [DOT] + c + d + e == Glue(a, Glue(b, c + (d + e)))
  {
    assert c + d + e == c + (d + e);
  }

  /** Whatever is read is the text of a valid version. */
  lemma ReadIsRender(s: seq<byte>, v: Version)
    requires Read(s) == Some(v)
    ensures Valid(v) && InRange(v) && Render(v) == s
  {
    hide ReadTail, ValidPreText, ValidBuildText, DigitRun, NumberLength, Glue, Tail, Render, Canonical, AllDigits;
    var a := DottedNumber(s);
    var s1 := s[a + 1..];
    var b := DottedNumber(s1);
    var s2 := s1[b + 1..];
    var c := NumberLength(s2);
    ReadTailExact(Version(s[..a], s1[..b], s2[..c], [], []), s2[c..], v);
    UnGlue(s, a);
    UnGlue(s1, b);
    assert s2 == s2[..c] + s2[c..];
    RenderGlue(v);
    NumberFits(s, a);
    NumberFits(s1, b);
    NumberFits(s2, c);
  }

  lemma NumberFits(s: seq<byte>, n: nat)
    requires n > 0 && (n == NumberLength(s) || n == DottedNumber(s))
    ensures n <= |s| && Canonical(s[..n]) && AllDigits(s[..n]) && Value(s[..n]) <= ULONG_MAX
  {
  }

  lemma {:induction false} DigitRunOf(a: seq<byte>, t: seq<byte>)
    requires AllDigits(a) && (t != [] ==> !IsDigit(t[0]))
    ensures DigitRun(a + t) == |a|
    decreases |a|
  {
    if a == [] {
      assert a + t == t;
    } else {
      assert (a + t)[1..] == a[1..] + t;
      DigitRunOf(a[1..], t);
    }
  }

  lemma NumberLengthOf(a: seq<byte>, t: seq<byte>)
    requires Canonical(a) && Value(a) <= ULONG_MAX && (t != [] ==> !IsDigit(t[0]))
    ensures NumberLength(a + t) == |a|
  {
    DigitRunOf(a, t);
    assert (a + t)[..|a|] == a;
  }

  lemma {:induction false} FirstPlusOf(s: seq<byte>, t: seq<byte>)
    requires (forall i :: 0 <= i < |s| ==> s[i] != PLUS) && (t != [] ==> t[0] == PLUS)
    ensures FirstPlus(s + t) == |s|
    decreases |s|
  {
    if s == [] {
      assert s + t == t;
    } else {
      assert (s + t)[1..] == s[1..] + t;
      FirstPlusOf(s[1..], t);
    }
  }

  lemma ReadTailOf(w: Version)
    requires Valid(w)
    ensures ReadTail(w.(pre := [], build := []), Tail(w)) == Some(w)
  {
    hide Split, ValidBuildText, ValidPreText, Canonical;
    var end := BuildPart(w.build);
    if w.build != [] { assert end[1..] == w.build; }
    if w.pre == [] {
      assert [] + end == end;
    } else {
      var t := [MINUS] + w.pre + end;
      assert t[1..] == w.pre + end;
      PreIsBuild(w.pre);
      NoPlusInside(w.pre);
      FirstPlusOf(w.pre, end);
      assert (w.pre + end)[..|w.pre|] == w.pre && (w.pre + end)[|w.pre|..] == end;
    }
  }

  /** The text of every valid version in range is read back. */
  lemma RenderIsRead(v: Version)
    requires Valid(v) && InRange(v)
    ensures Read(Render(v)) == Some(v)
  {
    hide ReadTail, ValidPreText, ValidBuildText, NumberLength, Canonical, Glue, Tail, Render, AllDigits;
    var s2 := v.patch + Tail(v);
    var s1 := Glue(v.minor, s2);
    var s := Glue(v.major, s1);
    RenderGlue(v);
    NotEmpty(v);
    DottedNumberOf(v.major, s1);
    DottedNumberOf(v.minor, s2);
    TailNotDigit(v);
    NumberLengthOf(v.patch, Tail(v));
    assert s2[..|v.patch|] == v.patch && s2[|v.patch|..] == Tail(v);
    ReadTailOf(v);
  }

  lemma DottedNumberOf(a: seq<byte>, rest: seq<byte>)
    requires Canonical(a) && Value(a) <= ULONG_MAX
    ensures var s := Glue(a, rest); DottedNumber(s) == |a| && s[..|a|] == a && s[|a| + 1..] == rest
  {
    hide NumberLength;
    GlueParts(a, rest);
    NumberLengthOf(a, [DOT] + rest);
  }

  lemma TailNotDigit(v: Version)
    ensures Tail(v) != [] ==> !IsDigit(Tail(v)[0])
  {
  }

  lemma NotEmpty(v: Version)
    requires Valid(v)
    ensures |v.major| > 0 && |v.minor| > 0 && |v.patch| > 0
  {
  }
}
