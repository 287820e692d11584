/**
 * Semantic versions, sections 2 and 9 to 11 of SemVer 2.0.0: their text, and the order of
 * precedence with its laws. Nothing here is taken from the code that reads and compares them.
 */
module SemVer {
  import opened Bytes

  const DOT: byte := 46
  const MINUS: byte := 45
  const PLUS: byte := 43
  const ZERO: byte := 48

  predicate IsDigit(c: byte) {
    48 <= c <= 57
  }

  predicate IsIdentifierChar(c: byte) {
    IsDigit(c) || 65 <= c <= 90 || 97 <= c <= 122 || c == MINUS
  }

  type Identifier = seq<byte>

  predicate AllDigits(s: seq<byte>) {
    forall i :: 0 <= i < |s| ==> IsDigit(s[i])
  }

  predicate Numeric(s: Identifier) {
    s != [] && AllDigits(s)
  }

  /** The number a row of digits stands for. */
  function Value(s: seq<byte>): nat
    requires AllDigits(s)
  {
    if s == [] then 0 else 10 * Value(s[..|s| - 1]) + (s[|s| - 1] - 48)
  }

  predicate Canonical(s: seq<byte>) {
    Numeric(s) && (|s| > 1 ==> s[0] != ZERO)
  }

  /** Section 9: not empty, only identifier characters, no leading zeros in numbers. */
  predicate ValidPre(s: Identifier) {
    s != [] && (forall i :: 0 <= i < |s| ==> IsIdentifierChar(s[i])) && (Numeric(s) ==> Canonical(s))
  }

  /** Section 10. */
  predicate ValidBuild(s: Identifier) {
    s != [] && forall i :: 0 <= i < |s| ==> IsIdentifierChar(s[i])
  }

  /** The text between dots. */
  function Split(s: seq<byte>): (r: seq<Identifier>)
    ensures |r| > 0
    decreases |s|
  {
    var n := FirstDot(s);
    if n == |s| then [s] else [s[..n]] + Split(s[n + 1..])
  }

  function FirstDot(s: seq<byte>): (n: nat)
    ensures n <= |s| && (n < |s| ==> s[n] == DOT)
    ensures forall i :: 0 <= i < n ==> s[i] != DOT
  {
    if s == [] || s[0] == DOT then 0 else 1 + FirstDot(s[1..])
  }

  predicate ValidPreText(s: seq<byte>) {
    forall i :: 0 <= i < |Split(s)| ==> ValidPre(Split(s)[i])
  }

  predicate ValidBuildText(s: seq<byte>) {
    forall i :: 0 <= i < |Split(s)| ==> ValidBuild(Split(s)[i])
  }

  /** pre and build as text, empty if absent. */
  datatype Version = Version(major: seq<byte>, minor: seq<byte>, patch: seq<byte>, pre: seq<byte>, build: seq<byte>)

  predicate Valid(v: Version) {
    && Canonical(v.major) && Canonical(v.minor) && Canonical(v.patch)
    && (v.pre != [] ==> ValidPreText(v.pre)) && (v.build != [] ==> ValidBuildText(v.build))
  }

  /** The text of a version up to its build metadata, and with it. */
  function Core(v: Version): seq<byte> {
    v.major + [DOT] + v.minor + [DOT] + v.patch + (if v.pre == [] then [] else [MINUS] + v.pre)
  }

  function Render(v: Version): seq<byte> {
    Core(v) + (if v.build == [] then [] else [PLUS] + v.build)
  }

  // ----- precedence, section 11 -----

  function Sign(a: int, b: int): int {
    if a < b then -1 else if a > b then 1 else 0
  }

  /** ASCII order; a proper prefix comes first. */
  function Lex(a: seq<byte>, b: seq<byte>): int {
    if a == [] then (if b == [] then 0 else -1)
    else if b == [] then 1
    else if a[0] != b[0] then Sign(a[0], b[0])
    else Lex(a[1..], b[1..])
  }

  /** Section 11.4: numbers numerically, others in ASCII order, numbers first. */
  function IdentifierOrder(a: Identifier, b: Identifier): int {
    if Numeric(a) && Numeric(b) then Sign(Value(a), Value(b))
    else if Numeric(a) then -1
    else if Numeric(b) then 1
    else Lex(a, b)
  }

  /** Section 11.4.4: more identifiers win if all before are equal. */
  function IdentifiersOrder(a: seq<Identifier>, b: seq<Identifier>): int
    decreases |a|
  {
    if a == [] then (if b == [] then 0 else -1)
    else if b == [] then 1
    else
      var c := IdentifierOrder(a[0], b[0]);
      if c != 0 then c else IdentifiersOrder(a[1..], b[1..])
  }

  /** Section 11.3: a pre-release comes before its release. */
  function PreOrder(a: seq<byte>, b: seq<byte>): int {
    if a == [] then (if b == [] then 0 else 1)
    else if b == [] then -1
    else IdentifiersOrder(Split(a), Split(b))
  }

  function Then(first: int, second: int): int {
    if first != 0 then first else second
  }

  function Precedence(a: Version, b: Version): int
    requires Valid(a) && Valid(b)
  {
    Then(Sign(Value(a.major), Value(b.major)),
         Then(Sign(Value(a.minor), Value(b.minor)),
              Then(Sign(Value(a.patch), Value(b.patch)), PreOrder(a.pre, b.pre))))
  }

  /** Numbers decide first, from major to patch; then a release is above its pre-releases, and these follow their identifiers. */
  ghost predicate Newer(a: Version, b: Version)
    requires Valid(a) && Valid(b)
  {
    || Value(a.major) > Value(b.major)
    || (Value(a.major) == Value(b.major)
        && (|| Value(a.minor) > Value(b.minor)
            || (Value(a.minor) == Value(b.minor)
                && (|| Value(a.patch) > Value(b.patch)
                    || (Value(a.patch) == Value(b.patch) && b.pre != [] && (a.pre == [] || IdentifiersOrder(Split(a.pre), Split(b.pre)) > 0))))))
  }

  lemma PrecedenceIsNewer(a: Version, b: Version)
    requires Valid(a) && Valid(b)
    ensures Precedence(a, b) > 0 <==> Newer(a, b)
    ensures Precedence(a, b) < 0 <==> Newer(b, a)
  {
    hide IdentifiersOrder, Value;
    if a.pre != [] && b.pre != [] { IdentifiersLaws(Split(a.pre), Split(b.pre), Split(a.pre)); }
  }

  /** The example of section 11.4: alpha, alpha.1, alpha.beta, beta, beta.2, beta.11, rc.1 ascend. */
  lemma SectionElevenExample()
    ensures var alpha, beta, rc: seq<byte> := [97, 108, 112, 104, 97], [98, 101, 116, 97], [114, 99];
      var one, two, eleven: seq<byte> := [49], [50], [49, 49];
      && IdentifiersOrder([alpha], [alpha, one]) < 0 && IdentifiersOrder([alpha, one], [alpha, beta]) < 0
      && IdentifiersOrder([alpha, beta], [beta]) < 0 && IdentifiersOrder([beta], [beta, two]) < 0
      && IdentifiersOrder([beta, two], [beta, eleven]) < 0 && IdentifiersOrder([beta, eleven], [rc, one]) < 0
  {
    hide Lex, Value;
    var alpha, beta, rc: seq<byte> := [97, 108, 112, 104, 97], [98, 101, 116, 97], [114, 99];
    var one, two, eleven: seq<byte> := [49], [50], [49, 49];
    assert [alpha, one][1..] == [one] && [alpha, beta][1..] == [beta] && [beta, two][1..] == [two] && [beta, eleven][1..] == [eleven];
    var a, b: seq<Identifier> := [alpha], [beta];
    assert a[1..] == [] && b[1..] == [] && [rc, one][1..] == [one];
    assert !Numeric(alpha) && !Numeric(beta) && !Numeric(rc) by { assert !IsDigit(alpha[0]) && !IsDigit(beta[0]) && !IsDigit(rc[0]); }
    assert Numeric(one) && Numeric(two) && Numeric(eleven);
    SameText(alpha);
    SameText(beta);
    FirstDiffers(alpha, beta);
    FirstDiffers(beta, rc);
    SmallValues();
  }

  lemma {:induction false} SameText(a: seq<byte>)
    ensures Lex(a, a) == 0
  {
    LexLaws(a, a, a);
  }

  lemma FirstDiffers(a: seq<byte>, b: seq<byte>)
    requires a != [] && b != [] && a[0] < b[0]
    ensures Lex(a, b) == -1
  {
  }

  lemma SmallValues()
    ensures AllDigits([49]) && AllDigits([50]) && AllDigits([49, 49]) && Value([49]) == 1 && Value([50]) == 2 && Value([49, 49]) == 11
  {
    assert [49][..0] == [] && [50][..0] == [] && [49, 49][..1] == [49];
  }

  // ----- its laws -----

  /** x, y and z are how a stands to b, b to c and a to c in a total preorder. */
  predicate Transitive(x: int, y: int, z: int) {
    && (x <= 0 && y <= 0 ==> z <= 0)
    && (x < 0 && y <= 0 ==> z < 0)
    && (x <= 0 && y < 0 ==> z < 0)
    && (x == 0 && y == 0 ==> z == 0)
    && (x >= 0 && y >= 0 ==> z >= 0)
    && (x > 0 && y >= 0 ==> z > 0)
    && (x >= 0 && y > 0 ==> z > 0)
  }

  lemma {:induction false} LexLaws(a: seq<byte>, b: seq<byte>, c: seq<byte>)
    ensures Lex(a, b) == -Lex(b, a)
    ensures Lex(a, b) == 0 <==> a == b
    ensures Transitive(Lex(a, b), Lex(b, c), Lex(a, c))
    decreases |a| + |b|
  {
    if a != [] && b != [] {
      var c' := if c == [] then [] else c[1..];
      LexLaws(a[1..], b[1..], c');
      assert a == [a[0]] + a[1..] && b == [b[0]] + b[1..];
    }
  }

  lemma {:induction false} ValueBounds(s: seq<byte>)
    requires AllDigits(s)
    ensures Value(s) < Pow10(|s|)
    ensures s != [] && s[0] != ZERO ==> Value(s) >= Pow10(|s| - 1)
  {
    if s != [] {
      var init := s[..|s| - 1];
      ValueBounds(init);
      if |s| > 1 { assert init[0] == s[0]; }
    }
  }

  function Pow10(n: nat): (p: nat)
    ensures p > 0
  {
    if n == 0 then 1 else 10 * Pow10(n - 1)
  }

  lemma {:induction false} Pow10Grows(m: nat, n: nat)
    requires m <= n
    ensures Pow10(m) <= Pow10(n)
    decreases n - m
  {
    if m < n { Pow10Grows(m, n - 1); }
  }

  /** Fewer digits, smaller number. */
  lemma ShorterIsSmaller(a: seq<byte>, b: seq<byte>)
    requires Canonical(a) && Canonical(b) && |a| < |b|
    ensures Value(a) < Value(b)
  {
    ValueBounds(a);
    ValueBounds(b);
    Pow10Grows(|a|, |b| - 1);
  }

  /** For the same number of digits ASCII order is numeric order. */
  lemma {:induction false} SameLengthLex(a: seq<byte>, b: seq<byte>)
    requires AllDigits(a) && AllDigits(b) && |a| == |b|
    ensures Lex(a, b) == Sign(Value(a), Value(b))
    ensures Value(a) == Value(b) <==> a == b
    decreases |a|
  {
    if a != [] {
      var n := |a| - 1;
      SameLengthLex(a[..n], b[..n]);
      LexSnoc(a[..n], b[..n], a[n], b[n]);
      assert a == a[..n] + [a[n]] && b == b[..n] + [b[n]];
    }
  }

  lemma {:induction false} LexSnoc(a: seq<byte>, b: seq<byte>, x: byte, y: byte)
    requires |a| == |b|
    ensures Lex(a + [x], b + [y]) == Then(Lex(a, b), Sign(x, y))
    decreases |a|
  {
    if a == [] {
      assert a + [x] == [x] && b + [y] == [y];
      assert Lex([x][1..], [y][1..]) == 0;
    } else {
      assert (a + [x])[1..] == a[1..] + [x] && (b + [y])[1..] == b[1..] + [y];
      LexSnoc(a[1..], b[1..], x, y);
    }
  }

  lemma ValueInjective(a: seq<byte>, b: seq<byte>)
    requires Canonical(a) && Canonical(b)
    ensures Value(a) == Value(b) <==> a == b
  {
    if |a| < |b| { ShorterIsSmaller(a, b); }
    else if |b| < |a| { ShorterIsSmaller(b, a); }
    else { SameLengthLex(a, b); }
  }

  lemma IdentifierLaws(a: Identifier, b: Identifier, c: Identifier)
    requires ValidPre(a) && ValidPre(b)
    ensures IdentifierOrder(a, b) == -IdentifierOrder(b, a)
    ensures IdentifierOrder(a, b) == 0 <==> a == b
    ensures Transitive(IdentifierOrder(a, b), IdentifierOrder(b, c), IdentifierOrder(a, c))
  {
    hide Lex, Value;
    LexLaws(a, b, c);
    if Numeric(a) && Numeric(b) { ValueInjective(a, b); }
  }

  lemma {:induction false} IdentifiersLaws(a: seq<Identifier>, b: seq<Identifier>, c: seq<Identifier>)
    requires forall i :: 0 <= i < |a| ==> ValidPre(a[i])
    requires forall i :: 0 <= i < |b| ==> ValidPre(b[i])
    ensures IdentifiersOrder(a, b) == -IdentifiersOrder(b, a)
    ensures IdentifiersOrder(a, b) == 0 <==> a == b
    ensures Transitive(IdentifiersOrder(a, b), IdentifiersOrder(b, c), IdentifiersOrder(a, c))
    decreases |a| + |b|
  {
    hide IdentifierOrder, ValidPre;
    if a != [] && b != [] {
      var c0, c' := if c == [] then [] else c[0], if c == [] then [] else c[1..];
      IdentifierLaws(a[0], b[0], c0);
      IdentifiersLaws(a[1..], b[1..], c');
      assert a == [a[0]] + a[1..] && b == [b[0]] + b[1..];
    }
  }

  lemma {:induction false} SplitInjective(a: seq<byte>, b: seq<byte>)
    requires Split(a) == Split(b)
    ensures a == b
    decreases |a|
  {
    hide Split, FirstDot;
    var n, m := FirstDot(a), FirstDot(b);
    SplitParts(a);
    SplitParts(b);
    if n < |a| {
      SplitInjective(a[n + 1..], b[m + 1..]);
      assert a == a[..n] + [DOT] + a[n + 1..] && b == b[..m] + [DOT] + b[m + 1..];
    }
  }

  /** The first identifier and the others. */
  lemma SplitParts(s: seq<byte>)
    ensures var n := FirstDot(s);
      && Split(s)[0] == s[..n]
      && Split(s)[1..] == (if n < |s| then Split(s[n + 1..]) else [])
  {
    hide Split, FirstDot;
    var n := FirstDot(s);
    SplitUnfolds(s);
    if n < |s| {
      var all, rest := Split(s), Split(s[n + 1..]);
      assert all[0] == s[..n] && all[1..] == rest;
    } else {
      assert s[..n] == s;
    }
  }

  lemma SplitUnfolds(s: seq<byte>)
    ensures var n := FirstDot(s); Split(s) == if n == |s| then [s] else [s[..n]] + Split(s[n + 1..])
  {
    hide FirstDot;
  }

  lemma PreLaws(a: seq<byte>, b: seq<byte>, c: seq<byte>)
    requires a != [] ==> ValidPreText(a)
    requires b != [] ==> ValidPreText(b)
    ensures PreOrder(a, b) == -PreOrder(b, a)
    ensures PreOrder(a, b) == 0 <==> a == b
    ensures Transitive(PreOrder(a, b), PreOrder(b, c), PreOrder(a, c))
  {
    hide IdentifiersOrder, ValidPre;
    if a != [] && b != [] {
      IdentifiersLaws(Split(a), Split(b), Split(c));
      if Split(a) == Split(b) { SplitInjective(a, b); }
    }
  }

  lemma ThenTransitive(x: int, y: int, z: int, x': int, y': int, z': int)
    requires Transitive(x, y, z) && Transitive(x', y', z')
    ensures Transitive(Then(x, x'), Then(y, y'), Then(z, z'))
  {
  }

  /** Precedence is a total preorder, and only build metadata makes no difference. */
  lemma PrecedenceLaws(a: Version, b: Version, c: Version)
    requires Valid(a) && Valid(b) && Valid(c)
    ensures Precedence(a, b) == -Precedence(b, a)
    ensures Transitive(Precedence(a, b), Precedence(b, c), Precedence(a, c))
    ensures Precedence(a, b) == 0 <==> a == b.(build := a.build)
  {
    hide Value, PreOrder, ValidPreText, ValidBuildText;
    PreLaws(a.pre, b.pre, c.pre);
    ValueInjective(a.major, b.major);
    ValueInjective(a.minor, b.minor);
    ValueInjective(a.patch, b.patch);
    var p1, p2, p3 := PreOrder(a.pre, b.pre), PreOrder(b.pre, c.pre), PreOrder(a.pre, c.pre);
    var q1, q2, q3 := Sign(Value(a.patch), Value(b.patch)), Sign(Value(b.patch), Value(c.patch)), Sign(Value(a.patch), Value(c.patch));
    var n1, n2, n3 := Sign(Value(a.minor), Value(b.minor)), Sign(Value(b.minor), Value(c.minor)), Sign(Value(a.minor), Value(c.minor));
    var m1, m2, m3 := Sign(Value(a.major), Value(b.major)), Sign(Value(b.major), Value(c.major)), Sign(Value(a.major), Value(c.major));
    ThenTransitive(q1, q2, q3, p1, p2, p3);
    ThenTransitive(n1, n2, n3, Then(q1, p1), Then(q2, p2), Then(q3, p3));
    ThenTransitive(m1, m2, m3, Then(n1, Then(q1, p1)), Then(n2, Then(q2, p2)), Then(n3, Then(q3, p3)));
  }
}
