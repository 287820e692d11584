/**
 * One hand-over to the modem: AT+CMGS as a prompt transaction without retries, and the
 * message reference in its response. It is what one Submit step of the sending machine does.
 */
module Cmgs {
  import opened Bytes
  import opened AtProtocol
  import opened AtEngine
  import AtParser
  import opened SemVer
  import opened SemVerText
  import opened Submit

  predicate IsSpace(c: byte) {
    c == 32 || 9 <= c <= 13
  }

  function SkipSpaces(s: seq<byte>): (r: seq<byte>)
    ensures |r| <= |s| && (r != [] ==> !IsSpace(r[0]))
  {
    if s != [] && IsSpace(s[0]) then SkipSpaces(s[1..]) else s
  }

  /** The number strtol reads, if it is a reference: an optional sign, digits, at most 255. */
  function NumberIn(s: seq<byte>): (r: Option<byte>) {
    var signed := s != [] && (s[0] == PLUS || s[0] == MINUS);
    var digits := if signed then s[1..] else s;
    var n := DigitRun(digits);
    if n == 0 || Value(digits[..n]) > (if signed && s[0] == MINUS then 0 else 255) then None
    else Some(Value(digits[..n]))
  }

  function ReferenceIn(line: seq<byte>): Option<byte> {
    var prefix := Ascii("+CMGS:");
    if HasPrefix(line, prefix) then NumberIn(SkipSpaces(line[|prefix|..])) else None
  }

  /** parse_cmgs_reference: the reference of the first line that has one. */
  method ParseCmgsReference(lines: seq<seq<byte>>) returns (r: Option<byte>)
    ensures r == FirstReference(lines)
    ensures r.None? <==> forall i :: 0 <= i < |lines| ==> ReferenceIn(lines[i]).None?
  {
    hide ReferenceIn;
    assert lines[0..] == lines;
    for i := 0 to |lines|
      invariant forall j :: 0 <= j < i ==> ReferenceIn(lines[j]).None?
      invariant FirstReference(lines) == FirstReference(lines[i..])
    {
      assert lines[i..][0] == lines[i] && lines[i..][1..] == lines[i + 1..];
      var found := ReferenceIn(lines[i]);
      if found.Some? {
        return found;
      }
    }
    return None;
  }

  /** A number behind the prefix is the reference if and only if it is at most 255, whatever follows it. */
  lemma ReferenceExactly(spaces: seq<byte>, digits: seq<byte>, rest: seq<byte>)
    requires (forall i :: 0 <= i < |spaces| ==> IsSpace(spaces[i])) && digits != [] && AllDigits(digits) && (rest != [] ==> !IsDigit(rest[0]))
    ensures ReferenceIn(Ascii("+CMGS:") + (spaces + (digits + rest))) == if Value(digits) <= 255 then Some(Value(digits)) else None
  {
    hide Value, DigitRun;
    var prefix, s := Ascii("+CMGS:"), digits + rest;
    var line := prefix + (spaces + s);
    assert line[..|prefix|] == prefix && line[|prefix|..] == spaces + s;
    assert s[0] == digits[0] && IsDigit(digits[0]);
    SpacesSkipped(spaces, s);
    var n := DigitRun(s);
    RunIs(digits, rest);
    assert s[..n] == digits;
  }

  /** Without a digit there is no reference. */
  lemma NoReference(spaces: seq<byte>, rest: seq<byte>)
    requires (forall i :: 0 <= i < |spaces| ==> IsSpace(spaces[i])) && (rest != [] ==> !IsDigit(rest[0]) && !IsSpace(rest[0]) && rest[0] != PLUS && rest[0] != MINUS)
    ensures ReferenceIn(Ascii("+CMGS:") + (spaces + rest)) == None
  {
    var prefix := Ascii("+CMGS:");
    var line := prefix + (spaces + rest);
    assert line[..|prefix|] == prefix && line[|prefix|..] == spaces + rest;
    SpacesSkipped(spaces, rest);
  }

  lemma {:induction false} SpacesSkipped(spaces: seq<byte>, s: seq<byte>)
    requires (forall i :: 0 <= i < |spaces| ==> IsSpace(spaces[i])) && (s != [] ==> !IsSpace(s[0]))
    ensures SkipSpaces(spaces + s) == s
    decreases |spaces|
  {
    if spaces == [] {
      assert spaces + s == s;
    } else {
      assert (spaces + s)[1..] == spaces[1..] + s;
      SpacesSkipped(spaces[1..], s);
    }
  }

  lemma {:induction false} RunIs(digits: seq<byte>, rest: seq<byte>)
    requires AllDigits(digits) && (rest != [] ==> !IsDigit(rest[0]))
    ensures DigitRun(digits + rest) == |digits|
    decreases |digits|
  {
    if digits == [] {
      assert digits + rest == rest;
    } else {
      assert (digits + rest)[1..] == digits[1..] + rest;
      assert forall i :: 0 <= i < |digits[1..]| ==> digits[1..][i] == digits[i + 1];
      RunIs(digits[1..], rest);
    }
  }

  function Decimal(n: nat): seq<byte>
    decreases n
  {
    (if n < 10 then [] else Decimal(n / 10)) + [ZERO + n % 10]
  }

  /** The command line for a TPDU of that many octets. */
  function CmgsCommand(octets: nat): seq<byte> {
    Ascii("AT+CMGS=") + Decimal(octets)
  }

  /** What ends the PDU behind the prompt. */
  const CTRL_Z: byte := 0x1A

  /** The PDU of a segment as it goes to the modem. */
  function PayloadFor(segment: Segment): seq<byte> {
    segment.pduHex + [CTRL_Z]
  }

  /** The request of send_segment: one attempt, never repeated. */
  function CmgsRequest(segment: Segment): Request {
    Request(CmgsCommand(segment.tpduLength), [Ascii("+CMGS:")], 1, {}, true, PayloadFor(segment))
  }

  /** The reference of the first line that has one. */
  function FirstReference(lines: seq<seq<byte>>): Option<byte> {
    if lines == [] then None
    else if ReferenceIn(lines[0]).Some? then ReferenceIn(lines[0])
    else FirstReference(lines[1..])
  }

  /** The hand-over of a segment over a channel: the answer in what the modem sends, and the channel behind it. */
  function HandOver(c: Channel, segment: Segment, idle: seq<Turn>, env: nat -> AttemptEnv): (Option<byte>, Channel) {
    var o := RequestOf(c.parser, CmgsRequest(segment), idle, env);
    (if o.result == Ok then FirstReference(o.lines) else None, Channel(o.parser, c.said + o.acts))
  }

  /** What a hand-over says. */
  function Said(c: Channel, segment: Segment, idle: seq<Turn>, env: nat -> AttemptEnv): seq<Act> {
    RequestOf(c.parser, CmgsRequest(segment), idle, env).acts
  }

  /** The line is AT+CMGS= with that number in plain digits, and a carriage return. */
  predicate ShowsLength(line: seq<byte>, octets: nat) {
    && |line| > 9 && line[..8] == [65, 84, 43, 67, 77, 71, 83, 61] && line[|line| - 1] == 13
    && Canonical(line[8..|line| - 1]) && Value(line[8..|line| - 1]) == octets
  }

  lemma {:induction false} DecimalShows(n: nat)
    ensures Canonical(Decimal(n)) && Value(Decimal(n)) == n
    decreases n
  {
    var d, last := (if n < 10 then [] else Decimal(n / 10)), ZERO + n % 10;
    assert Decimal(n) == d + [last];
    assert Decimal(n)[..|d|] == d;
    if n >= 10 {
      DecimalShows(n / 10);
      assert n / 10 < 10 ==> d == [ZERO + n / 10] by { assert n / 10 < 10 ==> Decimal(n / 10) == [] + [ZERO + n / 10]; }
      assert d[0] == Decimal(n)[0];
      FirstDigit(n / 10);
    }
  }

  /** A positive number begins with no zero. */
  lemma {:induction false} FirstDigit(n: nat)
    requires n > 0
    ensures Decimal(n)[0] != ZERO
    decreases n
  {
    if n >= 10 {
      FirstDigit(n / 10);
      assert Decimal(n)[0] == Decimal(n / 10)[0];
    } else {
      assert Decimal(n) == [] + [ZERO + n];
    }
  }

  lemma CommandShowsLength(octets: nat)
    ensures ShowsLength(CmgsCommand(octets) + [AtParser.CR], octets)
  {
    hide Value, Canonical;
    DecimalShows(octets);
    var line := CmgsCommand(octets) + [AtParser.CR];
    var prefix := Ascii("AT+CMGS=");
    assert prefix == [65, 84, 43, 67, 77, 71, 83, 61];
    assert line[8..|line| - 1] == Decimal(octets);
  }

  /**
   * One hand-over sends nothing but the command that shows the length of the segment and its PDU with Ctrl-Z
   * behind it, the PDU at most once, and it has an answer only if the PDU was written before the final OK.
   */
  lemma HandOverGuarantees(c: Channel, segment: Segment, idle: seq<Turn>, env: nat -> AttemptEnv)
    ensures var (answer, c') := HandOver(c, segment, idle, env);
      var said := Said(c, segment, idle, env);
      && c'.said == c.said + said && !c'.parser.prompt
      && Writes(said) <= 1 && OnlyThese(said, CmgsRequest(segment))
      && (forall i :: 0 <= i < |said| && said[i].Asked? ==> ShowsLength(said[i].line, segment.tpduLength))
      && (forall i :: 0 <= i < |said| && said[i].Wrote? ==> said[i].payload == segment.pduHex + [0x1A])
      && (answer.Some? ==> OkAfterPayload(said, PayloadFor(segment)))
  {
    hide RequestFrom, FirstReference, Writes, OkAfterPayload, AfterIdle, ShowsLength, CmgsCommand;
    WritesPerRequest(AfterIdle(c.parser, idle), CmgsRequest(segment), env, 0);
    CommandShowsLength(segment.tpduLength);
  }

  /** The modem part of send_segment: the answer is what the bytes of the modem amount to. */
  method ExecuteCmgs(engine: Engine, segment: Segment, idle: seq<Turn>, env: nat -> AttemptEnv) returns (answer: Option<byte>)
    requires engine.Valid() && !engine.parser.prompt
    modifies engine, engine.router, engine.parser, engine.parser.line
    ensures engine.Valid() && !engine.parser.prompt
    ensures (answer, engine.Stand()) == HandOver(old(engine.Stand()), segment, idle, env)
  {
    hide RequestOf, ReferenceIn, Used;
    var r, attempts := engine.ExecuteRequest(CmgsRequest(segment), idle, env);
    if r != Ok {
      return None;
    }
    answer := ParseCmgsReference(engine.lines);
  }
}
