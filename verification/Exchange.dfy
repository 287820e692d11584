/**
 * The exchange a hand-over hopes for: the modem shows its prompt, takes the PDU, and answers with a
 * reference and OK. From which states of the line parser the service then gets that reference.
 */
module Exchange {
  import opened Bytes
  import opened AtProtocol
  import opened AtEngine
  import opened Submit
  import opened Cmgs
  import SemVer
  import SemVerText
  import P = AtParser

  const SPACE: byte := 32

  /** What the modem sends, with the prompt in front of the payload and the rest behind it. */
  function Dialogue(r: byte): seq<byte> {
    [P.CR, P.LF, P.GREATER, SPACE] + ([P.CR, P.LF] + ReferenceLine(r) + [P.CR] + ([P.LF, P.CR, P.LF] + Ascii("OK") + [P.CR] + [P.LF]))
  }

  function ReferenceLine(r: byte): seq<byte> {
    Ascii("+CMGS: ") + Decimal(r)
  }

  // ----- what the engine gets to see -----

  predicate OnlyEnds(s: seq<byte>) {
    forall i :: 0 <= i < |s| ==> P.IsEnd(s[i])
  }

  lemma {:induction false} BlankSaysNothing(req: Request, s: seq<byte>)
    requires OnlyEnds(s)
    ensures Listen(P.RESET, req, s) == (P.RESET, [])
    decreases |s|
  {
    if s != [] {
      var n := |s| - 1;
      BlankSaysNothing(req, s[..n]);
      assert P.IsEnd(s[n]);
      assert P.Step(P.RESET, s[n]) == (P.RESET, []);
      assert Listen(P.RESET, req, s[..n]).1 + [] == [];
    }
  }

  /** A line of text is seen as that line. */
  lemma LineIsSeen(req: Request, text: seq<byte>)
    requires 0 < |text| <= P.MAX_LINE && forall i :: 0 <= i < |text| ==> !P.IsEnd(text[i])
    ensures Listen(P.RESET, req, text + [P.CR]) == (P.RESET, [P.Line(text)])
  {
    hide P.Step, Listen;
    P.FeedInsideLine(text);
    ListenIsFeed(P.RESET, req, text);
    ListenSnoc(P.RESET, req, text, P.CR);
    P.LineEnds(text, P.CR);
    assert Listen(P.RESET, req, text) == (P.Held(text), []);
    assert P.ReadLine(text) == [P.Line(text)] && !StartsWithPrompt([P.Line(text)]);
    assert [] + [P.Line(text)] == [P.Line(text)];
  }

  /** A blank stretch and a line. */
  lemma BlankAndLine(req: Request, blank: seq<byte>, text: seq<byte>)
    requires OnlyEnds(blank) && 0 < |text| <= P.MAX_LINE && forall i :: 0 <= i < |text| ==> !P.IsEnd(text[i])
    ensures Listen(P.RESET, req, blank + text + [P.CR]) == (P.RESET, [P.Line(text)])
  {
    hide Listen;
    BlankSaysNothing(req, blank);
    LineIsSeen(req, text);
    ListenConcat(P.RESET, req, blank, text + [P.CR]);
    assert blank + text + [P.CR] == blank + (text + [P.CR]);
    assert [] + [P.Line(text)] == [P.Line(text)];
  }

  /** What the first line end makes of what the parser still held. */
  function LeftOver(q: P.State): seq<P.Token> {
    if q.discarding then [P.Overflow] else if q.line == [] then [] else [P.Line(q.line)]
  }

  lemma PromptIsSeen(q: P.State, req: Request)
    requires req.waitForPrompt
    ensures Listen(q.(prompt := true), req, [P.CR, P.LF, P.GREATER, SPACE]) == (P.RESET, LeftOver(q) + [P.Prompt])
  {
    hide Listen;
    var p := q.(prompt := true);
    var open := P.RESET.(prompt := true);
    ListenNone(p, req);
    ListenSnoc(p, req, [], P.CR);
    assert [] + [P.CR] == [P.CR] && [] + LeftOver(q) == LeftOver(q);
    assert Listen(p, req, [P.CR]) == (open, LeftOver(q));
    ListenSnoc(p, req, [P.CR], P.LF);
    assert [P.CR] + [P.LF] == [P.CR, P.LF] && LeftOver(q) + [] == LeftOver(q);
    ListenSnoc(p, req, [P.CR, P.LF], P.GREATER);
    assert [P.CR, P.LF] + [P.GREATER] == [P.CR, P.LF, P.GREATER];
    ListenSnoc(p, req, [P.CR, P.LF, P.GREATER], SPACE);
    assert [P.CR, P.LF, P.GREATER] + [SPACE] == [P.CR, P.LF, P.GREATER, SPACE];
    assert LeftOver(q) + [P.Prompt] + [] == LeftOver(q) + [P.Prompt];
  }

  lemma PrefixIs()
    ensures Ascii("+CMGS: ") == [43, 67, 77, 71, 83, 58, 32]
  {
  }

  lemma PlainText(r: byte)
    ensures var t := ReferenceLine(r); 7 < |t| <= 10 + 7 && t[0] == 43 && 0 !in t && forall i :: 0 <= i < |t| ==> !P.IsEnd(t[i])
    ensures ReferenceLine(r)[..7] == [43, 67, 77, 71, 83, 58, 32] && ReferenceLine(r)[7..] == Decimal(r)
  {
    hide Decimal, SemVer.Value, Ascii;
    DecimalShows(r);
    ShortDecimal(r);
    PrefixIs();
    var t, d := ReferenceLine(r), Decimal(r);
    assert t[7..] == d;
    forall i | 0 <= i < |t| ensures !P.IsEnd(t[i]) && t[i] != 0 {
      if i >= 7 {
        assert t[i] == d[i - 7] && SemVer.IsDigit(d[i - 7]);
      }
    }
  }

  lemma {:induction false} ShortDecimal(n: nat)
    requires n < 1000
    ensures 1 <= |Decimal(n)| <= 3
    decreases n
  {
    if n >= 100 {
      assert n / 10 / 10 < 10;
      assert Decimal(n / 10) == Decimal(n / 10 / 10) + [SemVer.ZERO + n / 10 % 10];
      assert Decimal(n / 10 / 10) == [] + [SemVer.ZERO + n / 10 / 10];
    } else if n >= 10 {
      assert Decimal(n / 10) == [] + [SemVer.ZERO + n / 10];
    }
  }

  /** The reference in that line is r. */
  lemma ReferenceIsRead(r: byte)
    ensures ReferenceIn(ReferenceLine(r)) == Some(r)
  {
    hide SemVerText.DigitRun, SemVer.Value;
    PlainText(r);
    DecimalShows(r);
    var t, d := ReferenceLine(r), Decimal(r);
    var prefix := Ascii("+CMGS:");
    assert prefix == [43, 67, 77, 71, 83, 58];
    assert t[..6] == t[..7][..6];
    var rest := t[6..];
    assert rest[0] == t[6] == t[..7][6] && rest[1..] == t[7..] == d;
    assert SemVer.IsDigit(d[0]);
    assert SkipSpaces(d) == d;
    assert SkipSpaces(rest) == d;
    var n := SemVerText.DigitRun(d);
    assert n == |d|;
    assert d[..n] == d;
  }

  /** The tokens of the whole exchange. */
  lemma DialogueIsSeen(q: P.State, req: Request, r: byte)
    requires req.waitForPrompt
    ensures Listen(q.(prompt := true), req, Dialogue(r)).1 == LeftOver(q) + [P.Prompt, P.Line(ReferenceLine(r)), P.Line(Ascii("OK"))]
  {
    hide Listen, ReferenceLine, LeftOver;
    var t, ok := ReferenceLine(r), Ascii("OK");
    PlainText(r);
    assert ok == [79, 75];
    PromptIsSeen(q, req);
    BlankAndLine(req, [P.CR, P.LF], t);
    BlankAndLine(req, [P.LF, P.CR, P.LF], ok);
    BlankSaysNothing(req, [P.LF]);
    var a, b := [P.CR, P.LF] + t + [P.CR], [P.LF, P.CR, P.LF] + ok + [P.CR];
    ListenConcat(P.RESET, req, b, [P.LF]);
    assert [P.Line(ok)] + [] == [P.Line(ok)];
    ListenConcat(P.RESET, req, a, b + [P.LF]);
    assert [P.Line(t)] + [P.Line(ok)] == [P.Line(t), P.Line(ok)];
    ListenConcat(q.(prompt := true), req, [P.CR, P.LF, P.GREATER, SPACE], a + (b + [P.LF]));
    assert LeftOver(q) + [P.Prompt] + [P.Line(t), P.Line(ok)] == LeftOver(q) + [P.Prompt, P.Line(t), P.Line(ok)];
  }

  // ----- and what it makes of it -----

  function Expected(): seq<seq<byte>> {
    [Ascii("+CMGS:")]
  }

  /** What the parser still holds when the hand-over begins does not get in the way. */
  predicate Harmless(q: P.State, segment: Segment, r: byte) {
    && !q.discarding
    && (q.line == [] || BeforeNul(q.line) == CmgsCommand(segment.tpduLength) || HarmlessLine(BeforeNul(q.line), r))
  }

  /** No final line, no header that takes the next line along, and no other reference. */
  predicate HarmlessLine(h: seq<byte>, r: byte) {
    && FinalKind(h).NoFinal?
    && if RoutesAsUrc(h, Expected()) then ContinuationLines(h) == 0 else ReferenceIn(h) == None || ReferenceIn(h) == Some(r)
  }

  lemma ReferenceLineIsNeither(r: byte, octets: nat)
    ensures var t := ReferenceLine(r);
      !RoutesAsUrc(t, Expected()) && FinalKind(t).NoFinal? && t != CmgsCommand(octets) && BeforeNul(t) == t && |t| <= 17
  {
    hide Decimal, BeforeNul, IsDefaultUrc;
    PlainText(r);
    var t := ReferenceLine(r);
    var expected := Ascii("+CMGS:");
    assert expected == [43, 67, 77, 71, 83, 58];
    assert t[..6] == t[..7][..6] == expected;
    assert HasPrefix(t, Expected()[0]);
    var text: CString := t;
    BeforeNulOfText(text);
    NotFinal(t);
    var command := CmgsCommand(octets);
    assert command[0] == 65 by { assert Ascii("AT+CMGS=")[0] == 65; }
  }

  lemma NotFinal(t: seq<byte>)
    requires |t| > 3 && t[0] == 43 && t[3] == 71
    ensures FinalKind(t).NoFinal?
  {
    var ok, error, cme, cms := Ascii("OK"), Ascii("ERROR"), Ascii("+CME ERROR:"), Ascii("+CMS ERROR:");
    assert ok[0] == 79 && error[0] == 69 && |cme| == 11 && cme[3] == 69 && |cms| == 11 && cms[3] == 83;
  }

  lemma OkIsOutside(octets: nat)
    ensures var ok := Ascii("OK");
      !RoutesAsUrc(ok, Expected()) && FinalKind(ok) == FinalOk && ok != CmgsCommand(octets) && BeforeNul(ok) == ok
  {
    hide Decimal, BeforeNul, IsDefaultUrc;
    var ok := Ascii("OK");
    assert ok == [79, 75];
    FinalIsNeverUrc(ok);
    var text: CString := ok;
    BeforeNulOfText(text);
    assert CmgsCommand(octets)[0] == 65 by { assert Ascii("AT+CMGS=")[0] == 65; }
  }

  /** The lines that are left of a stale line, the reference and perhaps OK. */
  lemma AnswerOf(stale: seq<seq<byte>>, lines: seq<seq<byte>>)
    requires |stale| <= 1 && lines != [] && forall i :: 0 <= i < |lines| ==> !RoutesAsUrc(lines[i], Expected())
    ensures Answer(stale + lines, Expected())
         == if stale == [] then lines
            else if !RoutesAsUrc(stale[0], Expected()) then stale + lines
            else if ContinuationLines(stale[0]) == 0 then lines else lines[1..]
  {
    hide RoutesAsUrc, ContinuationLines;
    AllAnswer(lines);
    if stale == [] {
      assert stale + lines == lines;
    } else {
      var all := stale + lines;
      assert all[0] == stale[0] && all[1..] == lines && all[2..] == lines[1..];
      assert stale == [stale[0]];
      AllAnswer(lines[1..]);
    }
  }

  lemma {:induction false} AllAnswer(lines: seq<seq<byte>>)
    requires forall i :: 0 <= i < |lines| ==> !RoutesAsUrc(lines[i], Expected())
    ensures Answer(lines, Expected()) == lines
    decreases |lines|
  {
    hide RoutesAsUrc, ContinuationLines;
    if lines != [] {
      AllAnswer(lines[1..]);
      assert lines == [lines[0]] + lines[1..];
    }
  }

  /** The stale line as the transaction hears it. */
  function Stale(q: P.State, segment: Segment): seq<seq<byte>> {
    if q.line == [] || BeforeNul(q.line) == CmgsCommand(segment.tpduLength) then [] else [BeforeNul(q.line)]
  }

  lemma HeardFirst(q: P.State, segment: Segment, r: byte)
    requires !q.discarding
    ensures Heard(LeftOver(q) + [P.Prompt, P.Line(ReferenceLine(r))], CmgsRequest(segment)) == Stale(q, segment) + [ReferenceLine(r)]
  {
    hide CmgsCommand, ReferenceLine, Heard, BeforeNul;
    var req, t := CmgsRequest(segment), ReferenceLine(r);
    ReferenceLineIsNeither(r, segment.tpduLength);
    var a := LeftOver(q);
    assert Heard([], req) == [] by { HeardNothing(req); }
    if a != [] {
      HeardSnoc([], P.Line(q.line), req);
      assert [] + [P.Line(q.line)] == a && [] + [BeforeNul(q.line)] == [BeforeNul(q.line)];
    }
    HeardSnoc(a, P.Prompt, req);
    HeardSnoc(a + [P.Prompt], P.Line(t), req);
    assert a + [P.Prompt] + [P.Line(t)] == a + [P.Prompt, P.Line(t)];
  }

  lemma HeardNothing(req: Request)
    ensures Heard([], req) == []
  {
  }

  lemma NothingUsed()
    ensures Used([]) == 0
  {
  }

  lemma FitsTwo(h: seq<byte>, t: seq<byte>)
    requires |h| <= 512 && |t| <= 17
    ensures FitsResponse([]) && FitsResponse([t]) && FitsResponse([h, t])
  {
    hide Used;
    NothingUsed();
    UsedSnoc([], t);
    UsedSnoc([], h);
    UsedSnoc([h], t);
    assert [] + [t] == [t] && [] + [h] == [h] && [h] + [t] == [h, t];
  }

  /** Unless the stale line is final, the exchange ends with OK, and these lines are the response. */
  lemma ExchangeSucceeds(q: P.State, segment: Segment, env: AttemptEnv, r: byte)
    requires env.sending == Sent && Undisturbed(env.turns) && StreamOf(env.turns) == Dialogue(r) && P.Bounded(q)
    requires !q.discarding && (Stale(q, segment) != [] ==> FinalKind(Stale(q, segment)[0]).NoFinal?)
    ensures var (result, k) := AttemptOf(q, CmgsRequest(segment), env);
      result == Ok && k.tx.lines == Answer(Stale(q, segment) + [ReferenceLine(r)], Expected())
  {
    hide CmgsCommand, ReferenceLine, Heard, AttemptOf, Listen, Dialogue, Answer, RoutesAsUrc, ContinuationLines, FinalKind, StreamOf, Undisturbed, FitsResponse, BeforeNul;
    var req, t, ok, stale := CmgsRequest(segment), ReferenceLine(r), Ascii("OK"), Stale(q, segment);
    var before := LeftOver(q) + [P.Prompt, P.Line(t)];
    DialogueIsSeen(q, req, r);
    assert Started(q, req).parser == q.(prompt := true);
    assert LeftOver(q) + [P.Prompt, P.Line(t), P.Line(ok)] == before + [P.Line(ok)] + [];
    ReferenceLineIsNeither(r, segment.tpduLength);
    OkIsOutside(segment.tpduLength);
    HeardFirst(q, segment, r);
    AnswerOf(stale, [t]);
    AnswerOf(stale, [t, ok]);
    assert (stale + [t]) + [ok] == stale + [t, ok];
    assert [t, ok] == [t] + [ok] && [t, ok][1..] == [t][1..] + [ok] && (stale + [t]) + [ok] == stale + [t, ok];
    BeforeNulShorter(q.line);
    FitsTwo(if stale == [] then [] else stale[0], t);
    assert stale != [] ==> stale + [t] == [stale[0], t];
    assert Undecided(before, req);
    assert before[|LeftOver(q)|] == P.Prompt;
    AttemptReports(q, req, env, before, ok, []);
  }

  lemma BeforeNulShorter(s: seq<byte>)
    ensures |BeforeNul(s)| <= |s|
  {
  }

  /** A stale final line ends the attempt before the payload is written. */
  lemma StaleFinalFails(q: P.State, segment: Segment, env: AttemptEnv, r: byte)
    requires env.sending == Sent && Undisturbed(env.turns) && StreamOf(env.turns) == Dialogue(r)
    requires !q.discarding && Stale(q, segment) != [] && !FinalKind(Stale(q, segment)[0]).NoFinal?
    ensures AttemptOf(q, CmgsRequest(segment), env).0 != Ok
  {
    hide CmgsCommand, ReferenceLine, Heard, AttemptOf, Listen, Dialogue, Answer, RoutesAsUrc, ContinuationLines, StreamOf, Undisturbed, FitsResponse, BeforeNul, Ascii;
    var req, t, ok := CmgsRequest(segment), ReferenceLine(r), Ascii("OK");
    var h := BeforeNul(q.line);
    DialogueIsSeen(q, req, r);
    assert Started(q, req).parser == q.(prompt := true);
    var behind := [P.Prompt, P.Line(t), P.Line(ok)];
    assert LeftOver(q) + behind == [] + [P.Line(q.line)] + behind;
    HeardNothing(req);
    FinalAnswer(h);
    assert [] + [h] == [h];
    assert Undecided([], req);
    AttemptReports(q, req, env, [], q.line, behind);
  }

  lemma FinalAnswer(h: seq<byte>)
    requires !FinalKind(h).NoFinal?
    ensures Answer([h], Expected()) == [h] && Answer([], Expected()) == []
  {
    hide IsDefaultUrc, FinalKind, ContinuationLines;
    FinalIsNeverUrc(h);
    AllAnswer([h]);
  }

  /** The end of an overlong line ends the attempt. */
  lemma DiscardingFails(q: P.State, segment: Segment, env: AttemptEnv, r: byte)
    requires env.sending == Sent && Undisturbed(env.turns) && StreamOf(env.turns) == Dialogue(r) && q.discarding
    ensures AttemptOf(q, CmgsRequest(segment), env).0 != Ok
  {
    hide CmgsCommand, ReferenceLine, Listen, Dialogue, StreamOf, Undisturbed, Turns, ProcessAll;
    var req := CmgsRequest(segment);
    var k0, data := Started(q, req), StreamOf(env.turns);
    DialogueIsSeen(q, req, r);
    assert k0.parser == q.(prompt := true);
    var n := TurnsListen(k0, req, env.turns);
    assert data == data[..n] + data[n..];
    ListenConcat(k0.parser, req, data[..n], data[n..]);
    var (q1, seen) := Listen(k0.parser, req, data[..n]);
    var rest := Listen(q1, req, data[n..]).1;
    if seen == [] {
      NothingProcessed(k0.tx, req);
    } else {
      assert seen[0] == (seen + rest)[0] == P.Overflow;
      var behind := seen[1..];
      assert seen == [P.Overflow] + behind;
      forall x | x in behind ensures x != P.Overflow {
        var i :| 0 <= i < |behind| && behind[i] == x;
        assert (seen + rest)[i + 1] == x;
      }
      OverflowEnds(k0.tx, req);
      DoneStays(k0.tx, req, [P.Overflow], behind);
    }
  }

  lemma OverflowEnds(t: Tx, req: Request)
    ensures var t' := ProcessAll(t, req, [P.Overflow]); t'.done && t'.result == ProtocolError
  {
    assert [P.Overflow][..0] == [];
    assert ProcessAll(t, req, []) == t;
  }

  /** A hand-over is one attempt. */
  lemma OneAttempt(c: Channel, segment: Segment, idle: seq<Turn>, env: nat -> AttemptEnv)
    ensures var (result, k) := AttemptOf(AfterIdle(c.parser, idle), CmgsRequest(segment), env(0));
      HandOver(c, segment, idle, env).0 == if result == Ok then FirstReference(k.tx.lines) else None
  {
    hide AttemptOf, AfterIdle, FirstReference;
  }

  /**
   * The modem shows its prompt, takes the PDU and answers +CMGS: r and OK, in whatever fragments: the service
   * gets r, for every r, if and only if nothing in the parser gets in the way.
   */
  lemma HandOverAnswers(c: Channel, segment: Segment, idle: seq<Turn>, env: nat -> AttemptEnv, r: byte)
    requires env(0).sending == Sent && Undisturbed(env(0).turns) && StreamOf(env(0).turns) == Dialogue(r)
    requires P.Bounded(AfterIdle(c.parser, idle))
    ensures HandOver(c, segment, idle, env).0 == Some(r) <==> Harmless(AfterIdle(c.parser, idle), segment, r)
  {
    hide CmgsCommand, ReferenceLine, AttemptOf, AfterIdle, HandOver, Answer, RoutesAsUrc, ContinuationLines, FinalKind, StreamOf, Undisturbed, Dialogue, BeforeNul,
         ReferenceIn;
    var q := AfterIdle(c.parser, idle);
    var t, stale := ReferenceLine(r), Stale(q, segment);
    OneAttempt(c, segment, idle, env);
    if q.discarding {
      DiscardingFails(q, segment, env(0), r);
    } else if stale != [] && !FinalKind(stale[0]).NoFinal? {
      StaleFinalFails(q, segment, env(0), r);
    } else {
      ExchangeSucceeds(q, segment, env(0), r);
      ReferenceLineIsNeither(r, segment.tpduLength);
      AnswerOf(stale, [t]);
      ReferenceIsRead(r);
      FirstOf(stale, t, r);
    }
  }

  lemma FirstOf(stale: seq<seq<byte>>, t: seq<byte>, r: byte)
    requires |stale| <= 1 && ReferenceIn(t) == Some(r)
    ensures FirstReference([]) == None && FirstReference([t]) == Some(r)
    ensures stale != [] ==> FirstReference(stale + [t]) == if ReferenceIn(stale[0]).Some? then ReferenceIn(stale[0]) else Some(r)
  {
    hide ReferenceIn;
    assert [t][1..] == [];
    if stale != [] {
      assert (stale + [t])[0] == stale[0] && (stale + [t])[1..] == [t];
    }
  }

  /** A parser at rest is no obstacle. */
  lemma RestIsHarmless(segment: Segment, r: byte)
    ensures Harmless(P.RESET, segment, r) && P.Bounded(P.RESET)
  {
  }
}
