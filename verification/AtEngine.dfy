/**
 * at_engine.c: one AT transaction. Tokens drive it, a prompt makes it write the payload, and
 * a final line ends it; attempts are repeated as the retry policy says.
 */
module AtEngine {
  import opened Bytes
  import opened AtProtocol
  import P = AtParser

  const MAX_RESPONSE_LINES := 24
  const MAX_RESPONSE_BYTES := 2048

  datatype Result =
    | Ok | Error | CmeError | CmsError | Timeout | Canceled | Unavailable | TransportError | RxOverflow | ProtocolError

  datatype Retry = OnTimeout | OnError | OnCmeError | OnCmsError | OnTransportError

  datatype Request = Request(
    command: seq<byte>,
    expected: seq<seq<byte>>,
    maxAttempts: nat,
    retry: set<Retry>,
    waitForPrompt: bool,
    payload: seq<byte>)

  /** What passes between engine and modem that matters: a command line, a payload, a final line. */
  datatype Act = Asked(line: seq<byte>, ok: bool) | Wrote(payload: seq<byte>, ok: bool) | Final(kind: Kind)

  /** A transaction and the history of its acts. */
  datatype Tx = Tx(done: bool, payloadSent: bool, result: Result, pending: nat, truncated: bool, lines: seq<seq<byte>>, acts: seq<Act>)

  const START := Tx(false, false, ProtocolError, 0, false, [], [])

  function MapFinal(kind: Kind): Result {
    match kind
    case FinalOk => Ok
    case FinalError => Error
    case FinalCme => CmeError
    case FinalCms => CmsError
    case NoFinal => ProtocolError
  }

  predicate ShouldRetry(result: Result, retry: set<Retry>) {
    match result
    case Timeout => OnTimeout in retry
    case Error => OnError in retry
    case CmeError => OnCmeError in retry
    case CmsError => OnCmsError in retry
    case TransportError => OnTransportError in retry
    case Unavailable => OnTransportError in retry
    case _ => false
  }

  /** Bytes of the response buffer in use, terminators included. */
  function Used(lines: seq<seq<byte>>): nat {
    if lines == [] then 0 else Used(lines[..|lines| - 1]) + |lines[|lines| - 1]| + 1
  }

  /** response_capture_line. */
  function Capture(t: Tx, line: seq<byte>): Tx {
    if |t.lines| >= MAX_RESPONSE_LINES || Used(t.lines) + |line| + 1 > MAX_RESPONSE_BYTES then t.(truncated := true)
    else t.(lines := t.lines + [line])
  }

  function ProcessLine(t: Tx, req: Request, line: seq<byte>): Tx {
    if t.done || line == req.command then t
    else
      var (urc, pending) := Route(t.pending, line, req.expected);
      if urc then t.(pending := pending)
      else if FinalKind(line).NoFinal? then Capture(t, line)
      else
        var kind := FinalKind(line);
        t.(done := true, acts := t.acts + [Final(kind)],
           result := if kind.FinalOk? && req.waitForPrompt && !t.payloadSent then ProtocolError else MapFinal(kind))
  }

  /** process_token; `ok` is the outcome of the payload write if there is one. */
  function Process(t: Tx, req: Request, token: P.Token, ok: bool): Tx {
    match token
    case Overflow => t.(result := ProtocolError, truncated := true, done := true)
    case Prompt =>
      if !req.waitForPrompt then t
      else if ok then t.(acts := t.acts + [Wrote(req.payload, true)], payloadSent := true)
      else t.(acts := t.acts + [Wrote(req.payload, false)], result := TransportError, done := true)
    case Line(text) => ProcessLine(t, req, BeforeNul(text))
  }

  /** The parser and the transaction it feeds. */
  datatype Link = Link(parser: P.State, tx: Tx)

  /** Only a prompt that is answered switches prompts off. */
  function Handle(k: Link, req: Request, tokens: seq<P.Token>, ok: bool): Link {
    if tokens == [] then k
    else Link(if tokens[0].Prompt? && req.waitForPrompt then k.parser.(prompt := false) else k.parser,
              Process(k.tx, req, tokens[0], ok))
  }

  /** One byte from the modem; `ok` says how a payload write would end. */
  function Byte(k: Link, req: Request, ch: byte, ok: bool): Link {
    var (p, tokens) := P.Step(k.parser, ch);
    Handle(k.(parser := p), req, tokens, ok)
  }

  /** A chunk; writes(i) is the outcome of a payload write triggered by byte i. */
  function FeedLink(k: Link, req: Request, data: seq<byte>, writes: nat -> bool): Link
    decreases |data|
  {
    if data == [] then k
    else
      var n := |data| - 1;
      Byte(FeedLink(k, req, data[..n], writes), req, data[n], writes(n))
  }

  // ----- what an attempt guarantees -----

  function Writes(acts: seq<Act>): nat {
    if acts == [] then 0 else Writes(acts[..|acts| - 1]) + if acts[|acts| - 1].Wrote? then 1 else 0
  }

  /** The payload written with success, and after it the final OK. */
  ghost predicate OkAfterPayload(acts: seq<Act>, payload: seq<byte>) {
    exists i, j :: 0 <= i < j < |acts| && acts[i] == Wrote(payload, true) && acts[j] == Final(FinalOk)
  }

  /** Nothing is sent to the modem but this command line and this payload. */
  ghost predicate OnlyThese(acts: seq<Act>, req: Request) {
    forall i :: 0 <= i < |acts| ==>
      (acts[i].Wrote? ==> acts[i].payload == req.payload) && (acts[i].Asked? ==> acts[i].line == CommandLine(req))
  }

  /** The octets of the command, with the carriage return behind it. */
  function CommandLine(req: Request): seq<byte> {
    req.command + [P.CR]
  }

  ghost predicate Good(k: Link, req: Request) {
    && Writes(k.tx.acts) <= 1
    && (k.parser.prompt ==> req.waitForPrompt && Writes(k.tx.acts) == 0)
    && (k.tx.payloadSent ==> Wrote(req.payload, true) in k.tx.acts)
    && (k.tx.result == Ok ==> k.tx.done && Final(FinalOk) in k.tx.acts)
    && (k.tx.result == Ok && req.waitForPrompt ==> OkAfterPayload(k.tx.acts, req.payload))
    && OnlyThese(k.tx.acts, req)
    && |k.tx.lines| <= MAX_RESPONSE_LINES && Used(k.tx.lines) <= MAX_RESPONSE_BYTES
  }

  lemma WritesSnoc(acts: seq<Act>, a: Act)
    ensures Writes(acts + [a]) == Writes(acts) + if a.Wrote? then 1 else 0
  {
    assert (acts + [a])[..|acts|] == acts;
  }

  lemma OkStays(acts: seq<Act>, payload: seq<byte>, a: Act)
    requires OkAfterPayload(acts, payload)
    ensures OkAfterPayload(acts + [a], payload)
  {
    var i, j :| 0 <= i < j < |acts| && acts[i] == Wrote(payload, true) && acts[j] == Final(FinalOk);
    assert (acts + [a])[i] == Wrote(payload, true) && (acts + [a])[j] == Final(FinalOk);
  }

  lemma OkNow(acts: seq<Act>, payload: seq<byte>)
    requires Wrote(payload, true) in acts
    ensures OkAfterPayload(acts + [Final(FinalOk)], payload)
  {
    var i :| 0 <= i < |acts| && acts[i] == Wrote(payload, true);
    var all := acts + [Final(FinalOk)];
    assert all[i] == Wrote(payload, true) && all[|acts|] == Final(FinalOk);
  }

  lemma OnlyTheseSnoc(acts: seq<Act>, req: Request, a: Act)
    requires OnlyThese(acts, req) && (a.Wrote? ==> a.payload == req.payload) && !a.Asked?
    ensures OnlyThese(acts + [a], req)
  {
  }

  lemma LineKeeps(k: Link, req: Request, line: seq<byte>)
    requires Good(k, req)
    ensures Good(k.(tx := ProcessLine(k.tx, req, line)), req)
  {
    hide FinalKind, Route, Good, Capture;
    var t := k.tx;
    var (urc, pending) := Route(t.pending, line, req.expected);
    if !(t.done || line == req.command) {
      if urc {
        SameActs(k, t.(pending := pending), req);
      } else if FinalKind(line).NoFinal? {
        CaptureKeeps(k, req, line);
      } else {
        FinalKeeps(k, req, FinalKind(line));
      }
    }
  }

  lemma SameActs(k: Link, t: Tx, req: Request)
    requires Good(k, req) && t.acts == k.tx.acts && t.result == k.tx.result && t.done == k.tx.done
    requires t.payloadSent == k.tx.payloadSent
    requires t.lines == k.tx.lines || (|t.lines| <= MAX_RESPONSE_LINES && Used(t.lines) <= MAX_RESPONSE_BYTES)
    ensures Good(k.(tx := t), req)
  {
    hide OkAfterPayload, Writes, OnlyThese;
  }

  lemma CaptureKeeps(k: Link, req: Request, line: seq<byte>)
    requires Good(k, req)
    ensures Good(k.(tx := Capture(k.tx, line)), req)
  {
    hide Good;
    UsedSnoc(k.tx.lines, line);
    GoodLines(k, req);
    SameActs(k, Capture(k.tx, line), req);
  }

  lemma UsedSnoc(lines: seq<seq<byte>>, line: seq<byte>)
    ensures Used(lines + [line]) == Used(lines) + |line| + 1
  {
    assert (lines + [line])[..|lines|] == lines;
  }

  lemma GoodLines(k: Link, req: Request)
    requires Good(k, req)
    ensures |k.tx.lines| <= MAX_RESPONSE_LINES && Used(k.tx.lines) <= MAX_RESPONSE_BYTES
  {
  }

  lemma FinalKeeps(k: Link, req: Request, kind: Kind)
    requires Good(k, req) && !k.tx.done && !kind.NoFinal?
    ensures var result := if kind.FinalOk? && req.waitForPrompt && !k.tx.payloadSent then ProtocolError else MapFinal(kind);
      Good(k.(tx := k.tx.(done := true, acts := k.tx.acts + [Final(kind)], result := result)), req)
  {
    hide OkAfterPayload, Used, Writes, OnlyThese;
    WritesSnoc(k.tx.acts, Final(kind));
    OnlyTheseSnoc(k.tx.acts, req, Final(kind));
    if k.tx.payloadSent { OkNow(k.tx.acts, req.payload); }
  }

  lemma PromptKeeps(k: Link, req: Request, ok: bool)
    requires Good(k, req) && req.waitForPrompt && Writes(k.tx.acts) == 0
    ensures Good(Handle(k, req, [P.Prompt], ok), req)
  {
    hide OkAfterPayload, Used, Writes, OnlyThese;
    WritesSnoc(k.tx.acts, Wrote(req.payload, ok));
    OnlyTheseSnoc(k.tx.acts, req, Wrote(req.payload, ok));
    if k.tx.result == Ok { OkStays(k.tx.acts, req.payload, Wrote(req.payload, ok)); }
  }

  lemma HandleKeeps(k: Link, req: Request, tokens: seq<P.Token>, ok: bool)
    requires Good(k, req) && |tokens| <= 1 && (StartsWithPrompt(tokens) ==> k.parser.prompt)
    ensures Good(Handle(k, req, tokens, ok), req)
  {
    hide OkAfterPayload, ProcessLine, Writes, Used, OnlyThese;
    if tokens != [] {
      match tokens[0]
      case Prompt =>
        assert tokens == [P.Prompt];
        PromptKeeps(k, req, ok);
      case Line(text) => LineKeeps(k, req, BeforeNul(text));
      case Overflow =>
    }
  }

  /** The first token is a prompt. */
  predicate StartsWithPrompt(tokens: seq<P.Token>) {
    tokens != [] && tokens[0].Prompt?
  }

  lemma StepFacts(p: P.State, ch: byte)
    ensures var (p', tokens) := P.Step(p, ch);
      |tokens| <= 1 && p'.prompt == p.prompt && (StartsWithPrompt(tokens) ==> p.prompt)
  {
  }

  lemma ByteKeeps(k: Link, req: Request, ch: byte, ok: bool)
    requires Good(k, req)
    ensures Good(Byte(k, req, ch, ok), req)
  {
    hide OkAfterPayload, Writes, Used, OnlyThese, P.Step, Handle;
    StepFacts(k.parser, ch);
    HandleKeeps(k.(parser := P.Step(k.parser, ch).0), req, P.Step(k.parser, ch).1, ok);
  }

  lemma {:induction false} FeedKeeps(k: Link, req: Request, data: seq<byte>, writes: nat -> bool)
    requires Good(k, req)
    ensures Good(FeedLink(k, req, data, writes), req)
    decreases |data|
  {
    hide Good, Byte;
    if data != [] {
      FeedKeeps(k, req, data[..|data| - 1], writes);
      ByteKeeps(FeedLink(k, req, data[..|data| - 1], writes), req, data[|data| - 1], writes(|data| - 1));
    }
  }

  lemma StartIsGood(p: P.State, req: Request)
    ensures Good(Started(p, req), req) && Writes(Started(p, req).tx.acts) == 0
  {
    WritesSnoc([], Asked(CommandLine(req), true));
    assert [] + [Asked(CommandLine(req), true)] == [Asked(CommandLine(req), true)];
  }

  /** A fresh attempt on a parser in any state, behind its command line. */
  function Started(p: P.State, req: Request): Link {
    Link(p.(prompt := req.waitForPrompt, skipSpace := p.skipSpace && req.waitForPrompt), START.(acts := [Asked(CommandLine(req), true)]))
  }

  /** For every stream: the payload is written at most once, and OK is reported only if it was, before the OK line. */
  lemma PayloadAtMostOnce(p: P.State, req: Request, data: seq<byte>, writes: nat -> bool)
    ensures var t := FeedLink(Started(p, req), req, data, writes).tx;
      && Writes(t.acts) <= 1
      && (t.result == Ok ==> t.done && Final(FinalOk) in t.acts)
      && (t.result == Ok && req.waitForPrompt ==> OkAfterPayload(t.acts, req.payload))
  {
    hide FeedLink, Writes, OkAfterPayload, Used;
    StartIsGood(p, req);
    FeedKeeps(Started(p, req), req, data, writes);
  }

  /** However the stream is cut, the link ends up the same. */
  lemma {:induction false} FeedLinkAppend(k: Link, req: Request, a: seq<byte>, b: seq<byte>, writes: nat -> bool)
    ensures FeedLink(k, req, a + b, writes) == FeedLink(FeedLink(k, req, a, writes), req, b, Later(writes, |a|))
    decreases |b|
  {
    hide Byte;
    if b == [] {
      assert a + b == a;
    } else {
      assert (a + b)[..|a + b| - 1] == a + b[..|b| - 1];
      FeedLinkAppend(k, req, a, b[..|b| - 1], writes);
    }
  }

  /** The line behind an unsolicited +CMT, +CDS or +CBM header never ends a command, even if it reads OK. */
  lemma BodyNeverFinal(t: Tx, req: Request, header: seq<byte>, body: seq<byte>)
    requires !t.done && t.pending == 0 && header != req.command
    requires HasPrefix(header, Ascii("+CMT:")) || HasPrefix(header, Ascii("+CDS:")) || HasPrefix(header, Ascii("+CBM:"))
    requires !MatchesAny(header, req.expected)
    ensures var t' := ProcessLine(ProcessLine(t, req, header), req, body);
      !t'.done && t'.result == t.result && t'.acts == t.acts && t'.lines == t.lines
  {
    hide FinalKind, MatchesAny, Ascii;
    assert DEFAULT_URCS[1] == "+CMT:" && DEFAULT_URCS[2] == "+CDS:" && DEFAULT_URCS[4] == "+CBM:";
  }

  // ----- the worker task -----

  /** How handing the command line to the transport ends. */
  datatype Sending = Sent | NotReady | WriteFailed

  /** What one turn of the waiting loop meets. */
  datatype Turn = Data(bytes: seq<byte>, writes: nat -> bool) | Nothing | OverflowEpoch | Lost | Cancel | Deadline

  /** The surroundings of one attempt: the command write, the turns of the loop, and idle traffic afterwards. */
  datatype AttemptEnv = AttemptEnv(sending: Sending, turns: seq<Turn>, idle: seq<Turn>)

  class Engine {
    const parser: P.Parser
    const router: Router
    var done: bool
    var payloadSent: bool
    var result: Result
    var truncated: bool
    var lines: seq<seq<byte>>
    var used: nat
    ghost var acts: seq<Act>
    /** The acts of all earlier transactions. */
    ghost var log: seq<Act>

    ghost predicate Valid()
      reads this, parser, parser.line
    {
      parser.Valid() && used == Used(lines)
    }

    ghost function Abs(): Link
      requires Valid()
      reads this, parser, parser.line, router
    {
      Link(parser.Abs(), Tx(done, payloadSent, result, router.pending, truncated, lines, acts))
    }

    /** Where the channel to the modem stands. */
    ghost function Stand(): Channel
      requires Valid()
      reads this, parser, parser.line
    {
      Channel(parser.Abs(), log + acts)
    }

    constructor ()
      ensures Valid() && fresh(parser) && fresh(parser.line) && fresh(router) && Stand() == Channel(P.RESET, [])
    {
      parser := new P.Parser();
      router := new Router();
      log := [];
      done, payloadSent, result, truncated, lines, used, acts := false, false, ProtocolError, false, [], 0, [];
    }

    /** response_capture_line. */
    method CaptureLine(line: seq<byte>)
      requires Valid()
      modifies this`truncated, this`lines, this`used
      ensures Valid() && Abs() == old(Abs()).(tx := Capture(old(Abs()).tx, line))
    {
      hide Used;
      UsedSnoc(lines, line);
      if |lines| >= MAX_RESPONSE_LINES || used + |line| + 1 > MAX_RESPONSE_BYTES {
        truncated := true;
        return;
      }
      lines := lines + [line];
      used := used + |line| + 1;
    }

    /** The part of process_token for lines. */
    method TakeLine(req: Request, line: seq<byte>)
      requires Valid()
      modifies this, router
      ensures Valid() && Abs() == old(Abs()).(tx := ProcessLine(old(Abs()).tx, req, line)) && log == old(log)
    {
      hide FinalKind, Route, Capture, Used;
      if done || line == req.command {
        return;
      }
      var urc := router.RouteLine(line, req.expected);
      if urc {
        return;
      }
      RouteNot(old(router.pending), line, req.expected);
      var kind := FinalKind(line);
      if kind != NoFinal {
        if kind == FinalOk && req.waitForPrompt && !payloadSent {
          result := ProtocolError;
        } else {
          result := MapFinal(kind);
        }
        acts := acts + [Final(kind)];
        done := true;
        return;
      }
      CaptureLine(line);
    }

    /** process_token. */
    method ProcessToken(req: Request, token: P.Token, ok: bool)
      requires Valid()
      modifies this, router, parser`prompt
      ensures Valid() && Abs() == Handle(old(Abs()), req, [token], ok) && log == old(log)
    {
      hide ProcessLine, Used;
      match token
      case Overflow =>
        result, truncated, done := ProtocolError, true, true;
      case Prompt =>
        if !req.waitForPrompt {
          return;
        }
        // The parser raises its skip flag behind the callback, so only the prompt flag changes.
        parser.prompt := false;
        acts := acts + [Wrote(req.payload, ok)];
        if !ok {
          result, done := TransportError, true;
        } else {
          payloadSent := true;
        }
      case Line(text) =>
        TakeLine(req, BeforeNul(text));
    }

    /** at_parser_feed with process_token as its callback. */
    method Feed(req: Request, data: seq<byte>, writes: nat -> bool)
      requires Valid()
      modifies this, router, parser, parser.line
      ensures Valid() && Abs() == FeedLink(old(Abs()), req, data, writes) && log == old(log)
    {
      hide P.Step, Handle, Used;
      for i := 0 to |data|
        invariant Valid() && log == old(log) && Abs() == FeedLink(old(Abs()), req, data[..i], writes)
      {
        assert data[..i + 1][..i] == data[..i];
        ghost var before := Abs();
        var tokens := parser.FeedByte(data[i]);
        StepFacts(before.parser, data[i]);
        if tokens != [] {
          assert tokens == [tokens[0]];
          ProcessToken(req, tokens[0], writes(i));
        } else {
          HandleNone(Abs(), req, writes(i));
        }
      }
      assert data[..|data|] == data;
    }

    /** execute_attempt. */
    method ExecuteAttempt(req: Request, env: AttemptEnv) returns (r: Result)
      requires Valid() && !parser.prompt
      modifies this, router, parser, parser.line
      ensures Valid() && (r, Abs()) == AttemptOf(old(parser.Abs()), req, env) && log == old(log + acts)
    {
      hide FeedLink, Used;
      ResetResponse();
      if env.sending == NotReady {
        return Unavailable;
      }
      acts := [Asked(CommandLine(req), env.sending == Sent)];
      if env.sending != Sent {
        return TransportError;
      }
      parser.SetPromptEnabled(req.waitForPrompt);
      ghost var start := Abs();
      var i := 0;
      assert env.turns[0..] == env.turns;
      while !done && i < |env.turns|
        invariant Valid() && i <= |env.turns| && log == old(log + acts)
        invariant Turns(start, req, env.turns) == Turns(Abs(), req, env.turns[i..])
        decreases |env.turns| - i
      {
        var turn := env.turns[i];
        assert env.turns[i..][0] == turn && env.turns[i..][1..] == env.turns[i + 1..];
        i := i + 1;
        match turn
        case OverflowEpoch => return RxOverflow;
        case Lost => return TransportError;
        case Cancel => return Canceled;
        case Deadline => return Timeout;
        case Nothing =>
        case Data(bytes, writes) =>
          Feed(req, bytes, writes);
      }
      if !done {
        return Timeout;
      }
      return result;
    }

    /** response_reset and a fresh transaction. */
    method ResetResponse()
      requires parser.Valid()
      modifies this, router
      ensures Valid() && Abs() == Link(parser.Abs(), START) && parser.Abs() == old(parser.Abs()) && log == old(log + acts)
    {
      log := log + acts;
      done, payloadSent, result, truncated, lines, used, acts := false, false, ProtocolError, false, [], 0, [];
      router.pending := 0;
    }

    /** process_idle_rx: traffic outside transactions only moves the parser. */
    method ProcessIdleRx(turns: seq<Turn>)
      requires Valid() && !parser.prompt
      modifies parser, parser.line
      ensures Valid() && parser.Abs() == AfterIdle(old(parser.Abs()), turns) && !parser.prompt
    {
      hide Used;
      for i := 0 to |turns|
        invariant Valid() && parser.Abs() == AfterIdle(old(parser.Abs()), turns[..i]) && !parser.prompt
      {
        assert turns[..i + 1][..i] == turns[..i];
        match turns[i]
        case Data(bytes, _) =>
          FeedNoPrompt(parser.Abs(), bytes);
          var _ := parser.FeedAll(bytes);
        case Lost => parser.Reset();
        case Cancel => parser.Reset();
        case _ =>
      }
      assert turns[..|turns|] == turns;
    }

    /** execute_request: attempts as long as the policy asks for another one, at most max_attempts. */
    method ExecuteRequest(req: Request, idle: seq<Turn>, env: nat -> AttemptEnv) returns (r: Result, attempts: nat)
      requires Valid() && !parser.prompt
      modifies this, router, parser, parser.line
      ensures Valid() && !parser.prompt
      ensures var o := RequestOf(old(parser.Abs()), req, idle, env);
        && r == o.result && attempts == o.attempts && lines == o.lines
        && Stand() == Channel(o.parser, old(Stand()).said + o.acts)
    {
      hide AttemptOf, Used, ShouldRetry, AfterIdle, RequestFrom;
      ProcessIdleRx(idle);
      attempts := 0;
      r := ProtocolError;
      ghost var o := RequestOf(old(parser.Abs()), req, idle, env);
      ghost var said: seq<Act> := [];
      while attempts < Attempts(req)
        invariant Valid() && !parser.prompt && attempts < Attempts(req)
        invariant o == RequestFrom(parser.Abs(), req, env, attempts).(acts := said + RequestFrom(parser.Abs(), req, env, attempts).acts)
        invariant log + acts == old(log + acts) + said
      {
        ghost var p, before := parser.Abs(), said;
        RequestUnfolds(p, req, env, attempts);
        r := ExecuteAttempt(req, env(attempts));
        said := said + acts;
        Regroup(old(log + acts), before, acts);
        parser.SetPromptEnabled(false);
        if r != Ok {
          parser.Reset();
        }
        var again := ShouldRetry(r, req.retry);
        attempts := attempts + 1;
        if r == Ok || !again || attempts == Attempts(req) {
          break;
        }
        parser.Reset();
        ProcessIdleRx(env(attempts - 1).idle);
        Regroup(before, acts, RequestFrom(parser.Abs(), req, env, attempts).acts);
      }
    }
  }

  lemma Regroup(a: seq<Act>, b: seq<Act>, c: seq<Act>)
    ensures (a + b) + c == a + (b + c)
  {
  }

  function Attempts(req: Request): (n: nat)
    ensures n > 0
  {
    if req.maxAttempts == 0 then 1 else req.maxAttempts
  }

  /** The waiting loop of an attempt: what ends it, and the link by then. */
  function Turns(k: Link, req: Request, turns: seq<Turn>): (Result, Link)
    decreases |turns|
  {
    if k.tx.done then (k.tx.result, k)
    else if turns == [] then (Timeout, k)
    else match turns[0]
      case OverflowEpoch => (RxOverflow, k)
      case Lost => (TransportError, k)
      case Cancel => (Canceled, k)
      case Deadline => (Timeout, k)
      case Nothing => Turns(k, req, turns[1..])
      case Data(bytes, writes) => Turns(FeedLink(k, req, bytes, writes), req, turns[1..])
  }

  /** The result of an attempt on a parser in any state, and where it leaves parser and transaction. */
  function AttemptOf(p: P.State, req: Request, env: AttemptEnv): (Result, Link) {
    match env.sending
    case NotReady => (Unavailable, Link(p, START))
    case WriteFailed => (TransportError, Link(p, START.(acts := [Asked(CommandLine(req), false)])))
    case Sent => Turns(Started(p, req), req, env.turns)
  }

  /** Traffic outside transactions only moves the parser. */
  function AfterIdle(p: P.State, turns: seq<Turn>): P.State {
    if turns == [] then p
    else
      var n := |turns| - 1;
      match turns[n]
      case Data(bytes, _) => P.Feed(AfterIdle(p, turns[..n]), bytes).0
      case Lost => P.RESET
      case Cancel => P.RESET
      case _ => AfterIdle(p, turns[..n])
  }

  /** The parser and everything that has passed between engine and modem. */
  datatype Channel = Channel(parser: P.State, said: seq<Act>)

  /** A request from its first attempt to its last. */
  datatype Outcome = Outcome(result: Result, attempts: nat, lines: seq<seq<byte>>, parser: P.State, acts: seq<Act>)

  /** The parser behind an attempt: prompts off, and reset unless it succeeded. */
  function Left(r: Result, p: P.State): P.State {
    if r == Ok then p.(prompt := false, skipSpace := false) else P.RESET
  }

  /** Attempt n and those behind it. */
  function RequestFrom(p: P.State, req: Request, env: nat -> AttemptEnv, n: nat): Outcome
    requires n < Attempts(req)
    decreases Attempts(req) - n
  {
    var (r, k) := AttemptOf(p, req, env(n));
    if r == Ok || !ShouldRetry(r, req.retry) || n + 1 == Attempts(req) then Outcome(r, n + 1, k.tx.lines, Left(r, k.parser), k.tx.acts)
    else
      var rest := RequestFrom(AfterIdle(P.RESET, env(n).idle), req, env, n + 1);
      rest.(acts := k.tx.acts + rest.acts)
  }

  lemma RequestUnfolds(p: P.State, req: Request, env: nat -> AttemptEnv, n: nat)
    requires n < Attempts(req)
    ensures var (r, k) := AttemptOf(p, req, env(n));
      RequestFrom(p, req, env, n) ==
        if r == Ok || !ShouldRetry(r, req.retry) || n + 1 == Attempts(req) then Outcome(r, n + 1, k.tx.lines, Left(r, k.parser), k.tx.acts)
        else
          var rest := RequestFrom(AfterIdle(P.RESET, env(n).idle), req, env, n + 1);
          rest.(acts := k.tx.acts + rest.acts)
  {
    hide AttemptOf, ShouldRetry, AfterIdle, Left;
  }

  function RequestOf(p: P.State, req: Request, idle: seq<Turn>, env: nat -> AttemptEnv): Outcome {
    RequestFrom(AfterIdle(p, idle), req, env, 0)
  }

  /** The outcomes of payload writes behind the first n bytes. */
  function Later(writes: nat -> bool, n: nat): nat -> bool {
    (i: nat) => writes(n + i)
  }

  /** Where a chunk is cut makes no difference to an attempt that is not through before the cut. */
  lemma {:induction false} CutIsInvisible(k: Link, req: Request, before: seq<Turn>, a: seq<byte>, b: seq<byte>, writes: nat -> bool, behind: seq<Turn>)
    requires var k1 := Turns(k, req, before).1; !k1.tx.done ==> !FeedLink(k1, req, a, writes).tx.done
    ensures Turns(k, req, before + [Data(a + b, writes)] + behind)
         == Turns(k, req, before + [Data(a, writes), Data(b, Later(writes, |a|))] + behind)
    decreases |before|
  {
    hide FeedLink;
    var whole, cut := before + [Data(a + b, writes)] + behind, before + [Data(a, writes), Data(b, Later(writes, |a|))] + behind;
    if before == [] {
      FeedLinkAppend(k, req, a, b, writes);
      assert whole[1..] == behind && cut[1..] == [Data(b, Later(writes, |a|))] + behind && cut[1..][1..] == behind;
    } else {
      assert whole[0] == cut[0] == before[0];
      assert whole[1..] == before[1..] + [Data(a + b, writes)] + behind;
      assert cut[1..] == before[1..] + [Data(a, writes), Data(b, Later(writes, |a|))] + behind;
      if !k.tx.done {
        match before[0]
        case Nothing => CutIsInvisible(k, req, before[1..], a, b, writes, behind);
        case Data(bytes, w) => CutIsInvisible(FeedLink(k, req, bytes, w), req, before[1..], a, b, writes, behind);
        case _ =>
      }
    }
  }

  /** The condition is needed: behind a final OK in the same chunk a prompt still makes the engine write, in a later chunk it does not. */
  lemma CutMatters(req: Request, writes: nat -> bool)
    requires req.waitForPrompt && req.command != Ascii("OK") && req.expected == []
    ensures var k := Started(P.RESET, req);
      && Writes(Turns(k, req, [Data(Ascii("OK") + [P.CR] + [P.GREATER], writes)]).1.tx.acts) == 1
      && Writes(Turns(k, req, [Data(Ascii("OK") + [P.CR], writes), Data([P.GREATER], Later(writes, 3))]).1.tx.acts) == 0
  {
    hide FeedLink, Writes, Byte;
    var k, line := Started(P.RESET, req), Ascii("OK") + [P.CR];
    var k1 := OkEnds(req, writes);
    assert Turns(k, req, [Data(line, writes), Data([P.GREATER], Later(writes, 3))]) == (k1.tx.result, k1);
    var k2 := FeedLink(k, req, line + [P.GREATER], writes);
    FeedLinkAppend(k, req, line, [P.GREATER], writes);
    PromptBehind(k1, req, Later(writes, 3));
    assert [Data(line + [P.GREATER], writes)][1..] == [];
    assert Turns(k, req, [Data(line + [P.GREATER], writes)]) == Turns(k2, req, []);
  }

  /** The line OK ends an attempt, with prompts still on. */
  lemma OkEnds(req: Request, writes: nat -> bool) returns (k1: Link)
    requires req.waitForPrompt && req.command != Ascii("OK") && req.expected == []
    ensures k1 == FeedLink(Started(P.RESET, req), req, Ascii("OK") + [P.CR], writes)
    ensures k1.tx.done && k1.parser == P.RESET.(prompt := true) && Writes(k1.tx.acts) == 0
  {
    hide Route, FinalKind, RoutesAsUrc, Writes;
    var k, data := Started(P.RESET, req), Ascii("OK") + [P.CR];
    assert data == [79, 75, 13] && Ascii("OK") == [79, 75];
    assert data[..2] == [79, 75] && data[..2][..1] == [79] && data[..1][..0] == [];
    k1 := FeedLink(k, req, data, writes);
    OkIsFinal(req);
    StartIsGood(P.RESET, req);
    WritesSnoc(k.tx.acts, Final(FinalOk));
    assert BeforeNul([79, 75]) == [79, 75] by { var t: CString := [79, 75]; BeforeNulOfText(t); }
    assert FeedLink(k, req, [], writes) == k;
    assert FeedLink(k, req, [79], writes) == k.(parser := P.State([79], false, false, true));
    assert FeedLink(k, req, [79, 75], writes) == k.(parser := P.State([79, 75], false, false, true));
  }

  lemma OkIsFinal(req: Request)
    requires req.expected == []
    ensures FinalKind([79, 75]) == FinalOk && !Route(0, [79, 75], req.expected).0
  {
    assert Ascii("OK") == [79, 75];
    FinalIsNeverUrc([79, 75]);
  }

  lemma PromptBehind(k: Link, req: Request, writes: nat -> bool)
    requires req.waitForPrompt && k.tx.done && k.parser == P.RESET.(prompt := true) && Writes(k.tx.acts) == 0
    ensures var k' := FeedLink(k, req, [P.GREATER], writes); k'.tx.done && Writes(k'.tx.acts) == 1
  {
    hide Writes;
    assert [P.GREATER][..0] == [];
    assert FeedLink(k, req, [], writes) == k;
    WritesSnoc(k.tx.acts, Wrote(req.payload, writes(0)));
  }

  lemma {:induction false} TurnsKeep(k: Link, req: Request, turns: seq<Turn>)
    requires Good(k, req)
    ensures var (r, k') := Turns(k, req, turns);
      && Good(k', req) && (r == Ok ==> k'.tx.done && k'.tx.result == Ok)
      && (!req.waitForPrompt ==> Writes(k'.tx.acts) == Writes(k.tx.acts))
    decreases |turns|
  {
    hide Good, FeedLink, Writes;
    if !k.tx.done && turns != [] {
      match turns[0]
      case Nothing => TurnsKeep(k, req, turns[1..]);
      case Data(bytes, writes) =>
        FeedKeeps(k, req, bytes, writes);
        if !req.waitForPrompt { NoPromptNoWrite(k, req, bytes, writes); }
        TurnsKeep(FeedLink(k, req, bytes, writes), req, turns[1..]);
      case _ =>
    }
  }

  /**
   * Whatever the modem sends, in whatever chunks, and however the attempt ends: nothing but the command
   * line and the payload is sent, the payload at most once and not without a prompt request, and OK
   * comes only behind a final OK line and, for prompts, a successful payload write before it.
   */
  lemma AttemptGuarantees(p: P.State, req: Request, env: AttemptEnv)
    ensures var (r, k) := AttemptOf(p, req, env);
      && OnlyThese(k.tx.acts, req)
      && Writes(k.tx.acts) <= 1 && (!req.waitForPrompt || env.sending != Sent ==> Writes(k.tx.acts) == 0)
      && (r == Ok ==> Final(FinalOk) in k.tx.acts)
      && (r == Ok && req.waitForPrompt ==> OkAfterPayload(k.tx.acts, req.payload))
  {
    hide Turns, OkAfterPayload, Used;
    if env.sending == Sent {
      hide Writes, OnlyThese;
      StartIsGood(p, req);
      TurnsKeep(Started(p, req), req, env.turns);
    } else {
      NoWritesYet(Asked(CommandLine(req), false));
    }
  }

  lemma {:induction false} WritesConcat(a: seq<Act>, b: seq<Act>)
    ensures Writes(a + b) == Writes(a) + Writes(b)
    decreases |b|
  {
    if b == [] {
      assert a + b == a;
    } else {
      assert (a + b)[..|a + b| - 1] == a + b[..|b| - 1];
      WritesConcat(a, b[..|b| - 1]);
    }
  }

  /** A request as a whole, for every retry policy: no more payload writes than attempts, and nothing but its command line and payload. */
  lemma {:induction false} WritesPerRequest(p: P.State, req: Request, env: nat -> AttemptEnv, n: nat)
    requires n < Attempts(req)
    ensures var o := RequestFrom(p, req, env, n);
      && n < o.attempts <= Attempts(req)
      && Writes(o.acts) <= o.attempts - n && OnlyThese(o.acts, req) && !o.parser.prompt
      && (o.result == Ok && req.waitForPrompt ==> OkAfterPayload(o.acts, req.payload))
    decreases Attempts(req) - n
  {
    hide AttemptOf, Writes, OkAfterPayload, ShouldRetry, AfterIdle, OnlyThese;
    AttemptGuarantees(p, req, env(n));
    var (r, k) := AttemptOf(p, req, env(n));
    if !(r == Ok || !ShouldRetry(r, req.retry) || n + 1 == Attempts(req)) {
      var p' := AfterIdle(P.RESET, env(n).idle);
      IdleNoPrompt(P.RESET, env(n).idle);
      WritesPerRequest(p', req, env, n + 1);
      Behind(k.tx.acts, RequestFrom(p', req, env, n + 1).acts, req);
    }
  }

  /** The parser state attempt i of a request starts from, if the request starts from p with attempt n. */
  function StartOf(p: P.State, env: nat -> AttemptEnv, n: nat, i: nat): P.State {
    if i <= n then p else AfterIdle(P.RESET, env(i - 1).idle)
  }

  function ResultOf(p: P.State, req: Request, env: nat -> AttemptEnv, n: nat, i: nat): Result {
    AttemptOf(StartOf(p, env, n, i), req, env(i)).0
  }

  /** The policy names this result. */
  predicate Named(r: Result, retry: set<Retry>) {
    || (r == Timeout && OnTimeout in retry) || (r == Error && OnError in retry)
    || (r == CmeError && OnCmeError in retry) || (r == CmsError && OnCmsError in retry)
    || (r in {TransportError, Unavailable} && OnTransportError in retry)
  }

  /** A request is repeated exactly as long as the policy names the result and attempts are left. */
  lemma {:induction false} RetriesAsAsked(p: P.State, req: Request, env: nat -> AttemptEnv, n: nat)
    requires n < Attempts(req)
    ensures var o := RequestFrom(p, req, env, n);
      && n < o.attempts <= Attempts(req) && o.result == ResultOf(p, req, env, n, o.attempts - 1)
      && (forall i :: n <= i < o.attempts - 1 ==> Named(ResultOf(p, req, env, n, i), req.retry))
      && (o.attempts == Attempts(req) || !Named(o.result, req.retry))
    decreases Attempts(req) - n
  {
    hide AttemptOf, AfterIdle;
    var r := AttemptOf(p, req, env(n)).0;
    if !(r == Ok || !ShouldRetry(r, req.retry) || n + 1 == Attempts(req)) {
      var p' := AfterIdle(P.RESET, env(n).idle);
      RetriesAsAsked(p', req, env, n + 1);
      assert forall i :: i > n ==> ResultOf(p, req, env, n, i) == ResultOf(p', req, env, n + 1, i);
    }
  }

  lemma Behind(a: seq<Act>, b: seq<Act>, req: Request)
    requires OnlyThese(a, req) && OnlyThese(b, req)
    ensures OnlyThese(a + b, req) && Writes(a + b) == Writes(a) + Writes(b)
    ensures OkAfterPayload(b, req.payload) ==> OkAfterPayload(a + b, req.payload)
  {
    hide Writes;
    WritesConcat(a, b);
    if OkAfterPayload(b, req.payload) {
      var i, j :| 0 <= i < j < |b| && b[i] == Wrote(req.payload, true) && b[j] == Final(FinalOk);
      assert (a + b)[|a| + i] == b[i] && (a + b)[|a| + j] == b[j];
    }
  }

  lemma {:induction false} IdleNoPrompt(p: P.State, turns: seq<Turn>)
    requires !p.prompt
    ensures !AfterIdle(p, turns).prompt
    decreases |turns|
  {
    if turns != [] {
      var n := |turns| - 1;
      IdleNoPrompt(p, turns[..n]);
      if turns[n].Data? { FeedNoPrompt(AfterIdle(p, turns[..n]), turns[n].bytes); }
    }
  }

  // ----- what an attempt reports -----

  /** The lines a transaction takes note of: echoes of the command are none. */
  function Heard(tokens: seq<P.Token>, req: Request): seq<seq<byte>> {
    if tokens == [] then []
    else
      var last := tokens[|tokens| - 1];
      var before := Heard(tokens[..|tokens| - 1], req);
      if last.Line? && BeforeNul(last.text) != req.command then before + [BeforeNul(last.text)] else before
  }

  /** The tokens one after the other, with every payload write succeeding. */
  function ProcessAll(t: Tx, req: Request, tokens: seq<P.Token>): Tx {
    if tokens == [] then t
    else Process(ProcessAll(t, req, tokens[..|tokens| - 1]), req, tokens[|tokens| - 1], true)
  }

  /** No final line outside notifications, and no overlong line. */
  ghost predicate Undecided(tokens: seq<P.Token>, req: Request) {
    && P.Overflow !in tokens
    && forall i :: 0 <= i < |Answer(Heard(tokens, req), req.expected)| ==> FinalKind(Answer(Heard(tokens, req), req.expected)[i]).NoFinal?
  }

  /** The line is heard outside notifications. */
  ghost predicate Outside(tokens: seq<P.Token>, line: seq<byte>, req: Request) {
    && line != req.command
    && Answer(Heard(tokens, req) + [line], req.expected) == Answer(Heard(tokens, req), req.expected) + [line]
  }

  /** The lines fit the response buffer. */
  predicate FitsResponse(lines: seq<seq<byte>>) {
    |lines| <= 24 && Used(lines) <= 2048
  }

  /** A transaction that goes on: what it has heard, and whether it has written. */
  ghost predicate GoesOn(t: Tx, req: Request, tokens: seq<P.Token>) {
    && !t.done && (t.payloadSent <==> req.waitForPrompt && P.Prompt in tokens)
    && t.pending == RouteAll(0, Heard(tokens, req), req.expected).1
    && (FitsResponse(Answer(Heard(tokens, req), req.expected)) ==>
          t.lines == Answer(Heard(tokens, req), req.expected) && !t.truncated)
  }

  lemma HeardSnoc(tokens: seq<P.Token>, last: P.Token, req: Request)
    ensures Heard(tokens + [last], req)
         == if last.Line? && BeforeNul(last.text) != req.command then Heard(tokens, req) + [BeforeNul(last.text)] else Heard(tokens, req)
  {
    assert (tokens + [last])[..|tokens|] == tokens;
  }

  lemma FitsBefore(lines: seq<seq<byte>>, line: seq<byte>)
    requires FitsResponse(lines + [line])
    ensures FitsResponse(lines) && Used(lines) + |line| + 1 <= MAX_RESPONSE_BYTES && |lines| < MAX_RESPONSE_LINES
  {
    UsedSnoc(lines, line);
  }

  /** Answers grow at the end. */
  lemma AnswerSnoc(lines: seq<seq<byte>>, last: seq<byte>, expected: seq<seq<byte>>)
    ensures var (urc, counter) := Route(RouteAll(0, lines, expected).1, last, expected);
      && Answer(lines + [last], expected) == (if urc then Answer(lines, expected) else Answer(lines, expected) + [last])
      && RouteAll(0, lines + [last], expected).1 == counter
  {
    hide Route, RouteAll, Answer;
    RoutingReadsNotifications(lines, expected);
    RoutingReadsNotifications(lines + [last], expected);
    RouteAllSnoc(0, lines, last, expected);
  }

  /** As long as nothing decides it, a transaction goes on. */
  lemma {:induction false} NothingDecides(t: Tx, req: Request, tokens: seq<P.Token>)
    requires t.(acts := []) == START && Undecided(tokens, req)
    ensures GoesOn(ProcessAll(t, req, tokens), req, tokens)
    decreases |tokens|
  {
    hide Answer, FinalKind, Process, FitsResponse;
    if tokens == [] {
      NothingHeard(t, req);
    } else {
      var n := |tokens| - 1;
      var before, last := tokens[..n], tokens[n];
      assert tokens == before + [last];
      StillUndecided(before, last, req);
      NothingDecides(t, req, before);
      GoesOnWith(ProcessAll(t, req, before), req, before, last);
    }
  }

  lemma NothingHeard(t: Tx, req: Request)
    requires t.(acts := []) == START
    ensures GoesOn(t, req, [])
  {
  }

  lemma StillUndecided(tokens: seq<P.Token>, last: P.Token, req: Request)
    requires Undecided(tokens + [last], req)
    ensures Undecided(tokens, req) && last != P.Overflow
    ensures last.Line? && Outside(tokens, BeforeNul(last.text), req) ==> FinalKind(BeforeNul(last.text)).NoFinal?
  {
    hide Answer, FinalKind;
    HeardSnoc(tokens, last, req);
    var all := tokens + [last];
    assert all[|tokens|] == last;
    forall x | x in tokens ensures x in all {
    }
    var heard := Heard(tokens, req);
    if last.Line? && BeforeNul(last.text) != req.command {
      var line := BeforeNul(last.text);
      AnswerSnoc(heard, line, req.expected);
      var a, b := Answer(heard, req.expected), Answer(heard + [line], req.expected);
      forall i | 0 <= i < |a| ensures FinalKind(a[i]).NoFinal? {
        assert b[i] == a[i];
      }
      if Outside(tokens, line, req) { assert b[|a|] == line; }
    }
  }

  lemma GoesOnWith(t: Tx, req: Request, tokens: seq<P.Token>, last: P.Token)
    requires GoesOn(t, req, tokens) && last != P.Overflow
    requires last.Line? && Outside(tokens, BeforeNul(last.text), req) ==> FinalKind(BeforeNul(last.text)).NoFinal?
    ensures GoesOn(Process(t, req, last, true), req, tokens + [last])
  {
    hide Answer, FinalKind, Route, RouteAll, FitsResponse;
    HeardSnoc(tokens, last, req);
    if last.Line? && BeforeNul(last.text) != req.command {
      var line, heard := BeforeNul(last.text), Heard(tokens, req);
      AnswerSnoc(heard, line, req.expected);
      LineGoesOn(t, req, heard, line);
    }
  }

  lemma LineGoesOn(t: Tx, req: Request, heard: seq<seq<byte>>, line: seq<byte>)
    requires !t.done && t.pending == RouteAll(0, heard, req.expected).1 && line != req.command
    requires Answer(heard + [line], req.expected) == Answer(heard, req.expected) + [line] ==> FinalKind(line).NoFinal?
    requires FitsResponse(Answer(heard, req.expected)) ==> t.lines == Answer(heard, req.expected) && !t.truncated
    ensures var t' := ProcessLine(t, req, line);
      && !t'.done && t'.payloadSent == t.payloadSent && t'.pending == RouteAll(0, heard + [line], req.expected).1
      && (FitsResponse(Answer(heard + [line], req.expected)) ==> t'.lines == Answer(heard + [line], req.expected) && !t'.truncated)
  {
    hide Answer, FinalKind, Route, RouteAll, FitsResponse, Used;
    AnswerSnoc(heard, line, req.expected);
    var (urc, counter) := Route(t.pending, line, req.expected);
    if !urc {
      RouteNot(t.pending, line, req.expected);
      if FitsResponse(Answer(heard + [line], req.expected)) { FitsBefore(Answer(heard, req.expected), line); }
    }
  }

  /** What a final line of that text makes of an attempt. */
  ghost predicate Reports(r: Result, line: seq<byte>, written: bool, req: Request) {
    && (line == Ascii("OK") ==> r == if req.waitForPrompt && !written then ProtocolError else Ok)
    && (line == Ascii("ERROR") ==> r == Error)
    && (HasPrefix(line, Ascii("+CME ERROR:")) ==> r == CmeError)
    && (HasPrefix(line, Ascii("+CMS ERROR:")) ==> r == CmsError)
  }

  /**
   * The first final line outside notifications decides: OK is reported for OK, for prompts if the payload was
   * written before it, and errors by their names; the lines before it are the response. Later tokens
   * change nothing.
   */
  lemma FirstFinalDecides(t: Tx, req: Request, before: seq<P.Token>, line: seq<byte>, behind: seq<P.Token>)
    requires t.(acts := []) == START && Undecided(before, req) && P.Overflow !in behind
    requires Outside(before, BeforeNul(line), req) && !FinalKind(BeforeNul(line)).NoFinal?
    ensures var t' := ProcessAll(t, req, before + [P.Line(line)] + behind);
      && t'.done && Reports(t'.result, BeforeNul(line), P.Prompt in before, req)
      && (FitsResponse(Answer(Heard(before, req), req.expected)) ==> t'.lines == Answer(Heard(before, req), req.expected))
  {
    hide Answer, Route, FitsResponse, Undecided, RouteAll, Process;
    NothingDecides(t, req, before);
    var with := before + [P.Line(line)];
    assert with[..|before|] == before && with[|before|] == P.Line(line);
    FinalLine(ProcessAll(t, req, before), req, Heard(before, req), line);
    DoneStays(t, req, with, behind);
  }

  lemma FinalLine(t: Tx, req: Request, heard: seq<seq<byte>>, line: seq<byte>)
    requires !t.done && t.pending == RouteAll(0, heard, req.expected).1 && BeforeNul(line) != req.command
    requires Answer(heard + [BeforeNul(line)], req.expected) == Answer(heard, req.expected) + [BeforeNul(line)]
    requires !FinalKind(BeforeNul(line)).NoFinal?
    ensures var t' := Process(t, req, P.Line(line), true);
      t'.done && Reports(t'.result, BeforeNul(line), t.payloadSent, req) && t'.lines == t.lines
  {
    hide Answer, Route, RouteAll, BeforeNul;
    AnswerSnoc(heard, BeforeNul(line), req.expected);
    FinalsDiffer(BeforeNul(line));
  }

  lemma FinalsDiffer(line: seq<byte>)
    ensures line == Ascii("OK") ==> FinalKind(line) == FinalOk
    ensures line == Ascii("ERROR") ==> FinalKind(line) == FinalError
    ensures HasPrefix(line, Ascii("+CME ERROR:")) ==> FinalKind(line) == FinalCme
    ensures HasPrefix(line, Ascii("+CMS ERROR:")) ==> FinalKind(line) == FinalCms
  {
    var ok, error, cme, cms := Ascii("OK"), Ascii("ERROR"), Ascii("+CME ERROR:"), Ascii("+CMS ERROR:");
    assert |ok| == 2 && ok[0] == 79 && |error| == 5 && error[0] == 69;
    assert |cme| == 11 && cme[0] == 43 && cme[3] == 69;
    assert |cms| == 11 && cms[0] == 43 && cms[3] == 83;
  }

  lemma {:induction false} DoneStays(t: Tx, req: Request, tokens: seq<P.Token>, behind: seq<P.Token>)
    requires ProcessAll(t, req, tokens).done && P.Overflow !in behind
    ensures var a, b := ProcessAll(t, req, tokens), ProcessAll(t, req, tokens + behind);
      b.done && b.result == a.result && b.lines == a.lines
    decreases |behind|
  {
    if behind == [] {
      assert tokens + behind == tokens;
    } else {
      var n := |behind| - 1;
      assert (tokens + behind)[..|tokens + behind| - 1] == tokens + behind[..n];
      assert behind[n] in behind;
      forall x | x in behind[..n] ensures x in behind {
      }
      DoneStays(t, req, tokens, behind[..n]);
    }
  }

  // ----- the same from the bytes -----

  /** What the transaction gets to see of a stream: a prompt that is answered switches prompts off. */
  function Listen(p: P.State, req: Request, data: seq<byte>): (P.State, seq<P.Token>)
    decreases |data|
  {
    if data == [] then (p, [])
    else
      var n := |data| - 1;
      var (q, tokens) := Listen(p, req, data[..n]);
      var (q', more) := P.Step(q, data[n]);
      (if StartsWithPrompt(more) && req.waitForPrompt then q'.(prompt := false) else q', tokens + more)
  }

  lemma ListenSnoc(p: P.State, req: Request, data: seq<byte>, ch: byte)
    ensures var (q, tokens) := Listen(p, req, data);
      var (q', more) := P.Step(q, ch);
      Listen(p, req, data + [ch]) == (if StartsWithPrompt(more) && req.waitForPrompt then q'.(prompt := false) else q', tokens + more)
  {
    hide P.Step;
    assert (data + [ch])[..|data|] == data;
  }

  lemma {:induction false} ListenConcat(p: P.State, req: Request, a: seq<byte>, b: seq<byte>)
    ensures var (q, first) := Listen(p, req, a);
      Listen(p, req, a + b) == (Listen(q, req, b).0, first + Listen(q, req, b).1)
    decreases |b|
  {
    hide P.Step, Listen;
    var (q, first) := Listen(p, req, a);
    if b == [] {
      assert a + b == a;
      ListenNone(q, req);
      assert first + [] == first;
    } else {
      var n := |b| - 1;
      ListenConcat(p, req, a, b[..n]);
      assert b == b[..n] + [b[n]] && a + b == (a + b[..n]) + [b[n]];
      ListenSnoc(q, req, b[..n], b[n]);
      ListenSnoc(p, req, a + b[..n], b[n]);
      var (q1, more) := Listen(q, req, b[..n]);
      assert (first + more) + P.Step(q1, b[n]).1 == first + (more + P.Step(q1, b[n]).1);
    }
  }

  lemma ListenNone(p: P.State, req: Request)
    ensures Listen(p, req, []) == (p, [])
  {
  }

  lemma ProcessAllSnoc(t: Tx, req: Request, tokens: seq<P.Token>, more: seq<P.Token>)
    requires |more| <= 1
    ensures ProcessAll(t, req, tokens + more)
         == if more == [] then ProcessAll(t, req, tokens) else Process(ProcessAll(t, req, tokens), req, more[0], true)
  {
    hide Process;
    if more == [] {
      assert tokens + more == tokens;
    } else {
      assert (tokens + more)[..|tokens + more| - 1] == tokens;
    }
  }

  /** Feeding bytes is listening and processing what was heard. */
  lemma {:induction false} FeedIsListening(k: Link, req: Request, data: seq<byte>, writes: nat -> bool)
    requires forall i :: writes(i)
    ensures var (q, tokens) := Listen(k.parser, req, data);
      FeedLink(k, req, data, writes) == Link(q, ProcessAll(k.tx, req, tokens))
    decreases |data|
  {
    hide P.Step, Process;
    if data != [] {
      var n := |data| - 1;
      FeedIsListening(k, req, data[..n], writes);
      var (q, tokens) := Listen(k.parser, req, data[..n]);
      StepFacts(q, data[n]);
      ProcessAllSnoc(k.tx, req, tokens, P.Step(q, data[n]).1);
    }
  }

  /** Without a prompt request the transaction sees what the parser emits. */
  lemma {:induction false} ListenIsFeed(p: P.State, req: Request, data: seq<byte>)
    requires !p.prompt
    ensures Listen(p, req, data) == P.Feed(p, data)
    decreases |data|
  {
    hide P.Step;
    if data != [] {
      var n := |data| - 1;
      ListenIsFeed(p, req, data[..n]);
      FeedNoPrompt(p, data[..n]);
      assert data == data[..n] + [data[n]];
      P.FeedAppend(p, data[..n], [data[n]]);
      var q := P.Feed(p, data[..n]).0;
      P.FeedOne(q, data[n]);
      StepFacts(q, data[n]);
    }
  }

  /** Turns that bring bytes, or nothing, and payload writes that succeed. */
  ghost predicate Undisturbed(turns: seq<Turn>) {
    forall i :: 0 <= i < |turns| ==> turns[i].Nothing? || (turns[i].Data? && forall j :: turns[i].writes(j))
  }

  function StreamOf(turns: seq<Turn>): seq<byte> {
    if turns == [] then [] else (if turns[0].Data? then turns[0].bytes else []) + StreamOf(turns[1..])
  }

  /** An undisturbed attempt listens to its bytes until it is through. */
  lemma {:induction false} TurnsListen(k: Link, req: Request, turns: seq<Turn>) returns (n: nat)
    requires Undisturbed(turns)
    ensures n <= |StreamOf(turns)|
    ensures var (r, k') := Turns(k, req, turns);
      && k' == Link(Listen(k.parser, req, StreamOf(turns)[..n]).0, ProcessAll(k.tx, req, Listen(k.parser, req, StreamOf(turns)[..n]).1))
      && r == (if k'.tx.done then k'.tx.result else Timeout) && (!k'.tx.done ==> n == |StreamOf(turns)|)
    decreases |turns|
  {
    hide FeedLink, Listen, ProcessAll;
    var all := StreamOf(turns);
    if k.tx.done || turns == [] {
      n := 0;
      assert all[..0] == [];
      ListenNone(k.parser, req);
      NothingProcessed(k.tx, req);
    } else if turns[0].Nothing? {
      assert all == StreamOf(turns[1..]);
      n := TurnsListen(k, req, turns[1..]);
    } else {
      var bytes, rest := turns[0].bytes, StreamOf(turns[1..]);
      FeedIsListening(k, req, bytes, turns[0].writes);
      var k1 := FeedLink(k, req, bytes, turns[0].writes);
      var m := TurnsListen(k1, req, turns[1..]);
      n := |bytes| + m;
      assert all[..n] == bytes + rest[..m];
      ListenConcat(k.parser, req, bytes, rest[..m]);
      ProcessAllConcat(k.tx, req, Listen(k.parser, req, bytes).1, Listen(k1.parser, req, rest[..m]).1);
    }
  }

  lemma NothingProcessed(t: Tx, req: Request)
    ensures ProcessAll(t, req, []) == t
  {
  }

  lemma {:induction false} ProcessAllConcat(t: Tx, req: Request, a: seq<P.Token>, b: seq<P.Token>)
    ensures ProcessAll(t, req, a + b) == ProcessAll(ProcessAll(t, req, a), req, b)
    decreases |b|
  {
    hide Process;
    if b == [] {
      assert a + b == a;
    } else {
      assert (a + b)[..|a + b| - 1] == a + b[..|b| - 1];
      ProcessAllConcat(t, req, a, b[..|b| - 1]);
    }
  }

  lemma {:induction false} UndecidedPrefix(a: seq<P.Token>, b: seq<P.Token>, req: Request)
    requires Undecided(a + b, req)
    ensures Undecided(a, req)
    decreases |b|
  {
    hide Undecided;
    if b == [] {
      assert a + b == a;
    } else {
      var n := |b| - 1;
      assert a + b == (a + b[..n]) + [b[n]];
      StillUndecided(a + b[..n], b[n], req);
      UndecidedPrefix(a, b[..n], req);
    }
  }

  /**
   * What an undisturbed attempt reports, for every request, parser state and fragmentation of the bytes: a timeout
   * if no final line comes outside notifications, and else what the first such line says.
   */
  lemma AttemptReports(p: P.State, req: Request, env: AttemptEnv, before: seq<P.Token>, line: seq<byte>, behind: seq<P.Token>)
    requires env.sending == Sent && Undisturbed(env.turns)
    ensures var tokens := Listen(Started(p, req).parser, req, StreamOf(env.turns)).1;
      var (r, k) := AttemptOf(p, req, env);
      && (Undecided(tokens, req) ==> r == Timeout)
      && (tokens == before + [P.Line(line)] + behind && Undecided(before, req) && P.Overflow !in behind
          && Outside(before, BeforeNul(line), req) && !FinalKind(BeforeNul(line)).NoFinal? ==>
            && Reports(r, BeforeNul(line), P.Prompt in before, req)
            && (FitsResponse(Answer(Heard(before, req), req.expected)) ==> k.tx.lines == Answer(Heard(before, req), req.expected)))
  {
    hide Listen, Turns, Undecided, Outside, ProcessAll, Answer, FinalKind, FitsResponse, Reports, StreamOf, Undisturbed;
    var k0, data := Started(p, req), StreamOf(env.turns);
    var n := TurnsListen(k0, req, env.turns);
    assert data == data[..n] + data[n..];
    ListenConcat(k0.parser, req, data[..n], data[n..]);
    var (q, seen) := Listen(k0.parser, req, data[..n]);
    var tokens := Listen(k0.parser, req, data).1;
    var rest := Listen(q, req, data[n..]).1;
    assert tokens == seen + rest;
    if Undecided(tokens, req) {
      UndecidedPrefix(seen, rest, req);
      NothingDecides(k0.tx, req, seen);
    }
    if tokens == before + [P.Line(line)] + behind && Undecided(before, req) && P.Overflow !in behind
       && Outside(before, BeforeNul(line), req) && !FinalKind(BeforeNul(line)).NoFinal? {
      if |seen| <= |before| {
        SeenBefore(k0.tx, req, seen, rest, before, line, behind);
        assert n == |data|;
        assert data[n..] == [];
        ListenNone(q, req);
        assert false;
      }
      var later := seen[|before| + 1..];
      SeenBehind(seen, rest, before, line, behind);
      forall x | x in later ensures x in behind {
        var i :| 0 <= i < |later| && later[i] == x;
        assert behind[i] == tokens[|before| + 1 + i] == seen[|before| + 1 + i];
      }
      FirstFinalDecides(k0.tx, req, before, line, later);
    }
  }

  lemma SeenBehind(seen: seq<P.Token>, rest: seq<P.Token>, before: seq<P.Token>, line: seq<byte>, behind: seq<P.Token>)
    requires seen + rest == before + [P.Line(line)] + behind && |seen| > |before|
    ensures seen == before + [P.Line(line)] + seen[|before| + 1..]
  {
    var all, n := seen + rest, |before|;
    assert seen[..n] == all[..n] == before;
    assert seen[n] == all[n] == P.Line(line);
  }

  lemma SeenBefore(t: Tx, req: Request, seen: seq<P.Token>, rest: seq<P.Token>, before: seq<P.Token>, line: seq<byte>, behind: seq<P.Token>)
    requires t.(acts := []) == START && Undecided(before, req)
    requires seen + rest == before + [P.Line(line)] + behind && |seen| <= |before|
    ensures !ProcessAll(t, req, seen).done && rest != []
  {
    hide Undecided, ProcessAll;
    var more := before[|seen|..];
    assert seen == (seen + rest)[..|seen|] == before[..|seen|];
    assert before == seen + more;
    UndecidedPrefix(seen, more, req);
    NothingDecides(t, req, seen);
  }

  /** For a command without a prompt, on a parser at rest, these tokens are the plain reading of the bytes. */
  lemma PlainAttempt(req: Request, turns: seq<Turn>)
    requires !req.waitForPrompt
    ensures Listen(Started(P.RESET, req).parser, req, StreamOf(turns)).1 == P.Reading(P.Lines(StreamOf(turns)))
  {
    ListenIsFeed(P.RESET, req, StreamOf(turns));
    P.EmitsPlainReading(StreamOf(turns));
  }

  lemma RouteNot(pending: nat, line: seq<byte>, expected: seq<seq<byte>>)
    requires !Route(pending, line, expected).0
    ensures Route(pending, line, expected).1 == pending
  {
  }

  lemma HandleNone(k: Link, req: Request, ok: bool)
    ensures Handle(k, req, [], ok) == k
  {
  }

  lemma NoWritesYet(a: Act)
    requires !a.Wrote?
    ensures Writes([]) == 0 && Writes([a]) == 0
  {
    WritesSnoc([], a);
    assert [] + [a] == [a];
  }

  /** A command without a prompt never writes a payload. */
  lemma {:induction false} NoPromptNoWrite(k: Link, req: Request, data: seq<byte>, writes: nat -> bool)
    requires !req.waitForPrompt
    ensures Writes(FeedLink(k, req, data, writes).tx.acts) == Writes(k.tx.acts)
    decreases |data|
  {
    hide P.Step, Route, FinalKind, Capture;
    if data != [] {
      var k1 := FeedLink(k, req, data[..|data| - 1], writes);
      NoPromptNoWrite(k, req, data[..|data| - 1], writes);
      forall kind { WritesSnoc(k1.tx.acts, Final(kind)); }
      CaptureActs(k1.tx);
    }
  }

  lemma CaptureActs(t: Tx)
    ensures forall line :: Capture(t, line).acts == t.acts
  {
  }

  lemma {:induction false} FeedNoPrompt(p: P.State, data: seq<byte>)
    ensures P.Feed(p, data).0.prompt == p.prompt
    decreases |data|
  {
    hide P.Step;
    if data != [] {
      StepFacts(p, data[0]);
      FeedNoPrompt(P.Step(p, data[0]).0, data[1..]);
    }
  }
}
