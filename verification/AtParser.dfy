/**
 * at_parser.c: a byte automaton that cuts the modem's output into lines and prompts,
 * and the plain reading of what it should emit: the whole stream split at CR and LF.
 */
module AtParser {
  import opened Bytes

  const MAX_LINE := 512
  const CR: byte := 13
  const LF: byte := 10
  const SPACE: byte := 32
  const GREATER: byte := 62

  datatype Token = Line(text: seq<byte>) | Prompt | Overflow

  datatype State = State(line: seq<byte>, discarding: bool, skipSpace: bool, prompt: bool)

  const RESET := State([], false, false, false)

  predicate IsEnd(ch: byte) {
    ch == CR || ch == LF
  }

  /** One byte: the next state and what is handed to the callback. */
  function Step(p: State, ch: byte): (State, seq<Token>) {
    var p1 := p.(skipSpace := false);
    if p.skipSpace && ch == SPACE then (p1, [])
    else if p1.discarding then
      if IsEnd(ch) then (p1.(discarding := false, line := []), [Overflow]) else (p1, [])
    else if IsEnd(ch) then (p1.(line := []), if p1.line == [] then [] else [Line(p1.line)])
    else if p1.prompt && ch == GREATER && p1.line == [] then (p1.(skipSpace := true), [Prompt])
    else if |p1.line| >= MAX_LINE then (p1.(discarding := true, line := []), [])
    else (p1.(line := p1.line + [ch]), [])
  }

  function Feed(p: State, data: seq<byte>): (State, seq<Token>)
    decreases |data|
  {
    if data == [] then (p, [])
    else
      var (p1, first) := Step(p, data[0]);
      var (p2, rest) := Feed(p1, data[1..]);
      (p2, first + rest)
  }

  // ----- fragmentation -----

  lemma {:induction false} FeedAppend(p: State, a: seq<byte>, b: seq<byte>)
    ensures var (p1, ta) := Feed(p, a);
      var (p2, tb) := Feed(p1, b);
      Feed(p, a + b) == (p2, ta + tb)
    decreases |a|
  {
    hide Step;
    if a == [] {
      assert a + b == b;
      assert [] + Feed(p, b).1 == Feed(p, b).1;
    } else {
      var (p1, first) := Step(p, a[0]);
      assert (a + b)[1..] == a[1..] + b;
      FeedAppend(p1, a[1..], b);
      var (p2, ta) := Feed(p1, a[1..]);
      assert first + (ta + Feed(p2, b).1) == (first + ta) + Feed(p2, b).1;
    }
  }

  function Concat(chunks: seq<seq<byte>>): seq<byte> {
    if chunks == [] then [] else chunks[0] + Concat(chunks[1..])
  }

  /** The chunks one call of at_parser_feed after the other. */
  function FeedChunks(p: State, chunks: seq<seq<byte>>): (State, seq<Token>)
    decreases |chunks|
  {
    if chunks == [] then (p, [])
    else
      var (p1, first) := Feed(p, chunks[0]);
      var (p2, rest) := FeedChunks(p1, chunks[1..]);
      (p2, first + rest)
  }

  /** Where the transport cuts the stream makes no difference. */
  lemma {:induction false} ChunkingIsInvisible(p: State, chunks: seq<seq<byte>>)
    ensures FeedChunks(p, chunks) == Feed(p, Concat(chunks))
    decreases |chunks|
  {
    hide Step;
    if chunks != [] {
      FeedAppend(p, chunks[0], Concat(chunks[1..]));
      ChunkingIsInvisible(Feed(p, chunks[0]).0, chunks[1..]);
    }
  }

  // ----- the plain reading -----

  /** The position of the first CR or LF. */
  function FirstEnd(s: seq<byte>): (n: nat)
    ensures n <= |s|
    ensures forall i :: 0 <= i < n ==> !IsEnd(s[i])
    ensures n < |s| ==> IsEnd(s[n])
  {
    if s == [] || IsEnd(s[0]) then 0 else 1 + FirstEnd(s[1..])
  }

  /** The complete lines of a stream. */
  function Lines(s: seq<byte>): seq<seq<byte>>
    decreases |s|
  {
    var n := FirstEnd(s);
    if n == |s| then [] else [s[..n]] + Lines(s[n + 1..])
  }

  /** Empty lines say nothing; overlong ones are reported once. */
  function ReadLine(l: seq<byte>): seq<Token> {
    if l == [] then [] else if |l| <= 512 then [Line(l)] else [Overflow]
  }

  function Reading(lines: seq<seq<byte>>): seq<Token> {
    if lines == [] then [] else ReadLine(lines[0]) + Reading(lines[1..])
  }

  /** The state in the middle of a line that began with s. */
  function Held(s: seq<byte>): State {
    if |s| <= MAX_LINE then RESET.(line := s) else RESET.(discarding := true)
  }

  lemma {:induction false} FeedInsideLine(s: seq<byte>)
    requires forall i :: 0 <= i < |s| ==> !IsEnd(s[i])
    ensures Feed(RESET, s) == (Held(s), [])
    decreases |s|
  {
    if s != [] {
      var n := |s| - 1;
      FeedInsideLine(s[..n]);
      FeedAppend(RESET, s[..n], [s[n]]);
      assert s == s[..n] + [s[n]];
      FeedOne(Held(s[..n]), s[n]);
    }
  }

  lemma FeedOne(p: State, ch: byte)
    ensures Feed(p, [ch]) == Step(p, ch)
  {
    hide Step;
    assert [ch][1..] == [];
    assert Step(p, ch).1 + [] == Step(p, ch).1;
  }

  lemma LineEnds(l: seq<byte>, ch: byte)
    requires IsEnd(ch)
    ensures Step(Held(l), ch) == (RESET, ReadLine(l))
  {
  }

  /** With prompts off the automaton emits exactly the plain reading of the stream. */
  lemma {:induction false} EmitsPlainReading(s: seq<byte>)
    ensures Feed(RESET, s).1 == Reading(Lines(s))
    decreases |s|
  {
    hide Step, Feed, ReadLine, IsEnd, Held, FirstEnd;
    var n := FirstEnd(s);
    FeedInsideLine(s[..n]);
    if n == |s| {
      assert s[..n] == s;
    } else {
      var rest := s[n + 1..];
      assert s == s[..n] + ([s[n]] + rest);
      FeedAppend(RESET, s[..n], [s[n]] + rest);
      FeedAppend(Held(s[..n]), [s[n]], rest);
      FeedOne(Held(s[..n]), s[n]);
      LineEnds(s[..n], s[n]);
      EmitsPlainReading(rest);
      assert Lines(s) == [s[..n]] + Lines(rest);
      assert Lines(s)[1..] == Lines(rest);
    }
  }

  /** For every stream in every fragmentation. */
  lemma EveryFragmentation(chunks: seq<seq<byte>>)
    ensures FeedChunks(RESET, chunks).1 == Reading(Lines(Concat(chunks)))
  {
    ChunkingIsInvisible(RESET, chunks);
    EmitsPlainReading(Concat(chunks));
  }

  /** What the automaton may hold: never more than a line. */
  predicate Bounded(p: State) {
    |p.line| <= MAX_LINE
  }

  /** at_parser_t: the line in a fixed buffer, and three flags. */
  class Parser {
    const line: array<byte>
    var length: nat
    var discarding: bool
    var skipSpace: bool
    var prompt: bool

    ghost predicate Valid()
      reads this, line
    {
      line.Length == MAX_LINE + 1 && length <= MAX_LINE
    }

    ghost function Abs(): State
      requires Valid()
      reads this, line
    {
      State(line[..length], discarding, skipSpace, prompt)
    }

    constructor ()
      ensures Valid() && Abs() == RESET && fresh(line)
    {
      line := new byte[MAX_LINE + 1](_ => 0);
      length, discarding, skipSpace, prompt := 0, false, false, false;
    }

    /** at_parser_reset. */
    method Reset()
      requires Valid()
      modifies this
      ensures Valid() && Abs() == RESET
    {
      length, discarding, skipSpace, prompt := 0, false, false, false;
    }

    /** at_parser_set_prompt_enabled. */
    method SetPromptEnabled(enabled: bool)
      requires Valid()
      modifies this`prompt, this`skipSpace
      ensures Valid()
      ensures Abs() == old(Abs()).(prompt := enabled, skipSpace := old(skipSpace) && enabled)
    {
      prompt := enabled;
      if !enabled {
        skipSpace := false;
      }
    }

    /** The body of the loop in at_parser_feed; at most one token. */
    method FeedByte(ch: byte) returns (tokens: seq<Token>)
      requires Valid()
      modifies this, line
      ensures Valid() && (Abs(), tokens) == Step(old(Abs()), ch)
    {
      if skipSpace {
        skipSpace := false;
        if ch == SPACE {
          return [];
        }
      }
      if discarding {
        if IsEnd(ch) {
          discarding := false;
          length := 0;
          return [Overflow];
        }
        return [];
      }
      if IsEnd(ch) {
        tokens := EmitLine();
        return;
      }
      if prompt && ch == GREATER && length == 0 {
        skipSpace := true;
        return [Prompt];
      }
      if length >= MAX_LINE {
        discarding := true;
        length := 0;
        return [];
      }
      ghost var before := line[..length];
      line[length] := ch;
      length := length + 1;
      assert line[..length] == before + [ch];
      return [];
    }

    /** emit_line. */
    method EmitLine() returns (tokens: seq<Token>)
      requires Valid()
      modifies this`length, line
      ensures Valid() && length == 0
      ensures tokens == if old(length) == 0 then [] else [Line(old(line[..length]))]
    {
      if length == 0 {
        return [];
      }
      tokens := [Line(line[..length])];
      line[length] := 0;
      length := 0;
    }

    /** at_parser_feed with a callback that only collects. */
    method FeedAll(data: seq<byte>) returns (tokens: seq<Token>)
      requires Valid()
      modifies this, line
      ensures Valid() && (Abs(), tokens) == Feed(old(Abs()), data)
    {
      hide Step;
      tokens := [];
      for i := 0 to |data|
        invariant Valid() && (Abs(), tokens) == Feed(old(Abs()), data[..i])
      {
        ghost var p, sofar := Abs(), tokens;
        var more := FeedByte(data[i]);
        tokens := tokens + more;
        assert data[..i + 1] == data[..i] + [data[i]];
        FeedAppend(old(Abs()), data[..i], [data[i]]);
        FeedOne(p, data[i]);
      }
      assert data[..|data|] == data;
    }
  }
}
