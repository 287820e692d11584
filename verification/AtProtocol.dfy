/**
 * at_protocol.c and at_router.c: which lines are final results, which are unsolicited, and
 * which follow an unsolicited header.
 */
module AtProtocol {
  import opened Bytes

  datatype Kind = NoFinal | FinalOk | FinalError | FinalCme | FinalCms

  function Ascii(s: string): seq<byte> {
    seq(|s|, i requires 0 <= i < |s| => if s[i] < 128 as char then s[i] as int else 63)
  }

  predicate HasPrefix(line: seq<byte>, prefix: seq<byte>) {
    prefix <= line
  }

  predicate MatchesAny(line: seq<byte>, prefixes: seq<seq<byte>>) {
    exists i :: 0 <= i < |prefixes| && HasPrefix(line, prefixes[i])
  }

  const DEFAULT_URCS: seq<string> := [
    "+CMTI:", "+CMT:", "+CDS:", "+CDSI:", "+CBM:", "+CREG:", "+CGREG:", "+CEREG:", "+CUSD:", "+CLIP:", "+CRING:", "+CGEV:",
    "+CPIN:", "+CFUN:", "^RSSI:", "^MODE:", "^SRVST:", "^BOOT", "^DSFLOWRPT:", "^HCSQ:", "RING", "NO CARRIER", "SMS READY",
    "PB DONE"]

  predicate IsDefaultUrc(line: seq<byte>) {
    exists i :: 0 <= i < |DEFAULT_URCS| && HasPrefix(line, Ascii(DEFAULT_URCS[i]))
  }

  /** A known unsolicited prefix is a response if the command expects it. */
  predicate RoutesAsUrc(line: seq<byte>, expected: seq<seq<byte>>) {
    IsDefaultUrc(line) && !MatchesAny(line, expected)
  }

  function ContinuationLines(line: seq<byte>): nat {
    if HasPrefix(line, Ascii("+CMT:")) || HasPrefix(line, Ascii("+CDS:")) || HasPrefix(line, Ascii("+CBM:")) then 1 else 0
  }

  function FinalKind(line: seq<byte>): Kind {
    if line == Ascii("OK") then FinalOk
    else if line == Ascii("ERROR") then FinalError
    else if HasPrefix(line, Ascii("+CME ERROR:")) then FinalCme
    else if HasPrefix(line, Ascii("+CMS ERROR:")) then FinalCms
    else NoFinal
  }

  /** A final result is never taken for an unsolicited line. */
  lemma FinalIsNeverUrc(line: seq<byte>)
    requires !FinalKind(line).NoFinal?
    ensures !IsDefaultUrc(line)
  {
    hide Ascii;
    forall i | 0 <= i < |DEFAULT_URCS| ensures !HasPrefix(line, Ascii(DEFAULT_URCS[i])) {
      FinalsApart(line, DEFAULT_URCS[i]);
    }
  }

  /** What sets the unsolicited prefixes apart from final lines: an early character. */
  predicate Distinguished(urc: string) {
    |urc| >= 4 && (urc[0] !in "+OE" || (urc[0] == '+' && (urc[1] != 'C' || urc[2] != 'M' || urc[3] !in "ES")))
  }

  lemma FinalsApart(line: seq<byte>, urc: string)
    requires !FinalKind(line).NoFinal? && Distinguished(urc)
    ensures !HasPrefix(line, Ascii(urc))
  {
    var p := Ascii(urc);
    var ok, error, cme, cms := Ascii("OK"), Ascii("ERROR"), Ascii("+CME ERROR:"), Ascii("+CMS ERROR:");
    assert |ok| == 2 && error[0] == 69;
    assert cme[0] == 43 && cme[1] == 67 && cme[2] == 77 && cme[3] == 69;
    assert cms[0] == 43 && cms[1] == 67 && cms[2] == 77 && cms[3] == 83;
    assert p[0] == 43 ==> urc[0] == '+';
    assert p[0] != 69;
    assert p[0] == 43 ==> p[1] != 67 || p[2] != 77 || p[3] !in {69, 83};
  }

  /** at_router_route_line: whether the line is unsolicited, and how many further lines are. */
  function Route(pending: nat, line: seq<byte>, expected: seq<seq<byte>>): (bool, nat) {
    if pending > 0 then (true, pending - 1)
    else if RoutesAsUrc(line, expected) then (true, ContinuationLines(line))
    else (false, 0)
  }

  /** The router over a list of lines: what is left of the answer to the command, and the counter. */
  function RouteAll(pending: nat, lines: seq<seq<byte>>, expected: seq<seq<byte>>): (seq<seq<byte>>, nat)
    decreases |lines|
  {
    if lines == [] then ([], pending)
    else
      var (urc, counter) := Route(pending, lines[0], expected);
      var (rest, counter') := RouteAll(counter, lines[1..], expected);
      (if urc then rest else [lines[0]] + rest, counter')
  }

  /** The answer read off in whole notifications: a header takes the line behind it along. */
  function Answer(lines: seq<seq<byte>>, expected: seq<seq<byte>>): seq<seq<byte>> {
    if lines == [] then []
    else if !RoutesAsUrc(lines[0], expected) then [lines[0]] + Answer(lines[1..], expected)
    else if ContinuationLines(lines[0]) == 0 || |lines| == 1 then Answer(lines[1..], expected)
    else Answer(lines[2..], expected)
  }

  /** The router keeps state from line to line, yet it leaves exactly the lines outside whole notifications, whatever a body says. */
  lemma {:induction false} RoutingReadsNotifications(lines: seq<seq<byte>>, expected: seq<seq<byte>>)
    ensures RouteAll(0, lines, expected).0 == Answer(lines, expected)
    ensures RouteAll(0, lines, expected).1 <= 1
    decreases |lines|
  {
    hide RoutesAsUrc;
    if lines != [] {
      if RoutesAsUrc(lines[0], expected) && ContinuationLines(lines[0]) > 0 && |lines| > 1 {
        assert lines[1..][1..] == lines[2..];
        RoutingReadsNotifications(lines[2..], expected);
      } else {
        RoutingReadsNotifications(lines[1..], expected);
      }
    }
  }

  /** One line more. */
  lemma {:induction false} RouteAllSnoc(pending: nat, lines: seq<seq<byte>>, last: seq<byte>, expected: seq<seq<byte>>)
    ensures var (answer, counter) := RouteAll(pending, lines, expected);
      var (urc, counter') := Route(counter, last, expected);
      RouteAll(pending, lines + [last], expected) == (if urc then answer else answer + [last], counter')
    decreases |lines|
  {
    hide Route;
    var all := lines + [last];
    assert all[0] == if lines == [] then last else lines[0];
    if lines == [] {
      assert all[1..] == [];
      assert RouteAll(Route(pending, last, expected).1, [], expected).0 == [];
      assert [last] + [] == [last] && [] + [last] == [last];
    } else {
      assert all[1..] == lines[1..] + [last];
      var (urc, counter) := Route(pending, lines[0], expected);
      RouteAllSnoc(counter, lines[1..], last, expected);
      Prefixed(lines[0], RouteAll(counter, lines[1..], expected).0, last);
    }
  }

  lemma Prefixed(a: seq<byte>, b: seq<seq<byte>>, c: seq<byte>)
    ensures [a] + (b + [c]) == ([a] + b) + [c]
  {
  }

  class Router {
    var pending: nat

    constructor ()
      ensures pending == 0
    {
      pending := 0;
    }

    method RouteLine(line: seq<byte>, expected: seq<seq<byte>>) returns (urc: bool)
      modifies this
      ensures (urc, pending) == Route(old(pending), line, expected)
    {
      if pending > 0 {
        pending := pending - 1;
        return true;
      }
      if RoutesAsUrc(line, expected) {
        pending := ContinuationLines(line);
        return true;
      }
      return false;
    }
  }
}
