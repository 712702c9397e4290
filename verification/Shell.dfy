/**
 The persistent bash session.  Every command is followed by a line that starts with a marker;
 ExecuteStream reads stdout line by line up to that line, sending the lines on with one
 line's delay for blank ones, since the blank line written before the marker is not output.
 */
module Shell {
  import opened Characters
  import opened Numbers
  import opened Options
  import opened ShellText
  import opened ShellStderr
  import opened StderrPipe

  /** How reading up to the marker ends, and what it leaves unread. */
  datatype Stop =
    | AtMarker(code: string, unread: string)
    | OverLimit(unread: string)
    | AtEnd

  datatype Reading = Reading(lines: seq<string>, stop: Stop)

  predicate HasPrefix(s: string, prefix: string) {
    prefix <= s
  }

  /** The lines before the marker line. */
  function ReadToMarker(unread: string, marker: string): Reading
    decreases |unread|
  {
    match Scan(unread)
    case EndOfText => Reading([], AtEnd)
    case TooLong => Reading([], OverLimit(unread))
    case Line(line, rest) =>
      if HasPrefix(line, marker) then Reading([], AtMarker(line[|marker|..], rest))
      else
        var tail := ReadToMarker(rest, marker);
        Reading([line] + tail.lines, tail.stop)
  }

  /** What is sent for the lines: a blank one only once the next line has come. */
  function Messages(lines: seq<string>, pendingEmpty: bool): seq<string> {
    if lines == [] then []
    else NewMessages(pendingEmpty, lines[0]) + Messages(lines[1..], lines[0] == "")
  }

  /** What one line adds to the messages. */
  function NewMessages(pendingEmpty: bool, line: string): seq<string> {
    (if pendingEmpty then ["\n"] else []) + (if line == "" then [] else [line + "\n"])
  }

  /** What bash makes of one script: it may also exit, and then nothing comes after this. */
  datatype Reply = Reply(stdout: string, stderr: string)

  /** The reads of stderr: since the call before, until the buffer is cleared; then until the marker is set;
      then until the call looks at the buffer. */
  datatype Cutting = Cutting(before: seq<nat>, between: seq<nat>, during: seq<nat>)

  /** One call: what bash replies, how its stderr is read, and what goes wrong outside. `failAt` is the
      number of the send during which the request is cancelled. */
  datatype Call = Call(marker: string, reply: Reply, cutting: Cutting,
                       cancelledBefore: bool, writeFails: bool, failAt: Option<nat>)

  datatype Result =
    | Exited(code: int, stderr: string)
    | Desynchronized                       // broken before the call
    | Cancelled
    | WriteFailed
    | SendFailed
    | BadExitCode
    | OutputTooLong
    | OutputEnded
    | Waiting                              // for a read that brings the stderr marker; the call is not over

  /** The session between calls: stdout not yet read, whether it is broken, how many scripts bash got, and stderr. */
  datatype Session = Session(unread: string, broken: bool, written: nat, pipe: Pipe)

  datatype Effect = Effect(after: Session, result: Result, sent: seq<string>)

  function SentOf(messages: seq<string>, failAt: Option<nat>): seq<string> {
    if failAt.Some? && failAt.value < |messages| then messages[..failAt.value] else messages
  }

  predicate SendFails(messages: seq<string>, failAt: Option<nat>) {
    failAt.Some? && failAt.value < |messages|
  }

  /** Clear the buffer and await the marker; the reader goes on reading meanwhile. */
  function Opened(p: Pipe, call: Call): Pipe {
    var read := Reads(p, call.cutting.before);
    var cleared := Reads(read.(collector := read.collector.(buffer := "")), call.cutting.between);
    cleared.(collector := cleared.collector.(marker := call.marker))
  }

  /** Stderr by the time the call looks at it, its script having gone to bash. */
  function Looked(p: Pipe, call: Call): Pipe {
    Reads(p.(coming := p.coming + call.reply.stderr), call.cutting.during)
  }

  /** What one call does. */
  function Execute(s: Session, call: Call): Effect {
    if s.broken then Effect(s, Desynchronized, [])
    else
      var ready := s.(pipe := Opened(s.pipe, call));
      if call.cancelledBefore then Effect(ready, Cancelled, [])
      else if call.writeFails then Effect(ready.(broken := true), WriteFailed, [])
      else Drain(Session(s.unread + call.reply.stdout, false, s.written + 1, Looked(ready.pipe, call)), call)
  }

  /** The script is with bash: read its output up to the marker. */
  function Drain(s: Session, call: Call): Effect {
    var reading := ReadToMarker(s.unread, call.marker);
    var messages := Messages(reading.lines, false);
    var fails := SendFails(messages, call.failAt);
    var sent := SentOf(messages, call.failAt);
    match reading.stop
    case AtEnd => Effect(s.(unread := "", broken := true), OutputEnded, sent)
    case OverLimit(unread) => Effect(s.(unread := unread, broken := true), OutputTooLong, sent)
    case AtMarker(code, unread) =>
      match Atoi(code)
      case None => Effect(s.(unread := unread, broken := fails), BadExitCode, sent)
      case Some(n) =>
        if s.pipe.collector.marker != "" then Effect(s.(unread := unread, broken := fails), Waiting, sent)
        else Effect(s.(unread := unread, broken := false),
                    if fails then SendFailed else Exited(n, s.pipe.collector.buffer), sent)
  }

  lemma {:induction false} MessagesAppend(lines: seq<string>, pending: bool, line: string)
    ensures var now := PendingAfter(lines, pending);
            Messages(lines + [line], pending) ==
            Messages(lines, pending) + NewMessages(now, line)
    ensures PendingAfter(lines + [line], pending) <==> line == ""
  {
    if lines == [] {
      assert [line][1..] == [];
    } else {
      var next := lines[0] == "";
      assert (lines + [line])[1..] == lines[1..] + [line];
      MessagesAppend(lines[1..], next, line);
      assert PendingAfter(lines[1..], next) == PendingAfter(lines, pending);
    }
  }

  predicate PendingAfter(lines: seq<string>, pending: bool) {
    if lines == [] then pending else lines[|lines| - 1] == ""
  }

  lemma SendsGoOn(messages: seq<string>, more: seq<string>, failAt: Option<nat>)
    ensures SendFails(messages, failAt) ==>
              SendFails(messages + more, failAt) && SentOf(messages + more, failAt) == SentOf(messages, failAt)
    ensures !SendFails(messages, failAt) ==> SentOf(messages, failAt) == messages
  {
  }

  ghost predicate ReadSoFar(text: string, lines: seq<string>, unread: string, marker: string) {
    var rest := ReadToMarker(unread, marker);
    ReadToMarker(text, marker) == Reading(lines + rest.lines, rest.stop)
  }

  lemma LinesGoOn(text: string, lines: seq<string>, unread: string, line: string, rest: string, marker: string)
    requires !HasPrefix(line, marker)
    requires ReadSoFar(text, lines, unread, marker) && Scan(unread) == Line(line, rest)
    ensures ReadSoFar(text, lines + [line], rest, marker)
  {
    var tail := ReadToMarker(rest, marker);
    assert ReadToMarker(unread, marker) == Reading([line] + tail.lines, tail.stop);
    assert lines + ([line] + tail.lines) == lines + [line] + tail.lines;
  }

  lemma ReadingEnds(text: string, lines: seq<string>, unread: string, marker: string)
    requires ReadSoFar(text, lines, unread, marker)
    ensures Scan(unread).EndOfText? ==> ReadToMarker(text, marker) == Reading(lines, AtEnd)
    ensures Scan(unread).TooLong? ==> ReadToMarker(text, marker) == Reading(lines, OverLimit(unread))
    ensures Scan(unread).Line? && HasPrefix(Scan(unread).line, marker) ==>
              ReadToMarker(text, marker) == Reading(lines, AtMarker(Scan(unread).line[|marker|..], Scan(unread).rest))
  {
    assert lines + [] == lines;
  }

  const NOTHING_READ := Pipe(Collector("", "", 0), "")

  class BashShell {
    var unread: string
    var broken: bool
    var stderrBuf: string
    var stderrMarker: string
    var stderrCloses: nat        // how often a done channel was closed
    var stderrComing: string     // written by bash and not read yet
    ghost var written: nat

    constructor ()
      ensures State() == Session("", false, 0, NOTHING_READ)
    {
      unread, broken, written := "", false, 0;
      stderrBuf, stderrMarker, stderrCloses, stderrComing := "", "", 0, "";
    }

    function Stderr(): Pipe
      reads this
    {
      Pipe(Collector(stderrBuf, stderrMarker, stderrCloses), stderrComing)
    }

    ghost function State(): Session
      reads this
    {
      Session(unread, broken, written, Stderr())
    }

    /** Take the marker out of the buffer, with its newline if that is there, and close the channel. */
    method CheckStderrMarker()
      modifies this`stderrBuf, this`stderrMarker, this`stderrCloses
      ensures Stderr().collector == Check(old(Stderr().collector))
    {
      if stderrMarker == "" {
        return;
      }
      var at := IndexOf(stderrBuf, stderrMarker);
      if at.None? {
        return;
      }
      var markerEnd := at.value + |stderrMarker|;
      if markerEnd < |stderrBuf| && stderrBuf[markerEnd] == NEWLINE {
        markerEnd := markerEnd + 1;
      }
      stderrBuf := stderrBuf[..at.value] + stderrBuf[markerEnd..];
      stderrMarker := "";
      stderrCloses := stderrCloses + 1;
    }

    /** The reader's loop, for reads of these sizes. */
    method ReadStderr(sizes: seq<nat>)
      modifies this`stderrBuf, this`stderrMarker, this`stderrCloses, this`stderrComing
      ensures Stderr() == Reads(old(Stderr()), sizes)
    {
      for i := 0 to |sizes|
        invariant Stderr() == Reads(old(Stderr()), sizes[..i])
      {
        assert sizes[..i + 1][..i] == sizes[..i];
        var k := Min(sizes[i], |stderrComing|);
        var chunk := stderrComing[..k];
        stderrComing := stderrComing[k..];
        if chunk != "" {
          stderrBuf := stderrBuf + chunk;
          CheckStderrMarker();
        }
      }
      assert sizes[..|sizes|] == sizes;
    }

    /** Clear the buffer, and set the marker to wait for. */
    method OpenStderr(call: Call)
      modifies this`stderrBuf, this`stderrMarker, this`stderrCloses, this`stderrComing
      ensures Stderr() == Opened(old(Stderr()), call)
    {
      ReadStderr(call.cutting.before);
      stderrBuf := "";
      ReadStderr(call.cutting.between);
      stderrMarker := call.marker;
    }

    /** Send the held-back blank line, if any, and then the line, unless it is blank itself. */
    method Deliver(sent: seq<string>, pending: bool, line: string, failAt: Option<nat>)
      returns (now: seq<string>, pendingEmpty: bool, failed: bool)
      requires !SendFails(sent, failAt)
      ensures failed <==> SendFails(sent + NewMessages(pending, line), failAt)
      ensures now == SentOf(sent + NewMessages(pending, line), failAt)
      ensures !failed ==> (pendingEmpty <==> line == "")
    {
      now, pendingEmpty, failed := sent, pending, false;
      if pendingEmpty {
        if failAt == Some(|now|) {
          return now, pendingEmpty, true;
        }
        now := now + ["\n"];
        pendingEmpty := false;
      }
      if line == "" {
        pendingEmpty := true;
      } else if failAt == Some(|now|) {
        failed := true;
      } else {
        now := now + [line + "\n"];
      }
    }

    /** Run a command; `sent` is everything that went to the output channel before it was closed. */
    method ExecuteStream(call: Call) returns (result: Result, sent: seq<string>)
      modifies this
      ensures Effect(State(), result, sent) == Execute(old(State()), call)
    {
      sent := [];
      if broken {
        return Desynchronized, sent;
      }
      OpenStderr(call);
      if call.cancelledBefore {
        return Cancelled, sent;
      }
      if call.writeFails {
        broken := true;
        return WriteFailed, sent;
      }
      unread := unread + call.reply.stdout;
      stderrComing := stderrComing + call.reply.stderr;
      written := written + 1;
      ReadStderr(call.cutting.during);
      result, sent := ReadOutput(call);
    }

    /** After the script is written: read its output, then judge what stopped the reading. The call goes on only
        once a read has brought the stderr marker. */
    method ReadOutput(call: Call) returns (result: Result, sent: seq<string>)
      requires !broken
      modifies this`unread, this`broken
      ensures Effect(State(), result, sent) == Drain(old(State()), call)
    {
      var stop, failed;
      stop, sent, failed := ScanToMarker(call);
      broken := failed;
      match stop {
        case AtEnd =>
          broken := true;
          result := OutputEnded;
        case OverLimit(_) =>
          broken := true;
          result := OutputTooLong;
        case AtMarker(code, _) =>
          match Atoi(code) {
            case None => result := BadExitCode;
            case Some(n) =>
              if stderrMarker != "" {
                return Waiting, sent;
              }
              broken := false;
              result := if failed then SendFailed else Exited(n, stderrBuf);
          }
      }
    }

    /** The scan loop: after a failed send it goes on reading, so as to reach the marker. */
    method ScanToMarker(call: Call) returns (stop: Stop, sent: seq<string>, sendErr: bool)
      modifies this`unread
      ensures stop == ReadToMarker(old(unread), call.marker).stop
      ensures var messages := Messages(ReadToMarker(old(unread), call.marker).lines, false);
              sent == SentOf(messages, call.failAt) && (sendErr <==> SendFails(messages, call.failAt))
      ensures unread == match stop case AtEnd => "" case OverLimit(rest) => rest case AtMarker(_, rest) => rest
    {
      ghost var text := unread;
      ghost var lines: seq<string> := [];
      sent, sendErr := [], false;
      var pendingEmpty := false;
      while true
        invariant ReadSoFar(text, lines, unread, call.marker)
        invariant sendErr <==> SendFails(Messages(lines, false), call.failAt)
        invariant sent == SentOf(Messages(lines, false), call.failAt)
        invariant !sendErr ==> (pendingEmpty <==> PendingAfter(lines, false))
        decreases |unread|
      {
        ReadingEnds(text, lines, unread, call.marker);
        ghost var before := unread;
        var line := "";
        match Scan(unread) {
          case EndOfText =>
            unread := "";
            return AtEnd, sent, sendErr;
          case TooLong =>
            return OverLimit(unread), sent, sendErr;
          case Line(scanned, rest) =>
            ScanAdvances(unread);
            line, unread := scanned, rest;
        }
        if HasPrefix(line, call.marker) {
          return AtMarker(line[|call.marker|..], unread), sent, sendErr;
        }
        LinesGoOn(text, lines, before, line, unread, call.marker);
        MessagesAppend(lines, false, line);
        SendsGoOn(Messages(lines, false), NewMessages(pendingEmpty, line), call.failAt);
        lines := lines + [line];
        if !sendErr {
          sent, pendingEmpty, sendErr := Deliver(sent, pendingEmpty, line, call.failAt);
        }
      }
    }
  }
}
