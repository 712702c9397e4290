/**
 The answer to a command as an event stream: the runner writes each event as one `data:` line
 and a blank line, and the browser cuts whatever text each read brings into lines again.
 Payloads are texts without newlines; how an event becomes a payload is left open.
 */
module EventStream {
  import opened Options
  import opened Characters
  import opened ShellText
  import opened ShellProtocol

  const DATA := "data:"

  /** What the browser's trimStart takes off. */
  predicate IsTrimmed(c: char) {
    IsCommonSpace(c) || c == '\U{FEFF}'
  }

  function TrimStart(s: string): string {
    if s != "" && IsTrimmed(s[0]) then TrimStart(s[1..]) else s
  }

  /** The payload of a line; "" if it has none. */
  function PayloadOf(line: string): string {
    if DATA <= line then TrimStart(line[|DATA|..]) else ""
  }

  function Payloads(lines: seq<string>): seq<string> {
    if lines == [] then []
    else (if PayloadOf(lines[0]) == "" then [] else [PayloadOf(lines[0])]) + Payloads(lines[1..])
  }

  /** The whole stream read at once. */
  function ReadWhole(text: string): seq<string> {
    Payloads(SplitLines(text))
  }

  function Frame(payload: string): string {
    "data: " + payload + "\n\n"
  }

  function Wire(payloads: seq<string>): string {
    if payloads == [] then "" else Frame(payloads[0]) + Wire(payloads[1..])
  }

  // ---- Reading in chunks --------------------------------------------------------------

  function LastLine(text: string): string {
    SplitLines(text)[|SplitLines(text)| - 1]
  }

  function FullLines(text: string): seq<string> {
    SplitLines(text)[..|SplitLines(text)| - 1]
  }

  lemma SplitOfNewline(text: string)
    ensures SplitLines([NEWLINE] + text) == [""] + SplitLines(text)
  {
    assert ([NEWLINE] + text)[1..] == text;
  }

  lemma SplitOfOther(c: char, text: string)
    requires c != NEWLINE
    ensures SplitLines([c] + text) == [[c] + SplitLines(text)[0]] + SplitLines(text)[1..]
  {
    assert ([c] + text)[1..] == text;
  }

  /** More text only goes on from the unfinished line. */
  lemma {:induction false} SplitGoesOn(text: string, more: string)
    ensures SplitLines(text + more) == FullLines(text) + SplitLines(LastLine(text) + more)
  {
    if text == "" {
      assert SplitLines("") == [""];
      assert text + more == more && LastLine("") + more == more;
    } else {
      var c, rest := text[0], text[1..];
      assert text == [c] + rest && text + more == [c] + (rest + more);
      SplitGoesOn(rest, more);
      if c == NEWLINE {
        GoesOnBehindNewline(rest, more);
      } else {
        GoesOnBehindOther(c, rest, more);
      }
    }
  }

  lemma GoesOnBehindNewline(rest: string, more: string)
    requires SplitLines(rest + more) == FullLines(rest) + SplitLines(LastLine(rest) + more)
    ensures var text := [NEWLINE] + rest;
            SplitLines([NEWLINE] + (rest + more)) == FullLines(text) + SplitLines(LastLine(text) + more)
  {
    SplitOfNewline(rest);
    SplitOfNewline(rest + more);
    assert FullLines([NEWLINE] + rest) == [""] + FullLines(rest);
  }

  lemma GoesOnBehindOther(c: char, rest: string, more: string)
    requires c != NEWLINE
    requires SplitLines(rest + more) == FullLines(rest) + SplitLines(LastLine(rest) + more)
    ensures var text := [c] + rest;
            SplitLines([c] + (rest + more)) == FullLines(text) + SplitLines(LastLine(text) + more)
  {
    SplitOfOther(c, rest);
    SplitOfOther(c, rest + more);
    GoesOnBehind(c, FullLines(rest), LastLine(rest), more);
    assert SplitLines(rest) == FullLines(rest) + [LastLine(rest)];
  }

  /** Putting a character in front of the first line, when the text goes on behind the last. */
  lemma GoesOnBehind(c: char, full: seq<string>, last: string, more: string)
    requires c != NEWLINE
    ensures var lines, longer := full + [last], full + SplitLines(last + more);
            var now := [[c] + lines[0]] + lines[1..];
            [[c] + longer[0]] + longer[1..] == now[..|now| - 1] + SplitLines(now[|now| - 1] + more)
  {
    if full == [] {
      SplitOfOther(c, last + more);
      assert [c] + last + more == [c] + (last + more);
      assert full + SplitLines(last + more) == SplitLines(last + more);
    } else {
      var lines, longer := full + [last], full + SplitLines(last + more);
      assert lines[1..] == full[1..] + [last];
      assert longer[1..] == full[1..] + SplitLines(last + more);
    }
  }

  lemma {:induction false} PayloadsAppend(a: seq<string>, b: seq<string>)
    ensures Payloads(a + b) == Payloads(a) + Payloads(b)
  {
    if a == [] {
      assert a + b == b;
    } else {
      assert (a + b)[1..] == a[1..] + b;
      PayloadsAppend(a[1..], b);
    }
  }

  /** The reader between two reads: the unfinished line it keeps, and what it has yielded. */
  datatype Reader = Reader(kept: string, events: seq<string>)

  function ReadChunk(r: Reader, chunk: string): Reader {
    var lines := SplitLines(r.kept + chunk);
    Reader(lines[|lines| - 1], r.events + Payloads(lines[..|lines| - 1]))
  }

  function ReadChunks(chunks: seq<string>): Reader {
    if chunks == [] then Reader("", [])
    else ReadChunk(ReadChunks(chunks[..|chunks| - 1]), chunks[|chunks| - 1])
  }

  /** At the end of the stream the kept line is a line like any other. */
  function ReadStream(chunks: seq<string>): seq<string> {
    ReadChunks(chunks).events + Payloads(SplitLines(ReadChunks(chunks).kept))
  }

  lemma {:induction false} ChunksAreLines(chunks: seq<string>)
    ensures ReadChunks(chunks) == Reader(LastLine(Concat(chunks)), Payloads(FullLines(Concat(chunks))))
  {
    if chunks == [] {
      assert SplitLines("") == [""];
    } else {
      var front, last := chunks[..|chunks| - 1], chunks[|chunks| - 1];
      assert chunks == front + [last];
      ChunksAreLines(front);
      ConcatAppends(front, [last]);
      ConcatOfOne(last);
      ReadOn(Concat(front), last);
    }
  }

  /** However the stream is cut, even inside a line, a field name or a line end, reading the pieces is reading the
      whole. */
  lemma StreamIsReadWhole(chunks: seq<string>)
    ensures ReadStream(chunks) == ReadWhole(Concat(chunks))
  {
    var text := Concat(chunks);
    ChunksAreLines(chunks);
    SplitGoesOn(text, "");
    assert text + "" == text && LastLine(text) + "" == LastLine(text);
    PayloadsAppend(FullLines(text), SplitLines(LastLine(text)));
  }

  /** The browser's reader: `chunks` are the texts of the reads before the stream ends. */
  method ReadEvents(chunks: seq<string>) returns (events: seq<string>)
    ensures events == ReadStream(chunks)
  {
    events := [];
    var kept := "";
    for i := 0 to |chunks|
      invariant Reader(kept, events) == ReadChunks(chunks[..i])
    {
      assert chunks[..i + 1][..i] == chunks[..i];
      var lines := SplitLines(kept + chunks[i]);
      kept := lines[|lines| - 1];
      var added := YieldAll(lines[..|lines| - 1]);
      events := events + added;
    }
    assert chunks[..|chunks|] == chunks;
    // The stream has ended: what is left is a last line.
    var added := YieldAll(SplitLines(kept));
    events := events + added;
  }

  method YieldAll(lines: seq<string>) returns (events: seq<string>)
    ensures events == Payloads(lines)
  {
    events := [];
    for i := 0 to |lines|
      invariant events == Payloads(lines[..i])
    {
      assert lines[..i + 1] == lines[..i] + [lines[i]];
      PayloadsAppend(lines[..i], [lines[i]]);
      PayloadsOfOne(lines[i]);
      var payload := PayloadOf(lines[i]);
      if payload != "" {
        events := events + [payload];
      }
    }
    assert lines[..|lines|] == lines;
  }

  lemma PayloadsOfOne(line: string)
    ensures Payloads([line]) == if PayloadOf(line) == "" then [] else [PayloadOf(line)]
  {
    assert Payloads([line][1..]) == [];
  }

  lemma ReadOn(text: string, more: string)
    ensures var lines := SplitLines(LastLine(text) + more);
            && LastLine(text + more) == lines[|lines| - 1]
            && Payloads(FullLines(text + more)) == Payloads(FullLines(text)) + Payloads(lines[..|lines| - 1])
  {
    var lines := SplitLines(LastLine(text) + more);
    SplitGoesOn(text, more);
    assert FullLines(text + more) == FullLines(text) + lines[..|lines| - 1];
    PayloadsAppend(FullLines(text), lines[..|lines| - 1]);
  }

  // ---- What was written is what is read ----------------------------------------------

  /** A payload that survives: one line, beginning with something. */
  predicate OnOneLine(payload: string) {
    payload != "" && !IsTrimmed(payload[0]) && NEWLINE !in payload
  }

  lemma {:induction false} SplitOfLine(line: string, rest: string)
    requires NEWLINE !in line
    ensures SplitLines(line + [NEWLINE] + rest) == [line] + SplitLines(rest)
  {
    var text := line + [NEWLINE] + rest;
    if line == "" {
      assert text[1..] == rest;
    } else {
      assert text[1..] == line[1..] + [NEWLINE] + rest;
      SplitOfLine(line[1..], rest);
      assert ([line[1..]] + SplitLines(rest))[1..] == SplitLines(rest);
      assert [line[0]] + line[1..] == line;
    }
  }

  lemma {:induction false} WireIsRead(payloads: seq<string>)
    requires forall p <- payloads :: OnOneLine(p)
    ensures ReadWhole(Wire(payloads)) == payloads
  {
    if payloads == [] {
      assert SplitLines("") == [""];
      PayloadsOfOne("");
    } else {
      var p, rest := payloads[0], Wire(payloads[1..]);
      FrameIsRead(p, rest);
      WireIsRead(payloads[1..]);
    }
  }

  lemma LineIsRead(line: string, rest: string)
    requires NEWLINE !in line
    ensures ReadWhole(line + [NEWLINE] + rest) == Payloads([line]) + ReadWhole(rest)
  {
    SplitOfLine(line, rest);
    PayloadsAppend([line], SplitLines(rest));
  }

  lemma FrameIsLine(p: string, rest: string)
    ensures Frame(p) + rest == ("data: " + p) + [NEWLINE] + ("" + [NEWLINE] + rest)
  {
    assert "\n\n" + rest == [NEWLINE] + ("" + [NEWLINE] + rest);
  }

  lemma TwoLinesAreRead(text: string, line: string, rest: string)
    requires NEWLINE !in line && PayloadOf(line) != "" && text == line + [NEWLINE] + ("" + [NEWLINE] + rest)
    ensures ReadWhole(text) == [PayloadOf(line)] + ReadWhole(rest)
  {
    LineIsRead(line, "" + [NEWLINE] + rest);
    LineIsRead("", rest);
    PayloadsOfOne(line);
    PayloadsOfOne("");
    assert [] + ReadWhole(rest) == ReadWhole(rest);
  }

  lemma FrameIsRead(p: string, rest: string)
    requires OnOneLine(p)
    ensures ReadWhole(Frame(p) + rest) == [p] + ReadWhole(rest)
  {
    FrameIsLine(p, rest);
    PayloadOfFrame(p);
    TwoLinesAreRead(Frame(p) + rest, "data: " + p, rest);
  }

  lemma PayloadOfFrame(p: string)
    requires OnOneLine(p)
    ensures PayloadOf("data: " + p) == p
  {
    var line := "data: " + p;
    assert DATA <= line;
    assert line[|DATA|..] == " " + p;
    assert (" " + p)[1..] == p && (" " + p)[0] == ' ' && IsTrimmed(' ');
    assert TrimStart(p) == p;
  }

  lemma LineEndAddsNothing(text: string)
    ensures ReadWhole(text + [NEWLINE]) == ReadWhole(text)
  {
    var last := LastLine(text);
    TerminateOfSplit(text);
    SplitGoesOn(text, [NEWLINE]);
    SplitOfLine(last, "");
    assert last + [NEWLINE] + "" == last + [NEWLINE] && SplitLines("") == [""];
    assert FullLines(text) + ([last] + [""]) == SplitLines(text) + [""];
    PayloadsAppend(SplitLines(text), [""]);
    PayloadsOfOne("");
  }

  /** A stream that breaks off behind its last line yields it all the same, as if the line had ended. */
  lemma UnendedLineIsRead(chunks: seq<string>)
    ensures ReadStream(chunks + ["\n"]) == ReadStream(chunks)
  {
    ConcatAppends(chunks, ["\n"]);
    ConcatOfOne("\n");
    LineEndAddsNothing(Concat(chunks));
    StreamIsReadWhole(chunks);
    StreamIsReadWhole(chunks + ["\n"]);
  }

  /** For every way of cutting the written text, the browser's reader yields exactly the payloads written. */
  lemma StreamRoundTrip(payloads: seq<string>, chunks: seq<string>)
    requires (forall p <- payloads :: OnOneLine(p)) && Concat(chunks) == Wire(payloads)
    ensures ReadStream(chunks) == payloads
  {
    StreamIsReadWhole(chunks);
    WireIsRead(payloads);
  }

  // ---- The runner's side: the shell, the channel and the writer ------------------------

  const CHANNEL_SIZE: nat := 100

  datatype Event = Stdout(data: string) | Stderr(data: string) | Complete(code: int)

  datatype Stage = Streaming | Drained | StderrWritten | Finished

  /** An execution: the messages the shell has yet to send, the channel, and how far the answer has got. */
  datatype Execution = Execution(toSend: seq<string>, channel: seq<string>, closed: bool, stage: Stage,
                                 written: seq<Event>)

  datatype Move =
    | Send          // the shell sends its next message
    | Close         // the shell is done and closes the channel
    | Write         // the writer goroutine writes the next message
    | WriterEnds    // it finds the channel closed and empty
    | WriteStderr
    | WriteComplete

  /** What ExecuteStream returns: the exit code and stderr, -1 and "" on an error. */
  datatype Returned = Returned(code: int, stderr: string)

  predicate CanMove(x: Execution, move: Move) {
    match move
    case Send => x.toSend != [] && |x.channel| < CHANNEL_SIZE && !x.closed
    case Close => x.toSend == [] && !x.closed
    case Write => x.channel != [] && x.stage.Streaming?
    case WriterEnds => x.channel == [] && x.closed && x.stage.Streaming?
    case WriteStderr => x.stage.Drained?
    case WriteComplete => x.stage.StderrWritten?
  }

  function Moved(x: Execution, returned: Returned, move: Move): Execution
    requires CanMove(x, move)
  {
    match move
    case Send => x.(toSend := x.toSend[1..], channel := x.channel + [x.toSend[0]])
    case Close => x.(closed := true)
    case Write => x.(channel := x.channel[1..], written := x.written + [Stdout(x.channel[0])])
    case WriterEnds => x.(stage := Drained)
    case WriteStderr =>
      x.(stage := StderrWritten, written := x.written + if returned.stderr != "" then [Stderr(returned.stderr)] else [])
    case WriteComplete => x.(stage := Finished, written := x.written + [Complete(returned.code)])
  }

  predicate Plays(x: Execution, returned: Returned, moves: seq<Move>)
    decreases |moves|
  {
    moves == [] || (CanMove(x, moves[0]) && Plays(Moved(x, returned, moves[0]), returned, moves[1..]))
  }

  function Played(x: Execution, returned: Returned, moves: seq<Move>): Execution
    requires Plays(x, returned, moves)
    decreases |moves|
  {
    if moves == [] then x else Played(Moved(x, returned, moves[0]), returned, moves[1..])
  }

  function StdoutEvents(messages: seq<string>): seq<Event> {
    if messages == [] then [] else [Stdout(messages[0])] + StdoutEvents(messages[1..])
  }

  /** The events of the whole answer. */
  function Answer(messages: seq<string>, returned: Returned): seq<Event> {
    StdoutEvents(messages) + (if returned.stderr != "" then [Stderr(returned.stderr)] else [])
    + [Complete(returned.code)]
  }

  lemma {:induction false} EventsOfMessages(messages: seq<string>)
    ensures |StdoutEvents(messages)| == |messages|
    ensures forall i :: 0 <= i < |messages| ==> StdoutEvents(messages)[i] == Stdout(messages[i])
  {
    if messages != [] {
      EventsOfMessages(messages[1..]);
    }
  }

  /** One event for each message, in order; then one for stderr unless it is empty; then the exit code, last. */
  lemma AnswerIs(messages: seq<string>, returned: Returned)
    ensures var answer, n := Answer(messages, returned), |messages|;
            && |answer| == (if returned.stderr == "" then n + 1 else n + 2)
            && (forall i :: 0 <= i < n ==> answer[i] == Stdout(messages[i]))
            && (returned.stderr != "" ==> answer[n] == Stderr(returned.stderr))
            && answer[|answer| - 1] == Complete(returned.code)
  {
    EventsOfMessages(messages);
  }

  /** What is yielded for a line: what follows `data:` and white space, if that is anything. */
  lemma {:induction false} TrimStartTrims(s: string) returns (space: string)
    ensures s == space + TrimStart(s) && forall c <- space :: IsTrimmed(c)
    ensures TrimStart(s) == "" || !IsTrimmed(TrimStart(s)[0])
  {
    if s != "" && IsTrimmed(s[0]) {
      var rest := TrimStartTrims(s[1..]);
      space := [s[0]] + rest;
    } else {
      space := "";
    }
  }

  lemma PayloadOfLine(line: string) returns (space: string)
    ensures "data:" <= line ==>
              && line == "data:" + space + PayloadOf(line) && (forall c <- space :: IsTrimmed(c))
              && (PayloadOf(line) == "" || !IsTrimmed(PayloadOf(line)[0]))
    ensures !("data:" <= line) ==> PayloadOf(line) == ""
  {
    space := "";
    if "data:" <= line {
      assert line == "data:" + line[5..];
      space := TrimStartTrims(line[5..]);
    }
  }

  /** What the execution has written and what it will write still. */
  function Foreseen(x: Execution, returned: Returned): seq<Event> {
    x.written +
    match x.stage
    case Streaming => Answer(x.channel + x.toSend, returned)
    case Drained => Answer([], returned)
    case StderrWritten => [Complete(returned.code)]
    case Finished => []
  }

  predicate Orderly(x: Execution) {
    && (x.closed ==> x.toSend == [])
    && (!x.stage.Streaming? ==> x.closed && x.channel == [])
    && |x.channel| <= CHANNEL_SIZE
  }

  lemma MoveKeepsForeseen(x: Execution, returned: Returned, move: Move)
    requires Orderly(x) && CanMove(x, move)
    ensures Orderly(Moved(x, returned, move))
    ensures Foreseen(Moved(x, returned, move), returned) == Foreseen(x, returned)
  {
    match move
    case Send => SendKeepsOrder(x.channel, x.toSend);
    case Write => WriteKeepsAnswer(x.written, x.channel, x.toSend, returned);
    case WriterEnds => assert x.channel + x.toSend == [];
    case WriteStderr => assert StdoutEvents([]) == [];
    case _ =>
  }

  lemma SendKeepsOrder(channel: seq<string>, toSend: seq<string>)
    requires toSend != []
    ensures (channel + [toSend[0]]) + toSend[1..] == channel + toSend
  {
  }

  lemma WriteKeepsAnswer(written: seq<Event>, channel: seq<string>, toSend: seq<string>, returned: Returned)
    requires channel != []
    ensures (written + [Stdout(channel[0])]) + Answer(channel[1..] + toSend, returned)
         == written + Answer(channel + toSend, returned)
  {
    var all, rest := channel + toSend, channel[1..] + toSend;
    assert all[0] == channel[0] && all[1..] == rest;
    assert Answer(all, returned) == [Stdout(channel[0])] + Answer(rest, returned);
  }

  /**
   However the shell and the writer interleave, a finished answer is the shell's messages in
   order, then its stderr if there is any, then one completion.
   */
  lemma {:induction false} AnswerIsInOrder(x: Execution, returned: Returned, moves: seq<Move>)
    requires Orderly(x) && Plays(x, returned, moves)
    ensures Foreseen(Played(x, returned, moves), returned) == Foreseen(x, returned)
    ensures Played(x, returned, moves).stage.Finished? ==> Played(x, returned, moves).written == Foreseen(x, returned)
    decreases |moves|
  {
    if moves != [] {
      MoveKeepsForeseen(x, returned, moves[0]);
      AnswerIsInOrder(Moved(x, returned, moves[0]), returned, moves[1..]);
    }
  }

  /** Nobody waits for ever: unless the answer is finished, one of the two can move. */
  lemma NoDeadlock(x: Execution)
    requires Orderly(x)
    ensures x.stage.Finished? || exists move :: CanMove(x, move)
  {
    if !x.stage.Finished? {
      assert CanMove(x, Send) || CanMove(x, Close) || CanMove(x, Write) || CanMove(x, WriterEnds)
          || CanMove(x, WriteStderr) || CanMove(x, WriteComplete);
    }
  }
}
