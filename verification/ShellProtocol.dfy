/**
 What the marker protocol guarantees.  Bash appends to stdout, for every script, the command's
 output, a newline, and the marker with the exit code on a line of its own.
 */
module ShellProtocol {
  import opened Characters
  import opened Numbers
  import opened Options
  import opened Sequences
  import opened ShellText
  import opened Shell
  import opened ShellStderr
  import opened StderrPipe

  lemma NothingBefore(text: string)
    ensures "" + text == text
  {
  }

  function MarkerLine(marker: string, code: nat): string {
    marker + Itoa(code) + [NEWLINE]
  }

  function Transcript(out: string, marker: string, code: nat): string {
    out + [NEWLINE] + MarkerLine(marker, code)
  }

  /** No line of the output, as it is scanned, passes for the marker line. */
  predicate NoForgery(out: string, marker: string) {
    forall l <- SplitLines(out) :: !HasPrefix(DropCR(l), marker)
  }

  predicate ShortLines(out: string, marker: string, code: nat) {
    && (forall l <- SplitLines(out) :: |l| < LINE_LIMIT)
    && |marker + Itoa(code)| < LINE_LIMIT
  }

  function DropCRs(lines: seq<string>): seq<string> {
    if lines == [] then [] else [DropCR(lines[0])] + DropCRs(lines[1..])
  }

  lemma ReadMarkerLine(marker: string, code: nat)
    requires NEWLINE !in marker && |marker + Itoa(code)| < LINE_LIMIT && code <= INT_MAX
    ensures ReadToMarker(MarkerLine(marker, code), marker) == Reading([], AtMarker(Itoa(code), ""))
  {
    AtoiOfItoa(code);
    DigitsOfItoa(code);
    var line := marker + Itoa(code);
    assert MarkerLine(marker, code) == line + [NEWLINE] + "";
    ScanOfLine(line, "");
    assert line[|line| - 1] == Itoa(code)[|Itoa(code)| - 1];
    assert IsDigit(line[|line| - 1]);
    assert DropCR(line) == line;
    assert line[|marker|..] == Itoa(code);
  }

  predicate ReadableLine(line: string, marker: string) {
    NEWLINE !in line && |line| < LINE_LIMIT && !HasPrefix(DropCR(line), marker)
  }

  predicate Readable(lines: seq<string>, marker: string) {
    forall i :: 0 <= i < |lines| ==> ReadableLine(lines[i], marker)
  }

  /** The reading of the lines and then of the rest. */
  function Behind(lines: seq<string>, rest: Reading): Reading {
    Reading(DropCRs(lines) + rest.lines, rest.stop)
  }

  lemma ReadFirstLine(line: string, later: string, marker: string)
    requires ReadableLine(line, marker)
    ensures ReadToMarker(line + [NEWLINE] + later, marker) == Behind([line], ReadToMarker(later, marker))
  {
    ScanOfLine(line, later);
    assert DropCRs([line]) == [DropCR(line)];
  }

  lemma BehindCons(lines: seq<string>, rest: Reading)
    requires lines != []
    ensures Behind([lines[0]], Behind(lines[1..], rest)) == Behind(lines, rest)
  {
    assert DropCRs([lines[0]]) == [DropCR(lines[0])];
    assert [DropCR(lines[0])] + (DropCRs(lines[1..]) + rest.lines) == DropCRs(lines) + rest.lines;
  }

  lemma {:induction false} ReadLines(lines: seq<string>, tail: string, marker: string)
    requires Readable(lines, marker)
    ensures ReadToMarker(Terminate(lines) + tail, marker) == Behind(lines, ReadToMarker(tail, marker))
  {
    if lines == [] {
      assert Terminate(lines) + tail == tail;
      assert DropCRs([]) == [];
    } else {
      var later := Terminate(lines[1..]) + tail;
      assert Terminate(lines) + tail == lines[0] + [NEWLINE] + later;
      ReadFirstLine(lines[0], later, marker);
      ReadLines(lines[1..], tail, marker);
      BehindCons(lines, ReadToMarker(tail, marker));
    }
  }

  /** Reading the transcript of a command finds its lines, its exit code, and the end of the text. */
  lemma ReadTranscript(out: string, marker: string, code: nat)
    requires NEWLINE !in marker && code <= INT_MAX && ShortLines(out, marker, code) && NoForgery(out, marker)
    ensures ReadToMarker(Transcript(out, marker, code), marker) ==
            Reading(DropCRs(SplitLines(out)), AtMarker(Itoa(code), ""))
  {
    var lines := SplitLines(out);
    TerminateOfSplit(out);
    ReadMarkerLine(marker, code);
    assert Transcript(out, marker, code) == Terminate(lines) + MarkerLine(marker, code);
    assert Readable(lines, marker);
    ReadLines(lines, MarkerLine(marker, code), marker);
    assert Behind(lines, Reading([], AtMarker(Itoa(code), ""))).lines == DropCRs(lines);
  }

  /** Output without a marker line is read to its end. */
  lemma {:induction false} ReadWithoutMarker(lines: seq<string>, marker: string)
    requires lines != [] && Readable(lines, marker)
    ensures ReadToMarker(Terminate(lines[..|lines| - 1]) + lines[|lines| - 1], marker) ==
            Reading(DropCRs(Front(lines)), AtEnd)
  {
    var front, last := lines[..|lines| - 1], lines[|lines| - 1];
    assert lines == front + [last];
    UnendedLine(last, marker);
    ReadLines(front, last, marker);
    DropCRsAppend(front, last);
    assert DropCRs(front) + [] == DropCRs(front);
  }

  lemma UnendedLine(line: string, marker: string)
    requires ReadableLine(line, marker)
    ensures ReadToMarker(line, marker) == Reading(if line == "" then [] else [DropCR(line)], AtEnd)
  {
    if line != "" {
      assert LineEnd(line) == |line|;
      assert ReadToMarker("", marker) == Reading([], AtEnd);
    }
  }

  /** A line over the limit ends the reading there, with all of it unread. */
  lemma ReadOverLimit(lines: seq<string>, long: string, rest: string, marker: string)
    requires Readable(lines, marker) && NEWLINE !in long && |long| >= LINE_LIMIT
    ensures ReadToMarker(Terminate(lines) + (long + [NEWLINE] + rest), marker) ==
            Reading(DropCRs(lines), OverLimit(long + [NEWLINE] + rest))
  {
    ScanOfLine(long, rest);
    ReadLines(lines, long + [NEWLINE] + rest, marker);
    assert DropCRs(lines) + [] == DropCRs(lines);
  }

  lemma {:induction false} ForgedLineStops(lines: seq<string>, tail: string, marker: string)
    requires forall l <- lines :: NEWLINE !in l && |l| < LINE_LIMIT
    requires exists l <- lines :: HasPrefix(DropCR(l), marker)
    requires tail != ""
    ensures var stop := ReadToMarker(Terminate(lines) + tail, marker).stop;
            stop.AtMarker? && stop.unread != ""
  {
    var later := Terminate(lines[1..]) + tail;
    assert Terminate(lines) + tail == lines[0] + [NEWLINE] + later;
    ScanOfLine(lines[0], later);
    if !HasPrefix(DropCR(lines[0]), marker) {
      ForgedLineStops(lines[1..], tail, marker);
    }
  }

  const FRESH := Session("", false, 0, NOTHING_READ)

  predicate GoodMarker(marker: string) {
    marker != "" && NEWLINE !in marker
  }

  lemma RunnerMarkerIsGood(digits: string)
    requires forall c <- digits :: IsDigit(c)
    ensures GoodMarker(MarkerOf(digits))
  {
    var m := MarkerOf(digits);
    forall i | 0 <= i < |m|
      ensures m[i] != NEWLINE
    {
      if 6 <= i < 6 + |digits| {
        assert m[i] == digits[i - 6] && digits[i - 6] in digits;
      } else if i >= 6 {
        assert m[i] == "_END__"[i - 6 - |digits|];
      } else {
        assert m[i] == "__MRK_"[i];
      }
    }
  }

  /** The script of the call has got to bash and its command has come to an end. */
  predicate Issued(call: Call, out: string, err: string, code: nat) {
    && call.reply == Reply(Transcript(out, call.marker, code), err + call.marker + [NEWLINE])
    && !call.cancelledBefore && !call.writeFails
    && GoodMarker(call.marker) && code <= INT_MAX && ShortLines(out, call.marker, code)
  }

  /** And nothing it has written passes for the marker. */
  predicate Harmless(call: Call, out: string, err: string, code: nat) {
    Issued(call, out, err, code) && NoForgery(out, call.marker) && Clean(err, call.marker)
  }

  /**
   After a call that got to bash and is over, the session is unbroken with nothing left unread exactly when no
   line of the output passed for the marker, whether or not the request was cancelled half-way.
   */
  lemma InSyncIffNoForgery(s: Session, call: Call, out: string, err: string, code: nat)
    requires !s.broken && s.unread == "" && Issued(call, out, err, code)
    ensures var effect := Execute(s, call);
            || effect.result.Waiting?
            || ((!effect.after.broken && effect.after.unread == "") <==> NoForgery(out, call.marker))
  {
    NothingBefore(call.reply.stdout);
    if NoForgery(out, call.marker) {
      ReadTranscript(out, call.marker, code);
      AtoiOfItoa(code);
    } else {
      TerminateOfSplit(out);
      assert call.reply.stdout == Terminate(SplitLines(out)) + MarkerLine(call.marker, code);
      ForgedLineStops(SplitLines(out), MarkerLine(call.marker, code), call.marker);
    }
  }

  // ---- Fidelity of stdout --------------------------------------------------------

  function Concat(messages: seq<string>): string {
    if messages == [] then "" else messages[0] + Concat(messages[1..])
  }

  /** The output, with a newline added unless it is empty or ends in one. */
  function NewlineEnded(out: string): string {
    if out == "" || out[|out| - 1] == NEWLINE then out else out + [NEWLINE]
  }

  predicate NoCRLF(out: string) {
    forall l <- SplitLines(out) :: l == "" || l[|l| - 1] != '\r'
  }

  lemma {:induction false} ConcatAppends(a: seq<string>, b: seq<string>)
    ensures Concat(a + b) == Concat(a) + Concat(b)
  {
    if a == [] {
      assert a + b == b;
    } else {
      assert (a + b)[1..] == a[1..] + b;
      ConcatAppends(a[1..], b);
    }
  }

  function Front(lines: seq<string>): seq<string>
    requires lines != []
  {
    if lines[|lines| - 1] == "" then lines[..|lines| - 1] else lines
  }

  lemma FrontOfCons(lines: seq<string>)
    requires |lines| > 1
    ensures Front(lines) == [lines[0]] + Front(lines[1..])
    ensures Terminate(Front(lines)) == lines[0] + [NEWLINE] + Terminate(Front(lines[1..]))
  {
    assert lines[1..][|lines| - 2] == lines[|lines| - 1];
    assert ([lines[0]] + Front(lines[1..]))[1..] == Front(lines[1..]);
  }

  /** The delayed blank lines swallow exactly one trailing blank line. */
  lemma {:induction false} MessagesSayFront(lines: seq<string>, pending: bool)
    requires lines != []
    ensures Concat(Messages(lines, pending)) == Blank(pending) + Terminate(Front(lines))
  {
    var head := lines[0];
    if |lines| == 1 {
      OneLineSaysFront(head, pending);
      assert lines == [head];
    } else {
      var tail := Terminate(Front(lines[1..]));
      calc {
        Concat(Messages(lines, pending));
        { ConcatAppends(NewMessages(pending, head), Messages(lines[1..], head == "")); }
        Concat(NewMessages(pending, head)) + Concat(Messages(lines[1..], head == ""));
        { MessagesSayFront(lines[1..], head == ""); ConcatOfNew(pending, head); }
        (Blank(pending) + (if head == "" then "" else head + [NEWLINE])) + (Blank(head == "") + tail);
        { LineThenRest(Blank(pending), head, tail); }
        Blank(pending) + (head + [NEWLINE] + tail);
        { FrontOfCons(lines); }
        Blank(pending) + Terminate(Front(lines));
      }
    }
  }

  /** Every message is one line, or the rest of one: it ends in its only newline. */
  predicate IsOneLine(message: string) {
    message != "" && message[|message| - 1] == NEWLINE && NEWLINE !in message[..|message| - 1]
  }

  lemma {:induction false} MessagesAreLines(lines: seq<string>, pending: bool)
    requires forall l <- lines :: NEWLINE !in l
    ensures forall m <- Messages(lines, pending) :: IsOneLine(m)
  {
    if lines != [] {
      MessagesAreLines(lines[1..], lines[0] == "");
      forall m <- NewMessages(pending, lines[0])
        ensures IsOneLine(m)
      {
        assert m == "\n" || m[..|m| - 1] == lines[0];
      }
    }
  }

  lemma LineThenRest(before: string, head: string, tail: string)
    ensures (before + (if head == "" then "" else head + [NEWLINE])) + (Blank(head == "") + tail)
         == before + (head + [NEWLINE] + tail)
  {
  }

  function Blank(pending: bool): string {
    if pending then [NEWLINE] else ""
  }

  lemma OneLineSaysFront(line: string, pending: bool)
    ensures Concat(Messages([line], pending)) == Blank(pending) + Terminate(Front([line]))
  {
    ConcatOfNew(pending, line);
    assert Messages([line][1..], line == "") == [];
    assert Messages([line], pending) == NewMessages(pending, line);
    assert Terminate([line]) == line + [NEWLINE] + Terminate([]);
  }

  lemma ConcatOfNew(pending: bool, line: string)
    ensures Concat(NewMessages(pending, line)) ==
            Blank(pending) + (if line == "" then "" else line + [NEWLINE])
  {
    var first: seq<string> := if pending then ["\n"] else [];
    var second: seq<string> := if line == "" then [] else [line + "\n"];
    ConcatAppends(first, second);
    ConcatOfOne("\n");
    ConcatOfOne(line + "\n");
  }

  lemma ConcatOfOne(message: string)
    ensures Concat([message]) == message
  {
    assert Concat([message][1..]) == "";
  }

  lemma {:induction false} SplitEndsBlank(out: string)
    ensures SplitLines(out)[|SplitLines(out)| - 1] == "" <==> out == "" || out[|out| - 1] == NEWLINE
  {
    if out != "" {
      SplitEndsBlank(out[1..]);
    }
  }

  lemma {:induction false} TerminateAppends(lines: seq<string>, last: string)
    ensures Terminate(lines + [last]) == Terminate(lines) + last + [NEWLINE]
  {
    if lines == [] {
      assert lines + [last] == [last];
      assert Terminate([last]) == last + [NEWLINE] + Terminate([]);
    } else {
      assert (lines + [last])[1..] == lines[1..] + [last];
      TerminateAppends(lines[1..], last);
    }
  }

  lemma FrontIsOutput(out: string)
    ensures Terminate(Front(SplitLines(out))) == NewlineEnded(out)
  {
    TerminateOfSplit(out);
    SplitEndsBlank(out);
    if out == "" || out[|out| - 1] == NEWLINE {
      WithoutLastBlank(SplitLines(out), out);
    }
  }

  lemma WithoutLastBlank(lines: seq<string>, out: string)
    requires lines != [] && lines[|lines| - 1] == "" && Terminate(lines) == out + [NEWLINE]
    ensures Terminate(lines[..|lines| - 1]) == out
  {
    var front := lines[..|lines| - 1];
    assert lines == front + [""];
    TerminateAppends(front, "");
    assert Terminate(front) + "" == Terminate(front);
    SameBeforeNewline(Terminate(front), out);
  }

  lemma SameBeforeNewline(a: string, b: string)
    requires a + [NEWLINE] == b + [NEWLINE]
    ensures a == b
  {
    assert |a| + 1 == |b| + 1;
    assert (a + [NEWLINE])[..|a|] == a && (b + [NEWLINE])[..|b|] == b;
  }

  lemma {:induction false} DroppingCRsLosesLength(lines: seq<string>)
    ensures |DropCRs(lines)| == |lines|
    ensures |Terminate(DropCRs(lines))| <= |Terminate(lines)|
    ensures |Terminate(DropCRs(lines))| == |Terminate(lines)| <==> DropCRs(lines) == lines
    ensures DropCRs(lines) == lines <==> forall l <- lines :: DropCR(l) == l
  {
    if lines != [] {
      DroppingCRsLosesLength(lines[1..]);
      assert lines == [lines[0]] + lines[1..];
      assert DropCRs(lines)[1..] == DropCRs(lines[1..]);
    }
  }

  predicate AllPlain(lines: seq<string>) {
    forall l <- lines :: DropCR(l) == l
  }

  lemma DroppedIsShorter(lines: seq<string>)
    ensures |Terminate(DropCRs(lines))| <= |Terminate(lines)|
    ensures Terminate(DropCRs(lines)) == Terminate(lines) <==> AllPlain(lines)
  {
    DroppingCRsLosesLength(lines);
  }

  lemma DroppedFrontIsShorter(front: seq<string>, last: string)
    ensures var lines := front + [last];
            Terminate(Front(DropCRs(lines))) == Terminate(Front(lines)) <==> AllPlain(lines)
  {
    var lines := front + [last];
    DropCRsAppend(front, last);
    DroppedIsShorter(front);
    DroppedIsShorter(lines);
    assert lines[..|front|] == front && DropCRs(lines)[..|DropCRs(front)|] == DropCRs(front);
    if last == "" {
      assert AllPlain(lines) <==> AllPlain(front);
    } else if DropCR(last) == "" {
      TerminateAppends(front, last);
      assert last in lines;
      assert |Terminate(DropCRs(front))| < |Terminate(lines)|;
    }
  }

  lemma {:induction false} DropCRsAppend(lines: seq<string>, last: string)
    ensures DropCRs(lines + [last]) == DropCRs(lines) + [DropCR(last)]
  {
    if lines == [] {
      assert lines + [last] == [last];
      assert DropCRs([last]) == [DropCR(last)];
    } else {
      assert (lines + [last])[1..] == lines[1..] + [last];
      DropCRsAppend(lines[1..], last);
    }
  }

  /** What goes to the channel in an undisturbed call. */
  function Messaged(out: string): seq<string> {
    Messages(DropCRs(SplitLines(out)), false)
  }

  /**
   Fidelity: the messages, put together, are the output (with a newline added to an unfinished
   last line) exactly when no line of it ends in a carriage return.
   */
  lemma StdoutFidelity(out: string)
    ensures Concat(Messaged(out)) == NewlineEnded(out) <==> NoCRLF(out)
  {
    MessagedSays(out);
    FrontIsOutput(out);
    DroppedSplitIsShorter(SplitLines(out));
  }

  lemma MessagedSays(out: string)
    ensures DropCRs(SplitLines(out)) != []
    ensures Concat(Messaged(out)) == Terminate(Front(DropCRs(SplitLines(out))))
  {
    DroppingCRsLosesLength(SplitLines(out));
    MessagesSayFront(DropCRs(SplitLines(out)), false);
    NothingBefore(Terminate(Front(DropCRs(SplitLines(out)))));
  }

  lemma DroppedSplitIsShorter(lines: seq<string>)
    requires lines != []
    ensures DropCRs(lines) != []
    ensures Terminate(Front(DropCRs(lines))) == Terminate(Front(lines)) <==> AllPlain(lines)
  {
    var front, last := lines[..|lines| - 1], lines[|lines| - 1];
    assert lines == front + [last];
    DroppedFrontIsShorter(front, last);
  }

  // ---- Fidelity of stderr ----------------------------------------------------------

  /** Unless broken, the next thing on stdout is the next command's, and all that may still come on stderr is the
      newline of the last marker. */
  predicate InStep(s: Session) {
    s.broken || (s.unread == "" && IsLate(s.pipe.coming) && NEWLINE !in s.pipe.collector.marker)
  }

  /** What is left of the call before when the buffer is cleared. */
  function Late(s: Session, call: Call): string {
    Left(s.pipe.coming, call.cutting.before)
  }

  /** What the reads take from while the command runs. */
  function StderrText(s: Session, call: Call): string {
    Opened(s.pipe, call).coming + call.reply.stderr
  }

  /** What they leave. */
  function StderrLeft(s: Session, call: Call): string {
    Left(StderrText(s, call), call.cutting.during)
  }

  /** The marker's own newline, when a read ended right before it and another brought it before the call looked. */
  ghost function Tail(s: Session, call: Call): string {
    TailOf(StderrText(s, call), call.cutting.during)
  }

  ghost function TailOf(text: string, sizes: seq<nat>): string {
    if Left(text, sizes) == "" && ReadEndsBefore(text, sizes, 1) then [NEWLINE] else ""
  }

  lemma OpensInStep(s: Session, call: Call)
    requires InStep(s) && !s.broken
    ensures var p := Opened(s.pipe, call);
            && IsLate(Late(s, call))
            && p.collector.marker == call.marker
            && p.collector.buffer + p.coming == Late(s, call)
  {
    ReadsAreChunks(s.pipe, call.cutting.before);
    PlainMarkerStays(s.pipe, call.cutting.before);
    LeftOfLate(s.pipe.coming, call.cutting.before);
    var read := Reads(s.pipe, call.cutting.before);
    var cleared := read.(collector := read.collector.(buffer := ""));
    assert "" + read.coming == read.coming;
    LateIsKept(cleared, call.cutting.between);
  }

  lemma {:induction false} LeftOfLate(late: string, sizes: seq<nat>)
    requires IsLate(late)
    ensures IsLate(Left(late, sizes)) && |Left(late, sizes)| <= |late|
  {
    if sizes != [] {
      LeftOfLate(late, sizes[..|sizes| - 1]);
    }
  }

  lemma CleanBehindLate(late: string, err: string, marker: string)
    requires IsLate(late) && GoodMarker(marker) && Clean(err, marker)
    ensures Clean(late + err, marker)
  {
    if late == "" {
      assert late + err == err;
    } else {
      IndexBehindNewline(err + marker + [NEWLINE], marker);
      assert late + err + marker + [NEWLINE] == [NEWLINE] + (err + marker + [NEWLINE]);
    }
  }

  /** The reads, as reads of the whole text since the buffer was cleared. */
  lemma ReadsSinceCleared(o: Pipe, text: string, sizes: seq<nat>)
    requires IsLate(o.collector.buffer + o.coming) && GoodMarker(o.collector.marker)
    ensures Reads(o.(coming := text), sizes) ==
            Pipe(ReceiveAll(Collector("", o.collector.marker, o.collector.closes),
                            [o.collector.buffer] + Chunks(text, sizes)),
                 Left(text, sizes))
    ensures Text(Chunks(text, sizes)) + Left(text, sizes) == text
  {
    NoMarkerInBuffer(o);
    ReadsAreChunks(o.(coming := text), sizes);
    BufferIsFirstRead(o.collector.buffer, o.collector.marker, o.collector.closes, Chunks(text, sizes));
  }

  lemma CollectedStderr(before: string, marker: string, closes: nat, chunks: seq<string>, left: string)
    returns (c: Collector, kept: string)
    requires marker != "" && Clean(before, marker) && Text(chunks) + left == before + marker + [NEWLINE]
    ensures c == ReceiveAll(Collector("", marker, closes), chunks)
    ensures kept == KeptNewline(chunks, |before| + |marker|, left)
    ensures if |left| > 1 then c.marker == marker else c.marker == "" && c.buffer == before + kept
  {
    StderrOfCommand(before, marker, closes, chunks, left);
    c := ReceiveAll(Collector("", marker, closes), chunks);
    kept := KeptNewline(chunks, |before| + |marker|, left);
  }

  lemma StderrOfPipe(o: Pipe, before: string, text: string, sizes: seq<nat>) returns (p: Pipe, tail: string)
    requires IsLate(o.collector.buffer + o.coming)
    requires GoodMarker(o.collector.marker) && Clean(before, o.collector.marker)
    requires o.collector.buffer + text == before + o.collector.marker + [NEWLINE]
    requires |o.collector.buffer| < |before| + |o.collector.marker|
    ensures p == Reads(o.(coming := text), sizes) && p.coming == Left(text, sizes)
    ensures |p.coming| > 1 ==> p.collector.marker == o.collector.marker
    ensures |p.coming| <= 1 ==>
              p.collector.marker == "" && IsLate(p.coming) && p.collector.buffer == before + tail
    ensures tail == TailOf(text, sizes)
  {
    var b, m, left := o.collector.buffer, o.collector.marker, Left(text, sizes);
    var chunks := [b] + Chunks(text, sizes);
    p, tail := Reads(o.(coming := text), sizes), TailOf(text, sizes);
    ReadsSinceCleared(o, text, sizes);
    TextBehind(b, Chunks(text, sizes));
    Regroup(b, Text(Chunks(text, sizes)), left);
    var c, kept := CollectedStderr(before, m, o.collector.closes, chunks, left);
    assert p.collector == c;
    assert |b| + |text| == |before| + |m| + 1;
    if |left| <= 1 {
      var same := TailOfReads(b, text, sizes, |before| + |m|);
      assert kept == same == tail;
      LastOf(Text(chunks), left, before + m);
    }
  }

  /**
   What the collector has when the call looks.  Until the marker has been read, it is awaited; then the
   buffer is the command's stderr, behind the late newline and before the tail.
   */
  lemma StderrWhenLooked(s: Session, call: Call, err: string) returns (p: Pipe, stderr: string)
    requires InStep(s) && !s.broken && GoodMarker(call.marker) && Clean(err, call.marker)
    requires call.reply.stderr == err + call.marker + [NEWLINE]
    ensures p == Looked(Opened(s.pipe, call), call) && p.coming == StderrLeft(s, call)
    ensures |p.coming| > 1 ==> p.collector.marker == call.marker
    ensures |p.coming| <= 1 ==>
              p.collector.marker == "" && IsLate(p.coming) && p.collector.buffer == stderr
    ensures stderr == Late(s, call) + err + Tail(s, call)
  {
    stderr := Late(s, call) + err + Tail(s, call);
    var o, late := Opened(s.pipe, call), Late(s, call);
    OpensInStep(s, call);
    CleanBehindLate(late, err, call.marker);
    AllOfStderr(o.collector.buffer, o.coming, err, call.marker);
    var tail;
    p, tail := StderrOfPipe(o, late + err, StderrText(s, call), call.cutting.during);
  }

  lemma NoMarkerInBuffer(p: Pipe)
    requires IsLate(p.collector.buffer + p.coming) && GoodMarker(p.collector.marker)
    ensures IndexOf(p.collector.buffer, p.collector.marker).None?
  {
    assert IsLate(p.collector.buffer);
    NoMarkerInLate(p.collector.buffer, p.collector.marker);
  }

  lemma AllOfStderr(buffer: string, coming: string, err: string, marker: string)
    requires marker != ""
    ensures buffer + (coming + (err + marker + [NEWLINE])) == (buffer + coming) + err + marker + [NEWLINE]
    ensures |buffer| < |(buffer + coming) + err| + |marker|
  {
  }

  lemma LastOf(taken: string, left: string, before: string)
    requires taken + left == before + [NEWLINE] && |left| <= 1
    ensures IsLate(left)
  {
    if |left| == 1 {
      assert (taken + left)[|taken|] == left[0];
    }
  }

  lemma TailOfReads(buffer: string, text: string, sizes: seq<nat>, end: nat) returns (kept: string)
    requires |buffer| < end && |buffer| + |text| == end + 1 && |Left(text, sizes)| <= 1
    ensures kept == KeptNewline([buffer] + Chunks(text, sizes), end, Left(text, sizes)) == TailOf(text, sizes)
  {
    kept := TailOf(text, sizes);
    NewlineIsKept(buffer, text, sizes, end);
  }

  lemma NewlineIsKept(buffer: string, text: string, sizes: seq<nat>, end: nat)
    requires |buffer| < end && |buffer| + |text| == end + 1 && |Left(text, sizes)| <= 1
    ensures end <= |Text([buffer] + Chunks(text, sizes))|
    ensures ReachedAt([buffer] + Chunks(text, sizes), end) == end <==> ReadEndsBefore(text, sizes, 1)
  {
    ReadsAreChunks(Pipe(Collector("", "", 0), text), sizes);
    assert |Text(Chunks(text, sizes))| + |Left(text, sizes)| == |text|;
    ReachedBehind(buffer, Chunks(text, sizes), end);
    EndsBetween(text, sizes, end - |buffer|);
  }

  // ---- What a call delivers --------------------------------------------------------------

  /**
   How a call with these messages, exit code and stderr ends when `left` of its stderr text is still to come.
   It is not over before its stderr marker has been read.  Then it has sent its messages and returns code and
   stderr, or if it was cancelled has sent some of the first and fails; and the session is in step.
   */
  predicate Delivered(effect: Effect, messages: seq<string>, failAt: Option<nat>, code: int, stderr: string,
                      left: string, written: nat) {
    match effect
    case Effect(after, result, sent) =>
      && sent <= messages
      && |sent| == (if SendFails(messages, failAt) then failAt.value else |messages|)
      && if |left| > 1 then result.Waiting?
         else
           && result == (if SendFails(messages, failAt) then SendFailed else Exited(code, stderr))
           && !after.broken && InStep(after) && after.written == written && after.pipe.coming == left
  }

  /**
   A call delivers the messages of the command's output, its own exit code, and its stderr behind a late
   newline and before its own marker's, if there are any; and the next call finds this marker's
   newline still to come exactly if the reads stopped before it.
   */
  lemma CallDelivers(s: Session, call: Call, out: string, err: string, code: nat)
    returns (effect: Effect, stderr: string)
    requires InStep(s) && !s.broken && Harmless(call, out, err, code)
    ensures effect == Execute(s, call) && stderr == Late(s, call) + err + Tail(s, call)
    ensures Delivered(effect, Messaged(out), call.failAt, code, stderr, StderrLeft(s, call), s.written + 1)
  {
    var p;
    p, stderr := StderrWhenLooked(s, call, err);
    effect := ScriptIsDrained(s, call, p);
    TranscriptIsDelivered(effect, p, out, err, code, call, s.written, stderr);
  }

  /** What a call that gets its script to bash comes to. */
  lemma ScriptIsDrained(s: Session, call: Call, p: Pipe) returns (effect: Effect)
    requires !s.broken && s.unread == "" && !call.cancelledBefore && !call.writeFails
    requires p == Looked(Opened(s.pipe, call), call)
    ensures effect == Execute(s, call)
    ensures effect == Drain(Session(call.reply.stdout, false, s.written + 1, p), call)
  {
    NothingBefore(call.reply.stdout);
    effect := Execute(s, call);
  }

  lemma TranscriptIsDelivered(effect: Effect, p: Pipe, out: string, err: string, code: nat, call: Call, n: nat,
                              stderr: string)
    requires Harmless(call, out, err, code)
    requires effect == Drain(Session(call.reply.stdout, false, n + 1, p), call)
    requires if |p.coming| > 1 then p.collector.marker == call.marker
             else p.collector.marker == "" && IsLate(p.coming) && p.collector.buffer == stderr
    ensures Delivered(effect, Messaged(out), call.failAt, code, stderr, p.coming, n + 1)
  {
    ReadTranscript(out, call.marker, code);
    AtoiOfItoa(code);
  }

  // ---- Whole sessions --------------------------------------------------------------

  /** Bash either finishes the script without forging a marker on either stream, or stops before any marker line. */
  ghost predicate Proper(call: Call) {
    && GoodMarker(call.marker)
    && (Finishes(call) || call.cancelledBefore || call.writeFails ||
        !ReadToMarker(call.reply.stdout, call.marker).stop.AtMarker?)
  }

  ghost predicate Finishes(call: Call) {
    exists out: string, err: string, code: nat :: Harmless(call, out, err, code)
  }

  function AfterAll(s: Session, calls: seq<Call>): Session {
    if calls == [] then s else Execute(AfterAll(s, calls[..|calls| - 1]), calls[|calls| - 1]).after
  }

  /** Each call is over before the next begins. */
  predicate AllReturn(s: Session, calls: seq<Call>) {
    calls == [] ||
    (AllReturn(s, calls[..|calls| - 1]) &&
     !Execute(AfterAll(s, calls[..|calls| - 1]), calls[|calls| - 1]).result.Waiting?)
  }

  lemma CallKeepsStep(s: Session, call: Call)
    requires InStep(s) && Proper(call) && !Execute(s, call).result.Waiting?
    ensures InStep(Execute(s, call).after)
  {
    NothingBefore(call.reply.stdout);
    if !s.broken {
      OpensInStep(s, call);
      var p := Opened(s.pipe, call);
      assert IsLate(p.collector.buffer + p.coming) ==> IsLate(p.coming);
      if out: string, err: string, code: nat :| Harmless(call, out, err, code) {
        var effect, stderr := CallDelivers(s, call, out, err, code);
      }
    }
  }

  /** Whatever line the reading stops at, and be there something unread of the call before: its exit code and the
      rest of the text decide. */
  lemma StopsAtMarkerLine(s: Session, call: Call, lines: seq<string>, code: string, rest: string)
    requires !s.broken && !call.cancelledBefore && !call.writeFails
    requires Readable(lines, call.marker) && NEWLINE !in call.marker && NEWLINE !in code
    requires |call.marker + code| < LINE_LIMIT
    requires DropCR(call.marker + code) == call.marker + code
    requires s.unread + call.reply.stdout == Terminate(lines) + (call.marker + code + [NEWLINE] + rest)
    ensures var effect, fails := Execute(s, call), SendFails(Messages(DropCRs(lines), false), call.failAt);
            && effect.after.unread == rest
            && (Atoi(code).None? ==> effect.result == BadExitCode && effect.after.broken == fails)
            && (Atoi(code).Some? && !effect.result.Waiting? ==>
                  && !effect.after.broken && (effect.result == SendFailed <==> fails)
                  && (!fails ==> effect.result.Exited? && effect.result.code == Atoi(code).value))
  {
    MarkerLineStops(call.marker, code, rest);
    ReadLines(lines, call.marker + code + [NEWLINE] + rest, call.marker);
    assert DropCRs(lines) + [] == DropCRs(lines);
  }

  lemma MarkerLineStops(marker: string, code: string, rest: string)
    requires NEWLINE !in marker && NEWLINE !in code && |marker + code| < LINE_LIMIT
    requires DropCR(marker + code) == marker + code
    ensures ReadToMarker(marker + code + [NEWLINE] + rest, marker) == Reading([], AtMarker(code, rest))
  {
    ScanOfLine(marker + code, rest);
    assert (marker + code)[|marker|..] == code;
  }

  // ---- What breaks a session -------------------------------------------------------

  /** A call cancelled before its script goes to bash leaves the session as it is, but for its marker on stderr. */
  lemma CancelledBeforeScript(s: Session, call: Call)
    requires !s.broken && call.cancelledBefore
    ensures var effect := Execute(s, call);
            && effect.result == Cancelled && effect.sent == []
            && !effect.after.broken && effect.after.unread == s.unread && effect.after.written == s.written
            && effect.after.pipe.collector.marker == call.marker
  {
  }

  /** A script that cannot be written breaks it, and bash has got nothing. */
  lemma ScriptNotWritten(s: Session, call: Call)
    requires !s.broken && !call.cancelledBefore && call.writeFails
    ensures var effect := Execute(s, call);
            && effect.result == WriteFailed && effect.sent == []
            && effect.after.broken && effect.after.unread == s.unread && effect.after.written == s.written
            && effect.after.pipe.collector.marker == call.marker
  {
  }

  /** The script could not be written, or stdout ended, or ran over the limit, without a marker line. */
  predicate Breaks(call: Call) {
    !call.cancelledBefore && (call.writeFails || !ReadToMarker(call.reply.stdout, call.marker).stop.AtMarker?)
  }

  lemma NoMarkerBreaks(s: Session, call: Call)
    requires !s.broken && s.unread == "" && Breaks(call) && !call.writeFails
    ensures var effect, stop := Execute(s, call), ReadToMarker(call.reply.stdout, call.marker).stop;
            && effect.after.broken && effect.after.written == s.written + 1
            && effect.result == (if stop.AtEnd? then OutputEnded else OutputTooLong)
            && effect.after.unread == if stop.AtEnd? then "" else stop.unread
  {
    NothingBefore(call.reply.stdout);
  }

  lemma BrokenIffBreaks(s: Session, call: Call)
    requires InStep(s) && !s.broken && Proper(call) && !Execute(s, call).result.Waiting?
    ensures Execute(s, call).after.broken <==> Breaks(call)
  {
    if call.cancelledBefore {
      CancelledBeforeScript(s, call);
    } else if call.writeFails {
      ScriptNotWritten(s, call);
    } else if Breaks(call) {
      NoMarkerBreaks(s, call);
    } else {
      var out: string, err: string, code: nat :| Harmless(call, out, err, code);
      var effect, stderr := CallDelivers(s, call, out, err, code);
    }
  }

  predicate OneBreaks(calls: seq<Call>) {
    exists call <- calls :: Breaks(call)
  }

  lemma OneBreaksOfLast(calls: seq<Call>)
    requires calls != []
    ensures OneBreaks(calls) <==> OneBreaks(calls[..|calls| - 1]) || Breaks(calls[|calls| - 1])
  {
    assert calls == calls[..|calls| - 1] + [calls[|calls| - 1]];
  }

  /**
   Over any calls that return, the session is broken afterwards exactly when one of them could not get its
   script to bash, or got no marker line back; requests cancelled before or in the middle do not count.
   */
  lemma {:induction false} BrokenIffOneBroke(calls: seq<Call>)
    requires (forall call <- calls :: Proper(call)) && AllReturn(FRESH, calls)
    ensures AfterAll(FRESH, calls).broken <==> OneBreaks(calls)
  {
    if calls != [] {
      var front, last := calls[..|calls| - 1], calls[|calls| - 1];
      OneBreaksOfLast(calls);
      BrokenIffOneBroke(front);
      SessionStaysInStep(front);
      if !AfterAll(FRESH, front).broken {
        BrokenIffBreaks(AfterAll(FRESH, front), last);
      }
    }
  }

  /** Over any calls, the session is broken, or has nothing unread but at most the newline of the last marker. */
  lemma {:induction false} SessionStaysInStep(calls: seq<Call>)
    requires (forall call <- calls :: Proper(call)) && AllReturn(FRESH, calls)
    ensures InStep(AfterAll(FRESH, calls))
  {
    if calls != [] {
      SessionStaysInStep(calls[..|calls| - 1]);
      CallKeepsStep(AfterAll(FRESH, calls[..|calls| - 1]), calls[|calls| - 1]);
    }
  }

  lemma {:induction false} LateUntilRead(sizes: seq<nat>)
    ensures Left([NEWLINE], sizes) == if AllZero(sizes) then [NEWLINE] else ""
  {
    if sizes != [] {
      var front, last := sizes[..|sizes| - 1], sizes[|sizes| - 1];
      LateUntilRead(front);
      assert sizes == front + [last];
      AllZeroOfLast(front, last);
      RestOfLate(Left([NEWLINE], front), last);
    }
  }

  lemma RestOfLate(late: string, n: nat)
    requires IsLate(late)
    ensures late[Min(n, |late|)..] == if n == 0 then late else ""
  {
  }

  /**
   Where a late newline comes from: a call finds one in front of its stderr exactly when the reads of the call
   before stopped right behind that call's marker and none has brought anything since.
   */
  lemma LateIffReadsStopped(calls: seq<Call>, last: Call, out: string, err: string, code: nat, next: Call)
    requires (forall c <- calls :: Proper(c)) && AllReturn(FRESH, calls)
    requires !AfterAll(FRESH, calls).broken && Harmless(last, out, err, code)
    requires !Execute(AfterAll(FRESH, calls), last).result.Waiting?
    ensures var s := AfterAll(FRESH, calls);
            var t := Execute(s, last).after;
            && !t.broken && IsLate(Late(t, next))
            && (Late(t, next) == [NEWLINE] <==> |StderrLeft(s, last)| == 1 && AllZero(next.cutting.before))
  {
    SessionStaysInStep(calls);
    var s := AfterAll(FRESH, calls);
    var effect, stderr := CallDelivers(s, last, out, err, code);
    LeftOfLate(effect.after.pipe.coming, next.cutting.before);
    LateUntilRead(next.cutting.before);
  }

  // ---- Independence --------------------------------------------------------------------------

  /** The result with the late newline in front of its stderr. */
  function WithLate(late: string, result: Result): Result {
    match result
    case Exited(code, stderr) => Exited(code, late + stderr)
    case _ => result
  }

  /** The reads of a first call that are these reads but for the late newline. */
  function WithoutLate(s: Session, call: Call): Cutting {
    if Opened(s.pipe, call).coming == "" then call.cutting
    else call.cutting.(during := WithoutFirst(call.cutting.during))
  }

  lemma FirstOpens(call: Call)
    ensures Opened(NOTHING_READ, call).collector.buffer == "" == Opened(NOTHING_READ, call).coming
    ensures Opened(NOTHING_READ, call).collector.marker == call.marker
  {
    assert InStep(FRESH);
    OpensInStep(FRESH, call);
    LeftOfLate("", call.cutting.before);
  }

  /** Seen by the look, the two differ by the late newline, unless the marker has not been read by either. */
  lemma LooksAlike(s: Session, call: Call, first: Call) returns (here: Pipe, there: Pipe)
    requires InStep(s) && !s.broken && GoodMarker(call.marker) && first == call.(cutting := WithoutLate(s, call))
    ensures here == Looked(Opened(s.pipe, call), call) && there == Looked(Opened(NOTHING_READ, first), first)
    ensures here.collector.marker == there.collector.marker
    ensures here.collector.marker != "" || here.collector.buffer == Late(s, call) + there.collector.buffer
  {
    OpensInStep(s, call);
    FirstOpens(first);
    var o, f := Opened(s.pipe, call), Opened(NOTHING_READ, first);
    var late := Late(s, call);
    var p, q := o.(coming := o.coming + call.reply.stderr), f.(coming := f.coming + call.reply.stderr);
    assert "" + call.reply.stderr == call.reply.stderr;
    if o.coming == "" {
      assert o.collector.buffer + "" == o.collector.buffer && late + "" == late;
      ReadsTrail(p, q, late, call.cutting.during);
      here, there := Reads(p, call.cutting.during), Reads(q, call.cutting.during);
    } else {
      OnlyLateComes(o, late);
      here, there := ReadsTrailUnread(p, q, call.cutting.during);
    }
  }

  lemma OnlyLateComes(p: Pipe, late: string)
    requires p.collector.buffer + p.coming == late && IsLate(late) && p.coming != ""
    ensures p.collector.buffer == "" && p.coming == late == [NEWLINE]
  {
    assert |p.collector.buffer| + |p.coming| == |late|;
    assert p.collector.buffer == "";
    assert "" + p.coming == p.coming;
  }

  /**
   No call sees anything of another but the newline of its marker: after any calls, however they were
   cancelled or failed, a call either fails because the session is broken, without bash getting its
   script, or does exactly what it would have done as the first call, with that newline
   in front of its stderr if no read had brought it when the buffer was cleared.
   */
  lemma CallsAreIndependent(calls: seq<Call>, call: Call)
    requires (forall c <- calls :: Proper(c)) && AllReturn(FRESH, calls) && GoodMarker(call.marker)
    ensures var s := AfterAll(FRESH, calls);
            var effect := Execute(s, call);
            if s.broken then effect == Effect(s, Desynchronized, [])
            else
              && IsLate(Late(s, call))
              && EndAlike(effect, Execute(FRESH, call.(cutting := WithoutLate(s, call))), Late(s, call), s.written)
  {
    SessionStaysInStep(calls);
    var s := AfterAll(FRESH, calls);
    if !s.broken {
      OpensInStep(s, call);
      var effect, alone := NextIsAsFirst(s, call);
    }
  }

  /** The two calls end alike, but for what is in front of the stderr of one. */
  predicate EndAlike(effect: Effect, alone: Effect, late: string, written: nat) {
    match effect
    case Effect(after, result, sent) =>
      && sent == alone.sent && result == WithLate(late, alone.result)
      && after.unread == alone.after.unread && after.broken == alone.after.broken
      && after.written == written + alone.after.written
  }

  /** They draw the same conclusions from the same output. */
  lemma DrainsAlike(effect: Effect, alone: Effect, text: string, n: nat, p: Pipe, q: Pipe, call: Call, first: Call,
                    late: string)
    requires first == call.(cutting := first.cutting)
    requires p.collector.marker == q.collector.marker
    requires p.collector.marker != "" || p.collector.buffer == late + q.collector.buffer
    requires effect == Drain(Session(text, false, n + 1, p), call)
    requires alone == Drain(Session(text, false, 1, q), first)
    ensures EndAlike(effect, alone, late, n)
  {
  }

  lemma FirstIsDrained(first: Call, q: Pipe) returns (alone: Effect)
    requires !first.cancelledBefore && !first.writeFails && q == Looked(Opened(NOTHING_READ, first), first)
    ensures alone == Execute(FRESH, first) == Drain(Session(first.reply.stdout, false, 1, q), first)
  {
    alone := ScriptIsDrained(FRESH, first, q);
  }

  lemma DrainedIsAsFirst(s: Session, call: Call, first: Call) returns (effect: Effect, alone: Effect)
    requires InStep(s) && !s.broken && GoodMarker(call.marker) && !call.cancelledBefore && !call.writeFails
    requires first == call.(cutting := WithoutLate(s, call))
    ensures effect == Execute(s, call) && alone == Execute(FRESH, first)
    ensures EndAlike(effect, alone, Late(s, call), s.written)
  {
    var p, q := LooksAlike(s, call, first);
    effect := ScriptIsDrained(s, call, p);
    alone := FirstIsDrained(first, q);
    DrainsAlike(effect, alone, call.reply.stdout, s.written, p, q, call, first, Late(s, call));
  }

  lemma NextIsAsFirst(s: Session, call: Call) returns (effect: Effect, alone: Effect)
    requires InStep(s) && !s.broken && GoodMarker(call.marker)
    ensures effect == Execute(s, call) && alone == Execute(FRESH, call.(cutting := WithoutLate(s, call)))
    ensures EndAlike(effect, alone, Late(s, call), s.written)
  {
    var first := call.(cutting := WithoutLate(s, call));
    if call.cancelledBefore || call.writeFails {
      effect, alone := Execute(s, call), Execute(FRESH, first);
    } else {
      effect, alone := DrainedIsAsFirst(s, call, first);
    }
  }

  /** Once broken, a session stays as it is for good. */
  lemma {:induction false} BrokenForGood(s: Session, calls: seq<Call>)
    requires s.broken
    ensures AfterAll(s, calls) == s
  {
    if calls != [] {
      BrokenForGood(s, calls[..|calls| - 1]);
    }
  }
}
