/** From a command's output to the events the browser sees. */
module CommandAnswer {
  import opened Characters
  import opened Options
  import opened ShellText
  import opened Shell
  import opened ShellProtocol
  import opened EventStream

  /** Every event becomes a payload of one line from which it can be recovered. */
  ghost predicate Faithful(encode: Event -> string, decode: string -> Event) {
    forall e :: OnOneLine(encode(e)) && decode(encode(e)) == e
  }

  function EncodeAll(encode: Event -> string, events: seq<Event>): seq<string> {
    if events == [] then [] else [encode(events[0])] + EncodeAll(encode, events[1..])
  }

  function DecodeAll(decode: string -> Event, payloads: seq<string>): seq<Event> {
    if payloads == [] then [] else [decode(payloads[0])] + DecodeAll(decode, payloads[1..])
  }

  lemma {:induction false} DecodesEncoded(encode: Event -> string, decode: string -> Event, events: seq<Event>)
    requires Faithful(encode, decode)
    ensures DecodeAll(decode, EncodeAll(encode, events)) == events
    ensures forall p <- EncodeAll(encode, events) :: OnOneLine(p)
  {
    if events != [] {
      DecodesEncoded(encode, decode, events[1..]);
      assert EncodeAll(encode, events)[1..] == EncodeAll(encode, events[1..]);
    }
  }

  /** The browser sees exactly what the runner wrote, wherever the reads are cut. */
  lemma BrowserSeesWritten(encode: Event -> string, decode: string -> Event, events: seq<Event>, chunks: seq<string>)
    requires Faithful(encode, decode) && Concat(chunks) == Wire(EncodeAll(encode, events))
    ensures DecodeAll(decode, ReadStream(chunks)) == events
  {
    DecodesEncoded(encode, decode, events);
    StreamRoundTrip(EncodeAll(encode, events), chunks);
  }

  /** What the handler gets back from ExecuteStream. */
  function ReturnedOf(result: Result): Returned {
    match result
    case Exited(code, stderr) => Returned(code, stderr)
    case _ => Returned(-1, "")
  }

  function Begun(messages: seq<string>): Execution {
    Execution(messages, [], false, Streaming, [])
  }

  /** What the stdout events say, put together. */
  function StdoutText(events: seq<Event>): string {
    if events == [] then ""
    else (if events[0].Stdout? then events[0].data else "") + StdoutText(events[1..])
  }

  lemma {:induction false} StdoutTextOfAnswer(messages: seq<string>, returned: Returned)
    ensures StdoutText(Answer(messages, returned)) == Concat(messages)
  {
    var answer := Answer(messages, returned);
    if messages == [] {
      assert StdoutEvents([]) == [];
      var done := [Complete(returned.code)];
      assert StdoutText(done) == "" + StdoutText([]);
      if returned.stderr != "" {
        assert answer[1..] == done;
      } else {
        assert answer == done;
      }
    } else {
      StdoutTextOfAnswer(messages[1..], returned);
      assert answer[0] == Stdout(messages[0]) && answer[1..] == Answer(messages[1..], returned);
    }
  }

  lemma FinishedAnswer(messages: seq<string>, returned: Returned, moves: seq<Move>)
    requires Plays(Begun(messages), returned, moves) && Played(Begun(messages), returned, moves).stage.Finished?
    ensures Played(Begun(messages), returned, moves).written == Answer(messages, returned)
  {
    AnswerIsInOrder(Begun(messages), returned, moves);
    assert [] + messages == messages;
    assert [] + Answer(messages, returned) == Answer(messages, returned);
  }

  /**
   A command's whole way: however its stderr is read, however the shell and the writer interleave, and
   however the stream is cut on its way, the browser's reader sees the command's messages in order, its
   stderr if any, and its own exit code last.  The stdout it sees is the command's, up to the
   newline of an unfinished last line, exactly when no line ends in a carriage return; the stderr is the
   command's, behind the late newline of the command before and in front of its own marker's,
   when there are any.
   */
  lemma BrowserSeesCommand(encode: Event -> string, decode: string -> Event,
                           s: Session, call: Call, out: string, err: string, code: nat,
                           moves: seq<Move>, chunks: seq<string>)
    requires Faithful(encode, decode)
    requires InStep(s) && !s.broken && Harmless(call, out, err, code) && call.failAt == None
    requires var effect := Execute(s, call);
             && !effect.result.Waiting?
             && Plays(Begun(effect.sent), ReturnedOf(effect.result), moves)
             && var answer := Played(Begun(effect.sent), ReturnedOf(effect.result), moves);
                answer.stage.Finished? && Concat(chunks) == Wire(EncodeAll(encode, answer.written))
    ensures var seen := DecodeAll(decode, ReadStream(chunks));
            var stderr, n := Late(s, call) + err + Tail(s, call), |Messaged(out)|;
            && seen == Answer(Messaged(out), Returned(code, stderr))
            && |seen| == (if stderr == "" then n + 1 else n + 2) && seen[|seen| - 1] == Complete(code)
            && (stderr != "" ==> seen[n] == Stderr(stderr))
            && (StdoutText(seen) == NewlineEnded(out) <==> NoCRLF(out))
  {
    var effect, stderr := CallDelivers(s, call, out, err, code);
    assert effect.sent == Messaged(out) && effect.result == Exited(code, stderr);
    var returned := Returned(code, stderr);
    FinishedAnswer(Messaged(out), returned, moves);
    BrowserSeesWritten(encode, decode, Answer(Messaged(out), returned), chunks);
    StdoutTextOfAnswer(Messaged(out), returned);
    AnswerIs(Messaged(out), returned);
    StdoutFidelity(out);
  }

  /**
   A call that fails, for whatever reason: the browser sees the messages sent before, no stderr, and the exit
   code -1.
   */
  lemma BrowserSeesFailure(encode: Event -> string, decode: string -> Event, effect: Effect,
                           moves: seq<Move>, chunks: seq<string>)
    requires Faithful(encode, decode) && !effect.result.Exited? && !effect.result.Waiting?
    requires Plays(Begun(effect.sent), ReturnedOf(effect.result), moves)
    requires var answer := Played(Begun(effect.sent), ReturnedOf(effect.result), moves);
             answer.stage.Finished? && Concat(chunks) == Wire(EncodeAll(encode, answer.written))
    ensures var seen, n := DecodeAll(decode, ReadStream(chunks)), |effect.sent|;
            && |seen| == n + 1 && seen[n] == Complete(-1)
            && forall i :: 0 <= i < n ==> seen[i] == Stdout(effect.sent[i])
  {
    var returned := ReturnedOf(effect.result);
    FinishedAnswer(effect.sent, returned, moves);
    BrowserSeesWritten(encode, decode, Answer(effect.sent, returned), chunks);
    AnswerIs(effect.sent, returned);
  }
}
