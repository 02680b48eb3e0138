/** Daemon command 03, "Send queue state (short)" (section 5.3 of RFC 1179),
    as ReportQueueStateShortCommandParser implements it: one parameter line
    holding the queue name and an optional list of jobs, answered with the
    handler's text. */
module ReportQueueStateShortCommandParser {
  import opened Wire
  import opened Streams
  import opened Util
  import opened Tokens
  import opened Trace
  import opened HandlerStub

  /** ReportQueueStateShortCommandParser.parse on the input at `pos` with
      the test stub as handler: read the parameter line, split it at
      whitespace runs, hand the first token to the handler as the queue
      name and the others as the jobs, and write the handler's answer. */
  function ReportQueueStateShort(input: seq<byte>, pos: nat, h: StubState): (r: Run)
    requires pos <= |input|
    ensures pos <= r.pos <= |input|
    ensures r.outcome.Failed? ==> r.trace == [] && r.handler == h
  {
    var (line, next) := ReadLineAt(input, pos);
    if line.Err? then Run(Failed(line.error), next, [], h)
    else if line.value == [] then Run(Failed(NoQueueName), next, [], h)
    else Reply(Split(line.value), next, h)
  }

  /** What follows the split of a non-empty parameter line ending before
      `next`: the first token is the queue name, the others are the jobs,
      and the handler's answer is written. */
  function Reply(parameters: seq<string>, next: nat, h: StubState): (r: Run)
    ensures r.pos == next
    ensures r.outcome.Failed? <==> parameters == []
    ensures r.outcome.Failed? ==> r.trace == [] && r.handler == h
  {
    // new ArrayList<>(parameters.length - 1) rejects the capacity -1
    if parameters == [] then Run(Failed(IllegalCapacity(-1)), next, [], h)
    else
      var jobs := parameters[1..];
      var (h1, text) := StubSendQueueStateShort(h, parameters[0], jobs);
      Run(Completed, next, [QueueStateShort(parameters[0], jobs), Wrote(Latin1Encode(text))], h1)
  }

  /** ReportQueueStateShortCommandParser.parse with the test stub as
      handler: the outcome, the input consumed, the bytes written and the
      stub's final state are those of ReportQueueStateShort. */
  method Parse(handler: DaemonCommandHandlerStub, input: InputStream, output: OutputStream)
    returns (outcome: Outcome)
    requires input.Valid()
    modifies handler, input, output
    ensures input.Valid()
    ensures var run := ReportQueueStateShort(input.data, old(input.pos), old(handler.State()));
      && outcome == run.outcome
      && input.pos == run.pos
      && output.written == old(output.written) + Output(run.trace)
      && handler.State() == run.handler
  {
    ghost var pos, h := input.pos, handler.State();
    var parameterString := ReadLine(input);
    if parameterString.Err? {
      return Failed(parameterString.error);
    }
    if parameterString.value == [] {
      return Failed(NoQueueName);
    }
    ReplyToLine(input.data, pos, h, parameterString.value, input.pos);
    var parameters := Split(parameterString.value);
    outcome := Answer(handler, output, parameters, input.pos);
  }

  /** The rest of ReportQueueStateShortCommandParser.parse once the line is
      split: size the job list by the token count minus one, copy every
      token after the first into it, and write the handler's answer for
      the queue named by the first token. */
  method Answer(handler: DaemonCommandHandlerStub, output: OutputStream,
                parameters: seq<string>, ghost next: nat)
    returns (outcome: Outcome)
    modifies handler, output
    ensures var run := Reply(parameters, next, old(handler.State()));
      && outcome == run.outcome
      && output.written == old(output.written) + Output(run.trace)
      && handler.State() == run.handler
  {
    if |parameters| - 1 < 0 {
      return Failed(IllegalCapacity(|parameters| - 1));
    }
    var jobs: seq<string> := [];
    for ix := 1 to |parameters|
      invariant jobs == parameters[1..ix]
    {
      jobs := jobs + [parameters[ix]];
    }
    var text := handler.SendQueueStateShort(parameters[0], jobs);
    OutputTwo(QueueStateShort(parameters[0], jobs), Wrote(Latin1Encode(text)));
    WriteString(text, output);
    outcome := Completed;
  }

  /** A non-empty parameter line read up to `next` is answered as Reply
      says. */
  lemma ReplyToLine(input: seq<byte>, pos: nat, h: StubState, line: string, next: nat)
    requires pos <= |input|
    requires ReadLineAt(input, pos).0 == Ok(line) && ReadLineAt(input, pos).1 == next
    requires line != []
    ensures ReportQueueStateShort(input, pos, h) == Reply(Split(line), next, h)
  {
  }

  // ---- properties ---------------------------------------------------------

  /** An empty parameter line is an error, raised before the handler is
      called and before anything is written. */
  lemma EmptyLineRejected(input: seq<byte>, pos: nat, h: StubState)
    requires pos < |input| && input[pos] == LF
    ensures ReportQueueStateShort(input, pos, h) == Run(Failed(NoQueueName), pos + 1, [], h)
  {
    assert LineEnd(input, pos) == Some(pos);
  }

  /** A connection that ends before the line feed fails with the
      end-of-stream error, having consumed everything and written
      nothing. */
  lemma UnterminatedLine(input: seq<byte>, pos: nat, h: StubState)
    requires pos <= |input|
    requires forall k :: pos <= k < |input| ==> input[k] != LF
    ensures ReportQueueStateShort(input, pos, h) == Run(Failed(EndOfStream), |input|, [], h)
  {
    NoLineFeed(input, pos);
  }

  /** A line of nothing but blanks and tabs has no token at all, and
      sizing the job list by the token count minus one fails. */
  lemma BlankLineRejected(line: string, tail: seq<byte>, h: StubState)
    requires line != [] && forall k :: 0 <= k < |line| ==> line[k] == ' ' || line[k] == '\t'
    ensures ReportQueueStateShort(Latin1Encode(line) + [LF] + tail, 0, h)
         == Run(Failed(IllegalCapacity(-1)), |line| + 1, [], h)
  {
    forall k | 0 <= k < |line| ensures IsLatin1(line[k]) && IsWhitespace(line[k]) { }
    WriteThenReadLine(line, tail);
    ReplyToLine(Latin1Encode(line) + [LF] + tail, 0, h, line, |line| + 1);
    SplitBlank(line);
  }

  /** Once a non-empty line with at least one token is read: the queue
      name is the first token and the jobs are the other tokens in their
      order, exactly the line and its line feed are consumed, the stub
      records only queue and jobs, and the bytes written are exactly the
      encoded answer. */
  lemma QueueAndJobs(input: seq<byte>, pos: nat, h: StubState, line: string, next: nat,
                     tokens: seq<string>)
    requires pos <= |input| && ReadLineAt(input, pos) == (Ok(line), next)
    requires line != [] && tokens == Split(line) && tokens != []
    ensures next == pos + |line| + 1
    ensures ReportQueueStateShort(input, pos, h)
         == Run(Completed, next,
                [QueueStateShort(tokens[0], tokens[1..]), Wrote(Latin1Encode(SHORT_LIST))],
                h.(printerQueueName := Some(tokens[0]), jobList := tokens[1..]))
    ensures Output(ReportQueueStateShort(input, pos, h).trace) == Latin1Encode(SHORT_LIST)
  {
    ReplyToLine(input, pos, h, line, next);
    ReplyToTokens(tokens, next, h);
  }

  /** A split line with at least one token is answered for the queue named
      by the first token and the jobs named by the others, and only the
      answer is written. */
  lemma ReplyToTokens(tokens: seq<string>, next: nat, h: StubState)
    requires tokens != []
    ensures var run := Reply(tokens, next, h);
      && run == Run(Completed, next,
                    [QueueStateShort(tokens[0], tokens[1..]), Wrote(Latin1Encode(SHORT_LIST))],
                    h.(printerQueueName := Some(tokens[0]), jobList := tokens[1..]))
      && Output(run.trace) == Latin1Encode(SHORT_LIST)
  {
    OutputTwo(QueueStateShort(tokens[0], tokens[1..]), Wrote(Latin1Encode(SHORT_LIST)));
  }

  /** Whatever the input, the bytes written are either nothing (on every
      error) or exactly the handler's answer encoded by writeString. */
  lemma OutputIsAnswerOrNothing(input: seq<byte>, pos: nat, h: StubState)
    requires pos <= |input|
    ensures var run := ReportQueueStateShort(input, pos, h);
      && (run.outcome == Completed ==> Output(run.trace) == Latin1Encode(SHORT_LIST))
      && (run.outcome.Failed? ==> Output(run.trace) == [])
  {
    var run := ReportQueueStateShort(input, pos, h);
    if run.outcome == Completed {
      var (line, next) := ReadLineAt(input, pos);
      ReplyToLine(input, pos, h, line.value, next);
      ReplyToTokens(Split(line.value), next, h);
    }
  }

  /** Round trip: a line of plain tokens joined by single blanks is read
      back as exactly those tokens, the first as the queue name and the
      rest as the jobs; the bytes after the line are left unread. */
  lemma QueueLineRoundTrip(tokens: seq<string>, tail: seq<byte>, h: StubState)
    requires |tokens| >= 1 && PlainTokens(tokens)
    requires forall i :: 0 <= i < |tokens| ==> AllLatin1(tokens[i])
    ensures var line := Join(tokens);
      ReportQueueStateShort(Latin1Encode(line) + [LF] + tail, 0, h)
        == Run(Completed, |line| + 1,
               [QueueStateShort(tokens[0], tokens[1..]), Wrote(Latin1Encode(SHORT_LIST))],
               h.(printerQueueName := Some(tokens[0]), jobList := tokens[1..]))
  {
    var line := Join(tokens);
    JoinIsOneLine(tokens);
    WriteThenReadLine(line, tail);
    JoinStartsWith(tokens);
    SplitJoin(tokens);
  }

  /** A queue name alone asks for the state of every job: the job list is
      empty. */
  lemma QueueNameAlone(queueName: string, tail: seq<byte>, h: StubState)
    requires queueName != [] && NoWhitespace(queueName) && AllLatin1(queueName)
    ensures var run := ReportQueueStateShort(Latin1Encode(queueName) + [LF] + tail, 0, h);
      && run.outcome == Completed
      && run.trace[0] == QueueStateShort(queueName, [])
      && run.handler.jobList == []
  {
    assert PlainTokens([queueName]);
    QueueLineRoundTrip([queueName], tail, h);
  }

  /** A line starting with a blank passes the emptiness check but splits
      with an empty first token: the handler is asked for the queue with
      the empty name, and every word of the line becomes a job. */
  lemma LeadingBlankLine(tokens: seq<string>, tail: seq<byte>, h: StubState)
    requires |tokens| >= 1 && PlainTokens(tokens)
    requires forall i :: 0 <= i < |tokens| ==> AllLatin1(tokens[i])
    ensures var line := " " + Join(tokens);
      var run := ReportQueueStateShort(Latin1Encode(line) + [LF] + tail, 0, h);
      && run.outcome == Completed
      && run.trace[0] == QueueStateShort("", tokens)
      && run.handler.printerQueueName == Some("")
  {
    var s := Join(tokens);
    var line := " " + s;
    JoinIsOneLine(tokens);
    forall k | 0 <= k < |line| ensures IsLatin1(line[k]) && line[k] != '\n' {
      if k > 0 {
        assert line[k] == s[k - 1];
      }
    }
    WriteThenReadLine(line, tail);
    JoinStartsWith(tokens);
    PiecesOfJoin(tokens);
    SplitLeadingSeparator(s);
    DropTrailingEmptyPlain(tokens);
    assert Split(line) == [""] + tokens;
    assert (([""] + tokens)[1..]) == tokens;
  }

  /** Plain tokens end in a non-empty one, so none is dropped as a
      trailing empty token. */
  lemma DropTrailingEmptyPlain(tokens: seq<string>)
    requires |tokens| >= 1 && PlainTokens(tokens)
    ensures DropTrailingEmpty(tokens) == tokens
  {
  }

  /** Plain ISO-8859-1 tokens joined by blanks make one line: no line
      feed, every character ISO-8859-1. */
  lemma {:induction false} JoinIsOneLine(tokens: seq<string>)
    requires |tokens| >= 1 && PlainTokens(tokens)
    requires forall i :: 0 <= i < |tokens| ==> AllLatin1(tokens[i])
    ensures AllLatin1(Join(tokens))
    ensures forall k :: 0 <= k < |Join(tokens)| ==> Join(tokens)[k] != '\n'
    decreases |tokens|
  {
    var t := tokens[0];
    assert AllLatin1(t) && NoWhitespace(t);
    if |tokens| == 1 {
      assert Join(tokens) == t;
      forall k | 0 <= k < |t| ensures t[k] != '\n' {
        assert !IsWhitespace(t[k]);
      }
    } else {
      var rest := tokens[1..];
      assert PlainTokens(rest) by {
        forall i | 0 <= i < |rest| ensures rest[i] != [] && NoWhitespace(rest[i]) {
          assert rest[i] == tokens[i + 1];
        }
      }
      forall i | 0 <= i < |rest| ensures AllLatin1(rest[i]) {
        assert rest[i] == tokens[i + 1];
      }
      JoinIsOneLine(rest);
      var j := Join(tokens);
      var r := Join(rest);
      assert j == t + " " + r;
      forall k | 0 <= k < |j| ensures IsLatin1(j[k]) && j[k] != '\n' {
        if k < |t| {
          assert j[k] == t[k] && !IsWhitespace(t[k]);
        } else if k > |t| {
          assert j[k] == r[k - |t| - 1];
        }
      }
    }
  }
}
