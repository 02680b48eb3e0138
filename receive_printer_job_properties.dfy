/** What the receive-printer-job conversation guarantees, stated about the
    functional model of ReceivePrinterJobCommandParser.parse: the
    handshake, the acknowledgements of each subcommand and the shape of a
    whole run. */
module ReceivePrinterJobProperties {
  import opened Wire
  import opened Util
  import opened Tokens
  import opened Trace
  import opened HandlerStub
  import opened ReceivePrinterJobCommandParser

  /** Every byte written is an acknowledgement byte. */
  predicate OnlyAcknowledgements(out: seq<byte>) {
    forall i :: 0 <= i < |out| ==> out[i] == ACK || out[i] == NAK
  }

  /** The handler is handed a file only right after the parser told the
      client, with a 0x00, that it is ready for the file. */
  ghost predicate ReadyBeforeEachFile(t: seq<Event>) {
    && (t != [] ==> !t[0].ReceiveFile?)
    && forall i, j :: 0 <= i < j < |t| && j == i + 1 && t[j].ReceiveFile? ==> t[i] == Wrote([ACK])
  }

  // ---- the handshake ----------------------------------------------------

  /** An empty queue name is an error, raised before the handler is called
      and before anything is written. */
  lemma EmptyQueueNameRejected(input: seq<byte>, pos: nat, h: StubState)
    requires pos < |input| && input[pos] == LF
    ensures ReceivePrinterJob(input, pos, h) == Run(Failed(NoQueueName), pos + 1, [], h)
  {
    assert LineEnd(input, pos) == Some(pos);
  }

  /** A connection that ends before the queue line is complete fails with
      the end-of-stream error, having consumed everything and written
      nothing. */
  lemma UnterminatedQueueName(input: seq<byte>, pos: nat, h: StubState)
    requires pos <= |input|
    requires forall k :: pos <= k < |input| ==> input[k] != LF
    ensures ReceivePrinterJob(input, pos, h) == Run(Failed(EndOfStream), |input|, [], h)
  {
    NoLineFeed(input, pos);
  }

  /** While the stub's queue is locked, the job is refused: exactly one
      0x01 is written, no subcommand is read and the stub is unchanged. */
  lemma RefusedWhileLocked(queueName: string, tail: seq<byte>, h: StubState)
    requires queueName != [] && AllLatin1(queueName)
    requires forall k :: 0 <= k < |queueName| ==> queueName[k] != '\n'
    requires h.lockedQueue
    ensures var run := ReceivePrinterJob(Latin1Encode(queueName) + [LF] + tail, 0, h);
      && run == Run(Completed, |queueName| + 1, [StartJob(queueName), Wrote([NAK])], h)
      && Output(run.trace) == [NAK]
  {
    var input := Latin1Encode(queueName) + [LF] + tail;
    WriteThenReadLine(queueName, tail);
    HandshakeOutput(queueName, NAK);
  }

  /** An accepted job records the queue name, writes 0x00 before reading
      any subcommand byte, and then runs the subcommand loop on the bytes
      after the queue line. */
  lemma AcceptedJob(queueName: string, tail: seq<byte>, h: StubState)
    requires queueName != [] && AllLatin1(queueName)
    requires forall k :: 0 <= k < |queueName| ==> queueName[k] != '\n'
    requires !h.lockedQueue
    ensures var input := Latin1Encode(queueName) + [LF] + tail;
      var run := ReceivePrinterJob(input, 0, h);
      var handshake := [StartJob(queueName), Wrote([ACK])];
      && run == JobLoop(input, |queueName| + 1, handshake,
                        h.(printerQueueName := Some(queueName)))
      && |run.trace| >= 2 && run.trace[..2] == handshake
      && |Output(run.trace)| >= 1 && Output(run.trace)[0] == ACK
  {
    var input := Latin1Encode(queueName) + [LF] + tail;
    var handshake := [StartJob(queueName), Wrote([ACK])];
    var h1 := h.(printerQueueName := Some(queueName));
    WriteThenReadLine(queueName, tail);
    var run := JobLoop(input, |queueName| + 1, handshake, h1);
    JobLoopShape(input, |queueName| + 1, handshake, h1);
    var rest := run.trace[2..];
    assert run.trace == handshake + rest;
    OutputAppend(handshake, rest);
    HandshakeOutput(queueName, ACK);
  }

  // ---- single subcommands -----------------------------------------------

  /** What the rest of a file subcommand may write: acknowledgements only,
      beginning with the readiness 0x00 that precedes the file; at most
      that 0x00 when the subcommand ends the parse, and exactly two bytes
      when the loop goes on. */
  ghost predicate FileStepWrites(step: Step) {
    var out := Output(step.events);
    && OnlyAcknowledgements(out)
    && ReadyBeforeEachFile(step.events)
    && (step.events != [] ==> step.events[0] == Wrote([ACK]))
    && (step.Stop? ==> out == [] || out == [ACK])
    && (step.Continue? ==> |out| == 2 && out[0] == ACK)
  }

  /** A file transfer writes the readiness 0x00 right before the handler
      receives the file, then, unless the handler raised an error, one
      more acknowledgement. */
  lemma TransferEvents(code: byte, input: seq<byte>, pos: nat,
                       fileLength: int, fileName: string, h: StubState)
    requires pos <= |input|
    ensures FileStepWrites(FileTransfer(code, input, pos, fileLength, fileName, h))
  {
    TransferOutput(code, input, pos, fileLength, fileName, h);
  }

  /** A parameter line cut off by the end of the stream ends the parse
      with the end-of-stream error, before anything is written. */
  lemma ParameterLineUnterminated(code: byte, input: seq<byte>, pos: nat, h: StubState)
    requires pos <= |input| && ReadLineAt(input, pos).0.Err?
    ensures FileSubcommand(code, input, pos, h) == Stop(Failed(EndOfStream), |input|, [], h)
  {
  }

  /** A parameter line that does not split into exactly two tokens ends
      the parse with an error naming the line, before anything is
      written. */
  lemma ParameterCountRejected(code: byte, input: seq<byte>, pos: nat, h: StubState)
    requires pos <= |input| && ReadLineAt(input, pos).0.Ok?
    requires |Split(ReadLineAt(input, pos).0.value)| != 2
    ensures var (line, next) := ReadLineAt(input, pos);
      FileSubcommand(code, input, pos, h)
        == Stop(Failed(InvalidParameters(line.value)), next, [], h)
  {
  }

  /** A length that Long.parseLong rejects ends the parse with a number
      format error, before anything is written. */
  lemma LengthRejected(code: byte, input: seq<byte>, pos: nat, h: StubState)
    requires pos <= |input| && ReadLineAt(input, pos).0.Ok?
    requires |Split(ReadLineAt(input, pos).0.value)| == 2
    requires ParseLong(Split(ReadLineAt(input, pos).0.value)[0]).None?
    ensures var (line, next) := ReadLineAt(input, pos);
      FileSubcommand(code, input, pos, h)
        == Stop(Failed(NumberFormat(Split(line.value)[0])), next, [], h)
  {
  }

  /** A parameter line "<length> <name>" with a valid long leads to the
      transfer of a file of that length and name, right after the line. */
  lemma ParameterLineAccepted(code: byte, input: seq<byte>, pos: nat, h: StubState)
    requires pos <= |input| && ReadLineAt(input, pos).0.Ok?
    requires |Split(ReadLineAt(input, pos).0.value)| == 2
    requires ParseLong(Split(ReadLineAt(input, pos).0.value)[0]).Some?
    ensures var (line, next) := ReadLineAt(input, pos);
      var tokens := Split(line.value);
      FileSubcommand(code, input, pos, h)
        == FileTransfer(code, input, next, ParseLong(tokens[0]).value, tokens[1], h)
  {
  }

  /** The rest of a file subcommand writes nothing when the parameter line
      is rejected, otherwise what the transfer writes. */
  lemma FileSubcommandEvents(code: byte, input: seq<byte>, pos: nat, h: StubState)
    requires pos <= |input|
    ensures FileStepWrites(FileSubcommand(code, input, pos, h))
  {
    var (parameters, next) := ParametersAt(input, pos);
    if parameters.Ok? {
      TransferEvents(code, input, next, parameters.value.fileLength,
                     parameters.value.fileName, h);
    }
  }

  /** What one pass of the subcommand loop writes: at most two bytes, all
      acknowledgements; the abort subcommand and every error before the
      transfer write nothing, a failed handover writes only the readiness
      0x00, and a finished transfer writes the readiness 0x00 and one more
      acknowledgement. */
  lemma StepOutput(input: seq<byte>, pos: nat, h: StubState)
    requires pos <= |input|
    ensures var step := SubcommandStep(input, pos, h);
      var out := Output(step.events);
      && OnlyAcknowledgements(out)
      && ReadyBeforeEachFile(step.events)
      && (step.events != [] ==> !step.events[0].ReceiveFile?)
      && (pos < |input| && input[pos] == COMMAND_CODE_ABORT_JOB ==> out == [])
      && (step.Stop? ==> out == [] || out == [ACK])
      && (step.Continue? && input[pos] != COMMAND_CODE_ABORT_JOB ==>
            |out| == 2 && out[0] == ACK)
      && (pos < |input| && (input[pos] < COMMAND_CODE_ABORT_JOB || input[pos] > COMMAND_CODE_RECEIVE_DATA_FILE) ==>
            step == Stop(Failed(UnknownSubcommand(input[pos])), pos + 1, [], h))
  {
    StepWireRules(input, pos, h);
    if pos < |input| && COMMAND_CODE_RECEIVE_CONTROL_FILE <= input[pos] <= COMMAND_CODE_RECEIVE_DATA_FILE {
      FileSubcommandEvents(input[pos], input, pos + 1, h);
    }
  }

  /** One pass of the subcommand loop keeps the two wire rules, and its
      events never start with a file handed to the handler. */
  lemma StepWireRules(input: seq<byte>, pos: nat, h: StubState)
    requires pos <= |input|
    ensures var step := SubcommandStep(input, pos, h);
      && OnlyAcknowledgements(Output(step.events))
      && ReadyBeforeEachFile(step.events)
      && (step.events != [] ==> !step.events[0].ReceiveFile?)
  {
    if pos < |input| && COMMAND_CODE_RECEIVE_CONTROL_FILE <= input[pos] <= COMMAND_CODE_RECEIVE_DATA_FILE {
      FileSubcommandEvents(input[pos], input, pos + 1, h);
    }
  }

  /** The abort subcommand only sets the stub's aborted flag and the loop
      goes on with the next byte: it does not end the job. */
  lemma AbortContinues(input: seq<byte>, pos: nat, trace: seq<Event>, h: StubState)
    requires pos < |input| && input[pos] == COMMAND_CODE_ABORT_JOB
    ensures JobLoop(input, pos, trace, h)
         == JobLoop(input, pos + 1, trace + [AbortJob], h.(isAborted := true))
  {
  }

  /** An abort followed by a line feed: the line feed is read as a
      subcommand code and rejected, so the parse fails after the abort. */
  lemma AbortThenLineFeedFails(input: seq<byte>, pos: nat, trace: seq<Event>, h: StubState)
    requires pos + 1 < |input|
    requires input[pos] == COMMAND_CODE_ABORT_JOB && input[pos + 1] == LF
    ensures JobLoop(input, pos, trace, h)
         == Run(Failed(UnknownSubcommand(LF)), pos + 2, trace + [AbortJob], h.(isAborted := true))
  {
    assert trace + [AbortJob] + [] == trace + [AbortJob];
  }

  /** A code byte other than 0x01, 0x02 or 0x03 ends the parse with an
      error right after that byte; nothing is written and the stub is left
      as it was. */
  lemma UnknownCodeFails(input: seq<byte>, pos: nat, trace: seq<Event>, h: StubState)
    requires pos < |input|
    requires input[pos] < COMMAND_CODE_ABORT_JOB || input[pos] > COMMAND_CODE_RECEIVE_DATA_FILE
    ensures JobLoop(input, pos, trace, h)
         == Run(Failed(UnknownSubcommand(input[pos])), pos + 1, trace, h)
  {
    assert trace + [] == trace;
  }

  /** End of stream in place of a subcommand code ends the job normally. */
  lemma EndOfStreamEndsJob(input: seq<byte>, trace: seq<Event>, h: StubState)
    ensures JobLoop(input, |input|, trace, h)
         == Run(Completed, |input|, trace + [EndJob], h.(isEnded := true))
  {
  }

  /** An empty parameter line splits into one empty token and is rejected
      without writing anything. */
  lemma EmptyParameterLineRejected(code: byte, input: seq<byte>, pos: nat, h: StubState)
    requires pos < |input| && input[pos] == LF
    ensures FileSubcommand(code, input, pos, h)
         == Stop(Failed(InvalidParameters("")), pos + 1, [], h)
  {
    assert LineEnd(input, pos) == Some(pos);
    assert Split("") == [""];
  }

  /** A parameter line starting with a blank has an extra empty first
      token, so " <length> <name>" is rejected, wherever it is read. */
  lemma LeadingBlankParameterLineRejected(code: byte, prefix: seq<byte>, length: string,
                                          name: string, tail: seq<byte>, h: StubState)
    requires PlainTokens([length, name]) && AllLatin1(length) && AllLatin1(name)
    ensures var line := " " + length + " " + name;
      FileSubcommand(code, prefix + (Latin1Encode(line) + [LF] + tail), |prefix|, h)
        == Stop(Failed(InvalidParameters(line)), |prefix| + |line| + 1, [], h)
  {
    var line := " " + length + " " + name;
    var input := prefix + (Latin1Encode(line) + [LF] + tail);
    LeadingBlankParameters(prefix, line, length, name, tail);
    ParametersRejected(code, input, |prefix|, InvalidParameters(line), |prefix| + |line| + 1, h);
  }

  /** " <length> <name>" splits into three tokens, the first one empty, so
      the parameter line is rejected as a whole, right after it. */
  lemma LeadingBlankParameters(prefix: seq<byte>, line: string, length: string, name: string,
                               tail: seq<byte>)
    requires line == " " + length + " " + name
    requires PlainTokens([length, name]) && AllLatin1(length) && AllLatin1(name)
    ensures var input := prefix + (Latin1Encode(line) + [LF] + tail);
      ParametersAt(input, |prefix|) == (Err(InvalidParameters(line)), |prefix| + |line| + 1)
  {
    var s := length + " " + name;
    assert line == " " + s;
    BlankLedLine(line, length, name);
    WriteThenReadLineAt(prefix, line, tail);
    assert s == Join([length, name]);
    PiecesOfJoin([length, name]);
    JoinStartsWith([length, name]);
    SplitLeadingSeparator(s);
    assert Split(line) == ["", length, name];
  }

  /** A parameter line of the form " <length> <name>" is ISO-8859-1 and
      has no line feed. */
  lemma BlankLedLine(line: string, length: string, name: string)
    requires line == " " + length + " " + name
    requires PlainTokens([length, name]) && AllLatin1(length) && AllLatin1(name)
    ensures AllLatin1(line) && forall k :: 0 <= k < |line| ==> line[k] != '\n'
  {
    assert NoWhitespace([length, name][0]) && NoWhitespace([length, name][1]);
    forall k | 0 <= k < |line|
      ensures IsLatin1(line[k]) && line[k] != '\n'
    {
      if 1 <= k < 1 + |length| {
        assert line[k] == length[k - 1];
      } else if 2 + |length| <= k {
        assert line[k] == name[k - 2 - |length|];
      }
    }
  }

  /** The stub after it received `content` completely as the file `name`
      of a control-file (code 2) or data-file (code 3) subcommand. */
  function Received(code: byte, h: StubState, name: string, content: seq<byte>): (r: StubState)
    ensures code == COMMAND_CODE_RECEIVE_CONTROL_FILE ==>
      r.controlFileName == Some(name) && r.controlFileContent == Some(content)
    ensures code != COMMAND_CODE_RECEIVE_CONTROL_FILE ==>
      r.dataFileName == Some(name) && r.dataFileContent == Some(content)
  {
    if code == COMMAND_CODE_RECEIVE_CONTROL_FILE then
      h.(controlFileName := Some(name), controlFileLength := |content|,
         controlFileContent := Some(content), isControlFileComplete := true)
    else
      h.(dataFileName := Some(name), dataFileLength := |content|,
         dataFileContent := Some(content), isDataFileComplete := true)
  }

  /** The parameter line "<decimal length> <name>" and its line feed, as
      bytes. */
  function ParameterLineBytes(length: nat, name: string): (line: seq<byte>)
    ensures |line| == |DecimalString(length) + " " + name| + 1
  {
    Latin1Encode(DecimalString(length) + " " + name) + [LF]
  }

  /** The bytes of a well-formed file subcommand after its code: the
      decimal length and the name separated by one blank, a line feed, the
      file's bytes and the trailing 0x00, then whatever follows. */
  function WellFormedFile(content: seq<byte>, name: string, tail: seq<byte>): (input: seq<byte>)
    ensures |input| == |ParameterLineBytes(|content|, name)| + |content| + 1 + |tail|
  {
    ParameterLineBytes(|content|, name) + (content + [0x00] + tail)
  }

  /** Round trip: wherever it is read, a well-formed file subcommand is
      acknowledged twice with 0x00, hands the file to the handler with its
      length and name, leaves exactly the file's bytes in the stub and
      stops right before the bytes that follow it. */
  lemma WellFormedFileAccepted(code: byte, prefix: seq<byte>, content: seq<byte>, name: string,
                               tail: seq<byte>, h: StubState)
    requires code == COMMAND_CODE_RECEIVE_CONTROL_FILE || code == COMMAND_CODE_RECEIVE_DATA_FILE
    requires |content| < 0x8000_0000
    requires name != [] && NoWhitespace(name) && AllLatin1(name)
    ensures var input := prefix + WellFormedFile(content, name, tail);
      var step := FileSubcommand(code, input, |prefix|, h);
      && step == Continue(|input| - |tail|,
                          [Wrote([ACK]), ReceiveFile(code, |content|, name), Wrote([ACK])],
                          Received(code, h, name, content))
      && Output(step.events) == [ACK, ACK]
  {
    WellFormedFileLaidOut(prefix, content, name, tail);
    FileAfterParameters(code, prefix + WellFormedFile(content, name, tail), |prefix|,
                        content, name, tail, h);
  }

  /** Where the parts of a well-formed file subcommand sit after any
      bytes already read: its parameter line reads back as the file's
      length and name, and the file's bytes, 0x00 and what follows come
      right after the line. */
  lemma WellFormedFileLaidOut(prefix: seq<byte>, content: seq<byte>, name: string, tail: seq<byte>)
    requires |content| < 0x8000_0000
    requires name != [] && NoWhitespace(name) && AllLatin1(name)
    ensures FileFollows(prefix + WellFormedFile(content, name, tail), |prefix|, content, name, tail)
  {
    WellFormedFileParameters(prefix, content, name, tail);
    WellFormedFileBytes(prefix, content, name, tail);
  }

  /** The parameter line of a well-formed file subcommand reads back as
      the file's length and name, and the parse goes on right after it. */
  lemma WellFormedFileParameters(prefix: seq<byte>, content: seq<byte>, name: string,
                                 tail: seq<byte>)
    requires |content| < 0x8000_0000
    requires name != [] && NoWhitespace(name) && AllLatin1(name)
    ensures var input := prefix + WellFormedFile(content, name, tail);
      && ParametersAt(input, |prefix|).0 == Ok(Parameters(|content|, name))
      && ParametersAt(input, |prefix|).1 == |prefix| + |ParameterLineBytes(|content|, name)|
  {
    var line := ParameterLineBytes(|content|, name);
    assert prefix + WellFormedFile(content, name, tail) == prefix + (line + (content + [0x00] + tail));
    WellFormedParameterLine(prefix, line, content + [0x00] + tail, |content|, name);
  }

  /** Right after the parameter line come the file's bytes, 0x00 and what
      follows. */
  lemma WellFormedFileBytes(prefix: seq<byte>, content: seq<byte>, name: string, tail: seq<byte>)
    ensures (prefix + WellFormedFile(content, name, tail))[|prefix| + |ParameterLineBytes(|content|, name)|..]
         == content + [0x00] + tail
  {
    var line := ParameterLineBytes(|content|, name);
    assert prefix + WellFormedFile(content, name, tail) == prefix + (line + (content + [0x00] + tail));
    FileBytesAt(prefix, line, content + [0x00] + tail);
  }

  /** What follows a prefix and a line. */
  lemma FileBytesAt(prefix: seq<byte>, line: seq<byte>, after: seq<byte>)
    ensures (prefix + (line + after))[|prefix| + |line|..] == after
  {
  }

  /** At `pos` a parameter line names the length and name of a file
      whose bytes follow the line and are followed by 0x00 and `tail`. */
  predicate FileFollows(input: seq<byte>, pos: nat, content: seq<byte>, name: string,
                        tail: seq<byte>) {
    && pos <= |input|
    && ParametersAt(input, pos).0 == Ok(Parameters(|content|, name))
    && input[ParametersAt(input, pos).1..] == content + [0x00] + tail
  }

  /** Parameters naming the length of the bytes that follow the line,
      and 0x00 right after those bytes: the file is received completely
      and acknowledged twice with 0x00, and the parse goes on with
      `tail`. */
  lemma FileAfterParameters(code: byte, input: seq<byte>, pos: nat,
                            content: seq<byte>, name: string, tail: seq<byte>, h: StubState)
    requires code == COMMAND_CODE_RECEIVE_CONTROL_FILE || code == COMMAND_CODE_RECEIVE_DATA_FILE
    requires |content| < 0x8000_0000
    requires FileFollows(input, pos, content, name, tail)
    ensures var step := FileSubcommand(code, input, pos, h);
      && step == Continue(|input| - |tail|,
                          [Wrote([ACK]), ReceiveFile(code, |content|, name), Wrote([ACK])],
                          Received(code, h, name, content))
      && Output(step.events) == [ACK, ACK]
  {
    var next := ParametersAt(input, pos).1;
    ParametersLeadToTransfer(code, input, pos, Parameters(|content|, name), next, h);
    CompleteTransfer(code, input, next, content, name, tail, h);
  }

  /** A subcommand byte 0x02 or 0x03 starts a file subcommand on the
      bytes after it. */
  lemma FileCodeDispatch(input: seq<byte>, pos: nat, h: StubState)
    requires pos < |input|
    requires input[pos] == COMMAND_CODE_RECEIVE_CONTROL_FILE
          || input[pos] == COMMAND_CODE_RECEIVE_DATA_FILE
    ensures SubcommandStep(input, pos, h) == FileSubcommand(input[pos], input, pos + 1, h)
  {
  }

  /** The parameter line "<length> <name>", with the length in decimal,
      yields exactly that length and name wherever it is read, consuming
      the line and its line feed. */
  lemma WellFormedParameterLine(prefix: seq<byte>, line: seq<byte>, after: seq<byte>,
                                length: nat, name: string)
    requires length <= LONG_MAX
    requires name != [] && NoWhitespace(name) && AllLatin1(name)
    requires line == ParameterLineBytes(length, name)
    ensures ParametersAt(prefix + (line + after), |prefix|).0 == Ok(Parameters(length, name))
    ensures ParametersAt(prefix + (line + after), |prefix|).1 == |prefix| + |line|
  {
    var digits := DecimalString(length);
    var text := digits + " " + name;
    ParameterLine(digits, name);
    WriteThenReadLineAt(prefix, text, after);
    assert text == Join([digits, name]);
    SplitJoin([digits, name]);
    ParseDecimal(length);
  }

  /** A file whose bytes are all there and followed by 0x00 is received
      completely and acknowledged twice with 0x00. */
  lemma CompleteTransfer(code: byte, input: seq<byte>, pos: nat, content: seq<byte>,
                         name: string, tail: seq<byte>, h: StubState)
    requires code == COMMAND_CODE_RECEIVE_CONTROL_FILE || code == COMMAND_CODE_RECEIVE_DATA_FILE
    requires |content| < 0x8000_0000
    requires pos <= |input| && input[pos..] == content + [0x00] + tail
    ensures var step := FileTransfer(code, input, pos, |content|, name, h);
      && step == Continue(|input| - |tail|,
                          [Wrote([ACK]), ReceiveFile(code, |content|, name), Wrote([ACK])],
                          Received(code, h, name, content))
      && Output(step.events) == [ACK, ACK]
  {
    var rest := input[pos..];
    assert rest[..|content|] == content && rest[|content|] == 0x00;
    if code == COMMAND_CODE_RECEIVE_CONTROL_FILE {
      ControlFileReceipt(h, rest, |content|, name);
    } else {
      DataFileReceipt(h, rest, |content|, name);
    }
    TransferOutput(code, input, pos, |content|, name, h);
  }

  /** The parameter line "<digits> <name>" is ISO-8859-1, has no line
      feed, and its two words are plain tokens. */
  lemma ParameterLine(digits: string, name: string)
    requires digits != [] && AllDigits(digits)
    requires name != [] && NoWhitespace(name) && AllLatin1(name)
    ensures var line := digits + " " + name;
      AllLatin1(line) && (forall k :: 0 <= k < |line| ==> line[k] != '\n')
      && PlainTokens([digits, name])
  {
    var line := digits + " " + name;
    forall k | 0 <= k < |line|
      ensures IsLatin1(line[k]) && line[k] != '\n'
    {
      if k < |digits| {
        assert line[k] == digits[k] && IsDigit(digits[k]);
      } else if |digits| < k {
        assert line[k] == name[k - |digits| - 1];
      }
    }
    assert NoWhitespace(digits) by {
      forall k | 0 <= k < |digits| ensures !IsWhitespace(digits[k]) {
        assert IsDigit(digits[k]);
      }
    }
  }

  // ---- whole runs ---------------------------------------------------------

  /** OnlyAcknowledgements and ReadyBeforeEachFile survive appending the
      events of one pass. */
  lemma ExtendTrace(t: seq<Event>, u: seq<Event>)
    requires OnlyAcknowledgements(Output(t)) && OnlyAcknowledgements(Output(u))
    requires ReadyBeforeEachFile(t) && ReadyBeforeEachFile(u)
    requires u != [] ==> !u[0].ReceiveFile?
    ensures OnlyAcknowledgements(Output(t + u)) && ReadyBeforeEachFile(t + u)
  {
    OutputAppend(t, u);
    var tu := t + u;
    forall i, j | 0 <= i < j < |tu| && j == i + 1 && tu[j].ReceiveFile?
      ensures tu[i] == Wrote([ACK])
    {
      if j < |t| {
        assert tu[j] == t[j] && tu[i] == t[i];
      } else if j > |t| {
        assert tu[j] == u[j - |t|] && tu[i] == u[i - |t|];
      }
    }
  }

  /** The subcommand loop only appends to the trace and never moves the
      input backwards; it ends normally only at end of stream, with the
      end-of-job event last and the stub's ended flag set. */
  lemma {:induction false} JobLoopShape(input: seq<byte>, pos: nat, trace: seq<Event>, h: StubState)
    requires pos <= |input|
    ensures var run := JobLoop(input, pos, trace, h);
      && |trace| <= |run.trace| && run.trace[..|trace|] == trace
      && pos <= run.pos <= |input|
      && (run.outcome == Completed ==>
            run.pos == |input| && |run.trace| > 0 && run.trace[|run.trace| - 1] == EndJob
            && run.handler.isEnded)
    decreases |input| - pos
  {
    match SubcommandStep(input, pos, h)
    case Continue(p, events, h1) =>
      JobLoopShape(input, p, trace + events, h1);
      var run := JobLoop(input, p, trace + events, h1);
      assert run.trace[..|trace + events|] == trace + events;
      assert run.trace[..|trace|] == (trace + events)[..|trace|];
    case Stop(outcome, p, events, h1) =>
      assert (trace + events)[..|trace|] == trace;
  }

  /** The loop keeps the two wire invariants: it writes only
      acknowledgement bytes, and readies the client before each file. */
  lemma {:induction false} JobLoopInvariants(input: seq<byte>, pos: nat, trace: seq<Event>,
                                             h: StubState)
    requires pos <= |input|
    requires OnlyAcknowledgements(Output(trace)) && ReadyBeforeEachFile(trace)
    ensures var run := JobLoop(input, pos, trace, h);
      OnlyAcknowledgements(Output(run.trace)) && ReadyBeforeEachFile(run.trace)
    decreases |input| - pos
  {
    StepWireRules(input, pos, h);
    var step := SubcommandStep(input, pos, h);
    ExtendTrace(trace, step.events);
    if step.Continue? {
      JobLoopInvariants(input, step.pos, trace + step.events, step.handler);
    }
  }

  /** The two wire rules: only acknowledgement bytes are written, and the
      client is readied before each file. */
  ghost predicate WireRules(run: Run) {
    OnlyAcknowledgements(Output(run.trace)) && ReadyBeforeEachFile(run.trace)
  }

  /** A normal end happens only at the end of the stream, with the
      end-of-job event last. */
  ghost predicate CompletesOnlyAtEnd(run: Run, end: nat) {
    run.outcome == Completed ==>
      run.pos == end && |run.trace| > 0 && run.trace[|run.trace| - 1] == EndJob
  }

  /** The queue line is read and names a queue, and the stub accepts the
      job. */
  predicate Accepts(input: seq<byte>, pos: nat, h: StubState)
    requires pos <= |input|
  {
    var r := ReadLineAt(input, pos);
    r.0.Ok? && r.0.value != [] && !h.lockedQueue
  }

  /** The events of an accepted handshake: the start of a job, then 0x00. */
  ghost predicate AcceptedHandshake(events: seq<Event>) {
    |events| == 2 && events[0].StartJob? && events[1] == Wrote([ACK])
  }

  /** The handshake goes on to the subcommand loop exactly when the queue
      line names a queue and the stub accepts the job, having written
      0x00; a refusal by the locked stub ends the parse normally with 0x01
      written; every other end is an error with nothing written and the
      stub unchanged. */
  lemma HandshakeCases(input: seq<byte>, pos: nat, h: StubState)
    requires pos <= |input|
    ensures var step := Handshake(input, pos, h);
      && (step.Continue? <==> Accepts(input, pos, h))
      && (step.Continue? ==> AcceptedHandshake(step.events))
      && (step.Stop? && step.outcome == Completed ==>
            h.lockedQueue && Output(step.events) == [NAK] && ReadyBeforeEachFile(step.events))
      && (step.Stop? && step.outcome.Failed? ==> step.events == [] && step.handler == h)
  {
    var (line, next) := ReadLineAt(input, pos);
    if line.Ok? && line.value != [] && h.lockedQueue {
      HandshakeWrites(line.value, NAK);
      HandshakeOutput(line.value, NAK);
    }
  }

  /** A whole parse writes only 0x00 and 0x01 bytes and readies the client
      before every file; it completes normally only when the input ended
      between subcommands, with the end-of-job event last, or when the
      locked stub refused the job and 0x01 alone was written. */
  lemma WholeRun(input: seq<byte>, pos: nat, h: StubState)
    requires pos <= |input|
    ensures var run := ReceivePrinterJob(input, pos, h);
      && WireRules(run)
      && pos <= run.pos <= |input|
      && (CompletesOnlyAtEnd(run, |input|) || (h.lockedQueue && Output(run.trace) == [NAK]))
  {
    var step := Handshake(input, pos, h);
    HandshakeCases(input, pos, h);
    if step.Continue? {
      LoopAfterHandshake(input, step.pos, step.events, step.handler);
    } else if step.outcome == Completed {
      assert OnlyAcknowledgements([NAK]);
    }
  }

  /** The subcommand loop after an accepted handshake keeps the wire rules
      and completes only at end of stream. */
  lemma LoopAfterHandshake(input: seq<byte>, pos: nat, handshake: seq<Event>, h: StubState)
    requires pos <= |input| && AcceptedHandshake(handshake)
    ensures var run := JobLoop(input, pos, handshake, h);
      WireRules(run) && pos <= run.pos <= |input| && CompletesOnlyAtEnd(run, |input|)
  {
    assert handshake == [StartJob(handshake[0].queue), Wrote([ACK])];
    HandshakeWrites(handshake[0].queue, ACK);
    JobLoopInvariants(input, pos, handshake, h);
    JobLoopShape(input, pos, handshake, h);
  }

  /** A whole job with one well-formed file: the queue line is accepted,
      the file subcommand stores the file completely, and the end of the
      stream ends the job normally. The client reads three 0x00 bytes: for
      the queue line, before the file and after its trailing 0x00. */
  lemma OneFileJob(queueName: string, code: byte, content: seq<byte>, name: string, h: StubState)
    requires queueName != [] && AllLatin1(queueName)
    requires forall k :: 0 <= k < |queueName| ==> queueName[k] != '\n'
    requires !h.lockedQueue
    requires code == COMMAND_CODE_RECEIVE_CONTROL_FILE || code == COMMAND_CODE_RECEIVE_DATA_FILE
    requires |content| < 0x8000_0000
    requires name != [] && NoWhitespace(name) && AllLatin1(name)
    ensures var input := Latin1Encode(queueName) + [LF] + [code] + WellFormedFile(content, name, []);
      var run := ReceivePrinterJob(input, 0, h);
      && run == Run(Completed, |input|,
                    [StartJob(queueName), Wrote([ACK]),
                     Wrote([ACK]), ReceiveFile(code, |content|, name), Wrote([ACK]), EndJob],
                    Received(code, h.(printerQueueName := Some(queueName)), name, content)
                      .(isEnded := true))
      && Output(run.trace) == [ACK, ACK, ACK]
  {
    var prefix := Latin1Encode(queueName) + [LF] + [code];
    WellFormedFileLaidOut(prefix, content, name, []);
    OneFileLayout(queueName, code, WellFormedFile(content, name, []));
    WriteThenReadLine(queueName, [code] + WellFormedFile(content, name, []));
    AcceptedFileJob(prefix + WellFormedFile(content, name, []), queueName, code, content, name, h);
  }

  /** The queue line and the code byte in front of a file subcommand. */
  lemma OneFileLayout(queueName: string, code: byte, file: seq<byte>)
    ensures var prefix := Latin1Encode(queueName) + [LF] + [code];
      && Latin1Encode(queueName) + [LF] + ([code] + file) == prefix + file
      && |prefix| == |queueName| + 2 && (prefix + file)[|queueName| + 1] == code
  {
  }

  /** A job whose queue line names an accepted queue and whose only
      subcommand stores a file completely and reads to the end of the
      input. */
  lemma AcceptedFileJob(input: seq<byte>, queueName: string, code: byte,
                        content: seq<byte>, name: string, h: StubState)
    requires queueName != [] && !h.lockedQueue
    requires ReadLineAt(input, 0) == (Ok(queueName), |queueName| + 1)
    requires |queueName| + 1 < |input| && input[|queueName| + 1] == code
    requires code == COMMAND_CODE_RECEIVE_CONTROL_FILE || code == COMMAND_CODE_RECEIVE_DATA_FILE
    requires |content| < 0x8000_0000
    requires FileFollows(input, |queueName| + 2, content, name, [])
    ensures var run := ReceivePrinterJob(input, 0, h);
      && run == Run(Completed, |input|,
                    [StartJob(queueName), Wrote([ACK]),
                     Wrote([ACK]), ReceiveFile(code, |content|, name), Wrote([ACK]), EndJob],
                    Received(code, h.(printerQueueName := Some(queueName)), name, content)
                      .(isEnded := true))
      && Output(run.trace) == [ACK, ACK, ACK]
  {
    var h1 := h.(printerQueueName := Some(queueName));
    HandshakeAccepted(input, 0, queueName, h);
    FileThenEnd(input, |queueName| + 1, [StartJob(queueName), Wrote([ACK])], h1, content, name);
    OneFileOutput(queueName, code, |content|, name);
  }

  /** A queue line naming a queue the stub accepts leads to the
      subcommand loop right after the line, with the start of the job and
      0x00 as its events so far. */
  lemma HandshakeAccepted(input: seq<byte>, pos: nat, queueName: string, h: StubState)
    requires pos <= |input|
    requires ReadLineAt(input, pos) == (Ok(queueName), pos + |queueName| + 1)
    requires queueName != [] && !h.lockedQueue
    ensures ReceivePrinterJob(input, pos, h)
         == JobLoop(input, pos + |queueName| + 1, [StartJob(queueName), Wrote([ACK])],
                    h.(printerQueueName := Some(queueName)))
  {
    HandshakeContinues(input, pos, queueName, h);
  }

  /** The handshake step itself for such a queue line. */
  lemma HandshakeContinues(input: seq<byte>, pos: nat, queueName: string, h: StubState)
    requires pos <= |input|
    requires ReadLineAt(input, pos) == (Ok(queueName), pos + |queueName| + 1)
    requires queueName != [] && !h.lockedQueue
    ensures Handshake(input, pos, h)
         == Continue(pos + |queueName| + 1, [StartJob(queueName), Wrote([ACK])],
                     h.(printerQueueName := Some(queueName)))
  {
  }

  /** A complete file that runs to the end of the input is stored, and
      the end of the stream then ends the job normally. */
  lemma FileThenEnd(input: seq<byte>, pos: nat, trace: seq<Event>, h: StubState,
                    content: seq<byte>, name: string)
    requires pos < |input|
    requires input[pos] == COMMAND_CODE_RECEIVE_CONTROL_FILE || input[pos] == COMMAND_CODE_RECEIVE_DATA_FILE
    requires |content| < 0x8000_0000
    requires FileFollows(input, pos + 1, content, name, [])
    ensures JobLoop(input, pos, trace, h)
         == Run(Completed, |input|,
                trace + [Wrote([ACK]), ReceiveFile(input[pos], |content|, name), Wrote([ACK])] + [EndJob],
                Received(input[pos], h, name, content).(isEnded := true))
  {
    FileAfterParameters(input[pos], input, pos + 1, content, name, [], h);
    EndOfStreamEndsJob(input, trace + [Wrote([ACK]), ReceiveFile(input[pos], |content|, name), Wrote([ACK])],
                       Received(input[pos], h, name, content));
  }

  /** The events of a job with one accepted file, and the three 0x00 bytes
      they write. */
  lemma OneFileOutput(queueName: string, code: byte, length: int, name: string)
    ensures var trace := [StartJob(queueName), Wrote([ACK])]
                         + [Wrote([ACK]), ReceiveFile(code, length, name), Wrote([ACK])] + [EndJob];
      && trace == [StartJob(queueName), Wrote([ACK]),
                   Wrote([ACK]), ReceiveFile(code, length, name), Wrote([ACK]), EndJob]
      && Output(trace) == [ACK, ACK, ACK]
  {
    var handshake := [StartJob(queueName), Wrote([ACK])];
    var sent := [Wrote([ACK]), ReceiveFile(code, length, name)];
    var events := [Wrote([ACK]), ReceiveFile(code, length, name), Wrote([ACK])];
    assert events == sent + [Wrote([ACK])];
    HandshakeOutput(queueName, ACK);
    SentOutput(code, length, name, ACK);
    OutputAppend(handshake, events);
    OutputAppend(handshake + events, [EndJob]);
    OutputOne(EndJob);
  }

  /** The handshake writes one acknowledgement and hands over no file. */
  lemma HandshakeWrites(queueName: string, b: byte)
    requires b == ACK || b == NAK
    ensures var handshake := [StartJob(queueName), Wrote([b])];
      OnlyAcknowledgements(Output(handshake)) && ReadyBeforeEachFile(handshake)
  {
    HandshakeOutput(queueName, b);
  }
}
