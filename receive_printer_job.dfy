/** Daemon command 02, "Receive a printer job" (section 5.2 of RFC 1179),
    with its subcommands abort, receive control file and receive data file
    (sections 6.1 to 6.3 of RFC 1179), as ReceivePrinterJobCommandParser
    implements them. */
module ReceivePrinterJobCommandParser {
  import opened Wire
  import opened Streams
  import opened Util
  import opened Tokens
  import opened Trace
  import opened HandlerStub

  /** Second-level command codes. */
  const COMMAND_CODE_ABORT_JOB: byte := 0x01
  const COMMAND_CODE_RECEIVE_CONTROL_FILE: byte := 0x02
  const COMMAND_CODE_RECEIVE_DATA_FILE: byte := 0x03

  /** The result of one iteration of the subcommand loop: either the loop
      goes on from `pos`, or the parse ends with `outcome`. */
  datatype Step =
    | Continue(pos: nat, events: seq<Event>, handler: StubState)
    | Stop(outcome: Outcome, pos: nat, events: seq<Event>, handler: StubState)

  /** One iteration of the subcommand loop, reading from input[pos..]. */
  function SubcommandStep(input: seq<byte>, pos: nat, h: StubState): (r: Step)
    requires pos <= |input|
    ensures pos <= r.pos <= |input|
    ensures r.Continue? ==> pos < r.pos
    ensures r.Stop? && r.outcome == Completed ==>
      pos == |input| && r.events == [EndJob] && r.handler.isEnded
  {
    if pos == |input| then Stop(Completed, pos, [EndJob], StubEndPrinterJob(h))
    else
      var code := input[pos];
      if code < COMMAND_CODE_ABORT_JOB || code > COMMAND_CODE_RECEIVE_DATA_FILE then
        Stop(Failed(UnknownSubcommand(code)), pos + 1, [], h)
      else if code == COMMAND_CODE_ABORT_JOB then
        Continue(pos + 1, [AbortJob], StubAbortPrinterJob(h))
      else FileSubcommand(code, input, pos + 1, h)
  }

  /** The two parameters of a file subcommand: the declared length and
      the file name. */
  datatype Parameters = Parameters(fileLength: int, fileName: string)

  /** The parameter line "<length> <name>" read at `pos`: the
      parameters, or the error parse raises for a missing line, a line
      without exactly two tokens or a length Long.parseLong rejects; and
      the position after the line. */
  function ParametersAt(input: seq<byte>, pos: nat): (r: (Result<Parameters>, nat))
    requires pos <= |input|
    ensures pos <= r.1 <= |input|
  {
    var (line, next) := ReadLineAt(input, pos);
    if line.Err? then (Err(line.error), next)
    else
      var tokens := Split(line.value);
      if |tokens| != 2 then (Err(InvalidParameters(line.value)), next)
      else
        match ParseLong(tokens[0])
        case None => (Err(NumberFormat(tokens[0])), next)
        case Some(fileLength) => (Ok(Parameters(fileLength, tokens[1])), next)
  }

  /** The rest of a receive-control-file (code 2) or receive-data-file
      (code 3) subcommand, from input[pos..] just after the code: the
      parameter line, then the transfer. */
  function FileSubcommand(code: byte, input: seq<byte>, pos: nat, h: StubState): (r: Step)
    requires pos <= |input|
    ensures pos <= r.pos <= |input|
    ensures r.Stop? ==> r.outcome.Failed?
  {
    var (parameters, next) := ParametersAt(input, pos);
    match parameters
    case Err(e) => Stop(Failed(e), next, [], h)
    case Ok(p) => FileTransfer(code, input, next, p.fileLength, p.fileName, h)
  }

  /** A rejected parameter line ends the parse with its error, right
      after the line, with nothing written and the stub unchanged. */
  lemma ParametersRejected(code: byte, input: seq<byte>, pos: nat, e: Error, next: nat,
                           h: StubState)
    requires pos <= |input|
    requires ParametersAt(input, pos).0 == Err(e)
    requires ParametersAt(input, pos).1 == next
    ensures FileSubcommand(code, input, pos, h) == Stop(Failed(e), next, [], h)
  {
  }

  /** Parameters read from the line lead to the transfer of a file of
      that length and name, right after the line. */
  lemma ParametersLeadToTransfer(code: byte, input: seq<byte>, pos: nat, parameters: Parameters,
                                 next: nat, h: StubState)
    requires pos <= |input|
    requires ParametersAt(input, pos).0 == Ok(parameters)
    requires ParametersAt(input, pos).1 == next
    ensures FileSubcommand(code, input, pos, h)
         == FileTransfer(code, input, next, parameters.fileLength, parameters.fileName, h)
  {
  }

  /** A well-formed parameter line was read and input[pos..] holds the
      file: acknowledge, let the handler receive it, then read the trailing
      byte and acknowledge it (positively only if the handler succeeded
      and the byte is 0x00). */
  function FileTransfer(code: byte, input: seq<byte>, pos: nat,
                        fileLength: int, fileName: string, h: StubState): (r: Step)
    requires pos <= |input|
    ensures pos <= r.pos <= |input|
    ensures r.Stop? ==> r.outcome.Failed?
  {
    var receipt := FileReceipt(code, h, input[pos..], fileLength, fileName);
    var sent := [Wrote([ACK]), ReceiveFile(code, PassedLength(code, fileLength), fileName)];
    var after := pos + receipt.consumed;
    match receipt.result
    case Err(e) => Stop(Failed(e), after, sent, receipt.state)
    case Ok(success) =>
      var (next, ack) := Trailer(input, after, success);
      Continue(next, sent + [Wrote([ack])], receipt.state)
  }

  /** The byte after a file: it is consumed if present, and the transfer is
      acknowledged positively only when the handler succeeded and that byte
      is 0x00 (a missing byte counts as incomplete). */
  function Trailer(input: seq<byte>, pos: nat, success: bool): (r: (nat, byte))
    requires pos <= |input|
    ensures r.0 == if pos < |input| then pos + 1 else pos
    ensures r.1 == ACK <==> success && pos < |input| && input[pos] == 0x00
    ensures r.1 == ACK || r.1 == NAK
  {
    var fileComplete := pos < |input| && input[pos] == 0x00;
    (if pos < |input| then pos + 1 else pos, if success && fileComplete then ACK else NAK)
  }

  /** The bytes a file transfer writes: ACK for the parameter line, then,
      unless the handler raised an error, the acknowledgement of the
      trailing byte. */
  lemma TransferOutput(code: byte, input: seq<byte>, pos: nat,
                       fileLength: int, fileName: string, h: StubState)
    requires pos <= |input|
    ensures var step := FileTransfer(code, input, pos, fileLength, fileName, h);
      var receipt := FileReceipt(code, h, input[pos..], fileLength, fileName);
      Output(step.events) == if receipt.result.Err? then [ACK]
        else [ACK, Trailer(input, pos + receipt.consumed, receipt.result.value).1]
  {
    var receipt := FileReceipt(code, h, input[pos..], fileLength, fileName);
    match receipt.result
    case Err(_) =>
      SentOutput(code, PassedLength(code, fileLength), fileName, ACK);
    case Ok(success) =>
      SentOutput(code, PassedLength(code, fileLength), fileName,
                 Trailer(input, pos + receipt.consumed, success).1);
  }

  /** The acknowledgement of the parameter line, the handler call, and
      the acknowledgement of the trailing byte write these two bytes. */
  lemma SentOutput(code: byte, length: int, name: string, ack: byte)
    ensures Output([Wrote([ACK]), ReceiveFile(code, length, name)]) == [ACK]
    ensures Output([Wrote([ACK]), ReceiveFile(code, length, name)] + [Wrote([ack])]) == [ACK, ack]
  {
    var sent := [Wrote([ACK]), ReceiveFile(code, length, name)];
    OutputTwo(sent[0], sent[1]);
    OutputAppend(sent, [Wrote([ack])]);
    OutputOne(Wrote([ack]));
  }

  /** The length handed to the handler: (int) fileLength for a control
      file, the long itself for a data file. */
  function PassedLength(code: byte, fileLength: int): (length: int)
    ensures code == COMMAND_CODE_RECEIVE_CONTROL_FILE ==> -0x8000_0000 <= length < 0x8000_0000
    ensures code != COMMAND_CODE_RECEIVE_CONTROL_FILE ==> length == fileLength
  {
    if code == COMMAND_CODE_RECEIVE_CONTROL_FILE then ToInt32(fileLength) else fileLength
  }

  /** The handler call that receives the file of a subcommand. */
  function FileReceipt(code: byte, h: StubState, rest: seq<byte>,
                       fileLength: int, fileName: string): (r: Receipt)
    ensures r.consumed <= |rest|
  {
    if code == COMMAND_CODE_RECEIVE_CONTROL_FILE
    then StubReceiveControlFile(h, rest, PassedLength(code, fileLength), fileName)
    else StubReceiveDataFile(h, rest, PassedLength(code, fileLength), fileName)
  }

  /** The subcommand loop from `pos`, with `trace` the events so far. */
  function JobLoop(input: seq<byte>, pos: nat, trace: seq<Event>, h: StubState): (r: Run)
    requires pos <= |input|
    decreases |input| - pos
  {
    match SubcommandStep(input, pos, h)
    case Continue(p, events, h1) => JobLoop(input, p, trace + events, h1)
    case Stop(outcome, p, events, h1) => Run(outcome, p, trace + events, h1)
  }

  /** The handshake of ReceivePrinterJobCommandParser.parse on
      input[pos..]: read the queue name, then ask the handler to start the
      job and acknowledge; only an accepted job goes on to the subcommand
      loop. */
  function Handshake(input: seq<byte>, pos: nat, h: StubState): (r: Step)
    requires pos <= |input|
    ensures pos <= r.pos <= |input|
  {
    var (line, next) := ReadLineAt(input, pos);
    if line.Err? then Stop(Failed(line.error), next, [], h)
    else if line.value == [] then Stop(Failed(NoQueueName), next, [], h)
    else
      var (h1, accepted) := StubStartPrinterJob(h, line.value);
      if accepted then Continue(next, [StartJob(line.value), Wrote([ACK])], h1)
      else Stop(Completed, next, [StartJob(line.value), Wrote([NAK])], h1)
  }

  /** ReceivePrinterJobCommandParser.parse on input[pos..]: the handshake,
      then, for an accepted job, the subcommand loop. */
  function ReceivePrinterJob(input: seq<byte>, pos: nat, h: StubState): (r: Run)
    requires pos <= |input|
  {
    match Handshake(input, pos, h)
    case Continue(p, events, h1) => JobLoop(input, p, events, h1)
    case Stop(outcome, p, events, h1) => Run(outcome, p, events, h1)
  }

  /** Writes ACK. */
  method SendPositiveAcknowledgement(output: OutputStream)
    modifies output
    ensures output.written == old(output.written) + [ACK]
  {
    output.Write([ACK]);
  }

  /** Writes NAK. */
  method SendNegativeAcknowledgement(output: OutputStream)
    modifies output
    ensures output.written == old(output.written) + [NAK]
  {
    output.Write([NAK]);
  }

  /** ReceivePrinterJobCommandParser.parse with the test stub as handler:
      the outcome, the input consumed, the bytes written and the stub's
      final state are those of ReceivePrinterJob. */
  method Parse(handler: DaemonCommandHandlerStub, input: InputStream, output: OutputStream)
    returns (outcome: Outcome)
    requires input.Valid()
    modifies handler, input, output
    ensures input.Valid()
    ensures var run := ReceivePrinterJob(input.data, old(input.pos), old(handler.State()));
      && outcome == run.outcome
      && input.pos == run.pos
      && output.written == old(output.written) + Output(run.trace)
      && handler.State() == run.handler
  {
    ghost var handshake := Handshake(input.data, input.pos, handler.State());
    var accepted;
    accepted, outcome := ParseHandshake(handler, input, output);
    if accepted {
      outcome := ParseSubcommands(handler, input, output, handshake.events, old(output.written));
    }
  }

  /** The start of ReceivePrinterJobCommandParser.parse: reads the queue
      name, asks the handler to start the job and acknowledges;
      `accepted` tells whether the subcommand loop follows. */
  method ParseHandshake(handler: DaemonCommandHandlerStub, input: InputStream, output: OutputStream)
    returns (accepted: bool, outcome: Outcome)
    requires input.Valid()
    modifies handler, input, output
    ensures input.Valid()
    ensures var step := Handshake(input.data, old(input.pos), old(handler.State()));
      && accepted == step.Continue?
      && (!accepted ==> outcome == step.outcome)
      && input.pos == step.pos
      && output.written == old(output.written) + Output(step.events)
      && handler.State() == step.handler
  {
    var queueName := ReadLine(input);
    if queueName.Err? {
      return false, Failed(queueName.error);
    }
    if queueName.value == [] {
      return false, Failed(NoQueueName);
    }
    accepted := handler.StartPrinterJob(queueName.value);
    if accepted {
      HandshakeOutput(queueName.value, ACK);
      SendPositiveAcknowledgement(output);
    } else {
      HandshakeOutput(queueName.value, NAK);
      SendNegativeAcknowledgement(output);
    }
    outcome := Completed;
  }

  /** The handshake writes only its acknowledgement byte. */
  lemma HandshakeOutput(queueName: string, b: byte)
    ensures Output([StartJob(queueName), Wrote([b])]) == [b]
  {
    OutputTwo(StartJob(queueName), Wrote([b]));
  }

  /** The subcommand loop of ReceivePrinterJobCommandParser.parse, entered
      after `trace` was produced and `w0` + Output(trace) was written. */
  method ParseSubcommands(handler: DaemonCommandHandlerStub, input: InputStream, output: OutputStream,
                          ghost trace: seq<Event>, ghost w0: seq<byte>)
    returns (outcome: Outcome)
    requires input.Valid()
    requires output.written == w0 + Output(trace)
    modifies handler, input, output
    ensures input.Valid()
    ensures var run := JobLoop(input.data, old(input.pos), trace, old(handler.State()));
      && outcome == run.outcome
      && input.pos == run.pos
      && output.written == w0 + Output(run.trace)
      && handler.State() == run.handler
  {
    ghost var run := JobLoop(input.data, input.pos, trace, handler.State());
    ghost var t := trace;
    while true
      invariant input.Valid()
      invariant output.written == w0 + Output(t)
      invariant JobLoop(input.data, input.pos, t, handler.State()) == run
      decreases |input.data| - input.pos
    {
      ghost var step := SubcommandStep(input.data, input.pos, handler.State());
      WrittenAfter(w0, t, step.events, output.written);
      var done, result := ParseSubcommand(handler, input, output);
      t := t + step.events;
      if done {
        return result;
      }
    }
  }

  /** One iteration of the loop in ReceivePrinterJobCommandParser.parse:
      `done` tells whether parse returns (with `outcome`) or loops. */
  method ParseSubcommand(handler: DaemonCommandHandlerStub, input: InputStream, output: OutputStream)
    returns (done: bool, outcome: Outcome)
    requires input.Valid()
    modifies handler, input, output
    ensures input.Valid()
    ensures var step := SubcommandStep(input.data, old(input.pos), old(handler.State()));
      && done == step.Stop?
      && (done ==> outcome == step.outcome)
      && input.pos == step.pos
      && output.written == old(output.written) + Output(step.events)
      && handler.State() == step.handler
  {
    var commandCode := input.Read();
    if commandCode == -1 {
      handler.EndPrinterJob();
      return true, Completed;
    }
    if commandCode < COMMAND_CODE_ABORT_JOB || commandCode > COMMAND_CODE_RECEIVE_DATA_FILE {
      return true, Failed(UnknownSubcommand(commandCode));
    }
    if commandCode == COMMAND_CODE_ABORT_JOB {
      handler.AbortPrinterJob();
      return false, Completed;
    }
    done, outcome := ParseFileSubcommand(handler, input, output, commandCode);
  }

  /** The receive-control-file and receive-data-file branch of the loop,
      after the subcommand code was read. */
  method ParseFileSubcommand(handler: DaemonCommandHandlerStub, input: InputStream,
                             output: OutputStream, commandCode: byte)
    returns (done: bool, outcome: Outcome)
    requires input.Valid()
    modifies handler, input, output
    ensures input.Valid()
    ensures var step := FileSubcommand(commandCode, input.data, old(input.pos), old(handler.State()));
      && done == step.Stop?
      && (done ==> outcome == step.outcome)
      && input.pos == step.pos
      && output.written == old(output.written) + Output(step.events)
      && handler.State() == step.handler
  {
    ghost var pos, h := input.pos, handler.State();
    var parameters := ReadParameters(input);
    if parameters.Err? {
      ParametersRejected(commandCode, input.data, pos, parameters.error, input.pos, h);
      return true, Failed(parameters.error);
    }
    ParametersLeadToTransfer(commandCode, input.data, pos, parameters.value, input.pos, h);
    done, outcome := TransferFile(handler, input, output, commandCode,
                                  parameters.value.fileLength, parameters.value.fileName);
  }

  /** Reads the parameter line of a file subcommand, splits it at
      whitespace and parses the length. */
  method ReadParameters(input: InputStream) returns (r: Result<Parameters>)
    requires input.Valid()
    modifies input
    ensures input.Valid()
    ensures (r, input.pos) == ParametersAt(input.data, old(input.pos))
  {
    var parameterLine := ReadLine(input);
    if parameterLine.Err? {
      return Err(parameterLine.error);
    }
    var parameters := Split(parameterLine.value);
    if |parameters| != 2 {
      return Err(InvalidParameters(parameterLine.value));
    }
    var fileLength := ParseLong(parameters[0]);
    if fileLength.None? {
      return Err(NumberFormat(parameters[0]));
    }
    return Ok(Parameters(fileLength.value, parameters[1]));
  }

  /** Acknowledges the parameter line, lets the handler receive the file,
      then reads the trailing byte and acknowledges the transfer. */
  method TransferFile(handler: DaemonCommandHandlerStub, input: InputStream, output: OutputStream,
                      commandCode: byte, fileLength: int, fileName: string)
    returns (done: bool, outcome: Outcome)
    requires input.Valid()
    modifies handler, input, output
    ensures input.Valid()
    ensures var step := FileTransfer(commandCode, input.data, old(input.pos),
                                     fileLength, fileName, old(handler.State()));
      && done == step.Stop?
      && (done ==> outcome == step.outcome)
      && input.pos == step.pos
      && output.written == old(output.written) + Output(step.events)
      && handler.State() == step.handler
  {
    TransferOutput(commandCode, input.data, input.pos, fileLength, fileName, handler.State());
    SendPositiveAcknowledgement(output);
    var result := HandOver(handler, input, commandCode, fileLength, fileName);
    if result.Err? {
      return true, Failed(result.error);
    }
    var last := AcknowledgeTrailer(input, output, result.value);
    return false, Completed;
  }

  /** The handler call that receives the file: receiveControlFile with
      (int) fileLength for code 2, receiveDataFile with the long for code 3. */
  method HandOver(handler: DaemonCommandHandlerStub, input: InputStream,
                  commandCode: byte, fileLength: int, fileName: string)
    returns (result: Result<bool>)
    requires input.Valid()
    modifies handler, input
    ensures input.Valid()
    ensures var receipt := FileReceipt(commandCode, old(handler.State()), old(input.Rest()),
                                       fileLength, fileName);
      && handler.State() == receipt.state
      && input.pos == old(input.pos) + receipt.consumed
      && result == receipt.result
  {
    if commandCode == COMMAND_CODE_RECEIVE_CONTROL_FILE {
      result := handler.ReceiveControlFile(input, ToInt32(fileLength), fileName);
    } else {
      result := handler.ReceiveDataFile(input, fileLength, fileName);
    }
  }

  /** Reads the byte after the file and acknowledges: ACK when the handler
      reported success and the byte is 0x00, NAK otherwise (also at end of
      stream). */
  method AcknowledgeTrailer(input: InputStream, output: OutputStream, success: bool)
    returns (last: byte)
    requires input.Valid()
    modifies input, output
    ensures input.Valid()
    ensures (input.pos, last) == Trailer(input.data, old(input.pos), success)
    ensures output.written == old(output.written) + [last]
  {
    var trailer := input.Read();
    var fileComplete := trailer == 0x00;
    if success && fileComplete {
      SendPositiveAcknowledgement(output);
      last := ACK;
    } else {
      SendNegativeAcknowledgement(output);
      last := NAK;
    }
  }
}
