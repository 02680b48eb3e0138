# lpdbox protocol core in Dafny

This project models the server side of the lpdbox Line Printer Daemon (RFC 1179). It covers:

- daemon command 02, "Receive a printer job" (section 5.2 of RFC 1179), with its three subcommands: abort, receive control file and receive data file (sections 6.1 to 6.3);
- daemon command 03, "Send queue state (short)" (section 5.3);
- the line framing both rely on: `Util.readLine` and `Util.writeString`;
- the test handler `DaemonCommandHandlerStub`;
- the default `ReportQueueStateShortCommandHandler.handle`.

Each parser is modelled twice:

- a **function** on the input bytes and the stub's state (`ReceivePrinterJob`, `ReportQueueStateShort`). It returns a `Run`: the outcome, the input position reached, the trace of events (bytes written and handler calls) and the stub's final state;
- an **imperative `Parse` method**. It works on an `InputStream` (a byte sequence with a cursor), an `OutputStream` (append-only bytes) and a `DaemonCommandHandlerStub` object. Its postcondition says that the outcome, the new stream position, the bytes written and the stub's new state are those of the function.

The protocol properties are lemmas about the functions:

- exactly which bytes are written;
- the acknowledgement handshake;
- which errors end a parse, and where;
- round trips through `writeString`/`readLine`, `split("\\s+")` and `Long.parseLong`.

Modules, one per file:

- `Wire`: bytes, ISO-8859-1 and the errors.
- `Streams`: the two stream classes.
- `Util`: readLine and writeString.
- `Tokens`: Java's `split("\\s+")`, `Long.parseLong` and the `(int)` cast.
- `HandlerStub`: the stub class and the value `StubState` of its fields.
- `Trace`: events, runs and the bytes a trace writes.
- `ReceivePrinterJobCommandParser` and `ReceivePrinterJobProperties`.
- `ReportQueueStateShortCommandParser`.
- `ReportQueueStateShortCommandHandler`.

Exceptions become an `Outcome` of `Failed(error)`. Each error is named by its cause:

- `EndOfStream`;
- `NoQueueName`;
- `UnknownSubcommand`;
- `InvalidParameters`;
- `NumberFormat`;
- `ShortRead`;
- `NegativeArraySize`;
- `IllegalCapacity`.

Three behaviours of the code are stated as lemmas of their own:

- **The abort subcommand is one byte and does not end the job.** Section 6.1 of RFC 1179 lays out the abort subcommand as the code 01 followed by a line feed. The code reads only the code byte, calls `abortPrinterJob` and reads the next subcommand code. A line feed sent after the abort is therefore read as a subcommand code and rejected as an unknown subcommand. `ReceivePrinterJobProperties.AbortContinues` and `ReceivePrinterJobProperties.AbortThenLineFeedFails` state this.
- **A leading blank can pass an empty queue name to the handler.** The "Send queue state (short)" parser rejects only a line that is empty. A line starting with a blank gets past that check, splits with an empty first token, and the handler is asked about the queue `""`. `ReportQueueStateShortCommandParser.LeadingBlankLine` states this.
- **The control-file length is narrowed, not range-checked.** It is parsed as a long and narrowed with `(int)`, with no range check. `ReceivePrinterJobCommandParser.PassedLength` models the cast.

## Model

`Tokens.Split`, `ReceivePrinterJobCommandParser.ReceivePrinterJob`, `Handshake`, `JobLoop`, `ParametersAt`, `HandlerStub.StubReceiveControlFile`, `HandlerStub.StubReceiveDataFile` and `Trace.Output` are the computing functions the model is stated over. Their rows are the lemmas about them.

| member | source | states |
|---|---|---|
| Wire.Latin1Decode | lpdbox/src/main/java/de/textmode/lpdbox/Util.java:45 | one character per byte read, with that byte's code, so every character is ISO-8859-1 |
| Wire.Latin1Encode | lpdbox/src/main/java/de/textmode/lpdbox/Util.java:58 | getBytes(ISO_8859_1) gives one byte per character: the character's code, or '?' for a character above 0xFF |
| Wire.EncodeDecode | lpdbox/src/main/java/de/textmode/lpdbox/Util.java:45-58 | encoding the characters readLine builds gives back the bytes read |
| Wire.DecodeEncode | lpdbox/src/main/java/de/textmode/lpdbox/Util.java:45-58 | decoding what writeString writes gives back any ISO-8859-1 string |
| Streams.ReadCount | lpdbox/src/test/java/de/textmode/lpdbox/DaemonCommandHandlerStub.java:206 | read(byte[]) returns 0 for an empty buffer, -1 at end of stream, otherwise how many bytes it copied: the buffer length or all that remain |
| Streams.InputStream.Read | lpdbox/src/main/java/de/textmode/lpdbox/Util.java:40 | read() returns the next byte and advances, or -1 at end of stream without advancing |
| Streams.InputStream.ReadInto | lpdbox/src/test/java/de/textmode/lpdbox/DaemonCommandHandlerStub.java:206 | read(byte[]) copies the next ReadCount bytes into the front of the array, leaves the rest of it unchanged and advances by that many |
| Streams.OutputStream.Write | lpdbox/src/main/java/de/textmode/lpdbox/ReceivePrinterJobCommandParser.java:128 | write appends the bytes, in order, to what was written |
| Util.LineEnd | lpdbox/src/main/java/de/textmode/lpdbox/Util.java:40-49 | the line feed that ends the line is the first one at or after the position; none is found exactly when no line feed remains |
| Util.ReadLineAt | lpdbox/src/main/java/de/textmode/lpdbox/Util.java:37-52 | a line read is followed by exactly one consumed line feed; the only error is end of stream, after everything was consumed |
| Util.LineIsLatin1WithoutLF | lpdbox/src/main/java/de/textmode/lpdbox/Util.java:41-46 | a line read holds no line feed, is ISO-8859-1, and is the decoding of the bytes before the consumed line feed |
| Util.ReadLineIgnoresTail | lpdbox/src/main/java/de/textmode/lpdbox/Util.java:41-43 | readLine returns at the first line feed: bytes after it change neither the line nor the position |
| Util.WriteThenReadLine | lpdbox/src/main/java/de/textmode/lpdbox/Util.java:37-59 | round trip: an ISO-8859-1 string without line feed, written by writeString and ended by a line feed, is read back unchanged, consuming exactly its bytes and the line feed |
| Util.ReadLine | lpdbox/src/main/java/de/textmode/lpdbox/Util.java:37-52 | the loop's result and the stream position after it are those of ReadLineAt |
| Util.WriteString | lpdbox/src/main/java/de/textmode/lpdbox/Util.java:57-59 | appends exactly the ISO-8859-1 encoding of the string |
| Tokens.SplitTokens | lpdbox/src/main/java/de/textmode/lpdbox/ReceivePrinterJobCommandParser.java:93 | no token of split("\\s+") holds whitespace, and only the first can be empty |
| Tokens.SplitLeadingSeparator | lpdbox/src/main/java/de/textmode/lpdbox/ReportQueueStateShortCommandParser.java:50 | a leading blank gives a leading empty token |
| Tokens.SplitBlank | lpdbox/src/main/java/de/textmode/lpdbox/ReportQueueStateShortCommandParser.java:50 | a line of only whitespace splits into no token at all |
| Tokens.SplitJoin | lpdbox/src/main/java/de/textmode/lpdbox/ReceivePrinterJobCommandParser.java:93 | round trip: plain tokens joined by single blanks split back into the same tokens |
| Tokens.PiecesOfJoin | lpdbox/src/main/java/de/textmode/lpdbox/ReceivePrinterJobCommandParser.java:93 | the whitespace-separated pieces of blank-joined plain tokens are those tokens |
| Tokens.ParseLong | lpdbox/src/main/java/de/textmode/lpdbox/ReceivePrinterJobCommandParser.java:99 | Long.parseLong accepts only a non-empty string and returns a value in the range of a long |
| Tokens.ParseDecimal | lpdbox/src/main/java/de/textmode/lpdbox/ReceivePrinterJobCommandParser.java:99 | round trip: the decimal notation of every length up to Long.MAX_VALUE parses back to that length |
| Tokens.DigitsValueOfDecimal | lpdbox/src/main/java/de/textmode/lpdbox/ReceivePrinterJobCommandParser.java:99 | the digits of a number's decimal notation have that number as their value |
| Tokens.ToInt32 | lpdbox/src/main/java/de/textmode/lpdbox/ReceivePrinterJobCommandParser.java:105 | the (int) cast yields an int and keeps every value that fits in one |
| HandlerStub.Filled | lpdbox/src/test/java/de/textmode/lpdbox/DaemonCommandHandlerStub.java:205-206 | the new array has the requested size and, after a complete read, holds exactly the bytes read |
| HandlerStub.ReadNewArray | lpdbox/src/test/java/de/textmode/lpdbox/DaemonCommandHandlerStub.java:205-206 | new byte[size] followed by read fills the front of a fresh array with the bytes read and leaves the rest zero |
| HandlerStub.StubStartPrinterJob | lpdbox/src/test/java/de/textmode/lpdbox/DaemonCommandHandlerStub.java:187-193 | the job is accepted exactly when the queue is not locked; a refusal changes nothing, an acceptance records only the queue name |
| HandlerStub.ControlFileReceipt | lpdbox/src/test/java/de/textmode/lpdbox/DaemonCommandHandlerStub.java:201-211 | receiveControlFile always records name and length. It succeeds exactly when the length is between 0 and the bytes available, and then stores exactly those bytes and sets the complete flag. A negative length fails before reading and changes nothing else. Otherwise it consumes the available bytes up to the length and stores them padded with zeros to the length; a short read is an error |
| HandlerStub.DataFileReceipt | lpdbox/src/test/java/de/textmode/lpdbox/DaemonCommandHandlerStub.java:219-229 | receiveDataFile is the same with the array sized by (int) length: a negative (int) length fails before reading; otherwise the bytes read are stored padded with zeros, and the file is complete only when their count equals the long length, so a length of 2^31 or more never succeeds |
| HandlerStub.StubAbortPrinterJob | lpdbox/src/test/java/de/textmode/lpdbox/DaemonCommandHandlerStub.java:232-234 | abortPrinterJob sets the aborted flag and nothing else |
| HandlerStub.StubEndPrinterJob | lpdbox/src/test/java/de/textmode/lpdbox/DaemonCommandHandlerStub.java:237-239 | endPrinterJob sets the ended flag and nothing else |
| HandlerStub.StubSendQueueStateShort | lpdbox/src/test/java/de/textmode/lpdbox/DaemonCommandHandlerStub.java:257-262 | sendQueueStateShort records queue and jobs, nothing else, and answers "this is a short list" |
| HandlerStub.DaemonCommandHandlerStub.constructor | lpdbox/src/test/java/de/textmode/lpdbox/DaemonCommandHandlerStub.java:53-57 | a fresh stub has both lengths -1, an empty job list, no names or contents, and every flag false |
| HandlerStub.DaemonCommandHandlerStub.LockQueue | lpdbox/src/test/java/de/textmode/lpdbox/DaemonCommandHandlerStub.java:63-65 | sets the lock and nothing else |
| HandlerStub.DaemonCommandHandlerStub.UnlockQueue | lpdbox/src/test/java/de/textmode/lpdbox/DaemonCommandHandlerStub.java:70-72 | clears the lock and nothing else |
| HandlerStub.DaemonCommandHandlerStub.PrintJobs | lpdbox/src/test/java/de/textmode/lpdbox/DaemonCommandHandlerStub.java:182-184 | records the queue name and nothing else |
| HandlerStub.DaemonCommandHandlerStub.StartPrinterJob | lpdbox/src/test/java/de/textmode/lpdbox/DaemonCommandHandlerStub.java:187-193 | result and new state are those of StubStartPrinterJob |
| HandlerStub.DaemonCommandHandlerStub.IsControlFileAcceptable | lpdbox/src/test/java/de/textmode/lpdbox/DaemonCommandHandlerStub.java:196-198 | always true, and changes nothing |
| HandlerStub.DaemonCommandHandlerStub.ReceiveControlFile | lpdbox/src/test/java/de/textmode/lpdbox/DaemonCommandHandlerStub.java:201-211 | new state, bytes consumed and result are those of StubReceiveControlFile on the bytes not yet read |
| HandlerStub.DaemonCommandHandlerStub.IsDataFileAcceptable | lpdbox/src/test/java/de/textmode/lpdbox/DaemonCommandHandlerStub.java:214-216 | always true, and changes nothing |
| HandlerStub.DaemonCommandHandlerStub.ReceiveDataFile | lpdbox/src/test/java/de/textmode/lpdbox/DaemonCommandHandlerStub.java:219-229 | new state, bytes consumed and result are those of StubReceiveDataFile on the bytes not yet read |
| HandlerStub.DaemonCommandHandlerStub.AbortPrinterJob | lpdbox/src/test/java/de/textmode/lpdbox/DaemonCommandHandlerStub.java:232-234 | new state is that of StubAbortPrinterJob |
| HandlerStub.DaemonCommandHandlerStub.EndPrinterJob | lpdbox/src/test/java/de/textmode/lpdbox/DaemonCommandHandlerStub.java:237-239 | new state is that of StubEndPrinterJob |
| HandlerStub.DaemonCommandHandlerStub.RemoveJobs | lpdbox/src/test/java/de/textmode/lpdbox/DaemonCommandHandlerStub.java:242-246 | records queue, agent and jobs, nothing else |
| HandlerStub.DaemonCommandHandlerStub.SendQueueStateLong | lpdbox/src/test/java/de/textmode/lpdbox/DaemonCommandHandlerStub.java:249-254 | records queue and jobs, nothing else, and answers "this is a long list" |
| HandlerStub.DaemonCommandHandlerStub.SendQueueStateShort | lpdbox/src/test/java/de/textmode/lpdbox/DaemonCommandHandlerStub.java:257-262 | answer and new state are those of StubSendQueueStateShort |
| HandlerStub.DaemonCommandHandlerStub.Close | lpdbox/src/test/java/de/textmode/lpdbox/DaemonCommandHandlerStub.java:265-267 | sets the closed flag and nothing else |
| Trace.OutputAppend | lpdbox/src/main/java/de/textmode/lpdbox/ReceivePrinterJobCommandParser.java:127-136 | writing is append-only: what a longer trace writes extends what its prefix wrote |
| ReceivePrinterJobCommandParser.SubcommandStep | lpdbox/src/main/java/de/textmode/lpdbox/ReceivePrinterJobCommandParser.java:76-120 | a pass that loops on has read at least one byte; the loop completes normally only at end of stream, with the end-of-job call and the ended flag set |
| ReceivePrinterJobCommandParser.FileSubcommand | lpdbox/src/main/java/de/textmode/lpdbox/ReceivePrinterJobCommandParser.java:92-119 | a file subcommand never ends the job normally: when it stops the loop, it is with an error |
| ReceivePrinterJobCommandParser.FileTransfer | lpdbox/src/main/java/de/textmode/lpdbox/ReceivePrinterJobCommandParser.java:102-119 | a transfer stops the loop only with the handler's error |
| ReceivePrinterJobCommandParser.ParametersRejected | lpdbox/src/main/java/de/textmode/lpdbox/ReceivePrinterJobCommandParser.java:92-99 | a missing, miscounted or unparsable parameter line ends the parse right after the line, writing nothing and leaving the stub unchanged |
| ReceivePrinterJobCommandParser.ParametersLeadToTransfer | lpdbox/src/main/java/de/textmode/lpdbox/ReceivePrinterJobCommandParser.java:99-106 | parsed parameters lead to the transfer of a file of that length and name, right after the line |
| ReceivePrinterJobCommandParser.Trailer | lpdbox/src/main/java/de/textmode/lpdbox/ReceivePrinterJobCommandParser.java:111-119 | the byte after the file is consumed if present, and the final acknowledgement is 0x00 exactly when the handler succeeded and that byte is 0x00 (end of stream gives 0x01) |
| ReceivePrinterJobCommandParser.TransferOutput | lpdbox/src/main/java/de/textmode/lpdbox/ReceivePrinterJobCommandParser.java:102-119 | a transfer writes 0x00 before the handler runs, then, unless the handler raised an error, exactly one more acknowledgement |
| ReceivePrinterJobCommandParser.PassedLength | lpdbox/src/main/java/de/textmode/lpdbox/ReceivePrinterJobCommandParser.java:104-106 | the control-file handler gets (int) fileLength, which is an int; the data-file handler gets the long unchanged |
| ReceivePrinterJobCommandParser.FileReceipt | lpdbox/src/main/java/de/textmode/lpdbox/ReceivePrinterJobCommandParser.java:104-106 | the handler call consumes at most the bytes that remain |
| ReceivePrinterJobCommandParser.HandshakeOutput | lpdbox/src/main/java/de/textmode/lpdbox/ReceivePrinterJobCommandParser.java:65-71 | the handshake writes only its one acknowledgement byte |
| ReceivePrinterJobCommandParser.SendPositiveAcknowledgement | lpdbox/src/main/java/de/textmode/lpdbox/ReceivePrinterJobCommandParser.java:127-129 | appends exactly 0x00 |
| ReceivePrinterJobCommandParser.SendNegativeAcknowledgement | lpdbox/src/main/java/de/textmode/lpdbox/ReceivePrinterJobCommandParser.java:134-136 | appends exactly 0x01 |
| ReceivePrinterJobCommandParser.Parse | lpdbox/src/main/java/de/textmode/lpdbox/ReceivePrinterJobCommandParser.java:54-122 | outcome, input position, bytes written and the stub's final state are those of ReceivePrinterJob |
| ReceivePrinterJobCommandParser.ParseHandshake | lpdbox/src/main/java/de/textmode/lpdbox/ReceivePrinterJobCommandParser.java:60-72 | reads the queue line, starts the job and acknowledges as Handshake says; it goes on to the loop exactly when Handshake does |
| ReceivePrinterJobCommandParser.ParseSubcommands | lpdbox/src/main/java/de/textmode/lpdbox/ReceivePrinterJobCommandParser.java:75-121 | the while loop ends as JobLoop does, having written the bytes of JobLoop's trace |
| ReceivePrinterJobCommandParser.ParseSubcommand | lpdbox/src/main/java/de/textmode/lpdbox/ReceivePrinterJobCommandParser.java:76-120 | one pass of the loop does what SubcommandStep says and returns exactly when it stops |
| ReceivePrinterJobCommandParser.ParseFileSubcommand | lpdbox/src/main/java/de/textmode/lpdbox/ReceivePrinterJobCommandParser.java:92-119 | the file branch of the loop does what FileSubcommand says |
| ReceivePrinterJobCommandParser.ReadParameters | lpdbox/src/main/java/de/textmode/lpdbox/ReceivePrinterJobCommandParser.java:92-100 | the parameters or error, and the position after the line, are those of ParametersAt |
| ReceivePrinterJobCommandParser.TransferFile | lpdbox/src/main/java/de/textmode/lpdbox/ReceivePrinterJobCommandParser.java:102-119 | acknowledgement, handler call and trailer do what FileTransfer says |
| ReceivePrinterJobCommandParser.HandOver | lpdbox/src/main/java/de/textmode/lpdbox/ReceivePrinterJobCommandParser.java:104-106 | the stub's receive method for the code runs on the bytes not yet read, as FileReceipt says |
| ReceivePrinterJobCommandParser.AcknowledgeTrailer | lpdbox/src/main/java/de/textmode/lpdbox/ReceivePrinterJobCommandParser.java:111-119 | reads the trailing byte and writes the acknowledgement Trailer gives |
| ReceivePrinterJobProperties.EmptyQueueNameRejected | lpdbox/src/main/java/de/textmode/lpdbox/ReceivePrinterJobCommandParser.java:60-63 | an empty queue name fails after its line feed, before the handler is called and with nothing written |
| ReceivePrinterJobProperties.UnterminatedQueueName | lpdbox/src/main/java/de/textmode/lpdbox/ReceivePrinterJobCommandParser.java:60 | a queue line without line feed fails with end of stream, having consumed everything and written nothing |
| ReceivePrinterJobProperties.RefusedWhileLocked | lpdbox/src/main/java/de/textmode/lpdbox/ReceivePrinterJobCommandParser.java:65-71 | when the locked stub refuses the job, exactly 0x01 is written, nothing after the queue line is read, and the stub is unchanged |
| ReceivePrinterJobProperties.AcceptedJob | lpdbox/src/main/java/de/textmode/lpdbox/ReceivePrinterJobCommandParser.java:65-75 | an accepted job records the queue, writes 0x00 first and runs the loop on the bytes after the queue line |
| ReceivePrinterJobProperties.HandshakeCases | lpdbox/src/main/java/de/textmode/lpdbox/ReceivePrinterJobCommandParser.java:60-72 | the loop is entered exactly when a non-empty queue name is read and the stub accepts. A refusal ends normally with only 0x01 written; every other end is an error with nothing written and the stub unchanged |
| ReceivePrinterJobProperties.HandshakeWrites | lpdbox/src/main/java/de/textmode/lpdbox/ReceivePrinterJobCommandParser.java:65-71 | the handshake writes one acknowledgement byte and hands over no file |
| ReceivePrinterJobProperties.EndOfStreamEndsJob | lpdbox/src/main/java/de/textmode/lpdbox/ReceivePrinterJobCommandParser.java:76-80 | end of stream in place of a subcommand code ends the job normally, calling endPrinterJob |
| ReceivePrinterJobProperties.AbortContinues | lpdbox/src/main/java/de/textmode/lpdbox/ReceivePrinterJobCommandParser.java:88-90 | the abort subcommand sets the aborted flag and the loop goes on with the next byte |
| ReceivePrinterJobProperties.AbortThenLineFeedFails | lpdbox/src/main/java/de/textmode/lpdbox/ReceivePrinterJobCommandParser.java:82-90 | a line feed after an abort is read as a subcommand code and rejected |
| ReceivePrinterJobProperties.UnknownCodeFails | lpdbox/src/main/java/de/textmode/lpdbox/ReceivePrinterJobCommandParser.java:82-86 | a code other than 1, 2 and 3 ends the loop with an unknown-subcommand error right after the code byte, adding no event to the trace and leaving the stub unchanged |
| ReceivePrinterJobProperties.FileCodeDispatch | lpdbox/src/main/java/de/textmode/lpdbox/ReceivePrinterJobCommandParser.java:82-92 | codes 2 and 3 start a file subcommand on the bytes after the code |
| ReceivePrinterJobProperties.ParameterLineUnterminated | lpdbox/src/main/java/de/textmode/lpdbox/ReceivePrinterJobCommandParser.java:92 | a parameter line cut off by the end of the stream fails with end of stream, before anything is written |
| ReceivePrinterJobProperties.ParameterCountRejected | lpdbox/src/main/java/de/textmode/lpdbox/ReceivePrinterJobCommandParser.java:93-97 | a parameter line that does not split into exactly two tokens fails, naming the line, before anything is written |
| ReceivePrinterJobProperties.LengthRejected | lpdbox/src/main/java/de/textmode/lpdbox/ReceivePrinterJobCommandParser.java:99 | a length parseLong rejects fails with a number format error, before anything is written |
| ReceivePrinterJobProperties.ParameterLineAccepted | lpdbox/src/main/java/de/textmode/lpdbox/ReceivePrinterJobCommandParser.java:92-106 | a valid "<length> <name>" line leads to the transfer of a file of that length and name, right after the line |
| ReceivePrinterJobProperties.EmptyParameterLineRejected | lpdbox/src/main/java/de/textmode/lpdbox/ReceivePrinterJobCommandParser.java:92-97 | an empty parameter line is one empty token and is rejected, writing nothing |
| ReceivePrinterJobProperties.LeadingBlankParameterLineRejected | lpdbox/src/main/java/de/textmode/lpdbox/ReceivePrinterJobCommandParser.java:93-97 | " <length> <name>" has three tokens and is rejected, writing nothing |
| ReceivePrinterJobProperties.LeadingBlankParameters | lpdbox/src/main/java/de/textmode/lpdbox/ReceivePrinterJobCommandParser.java:93-97 | a leading blank makes the parameter line fail the token count, right after the line |
| ReceivePrinterJobProperties.WellFormedParameterLine | lpdbox/src/main/java/de/textmode/lpdbox/ReceivePrinterJobCommandParser.java:92-100 | round trip at any position: "<decimal length> <name>" and a line feed, whatever precedes and follows them, yield exactly that length and name and consume exactly the line |
| ReceivePrinterJobProperties.CompleteTransfer | lpdbox/src/main/java/de/textmode/lpdbox/ReceivePrinterJobCommandParser.java:102-119 | a transfer at any position whose file bytes are all present and followed by 0x00 stores exactly those bytes, writes exactly 0x00 0x00 and continues right after the 0x00, whatever follows |
| ReceivePrinterJobProperties.WellFormedFileAccepted | lpdbox/src/main/java/de/textmode/lpdbox/ReceivePrinterJobCommandParser.java:92-119 | round trip at any position: a parameter line, the file bytes and 0x00 hand the file to the handler with its length and name, leave exactly its bytes in the stub, write exactly 0x00 0x00 and stop right before what follows |
| ReceivePrinterJobProperties.WellFormedFileLaidOut | lpdbox/src/main/java/de/textmode/lpdbox/ReceivePrinterJobCommandParser.java:92-104 | in a well-formed file subcommand the parameter line parses to the file's length and name, and the file bytes and 0x00 come right after it |
| ReceivePrinterJobProperties.WellFormedFileParameters | lpdbox/src/main/java/de/textmode/lpdbox/ReceivePrinterJobCommandParser.java:92-100 | the parameter line of a well-formed file subcommand, at any position, parses to the file's length and name and ends right after its line feed |
| ReceivePrinterJobProperties.WellFormedFileBytes | lpdbox/src/main/java/de/textmode/lpdbox/ReceivePrinterJobCommandParser.java:102-111 | what follows the parameter line of a well-formed file subcommand is the file, then 0x00, then the rest of the input |
| ReceivePrinterJobProperties.FileAfterParameters | lpdbox/src/main/java/de/textmode/lpdbox/ReceivePrinterJobCommandParser.java:92-119 | once the parameter line yields the file's length and name and is followed by the file and 0x00, the file subcommand hands over the file, writes exactly 0x00 0x00 and continues after the 0x00 |
| ReceivePrinterJobProperties.TransferEvents | lpdbox/src/main/java/de/textmode/lpdbox/ReceivePrinterJobCommandParser.java:102-119 | a transfer writes only acknowledgements, 0x00 right before the handler gets the file, and exactly two bytes when the loop goes on |
| ReceivePrinterJobProperties.FileSubcommandEvents | lpdbox/src/main/java/de/textmode/lpdbox/ReceivePrinterJobCommandParser.java:92-119 | the same for the whole file subcommand: nothing is written when the parameter line is rejected |
| ReceivePrinterJobProperties.StepOutput | lpdbox/src/main/java/de/textmode/lpdbox/ReceivePrinterJobCommandParser.java:75-121 | one pass writes at most two bytes, all acknowledgements. Abort and every error before the transfer write nothing; a finished transfer writes 0x00 and one more acknowledgement; a code other than 1, 2 and 3 stops the pass with an unknown-subcommand error right after the code, with no event and the stub unchanged |
| ReceivePrinterJobProperties.StepWireRules | lpdbox/src/main/java/de/textmode/lpdbox/ReceivePrinterJobCommandParser.java:75-121 | one pass writes only acknowledgements, readies the client with 0x00 before the handler gets a file, and never begins with the handler call |
| ReceivePrinterJobProperties.ExtendTrace | lpdbox/src/main/java/de/textmode/lpdbox/ReceivePrinterJobCommandParser.java:75-121 | the two wire rules survive appending the events of one pass |
| ReceivePrinterJobProperties.JobLoopShape | lpdbox/src/main/java/de/textmode/lpdbox/ReceivePrinterJobCommandParser.java:75-121 | the loop only appends to the trace and never moves backwards; it ends normally only at end of stream, with endPrinterJob last and the ended flag set |
| ReceivePrinterJobProperties.JobLoopInvariants | lpdbox/src/main/java/de/textmode/lpdbox/ReceivePrinterJobCommandParser.java:75-121 | the loop writes only 0x00 and 0x01 and readies the client with 0x00 before every file |
| ReceivePrinterJobProperties.LoopAfterHandshake | lpdbox/src/main/java/de/textmode/lpdbox/ReceivePrinterJobCommandParser.java:65-121 | after an accepted handshake the loop keeps both wire rules and completes only at end of stream |
| ReceivePrinterJobProperties.WholeRun | lpdbox/src/main/java/de/textmode/lpdbox/ReceivePrinterJobCommandParser.java:54-122 | a whole parse writes only 0x00 and 0x01 and readies the client before every file. It completes normally only at end of stream between subcommands, or when the locked stub refused the job and 0x01 alone was written |
| ReceivePrinterJobProperties.HandshakeAccepted | lpdbox/src/main/java/de/textmode/lpdbox/ReceivePrinterJobCommandParser.java:60-75 | a non-empty queue line that the unlocked stub accepts records the queue, writes 0x00 and enters the loop right after the line feed |
| ReceivePrinterJobProperties.FileThenEnd | lpdbox/src/main/java/de/textmode/lpdbox/ReceivePrinterJobCommandParser.java:76-119 | a well-formed file subcommand followed by end of stream receives the file, writes 0x00 0x00, and ends the job with endPrinterJob at the end of the input |
| ReceivePrinterJobProperties.AcceptedFileJob | lpdbox/src/main/java/de/textmode/lpdbox/ReceivePrinterJobCommandParser.java:54-122 | any input that parses as an accepted queue line and exactly one well-formed file subcommand completes at its end with startPrinterJob, the file and endPrinterJob, and writes exactly 0x00 three times |
| ReceivePrinterJobProperties.OneFileJob | lpdbox/src/main/java/de/textmode/lpdbox/ReceivePrinterJobCommandParser.java:54-122 | round trip of a whole job: the bytes of a queue line and one control or data file are received as exactly that file under that queue, with three 0x00 written and the job ended at the end of the input |
| ReportQueueStateShortCommandParser.ReportQueueStateShort | lpdbox/src/main/java/de/textmode/lpdbox/ReportQueueStateShortCommandParser.java:43-57 | every failure writes nothing and leaves the stub unchanged; the position stays within the input |
| ReportQueueStateShortCommandParser.Reply | lpdbox/src/main/java/de/textmode/lpdbox/ReportQueueStateShortCommandParser.java:50-56 | the split line fails exactly when it has no token, writing nothing |
| ReportQueueStateShortCommandParser.Parse | lpdbox/src/main/java/de/textmode/lpdbox/ReportQueueStateShortCommandParser.java:43-57 | outcome, input position, bytes written and the stub's final state are those of ReportQueueStateShort |
| ReportQueueStateShortCommandParser.Answer | lpdbox/src/main/java/de/textmode/lpdbox/ReportQueueStateShortCommandParser.java:50-56 | the job list built by the for loop is every token after the first, in order, and the answer is written as Reply says |
| ReportQueueStateShortCommandParser.EmptyLineRejected | lpdbox/src/main/java/de/textmode/lpdbox/ReportQueueStateShortCommandParser.java:45-48 | an empty line fails after its line feed, before the handler is called and with nothing written |
| ReportQueueStateShortCommandParser.UnterminatedLine | lpdbox/src/main/java/de/textmode/lpdbox/ReportQueueStateShortCommandParser.java:45 | a line without line feed fails with end of stream, having consumed everything and written nothing |
| ReportQueueStateShortCommandParser.BlankLineRejected | lpdbox/src/main/java/de/textmode/lpdbox/ReportQueueStateShortCommandParser.java:50-51 | a line of blanks and tabs has no token, and sizing the job list with capacity -1 fails |
| ReportQueueStateShortCommandParser.QueueAndJobs | lpdbox/src/main/java/de/textmode/lpdbox/ReportQueueStateShortCommandParser.java:45-56 | once a non-empty line with at least one token is read, the queue name is the first token and the jobs are the others in order; exactly the line and its line feed are consumed, the stub records only queue and jobs, and exactly the encoded answer is written |
| ReportQueueStateShortCommandParser.ReplyToTokens | lpdbox/src/main/java/de/textmode/lpdbox/ReportQueueStateShortCommandParser.java:50-56 | a split line with at least one token is answered for the queue named by the first token and the jobs named by the others, and only the answer is written |
| ReportQueueStateShortCommandParser.OutputIsAnswerOrNothing | lpdbox/src/main/java/de/textmode/lpdbox/ReportQueueStateShortCommandParser.java:56 | the bytes written are nothing on every error, otherwise exactly the handler's answer as writeString encodes it |
| ReportQueueStateShortCommandParser.QueueLineRoundTrip | lpdbox/src/main/java/de/textmode/lpdbox/ReportQueueStateShortCommandParser.java:45-56 | round trip: a line of plain tokens joined by blanks is answered with the first as queue and the rest as jobs, leaving the bytes after the line unread |
| ReportQueueStateShortCommandParser.QueueNameAlone | lpdbox/src/main/java/de/textmode/lpdbox/ReportQueueStateShortCommandParser.java:51-54 | a queue name alone yields an empty job list |
| ReportQueueStateShortCommandParser.LeadingBlankLine | lpdbox/src/main/java/de/textmode/lpdbox/ReportQueueStateShortCommandParser.java:46-56 | a line starting with a blank passes the emptiness check; the handler is asked about the queue "" and every word becomes a job |
| ReportQueueStateShortCommandHandler.AnswerLinePrintable | lpdbox/src/main/java/de/textmode/lpdbox/ReportQueueStateShortCommandHandler.java:33 | the answer's text before its line feed is printable ASCII |
| ReportQueueStateShortCommandHandler.Handle | lpdbox/src/main/java/de/textmode/lpdbox/ReportQueueStateShortCommandHandler.java:28-34 | the answer is not empty, ends with a line feed, has no other line feed and is ISO-8859-1 |
| ReportQueueStateShortCommandHandler.HandleIgnoresRequest | lpdbox/src/main/java/de/textmode/lpdbox/ReportQueueStateShortCommandHandler.java:32-33 | the answer depends neither on the queue name nor on the jobs, empty or not |
| ReportQueueStateShortCommandHandler.HandleIsOneLine | lpdbox/src/main/java/de/textmode/lpdbox/ReportQueueStateShortCommandHandler.java:28-33 | the answer is exactly one line: written by writeString it is read back by readLine as the text before its line feed, consuming all of it |

## Left out

- Sockets, blocking and partial reads: `InputStream.read(byte[])` copies as many bytes as fit or remain. A real socket may return fewer.
- I/O failures of the streams themselves (an `IOException` other than the ones the code raises) are not modelled.
- Concurrency and the `volatile` qualifiers of the stub's fields: one connection runs single-threaded.
- The logger, the exception messages and `Integer.toHexString`: only the cause of each exception is kept.
- The stub's getters and `getControlFileContentAsArray`. They only read fields, which the model's `StubState` exposes.
- The top-level dispatcher, the `DaemonCommandHandler` interface, the `CommandParser` base class and the other command parsers are not part of this model.
- The parsers run only against `DaemonCommandHandlerStub`, the handler the code is tested with. Handlers in general are not modelled, because the parsers' functions are stated over the stub's state.
- The stub's `receiveControlFile` and `receiveDataFile` are `void` and throw on a short read, while the parser uses a `boolean` result. The model returns `Ok(true)` for a complete read and an error otherwise, so the parser's negative-acknowledgement branch for a `false` result is never taken with the stub.
- Byte arrays are stored as sequences: the model does not capture aliasing of the stub's arrays with the caller.
- Both parse methods are split into helper methods, one per phase of the Java method. Each helper is proved against the matching part of the function.
- Tokens.ParseLong: accepts the ASCII digits only. Long.parseLong also accepts other Unicode decimal digits, which readLine never produces, since its characters are at most 0xFF.
- Tokens.ToInt32: states the range of the cast and that it keeps every int. It does not state the low-32-bit wrap-around as a contract; the body computes it.
- Wire.Latin1Decode: `(char) readByte` on a byte is modelled directly. Java's sign extension never applies, because read() returns 0..255.
