/** DaemonCommandHandlerStub: the daemon command handler used by the unit
    tests. It records the arguments of every call, can lock its queue so
    that starting a job is refused, and reads the declared number of file
    bytes from the stream into a freshly allocated byte array. */
module HandlerStub {
  import opened Wire
  import opened Streams
  import opened Tokens

  /** The stub's fields as a value; None stands for Java's null. */
  datatype StubState = StubState(
    printerQueueName: Option<string>,
    controlFileName: Option<string>,
    controlFileLength: int,
    controlFileContent: Option<seq<byte>>,
    dataFileName: Option<string>,
    dataFileLength: int,
    dataFileContent: Option<seq<byte>>,
    userName: Option<string>,
    jobList: seq<string>,
    lockedQueue: bool,
    isClosed: bool,
    isAborted: bool,
    isEnded: bool,
    isDataFileComplete: bool,
    isControlFileComplete: bool)

  /** What a file-receiving handler call did: the stub's new state, how
      many input bytes it consumed, and whether it reported success or
      raised an error. */
  datatype Receipt = Receipt(state: StubState, consumed: nat, result: Result<bool>)

  /** A freshly constructed stub: no names, lengths -1, no contents, an
      empty job list, every flag false. */
  const FRESH: StubState := StubState(
    None, None, -1, None, None, -1, None, None, [],
    false, false, false, false, false, false)

  /** The reply of sendQueueStateShort. */
  const SHORT_LIST: string := "this is a short list"

  /** The reply of sendQueueStateLong. */
  const LONG_LIST: string := "this is a long list"

  /** A zero-filled byte array's contents. */
  function Zeros(n: nat): (z: seq<byte>)
    ensures |z| == n && forall i :: 0 <= i < n ==> z[i] == 0
  {
    seq(n, _ => 0)
  }

  /** The contents of new byte[size] after read(buffer) copied n bytes of
      `rest` into its front. */
  function Filled(rest: seq<byte>, size: nat, n: int): (content: seq<byte>)
    requires n <= size && n <= |rest|
    ensures |content| == size
    ensures 0 <= n == size ==> content == rest[..n]
  {
    var k := if n < 0 then 0 else n;
    rest[..k] + Zeros(size - k)
  }

  lemma FilledFromBuffer(buffer: seq<byte>, rest: seq<byte>, size: nat, n: int)
    requires n <= size && n <= |rest| && |buffer| == size
    requires var k := if n < 0 then 0 else n;
      buffer[..k] == rest[..k] && buffer[k..] == Zeros(size)[k..]
    ensures buffer == Filled(rest, size, n)
  {
    var k := if n < 0 then 0 else n;
    assert buffer == buffer[..k] + buffer[k..];
  }

  /** new byte[size] followed by InputStream.read into it: the array is
      fresh, its front holds the bytes read and the rest stays zero. */
  method ReadNewArray(input: InputStream, size: nat) returns (content: array<byte>, n: int)
    requires input.Valid()
    modifies input
    ensures input.Valid() && fresh(content)
    ensures n == ReadCount(size, |old(input.Rest())|)
    ensures content[..] == Filled(old(input.Rest()), size, n)
    ensures input.pos == old(input.pos) + (if n < 0 then 0 else n)
  {
    content := new byte[size](_ => 0);
    ghost var rest := input.Rest();
    assert content[..] == Zeros(size);
    n := input.ReadInto(content);
    FilledFromBuffer(content[..], rest, size, n);
  }

  /** startPrinterJob: refused while the queue is locked (nothing changes);
      otherwise the queue name is recorded and the job accepted. */
  function StubStartPrinterJob(h: StubState, queueName: string): (r: (StubState, bool))
    ensures r.1 <==> !h.lockedQueue
    ensures !r.1 ==> r.0 == h
    ensures r.1 ==> r.0 == h.(printerQueueName := Some(queueName))
  {
    if h.lockedQueue then (h, false) else (h.(printerQueueName := Some(queueName)), true)
  }

  /** receiveControlFile: records name and length, reads up to `length`
      bytes into a new array and succeeds exactly when all `length` bytes
      were there; a short read is an error, a negative length fails to
      allocate the array. */
  function StubReceiveControlFile(h: StubState, rest: seq<byte>, length: int, name: string)
    : (r: Receipt)
    ensures r.consumed <= |rest|
  {
    var h1 := h.(controlFileName := Some(name), controlFileLength := length);
    if length < 0 then Receipt(h1, 0, Err(NegativeArraySize(length)))
    else
      var n := ReadCount(length, |rest|);
      var complete := n == length;
      var h2 := h1.(controlFileContent := Some(Filled(rest, length, n)),
        isControlFileComplete := complete);
      Receipt(h2, if n < 0 then 0 else n, if complete then Ok(true) else Err(ShortRead))
  }

  /** What receiveControlFile promises: it always records name and length;
      it succeeds exactly when `length` bytes are available, and then the
      content is those bytes; a negative length fails before anything is
      read; a short read consumes everything and is an error. */
  lemma ControlFileReceipt(h: StubState, rest: seq<byte>, length: int, name: string)
    ensures var r := StubReceiveControlFile(h, rest, length, name);
      && r.state.controlFileName == Some(name) && r.state.controlFileLength == length
      && (r.result.Ok? <==> 0 <= length <= |rest|)
      && (r.result.Ok? ==>
            && r.result.value
            && r.consumed == length
            && r.state.controlFileContent == Some(rest[..length])
            && r.state.isControlFileComplete)
      && (length < 0 ==>
            && r.result == Err(NegativeArraySize(length)) && r.consumed == 0
            && r.state == h.(controlFileName := Some(name), controlFileLength := length))
      && (0 <= length && |rest| < length ==>
            r.result == Err(ShortRead) && r.consumed == |rest| && !r.state.isControlFileComplete)
      && (0 <= length ==>
            var k := if length <= |rest| then length else |rest|;
            r.consumed == k && r.state.controlFileContent == Some(rest[..k] + Zeros(length - k)))
      && r.state == h.(controlFileName := Some(name), controlFileLength := length,
           controlFileContent := r.state.controlFileContent,
           isControlFileComplete := r.state.isControlFileComplete)
  {
  }

  /** receiveDataFile: like receiveControlFile, but the array has (int)
      length elements while completeness compares with the long length, so
      a length of 2^31 or more is never complete. */
  function StubReceiveDataFile(h: StubState, rest: seq<byte>, length: int, name: string)
    : (r: Receipt)
    ensures r.consumed <= |rest|
  {
    var h1 := h.(dataFileName := Some(name), dataFileLength := length);
    var size := ToInt32(length);
    if size < 0 then Receipt(h1, 0, Err(NegativeArraySize(size)))
    else
      var n := ReadCount(size, |rest|);
      var complete := n == length;
      var h2 := h1.(dataFileContent := Some(Filled(rest, size, n)),
        isDataFileComplete := complete);
      Receipt(h2, if n < 0 then 0 else n, if complete then Ok(true) else Err(ShortRead))
  }

  /** What receiveDataFile promises: as receiveControlFile, except that the
      array holds (int) length bytes, so a length of 2^31 or more never
      succeeds: it fails to allocate when (int) length is negative and is
      a short read otherwise. */
  lemma DataFileReceipt(h: StubState, rest: seq<byte>, length: int, name: string)
    ensures var r := StubReceiveDataFile(h, rest, length, name);
      && r.state.dataFileName == Some(name) && r.state.dataFileLength == length
      && (r.result.Ok? <==> 0 <= length <= |rest| && length < 0x8000_0000)
      && (r.result.Ok? ==>
            && r.result.value
            && r.consumed == length
            && r.state.dataFileContent == Some(rest[..length])
            && r.state.isDataFileComplete)
      && (r.result.Err? ==> r.result.error.ShortRead? || r.result.error.NegativeArraySize?)
      && (ToInt32(length) < 0 ==>
            && r.result == Err(NegativeArraySize(ToInt32(length))) && r.consumed == 0
            && r.state == h.(dataFileName := Some(name), dataFileLength := length))
      && (0 <= ToInt32(length) ==>
            var size := ToInt32(length);
            var k := if size <= |rest| then size else |rest|;
            && r.consumed == k
            && r.state.dataFileContent == Some(rest[..k] + Zeros(size - k))
            && r.state.isDataFileComplete == (k == length)
            && (r.result.Err? ==> r.result == Err(ShortRead) && !r.state.isDataFileComplete))
      && r.state == h.(dataFileName := Some(name), dataFileLength := length,
           dataFileContent := r.state.dataFileContent,
           isDataFileComplete := r.state.isDataFileComplete)
  {
  }

  /** abortPrinterJob sets only the aborted flag. */
  function StubAbortPrinterJob(h: StubState): (r: StubState)
    ensures r.isAborted && r == h.(isAborted := true)
  {
    h.(isAborted := true)
  }

  /** endPrinterJob sets only the ended flag. */
  function StubEndPrinterJob(h: StubState): (r: StubState)
    ensures r.isEnded && r == h.(isEnded := true)
  {
    h.(isEnded := true)
  }

  /** sendQueueStateShort records queue and jobs and answers a fixed text. */
  function StubSendQueueStateShort(h: StubState, queueName: string, jobs: seq<string>)
    : (r: (StubState, string))
    ensures r.0 == h.(printerQueueName := Some(queueName), jobList := jobs)
    ensures r.1 == SHORT_LIST
  {
    (h.(printerQueueName := Some(queueName), jobList := jobs), SHORT_LIST)
  }

  class DaemonCommandHandlerStub {
    var printerQueueName: Option<string>
    var controlFileName: Option<string>
    var controlFileLength: int
    var controlFileContent: Option<seq<byte>>
    var dataFileName: Option<string>
    var dataFileLength: int
    var dataFileContent: Option<seq<byte>>
    var userName: Option<string>
    var jobList: seq<string>
    var lockedQueue: bool
    var isClosed: bool
    var isAborted: bool
    var isEnded: bool
    var isDataFileComplete: bool
    var isControlFileComplete: bool

    /** The stub's state as a value. */
    ghost function State(): StubState
      reads this
    {
      StubState(printerQueueName, controlFileName, controlFileLength,
        controlFileContent,
        dataFileName, dataFileLength,
        dataFileContent,
        userName, jobList, lockedQueue, isClosed, isAborted, isEnded,
        isDataFileComplete, isControlFileComplete)
    }

    constructor ()
      ensures State() == FRESH
      ensures controlFileLength == -1 && dataFileLength == -1 && jobList == []
      ensures !lockedQueue && !isClosed && !isAborted && !isEnded
      ensures !isDataFileComplete && !isControlFileComplete
    {
      printerQueueName, controlFileName, dataFileName, userName := None, None, None, None;
      controlFileContent, dataFileContent := None, None;
      dataFileLength, controlFileLength := -1, -1;
      jobList := [];
      lockedQueue, isClosed, isAborted, isEnded := false, false, false, false;
      isDataFileComplete, isControlFileComplete := false, false;
    }

    /** Locks the queue: starting a job is then refused. */
    method LockQueue()
      modifies this
      ensures State() == old(State()).(lockedQueue := true)
    {
      lockedQueue := true;
    }

    method UnlockQueue()
      modifies this
      ensures State() == old(State()).(lockedQueue := false)
    {
      lockedQueue := false;
    }

    method PrintJobs(queueName: string)
      modifies this
      ensures State() == old(State()).(printerQueueName := Some(queueName))
    {
      printerQueueName := Some(queueName);
    }

    method StartPrinterJob(queueName: string) returns (accepted: bool)
      modifies this
      ensures (State(), accepted) == StubStartPrinterJob(old(State()), queueName)
    {
      if lockedQueue {
        return false;
      }
      printerQueueName := Some(queueName);
      return true;
    }

    /** isControlFileAcceptable accepts every file. */
    method IsControlFileAcceptable(fileLength: int, fileName: string) returns (acceptable: bool)
      ensures acceptable
    {
      return true;
    }

    method ReceiveControlFile(input: InputStream, length: int, name: string)
      returns (result: Result<bool>)
      requires input.Valid()
      modifies this, input
      ensures input.Valid()
      ensures var r := StubReceiveControlFile(old(State()), old(input.Rest()), length, name);
        && State() == r.state
        && input.pos == old(input.pos) + r.consumed
        && result == r.result
    {
      controlFileName := Some(name);
      controlFileLength := length;
      if length < 0 {
        return Err(NegativeArraySize(length));
      }
      var content, n := ReadNewArray(input, length);
      controlFileContent := Some(content[..]);
      isControlFileComplete := n == length;
      if !isControlFileComplete {
        return Err(ShortRead);
      }
      return Ok(true);
    }

    /** isDataFileAcceptable accepts every file. */
    method IsDataFileAcceptable(fileLength: int, fileName: string) returns (acceptable: bool)
      ensures acceptable
    {
      return true;
    }

    method ReceiveDataFile(input: InputStream, length: int, name: string)
      returns (result: Result<bool>)
      requires input.Valid()
      modifies this, input
      ensures input.Valid()
      ensures var r := StubReceiveDataFile(old(State()), old(input.Rest()), length, name);
        && State() == r.state
        && input.pos == old(input.pos) + r.consumed
        && result == r.result
    {
      dataFileName := Some(name);
      dataFileLength := length;
      var size := ToInt32(length);
      if size < 0 {
        return Err(NegativeArraySize(size));
      }
      var content, n := ReadNewArray(input, size);
      dataFileContent := Some(content[..]);
      isDataFileComplete := n == length;
      if !isDataFileComplete {
        return Err(ShortRead);
      }
      return Ok(true);
    }

    method AbortPrinterJob()
      modifies this
      ensures State() == StubAbortPrinterJob(old(State()))
    {
      isAborted := true;
    }

    method EndPrinterJob()
      modifies this
      ensures State() == StubEndPrinterJob(old(State()))
    {
      isEnded := true;
    }

    method RemoveJobs(queueName: string, agent: string, jobs: seq<string>)
      modifies this
      ensures State() == old(State()).(printerQueueName := Some(queueName),
        userName := Some(agent), jobList := jobs)
    {
      printerQueueName := Some(queueName);
      userName := Some(agent);
      jobList := jobs;
    }

    method SendQueueStateLong(queueName: string, jobs: seq<string>) returns (text: string)
      modifies this
      ensures State() == old(State()).(printerQueueName := Some(queueName), jobList := jobs)
      ensures text == LONG_LIST
    {
      printerQueueName := Some(queueName);
      jobList := jobs;
      return LONG_LIST;
    }

    method SendQueueStateShort(queueName: string, jobs: seq<string>) returns (text: string)
      modifies this
      ensures (State(), text) == StubSendQueueStateShort(old(State()), queueName, jobs)
    {
      printerQueueName := Some(queueName);
      jobList := jobs;
      return SHORT_LIST;
    }

    method Close()
      modifies this
      ensures State() == old(State()).(isClosed := true)
    {
      isClosed := true;
    }
  }
}
