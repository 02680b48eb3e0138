/** The record of one parse: what was written, which handler operations
    ran, how far the input was read and how the parse ended. */
module Trace {
  import opened Wire
  import opened HandlerStub

  /** One observable action of a parse, in the order it happened. */
  datatype Event =
    | Wrote(bytes: seq<byte>)
    | StartJob(queue: string)
    | AbortJob
    | EndJob
    | ReceiveFile(code: byte, length: int, name: string)
    | QueueStateShort(queue: string, jobs: seq<string>)

  datatype Outcome = Completed | Failed(error: Error)

  /** The result of one parse: the outcome, the input position it stopped
      at, its events and the stub handler's final state. */
  datatype Run = Run(outcome: Outcome, pos: nat, trace: seq<Event>, handler: StubState)

  /** The bytes a trace writes to the output stream, in order. */
  function Output(trace: seq<Event>): (out: seq<byte>)
  {
    if trace == [] then []
    else Output(trace[..|trace| - 1]) + Written(trace[|trace| - 1])
  }

  /** The bytes one event writes. */
  function Written(e: Event): (bytes: seq<byte>)
    ensures e.Wrote? ==> bytes == e.bytes
    ensures !e.Wrote? ==> bytes == []
  {
    if e.Wrote? then e.bytes else []
  }

  /** A trace of one event writes what that event writes. */
  lemma OutputOne(e: Event)
    ensures Output([e]) == Written(e)
  {
    assert [e][..0] == [];
  }

  /** A trace of two events writes what the first writes, then what the
      second writes. */
  lemma OutputTwo(e: Event, f: Event)
    ensures Output([e, f]) == Written(e) + Written(f)
  {
    assert [e, f][..1] == [e];
    OutputOne(e);
  }

  /** Writing is append-only: the output of a longer trace extends the
      output of its prefix by the output of the added events. */
  lemma {:induction false} OutputAppend(t: seq<Event>, u: seq<Event>)
    ensures Output(t + u) == Output(t) + Output(u)
    decreases |u|
  {
    if u == [] {
      assert t + u == t;
    } else {
      var v, last := u[..|u| - 1], u[|u| - 1];
      var tu := t + u;
      assert tu[..|tu| - 1] == t + v;
      assert tu[|tu| - 1] == last;
      assert Output(tu) == Output(t + v) + Written(last);
      assert Output(u) == Output(v) + Written(last);
      OutputAppend(t, v);
    }
  }

  /** Appending the output of further events to what a trace wrote gives
      what the longer trace writes. */
  lemma WrittenAfter(w0: seq<byte>, t: seq<Event>, u: seq<Event>, written: seq<byte>)
    requires written == w0 + Output(t)
    ensures written + Output(u) == w0 + Output(t + u)
  {
    OutputAppend(t, u);
  }
}
