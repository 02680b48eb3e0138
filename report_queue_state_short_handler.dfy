/** The default answer of ReportQueueStateShortCommandHandler: a fixed text
    for every queue and every job list. Every line of an answer ends with
    a line feed. */
module ReportQueueStateShortCommandHandler {
  import opened Wire
  import opened Util

  /** The line every queue-state request gets from the default handler,
      before its line feed. */
  const ANSWER_LINE: string :=
    "This dummy LPD-Server" + " can not report print" + " queue entries."

  /** The text the default handler returns. */
  const DUMMY_ANSWER: string := ANSWER_LINE + "\n"

  /** Characters from the blank to the tilde: printable ASCII. */
  predicate Printable(s: string) {
    forall i :: 0 <= i < |s| ==> ' ' <= s[i] <= '~'
  }

  lemma PrintableAppend(a: string, b: string)
    requires Printable(a) && Printable(b)
    ensures Printable(a + b)
  {
  }

  /** The answer's line is printable ASCII, checked piece by piece. */
  lemma AnswerLinePrintable()
    ensures Printable(ANSWER_LINE)
  {
    var a, b, c := "This dummy LPD-Server", " can not report print", " queue entries.";
    assert Printable(a);
    assert Printable(b);
    assert Printable(c);
    PrintableAppend(a, b);
    PrintableAppend(a + b, c);
  }

  /** Every line of an answer ends with a line feed: the text is empty or
      its last character is one. */
  predicate LinesTerminated(text: string) {
    text == [] || text[|text| - 1] == '\n'
  }

  /** ReportQueueStateShortCommandHandler.handle, default method. */
  function Handle(queueName: string, jobs: seq<string>): (r: string)
    ensures LinesTerminated(r) && r != []
    ensures forall i :: 0 <= i < |r| - 1 ==> r[i] != '\n'
    ensures AllLatin1(r)
  {
    AnswerLinePrintable();
    DUMMY_ANSWER
  }

  /** The answer depends neither on the queue name nor on the jobs, empty
      or not. */
  lemma HandleIgnoresRequest(q1: string, jobs1: seq<string>, q2: string, jobs2: seq<string>)
    ensures Handle(q1, jobs1) == Handle(q2, jobs2)
  {
  }

  /** The answer is exactly one line: written with writeString it is read
      back by readLine as the text before its line feed, consuming all of
      it. */
  lemma HandleIsOneLine(queueName: string, jobs: seq<string>)
    ensures var r := Handle(queueName, jobs);
      ReadLineAt(Latin1Encode(r), 0) == (Ok(r[..|r| - 1]), |r|)
  {
    var r := Handle(queueName, jobs);
    var body := r[..|r| - 1];
    assert r == body + "\n";
    assert AllLatin1(body) by {
      forall k | 0 <= k < |body| ensures IsLatin1(body[k]) {
        assert body[k] == r[k];
      }
    }
    EncodeAppend(body, "\n");
    assert Latin1Encode("\n") == [LF];
    assert Latin1Encode(r) == Latin1Encode(body) + [LF] + [];
    WriteThenReadLine(body, []);
  }
}
