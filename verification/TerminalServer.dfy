/**
  The stdin side of the MCP terminal server (tools/mcp-terminal-server.js): lines are dispatched as
  they complete, answered in any order, and the process exits once stdin has ended and everything
  dispatched has finished. `Step` is the specification of one event, `Server` the code in place.
 */
module TerminalServer {
  import opened Prelude
  import opened Framing
  import opened JsonRpc

  /** A dispatched line: waiting, answered (its messages are written), or settled (`finally` has run). */
  datatype Job =
    | Waiting(line: string)
    | Answered(line: string, parsed: Option<Json>, ran: Outcome)
    | Settled(line: string, parsed: Option<Json>, ran: Outcome)

  /** A message on stdout, tagged with the job that wrote it. */
  datatype Sent = Sent(job: nat, message: Message)

  datatype State = State(buffer: string, pending: int, ended: bool, exited: bool, jobs: seq<Job>, output: seq<Sent>)

  datatype Event =
    | Data(chunk: string)
    | End
    | Answer(job: nat, parsed: Option<Json>, ran: Outcome)
    | Settle(job: nat)

  function NewJobs(lines: seq<string>): (jobs: seq<Job>)
    ensures |jobs| == |lines| && forall i :: 0 <= i < |lines| ==> jobs[i] == Waiting(lines[i])
  {
    seq(|lines|, (i: nat) requires i < |lines| => Waiting(lines[i]))
  }

  lemma NewJobsAppend(jobs: seq<Job>, lines: seq<string>, more: seq<string>)
    ensures (jobs + NewJobs(lines)) + NewJobs(more) == jobs + NewJobs(lines + more)
  {
  }

  function Tagged(job: nat, messages: seq<Message>): (r: seq<Sent>)
    ensures |r| == |messages| && forall i :: 0 <= i < |messages| ==> r[i] == Sent(job, messages[i])
  {
    seq(|messages|, (i: nat) requires i < |messages| => Sent(job, messages[i]))
  }

  /** `exitWhenDrained`. */
  function Drain(s: State): State {
    s.(exited := s.exited || (s.ended && s.pending == 0))
  }

  /** When an event can happen: not after exit, no data after the end, each job answers once and then settles once. */
  predicate Enabled(s: State, e: Event) {
    && !s.exited
    && match e
       case Data(_) => !s.ended
       case End => !s.ended
       case Answer(job, _, _) => job < |s.jobs| && s.jobs[job].Waiting?
       case Settle(job) => job < |s.jobs| && s.jobs[job].Answered?
  }

  function Step(s: State, e: Event, info: Info): State {
    if !Enabled(s, e) then s
    else
      match e
      case Data(chunk) =>
        var lines := Lines(s.buffer + chunk);
        s.(buffer := Rest(s.buffer + chunk), pending := s.pending + |lines|, jobs := s.jobs + NewJobs(lines))
      case End => Drain(s.(ended := true))
      case Answer(job, parsed, ran) =>
        s.(jobs := s.jobs[job := Answered(s.jobs[job].line, parsed, ran)],
           output := s.output + Tagged(job, HandleLine(parsed, info, ran)))
      case Settle(job) =>
        var j := s.jobs[job];
        Drain(s.(jobs := s.jobs[job := Settled(j.line, j.parsed, j.ran)], pending := s.pending - 1))
  }

  const START := State("", 0, false, false, [], [])

  ghost function Run(events: seq<Event>, info: Info): State {
    Fold((s, e) => Step(s, e, info), START, events)
  }

  // ---------- the server in place ----------

  class Server {
    var inputBuffer: string
    var pendingRequests: int
    var stdinEnded: bool
    var exited: bool
    var jobs: seq<Job>
    var output: seq<Sent>

    function Now(): State
      reads this
    {
      State(inputBuffer, pendingRequests, stdinEnded, exited, jobs, output)
    }

    constructor ()
      ensures Now() == START
    {
      inputBuffer, pendingRequests, stdinEnded, exited, jobs, output := "", 0, false, false, [], [];
    }

    /** One turn of the loop: the first line leaves the buffer and is dispatched unless it is blank. */
    method TakeLine(newlineIndex: nat) returns (ghost kept: seq<string>)
      requires newlineIndex < |inputBuffer|
      modifies this`inputBuffer, this`pendingRequests, this`jobs
      ensures kept == Kept(old(inputBuffer)[..newlineIndex])
      ensures inputBuffer == old(inputBuffer)[newlineIndex + 1..]
      ensures jobs == old(jobs) + NewJobs(kept) && pendingRequests == old(pendingRequests) + |kept|
    {
      kept := Kept(inputBuffer[..newlineIndex]);
      var line := Trim(inputBuffer[..newlineIndex]);
      inputBuffer := inputBuffer[newlineIndex + 1..];
      if |line| > 0 {
        pendingRequests := pendingRequests + 1;
        jobs := jobs + [Waiting(line)];
      }
    }

    /** What the loop has done so far: `done` are the lines of `input` dispatched since `start`. */
    ghost predicate Dispatched(input: string, start: State, done: seq<string>)
      reads this
    {
      && Taken(input, done, inputBuffer)
      && jobs == start.jobs + NewJobs(done) && pendingRequests == start.pending + |done|
    }

    /** One turn of the loop, and where the next newline is. */
    method TakeNext(newlineIndex: nat, ghost input: string, ghost start: State, ghost done: seq<string>)
      returns (next: nat, ghost more: seq<string>)
      requires newlineIndex == IndexOf(inputBuffer, NEWLINE) < |inputBuffer| && Dispatched(input, start, done)
      modifies this`inputBuffer, this`pendingRequests, this`jobs
      ensures |inputBuffer| < |old(inputBuffer)| && next == IndexOf(inputBuffer, NEWLINE)
      ensures Dispatched(input, start, more)
    {
      TakenStep(input, done, inputBuffer);
      ghost var kept := TakeLine(newlineIndex);
      more := done + kept;
      NewJobsAppend(start.jobs, done, kept);
      next := IndexOf(inputBuffer, NEWLINE);
    }

    /** The loop of the `data` listener: take complete lines off the buffer until none is left. */
    method TakeLines()
      modifies this`inputBuffer, this`pendingRequests, this`jobs
      ensures inputBuffer == Rest(old(inputBuffer))
      ensures jobs == old(jobs) + NewJobs(Lines(old(inputBuffer)))
      ensures pendingRequests == old(pendingRequests) + |Lines(old(inputBuffer))|
    {
      ghost var input, start, done := inputBuffer, Now(), [];
      assert [] + Lines(input) == Lines(input) && jobs + NewJobs([]) == jobs;
      var newlineIndex := IndexOf(inputBuffer, NEWLINE);
      while newlineIndex < |inputBuffer|
        invariant newlineIndex == IndexOf(inputBuffer, NEWLINE) && Dispatched(input, start, done)
        decreases |inputBuffer|
      {
        newlineIndex, done := TakeNext(newlineIndex, input, start, done);
      }
      TakenAll(input, done, inputBuffer);
    }

    /** The `data` listener. */
    method OnData(chunk: string, ghost info: Info)
      requires Enabled(Now(), Data(chunk))
      modifies this`inputBuffer, this`pendingRequests, this`jobs
      ensures Now() == Step(old(Now()), Data(chunk), info)
    {
      inputBuffer := inputBuffer + chunk;
      TakeLines();
    }

    method ExitWhenDrained()
      modifies this`exited
      ensures Now() == Drain(old(Now()))
    {
      if stdinEnded && pendingRequests == 0 {
        exited := true;
      }
    }

    method OnEnd(ghost info: Info)
      requires Enabled(Now(), End)
      modifies this`stdinEnded, this`exited
      ensures Now() == Step(old(Now()), End, info)
    {
      stdinEnded := true;
      ExitWhenDrained();
    }

    /** `handleLine` reaches its end: what it wrote is on stdout. */
    method OnAnswer(job: nat, parsed: Option<Json>, ran: Outcome, info: Info)
      requires Enabled(Now(), Answer(job, parsed, ran))
      modifies this`jobs, this`output
      ensures Now() == Step(old(Now()), Answer(job, parsed, ran), info)
    {
      var replies := HandleLine(parsed, info, ran);
      output := output + Tagged(job, replies);
      jobs := jobs[job := Answered(jobs[job].line, parsed, ran)];
    }

    /** The `finally` of a dispatched line. */
    method OnSettled(job: nat, ghost info: Info)
      requires Enabled(Now(), Settle(job))
      modifies this`jobs, this`pendingRequests, this`exited
      ensures Now() == Step(old(Now()), Settle(job), info)
    {
      jobs := jobs[job := Settled(jobs[job].line, jobs[job].parsed, jobs[job].ran)];
      pendingRequests := pendingRequests - 1;
      ExitWhenDrained();
    }
  }

  // ---------- what every run of events keeps ----------

  /** The stream up to now: all data events that were delivered. */
  ghost function Input(events: seq<Event>, info: Info): string {
    if events == [] then ""
    else
      var n := |events| - 1;
      Input(events[..n], info) +
      if events[n].Data? && Enabled(Run(events[..n], info), events[n]) then events[n].chunk else ""
  }

  function Unsettled(jobs: seq<Job>): nat {
    if jobs == [] then 0
    else Unsettled(jobs[..|jobs| - 1]) + if jobs[|jobs| - 1].Settled? then 0 else 1
  }

  /** What job `k` has on stdout, in order. */
  function OutputOf(output: seq<Sent>, k: nat): seq<Message> {
    if output == [] then []
    else
      var last := output[|output| - 1];
      OutputOf(output[..|output| - 1], k) + if last.job == k then [last.message] else []
  }

  /** What a job must have on stdout. */
  function Owed(job: Job, info: Info): seq<Message> {
    if job.Waiting? then [] else HandleLine(job.parsed, info, job.ran)
  }

  function AllOwed(jobs: seq<Job>, info: Info): (owed: seq<seq<Message>>)
    ensures |owed| == |jobs| && forall k :: 0 <= k < |jobs| ==> owed[k] == Owed(jobs[k], info)
  {
    seq(|jobs|, (k: nat) requires k < |jobs| => Owed(jobs[k], info))
  }

  /** Job by job, exactly what is owed has been written, and nothing else. */
  ghost predicate Delivered(output: seq<Sent>, owed: seq<seq<Message>>) {
    && (forall k :: 0 <= k < |owed| ==> OutputOf(output, k) == owed[k])
    && (forall i :: 0 <= i < |output| ==> output[i].job < |owed|)
  }

  /** The jobs are these lines, in order. */
  ghost predicate JobsAre(jobs: seq<Job>, lines: seq<string>) {
    |jobs| == |lines| && forall k :: 0 <= k < |jobs| ==> jobs[k].line == lines[k]
  }

  ghost predicate Inv(s: State, stream: string, info: Info) {
    && s.buffer == Rest(stream)
    && JobsAre(s.jobs, Lines(stream))
    && s.pending == Unsettled(s.jobs)
    && (s.exited <==> s.ended && s.pending == 0)
    && Delivered(s.output, AllOwed(s.jobs, info))
  }

  lemma {:induction false} UnsettledAppend(jobs: seq<Job>, lines: seq<string>)
    ensures Unsettled(jobs + NewJobs(lines)) == Unsettled(jobs) + |lines|
  {
    if lines == [] {
      assert jobs + NewJobs(lines) == jobs;
    } else {
      var n := |lines| - 1;
      assert (jobs + NewJobs(lines))[..|jobs| + n] == jobs + NewJobs(lines[..n]);
      UnsettledAppend(jobs, lines[..n]);
    }
  }

  lemma {:induction false} UnsettledUpdate(jobs: seq<Job>, k: nat, job: Job)
    requires k < |jobs|
    ensures Unsettled(jobs[k := job]) ==
            Unsettled(jobs) - (if jobs[k].Settled? then 0 else 1) + if job.Settled? then 0 else 1
  {
    var n := |jobs| - 1;
    if k == n {
      assert jobs[k := job][..n] == jobs[..n];
    } else {
      assert jobs[k := job][..n] == jobs[..n][k := job];
      UnsettledUpdate(jobs[..n], k, job);
    }
  }

  lemma {:induction false} AllSettledIff(jobs: seq<Job>)
    ensures Unsettled(jobs) == 0 <==> forall k :: 0 <= k < |jobs| ==> jobs[k].Settled?
  {
    if jobs != [] {
      AllSettledIff(jobs[..|jobs| - 1]);
    }
  }

  lemma {:induction false} OutputAppend(output: seq<Sent>, job: nat, messages: seq<Message>, k: nat)
    ensures OutputOf(output + Tagged(job, messages), k) == OutputOf(output, k) + if k == job then messages else []
  {
    if messages == [] {
      assert output + Tagged(job, messages) == output;
    } else {
      var n := |messages| - 1;
      assert (output + Tagged(job, messages))[..|output| + n] == output + Tagged(job, messages[..n]);
      OutputAppend(output, job, messages[..n], k);
      assert messages == messages[..n] + [messages[n]];
    }
  }

  lemma {:induction false} NoOutputBeyond(output: seq<Sent>, k: nat)
    requires forall i :: 0 <= i < |output| ==> output[i].job < k
    ensures OutputOf(output, k) == []
  {
    if output != [] { NoOutputBeyond(output[..|output| - 1], k); }
  }

  /** Jobs that owe nothing are added. */
  lemma DeliveredMore(output: seq<Sent>, owed: seq<seq<Message>>, more: seq<seq<Message>>)
    requires Delivered(output, owed) && forall k :: 0 <= k < |more| ==> more[k] == []
    ensures Delivered(output, owed + more)
  {
    forall k | 0 <= k < |owed + more| ensures OutputOf(output, k) == (owed + more)[k] {
      if k >= |owed| { NoOutputBeyond(output, k); }
    }
  }

  /** A job that owed nothing so far owes and writes `messages`. */
  lemma DeliveredAnswer(output: seq<Sent>, owed: seq<seq<Message>>, job: nat, messages: seq<Message>)
    requires Delivered(output, owed) && job < |owed| && owed[job] == []
    ensures Delivered(output + Tagged(job, messages), owed[job := messages])
  {
    forall k | 0 <= k < |owed| ensures OutputOf(output + Tagged(job, messages), k) == owed[job := messages][k] {
      OutputAppend(output, job, messages, k);
      if k == job { assert [] + messages == messages; } else { assert owed[k] + [] == owed[k]; }
    }
  }

  lemma NewJobsOwe(jobs: seq<Job>, lines: seq<string>, info: Info)
    ensures AllOwed(jobs + NewJobs(lines), info) == AllOwed(jobs, info) + AllOwed(NewJobs(lines), info)
    ensures forall k :: 0 <= k < |lines| ==> AllOwed(NewJobs(lines), info)[k] == []
  {
  }

  lemma UpdatedJobOwes(jobs: seq<Job>, k: nat, job: Job, info: Info)
    requires k < |jobs|
    ensures AllOwed(jobs[k := job], info) == AllOwed(jobs, info)[k := Owed(job, info)]
  {
  }

  lemma JobsAreMore(jobs: seq<Job>, lines: seq<string>, more: seq<string>)
    requires JobsAre(jobs, lines)
    ensures JobsAre(jobs + NewJobs(more), lines + more)
  {
  }

  lemma DataKeepsInv(s: State, stream: string, chunk: string, info: Info)
    requires Inv(s, stream, info) && Enabled(s, Data(chunk))
    ensures Inv(Step(s, Data(chunk), info), stream + chunk, info)
  {
    var lines := Lines(s.buffer + chunk);
    LinesResume(stream, chunk);
    UnsettledAppend(s.jobs, lines);
    JobsAreMore(s.jobs, Lines(stream), lines);
    NewJobsOwe(s.jobs, lines, info);
    DeliveredMore(s.output, AllOwed(s.jobs, info), AllOwed(NewJobs(lines), info));
  }

  /** A waiting job, which owes nothing, is answered with `messages`. */
  lemma MovedJobKeepsInv(s: State, stream: string, k: nat, job: Job, messages: seq<Message>, info: Info)
    requires Inv(s, stream, info) && !s.exited && k < |s.jobs|
    requires s.jobs[k].Waiting? && job.Answered? && job.line == s.jobs[k].line
    requires AllOwed(s.jobs, info)[k] == []
    requires AllOwed(s.jobs[k := job], info) == AllOwed(s.jobs, info)[k := messages]
    ensures Inv(s.(jobs := s.jobs[k := job], output := s.output + Tagged(k, messages)), stream, info)
  {
    UnsettledUpdate(s.jobs, k, job);
    DeliveredAnswer(s.output, AllOwed(s.jobs, info), k, messages);
  }

  lemma AnswerKeepsInv(s: State, stream: string, k: nat, parsed: Option<Json>, ran: Outcome, info: Info)
    requires Inv(s, stream, info) && Enabled(s, Answer(k, parsed, ran))
    ensures Inv(Step(s, Answer(k, parsed, ran), info), stream, info)
  {
    var job := Answered(s.jobs[k].line, parsed, ran);
    UpdatedJobOwes(s.jobs, k, job, info);
    MovedJobKeepsInv(s, stream, k, job, Owed(job, info), info);
  }

  lemma SettleKeepsInv(s: State, stream: string, k: nat, info: Info)
    requires Inv(s, stream, info) && Enabled(s, Settle(k))
    ensures Inv(Step(s, Settle(k), info), stream, info)
  {
    var job := Settled(s.jobs[k].line, s.jobs[k].parsed, s.jobs[k].ran);
    UnsettledUpdate(s.jobs, k, job);
    UpdatedJobOwes(s.jobs, k, job, info);
    assert AllOwed(s.jobs, info)[k := Owed(job, info)] == AllOwed(s.jobs, info);
  }

  lemma StepKeepsInv(s: State, stream: string, e: Event, info: Info)
    requires Inv(s, stream, info)
    ensures Inv(Step(s, e, info), stream + if e.Data? && Enabled(s, e) then e.chunk else "", info)
  {
    assert stream + "" == stream;
    if Enabled(s, e) {
      match e
      case Data(chunk) => DataKeepsInv(s, stream, chunk, info);
      case End =>
      case Answer(k, parsed, ran) => AnswerKeepsInv(s, stream, k, parsed, ran, info);
      case Settle(k) => SettleKeepsInv(s, stream, k, info);
    }
  }

  lemma {:induction false} RunKeepsInv(events: seq<Event>, info: Info)
    ensures Inv(Run(events, info), Input(events, info), info)
  {
    if events == [] {
      assert IndexOf("", NEWLINE) == 0;
    } else {
      var n := |events| - 1;
      RunKeepsInv(events[..n], info);
      StepKeepsInv(Run(events[..n], info), Input(events[..n], info), events[n], info);
    }
  }

  /**
    In every run the jobs are exactly the nonblank lines of the input, in order, however it was
    chunked; the counter counts those not settled; and the process has exited exactly when stdin has
    ended and every line has settled.
   */
  lemma ExitsExactlyWhenDrained(events: seq<Event>, info: Info)
    ensures var s, lines := Run(events, info), Lines(Input(events, info));
            && |s.jobs| == |lines| && (forall k :: 0 <= k < |lines| ==> s.jobs[k].line == lines[k])
            && s.buffer == Rest(Input(events, info)) && s.pending == Unsettled(s.jobs)
            && (s.exited <==> s.ended && forall k :: 0 <= k < |s.jobs| ==> s.jobs[k].Settled?)
  {
    RunKeepsInv(events, info);
    AllSettledIff(Run(events, info).jobs);
  }

  /**
    At exit every nonblank line of the whole input has exactly its own answer on stdout, one message
    or, for a notification, none, and nothing else was written. An unfinished last line is lost.
   */
  lemma ExitLeavesNothingUnanswered(events: seq<Event>, info: Info)
    requires Run(events, info).exited
    ensures var s, lines := Run(events, info), Lines(Input(events, info));
            && |s.jobs| == |lines|
            && (forall k :: 0 <= k < |lines| ==>
                 && s.jobs[k].Settled? && s.jobs[k].line == lines[k]
                 && OutputOf(s.output, k) == HandleLine(s.jobs[k].parsed, info, s.jobs[k].ran)
                 && |OutputOf(s.output, k)| ==
                    if s.jobs[k].parsed.Some? && IsNotification(s.jobs[k].parsed.value) then 0 else 1)
            && (forall i :: 0 <= i < |s.output| ==> s.output[i].job < |lines|)
  {
    RunKeepsInv(events, info);
    ExitsExactlyWhenDrained(events, info);
    var s := Run(events, info);
    forall k | 0 <= k < |s.jobs| ensures |HandleLine(s.jobs[k].parsed, info, s.jobs[k].ran)| <= 1 {
      OneReplyPerLine(s.jobs[k].parsed, info, s.jobs[k].ran);
    }
  }

  /** The lines of an input whose end ends its last line. */
  function AllLines(stream: string): seq<string> { Lines(stream + [NEWLINE]) }

  /**
    At exit every nonblank line of the input, the unfinished one included, has been dispatched and answered
    if and only if what follows the last newline is blank; if it is not, exactly that line is missing.
   */
  lemma NoLineLostIff(events: seq<Event>, info: Info)
    requires Run(events, info).exited
    ensures var jobs, stream := Run(events, info).jobs, Input(events, info);
            && (JobsAre(jobs, AllLines(stream)) <==> Trim(Rest(stream)) == "")
            && (Trim(Rest(stream)) != "" ==> AllLines(stream) == Lines(stream) + [Trim(Rest(stream))] && JobsAre(jobs, Lines(stream)))
  {
    RunKeepsInv(events, info);
    LinesWithLast(Input(events, info));
  }

  lemma InputSnoc(events: seq<Event>, e: Event, info: Info)
    ensures Input(events + [e], info) ==
            Input(events, info) + if e.Data? && Enabled(Run(events, info), e) then e.chunk else ""
    ensures Run(events + [e], info) == Step(Run(events, info), e, info)
  {
    assert (events + [e])[..|events|] == events;
    FoldSnoc((s, e) => Step(s, e, info), START, events, e);
  }

  /** One chunk without a newline, then the end of stdin: nothing is dispatched and the process exits. */
  lemma UnfinishedLineOnly(chunk: string, info: Info)
    requires NewlineFree(chunk)
    ensures var s := Run([Data(chunk)] + [End], info);
            s.exited && s.jobs == [] && Input([Data(chunk)] + [End], info) == chunk
  {
    InputSnoc([], Data(chunk), info);
    InputSnoc([Data(chunk)], End, info);
    assert [] + [Data(chunk)] == [Data(chunk)] && "" + chunk == chunk && chunk + "" == chunk;
    assert IndexOf(chunk, NEWLINE) == |chunk|;
    LinesPop(chunk);
    assert Run([Data(chunk)], info).jobs == [] + NewJobs([]);
  }

  /** It happens: "x" without a newline is never dispatched. */
  lemma LastLineLost(info: Info)
    ensures var events := [Data("x")] + [End];
            Run(events, info).exited && Run(events, info).jobs == [] && AllLines(Input(events, info)) == ["x"]
  {
    UnfinishedLineOnly("x", info);
    NoLineLostIff([Data("x")] + [End], info);
    assert IndexOf("x", NEWLINE) == 1 && Rest("x") == "x" && Lines("x") == [];
    assert TrimStart("x") == "x" && Trim("x") == "x";
  }
}
