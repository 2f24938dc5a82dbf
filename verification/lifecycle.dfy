/** The output-forwarding and shutdown protocol of a running model
    (yggdrasil/drivers/ModelDriver.py): a drainer moves the lines the model
    prints into a queue and ends it with the `EXIT` sentinel; the driver's
    loop forwards queued lines until it pops the sentinel; `kill_process`
    stops the process once.

    Threads, timeouts and sleeping are not modelled: each step is a pure
    transition on a record of flags, and the facts only the operating
    system knows (what a read returns, whether a killed process is reaped,
    whether the drainer outlives its wait) are parameters. */
module Lifecycle {
  import opened Base

  /** A queue entry. The sentinel is the bytes `b'EXIT'` while forwarded
      lines are decoded text, so no printed line can be mistaken for it. */
  datatype Line = Text(text: string) | Exit

  /** What one `stdout.readline()` gives the drainer: a non-empty line that
      does or does not decode as UTF-8, end of file, or an exception. */
  datatype Read = Got(decoded: Option<string>) | Eof | ReadFailed

  datatype State = State(
    queue: seq<Line>,
    drainBreak: bool,       // the drainer thread's break flag
    loopBreak: bool,        // the driver's own break flag
    started: bool,          // was_started
    processDone: bool,      // poll() has returned a code
    hasDrainer: bool,       // a queue thread was created
    killCalled: bool,       // event_process_kill_called
    killComplete: bool,     // event_process_kill_complete
    stdoutClosed: bool,
    forwarded: seq<string>, // what has been printed on the model's behalf
    forcedKills: nat)       // calls of model_process.kill()

  /** A driver whose process has just been started: nothing queued, no flag
      set. */
  function Started(hasDrainer: bool): State {
    State([], false, false, true, false, hasDrainer, false, false, false, [], 0)
  }

  /** `model_process_complete`: true when no process was ever started. */
  predicate ProcessComplete(st: State) {
    !st.started || st.processDone
  }

  // ---------------------------------------------------------------------
  // enqueue_output_loop
  // ---------------------------------------------------------------------

  predicate Terminal(r: Read) {
    r.Eof? || r.ReadFailed?
  }

  /** One pass of `enqueue_output_loop`: an empty or failed read queues the
      sentinel, sets the drainer's break flag and closes the stream; a line
      that decodes is queued; one that does not is dropped with a warning. */
  function Drain(st: State, r: Read): (st': State)
    ensures Terminal(r) ==> st'.drainBreak && st'.queue == st.queue + [Exit]
    ensures r.Got? && r.decoded.Some? ==> st' == st.(queue := st.queue + [Text(r.decoded.value)])
    ensures r.Got? && r.decoded.None? ==> st' == st
    ensures st'.loopBreak == st.loopBreak && st'.forwarded == st.forwarded && st'.killCalled == st.killCalled
  {
    match r
    case Got(decoded) =>
      if decoded.Some? then st.(queue := st.queue + [Text(decoded.value)]) else st
    case _ =>
      st.(drainBreak := true, queue := st.queue + [Exit], stdoutClosed := true)
  }

  /** The drainer thread: `Drain` repeated over the outs until its break
      flag is set. */
  function DrainLoop(st: State, outs: seq<Read>): State
    decreases |outs|
  {
    if st.drainBreak || |outs| == 0 then st
    else DrainLoop(Drain(st, outs[0]), outs[1..])
  }

  predicate EndsStream(outs: seq<Read>) {
    exists i :: 0 <= i < |outs| && Terminal(outs[i])
  }

  /** The lines a reader sees before the stream ends: every decodable line
      up to the first empty or failed read. */
  function Received(outs: seq<Read>): seq<string>
    decreases |outs|
  {
    if |outs| == 0 || Terminal(outs[0]) then []
    else if outs[0].decoded.Some? then [outs[0].decoded.value] + Received(outs[1..])
    else Received(outs[1..])
  }

  function AsText(lines: seq<string>): (q: seq<Line>)
    ensures |q| == |lines|
  {
    if |lines| == 0 then [] else [Text(lines[0])] + AsText(lines[1..])
  }

  /** The drainer queues exactly the received lines, in order, followed by
      one sentinel, and then stops. */
  lemma {:induction false} DrainQueuesReceived(st: State, outs: seq<Read>)
    requires !st.drainBreak
    requires EndsStream(outs)
    ensures DrainLoop(st, outs).drainBreak
    ensures DrainLoop(st, outs).queue == st.queue + AsText(Received(outs)) + [Exit]
    ensures DrainLoop(st, outs).forwarded == st.forwarded
    ensures DrainLoop(st, outs).loopBreak == st.loopBreak
    decreases |outs|
  {
    if Terminal(outs[0]) {
      assert Received(outs) == [];
      assert st.queue + AsText([]) == st.queue;
    } else {
      var i :| 0 <= i < |outs| && Terminal(outs[i]);
      assert Terminal(outs[1..][i - 1]);
      var st1 := Drain(st, outs[0]);
      DrainQueuesReceived(st1, outs[1..]);
      DrainLineStep(st, outs);
    }
  }

  /** One line that is not the end of the stream adds its text, if any, to
      what is queued. */
  lemma DrainLineStep(st: State, outs: seq<Read>)
    requires |outs| > 0 && !Terminal(outs[0])
    ensures Drain(st, outs[0]).queue + AsText(Received(outs[1..])) == st.queue + AsText(Received(outs))
  {
    if outs[0].decoded.Some? {
      QueuedLineStep(st.queue, outs);
    } else {
      assert Received(outs) == Received(outs[1..]);
    }
  }

  lemma QueuedLineStep(queue: seq<Line>, outs: seq<Read>)
    requires |outs| > 0 && outs[0].Got? && outs[0].decoded.Some?
    ensures queue + [Text(outs[0].decoded.value)] + AsText(Received(outs[1..])) == queue + AsText(Received(outs))
  {
    var line := [Text(outs[0].decoded.value)];
    var rest := AsText(Received(outs[1..]));
    ReceivedOfLine(outs);
    assert queue + line + rest == queue + (line + rest);
  }

  lemma ReceivedOfLine(outs: seq<Read>)
    requires |outs| > 0 && outs[0].Got? && outs[0].decoded.Some?
    ensures AsText(Received(outs)) == [Text(outs[0].decoded.value)] + AsText(Received(outs[1..]))
  {
    var s := outs[0].decoded.value;
    var rest := Received(outs[1..]);
    assert Received(outs) == [s] + rest;
    assert ([s] + rest)[1..] == rest;
  }

  // ---------------------------------------------------------------------
  // run_loop
  // ---------------------------------------------------------------------

  /** One pass of `run_loop`: with nothing queued the driver only sleeps;
      popping the sentinel sets its break flag; any other line is
      forwarded. */
  function RunStep(st: State): (st': State)
    ensures |st.queue| == 0 ==> st' == st
    ensures |st.queue| > 0 ==> st'.queue == st.queue[1..]
    ensures |st.queue| > 0 && st.queue[0] == Exit ==> st'.loopBreak && st'.forwarded == st.forwarded
    ensures |st.queue| > 0 && st.queue[0].Text? ==>
      st'.forwarded == st.forwarded + [st.queue[0].text] && st'.loopBreak == st.loopBreak
    ensures st'.drainBreak == st.drainBreak && st'.killCalled == st.killCalled
  {
    if |st.queue| == 0 then st
    else
      match st.queue[0]
      case Exit => st.(queue := st.queue[1..], loopBreak := true)
      case Text(s) => st.(queue := st.queue[1..], forwarded := st.forwarded + [s])
  }

  /** The driver's loop: `RunStep` until its break flag is set. It stops
      too when the queue is empty, where the driver would sleep and wait
      for the drainer. */
  function RunLoop(st: State): State
    decreases |st.queue|
  {
    if st.loopBreak || |st.queue| == 0 then st
    else RunLoop(RunStep(st))
  }

  /** Fed the queued lines and then the sentinel, the loop forwards exactly
      those lines, in order, consumes the sentinel and sets its flag. */
  lemma {:induction false} RunForwardsUntilExit(st: State, lines: seq<string>, rest: seq<Line>)
    requires !st.loopBreak
    requires st.queue == AsText(lines) + [Exit] + rest
    ensures RunLoop(st).loopBreak
    ensures RunLoop(st).forwarded == st.forwarded + lines
    ensures RunLoop(st).queue == rest
    ensures RunLoop(st).drainBreak == st.drainBreak
    decreases |lines|
  {
    var st1 := RunStep(st);
    if |lines| == 0 {
      assert st.queue[0] == Exit;
      assert st1.queue == rest;
      assert st.forwarded + lines == st.forwarded;
    } else {
      assert st.queue[0] == Text(lines[0]);
      assert st1.queue == AsText(lines[1..]) + [Exit] + rest by {
        assert AsText(lines) == [Text(lines[0])] + AsText(lines[1..]);
      }
      RunForwardsUntilExit(st1, lines[1..], rest);
      assert st.forwarded + [lines[0]] + lines[1..] == st.forwarded + lines;
    }
  }

  /** End to end: a freshly started driver whose model's output ends
      forwards every received line, in order, and nothing else, after which
      both break flags are set and the queue is empty. */
  lemma ForwardsEverythingReceived(hasDrainer: bool, outs: seq<Read>)
    requires EndsStream(outs)
    ensures var st := RunLoop(DrainLoop(Started(hasDrainer), outs));
      st.forwarded == Received(outs) && st.loopBreak && st.drainBreak && st.queue == []
  {
    var st0 := Started(hasDrainer);
    DrainQueuesReceived(st0, outs);
    var st1 := DrainLoop(st0, outs);
    assert st1.queue == AsText(Received(outs)) + [Exit] + [];
    RunForwardsUntilExit(st1, Received(outs), []);
  }

  // ---------------------------------------------------------------------
  // kill_process
  // ---------------------------------------------------------------------

  /** What the operating system decides during a kill: whether the process
      has exited once the kill and the wait are over, and whether the
      drainer thread is still alive after its grace wait. */
  datatype KillFacts = KillFacts(reaped: bool, drainerLingers: bool)

  /** A call's effect: the state afterwards and the exception, if any,
      that the call raised after making its changes. */
  datatype Step = Step(after: State, raised: Option<PyError>)

  /** `kill_process()`. A driver that never started only records that the
      kill happened. A second call on a started driver returns at once.
      Otherwise the call is recorded, a running process is killed and, if
      it has still not exited, the source's assert fails with the call
      already recorded. Then the kill is recorded complete, and a drainer
      that is still alive is told to stop with the stream closed under
      it. */
  function Kill(st: State, facts: KillFacts): (r: Step)
    ensures st.started && st.killCalled ==> r == Step(st, None)
    ensures r.after.killCalled
    ensures r.raised.Some? <==> st.started && !st.killCalled && !st.processDone && !facts.reaped
    ensures r.raised.Some? ==> r.raised.value == AssertionError("") && r.after.killComplete == st.killComplete
    ensures !st.killCalled && r.raised.None? ==> r.after.killComplete && ProcessComplete(r.after)
    ensures r.after.forcedKills == (if st.started && !st.killCalled && !st.processDone then st.forcedKills + 1 else st.forcedKills)
    ensures r.after.forwarded == st.forwarded && r.after.queue == st.queue
  {
    var st0 := if !st.started then st.(loopBreak := true, killCalled := true, killComplete := true) else st;
    if st0.killCalled then Step(st0, None)
    else
      var st1 := st0.(killCalled := true);
      var st2 := if !ProcessComplete(st1) then st1.(forcedKills := st1.forcedKills + 1, processDone := facts.reaped) else st1;
      if !ProcessComplete(st2) then Step(st2, Some(AssertionError("")))
      else
        var st3 := st2.(killComplete := true);
        if st3.hasDrainer && facts.drainerLingers then Step(st3.(drainBreak := true, stdoutClosed := true), None)
        else Step(st3, None)
  }

  /** Calling `kill_process` again changes nothing and raises nothing,
      whatever the system does the second time, even when the first call
      raised. */
  lemma KillIdempotent(st: State, facts: KillFacts, later: KillFacts)
    ensures Kill(Kill(st, facts).after, later) == Step(Kill(st, facts).after, None)
  {
  }

  /** The state after a sequence of kill calls, each made whether or not an
      earlier one raised. */
  function KillRepeatedly(st: State, facts: seq<KillFacts>): State
    decreases |facts|
  {
    if |facts| == 0 then st
    else KillRepeatedly(Kill(st, facts[0]).after, facts[1..])
  }

  /** Any number of kill calls force-kill the process at most once, and
      once a call has been recorded on a started driver nothing more
      changes. */
  lemma {:induction false} AtMostOneForcedKill(st: State, facts: seq<KillFacts>)
    ensures KillRepeatedly(st, facts).forcedKills <= st.forcedKills + 1
    ensures st.started && st.killCalled ==> KillRepeatedly(st, facts) == st
    decreases |facts|
  {
    if |facts| > 0 {
      var st' := Kill(st, facts[0]).after;
      KillStaysPut(st', facts[1..]);
    }
  }

  lemma {:induction false} KillStaysPut(st: State, facts: seq<KillFacts>)
    requires Kill(st, KillFacts(true, false)).after == st
    ensures KillRepeatedly(st, facts) == st
    decreases |facts|
  {
    if |facts| > 0 {
      assert Kill(st, facts[0]).after == st;
      KillStaysPut(st, facts[1..]);
    }
  }

  // ---------------------------------------------------------------------
  // after_loop
  // ---------------------------------------------------------------------

  /** `after_loop()`: when the drainer outlives its join the process is
      killed at once; otherwise the driver first waits for the process
      (`exitsInTime` says whether it exits before the timeout) and then
      kills it. */
  function AfterLoop(st: State, drainerJoined: bool, exitsInTime: bool, facts: KillFacts): (r: Step)
    ensures r.after.killCalled
    ensures !st.killCalled && r.raised.None? ==> r.after.killComplete && ProcessComplete(r.after)
    ensures r.after.forwarded == st.forwarded
  {
    if st.hasDrainer && !drainerJoined then Kill(st, facts)
    else
      var st1 := if st.started && exitsInTime then st.(processDone := true) else st;
      Kill(st1, facts)
  }

  /** A process that exits on its own before the timeout is never
      force-killed and shuts down without error. */
  lemma CleanExitNeedsNoKill(st: State, facts: KillFacts)
    requires !st.killCalled
    ensures AfterLoop(st, true, true, facts).raised.None?
    ensures AfterLoop(st, true, true, facts).after.forcedKills == st.forcedKills
    ensures AfterLoop(st, true, true, facts).after.killComplete
  {
  }
}
