/**
 * `FrameGetter` in birds.py: a background reader that keeps decoding the live
 * feed, retains only the most recently decoded frame, and answers commands it
 * finds on its command queue.
 *
 * The reader process and its caller run concurrently. Here what happens is a
 * trace of events in the order they took effect: the caller putting a command
 * on the command queue, or the reader running one iteration of its loop with
 * the outcome of that iteration's decode. Decoding itself is an input.
 */
module FrameGetting {
  import opened Wrappers
  import opened Sequences

  /** A decoded image. */
  datatype Frame = Frame(pixels: seq<int>)

  /** What one `capture.read()` gave: a frame, `success == False`, or an exception. */
  datatype ReadOutcome = Decoded(frame: Frame) | Failed | Raised

  /** Commands travel as plain strings. */
  type Command = string

  const GetFrameCommand: Command := "get_frame"
  const EndCommand: Command := "end"

  /**
   * The reader: the retained frame, the commands waiting on the command queue,
   * the frames put on the result queue, and whether the loop still runs.
   */
  datatype Reader = Reader(slot: Option<Frame>, commands: seq<Command>,
                           results: seq<Option<Frame>>, running: bool)

  /** What the reader looks like when its loop starts: nothing decoded, nothing queued. */
  function Launched(): (r: Reader)
    ensures r.slot == None && r.commands == [] && r.results == [] && r.running
  {
    Reader(None, [], [], true)
  }

  /** A successful read replaces the retained frame; a failure or an exception keeps it. */
  function Refresh(slot: Option<Frame>, outcome: ReadOutcome): Option<Frame> {
    if outcome.Decoded? then Some(outcome.frame) else slot
  }

  /**
   * One iteration of the loop: read, then take at most one command. "get_frame"
   * puts the retained frame on the result queue, "end" stops the loop, and any
   * other command is dropped. A stopped reader does nothing.
   */
  function Iterate(r: Reader, outcome: ReadOutcome): (r': Reader)
    ensures !r.running ==> r' == r
    ensures r.running ==> r'.slot == Refresh(r.slot, outcome)
    ensures r.running && r.commands != [] ==> r'.commands == r.commands[1..]
    ensures r.running && r.commands == [] ==> r'.commands == []
    ensures r'.running <==> r.running && !(r.commands != [] && r.commands[0] == EndCommand)
    ensures r.results <= r'.results
    ensures |r'.results| == |r.results| + 1 <==>
      r.running && r.commands != [] && r.commands[0] == GetFrameCommand
    ensures |r'.results| <= |r.results| + 1
    ensures |r'.results| == |r.results| + 1 ==> r'.results[|r.results|] == r'.slot
  {
    if !r.running then r
    else
      var slot := Refresh(r.slot, outcome);
      if r.commands == [] then
        r.(slot := slot)
      else
        var cmd, rest := r.commands[0], r.commands[1..];
        if cmd == GetFrameCommand then Reader(slot, rest, r.results + [slot], true)
        else if cmd == EndCommand then Reader(slot, rest, r.results, false)
        else Reader(slot, rest, r.results, true)
  }

  /** One event: the caller puts a command, or the reader runs an iteration. */
  datatype Event = Put(cmd: Command) | Iteration(outcome: ReadOutcome)

  function Apply(r: Reader, e: Event): Reader {
    match e
    case Put(cmd) => r.(commands := r.commands + [cmd])
    case Iteration(outcome) => Iterate(r, outcome)
  }

  /** The reader after a whole trace of events. */
  function Execute(r: Reader, trace: seq<Event>): Reader
    decreases |trace|
  {
    if trace == [] then r else Execute(Apply(r, trace[0]), trace[1..])
  }

  /** The command an event puts, if it is a put. */
  function PutBy(e: Event): seq<Command> {
    if e.Put? then [e.cmd] else []
  }

  /** The read outcome of an event, if it is an iteration. */
  function OutcomeOf(e: Event): seq<ReadOutcome> {
    if e.Iteration? then [e.outcome] else []
  }

  /** The commands the caller put during a trace, in order. */
  function Puts(trace: seq<Event>): seq<Command> {
    if trace == [] then [] else PutBy(trace[0]) + Puts(trace[1..])
  }

  /** The read outcomes of the reader's iterations during a trace, in order. */
  function Outcomes(trace: seq<Event>): seq<ReadOutcome> {
    if trace == [] then [] else OutcomeOf(trace[0]) + Outcomes(trace[1..])
  }

  /** The number of "get_frame" commands in a sequence of commands. */
  function Requests(cmds: seq<Command>): nat {
    if cmds == [] then 0
    else (if cmds[0] == GetFrameCommand then 1 else 0) + Requests(cmds[1..])
  }

  /** Reference definition: the last frame decoded in `outcomes`, or `before` if none was. */
  function LastDecoded(outcomes: seq<ReadOutcome>, before: Option<Frame>): Option<Frame> {
    if outcomes == [] then before
    else if outcomes[|outcomes| - 1].Decoded? then Some(outcomes[|outcomes| - 1].frame)
    else LastDecoded(outcomes[..|outcomes| - 1], before)
  }

  // ---------------------------------------------------------------------------
  // Lemmas about traces
  // ---------------------------------------------------------------------------

  lemma {:induction false} ExecuteAppend(r: Reader, a: seq<Event>, b: seq<Event>)
    ensures Execute(r, a + b) == Execute(Execute(r, a), b)
    decreases |a|
  {
    if a == [] {
      assert a + b == b;
    } else {
      assert (a + b)[0] == a[0] && (a + b)[1..] == a[1..] + b;
      ExecuteAppend(Apply(r, a[0]), a[1..], b);
    }
  }

  /** A stopped reader never runs again: its frame and its answers stay as they are. */
  lemma {:induction false} StoppedStaysStopped(r: Reader, trace: seq<Event>)
    requires !r.running
    ensures var r' := Execute(r, trace);
      !r'.running && r'.slot == r.slot && r'.results == r.results &&
      r'.commands == r.commands + Puts(trace)
    decreases |trace|
  {
    if trace != [] {
      var r1 := Apply(r, trace[0]);
      StoppedStaysStopped(r1, trace[1..]);
      assert r1.commands == r.commands + PutBy(trace[0]);
      SeqAssoc(r.commands, PutBy(trace[0]), Puts(trace[1..]));
    }
  }

  /** A reader running after a trace was running throughout it. */
  lemma {:induction false} RunningAtEnd(r: Reader, trace: seq<Event>)
    requires Execute(r, trace).running
    ensures r.running
    ensures trace != [] ==> Apply(r, trace[0]).running
  {
    if !r.running {
      StoppedStaysStopped(r, trace);
    } else if trace != [] && !Apply(r, trace[0]).running {
      StoppedStaysStopped(Apply(r, trace[0]), trace[1..]);
    }
  }

  lemma {:induction false} LastDecodedAppend(a: seq<ReadOutcome>, b: seq<ReadOutcome>, before: Option<Frame>)
    ensures LastDecoded(a + b, before) == LastDecoded(b, LastDecoded(a, before))
    decreases |b|
  {
    if b == [] {
      assert a + b == a;
    } else {
      var n := |b| - 1;
      assert (a + b)[..|a + b| - 1] == a + b[..n];
      LastDecodedAppend(a, b[..n], before);
    }
  }

  /**
   * While the reader keeps running, its retained frame is the last one decoded
   * during the trace, or the one it held before if no read succeeded.
   */
  lemma {:induction false} SlotIsLastDecoded(r: Reader, trace: seq<Event>)
    requires Execute(r, trace).running
    ensures Execute(r, trace).slot == LastDecoded(Outcomes(trace), r.slot)
    decreases |trace|
  {
    RunningAtEnd(r, trace);
    if trace != [] {
      var r1 := Apply(r, trace[0]);
      SlotIsLastDecoded(r1, trace[1..]);
      var first := OutcomeOf(trace[0]);
      LastDecodedAppend(first, Outcomes(trace[1..]), r.slot);
      if trace[0].Iteration? {
        assert first[..0] == [];
      }
    }
  }

  /**
   * Until a frame is decoded, every "get_frame" is answered with `None`
   * (nothing is answered with a frame from before).
   */
  lemma {:induction false} NothingBeforeFirstDecode(r: Reader, trace: seq<Event>)
    requires r.slot == None
    requires forall i :: 0 <= i < |trace| ==> !(trace[i].Iteration? && trace[i].outcome.Decoded?)
    ensures var r' := Execute(r, trace);
      r'.slot == None && r.results <= r'.results &&
      forall i :: |r.results| <= i < |r'.results| ==> r'.results[i] == None
    decreases |trace|
  {
    if trace != [] {
      var r1 := Apply(r, trace[0]);
      NothingBeforeFirstDecode(r1, trace[1..]);
    }
  }

  lemma {:induction false} RequestsAppend(a: seq<Command>, b: seq<Command>)
    ensures Requests(a + b) == Requests(a) + Requests(b)
    decreases |a|
  {
    if a == [] {
      assert a + b == b;
    } else {
      assert (a + b)[0] == a[0] && (a + b)[1..] == a[1..] + b;
      RequestsAppend(a[1..], b);
    }
  }

  /** The commands one event takes off the front of the command queue: none or the first. */
  function Taken(r: Reader, e: Event): seq<Command> {
    if e.Iteration? && r.running && r.commands != [] then [r.commands[0]] else []
  }

  lemma OneEventTakes(r: Reader, e: Event)
    ensures var r1 := Apply(r, e);
      r.commands + PutBy(e) == Taken(r, e) + r1.commands &&
      |r1.results| == |r.results| + Requests(Taken(r, e)) &&
      r.results <= r1.results &&
      |Taken(r, e)| <= |OutcomeOf(e)|
  {
    if e.Iteration? && r.running && r.commands != [] {
      assert r.commands == [r.commands[0]] + r.commands[1..];
      assert [r.commands[0]][1..] == [];
    }
  }

  /**
   * Commands are taken strictly in order: what is still queued after a trace is
   * a suffix of what was queued before followed by what was put during it. No
   * iteration takes more than one command, and exactly one answer is put on the
   * result queue per "get_frame" taken, none otherwise.
   */
  lemma {:induction false} AnswersMatchRequests(r: Reader, trace: seq<Event>)
    ensures var all := r.commands + Puts(trace);
      var r' := Execute(r, trace);
      var taken := |all| - |r'.commands|;
      0 <= taken <= |Outcomes(trace)| &&
      r'.commands == all[taken..] &&
      r.results <= r'.results &&
      |r'.results| == |r.results| + Requests(all[..taken])
    decreases |trace|
  {
    var all := r.commands + Puts(trace);
    if trace == [] {
      assert all[..0] == [];
    } else {
      var e := trace[0];
      var r1 := Apply(r, e);
      AnswersMatchRequests(r1, trace[1..]);
      OneEventTakes(r, e);
      var all1 := r1.commands + Puts(trace[1..]);
      var r' := Execute(r1, trace[1..]);
      var taken1 := |all1| - |r'.commands|;
      var head := Taken(r, e);
      assert all == head + all1 by {
        SeqAssoc(r.commands, PutBy(e), Puts(trace[1..]));
        SeqAssoc(head, r1.commands, Puts(trace[1..]));
      }
      PrefixShift(head, all1, taken1);
      RequestsAppend(head, all1[..taken1]);
    }
  }

  /**
   * The request/response protocol of `get_frame`: with nothing else queued, a
   * "get_frame" followed by one iteration is answered with exactly the frame
   * that iteration leaves retained.
   */
  lemma GetFrameAnswersRetainedFrame(r: Reader, outcome: ReadOutcome)
    requires r.running && r.commands == []
    ensures var r' := Execute(r, [Put(GetFrameCommand), Iteration(outcome)]);
      r'.results == r.results + [Refresh(r.slot, outcome)] && r'.commands == [] && r'.running
  {
    var t := [Put(GetFrameCommand), Iteration(outcome)];
    var r1 := Apply(r, Put(GetFrameCommand));
    assert t[1..] == [Iteration(outcome)];
    assert Execute(r, t) == Execute(r1, [Iteration(outcome)]);
    assert [Iteration(outcome)][1..] == [];
    assert Execute(r1, [Iteration(outcome)]) == Iterate(r1, outcome);
  }

  /** After "end" is taken the reader puts nothing more on the result queue. */
  lemma EndStopsAnswers(r: Reader, outcome: ReadOutcome, trace: seq<Event>)
    requires r.running && r.commands != [] && r.commands[0] == EndCommand
    ensures var r' := Execute(Iterate(r, outcome), trace);
      !r'.running && r'.results == r.results
  {
    StoppedStaysStopped(Iterate(r, outcome), trace);
  }

  // ---------------------------------------------------------------------------
  // The FrameGetter object
  // ---------------------------------------------------------------------------

  /**
   * A frame getter with its two queues. The retained frame is local to the
   * reader process in the original; it is a field here so that the reader's
   * state is one object.
   */
  class FrameGetter {
    var slot: Option<Frame>
    var commandQ: seq<Command>
    var resultQ: seq<Option<Frame>>
    var running: bool

    function State(): Reader
      reads this
    {
      Reader(slot, commandQ, resultQ, running)
    }

    /** Creates the queues and starts the reader, which has decoded nothing yet. */
    constructor ()
      ensures State() == Launched()
    {
      slot, commandQ, resultQ, running := None, [], [], true;
    }

    /** `end`: asks the reader to stop by queueing "end". */
    method End()
      modifies this
      ensures State() == Apply(old(State()), Put(EndCommand))
    {
      commandQ := commandQ + [EndCommand];
    }

    /** `_capturing`: the reader's loop over the outcomes of its reads, until "end". */
    method Capture(outcomes: seq<ReadOutcome>)
      modifies this
      ensures State() == Execute(old(State()), IterationsOf(outcomes))
    {
      var i := 0;
      while i < |outcomes| && running
        invariant 0 <= i <= |outcomes|
        invariant State() == Execute(old(State()), IterationsOf(outcomes[..i]))
      {
        var success := outcomes[i].Decoded?;
        if success {
          slot := Some(outcomes[i].frame);
        }
        if commandQ != [] {
          var cmd := commandQ[0];
          commandQ := commandQ[1..];
          if cmd == GetFrameCommand {
            resultQ := resultQ + [slot];
          } else if cmd == EndCommand {
            running := false;
          }
        }
        IterationsAppendOne(outcomes, i);
        ExecuteAppend(old(State()), IterationsOf(outcomes[..i]), [Iteration(outcomes[i])]);
        i := i + 1;
      }
      IterationsSplit(outcomes, i);
      ExecuteAppend(old(State()), IterationsOf(outcomes[..i]), IterationsOf(outcomes[i..]));
      if !running {
        StoppedStaysStopped(State(), IterationsOf(outcomes[i..]));
        PutsOfIterations(outcomes[i..]);
      } else {
        assert outcomes[i..] == [];
      }
    }

    /**
     * `get_frame`: queues "get_frame" and takes the answer. With no other
     * command outstanding (one request at a time, never after "end"), the
     * reader answers in its next iteration, given here by that iteration's
     * read outcome, with the frame it then retains.
     */
    method GetFrame(outcome: ReadOutcome) returns (frame: Option<Frame>)
      requires running && commandQ == [] && resultQ == []
      modifies this
      ensures frame == Refresh(old(slot), outcome)
      ensures var r := Execute(old(State()), [Put(GetFrameCommand), Iteration(outcome)]);
        State() == r.(results := [])
    {
      commandQ := commandQ + [GetFrameCommand];
      Capture([outcome]);
      GetFrameAnswersRetainedFrame(old(State()), outcome);
      assert IterationsOf([outcome]) == [Iteration(outcome)];
      frame := resultQ[0];
      resultQ := resultQ[1..];
    }
  }

  /** The events of the reader's iterations with the given read outcomes. */
  function IterationsOf(outcomes: seq<ReadOutcome>): (t: seq<Event>)
    ensures |t| == |outcomes|
    ensures forall i :: 0 <= i < |t| ==> t[i] == Iteration(outcomes[i])
  {
    seq(|outcomes|, i requires 0 <= i < |outcomes| => Iteration(outcomes[i]))
  }

  lemma IterationsAppendOne(outcomes: seq<ReadOutcome>, i: nat)
    requires i < |outcomes|
    ensures IterationsOf(outcomes[..i + 1]) == IterationsOf(outcomes[..i]) + [Iteration(outcomes[i])]
  {
  }

  lemma IterationsSplit(outcomes: seq<ReadOutcome>, i: nat)
    requires i <= |outcomes|
    ensures IterationsOf(outcomes) == IterationsOf(outcomes[..i]) + IterationsOf(outcomes[i..])
  {
  }

  lemma {:induction false} PutsOfIterations(outcomes: seq<ReadOutcome>)
    ensures Puts(IterationsOf(outcomes)) == []
    decreases |outcomes|
  {
    if outcomes != [] {
      PutsOfIterations(outcomes[1..]);
      assert IterationsOf(outcomes)[1..] == IterationsOf(outcomes[1..]);
    }
  }
}
