/**
 * The control loop at the bottom of birds.py. Once a second it advances a
 * counter that cycles through 0..59; on the ticks where the counter is 0 it
 * polls the live stream's id and, when the id changed, ends the current frame
 * getter and starts a new one for a live stream. On every tick with a frame
 * getter it requests a frame, runs the detection gate, and sends a photo when
 * the gate allows it.
 *
 * What the streaming service and the detector report are inputs of each tick;
 * the loop's visible effects are recorded as a log of lifecycle events.
 */
module Controller {
  import opened Wrappers
  import opened Sequences
  import Inferencer

  type StreamId = string

  /** The stream id is polled on one tick out of this many. */
  const PollEvery: nat := 60

  datatype LifecycleEvent =
    | Polled(reply: Option<StreamId>) // get_current_stream_id was called and returned reply
    | Started(id: StreamId)          // a FrameGetter was created when the stream id became id
    | Ended                          // end() was called on the FrameGetter
    | FrameRequested                 // get_frame() was called
    | PhotoSent(delta: int)          // a photo went out, delta seconds after the previous detection

  /**
   * What the outside world supplies to one tick: the id the streaming service
   * would return if polled, the detector's labels for the requested frame, and
   * the two clock reads of check_for_bird.
   */
  datatype TickInput = TickInput(polled: Option<StreamId>, labels: seq<string>, now1: int, now2: int)

  /** `current_stream_id` and whether a frame getter exists. */
  datatype StreamState = StreamState(currentStreamId: Option<StreamId>, hasGetter: bool)

  /** The loop's state: the stream state, the counter `c`, and the gate's detection time. */
  datatype Control = Control(stream: StreamState, c: nat, lastDetectionTime: int)

  /** The stream state after a poll, with the lifecycle events the poll caused. */
  datatype Reconciled = Reconciled(next: StreamState, events: seq<LifecycleEvent>)

  /** The loop's state after a tick, with the events the tick logged. */
  datatype Transition = Transition(next: Control, events: seq<LifecycleEvent>)

  /** A frame getter exists exactly while the stream id is not `None`. */
  predicate GetterMatchesStream(st: StreamState) {
    st.hasGetter <==> st.currentStreamId.Some?
  }

  /** The counter stays below 60, and the getter matches the stream id. */
  predicate Inv(s: Control) {
    s.c < PollEvery && GetterMatchesStream(s.stream)
  }

  /** The state before the first tick. */
  function Initial(startTime: int): (s: Control)
    ensures Inv(s) && !s.stream.hasGetter && s.stream.currentStreamId == None
  {
    Control(StreamState(None, false), 0, startTime)
  }

  /**
   * Reacting to a polled id: on a change, end the old getter, then start one if
   * the new id is not `None`; on no change, do nothing.
   */
  function Reconcile(st: StreamState, newId: Option<StreamId>): (r: Reconciled)
    ensures newId == st.currentStreamId ==> r.next == st && r.events == []
    ensures r.next.currentStreamId == newId
    ensures newId != st.currentStreamId ==> r.next.hasGetter == newId.Some?
    ensures newId != st.currentStreamId ==>
      r.events == (if st.hasGetter then [Ended] else []) + (if newId.Some? then [Started(newId.value)] else [])
    ensures GetterMatchesStream(st) ==> GetterMatchesStream(r.next)
  {
    if newId == st.currentStreamId then Reconciled(st, [])
    else
      var ended := if st.hasGetter then [Ended] else [];
      var started := if newId.Some? then [Started(newId.value)] else [];
      Reconciled(StreamState(newId, newId.Some?), ended + started)
  }

  /** Requesting a frame and running the gate, when a getter exists. */
  function Inspect(s: Control, input: TickInput): Transition {
    if !s.stream.hasGetter then Transition(s, [])
    else
      var checked := Inferencer.Check(s.lastDetectionTime, input.labels, input.now1, input.now2);
      var sent := if Inferencer.ShouldNotify(checked.detection)
                  then [PhotoSent(checked.detection.delta.value)] else [];
      Transition(s.(lastDetectionTime := checked.lastDetectionTime), [FrameRequested] + sent)
  }

  /** The events and stream state of the `if c == 0` block. */
  function PollBlock(s: Control, input: TickInput): Reconciled {
    if s.c == 0 then
      var r := Reconcile(s.stream, input.polled);
      Reconciled(r.next, [Polled(input.polled)] + r.events)
    else
      Reconciled(s.stream, [])
  }

  /** One iteration of the loop. */
  function Step(s: Control, input: TickInput): (r: Transition)
    ensures r.next.c == (s.c + 1) % PollEvery
    ensures Inv(s) ==> Inv(r.next)
    ensures (|r.events| > 0 && r.events[0] == Polled(input.polled)) <==> s.c == 0
    ensures s.c != 0 ==> r.next.stream == s.stream
  {
    var polled := PollBlock(s, input);
    var inspected := Inspect(s.(stream := polled.next), input);
    Transition(inspected.next.(c := (s.c + 1) % PollEvery), polled.events + inspected.events)
  }

  /** The loop's state and log after a sequence of ticks. */
  function Run(s: Control, inputs: seq<TickInput>): (r: Transition)
    ensures inputs != [] ==> r.next.c == (s.c + |inputs|) % PollEvery
    decreases |inputs|
  {
    if inputs == [] then Transition(s, [])
    else
      var first := Step(s, inputs[0]);
      var rest := Run(first.next, inputs[1..]);
      Transition(rest.next, first.events + rest.events)
  }

  // ---------------------------------------------------------------------------
  // The loop as an object
  // ---------------------------------------------------------------------------

  class MainLoop {
    var currentStreamId: Option<StreamId>
    var hasGetter: bool
    var c: nat
    var log: seq<LifecycleEvent>
    const inferencer: Inferencer.Inferencer

    function State(): Control
      reads this, inferencer
    {
      Control(StreamState(currentStreamId, hasGetter), c, inferencer.lastDetectionTime)
    }

    constructor (startTime: int)
      ensures State() == Initial(startTime) && log == []
      ensures fresh(inferencer)
    {
      inferencer := new Inferencer.Inferencer(startTime);
      currentStreamId, hasGetter, c, log := None, false, 0, [];
    }

    /** One pass of the `while True` body. */
    method Tick(input: TickInput)
      modifies this, inferencer
      ensures State() == Step(old(State()), input).next
      ensures log == old(log) + Step(old(State()), input).events
    {
      if c == 0 {
        PollStreamId(input.polled);
      }
      InspectFrame(input);
      c := (c + 1) % PollEvery;
    }

    /** The `if c == 0` block: poll the stream id and react to a change. */
    method PollStreamId(newStreamId: Option<StreamId>)
      modifies this
      ensures State() == old(State()).(stream := Reconcile(old(State()).stream, newStreamId).next)
      ensures log == old(log) + [Polled(newStreamId)] + Reconcile(old(State()).stream, newStreamId).events
    {
      log := log + [Polled(newStreamId)];
      if newStreamId != currentStreamId {
        if hasGetter {
          log := log + [Ended];
          hasGetter := false;
        }
        currentStreamId := newStreamId;
        if currentStreamId != None {
          log := log + [Started(currentStreamId.value)];
          hasGetter := true;
        }
      }
    }

    /** The `if frame_getter is not None` block: request a frame, check it, maybe send a photo. */
    method InspectFrame(input: TickInput)
      modifies inferencer, this`log
      ensures State() == Inspect(old(State()), input).next
      ensures log == old(log) + Inspect(old(State()), input).events
    {
      if hasGetter {
        log := log + [FrameRequested];
        var detection := inferencer.CheckForBird(input.labels, input.now1, input.now2);
        if detection.found && detection.delta.value > Inferencer.NotifyAfter {
          log := log + [PhotoSent(detection.delta.value)];
        }
      }
    }

    /** The `while True` loop, run for as many ticks as there are inputs. */
    method Loop(inputs: seq<TickInput>)
      modifies this, inferencer
      ensures State() == Run(old(State()), inputs).next
      ensures log == old(log) + Run(old(State()), inputs).events
    {
      ghost var s0, log0 := State(), log;
      ghost var done := Transition(s0, []);
      var i := 0;
      assert inputs[..0] == [];
      while i < |inputs|
        invariant 0 <= i <= |inputs|
        invariant done == Run(s0, inputs[..i])
        invariant State() == done.next && log == log0 + done.events
      {
        ghost var step := Step(done.next, inputs[i]);
        Tick(inputs[i]);
        ghost var done' := Transition(step.next, done.events + step.events);
        assert done' == Run(s0, inputs[..i + 1]) by {
          RunAppendOne(s0, inputs, i);
        }
        assert log == log0 + done'.events by {
          SeqAssoc(log0, done.events, step.events);
        }
        done := done';
        i := i + 1;
      }
      assert inputs[..i] == inputs;
    }
  }

  lemma {:induction false} RunAppendOne(s: Control, inputs: seq<TickInput>, i: nat)
    requires i < |inputs|
    ensures var before := Run(s, inputs[..i]);
      var step := Step(before.next, inputs[i]);
      Run(s, inputs[..i + 1]) == Transition(step.next, before.events + step.events)
    decreases i
  {
    var first := Step(s, inputs[0]);
    if i > 0 {
      var tail := inputs[1..];
      RunAppendOne(first.next, tail, i - 1);
      assert inputs[..i + 1][1..] == tail[..i];
      assert inputs[..i][1..] == tail[..i - 1];
      assert tail[i - 1] == inputs[i];
      var mid := Run(first.next, tail[..i - 1]);
      var step := Step(mid.next, inputs[i]);
      SeqAssoc(first.events, mid.events, step.events);
    } else {
      assert inputs[..1][1..] == [];
      assert inputs[..0] == [];
    }
  }

  // ---------------------------------------------------------------------------
  // Lemmas about ticks and runs
  // ---------------------------------------------------------------------------

  /** A frame is requested in a tick exactly when a getter exists after the poll. */
  lemma RequestOnlyWithGetter(s: Control, input: TickInput)
    ensures FrameRequested in Step(s, input).events <==> Step(s, input).next.stream.hasGetter
  {
    var polled := PollBlock(s, input);
    assert FrameRequested !in polled.events;
  }

  /** The event itself if it starts or ends a getter. */
  function LifecycleOf(e: LifecycleEvent): seq<LifecycleEvent> {
    if e.Started? || e.Ended? then [e] else []
  }

  /** The reply of a poll event. */
  function ReplyOf(e: LifecycleEvent): seq<Option<StreamId>> {
    if e.Polled? then [e.reply] else []
  }

  /** The lifecycle events of a log: getters started and ended. */
  function Lifecycle(log: seq<LifecycleEvent>): (r: seq<LifecycleEvent>)
    ensures forall e :: e in r ==> e.Started? || e.Ended?
  {
    if log == [] then [] else LifecycleOf(log[0]) + Lifecycle(log[1..])
  }

  /** The replies of the polls recorded in a log, in order. */
  function PolledIds(log: seq<LifecycleEvent>): seq<Option<StreamId>> {
    if log == [] then [] else ReplyOf(log[0]) + PolledIds(log[1..])
  }

  lemma {:induction false} LogAppend(a: seq<LifecycleEvent>, b: seq<LifecycleEvent>)
    ensures Lifecycle(a + b) == Lifecycle(a) + Lifecycle(b)
    ensures PolledIds(a + b) == PolledIds(a) + PolledIds(b)
    decreases |a|
  {
    if a == [] {
      assert a + b == b;
    } else {
      assert (a + b)[0] == a[0] && (a + b)[1..] == a[1..] + b;
      LogAppend(a[1..], b);
      SeqAssoc(LifecycleOf(a[0]), Lifecycle(a[1..]), Lifecycle(b));
      SeqAssoc(ReplyOf(a[0]), PolledIds(a[1..]), PolledIds(b));
    }
  }

  /** The getter lifecycle caused by a sequence of polled ids, taken one poll after another. */
  function PollSequence(st: StreamState, ids: seq<Option<StreamId>>): Reconciled
    decreases |ids|
  {
    if ids == [] then Reconciled(st, [])
    else
      var first := Reconcile(st, ids[0]);
      var rest := PollSequence(first.next, ids[1..]);
      Reconciled(rest.next, first.events + rest.events)
  }

  lemma {:induction false} PollSequenceAppend(st: StreamState, a: seq<Option<StreamId>>, b: seq<Option<StreamId>>)
    ensures var ra := PollSequence(st, a);
      var rb := PollSequence(ra.next, b);
      PollSequence(st, a + b) == Reconciled(rb.next, ra.events + rb.events)
    decreases |a|
  {
    if a == [] {
      assert a + b == b;
    } else {
      assert (a + b)[0] == a[0] && (a + b)[1..] == a[1..] + b;
      var first := Reconcile(st, a[0]);
      PollSequenceAppend(first.next, a[1..], b);
      var ra := PollSequence(first.next, a[1..]);
      SeqAssoc(first.events, ra.events, PollSequence(ra.next, b).events);
    }
  }

  /** The functions over logs, on a log of one event. */
  lemma OneEvent(live: bool, e: LifecycleEvent)
    ensures Lifecycle([e]) == (if e.Started? || e.Ended? then [e] else [])
    ensures PolledIds([e]) == (if e.Polled? then [e.reply] else [])
    ensures WellFormed(live, [e]) == (if e.Started? then !live else if e.Ended? || e.FrameRequested? then live else true)
    ensures LiveAfter(live, [e]) == (if e.Started? then true else if e.Ended? then false else live)
  {
    assert [e][1..] == [];
  }

  /** Requesting a frame and sending a photo leave no lifecycle or poll trace, and need a getter. */
  lemma InspectEvents(s: Control, input: TickInput)
    ensures var events := Inspect(s, input).events;
      Lifecycle(events) == [] && PolledIds(events) == [] &&
      (s.stream.hasGetter ==> WellFormed(true, events) && LiveAfter(true, events))
  {
    var events := Inspect(s, input).events;
    if events != [] {
      var sent := events[1..];
      assert events == [FrameRequested] + sent;
      OneEvent(true, FrameRequested);
      if sent != [] {
        assert sent == [sent[0]] && sent[0].PhotoSent?;
        OneEvent(true, sent[0]);
      } else {
        assert Lifecycle(sent) == [] && PolledIds(sent) == [];
      }
      LogAppend([FrameRequested], sent);
      WellFormedAppend(true, [FrameRequested], sent);
    }
  }

  /** The events of a poll that saw a change: an end if a getter existed, then a start if the id is live. */
  lemma ReconcileEvents(st: StreamState, newId: Option<StreamId>)
    requires newId != st.currentStreamId
    ensures var events := Reconcile(st, newId).events;
      Lifecycle(events) == events && PolledIds(events) == [] &&
      WellFormed(st.hasGetter, events) && LiveAfter(st.hasGetter, events) == newId.Some?
  {
    var ended: seq<LifecycleEvent> := if st.hasGetter then [Ended] else [];
    var started: seq<LifecycleEvent> := if newId.Some? then [Started(newId.value)] else [];
    OneEvent(st.hasGetter, Ended);
    if newId.Some? {
      OneEvent(false, started[0]);
      OneEvent(st.hasGetter, started[0]);
    }
    LogAppend(ended, started);
    WellFormedAppend(st.hasGetter, ended, started);
  }

  /** The events of the `if c == 0` block: one poll reply, then what the poll caused. */
  lemma PollBlockEvents(s: Control, input: TickInput)
    ensures var p := PollBlock(s, input);
      PolledIds(p.events) == (if s.c == 0 then [input.polled] else []) &&
      Lifecycle(p.events) == PollSequence(s.stream, PolledIds(p.events)).events &&
      p.next == PollSequence(s.stream, PolledIds(p.events)).next &&
      WellFormed(s.stream.hasGetter, p.events) && LiveAfter(s.stream.hasGetter, p.events) == p.next.hasGetter
  {
    if s.c == 0 {
      var rec := Reconcile(s.stream, input.polled);
      var e := Polled(input.polled);
      OneEvent(s.stream.hasGetter, e);
      if input.polled != s.stream.currentStreamId {
        ReconcileEvents(s.stream, input.polled);
      }
      LogAppend([e], rec.events);
      WellFormedAppend(s.stream.hasGetter, [e], rec.events);
      assert [input.polled][1..] == [];
    }
  }

  /** What one tick contributes: one poll reply on counter 0, and only that poll's lifecycle events. */
  lemma StepEvents(s: Control, input: TickInput)
    ensures var r := Step(s, input);
      PolledIds(r.events) == (if s.c == 0 then [input.polled] else []) &&
      Lifecycle(r.events) == PollSequence(s.stream, PolledIds(r.events)).events &&
      r.next.stream == PollSequence(s.stream, PolledIds(r.events)).next &&
      WellFormed(s.stream.hasGetter, r.events) && LiveAfter(s.stream.hasGetter, r.events) == r.next.stream.hasGetter
  {
    var polled := PollBlock(s, input);
    var mid := s.(stream := polled.next);
    var inspected := Inspect(mid, input);
    PollBlockEvents(s, input);
    InspectEvents(mid, input);
    LogAppend(polled.events, inspected.events);
    assert inspected.events == [] || mid.stream.hasGetter;
    WellFormedAppend(s.stream.hasGetter, polled.events, inspected.events);
  }

  /**
   * The getter lifecycle of a run of ticks depends on nothing but the ids
   * polled: it is what those polls cause when taken one after another.
   */
  lemma {:induction false} LifecycleFollowsPolls(s: Control, inputs: seq<TickInput>)
    ensures var r := Run(s, inputs);
      Lifecycle(r.events) == PollSequence(s.stream, PolledIds(r.events)).events &&
      r.next.stream == PollSequence(s.stream, PolledIds(r.events)).next
    decreases |inputs|
  {
    if inputs != [] {
      var first := Step(s, inputs[0]);
      var rest := Run(first.next, inputs[1..]);
      StepEvents(s, inputs[0]);
      LifecycleFollowsPolls(first.next, inputs[1..]);
      LogAppend(first.events, rest.events);
      PollSequenceAppend(s.stream, PolledIds(first.events), PolledIds(rest.events));
    }
  }

  /** The ids that would be polled by ticks numbered k, k+1, ...: those whose number is a multiple of 60. */
  function PolledOnMultiples(k: nat, inputs: seq<TickInput>): seq<Option<StreamId>>
    decreases |inputs|
  {
    if inputs == [] then []
    else (if k % PollEvery == 0 then [inputs[0].polled] else []) + PolledOnMultiples(k + 1, inputs[1..])
  }

  /**
   * The stream id is polled on exactly the ticks whose number (counting the
   * initial counter value) is a multiple of 60, and never on the others.
   */
  lemma {:induction false} PollsEverySixtyTicks(s: Control, k: nat, inputs: seq<TickInput>)
    requires s.c == k % PollEvery
    ensures PolledIds(Run(s, inputs).events) == PolledOnMultiples(k, inputs)
    decreases |inputs|
  {
    if inputs != [] {
      var first := Step(s, inputs[0]);
      StepEvents(s, inputs[0]);
      assert first.next.c == (k + 1) % PollEvery;
      PollsEverySixtyTicks(first.next, k + 1, inputs[1..]);
      LogAppend(first.events, Run(first.next, inputs[1..]).events);
    }
  }

  /** Polls that keep returning the current id cause no lifecycle event and leave the stream state alone. */
  lemma {:induction false} SameIdIsQuiet(st: StreamState, ids: seq<Option<StreamId>>)
    requires forall i :: 0 <= i < |ids| ==> ids[i] == st.currentStreamId
    ensures PollSequence(st, ids) == Reconciled(st, [])
    decreases |ids|
  {
    if ids != [] {
      SameIdIsQuiet(st, ids[1..]);
    }
  }

  lemma {:induction false} PolledOnMultiplesAreInputs(k: nat, inputs: seq<TickInput>, id: Option<StreamId>)
    requires forall i :: 0 <= i < |inputs| ==> inputs[i].polled == id
    ensures forall j :: 0 <= j < |PolledOnMultiples(k, inputs)| ==> PolledOnMultiples(k, inputs)[j] == id
    decreases |inputs|
  {
    if inputs != [] {
      PolledOnMultiplesAreInputs(k + 1, inputs[1..], id);
    }
  }

  /**
   * Ticks whose polls would all return the current stream id start and end no
   * getter, and leave the stream id and the getter as they were.
   */
  lemma RunWithSameIdIsQuiet(s: Control, inputs: seq<TickInput>)
    requires s.c < PollEvery
    requires forall i :: 0 <= i < |inputs| ==> inputs[i].polled == s.stream.currentStreamId
    ensures Lifecycle(Run(s, inputs).events) == [] && Run(s, inputs).next.stream == s.stream
  {
    PollsEverySixtyTicks(s, s.c, inputs);
    PolledOnMultiplesAreInputs(s.c, inputs, s.stream.currentStreamId);
    LifecycleFollowsPolls(s, inputs);
    SameIdIsQuiet(s.stream, PolledIds(Run(s, inputs).events));
  }

  /** Every run keeps the counter below 60 and the getter matched to the stream id. */
  lemma {:induction false} RunKeepsInv(s: Control, inputs: seq<TickInput>)
    requires Inv(s)
    ensures Inv(Run(s, inputs).next)
    decreases |inputs|
  {
    if inputs != [] {
      RunKeepsInv(Step(s, inputs[0]).next, inputs[1..]);
    }
  }

  /** The lifecycle of the identity sequence offline, L1, L1, L1, offline, L2. */
  lemma OfflineL1L1L1OfflineL2()
    ensures PollSequence(StreamState(None, false), [None, Some("L1"), Some("L1"), Some("L1"), None, Some("L2")]).events
         == [Started("L1"), Ended, Started("L2")]
  {
    var ids := [None, Some("L1"), Some("L1"), Some("L1"), None, Some("L2")];
    var st1 := StreamState(Some("L1"), true);
    assert ids[1..][1..] == [Some("L1"), Some("L1"), None, Some("L2")];
    SameIdIsQuiet(st1, [Some("L1"), Some("L1")]);
    PollSequenceAppend(st1, [Some("L1"), Some("L1")], [None, Some("L2")]);
    assert [Some("L1"), Some("L1")] + [None, Some("L2")] == ids[1..][1..];
    var tail: seq<Option<StreamId>> := [None, Some("L2")];
    assert tail[1..] == [Some("L2")] && tail[1..][1..] == [];
    assert PollSequence(st1, tail).events == [Ended, Started("L2")];
  }

  // ---------------------------------------------------------------------------
  // At most one getter at any time
  // ---------------------------------------------------------------------------

  /**
   * A log read from a state where a getter exists (`live`) or not: a getter is
   * started only when none exists, ended only when one exists, and a frame is
   * requested only from an existing getter.
   */
  predicate WellFormed(live: bool, log: seq<LifecycleEvent>)
    decreases |log|
  {
    log == [] ||
    match log[0]
    case Started(_) => !live && WellFormed(true, log[1..])
    case Ended => live && WellFormed(false, log[1..])
    case FrameRequested => live && WellFormed(live, log[1..])
    case _ => WellFormed(live, log[1..])
  }

  /** Whether a getter exists after the log, given whether one existed before. */
  function LiveAfter(live: bool, log: seq<LifecycleEvent>): bool
    decreases |log|
  {
    if log == [] then live
    else if log[0].Started? then LiveAfter(true, log[1..])
    else if log[0].Ended? then LiveAfter(false, log[1..])
    else LiveAfter(live, log[1..])
  }

  lemma {:induction false} WellFormedAppend(live: bool, a: seq<LifecycleEvent>, b: seq<LifecycleEvent>)
    requires WellFormed(live, a) && WellFormed(LiveAfter(live, a), b)
    ensures WellFormed(live, a + b) && LiveAfter(live, a + b) == LiveAfter(LiveAfter(live, a), b)
    decreases |a|
  {
    if a == [] {
      assert a + b == b;
    } else {
      assert (a + b)[0] == a[0] && (a + b)[1..] == a[1..] + b;
      var live' := if a[0].Started? then true else if a[0].Ended? then false else live;
      WellFormedAppend(live', a[1..], b);
    }
  }

  /**
   * Over any run of ticks, getters are started and
   * ended alternately (so at most one exists at any time, and each is ended
   * before the next is started), and frames are requested only while one
   * exists.
   */
  lemma {:induction false} RunWellFormed(s: Control, inputs: seq<TickInput>)
    ensures var r := Run(s, inputs);
      WellFormed(s.stream.hasGetter, r.events) && LiveAfter(s.stream.hasGetter, r.events) == r.next.stream.hasGetter
    decreases |inputs|
  {
    if inputs != [] {
      var first := Step(s, inputs[0]);
      StepEvents(s, inputs[0]);
      RunWellFormed(first.next, inputs[1..]);
      WellFormedAppend(s.stream.hasGetter, first.events, Run(first.next, inputs[1..]).events);
    }
  }
}
