/**
 The emulated link of link.c as a protocol of two threads: run_forwarding puts
 what it receives into a bounded buffer, link_scheduler moves it through the
 "wire" at a limited pace. Each step is what one thread does between two points
 where the other may run.
 */
module LinkModel {
  import opened Wrappers
  import Hamming

  type Message = seq<Hamming.byte>

  /** A message on the wire, when it was put there and when it has crossed it. */
  datatype InFlight = InFlight(m: Message, start: int, finish: int)

  /** A message handed to the other side, and the scheduler's clock when it was sent. */
  datatype Sent = Sent(flight: InFlight, time: int)

  /** Where link_scheduler is in its loop. */
  datatype Scheduler = Waiting | Sending | Sampling | Deciding | Taking

  /** Where run_forwarding is, and the message it holds. */
  datatype Forwarder = Receiving | Checking(got: Message) | Accepting(original: Message, m: Message)

  datatype Flip = Flip(index: nat, bit: Hamming.byte)

  datatype State = State(
    serialization: int,      // serialization_delay
    delay: int,
    capacity: nat,           // BUFFER_SIZE
    clock: int,
    scheduler: Scheduler,
    forwarder: Forwarder,
    buffer: seq<Message>,
    wire: seq<InFlight>,     // in_flight, oldest first
    crtTime: int,
    idleTime: int,
    stuff: bool,
    originals: seq<Message>, // what was received and not dropped
    accepted: seq<Message>,  // the same after a possible flip, in the order enqueued
    delivered: seq<Sent>)

  function Init(serialization: int, delay: int, capacity: nat, clock: int): State {
    State(serialization, delay, capacity, clock, Waiting, Receiving, [], [], 0, 0, false, [], [], [])
  }

  datatype Action =
    | Tick(elapsed: int)        // the clock moves, or is set back
    // link_scheduler
    | ReadClock                 // crt_time = now()
    | SendOldest                // one turn of the sending loop
    | StopSending
    | SampleBuffer              // stuff = buffer->size > 0
    | Decide                    // may the wire take a message?
    | Take                      // dequeue(buffer), enqueue(in_flight)
    // run_forwarding
    | Receive(m: Message)
    | CheckSpace(lost: bool, flip: Option<Flip>)
    | Accept

  predicate Due(s: State) {
    s.wire != [] && s.crtTime >= s.wire[0].finish
  }

  predicate Enabled(s: State, a: Action) {
    match a
    case Tick(_) => true
    case ReadClock => s.scheduler == Waiting
    case SendOldest => s.scheduler == Sending && Due(s)
    case StopSending => s.scheduler == Sending && !Due(s)
    case SampleBuffer => s.scheduler == Sampling
    case Decide => s.scheduler == Deciding
    case Take => s.scheduler == Taking
    case Receive(_) => s.forwarder == Receiving
    case CheckSpace(_, flip) =>
      s.forwarder.Checking? && (flip.Some? ==> flip.value.index < |s.forwarder.got| && flip.value.bit < 8)
    case Accept => s.forwarder.Accepting?
  }

  /** The message after the flip the link may make. */
  function Flipped(m: Message, flip: Option<Flip>): Message
    requires flip.Some? ==> flip.value.index < |m| && flip.value.bit < 8
  {
    if flip.None? then m
    else m[flip.value.index := Hamming.Xor(m[flip.value.index], Hamming.BitMask(flip.value.bit))]
  }

  function Step(s: State, a: Action): State
    requires Enabled(s, a)
  {
    match a
    case Tick(elapsed) => s.(clock := s.clock + elapsed)
    case ReadClock => s.(crtTime := s.clock, scheduler := Sending)
    case SendOldest =>
      s.(wire := s.wire[1..], delivered := s.delivered + [Sent(s.wire[0], s.crtTime)])
    case StopSending => s.(scheduler := Sampling)
    case SampleBuffer => s.(stuff := |s.buffer| > 0, scheduler := Deciding)
    case Decide =>
      if s.stuff && s.crtTime >= s.idleTime
      then s.(idleTime := s.crtTime + s.serialization, scheduler := Taking)
      else s.(scheduler := Waiting)
    case Take =>
      if s.buffer == [] then s  // the program asserts that this does not happen
      else s.(buffer := s.buffer[1..],
              wire := s.wire + [InFlight(s.buffer[0], s.crtTime, s.crtTime + s.serialization + s.delay)],
              scheduler := Waiting)
    case Receive(m) => s.(forwarder := Checking(m))
    case CheckSpace(lost, flip) =>
      if |s.buffer| >= s.capacity || lost then s.(forwarder := Receiving)
      else s.(forwarder := Accepting(s.forwarder.got, Flipped(s.forwarder.got, flip)))
    case Accept =>
      s.(buffer := s.buffer + [s.forwarder.m],
         originals := s.originals + [s.forwarder.original],
         accepted := s.accepted + [s.forwarder.m],
         forwarder := Receiving)
  }

  // --------------------------------------------------------------- invariants

  function OnWire(w: seq<InFlight>): (r: seq<Message>)
    ensures |r| == |w| && forall i :: 0 <= i < |w| ==> r[i] == w[i].m
  {
    seq(|w|, i requires 0 <= i < |w| => w[i].m)
  }

  function Received(d: seq<Sent>): (r: seq<Message>)
    ensures |r| == |d| && forall i :: 0 <= i < |d| ==> r[i] == d[i].flight.m
  {
    seq(|d|, i requires 0 <= i < |d| => d[i].flight.m)
  }

  /** Nothing is lost, duplicated or reordered between the two ends. */
  predicate Conserved(s: State) {
    s.accepted == Received(s.delivered) + OnWire(s.wire) + s.buffer
  }

  predicate Bounded(s: State) {
    |s.buffer| <= s.capacity && (s.forwarder.Accepting? ==> |s.buffer| < s.capacity)
  }

  /** The program's assertion at the dequeue: what was sampled is still there. */
  predicate SampleHolds(s: State) {
    (s.scheduler == Taking ==> |s.buffer| > 0) && (s.scheduler == Deciding && s.stuff ==> |s.buffer| > 0)
  }

  /** Every message that was ever put on the wire, in order: those sent, then those still on it. */
  function Flights(s: State): (r: seq<InFlight>)
    ensures |r| == |s.delivered| + |s.wire|
    ensures forall i :: 0 <= i < |s.delivered| ==> r[i] == s.delivered[i].flight
    ensures forall i :: 0 <= i < |s.wire| ==> r[|s.delivered| + i] == s.wire[i]
  {
    seq(|s.delivered|, i requires 0 <= i < |s.delivered| => s.delivered[i].flight) + s.wire
  }

  predicate Apart(f: seq<InFlight>, gap: int) {
    forall i, j :: 0 <= i < j < |f| ==> f[j].finish - f[i].finish >= (j - i) * gap
  }

  /** Finish times are at least one serialization apart, over the whole history, and fixed when the message starts. */
  predicate Spaced(s: State) {
    && Apart(Flights(s), s.serialization)
    && forall i :: 0 <= i < |Flights(s)| ==> Flights(s)[i].finish == Flights(s)[i].start + s.serialization + s.delay
  }

  /** The latest finish time handed out leaves room for the next. */
  predicate LastFlight(s: State) {
    Flights(s) != [] ==>
      Flights(s)[|Flights(s)| - 1].finish <= s.idleTime + s.delay - if s.scheduler == Taking then s.serialization else 0
  }

  /**
   While the scheduler looks for a message to take, the oldest on the wire is not yet
   due; and when several are there, the last was started before the oldest is due.
   */
  predicate Window(s: State) {
    && (s.scheduler == Sampling || s.scheduler == Deciding || s.scheduler == Taking ==>
          s.wire != [] ==> s.crtTime < s.wire[0].finish)
    && (s.scheduler == Taking ==> s.idleTime == s.crtTime + s.serialization)
    && (|s.wire| > 1 ==> s.delay > 0)
    && (|s.wire| > 1 && s.serialization >= 0 && s.scheduler != Taking ==>
          s.idleTime - s.serialization < s.wire[0].finish)
  }

  /** Nothing was sent before it had crossed the wire. */
  predicate Punctual(s: State) {
    forall i :: 0 <= i < |s.delivered| ==> s.delivered[i].time >= s.delivered[i].flight.finish
  }

  /** m is o, or o with one bit flipped. */
  ghost predicate AtMostOneFlip(o: Message, m: Message) {
    m == o ||
    exists j: nat, k: Hamming.byte :: j < |o| && k < 8 && m == o[j := Hamming.Xor(o[j], Hamming.BitMask(k))]
  }

  /** Every accepted message is what was received, up to one flipped bit. */
  ghost predicate Faithful(s: State) {
    && |s.originals| == |s.accepted|
    && (forall i :: 0 <= i < |s.accepted| ==> AtMostOneFlip(s.originals[i], s.accepted[i]))
    && (s.forwarder.Accepting? ==> AtMostOneFlip(s.forwarder.original, s.forwarder.m))
  }

  ghost predicate Inv(s: State) {
    && Conserved(s) && Bounded(s) && SampleHolds(s)
    && Spaced(s) && LastFlight(s) && Window(s) && Punctual(s) && Faithful(s)
  }

  lemma InitOk(serialization: int, delay: int, capacity: nat, clock: int)
    ensures Inv(Init(serialization, delay, capacity, clock))
  {
  }

  // -------------------------------------------------- every step keeps them

  lemma Regroup(a: seq<Message>, x: Message, b: seq<Message>, c: seq<Message>)
    ensures (a + [x]) + b + c == a + ([x] + b) + c
    ensures a + (b + [x]) + c == a + b + ([x] + c)
  {
  }

  lemma SendMoves(d: seq<Sent>, w: seq<InFlight>, time: int)
    requires w != []
    ensures OnWire(w) == [w[0].m] + OnWire(w[1..]) && Received(d + [Sent(w[0], time)]) == Received(d) + [w[0].m]
  {
  }

  lemma TakeMoves(w: seq<InFlight>, f: InFlight, buffer: seq<Message>)
    requires buffer != [] && f.m == buffer[0]
    ensures buffer == [f.m] + buffer[1..] && OnWire(w + [f]) == OnWire(w) + [f.m]
  {
  }

  lemma SendConserves(s: State)
    requires Conserved(s) && s.wire != []
    ensures s.accepted == Received(s.delivered + [Sent(s.wire[0], s.crtTime)]) + OnWire(s.wire[1..]) + s.buffer
  {
    hide Received, OnWire;
    SendMoves(s.delivered, s.wire, s.crtTime);
    Regroup(Received(s.delivered), s.wire[0].m, OnWire(s.wire[1..]), s.buffer);
  }

  lemma TakeConserves(s: State, f: InFlight)
    requires Conserved(s) && s.buffer != [] && f.m == s.buffer[0]
    ensures s.accepted == Received(s.delivered) + OnWire(s.wire + [f]) + s.buffer[1..]
  {
    hide Received, OnWire;
    TakeMoves(s.wire, f, s.buffer);
    Regroup(Received(s.delivered), f.m, OnWire(s.wire), s.buffer[1..]);
  }

  lemma ConservedStep(s: State, a: Action)
    requires Conserved(s) && Enabled(s, a)
    ensures Conserved(Step(s, a))
  {
    match a
    case SendOldest => SendConserves(s);
    case Take =>
      if s.buffer != [] {
        TakeConserves(s, InFlight(s.buffer[0], s.crtTime, s.crtTime + s.serialization + s.delay));
      }
    case _ =>
      hide Received, OnWire;
  }

  lemma ApartSnoc(f: seq<InFlight>, x: InFlight, gap: int)
    requires Apart(f, gap)
    requires f != [] ==> x.finish - f[|f| - 1].finish >= gap
    ensures Apart(f + [x], gap)
  {
    var n := |f|;
    forall i | 0 <= i < n ensures x.finish - f[i].finish >= (n - i) * gap {
      assert i < n - 1 ==> f[n - 1].finish - f[i].finish >= (n - 1 - i) * gap;
      assert (n - 1 - i) * gap + gap == (n - i) * gap;
    }
  }

  /** Only Take adds a flight. */
  lemma FlightsStep(s: State, a: Action)
    requires Enabled(s, a)
    ensures Flights(Step(s, a)) ==
            if a.Take? && s.buffer != []
            then Flights(s) + [InFlight(s.buffer[0], s.crtTime, s.crtTime + s.serialization + s.delay)]
            else Flights(s)
  {
    hide Flights;
    if a.SendOldest? {
      SendKeepsFlights(s, Step(s, a));
    } else {
      TakeFlights(s, Step(s, a));
    }
  }

  lemma SendKeepsFlights(s: State, r: State)
    requires s.wire != [] && r.wire == s.wire[1..] && r.delivered == s.delivered + [Sent(s.wire[0], s.crtTime)]
    ensures Flights(r) == Flights(s)
  {
    assert s.wire == [s.wire[0]] + s.wire[1..];
  }

  lemma TakeFlights(s: State, r: State)
    requires r.delivered == s.delivered && s.wire <= r.wire
    ensures Flights(r) == Flights(s) + r.wire[|s.wire|..]
  {
  }

  lemma SpacedTake(s: State)
    requires Spaced(s) && LastFlight(s) && Window(s)
    requires s.scheduler == Taking && s.buffer != []
    ensures Spaced(Step(s, Take)) && LastFlight(Step(s, Take))
  {
    hide Flights, Apart;
    FlightsStep(s, Take);
    ApartSnoc(Flights(s), InFlight(s.buffer[0], s.crtTime, s.crtTime + s.serialization + s.delay), s.serialization);
  }

  lemma SpacedOther(s: State, a: Action)
    requires Spaced(s) && LastFlight(s) && Window(s) && Enabled(s, a)
    requires !a.Take? || s.buffer == []
    ensures Spaced(Step(s, a)) && LastFlight(Step(s, a))
  {
    hide Flights, Apart, Due;
    FlightsStep(s, a);
  }

  lemma SpacedStep(s: State, a: Action)
    requires Spaced(s) && LastFlight(s) && Window(s) && Enabled(s, a)
    ensures Spaced(Step(s, a)) && LastFlight(Step(s, a))
  {
    hide Spaced, LastFlight, Window, Step;
    if a.Take? && s.buffer != [] {
      SpacedTake(s);
    } else {
      SpacedOther(s, a);
    }
  }

  lemma WindowStep(s: State, a: Action)
    requires Spaced(s) && LastFlight(s) && Window(s) && Enabled(s, a)
    ensures Window(Step(s, a))
  {
    hide Spaced, Flights, LastFlight;
    if a.SendOldest? && |s.wire| > 1 {
      NextFinish(s);
    } else if a.Take? && s.wire != [] {
      LastOnWire(s);
    }
  }

  /** The next message on the wire finishes one serialization later. */
  lemma NextFinish(s: State)
    requires Spaced(s) && |s.wire| > 1
    ensures s.wire[1].finish - s.wire[0].finish >= s.serialization
  {
    var n := |s.delivered|;
    assert Flights(s)[n + 1].finish - Flights(s)[n].finish >= ((n + 1) - n) * s.serialization;
  }

  /** The youngest message on the wire left room for the next one. */
  lemma LastOnWire(s: State)
    requires LastFlight(s) && s.wire != []
    ensures s.wire[|s.wire| - 1].finish <= s.idleTime + s.delay - if s.scheduler == Taking then s.serialization else 0
  {
    assert Flights(s)[|Flights(s)| - 1] == s.wire[|s.wire| - 1];
  }

  lemma OthersStep(s: State, a: Action)
    requires Bounded(s) && SampleHolds(s) && Punctual(s) && Enabled(s, a)
    ensures var r := Step(s, a); Bounded(r) && SampleHolds(r) && Punctual(r)
    ensures Step(s, a).serialization == s.serialization && Step(s, a).delay == s.delay
  {
  }

  lemma FaithfulStep(s: State, a: Action)
    requires Faithful(s) && Enabled(s, a)
    ensures Faithful(Step(s, a))
  {
    hide Due;
  }

  /** Every step of either thread keeps the invariant. */
  lemma StepOk(s: State, a: Action)
    requires Inv(s) && Enabled(s, a)
    ensures Inv(Step(s, a))
  {
    hide Conserved, Bounded, SampleHolds, Spaced, LastFlight, Window, Punctual, Faithful, Step;
    ConservedStep(s, a);
    SpacedStep(s, a);
    WindowStep(s, a);
    OthersStep(s, a);
    FaithfulStep(s, a);
  }

  // ---------------------------------------------------------------- all runs

  ghost predicate Legal(s: State, run: seq<Action>)
    decreases |run|
  {
    run == [] || (Enabled(s, run[0]) && Legal(Step(s, run[0]), run[1..]))
  }

  ghost function Run(s: State, run: seq<Action>): State
    requires Legal(s, run)
    decreases |run|
  {
    if run == [] then s else Run(Step(s, run[0]), run[1..])
  }

  lemma {:induction false} RunOk(s: State, run: seq<Action>)
    requires Inv(s) && Legal(s, run)
    ensures Inv(Run(s, run))
    ensures Run(s, run).serialization == s.serialization && Run(s, run).delay == s.delay
    ensures Run(s, run).capacity == s.capacity
    decreases |run|
  {
    hide Inv;
    if run == [] {
    } else {
      StepOk(s, run[0]);
      RunOk(Step(s, run[0]), run[1..]);
    }
  }

  /**
   FIFO and conservation in every reachable state of the two threads, whatever the
   serialization, the delay and the clock.
   */
  lemma LinkIsFifo(serialization: int, delay: int, capacity: nat, clock: int, run: seq<Action>)
    requires Legal(Init(serialization, delay, capacity, clock), run)
    ensures var s := Run(Init(serialization, delay, capacity, clock), run);
            && s.accepted == Received(s.delivered) + OnWire(s.wire) + s.buffer
            && |s.buffer| <= capacity
            && (s.scheduler == Taking ==> s.buffer != [])
  {
    InitOk(serialization, delay, capacity, clock);
    RunOk(Init(serialization, delay, capacity, clock), run);
  }

  /** Pacing in every reachable state, whatever the serialization, the delay and the clock. */
  lemma LinkIsPaced(serialization: int, delay: int, capacity: nat, clock: int, run: seq<Action>)
    requires Legal(Init(serialization, delay, capacity, clock), run)
    ensures var s := Run(Init(serialization, delay, capacity, clock), run);
            && (|s.wire| > 1 || (s.wire != [] && serialization + delay > 0) ==>
                  (|s.wire| - 1) * serialization < serialization + delay)
            && Apart(Flights(s), serialization)
            && forall i :: 0 <= i < |s.delivered| ==>
                 s.delivered[i].time >= s.delivered[i].flight.start + serialization + delay
  {
    var s0 := Init(serialization, delay, capacity, clock);
    InitOk(serialization, delay, capacity, clock);
    RunOk(s0, run);
    var s := Run(s0, run);
    assert forall i :: 0 <= i < |s.delivered| ==> Flights(s)[i] == s.delivered[i].flight;
    if |s.wire| > 1 {
      WireIsShort(s);
    }
  }

  lemma WireIsShort(s: State)
    requires Inv(s) && |s.wire| > 1
    ensures (|s.wire| - 1) * s.serialization < s.serialization + s.delay
  {
    hide Conserved, Bounded, Punctual, Faithful, Spaced, LastFlight, SampleHolds, Flights;
    var n := |s.wire|;
    LastOnWire(s);
    FirstToLast(s);
    if s.serialization < 0 {
      assert (n - 2) * s.serialization <= 0;
      assert (n - 1) * s.serialization == (n - 2) * s.serialization + s.serialization;
    }
  }

  lemma FirstToLast(s: State)
    requires Spaced(s) && |s.wire| > 1
    ensures s.wire[|s.wire| - 1].finish - s.wire[0].finish >= (|s.wire| - 1) * s.serialization
  {
    var d, n := |s.delivered|, |s.wire|;
    assert Flights(s)[d + n - 1].finish - Flights(s)[d].finish >= ((d + n - 1) - d) * s.serialization;
  }

  // ------------------------------------------- when the bound holds for one message

  /** The wire holds n messages, n > 0, only if (n - 1) * S < S + D. */
  predicate WireBounded(s: State) {
    s.wire != [] ==> (|s.wire| - 1) * s.serialization < s.serialization + s.delay
  }

  /** With room in the buffer, the bound holds in every run if and only if S + D > 0. */
  lemma WireBoundedExactly(serialization: int, delay: int, capacity: nat, clock: int)
    requires capacity > 0
    ensures (forall run :: Legal(Init(serialization, delay, capacity, clock), run) ==>
               WireBounded(Run(Init(serialization, delay, capacity, clock), run)))
            <==> serialization + delay > 0
  {
    hide Legal, Run;
    var s0 := Init(serialization, delay, capacity, clock);
    if serialization + delay > 0 {
      forall run | Legal(s0, run) ensures WireBounded(Run(s0, run)) {
        RunKeepsParameters(s0, run);
        LinkIsPaced(serialization, delay, capacity, clock, run);
      }
    } else {
      var run := OneOnWire(serialization, delay, capacity, clock);
    }
  }

  lemma RunKeepsParameters(s: State, run: seq<Action>)
    requires Inv(s) && Legal(s, run)
    ensures Run(s, run).serialization == s.serialization && Run(s, run).delay == s.delay
  {
    hide Inv;
    RunOk(s, run);
  }

  /** A run that puts one message on the wire. */
  lemma OneOnWire(serialization: int, delay: int, capacity: nat, clock: int) returns (run: seq<Action>)
    requires capacity > 0
    ensures var s0 := Init(serialization, delay, capacity, clock);
            Legal(s0, run) && var s := Run(s0, run);
            |s.wire| == 1 && s.serialization == serialization && s.delay == delay
  {
    hide Legal, Run;
    var s0 := Init(serialization, delay, capacity, clock);
    var s1 := s0.(clock := clock + Abs(clock));
    var s4 := s1.(buffer := [[]], originals := [[]], accepted := [[]]);
    ghost var end;
    run, end := ThenTaken(s4);
    run := RunAlso(s1.(forwarder := Accepting([], [])), Accept, s4, run, end);
    var checking := s1.(forwarder := Checking([]));
    run := RunAlso(checking, CheckSpace(false, None), s1.(forwarder := Accepting([], [])), run, end);
    run := RunAlso(s1, Receive([]), checking, run, end);
    run := RunAlso(s0, Tick(Abs(clock)), s1, run, end);
  }

  /** The scheduler's part of that run. */
  lemma ThenTaken(s: State) returns (run: seq<Action>, end: State)
    requires s.scheduler == Waiting && s.wire == [] && s.buffer == [[]] && s.clock >= s.idleTime
    ensures Legal(s, run) && Run(s, run) == end
    ensures |end.wire| == 1 && end.serialization == s.serialization && end.delay == s.delay
  {
    hide Legal, Run;
    var t, finish := s.clock, s.clock + s.serialization + s.delay;
    var s1 := s.(crtTime := t, scheduler := Sending);
    var s3 := s1.(stuff := true, scheduler := Deciding);
    var s4 := s3.(idleTime := t + s.serialization, scheduler := Taking);
    end := s4.(buffer := [], wire := [InFlight([], t, finish)], scheduler := Waiting);
    NoActions(end);
    assert s4.buffer[1..] == [];
    run := RunAlso(s4, Take, end, [], end);
    run := RunAlso(s3, Decide, s4, run, end);
    run := RunAlso(s1.(scheduler := Sampling), SampleBuffer, s3, run, end);
    run := RunAlso(s1, StopSending, s1.(scheduler := Sampling), run, end);
    run := RunAlso(s, ReadClock, s1, run, end);
  }

  lemma NoActions(s: State)
    ensures Legal(s, []) && Run(s, []) == s
  {
  }

  lemma RunAlso(s: State, a: Action, m: State, run: seq<Action>, end: State) returns (longer: seq<Action>)
    requires Enabled(s, a) && Step(s, a) == m && Legal(m, run) && Run(m, run) == end
    ensures Legal(s, longer) && Run(s, longer) == end
  {
    longer := [a] + run;
    assert longer[1..] == run;
  }

  // ---------------------------------------------------------- the order of sends

  /** The scheduler's clock and all its sends are in order of time. */
  predicate Ordered(s: State) {
    && s.crtTime <= s.clock
    && (forall i, j :: 0 <= i < j < |s.delivered| ==> s.delivered[i].time <= s.delivered[j].time)
    && (forall i :: 0 <= i < |s.delivered| ==> s.delivered[i].time <= s.crtTime)
  }

  lemma OrderedStep(s: State, a: Action)
    requires Ordered(s) && Enabled(s, a) && (a.Tick? ==> a.elapsed >= 0)
    ensures Ordered(Step(s, a))
  {
  }

  /** The clock is never set back. */
  predicate Forward(run: seq<Action>) {
    forall i :: 0 <= i < |run| && run[i].Tick? ==> run[i].elapsed >= 0
  }

  lemma {:induction false} RunOrdered(s: State, run: seq<Action>)
    requires Ordered(s) && Legal(s, run) && Forward(run)
    ensures Ordered(Run(s, run))
    decreases |run|
  {
    hide Ordered, Step, Enabled;
    if run == [] {
    } else {
      assert run[0].Tick? ==> run[0].elapsed >= 0;
      OrderedStep(s, run[0]);
      assert Forward(run[1..]);
      RunOrdered(Step(s, run[0]), run[1..]);
    }
  }

  /** While the clock is not set back, messages are sent at times that never decrease. */
  lemma SendsInOrder(serialization: int, delay: int, capacity: nat, clock: nat, run: seq<Action>)
    requires Legal(Init(serialization, delay, capacity, clock), run) && Forward(run)
    ensures var s := Run(Init(serialization, delay, capacity, clock), run);
            forall i, j :: 0 <= i < j < |s.delivered| ==> s.delivered[i].time <= s.delivered[j].time
  {
    RunOrdered(Init(serialization, delay, capacity, clock), run);
  }

  // ----------------------------------------------- what each thread goes on to do

  predicate IsScheduling(a: Action) {
    a.ReadClock? || a.SendOldest? || a.StopSending? || a.SampleBuffer? || a.Decide? || a.Take?
  }

  predicate IsForwarding(a: Action) {
    a.Receive? || a.CheckSpace? || a.Accept?
  }

  /** Steps that link_scheduler takes no part in. */
  predicate WithoutScheduler(run: seq<Action>) {
    forall i :: 0 <= i < |run| ==> !IsScheduling(run[i])
  }

  /** Steps that run_forwarding takes no part in. */
  predicate WithoutForwarder(run: seq<Action>) {
    forall i :: 0 <= i < |run| ==> !IsForwarding(run[i])
  }

  /** What link_scheduler sees is as before, but for messages that joined the buffer. */
  predicate SameScheduler(s: State, r: State) {
    && r.scheduler == s.scheduler && r.wire == s.wire && r.delivered == s.delivered
    && r.crtTime == s.crtTime && r.idleTime == s.idleTime && r.stuff == s.stuff
    && r.serialization == s.serialization && r.delay == s.delay && r.capacity == s.capacity
    && s.buffer <= r.buffer
  }

  lemma {:induction false} SchedulerUntouched(s: State, run: seq<Action>)
    requires Legal(s, run) && WithoutScheduler(run)
    ensures SameScheduler(s, Run(s, run))
    decreases |run|
  {
    if run == [] {
    } else {
      assert !IsScheduling(run[0]);
      assert SameScheduler(s, Step(s, run[0]));
      assert WithoutScheduler(run[1..]);
      SchedulerUntouched(Step(s, run[0]), run[1..]);
    }
  }

  lemma {:induction false} ForwarderUntouched(s: State, run: seq<Action>)
    requires Legal(s, run) && WithoutForwarder(run)
    ensures var r := Run(s, run); r.forwarder == s.forwarder && r.capacity == s.capacity
    decreases |run|
  {
    if run == [] {
    } else {
      assert !IsForwarding(run[0]);
      assert WithoutForwarder(run[1..]);
      ForwarderUntouched(Step(s, run[0]), run[1..]);
    }
  }

  /** A turn of link_scheduler starts with the clock. */
  lemma TurnStarts(s: State)
    requires s.scheduler == Waiting
    ensures Enabled(s, ReadClock)
    ensures Step(s, ReadClock) == s.(crtTime := s.clock, scheduler := Sending)
  {
  }

  function Sends(n: nat): (run: seq<Action>)
    ensures |run| == n && forall i :: 0 <= i < n ==> run[i] == SendOldest
  {
    seq(n, _ => SendOldest)
  }

  /** It sends exactly the messages that are due, in order, before it goes on. */
  lemma {:induction false} SendsAllDue(s: State, n: nat)
    requires s.scheduler == Sending && n <= |s.wire|
    requires forall i :: 0 <= i < n ==> s.wire[i].finish <= s.crtTime
    requires n < |s.wire| ==> s.wire[n].finish > s.crtTime
    ensures Legal(s, Sends(n))
    ensures Run(s, Sends(n)) ==
            s.(wire := s.wire[n..], delivered := s.delivered + SentNow(s.wire[..n], s.crtTime))
    ensures var r := Run(s, Sends(n)); r.wire != [] ==> r.wire[0].finish > r.crtTime
    decreases n
  {
    hide Legal, Run, Step, SentNow, Sends;
    if n == 0 {
      NoActions(s);
      assert Sends(0) == [];
      assert s.wire[0..] == s.wire && s.delivered + SentNow(s.wire[..0], s.crtTime) == s.delivered;
    } else {
      SendFirst(s);
      var r := s.(wire := s.wire[1..], delivered := s.delivered + [Sent(s.wire[0], s.crtTime)]);
      SendsAllDue(r, n - 1);
      RunFirst(s, SendOldest, Sends(n - 1));
      assert Sends(n) == [SendOldest] + Sends(n - 1);
      SentTogether(s.delivered, s.wire, n, s.crtTime);
    }
  }

  lemma SendFirst(s: State)
    requires s.scheduler == Sending && s.wire != [] && s.wire[0].finish <= s.crtTime
    ensures Enabled(s, SendOldest)
    ensures Step(s, SendOldest) ==
            s.(wire := s.wire[1..], delivered := s.delivered + [Sent(s.wire[0], s.crtTime)])
  {
  }

  lemma RunFirst(s: State, a: Action, rest: seq<Action>)
    requires Enabled(s, a) && Legal(Step(s, a), rest)
    ensures Legal(s, [a] + rest) && Run(s, [a] + rest) == Run(Step(s, a), rest)
  {
    assert ([a] + rest)[1..] == rest;
  }

  lemma SentTogether(d: seq<Sent>, w: seq<InFlight>, n: nat, time: int)
    requires 0 < n <= |w|
    ensures w[1..][n - 1..] == w[n..]
    ensures d + [Sent(w[0], time)] + SentNow(w[1..][..n - 1], time) == d + SentNow(w[..n], time)
  {
  }

  function SentNow(w: seq<InFlight>, time: int): (d: seq<Sent>)
    ensures |d| == |w| && forall i :: 0 <= i < |w| ==> d[i] == Sent(w[i], time)
  {
    seq(|w|, i requires 0 <= i < |w| => Sent(w[i], time))
  }

  /**
   The rest of a turn, from a state with nothing more to send, whatever the other thread
   and the clock do in between (o1, o2, o3): the buffer is sampled, and its first message
   taken if and only if one was there and the wire was idle.
   */
  lemma WholeTurn(s: State, o1: seq<Action>, o2: seq<Action>, o3: seq<Action>)
    requires s.scheduler == Sending && (s.wire != [] ==> s.wire[0].finish > s.crtTime)
    requires WithoutScheduler(o1) && WithoutScheduler(o2) && WithoutScheduler(o3)
    ensures Enabled(s, StopSending)
    ensures Legal(Step(s, StopSending), o1) ==>
              var b := Run(Step(s, StopSending), o1);
              && Enabled(b, SampleBuffer)
              && (Legal(Step(b, SampleBuffer), o2) ==>
                    var d := Run(Step(b, SampleBuffer), o2);
                    && Enabled(d, Decide)
                    && (Legal(Step(d, Decide), o3) ==> TurnEnds(s, b, Run(Step(d, Decide), o3))))
  {
    hide Legal, Run, TurnEnds;
    if Legal(Step(s, StopSending), o1) {
      SchedulerUntouched(Step(s, StopSending), o1);
      var b := Run(Step(s, StopSending), o1);
      if Legal(Step(b, SampleBuffer), o2) {
        SchedulerUntouched(Step(b, SampleBuffer), o2);
        var d := Run(Step(b, SampleBuffer), o2);
        if Legal(Step(d, Decide), o3) {
          SchedulerUntouched(Step(d, Decide), o3);
          LastPart(s, b, d, Run(Step(d, Decide), o3));
        }
      }
    }
  }

  /** The end of a turn that started in s and sampled in b, when Take or the next turn is up in f. */
  predicate TurnEnds(s: State, b: State, f: State) {
    var takes := b.buffer != [] && s.crtTime >= s.idleTime;
    && (Enabled(f, Take) <==> takes) && (Enabled(f, ReadClock) <==> !takes)
    && f.wire == s.wire && f.crtTime == s.crtTime
    && f.idleTime == (if takes then s.crtTime + s.serialization else s.idleTime)
    && (takes ==>
          && f.buffer != []
          && var g := Step(f, Take);
             && g.scheduler == Waiting && g.idleTime == f.idleTime && g.buffer == f.buffer[1..]
             && g.wire == s.wire + [InFlight(b.buffer[0], s.crtTime, s.crtTime + s.serialization + s.delay)])
  }

  lemma LastPart(s: State, b: State, d: State, f: State)
    requires s.scheduler == Sending && !Due(s) && SameScheduler(Step(s, StopSending), b)
    requires Enabled(b, SampleBuffer) && SameScheduler(Step(b, SampleBuffer), d)
    requires Enabled(d, Decide) && SameScheduler(Step(d, Decide), f)
    ensures TurnEnds(s, b, f)
  {
  }

  /**
   One message through run_forwarding, whatever the other thread and the clock do in
   between (o1, o2): it joins the end of the buffer, with the flip if there is one, if
   and only if there was space and it was not lost.
   */
  lemma WholeForwarding(
      s: State, m: Message, lost: bool, flip: Option<Flip>, o1: seq<Action>, o2: seq<Action>)
    requires s.forwarder == Receiving && WithoutForwarder(o1) && WithoutForwarder(o2)
    requires flip.Some? ==> flip.value.index < |m| && flip.value.bit < 8
    ensures Enabled(s, Receive(m))
    ensures Legal(Step(s, Receive(m)), o1) ==>
              var b := Run(Step(s, Receive(m)), o1);
              && Enabled(b, CheckSpace(lost, flip))
              && (Legal(Step(b, CheckSpace(lost, flip)), o2) ==>
                    ForwardingEnds(b, m, lost, flip, Run(Step(b, CheckSpace(lost, flip)), o2)))
  {
    hide Legal, Run;
    if Legal(Step(s, Receive(m)), o1) {
      ForwarderUntouched(Step(s, Receive(m)), o1);
      var b := Run(Step(s, Receive(m)), o1);
      if Legal(Step(b, CheckSpace(lost, flip)), o2) {
        ForwarderUntouched(Step(b, CheckSpace(lost, flip)), o2);
      }
    }
  }

  /** Space was checked in b; in d the message is up for the buffer, or dropped. */
  predicate ForwardingEnds(b: State, m: Message, lost: bool, flip: Option<Flip>, d: State)
    requires flip.Some? ==> flip.value.index < |m| && flip.value.bit < 8
  {
    var kept := |b.buffer| < b.capacity && !lost;
    && (Enabled(d, Accept) <==> kept)
    && (!kept ==> d.forwarder == Receiving)
    && (kept ==>
          var g := Step(d, Accept);
          && g.forwarder == Receiving && g.wire == d.wire
          && g.buffer == d.buffer +
             [if flip.None? then m
              else m[flip.value.index := m[flip.value.index] ^ ((1 as Hamming.byte) << flip.value.bit)]])
  }

  // ------------------------------------------------------ the codec over the link

  lemma AcceptedTexts(s: State, texts: seq<seq<Hamming.byte>>)
    requires Inv(s) && |texts| == |s.originals|
    requires forall i :: 0 <= i < |texts| ==> s.originals[i] == Hamming.Code(texts[i])
    ensures |s.delivered| <= |texts|
    ensures forall i :: 0 <= i < |s.delivered| ==> Hamming.Decode(s.delivered[i].flight.m) == texts[i]
  {
    hide Hamming.Code, Hamming.Decode, Spaced, Window, Punctual, Bounded;
    forall i | 0 <= i < |s.delivered| ensures Hamming.Decode(s.delivered[i].flight.m) == texts[i] {
      assert s.accepted[i] == Received(s.delivered)[i];
      assert AtMostOneFlip(s.originals[i], s.accepted[i]);
      FlipDecodes(texts[i], s.accepted[i]);
    }
  }

  /**
   The codec over the link, in every reachable state: if every message that was not
   dropped was a coded text, every message delivered decodes to the text that was
   sent in its place, in order.
   */
  lemma DeliveredTexts(
      serialization: int, delay: int, capacity: nat, clock: int, run: seq<Action>, texts: seq<seq<Hamming.byte>>)
    requires Legal(Init(serialization, delay, capacity, clock), run)
    requires var s := Run(Init(serialization, delay, capacity, clock), run);
             |texts| == |s.originals| && forall i :: 0 <= i < |texts| ==> s.originals[i] == Hamming.Code(texts[i])
    ensures var s := Run(Init(serialization, delay, capacity, clock), run);
            && |s.delivered| <= |texts|
            && forall i :: 0 <= i < |s.delivered| ==> Hamming.Decode(s.delivered[i].flight.m) == texts[i]
  {
    hide Inv, Hamming.Code, Hamming.Decode;
    var s0 := Init(serialization, delay, capacity, clock);
    InitOk(serialization, delay, capacity, clock);
    RunOk(s0, run);
    AcceptedTexts(Run(s0, run), texts);
  }

  lemma FlipDecodes(text: seq<Hamming.byte>, m: Message)
    requires AtMostOneFlip(Hamming.Code(text), m)
    ensures Hamming.Decode(m) == text
  {
    hide Hamming.Decode, Hamming.Code, Hamming.Xor, Hamming.BitMask;
    var o := Hamming.Code(text);
    if m == o {
      Hamming.CleanLink(text);
    } else {
      var j: nat, k: Hamming.byte :| j < |o| && k < 8 && m == o[j := Hamming.Xor(o[j], Hamming.BitMask(k))];
      Hamming.LinkFlipIsUndone(text, j, k);
    }
  }
}
