/**
 The round-robin thread scheduler of so_scheduler.c as a state machine: one
 atomic step for each call a thread makes. Threads are numbered in the order in
 which they were created.
 */
module SchedulerModel {
  import opened Wrappers

  datatype ThreadState = NEW | READY | RUNNING | WAITING | TERMINATED

  /** ioDevice is NO_DEVICE when the thread waits for no device. */
  datatype Thread = Thread(priority: nat, quantumLeft: nat, thState: ThreadState, ioDevice: nat)

  /** ready[p] holds the queue of priority p, first to be dispatched first. */
  datatype State = State(
    maxQuantum: nat, ioDev: nat, threads: seq<Thread>, ready: seq<seq<nat>>, current: Option<nat>)

  const SO_MAX_PRIO: nat := 5
  const SO_MAX_NUM_EVENTS: nat := 256
  const UINT_MAX: nat := 0xFFFF_FFFF
  /** The -1 stored in the unsigned io_device. */
  const NO_DEVICE: nat := UINT_MAX

  // ------------------------------------------------------------ queue access

  /** Highest priority below k whose queue is not empty, or -1. */
  function TopBelow(ready: seq<seq<nat>>, k: nat): (p: int)
    requires k <= |ready|
    ensures -1 <= p < k
    ensures p >= 0 ==> ready[p] != []
    ensures forall i :: p < i < k ==> ready[i] == []
  {
    if k == 0 then -1
    else if ready[k - 1] != [] then k - 1
    else TopBelow(ready, k - 1)
  }

  function Top(s: State): (p: int)
    ensures -1 <= p < |s.ready|
    ensures p >= 0 ==> s.ready[p] != []
    ensures forall i :: p < i < |s.ready| ==> s.ready[i] == []
  {
    TopBelow(s.ready, |s.ready|)
  }

  function Put(s: State, id: nat): State
    requires id < |s.threads| && s.threads[id].priority < |s.ready|
  {
    var p := s.threads[id].priority;
    s.(ready := s.ready[p := s.ready[p] + [id]])
  }

  function TakeFirst(s: State, p: nat): State
    requires p < |s.ready| && s.ready[p] != []
  {
    s.(ready := s.ready[p := s.ready[p][1..]])
  }

  /** The scheduled thread wakes: one that never ran before marks itself RUNNING. */
  function Dispatch(s: State, id: nat): State
    requires id < |s.threads|
  {
    var t := s.threads[id];
    s.(current := Some(id),
       threads := s.threads[id := if t.thState == READY then t.(thState := RUNNING) else t])
  }

  // ------------------------------------------------------- shape of a state

  /** Identifiers and queue indices in range: what the functions below need. */
  predicate Shape(s: State) {
    && |s.ready| == SO_MAX_PRIO + 1
    && (forall p :: 0 <= p < |s.ready| ==> forall i :: 0 <= i < |s.ready[p]| ==>
          s.ready[p][i] < |s.threads| && s.threads[s.ready[p][i]].priority == p)
    && (forall id :: 0 <= id < |s.threads| ==> s.threads[id].priority <= SO_MAX_PRIO)
    && (s.current.Some? ==> s.current.value < |s.threads|)
  }

  // ---------------------------------------------------------------- the calls

  function GetThreadFromQueue(s: State): (r: State)
    requires Shape(s)
    ensures |r.threads| == |s.threads|
  {
    var p := Top(s);
    if p < 0 then s.(current := None) else Dispatch(TakeFirst(s, p), s.ready[p][0])
  }

  predicate MustSwitch(s: State, expired: bool)
    requires Shape(s)
  {
    && Top(s) >= 0
    && s.current.Some?
    && var cur := s.threads[s.current.value];
       && (if expired then Top(s) >= cur.priority else Top(s) > cur.priority)
       && cur.thState == RUNNING
  }

  function ComparePriorities(s: State, expired: bool): State
    requires Shape(s)
  {
    if !MustSwitch(s, expired) then s
    else
      var p := Top(s);
      var prev := s.current.value;
      var s1 := s.(threads := s.threads[prev := s.threads[prev].(quantumLeft := s.maxQuantum)]);
      Dispatch(Put(TakeFirst(s1, p), prev), s.ready[p][0])
  }

  function Tick(q: nat): nat {
    if q == 0 then UINT_MAX else q - 1
  }

  function CheckScheduler(s: State): State
    requires Shape(s)
  {
    if s.current.None? || Top(s) < 0 || |s.threads| <= 1 then s
    else
      var c := s.current.value;
      var q := Tick(s.threads[c].quantumLeft);
      ComparePriorities(s.(threads := s.threads[c := s.threads[c].(quantumLeft := q)]), q == 0)
  }

  function NewThread(s: State, priority: nat): State {
    s.(threads := s.threads + [Thread(priority, s.maxQuantum, READY, NO_DEVICE)])
  }

  /** so_fork with a handler; the new thread runs at once only when nobody else does. */
  function Fork(s: State, priority: nat): State
    requires Shape(s)
  {
    if priority > SO_MAX_PRIO then s
    else
      var s1 := Put(NewThread(s, priority), |s.threads|);
      if s.current.None? then GetThreadFromQueue(s1) else CheckScheduler(s1)
  }

  /** The test of so_wait and so_signal; with no device at all, io_dev - 1 wraps round and every number passes. */
  predicate Accepts(s: State, io: nat) {
    io <= if s.ioDev == 0 then UINT_MAX else s.ioDev - 1
  }

  function Wait(s: State, io: nat): State
    requires Shape(s) && s.current.Some?
  {
    if !Accepts(s, io) then s
    else
      var c := s.current.value;
      GetThreadFromQueue(s.(threads :=
        s.threads[c := s.threads[c].(ioDevice := io, quantumLeft := s.maxQuantum, thState := WAITING)]))
  }

  predicate WaitsOn(t: Thread, io: nat) {
    t.ioDevice == io && t.thState == WAITING
  }

  /** The signalled device's waiters among the first k threads are made ready. */
  function Wake(s: State, io: nat, k: nat): (r: State)
    requires Shape(s) && k <= |s.threads|
    ensures Shape(r) && |r.threads| == |s.threads| && r.current == s.current
    ensures forall i :: k <= i < |s.threads| ==> r.threads[i] == s.threads[i]
    ensures r.maxQuantum == s.maxQuantum && r.ioDev == s.ioDev
    decreases k
  {
    if k == 0 then s
    else
      var r := Wake(s, io, k - 1);
      if WaitsOn(r.threads[k - 1], io) then
        Put(r.(threads := r.threads[k - 1 := r.threads[k - 1].(ioDevice := NO_DEVICE)]), k - 1)
      else r
  }

  function Signal(s: State, io: nat): State
    requires Shape(s) && s.current.Some?
  {
    if !Accepts(s, io) then s
    else
      var r := Wake(s, io, |s.threads|);
      ComparePriorities(r, r.threads[r.current.value].quantumLeft == 0)
  }

  function Exec(s: State): State
    requires Shape(s)
  {
    CheckScheduler(s)
  }

  /** The current thread's handler returns. */
  function Finish(s: State): State
    requires Shape(s) && s.current.Some?
  {
    var r := GetThreadFromQueue(s);
    var c := s.current.value;
    r.(threads := r.threads[c := r.threads[c].(thState := TERMINATED)])
  }

  /** Creation order of the threads of priority p among the first k that wait on io. */
  function Waiters(s: State, io: nat, p: nat, k: nat): seq<nat>
    requires k <= |s.threads|
  {
    if k == 0 then []
    else
      Waiters(s, io, p, k - 1) +
      if WaitsOn(s.threads[k - 1], io) && s.threads[k - 1].priority == p then [k - 1] else []
  }

  /** How many of the first k threads wait on io. */
  function WaiterCount(s: State, io: nat, k: nat): nat
    requires k <= |s.threads|
  {
    if k == 0 then 0 else WaiterCount(s, io, k - 1) + if WaitsOn(s.threads[k - 1], io) then 1 else 0
  }

  // -------------------------------------------------------------------- runs

  datatype Op = OpFork(priority: nat) | OpWait(io: nat) | OpSignal(io: nat) | OpExec | OpFinish

  /** Waiting, signalling and returning are things a running thread does. */
  predicate Enabled(s: State, op: Op) {
    (op.OpWait? || op.OpSignal? || op.OpFinish?) ==> s.current.Some?
  }

  function Step(s: State, op: Op): State
    requires Shape(s) && Enabled(s, op)
  {
    match op
    case OpFork(priority) => Fork(s, priority)
    case OpWait(io) => Wait(s, io)
    case OpSignal(io) => Signal(s, io)
    case OpExec => Exec(s)
    case OpFinish => Finish(s)
  }
}
