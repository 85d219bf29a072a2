/**
 Where the scheduler does less than one would expect, and exactly when: devices that
 were never declared, threads that are not preempted after they waited, and quanta
 that wrap round.
 */
module SchedulerLimits {
  import opened Wrappers
  import opened SchedulerModel
  import opened SchedulerSafety
  import opened SchedulerOrder
  import opened RoundRobin

  // ----------------------------------------------------------------- devices

  /** so_wait and so_signal refuse exactly the missing devices if and only if there is a device at all. */
  lemma DevicesAreChecked(s: State)
    requires s.ioDev <= UINT_MAX
    ensures (forall io: nat :: io <= UINT_MAX ==> (Accepts(s, io) <==> io < s.ioDev)) <==> s.ioDev >= 1
    ensures s.ioDev == 0 ==> forall io: nat :: Accepts(s, io) <==> io <= UINT_MAX
  {
    if s.ioDev == 0 {
      assert Accepts(s, 0);
    }
  }

  /** Without devices a thread still blocks, on a device that does not exist. */
  lemma BlocksWithoutDevices(s: State, io: nat)
    requires Inv(s) && s.current.Some? && s.ioDev == 0 && io < NO_DEVICE
    ensures var c, r := s.current.value, Wait(s, io);
            Inv(r) && |r.threads| == |s.threads| && IsBlocked(r, c) && r.threads[c].ioDevice == io >= r.ioDev
  {
    hide QueuesOk, OthersOk;
    WaitOk(s, io);
    WaitLeaves(s, io);
  }

  /** The waiting thread is in no queue and does not run. */
  lemma WaitLeaves(s: State, io: nat)
    requires Inv(s) && s.current.Some? && Accepts(s, io)
    ensures var c, r := s.current.value, Wait(s, io);
            && Shape(r) && |r.threads| == |s.threads| && r.ioDev == s.ioDev
            && r.threads[c] == s.threads[c].(ioDevice := io, quantumLeft := s.maxQuantum, thState := WAITING)
            && !IsReady(r, c) && r.current != Some(c)
  {
    hide QueuesOk, OthersOk;
    var c := s.current.value;
    var t := s.threads[c].(ioDevice := io, quantumLeft := s.maxQuantum, thState := WAITING);
    UpdateOk(s, c, t, {c});
    assert {c} + {c} == {c};
    GetThreadOk(s.(threads := s.threads[c := t]), {c});
    StepKeepsQuantum(s, OpWait(io));
  }

  /** A thread that waits on the number that marks threads waiting for nothing is lost. */
  lemma UnsoundWait(s: State, io: nat)
    requires Inv(s) && s.current.Some? && !Sound(s, OpWait(io))
    ensures !Inv(Wait(s, io))
  {
    hide QueuesOk, CurrentOk, PriorityOk, Wait;
    WaitLeaves(s, io);
  }

  lemma Twice(a: seq<nat>, b: seq<nat>, l: seq<nat>, id: nat)
    requires id in a && id in b
    ensures var q := a + b;
            && !Distinct(q + l)
            && (if q[0] == id then id in q[1..] + l else !Distinct(q[1..] + l))
  {
    var i :| 0 <= i < |a| && a[i] == id;
    var j :| 0 <= j < |b| && b[j] == id;
    var q := a + b;
    assert (q + l)[i] == (q + l)[|a| + j] == id;
    assert (q[1..] + l)[|a| + j - 1] == id;
    assert i > 0 ==> (q[1..] + l)[i - 1] == id;
  }

  /** What a switch does to queue p. */
  lemma SwitchedQueue(s: State, expired: bool, p: nat)
    requires Shape(s) && MustSwitch(s, expired) && p <= SO_MAX_PRIO
    ensures var r, t := ComparePriorities(s, expired), Top(s);
            && |r.threads| == |s.threads| && |r.ready| == |s.ready|
            && (forall i :: 0 <= i < |s.threads| ==> r.threads[i].priority == s.threads[i].priority)
            && r.current == Some(s.ready[t][0])
            && r.ready[p] == (if p == t then s.ready[p][1..] else s.ready[p])
                             + if p == s.threads[s.current.value].priority then [s.current.value] else []
  {
    HeadIsReady(s);
  }

  /** A thread that is queued twice stays so, or runs while it is queued. */
  lemma TwiceIsKept(s: State, expired: bool, a: seq<nat>, b: seq<nat>, id: nat)
    requires Shape(s) && id < |s.threads| && id in a && id in b
    requires s.ready[s.threads[id].priority] == a + b
    ensures !Inv(ComparePriorities(s, expired))
  {
    hide OthersOk, PriorityOk, Distinct, ComparePriorities, MustSwitch;
    var p, r := s.threads[id].priority, ComparePriorities(s, expired);
    Twice(a, b, [], id);
    assert a + b + [] == a + b;
    NoSwitch(s, expired);
    if MustSwitch(s, expired) {
      SwitchedQueue(s, expired, p);
      var l := if p == s.threads[s.current.value].priority then [s.current.value] else [];
      Twice(a, b, l, id);
    }
  }

  lemma NoSwitch(s: State, expired: bool)
    requires Shape(s)
    ensures !MustSwitch(s, expired) ==> ComparePriorities(s, expired) == s
    ensures MustSwitch(s, expired) ==>
              s.current.Some? && s.threads[s.current.value].thState == RUNNING && 0 <= Top(s) && s.ready[Top(s)] != []
  {
  }

  /** Signalling that number puts threads that already run or are ready into a queue once more. */
  lemma UnsoundSignal(s: State, io: nat)
    requires Inv(s) && s.current.Some? && !Sound(s, OpSignal(io))
    ensures !Inv(Signal(s, io))
  {
    hide QueuesOk, OthersOk, PriorityOk, ComparePriorities, MustSwitch;
    var k := |s.threads|;
    var id :| 0 <= id < k && WaitsOn(s.threads[id], io);
    var p, w := s.threads[id].priority, Wake(s, io, k);
    WakeAppendsWaiters(s, io, k);
    WaitersAreExact(s, io, p, k);
    assert w.ready[p] == s.ready[p] + Waiters(s, io, p, k);
    var e := w.threads[w.current.value].quantumLeft == 0;
    if s.current == Some(id) {
      NoSwitch(w, e);
    } else {
      ReadyOrRunning(s, id);
      TwiceIsKept(w, e, s.ready[p], Waiters(s, io, p, k), id);
    }
  }

  lemma ReadyOrRunning(s: State, id: nat)
    requires Inv(s) && id < |s.threads| && WaitsOn(s.threads[id], NO_DEVICE)
    ensures IsReady(s, id) || s.current == Some(id)
  {
  }

  /** A call keeps the invariant if and only if it is sound. */
  lemma KeptExactlyWhen(s: State, op: Op)
    requires Inv(s) && Enabled(s, op)
    ensures Inv(Step(s, op)) <==> Sound(s, op)
  {
    hide *;
    StepCases(s, op);
    if Sound(s, op) {
      StepOk(s, op);
    } else {
      UnsoundCases(s, op);
      if op.OpWait? {
        UnsoundWait(s, op.io);
      } else {
        UnsoundSignal(s, op.io);
      }
    }
  }

  lemma UnsoundCases(s: State, op: Op)
    requires !Sound(s, op)
    ensures op == OpWait(NO_DEVICE) || op == OpSignal(NO_DEVICE)
  {
  }

  // -------------------------------------------------------------- preemption

  /**
   so_wait leaves the state WAITING for good, and only RUNNING threads are
   preempted: once such a thread is back it keeps the processor.
   */
  lemma {:induction false} WaitedIsNeverPreempted(s: State, n: nat)
    requires Inv(s) && s.current.Some? && s.threads[s.current.value].thState == WAITING
    ensures ExecN(s, n).current == s.current
    decreases n
  {
    if n == 0 {
    } else {
      CheckSchedulerOk(s);
      WaitedIsNeverPreempted(Exec(s), n - 1);
    }
  }

  /** Nothing ready is better than what runs. */
  predicate BestRuns(s: State)
    requires Shape(s) && s.current.Some?
  {
    Top(s) <= s.threads[s.current.value].priority
  }

  /** No thread that waits on io has a priority above q. */
  predicate WaitersUpTo(s: State, io: nat, q: int) {
    forall id :: 0 <= id < |s.threads| && WaitsOn(s.threads[id], io) ==> s.threads[id].priority <= q
  }

  /** After the call, if anybody runs, a best thread does. */
  predicate LeavesBest(s: State, op: Op)
    requires Shape(s)
  {
    s.current.Some? ==>
      var c := s.threads[s.current.value];
      match op
      case OpExec => c.thState == RUNNING || Top(s) <= c.priority
      case OpFork(priority) =>
        c.thState == RUNNING || (Top(s) <= c.priority && (priority <= SO_MAX_PRIO ==> priority <= c.priority))
      case OpSignal(io) =>
        c.thState == RUNNING || (Top(s) <= c.priority && (Accepts(s, io) ==> WaitersUpTo(s, io, c.priority)))
      case OpWait(io) => Accepts(s, io) || c.thState == RUNNING || Top(s) <= c.priority
      case OpFinish => true
  }

  lemma TopOfPut(s: State, id: nat)
    requires Shape(s) && id < |s.threads|
    ensures Top(Put(s, id)) == Max(Top(s), s.threads[id].priority)
  {
    var r, p := Put(s, id), s.threads[id].priority;
    assert r.ready[p] == s.ready[p] + [id];
    assert Top(s) >= 0 ==> r.ready[Top(s)] != [];
  }

  lemma {:induction false} TopOfWake(s: State, io: nat, k: nat, q: int)
    requires Shape(s) && k <= |s.threads|
    ensures Top(Wake(s, io, k)) <= q <==>
            Top(s) <= q && forall id :: 0 <= id < k && WaitsOn(s.threads[id], io) ==> s.threads[id].priority <= q
    decreases k
  {
    hide Shape, Top, Put, WaitsOn;
    if k == 0 {
    } else {
      var r, id := Wake(s, io, k - 1), k - 1;
      TopOfWake(s, io, k - 1, q);
      if WaitsOn(r.threads[id], io) {
        TopOfWoken(r, id);
      }
    }
  }

  lemma TopOfWoken(s: State, id: nat)
    requires Shape(s) && id < |s.threads|
    ensures s.threads[id].priority < |s.ready|
    ensures Top(Put(s.(threads := s.threads[id := s.threads[id].(ioDevice := NO_DEVICE)]), id)) ==
            Max(Top(s), s.threads[id].priority)
  {
    TopOfPut(s.(threads := s.threads[id := s.threads[id].(ioDevice := NO_DEVICE)]), id);
  }

  /** A RUNNING thread is succeeded by the head of the best queue; any other stays. */
  lemma CompareLeavesBest(s: State, expired: bool)
    requires Shape(s) && s.current.Some?
    ensures var r, c := ComparePriorities(s, expired), s.threads[s.current.value];
            Shape(r) && r.current.Some? && (BestRuns(r) <==> c.thState == RUNNING || Top(s) <= c.priority)
  {
    hide ComparePriorities;
    NoSwitch(s, expired);
    if MustSwitch(s, expired) {
      var r := ComparePriorities(s, expired);
      SwitchShape(s, expired);
      forall p | Top(s) < p <= SO_MAX_PRIO ensures r.ready[p] == [] {
        SwitchedQueue(s, expired, p);
      }
    }
  }

  lemma SwitchShape(s: State, expired: bool)
    requires Shape(s) && MustSwitch(s, expired)
    ensures var r := ComparePriorities(s, expired);
            Shape(r) && r.current.Some? && r.threads[r.current.value].priority == Top(s)
  {
    hide ComparePriorities;
    var r := ComparePriorities(s, expired);
    SwitchedQueue(s, expired, 0);
    HeadIsReady(s);
    forall p | 0 <= p <= SO_MAX_PRIO
      ensures forall i :: 0 <= i < |r.ready[p]| ==>
                r.ready[p][i] < |r.threads| && r.threads[r.ready[p][i]].priority == p
    {
      SwitchedQueue(s, expired, p);
    }
  }

  lemma GetThreadLeavesBest(s: State)
    requires Shape(s)
    ensures var r := GetThreadFromQueue(s); Shape(r) && (r.current.Some? ==> BestRuns(r))
  {
    if Top(s) >= 0 {
      HeadIsReady(s);
      TopAfterTake(s, Top(s));
    }
  }

  /** s with one unit of the running thread's quantum gone. */
  function Ticked(s: State): State
    requires Shape(s) && s.current.Some?
  {
    var c := s.current.value;
    s.(threads := s.threads[c := s.threads[c].(quantumLeft := Tick(s.threads[c].quantumLeft))])
  }

  /** check_scheduler is a tick and a comparison as soon as anybody is ready. */
  lemma CheckCases(s: State)
    requires Owned(s) && s.current.Some?
    ensures Top(s) < 0 ==> CheckScheduler(s) == s
    ensures Top(s) >= 0 ==>
              CheckScheduler(s) == ComparePriorities(Ticked(s), s.threads[s.current.value].quantumLeft == 1)
    ensures Top(Ticked(s)) == Top(s) && Owned(Ticked(s))
  {
    hide QueuesOk, OthersOk;
    var c := s.current.value;
    UpdateOk(s, c, Ticked(s).threads[c], {c});
    assert {c} + {c} == {c};
    if Top(s) >= 0 {
      HeadIsReady(s);
    }
  }

  lemma CheckLeavesBest(s: State)
    requires Owned(s) && s.current.Some?
    ensures var r, c := CheckScheduler(s), s.threads[s.current.value];
            Shape(r) && r.current.Some? && (BestRuns(r) <==> c.thState == RUNNING || Top(s) <= c.priority)
  {
    hide QueuesOk, OthersOk, CurrentOk, CheckScheduler, ComparePriorities;
    CheckCases(s);
    CompareLeavesBest(Ticked(s), s.threads[s.current.value].quantumLeft == 1);
  }

  /** so_fork's new thread stands in its queue; nothing else has changed for the comparison. */
  lemma Forked(s: State, priority: nat)
    requires Inv(s) && s.current.Some? && priority <= SO_MAX_PRIO
    ensures var m := Put(NewThread(s, priority), |s.threads|);
            && Owned(m) && m.current == s.current && m.maxQuantum == s.maxQuantum
            && Top(m) == Max(Top(s), priority)
            && m.threads[s.current.value] == s.threads[s.current.value]
            && Fork(s, priority) == CheckScheduler(m)
  {
    hide QueuesOk, OthersOk, CurrentOk, CheckScheduler;
    ForkJoins(s, priority, 0);
    ForkIsCheck(s, priority);
    NewThreadOk(s, priority, Running(s));
    TopOfPut(NewThread(s, priority), |s.threads|);
  }

  lemma BestAfterFork(s: State, priority: nat)
    requires Inv(s)
    ensures var r := Fork(s, priority);
            Shape(r) && (r.current.Some? ==> (BestRuns(r) <==> LeavesBest(s, OpFork(priority))))
  {
    hide QueuesOk, OthersOk, CurrentOk, CheckScheduler, GetThreadFromQueue;
    if priority <= SO_MAX_PRIO {
      if s.current.Some? {
        Forked(s, priority);
        CheckLeavesBest(Put(NewThread(s, priority), |s.threads|));
      } else {
        ForkFirstJoins(s, priority, 0);
        ForkIsDispatch(s, priority);
        GetThreadLeavesBest(Put(NewThread(s, priority), |s.threads|));
      }
    }
  }

  lemma BestAfterSignal(s: State, io: nat)
    requires Inv(s) && s.current.Some?
    ensures var r := Signal(s, io); Shape(r) && r.current.Some? && (BestRuns(r) <==> LeavesBest(s, OpSignal(io)))
  {
    hide QueuesOk, OthersOk, CurrentOk, ComparePriorities;
    if Accepts(s, io) {
      var k := |s.threads|;
      var w, c := Wake(s, io, k), s.current.value;
      TopOfWake(s, io, k, s.threads[c].priority);
      WakeAppendsWaiters(s, io, k);
      CompareLeavesBest(w, w.threads[c].quantumLeft == 0);
    }
  }

  lemma BestAfterWait(s: State, io: nat)
    requires Inv(s) && s.current.Some?
    ensures var r := Wait(s, io); Shape(r) && (r.current.Some? ==> (BestRuns(r) <==> LeavesBest(s, OpWait(io))))
  {
    hide QueuesOk, OthersOk, CurrentOk, GetThreadFromQueue;
    if Accepts(s, io) {
      var c := s.current.value;
      GetThreadLeavesBest(s.(threads :=
        s.threads[c := s.threads[c].(ioDevice := io, quantumLeft := s.maxQuantum, thState := WAITING)]));
    }
  }

  lemma BestAfterFinish(s: State)
    requires Inv(s) && s.current.Some?
    ensures var r := Finish(s); Shape(r) && (r.current.Some? ==> BestRuns(r))
  {
    hide QueuesOk, OthersOk, CurrentOk, GetThreadFromQueue;
    GetThreadLeavesBest(s);
  }

  /** Exactly when a call leaves a best thread running, for every call. */
  lemma BestRunsAfterCall(s: State, op: Op)
    requires Inv(s) && Enabled(s, op)
    ensures var r := Step(s, op); Shape(r) && (r.current.Some? ==> (BestRuns(r) <==> LeavesBest(s, op)))
  {
    hide QueuesOk, OthersOk, CurrentOk, Fork, Wait, Signal, Finish, CheckScheduler;
    match op
    case OpFork(priority) => BestAfterFork(s, priority);
    case OpWait(io) => BestAfterWait(s, io);
    case OpSignal(io) => BestAfterSignal(s, io);
    case OpExec =>
      if s.current.Some? {
        CheckLeavesBest(s);
      } else {
        NobodyChecks(s);
      }
    case OpFinish => BestAfterFinish(s);
  }

  lemma NobodyChecks(s: State)
    requires Shape(s) && s.current.None?
    ensures CheckScheduler(s) == s
  {
  }

  // ------------------------------------------------------------------ quanta

  /** A ready thread of priority t takes the processor from c. */
  predicate Beats(t: int, c: Thread, expired: bool) {
    c.thState == RUNNING && if expired then t >= c.priority else t > c.priority
  }

  /** The running thread loses the processor. */
  predicate HandsOver(s: State, op: Op)
    requires Shape(s) && s.current.Some?
  {
    var c := s.threads[s.current.value];
    match op
    case OpExec => Beats(Top(s), c, c.quantumLeft == 1)
    case OpFork(priority) => priority <= SO_MAX_PRIO && Beats(Max(Top(s), priority), c, c.quantumLeft == 1)
    case OpSignal(io) =>
      Accepts(s, io) && (Beats(Top(s), c, c.quantumLeft == 0) ||
        exists id :: 0 <= id < |s.threads| && WaitsOn(s.threads[id], io)
                     && Beats(s.threads[id].priority, c, c.quantumLeft == 0))
    case OpWait(io) => Accepts(s, io)
    case OpFinish => true
  }

  /** A comparison keeps the state, or the successor starts with a full quantum. */
  lemma CompareCurrent(s: State, expired: bool)
    requires Owned(s) && s.current.Some?
    ensures var r, c := ComparePriorities(s, expired), s.threads[s.current.value];
            && Shape(r) && r.current.Some?
            && (r.current != s.current <==> Beats(Top(s), c, expired))
            && (if r.current == s.current then r == s else r.threads[r.current.value].quantumLeft == s.maxQuantum)
  {
    hide QueuesOk, OthersOk;
    ComparePrioritiesOk(s, expired);
    if Top(s) >= 0 {
      HeadIsReady(s);
      ReadyFacts(s, s.ready[Top(s)][0]);
    }
  }

  lemma CheckCurrent(s: State)
    requires Owned(s) && s.current.Some?
    ensures var r, c := CheckScheduler(s), s.threads[s.current.value];
            && Shape(r) && r.current.Some?
            && (r.current != s.current <==> Beats(Top(s), c, c.quantumLeft == 1))
            && r.threads[r.current.value].quantumLeft ==
               if r.current != s.current then s.maxQuantum
               else if Top(s) < 0 then c.quantumLeft
               else Tick(c.quantumLeft)
  {
    hide QueuesOk, OthersOk, CurrentOk, CheckScheduler, ComparePriorities;
    CheckCases(s);
    CompareCurrent(Ticked(s), s.threads[s.current.value].quantumLeft == 1);
  }

  /** The dispatched thread has a full quantum, and is none that was not ready. */
  lemma GetThreadCurrent(s: State)
    requires Shape(s) && QueuesOk(s)
    ensures var r := GetThreadFromQueue(s);
            && Shape(r)
            && (r.current.Some? ==>
                  r.threads[r.current.value].quantumLeft == s.maxQuantum
                  && r.current.value < |s.threads| && IsReady(s, r.current.value))
  {
    hide QueuesOk;
    if Top(s) >= 0 {
      HeadIsReady(s);
      ReadyFacts(s, s.ready[Top(s)][0]);
    }
  }

  lemma BeatsSomewhere(s: State, io: nat, c: Thread, expired: bool)
    requires Shape(s)
    ensures Beats(Top(Wake(s, io, |s.threads|)), c, expired) <==>
            Beats(Top(s), c, expired) ||
            exists id :: 0 <= id < |s.threads| && WaitsOn(s.threads[id], io)
                         && Beats(s.threads[id].priority, c, expired)
  {
    hide Wake, Shape, Top, WaitsOn;
    TopOfWake(s, io, |s.threads|, if expired then c.priority - 1 else c.priority);
  }

  lemma SignalCurrent(s: State, io: nat)
    requires Inv(s) && s.current.Some? && Sound(s, OpSignal(io))
    ensures var r, c := Signal(s, io), s.threads[s.current.value];
            && Shape(r) && r.current.Some?
            && (r.current != s.current <==> HandsOver(s, OpSignal(io)))
            && r.threads[r.current.value].quantumLeft == if r.current != s.current then s.maxQuantum else c.quantumLeft
  {
    hide QueuesOk, OthersOk, CurrentOk, ComparePriorities, Beats;
    if Accepts(s, io) {
      var k, c := |s.threads|, s.current.value;
      var w := Wake(s, io, k);
      WakeAllOk(s, io);
      WakeAppendsWaiters(s, io, k);
      RunningIsNotWoken(s, io);
      BeatsSomewhere(s, io, s.threads[c], s.threads[c].quantumLeft == 0);
      CompareCurrent(w, w.threads[c].quantumLeft == 0);
    }
  }

  lemma RunningIsNotWoken(s: State, io: nat)
    requires Inv(s) && s.current.Some? && Sound(s, OpSignal(io)) && Accepts(s, io)
    ensures !WaitsOn(s.threads[s.current.value], io)
  {
  }

  lemma WaitCurrent(s: State, io: nat)
    requires Inv(s) && s.current.Some?
    ensures var r := Wait(s, io);
            && Shape(r) && (r.current != s.current <==> HandsOver(s, OpWait(io)))
            && (r.current.Some? && r.current != s.current ==> r.threads[r.current.value].quantumLeft == s.maxQuantum)
            && (r.current == s.current ==> r == s)
  {
    hide OthersOk, CurrentOk, GetThreadFromQueue, QueuesOk;
    if Accepts(s, io) {
      var c := s.current.value;
      var t := s.threads[c].(ioDevice := io, quantumLeft := s.maxQuantum, thState := WAITING);
      CurrentIsNotReady(s);
      UpdateOk(s, c, t, {c});
      GetThreadCurrent(s.(threads := s.threads[c := t]));
    }
  }

  lemma CurrentIsNotReady(s: State)
    requires Owned(s) && s.current.Some?
    ensures !IsReady(s, s.current.value)
  {
  }

  lemma FinishCurrent(s: State)
    requires Inv(s) && s.current.Some?
    ensures var r := Finish(s);
            && Shape(r) && r.current != s.current
            && (r.current.Some? ==> r.threads[r.current.value].quantumLeft == s.maxQuantum)
  {
    hide OthersOk, CurrentOk, GetThreadFromQueue, QueuesOk;
    CurrentIsNotReady(s);
    GetThreadCurrent(s);
  }

  lemma ForkCurrent(s: State, priority: nat)
    requires Inv(s) && s.current.Some?
    ensures var r, c := Fork(s, priority), s.threads[s.current.value];
            && Shape(r) && r.current.Some?
            && (r.current != s.current <==> HandsOver(s, OpFork(priority)))
            && r.threads[r.current.value].quantumLeft ==
               if r.current != s.current then s.maxQuantum
               else if priority > SO_MAX_PRIO then c.quantumLeft
               else Tick(c.quantumLeft)
  {
    hide QueuesOk, OthersOk, CurrentOk, CheckScheduler, Beats;
    if priority <= SO_MAX_PRIO {
      Forked(s, priority);
      CheckCurrent(Put(NewThread(s, priority), |s.threads|));
    }
  }

  lemma FirstForkCurrent(s: State, priority: nat)
    requires Inv(s) && s.current.None?
    ensures var r := Fork(s, priority);
            Shape(r) && (r.current.Some? ==> r.threads[r.current.value].quantumLeft == s.maxQuantum)
  {
    hide QueuesOk, OthersOk, CurrentOk, GetThreadFromQueue;
    if priority <= SO_MAX_PRIO {
      ForkFirstJoins(s, priority, 0);
      ForkIsDispatch(s, priority);
      GetThreadCurrent(Put(NewThread(s, priority), |s.threads|));
    }
  }

  /** Exactly when a call takes the processor from the running thread, for every call. */
  lemma HandsOverExactlyWhen(s: State, op: Op)
    requires Inv(s) && s.current.Some? && Sound(s, op)
    ensures Step(s, op).current != s.current <==> HandsOver(s, op)
  {
    hide QueuesOk, OthersOk, CurrentOk, Fork, Wait, Signal, Finish, CheckScheduler, Beats;
    match op
    case OpFork(priority) => ForkCurrent(s, priority);
    case OpWait(io) => WaitCurrent(s, io);
    case OpSignal(io) => SignalCurrent(s, io);
    case OpExec => CheckCurrent(s);
    case OpFinish => FinishCurrent(s);
  }

  /** The call takes from a quantum that is used up already, and the thread runs on. */
  predicate Wraps(s: State, op: Op)
    requires Shape(s)
  {
    && s.current.Some?
    && s.threads[s.current.value].quantumLeft == 0
    && ((op.OpExec? && Top(s) >= 0) || (op.OpFork? && op.priority <= SO_MAX_PRIO))
    && !HandsOver(s, op)
  }

  /** The running thread has no more left than a quantum. */
  predicate WithinQuantum(s: State)
    requires Shape(s)
  {
    s.current.Some? ==> s.threads[s.current.value].quantumLeft <= s.maxQuantum
  }

  /** Exactly when a call leaves the running thread with more than a quantum. */
  lemma QuantumAfterCall(s: State, op: Op)
    requires Inv(s) && Enabled(s, op) && Sound(s, op) && s.maxQuantum < UINT_MAX && WithinQuantum(s)
    ensures var r := Step(s, op); Shape(r) && (WithinQuantum(r) <==> !Wraps(s, op))
  {
    hide QueuesOk, OthersOk, CurrentOk, Fork, Wait, Signal, Finish, CheckScheduler, HandsOver;
    StepKeepsQuantum(s, op);
    if s.current.None? {
      if op.OpFork? {
        FirstForkCurrent(s, op.priority);
      } else {
        NobodyChecks(s);
      }
    } else {
      SomebodyRan(s, op);
    }
  }

  lemma SomebodyRan(s: State, op: Op)
    requires Inv(s) && s.current.Some? && Sound(s, op) && s.maxQuantum < UINT_MAX && WithinQuantum(s)
    ensures var r := Step(s, op); Shape(r) && (WithinQuantum(r) <==> !Wraps(s, op))
  {
    hide QueuesOk, OthersOk, CurrentOk, Fork, Wait, Signal, Finish, CheckScheduler, Beats;
    StepKeepsQuantum(s, op);
    match op
    case OpFork(priority) => ForkCurrent(s, priority);
    case OpWait(io) => WaitCurrent(s, io);
    case OpSignal(io) => SignalCurrent(s, io);
    case OpExec => CheckCurrent(s);
    case OpFinish => FinishCurrent(s);
  }

  ghost predicate AllWithinQuantum(s: State, ops: seq<Op>)
    requires Inv(s) && Legal(s, ops)
    decreases |ops|
  {
    WithinQuantum(s) &&
    (ops != [] ==> (StepOk(s, ops[0]); AllWithinQuantum(Step(s, ops[0]), ops[1..])))
  }

  ghost predicate NoneWraps(s: State, ops: seq<Op>)
    requires Inv(s) && Legal(s, ops)
    decreases |ops|
  {
    ops != [] ==> !Wraps(s, ops[0]) && (StepOk(s, ops[0]); NoneWraps(Step(s, ops[0]), ops[1..]))
  }

  /** A run keeps the running thread within its quantum, in every state, if and only if no call wraps. */
  lemma {:induction false} RunsWithinQuantum(s: State, ops: seq<Op>)
    requires Inv(s) && Legal(s, ops) && s.maxQuantum < UINT_MAX && WithinQuantum(s)
    ensures AllWithinQuantum(s, ops) <==> NoneWraps(s, ops)
    decreases |ops|
  {
    hide Step, Wraps, Enabled, Sound, WithinQuantum, Owned, PriorityOk;
    if ops == [] {
    } else {
      OwnedIfInv(s);
      var r := Step(s, ops[0]);
      StepOk(s, ops[0]);
      QuantumAfterCall(s, ops[0]);
      StepKeepsQuantum(s, ops[0]);
      if WithinQuantum(r) {
        RunsWithinQuantum(r, ops[1..]);
      }
    }
  }

  /**
   A thread that uses up its quantum and is not replaced wraps round at the next
   exec and starts a quantum of 2^32 - 1.
   */
  lemma ExpiredWraps(s: State)
    requires Inv(s) && s.current.Some? && Top(s) >= 0 && s.threads[s.current.value].quantumLeft == 1
    requires !HandsOver(s, OpExec)
    ensures var c := s.current.value;
            ExecN(s, 2) == s.(threads := s.threads[c := s.threads[c].(quantumLeft := UINT_MAX)])
  {
    hide QueuesOk, OthersOk;
    HeadIsReady(s);
    var c := s.current.value;
    var s1 := s.(threads := s.threads[c := s.threads[c].(quantumLeft := 0)]);
    CheckSchedulerOk(s);
    assert Exec(s) == s1;
    assert Exec(s1) == s1.(threads := s1.threads[c := s1.threads[c].(quantumLeft := UINT_MAX)]);
    ExecSplit(s, 1, 1);
    ExecOnce(s);
    ExecOnce(s1);
  }

  // --------------------------------------------------------- what stays unchanged

  /** A call that is refused changes nothing. */
  lemma RefusedCalls(s: State, op: Op)
    requires Inv(s) && Enabled(s, op)
    requires match op
             case OpFork(priority) => priority > SO_MAX_PRIO
             case OpWait(io) => !Accepts(s, io)
             case OpSignal(io) => !Accepts(s, io)
             case OpExec => s.current.None? || Top(s) < 0
             case OpFinish => false
    ensures Step(s, op) == s
  {
    hide QueuesOk, OthersOk;
  }

  /** The record of thread i is the same, but for the mark it gets when it runs for the first time. */
  predicate SameRecord(s: State, r: State, i: nat)
    requires i < |s.threads| && i < |r.threads|
  {
    r.threads[i] ==
    if r.current == Some(i) && s.threads[i].thState == READY then s.threads[i].(thState := RUNNING) else s.threads[i]
  }

  lemma DispatchFrame(s: State, i: nat)
    requires Shape(s) && i < |s.threads|
    ensures var r := GetThreadFromQueue(s); |r.threads| == |s.threads| && SameRecord(s, r, i)
  {
    if Top(s) >= 0 {
      HeadIsReady(s);
    }
  }

  lemma CompareFrame(s: State, expired: bool, i: nat)
    requires Shape(s) && i < |s.threads| && s.current != Some(i)
    ensures var r := ComparePriorities(s, expired); |r.threads| == |s.threads| && SameRecord(s, r, i)
  {
    if MustSwitch(s, expired) {
      HeadIsReady(s);
    }
  }

  lemma CheckFrame(s: State, i: nat)
    requires Owned(s) && i < |s.threads| && s.current != Some(i)
    ensures var r := CheckScheduler(s); |r.threads| == |s.threads| && SameRecord(s, r, i)
  {
    hide QueuesOk, OthersOk, CurrentOk, CheckScheduler, ComparePriorities;
    if s.current.Some? {
      CheckCases(s);
      CompareFrame(Ticked(s), s.threads[s.current.value].quantumLeft == 1, i);
    } else {
      NobodyChecks(s);
    }
  }

  /**
   Exactly what a call does to the threads that do not make it: a signal clears the device
   of those it wakes, the thread that is dispatched for the first time becomes RUNNING, and
   everything else stays.
   */
  lemma OthersStay(s: State, op: Op, i: nat)
    requires Inv(s) && Enabled(s, op) && i < |s.threads| && s.current != Some(i)
    ensures var r := Step(s, op);
            && i < |r.threads|
            && if op.OpSignal? && Accepts(s, op.io) && WaitsOn(s.threads[i], op.io)
               then r.threads[i] == s.threads[i].(ioDevice := NO_DEVICE)
               else SameRecord(s, r, i)
  {
    hide QueuesOk, OthersOk, CurrentOk, ComparePriorities, CheckScheduler, GetThreadFromQueue, SameRecord;
    match op
    case OpFork(priority) => OthersStayInFork(s, priority, i);
    case OpWait(io) => OthersStayInWait(s, io, i);
    case OpSignal(io) => OthersStayInSignal(s, io, i);
    case OpExec => CheckFrame(s, i);
    case OpFinish =>
      DispatchFrame(s, i);
      SameThread(GetThreadFromQueue(s), Finish(s), s, i);
  }

  lemma SameThread(m: State, r: State, s: State, i: nat)
    requires i < |s.threads| && i < |m.threads| && i < |r.threads|
    requires r.threads[i] == m.threads[i] && r.current == m.current && SameRecord(s, m, i)
    ensures SameRecord(s, r, i)
  {
  }

  /** Changing another thread's record, or the queues, first makes no difference. */
  lemma FromThere(s: State, m: State, r: State, i: nat)
    requires i < |s.threads| && i < |m.threads| && i < |r.threads|
    requires m.threads[i] == s.threads[i] && SameRecord(m, r, i)
    ensures SameRecord(s, r, i)
  {
  }

  lemma Stays(s: State, i: nat)
    requires i < |s.threads| && s.current != Some(i)
    ensures SameRecord(s, s, i)
  {
  }

  lemma OthersStayInFork(s: State, priority: nat, i: nat)
    requires Inv(s) && i < |s.threads| && s.current != Some(i)
    ensures var r := Fork(s, priority); i < |r.threads| && SameRecord(s, r, i)
  {
    hide QueuesOk, OthersOk, CurrentOk, CheckScheduler, GetThreadFromQueue, SameRecord;
    Stays(s, i);
    if priority <= SO_MAX_PRIO {
      var m := Put(NewThread(s, priority), |s.threads|);
      if s.current.Some? {
        Forked(s, priority);
        CheckFrame(m, i);
      } else {
        ForkFirstJoins(s, priority, 0);
        ForkIsDispatch(s, priority);
        DispatchFrame(m, i);
      }
      FromThere(s, m, Fork(s, priority), i);
    }
  }

  lemma OthersStayInWait(s: State, io: nat, i: nat)
    requires Inv(s) && s.current.Some? && i < |s.threads| && s.current != Some(i)
    ensures var r := Wait(s, io); i < |r.threads| && SameRecord(s, r, i)
  {
    hide QueuesOk, OthersOk, CurrentOk, GetThreadFromQueue, SameRecord;
    Stays(s, i);
    if Accepts(s, io) {
      var c := s.current.value;
      var m := s.(threads :=
        s.threads[c := s.threads[c].(ioDevice := io, quantumLeft := s.maxQuantum, thState := WAITING)]);
      DispatchFrame(m, i);
      FromThere(s, m, Wait(s, io), i);
    }
  }

  lemma OthersStayInSignal(s: State, io: nat, i: nat)
    requires Inv(s) && s.current.Some? && i < |s.threads| && s.current != Some(i)
    ensures var r := Signal(s, io);
            && i < |r.threads|
            && if Accepts(s, io) && WaitsOn(s.threads[i], io) then r.threads[i] == s.threads[i].(ioDevice := NO_DEVICE)
               else SameRecord(s, r, i)
  {
    hide QueuesOk, OthersOk, CurrentOk, ComparePriorities, SameRecord;
    Stays(s, i);
    if Accepts(s, io) {
      var w := Wake(s, io, |s.threads|);
      WakeAppendsWaiters(s, io, |s.threads|);
      var e := w.threads[w.current.value].quantumLeft == 0;
      CompareFrame(w, e, i);
      if WaitsOn(s.threads[i], io) {
        WokenStays(w, ComparePriorities(w, e), i);
      } else {
        FromThere(s, w, Signal(s, io), i);
      }
    }
  }

  lemma WokenStays(s: State, r: State, i: nat)
    requires i < |s.threads| && i < |r.threads| && SameRecord(s, r, i) && s.threads[i].thState == WAITING
    ensures r.threads[i] == s.threads[i]
  {
  }

  /** One unit less, unsigned. */
  function OneLess(q: nat): nat {
    if q == 0 then UINT_MAX else q - 1
  }

  /** What a call leaves of the record c of the thread that makes it, and that is in state s. */
  function Caller(s: State, op: Op, c: Thread): Thread
    requires Shape(s) && s.current.Some?
  {
    match op
    case OpExec =>
      if HandsOver(s, op) then c.(quantumLeft := s.maxQuantum)
      else if Top(s) >= 0 then c.(quantumLeft := OneLess(c.quantumLeft)) else c
    case OpFork(priority) =>
      if HandsOver(s, op) then c.(quantumLeft := s.maxQuantum)
      else if priority <= SO_MAX_PRIO then c.(quantumLeft := OneLess(c.quantumLeft)) else c
    case OpSignal(_) => if HandsOver(s, op) then c.(quantumLeft := s.maxQuantum) else c
    case OpWait(io) =>
      if HandsOver(s, op) then c.(ioDevice := io, quantumLeft := s.maxQuantum, thState := WAITING) else c
    case OpFinish => c.(thState := TERMINATED)
  }

  /** Exactly what a call does to the thread that makes it. */
  lemma CallerChanges(s: State, op: Op)
    requires Inv(s) && s.current.Some? && Sound(s, op)
    ensures var c, r := s.current.value, Step(s, op);
            c < |r.threads| && r.threads[c] == Caller(s, op, s.threads[c])
  {
    hide QueuesOk, OthersOk, CurrentOk, HandsOver, Fork, Wait, Signal;
    hide ComparePriorities, CheckScheduler, GetThreadFromQueue;
    HandsOverExactlyWhen(s, op);
    match op
    case OpFork(priority) => ForkCaller(s, priority);
    case OpWait(io) => WaitCaller(s, io);
    case OpSignal(io) => SignalCaller(s, io);
    case OpExec => CheckCaller(s);
    case OpFinish => FinishCaller(s);
  }

  lemma CompareCaller(s: State, expired: bool)
    requires Owned(s) && s.current.Some?
    ensures var r, c := ComparePriorities(s, expired), s.current.value;
            && c < |r.threads|
            && r.threads[c] ==
               if r.current == s.current then s.threads[c] else s.threads[c].(quantumLeft := s.maxQuantum)
  {
    hide QueuesOk, OthersOk;
    if Top(s) >= 0 {
      HeadIsReady(s);
    }
  }

  lemma CheckCaller(s: State)
    requires Owned(s) && s.current.Some?
    ensures var r, c := CheckScheduler(s), s.current.value;
            && c < |r.threads|
            && r.threads[c] ==
               if r.current != s.current then s.threads[c].(quantumLeft := s.maxQuantum)
               else if Top(s) >= 0 then s.threads[c].(quantumLeft := OneLess(s.threads[c].quantumLeft))
               else s.threads[c]
  {
    hide QueuesOk, OthersOk, CurrentOk, CheckScheduler, ComparePriorities;
    CheckCases(s);
    CompareCaller(Ticked(s), s.threads[s.current.value].quantumLeft == 1);
  }

  lemma ForkCaller(s: State, priority: nat)
    requires Inv(s) && s.current.Some?
    ensures var r, c := Fork(s, priority), s.current.value;
            && c < |r.threads|
            && r.threads[c] ==
               if r.current != s.current then s.threads[c].(quantumLeft := s.maxQuantum)
               else if priority <= SO_MAX_PRIO then s.threads[c].(quantumLeft := OneLess(s.threads[c].quantumLeft))
               else s.threads[c]
  {
    hide QueuesOk, OthersOk, CurrentOk, CheckScheduler;
    if priority <= SO_MAX_PRIO {
      Forked(s, priority);
      CheckCaller(Put(NewThread(s, priority), |s.threads|));
    }
  }

  lemma SignalCaller(s: State, io: nat)
    requires Inv(s) && s.current.Some? && Sound(s, OpSignal(io))
    ensures var r, c := Signal(s, io), s.current.value;
            && c < |r.threads|
            && r.threads[c] ==
               if r.current != s.current then s.threads[c].(quantumLeft := s.maxQuantum) else s.threads[c]
  {
    hide QueuesOk, OthersOk, CurrentOk, ComparePriorities;
    if Accepts(s, io) {
      var w := Wake(s, io, |s.threads|);
      WakeAllOk(s, io);
      WakeAppendsWaiters(s, io, |s.threads|);
      RunningIsNotWoken(s, io);
      CompareCaller(w, w.threads[w.current.value].quantumLeft == 0);
    }
  }

  lemma WaitCaller(s: State, io: nat)
    requires Inv(s) && s.current.Some?
    ensures var r, c := Wait(s, io), s.current.value;
            && c < |r.threads|
            && r.threads[c] ==
               if Accepts(s, io) then s.threads[c].(ioDevice := io, quantumLeft := s.maxQuantum, thState := WAITING)
               else s.threads[c]
    ensures Wait(s, io).current != s.current <==> Accepts(s, io)
  {
    hide QueuesOk, OthersOk, CurrentOk, GetThreadFromQueue;
    if Accepts(s, io) {
      WaitLeaves(s, io);
    }
  }

  lemma FinishCaller(s: State)
    requires Inv(s) && s.current.Some?
    ensures var r, c := Finish(s), s.current.value;
            c < |r.threads| && r.threads[c] == s.threads[c].(thState := TERMINATED)
  {
    hide QueuesOk, OthersOk, CurrentOk, GetThreadFromQueue;
    CurrentIsNotReady(s);
    GetThreadCurrent(s);
    DispatchFrame(s, s.current.value);
    FinishCurrent(s);
  }

  /** A fork adds one thread, READY with a full quantum; it is RUNNING if it is dispatched at once. */
  lemma NewThreadIs(s: State, op: Op)
    requires Inv(s) && Enabled(s, op)
    ensures var n, r := |s.threads|, Step(s, op);
            if op.OpFork? && op.priority <= SO_MAX_PRIO
            then
              var state := if r.current == Some(n) then RUNNING else READY;
              |r.threads| == n + 1 && r.threads[n] == Thread(op.priority, s.maxQuantum, state, NO_DEVICE)
            else |r.threads| == n
  {
    hide QueuesOk, OthersOk, CurrentOk, ComparePriorities, CheckScheduler, GetThreadFromQueue;
    if op.OpFork? && op.priority <= SO_MAX_PRIO {
      var m := Put(NewThread(s, op.priority), |s.threads|);
      if s.current.Some? {
        Forked(s, op.priority);
        CheckFrame(m, |s.threads|);
      } else {
        ForkFirstJoins(s, op.priority, 0);
        ForkIsDispatch(s, op.priority);
        DispatchFrame(m, |s.threads|);
      }
    } else {
      NobodyNew(s, op);
    }
  }

  lemma NobodyNew(s: State, op: Op)
    requires Inv(s) && Enabled(s, op) && !(op.OpFork? && op.priority <= SO_MAX_PRIO)
    ensures |Step(s, op).threads| == |s.threads|
  {
    hide QueuesOk, OthersOk, CurrentOk;
  }
}
