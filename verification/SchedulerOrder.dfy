/**
 In which order the scheduler moves threads: who a signal wakes, and the queue law
 that equal-priority threads are dispatched in the order they were enqueued.
 */
module SchedulerOrder {
  import opened Wrappers
  import opened SchedulerModel
  import opened SchedulerSafety

  // ----------------------------------------------------------------- signals

  /** Thread id is queued, its device cleared. */
  function Woken(s: State, id: nat): State
    requires Shape(s) && id < |s.threads|
  {
    Put(s.(threads := s.threads[id := s.threads[id].(ioDevice := NO_DEVICE)]), id)
  }

  lemma WokenAppends(s: State, id: nat)
    requires Shape(s) && id < |s.threads|
    ensures |Woken(s, id).ready| == |s.ready|
    ensures forall p :: 0 <= p < |s.ready| ==>
              Woken(s, id).ready[p] == s.ready[p] + if p == s.threads[id].priority then [id] else []
    ensures Woken(s, id).threads == s.threads[id := s.threads[id].(ioDevice := NO_DEVICE)]
  {
  }

  lemma WakeNext(s: State, io: nat, k: nat)
    requires Shape(s) && 0 < k <= |s.threads|
    ensures var r := Wake(s, io, k - 1);
            && r.threads[k - 1] == s.threads[k - 1] && |r.threads| == |s.threads| && Shape(r)
            && Wake(s, io, k) == if WaitsOn(s.threads[k - 1], io) then Woken(r, k - 1) else r
  {
  }

  /** A signal appends exactly the waiters, once each and in creation order. */
  lemma {:induction false} WakeAppendsWaiters(s: State, io: nat, k: nat)
    requires Shape(s) && k <= |s.threads|
    ensures |Wake(s, io, k).ready| == |s.ready|
    ensures forall p :: 0 <= p < |s.ready| ==> Wake(s, io, k).ready[p] == s.ready[p] + Waiters(s, io, p, k)
    ensures forall i :: 0 <= i < k ==>
              Wake(s, io, k).threads[i] ==
              if WaitsOn(s.threads[i], io) then s.threads[i].(ioDevice := NO_DEVICE) else s.threads[i]
    decreases k
  {
    hide Woken, WaitsOn, Shape;
    if k == 0 {
    } else {
      WakeAppendsWaiters(s, io, k - 1);
      WakeNext(s, io, k);
      WokenAppends(Wake(s, io, k - 1), k - 1);
    }
  }

  /** Waiters lists thread i exactly when it waits on io at priority p, in increasing order. */
  lemma {:induction false} WaitersAreExact(s: State, io: nat, p: nat, k: nat)
    requires k <= |s.threads|
    ensures var w := Waiters(s, io, p, k);
            && (forall i :: 0 <= i < |w| ==> w[i] < k)
            && (forall i, j :: 0 <= i < j < |w| ==> w[i] < w[j])
            && forall i: nat :: i < k ==> (i in w <==> WaitsOn(s.threads[i], io) && s.threads[i].priority == p)
    decreases k
  {
    if k == 0 {
    } else {
      WaitersAreExact(s, io, p, k - 1);
    }
  }

  /** so_signal's answer is the number of threads it moved. */
  lemma {:induction false} CountIsAllWaiters(s: State, io: nat, k: nat)
    requires Shape(s) && k <= |s.threads|
    ensures WaiterCount(s, io, k) ==
            |Waiters(s, io, 0, k)| + |Waiters(s, io, 1, k)| + |Waiters(s, io, 2, k)| +
            |Waiters(s, io, 3, k)| + |Waiters(s, io, 4, k)| + |Waiters(s, io, 5, k)|
    decreases k
  {
    if k == 0 {
    } else {
      CountIsAllWaiters(s, io, k - 1);
    }
  }

  // --------------------------------------------------------------- queue law

  /** The thread that had the processor in s and lost it to another in r, if of priority p. */
  function Lost(s: State, r: State, p: nat): seq<nat>
    requires Shape(s)
  {
    if s.current.Some? && r.current != s.current && s.threads[s.current.value].priority == p
    then [s.current.value] else []
  }

  /** The thread of priority p, if any, that has the processor in r and had it not in s. */
  function Gained(s: State, r: State, p: nat): seq<nat>
    requires Shape(r)
  {
    if r.current.Some? && r.current != s.current && r.threads[r.current.value].priority == p
    then [r.current.value] else []
  }

  /** Going from s to r, queue p was left at the front by whoever gained the processor and joined at the back. */
  predicate QueueLaw(s: State, r: State, p: nat, joined: seq<nat>)
    requires Shape(s) && p <= SO_MAX_PRIO
  {
    && Shape(r)
    && |s.threads| <= |r.threads|
    && (forall i :: 0 <= i < |s.threads| ==> r.threads[i].priority == s.threads[i].priority)
    && Gained(s, r, p) + r.ready[p] == s.ready[p] + joined
  }

  /** What a dispatch does: the head of queue t gets the processor. */
  predicate Dispatched(s: State, r: State, t: nat) {
    && Shape(s) && Shape(r) && |r.threads| == |s.threads|
    && (forall i :: 0 <= i < |s.threads| ==> r.threads[i].priority == s.threads[i].priority)
    && t < |s.ready| && s.ready[t] != [] && s.threads[s.ready[t][0]].priority == t
    && r.current == Some(s.ready[t][0]) && r.current != s.current
    && forall p :: 0 <= p < |s.ready| ==> r.ready[p] == if p == t then s.ready[p][1..] else s.ready[p]
  }

  lemma DispatchFacts(s: State)
    requires Shape(s) && Top(s) >= 0 && (s.current.Some? ==> !IsReady(s, s.current.value))
    ensures Dispatched(s, GetThreadFromQueue(s), Top(s))
  {
    HeadIsReady(s);
  }

  lemma DispatchLaw(s: State, r: State, t: nat, p: nat)
    requires Dispatched(s, r, t) && p <= SO_MAX_PRIO
    ensures QueueLaw(s, r, p, [])
  {
    var q := s.ready[p];
    if p == t {
      assert [q[0]] + q[1..] == q + [];
    } else {
      assert [] + q == q + [];
    }
  }

  lemma NobodyToDispatch(s: State, p: nat)
    requires Shape(s) && Top(s) < 0 && p <= SO_MAX_PRIO
    ensures QueueLaw(s, GetThreadFromQueue(s), p, [])
  {
  }

  lemma GetThreadLaw(s: State, p: nat)
    requires Shape(s) && p <= SO_MAX_PRIO
    requires s.current.Some? ==> !IsReady(s, s.current.value)
    ensures QueueLaw(s, GetThreadFromQueue(s), p, [])
  {
    hide *;
    if Top(s) >= 0 {
      DispatchFacts(s);
      DispatchLaw(s, GetThreadFromQueue(s), Top(s), p);
    } else {
      NobodyToDispatch(s, p);
    }
  }

  /** Threads join queue p, then the processor may change hands. */
  lemma JoinThen(s: State, m: State, r: State, p: nat, joined: seq<nat>)
    requires Shape(s) && Shape(m) && p <= SO_MAX_PRIO
    requires m.current == s.current && m.ready[p] == s.ready[p] + joined
    requires |s.threads| <= |m.threads|
    requires forall i :: 0 <= i < |s.threads| ==> m.threads[i].priority == s.threads[i].priority
    requires QueueLaw(m, r, p, Lost(m, r, p))
    ensures QueueLaw(s, r, p, joined + Lost(s, r, p))
  {
    assert Lost(m, r, p) == Lost(s, r, p) && Gained(m, r, p) == Gained(s, r, p);
    assert s.ready[p] + joined + Lost(s, r, p) == s.ready[p] + (joined + Lost(s, r, p));
  }

  /** What a switch does: the head of queue t gets the processor, c goes to the back of its own queue. */
  predicate Switched(s: State, r: State, t: nat, c: nat) {
    && Shape(s) && Shape(r) && |r.threads| == |s.threads|
    && (forall i :: 0 <= i < |s.threads| ==> r.threads[i].priority == s.threads[i].priority)
    && t < |s.ready| && s.ready[t] != [] && s.threads[s.ready[t][0]].priority == t
    && s.current == Some(c) && r.current == Some(s.ready[t][0]) && s.ready[t][0] != c
    && forall p :: 0 <= p < |s.ready| ==>
         r.ready[p] == (if p == t then s.ready[p][1..] else s.ready[p]) + if p == s.threads[c].priority then [c] else []
  }

  lemma SwitchFacts(s: State, expired: bool)
    requires Owned(s) && MustSwitch(s, expired)
    ensures Switched(s, ComparePriorities(s, expired), Top(s), s.current.value)
  {
    hide QueuesOk, OthersOk;
    ComparePrioritiesOk(s, expired);
    HeadIsReady(s);
  }

  lemma SwitchLaw(s: State, r: State, t: nat, c: nat, p: nat)
    requires Switched(s, r, t, c) && p <= SO_MAX_PRIO
    ensures QueueLaw(s, r, p, Lost(s, r, p)) && r.current.Some?
  {
    var q, l := s.ready[p], Lost(s, r, p);
    if p == t {
      assert r.ready[p] == q[1..] + l;
      assert [q[0]] + (q[1..] + l) == q + l;
    } else {
      assert r.ready[p] == q + l;
      assert [] + (q + l) == q + l;
    }
  }

  lemma CompareLaw(s: State, expired: bool, p: nat)
    requires Owned(s) && p <= SO_MAX_PRIO
    ensures var r := ComparePriorities(s, expired);
            QueueLaw(s, r, p, Lost(s, r, p)) && (s.current.Some? ==> r.current.Some?)
  {
    hide QueuesOk, OthersOk;
    var r := ComparePriorities(s, expired);
    if MustSwitch(s, expired) {
      hide *;
      OwnedShape(s);
      SwitchFacts(s, expired);
      SwitchLaw(s, r, Top(s), s.current.value, p);
    }
  }

  lemma OwnedShape(s: State)
    requires Owned(s)
    ensures Shape(s)
  {
  }

  /** The law does not look at quanta. */
  lemma SameLaw(s: State, m: State, r: State, p: nat)
    requires Shape(s) && Shape(m) && p <= SO_MAX_PRIO
    requires m.current == s.current && m.ready == s.ready && |m.threads| == |s.threads|
    requires forall i :: 0 <= i < |s.threads| ==> m.threads[i].priority == s.threads[i].priority
    requires QueueLaw(m, r, p, Lost(m, r, p))
    ensures QueueLaw(s, r, p, Lost(s, r, p))
  {
    assert Gained(m, r, p) == Gained(s, r, p);
  }

  lemma StayLaw(s: State, p: nat)
    requires Shape(s) && p <= SO_MAX_PRIO
    ensures QueueLaw(s, s, p, Lost(s, s, p))
  {
  }

  lemma CheckLaw(s: State, p: nat)
    requires Owned(s) && p <= SO_MAX_PRIO
    ensures var r := CheckScheduler(s);
            QueueLaw(s, r, p, Lost(s, r, p)) && (s.current.Some? ==> r.current.Some?)
  {
    hide QueuesOk, OthersOk, CurrentOk, QueueLaw, Lost, ComparePriorities, Top;
    StayLaw(s, p);
    if s.current.Some? && Top(s) >= 0 && |s.threads| > 1 {
      var c := s.current.value;
      var q := Tick(s.threads[c].quantumLeft);
      var s1 := s.(threads := s.threads[c := s.threads[c].(quantumLeft := q)]);
      TickedOk(s, q);
      CompareLaw(s1, q == 0, p);
      SameLaw(s, s1, CheckScheduler(s), p);
    }
  }

  lemma TickedOk(s: State, q: nat)
    requires Owned(s) && s.current.Some?
    ensures var c := s.current.value; Owned(s.(threads := s.threads[c := s.threads[c].(quantumLeft := q)]))
  {
    hide QueuesOk, OthersOk;
    var c := s.current.value;
    UpdateOk(s, c, s.threads[c].(quantumLeft := q), {c});
    assert {c} + {c} == {c};
  }

  /** Threads that join queue p during one call, in the order in which they join. */
  function Enqueued(s: State, op: Op, p: nat): seq<nat>
    requires Shape(s) && Enabled(s, op)
  {
    match op
    case OpFork(priority) =>
      (if priority == p then [|s.threads|] else []) + Lost(s, Step(s, op), p)
    case OpWait(io) => []
    case OpSignal(io) =>
      (if Accepts(s, io) then Waiters(s, io, p, |s.threads|) else []) + Lost(s, Step(s, op), p)
    case OpExec => Lost(s, Step(s, op), p)
    case OpFinish => []
  }

  lemma PutLaw(s: State, id: nat, p: nat)
    requires Shape(s) && id < |s.threads| && p <= SO_MAX_PRIO
    ensures Put(s, id).ready[p] == s.ready[p] + if s.threads[id].priority == p then [id] else []
    ensures Put(s, id).threads == s.threads && Put(s, id).current == s.current
  {
  }

  lemma ForkIsCheck(s: State, priority: nat)
    requires Shape(s) && priority <= SO_MAX_PRIO && s.current.Some?
    ensures Fork(s, priority) == CheckScheduler(Put(NewThread(s, priority), |s.threads|))
  {
  }

  lemma ForkIsDispatch(s: State, priority: nat)
    requires Shape(s) && priority <= SO_MAX_PRIO && s.current.None?
    ensures Fork(s, priority) == GetThreadFromQueue(Put(NewThread(s, priority), |s.threads|))
  {
  }

  lemma ForkFirstJoins(s: State, priority: nat, p: nat)
    requires Inv(s) && p <= SO_MAX_PRIO && priority <= SO_MAX_PRIO && s.current.None?
    ensures var m := Put(NewThread(s, priority), |s.threads|);
            && Shape(m) && QueuesOk(m) && m.current == s.current && |s.threads| <= |m.threads|
            && m.ready[p] == s.ready[p] + (if priority == p then [|s.threads|] else [])
            && forall i :: 0 <= i < |s.threads| ==> m.threads[i].priority == s.threads[i].priority
  {
    hide QueuesOk, OthersOk;
    var n, s1 := |s.threads|, NewThread(s, priority);
    NewThreadOk(s, priority, Running(s));
    PutOk(s1, n, Running(s));
    PutLaw(s1, n, p);
  }

  lemma JoinFirst(s: State, m: State, r: State, p: nat, joined: seq<nat>)
    requires Shape(s) && Shape(m) && p <= SO_MAX_PRIO
    requires m.current == s.current && m.ready[p] == s.ready[p] + joined
    requires |s.threads| <= |m.threads|
    requires forall i :: 0 <= i < |s.threads| ==> m.threads[i].priority == s.threads[i].priority
    requires QueueLaw(m, r, p, [])
    ensures QueueLaw(s, r, p, joined)
  {
    assert Gained(m, r, p) == Gained(s, r, p);
  }

  lemma ForkFirstLaw(s: State, priority: nat, p: nat)
    requires Inv(s) && p <= SO_MAX_PRIO && priority <= SO_MAX_PRIO && s.current.None?
    ensures QueueLaw(s, Fork(s, priority), p, if priority == p then [|s.threads|] else [])
  {
    hide QueueLaw, QueuesOk, OthersOk, CurrentOk, PriorityOk, GetThreadFromQueue, Fork, Top;
    var m := Put(NewThread(s, priority), |s.threads|);
    ForkFirstJoins(s, priority, p);
    ForkIsDispatch(s, priority);
    GetThreadLaw(m, p);
    JoinFirst(s, m, Fork(s, priority), p, if priority == p then [|s.threads|] else []);
  }

  lemma ForkLaterLaw(s: State, priority: nat, p: nat)
    requires Inv(s) && p <= SO_MAX_PRIO && priority <= SO_MAX_PRIO && s.current.Some?
    ensures QueueLaw(s, Fork(s, priority), p, Enqueued(s, OpFork(priority), p))
  {
    var s2, j := Put(NewThread(s, priority), |s.threads|), if priority == p then [|s.threads|] else [];
    ForkJoins(s, priority, p);
    hide *;
    ForkIsCheck(s, priority);
    CheckLaw(s2, p);
    JoinThen(s, s2, Fork(s, priority), p, j);
    ForkEnqueues(s, priority, p);
  }

  lemma ForkJoins(s: State, priority: nat, p: nat)
    requires Inv(s) && p <= SO_MAX_PRIO && priority <= SO_MAX_PRIO && s.current.Some?
    ensures var m := Put(NewThread(s, priority), |s.threads|);
            && Owned(m) && Shape(m) && m.current == s.current && |s.threads| <= |m.threads|
            && m.ready[p] == s.ready[p] + (if priority == p then [|s.threads|] else [])
            && forall i :: 0 <= i < |s.threads| ==> m.threads[i].priority == s.threads[i].priority
  {
    hide QueuesOk, OthersOk;
    var n, s1 := |s.threads|, NewThread(s, priority);
    NewThreadOk(s, priority, Running(s));
    PutOk(s1, n, Running(s));
    PutLaw(s1, n, p);
  }

  lemma ForkEnqueues(s: State, priority: nat, p: nat)
    requires Inv(s) && p <= SO_MAX_PRIO && priority <= SO_MAX_PRIO
    ensures Enqueued(s, OpFork(priority), p) ==
            (if priority == p then [|s.threads|] else []) + Lost(s, Fork(s, priority), p)
  {
    hide Fork, QueuesOk, OthersOk, Lost;
  }

  lemma ForkLaw(s: State, priority: nat, p: nat)
    requires Inv(s) && p <= SO_MAX_PRIO
    ensures QueueLaw(s, Fork(s, priority), p, Enqueued(s, OpFork(priority), p))
  {
    hide QueuesOk, OthersOk;
    if priority <= SO_MAX_PRIO {
      hide QueueLaw, Fork;
      ForkEnqueues(s, priority, p);
      if s.current.None? {
        ForkFirstLaw(s, priority, p);
      } else {
        ForkLaterLaw(s, priority, p);
      }
    }
  }

  lemma NothingMoves(s: State, p: nat)
    requires Shape(s) && p <= SO_MAX_PRIO
    ensures QueueLaw(s, s, p, [] + Lost(s, s, p))
  {
  }

  lemma SignalLaw(s: State, io: nat, p: nat)
    requires Inv(s) && s.current.Some? && Sound(s, OpSignal(io)) && p <= SO_MAX_PRIO
    ensures QueueLaw(s, Signal(s, io), p, Enqueued(s, OpSignal(io), p))
  {
    hide QueuesOk, OthersOk, CurrentOk, QueueLaw, Lost, ComparePriorities;
    NothingMoves(s, p);
    if Accepts(s, io) {
      var k := |s.threads|;
      var r := Wake(s, io, k);
      WakeAllOk(s, io);
      WakeAppendsWaiters(s, io, k);
      CompareLaw(r, r.threads[r.current.value].quantumLeft == 0, p);
      JoinThen(s, r, Signal(s, io), p, Waiters(s, io, p, k));
    }
  }

  lemma WaitLaw(s: State, io: nat, p: nat)
    requires Inv(s) && s.current.Some? && p <= SO_MAX_PRIO
    ensures QueueLaw(s, Wait(s, io), p, [])
  {
    hide OthersOk;
    if Accepts(s, io) {
      var c := s.current.value;
      var t := s.threads[c].(ioDevice := io, quantumLeft := s.maxQuantum, thState := WAITING);
      UpdateOk(s, c, t, {c});
      GetThreadLaw(s.(threads := s.threads[c := t]), p);
    }
  }

  lemma FinishLaw(s: State, p: nat)
    requires Inv(s) && s.current.Some? && p <= SO_MAX_PRIO
    ensures QueueLaw(s, Finish(s), p, [])
  {
    hide GetThreadFromQueue, QueuesOk, OthersOk;
    GetThreadLaw(s, p);
    var r, c := GetThreadFromQueue(s), s.current.value;
    assert forall i :: 0 <= i < |r.threads| ==> Finish(s).threads[i].priority == r.threads[i].priority;
  }

  /** The queue law of one call. */
  lemma StepLaw(s: State, op: Op, p: nat)
    requires Inv(s) && Enabled(s, op) && Sound(s, op) && p <= SO_MAX_PRIO
    ensures QueueLaw(s, Step(s, op), p, Enqueued(s, op, p))
  {
    hide QueueLaw, Fork, Wait, Signal, CheckScheduler, QueuesOk, OthersOk, Lost;
    match op
    case OpFork(priority) => ForkLaw(s, priority, p);
    case OpWait(io) => WaitLaw(s, io, p);
    case OpSignal(io) => SignalLaw(s, io, p);
    case OpExec => CheckLaw(s, p);
    case OpFinish => FinishLaw(s, p);
  }

  /** All threads that joined queue p in a run, in order. */
  ghost function EnqueueLog(s: State, ops: seq<Op>, p: nat): seq<nat>
    requires Inv(s) && Legal(s, ops)
    decreases |ops|
  {
    if ops == [] then []
    else
      StepOk(s, ops[0]);
      Enqueued(s, ops[0], p) + EnqueueLog(Step(s, ops[0]), ops[1..], p)
  }

  /** All threads of priority p that got the processor in a run, in order. */
  ghost function DispatchLog(s: State, ops: seq<Op>, p: nat): seq<nat>
    requires Inv(s) && Legal(s, ops)
    decreases |ops|
  {
    if ops == [] then []
    else
      StepOk(s, ops[0]);
      Gained(s, Step(s, ops[0]), p) + DispatchLog(Step(s, ops[0]), ops[1..], p)
  }

  /** First enqueued, first dispatched, over every run. */
  lemma {:induction false} DispatchOrder(s: State, ops: seq<Op>, p: nat)
    requires Inv(s) && Legal(s, ops) && p <= SO_MAX_PRIO
    ensures DispatchLog(s, ops, p) + Run(s, ops).ready[p] == s.ready[p] + EnqueueLog(s, ops, p)
    decreases |ops|
  {
    hide Step, Enqueued, Gained, Enabled, Sound;
    if ops == [] {
    } else {
      StepOk(s, ops[0]);
      var s1, rest := Step(s, ops[0]), ops[1..];
      StepLaw(s, ops[0], p);
      DispatchOrder(s1, rest, p);
      Chain(Gained(s, s1, p), s1.ready[p], s.ready[p], Enqueued(s, ops[0], p),
            DispatchLog(s1, rest, p), Run(s1, rest).ready[p], EnqueueLog(s1, rest, p));
    }
  }

  lemma Chain(g: seq<nat>, r1: seq<nat>, r0: seq<nat>, e: seq<nat>, d: seq<nat>, r2: seq<nat>, es: seq<nat>)
    requires g + r1 == r0 + e && d + r2 == r1 + es
    ensures (g + d) + r2 == r0 + (e + es)
  {
    assert (g + d) + r2 == g + (d + r2);
    assert g + (r1 + es) == (g + r1) + es;
    assert (r0 + e) + es == r0 + (e + es);
  }
}
