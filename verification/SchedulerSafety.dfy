/**
 What every run of the scheduler keeps: who owns each thread, which quanta are
 full, who may run, and in which order equal threads are dispatched.
 */
module SchedulerSafety {
  import opened Wrappers
  import opened SchedulerModel

  // ------------------------------------------------------------- invariants

  predicate Distinct(q: seq<nat>) {
    forall i, j :: 0 <= i < j < |q| ==> q[i] != q[j]
  }

  predicate IsReady(s: State, id: nat)
    requires Shape(s) && id < |s.threads|
  {
    id in s.ready[s.threads[id].priority]
  }

  predicate IsBlocked(s: State, id: nat)
    requires id < |s.threads|
  {
    var t := s.threads[id];
    t.thState == WAITING && t.ioDevice != NO_DEVICE && Accepts(s, t.ioDevice)
  }

  predicate IsDone(s: State, id: nat)
    requires id < |s.threads|
  {
    s.threads[id].thState == TERMINATED
  }

  /** Every queued thread is queued once, waits for no device and has a full quantum. */
  predicate QueuesOk(s: State)
    requires Shape(s)
  {
    && (forall p :: 0 <= p < |s.ready| ==> Distinct(s.ready[p]))
    && forall id :: 0 <= id < |s.threads| && IsReady(s, id) ==>
         && s.threads[id].ioDevice == NO_DEVICE
         && s.threads[id].quantumLeft == s.maxQuantum
         && s.threads[id].thState in {READY, RUNNING, WAITING}
  }

  /** Threads outside the queues, except those in ex, are blocked with a full quantum or done. */
  predicate OthersOk(s: State, ex: set<nat>)
    requires Shape(s)
  {
    forall id :: 0 <= id < |s.threads| && !IsReady(s, id) && id !in ex ==>
      (IsBlocked(s, id) && s.threads[id].quantumLeft == s.maxQuantum) || IsDone(s, id)
  }

  predicate CurrentOk(s: State)
    requires Shape(s)
  {
    match s.current
    case None => Top(s) < 0
    case Some(c) => !IsReady(s, c) && s.threads[c].ioDevice == NO_DEVICE && s.threads[c].thState in {RUNNING, WAITING}
  }

  /** A thread in state RUNNING runs only while nothing ready has higher priority. */
  predicate PriorityOk(s: State)
    requires Shape(s)
  {
    s.current.Some? && s.threads[s.current.value].thState == RUNNING ==>
      Top(s) <= s.threads[s.current.value].priority
  }

  function Running(s: State): set<nat> {
    if s.current.Some? then {s.current.value} else {}
  }

  /** Everything but the priority rule, which holds between calls. */
  predicate Owned(s: State) {
    Shape(s) && QueuesOk(s) && OthersOk(s, Running(s)) && CurrentOk(s)
  }

  predicate Inv(s: State) {
    Owned(s) && PriorityOk(s)
  }

  function Init(quantum: nat, io: nat): (s: State)
    ensures Inv(s)
  {
    State(quantum, io, [], [[], [], [], [], [], []], None)
  }

  // ---------------------------------------------------- building blocks

  lemma PutOk(s: State, id: nat, ex: set<nat>)
    requires Shape(s) && QueuesOk(s) && OthersOk(s, ex + {id})
    requires id < |s.threads| && !IsReady(s, id)
    requires s.threads[id].ioDevice == NO_DEVICE && s.threads[id].quantumLeft == s.maxQuantum
    requires s.threads[id].thState in {READY, RUNNING, WAITING}
    ensures var r := Put(s, id); Shape(r) && QueuesOk(r) && OthersOk(r, ex)
    ensures var r := Put(s, id); forall i: nat :: i < |s.threads| ==> (IsReady(r, i) <==> IsReady(s, i) || i == id)
  {
    var r, p := Put(s, id), s.threads[id].priority;
    assert r.ready[p] == s.ready[p] + [id];
    forall i: nat | i < |s.threads| ensures IsReady(r, i) <==> IsReady(s, i) || i == id {
      var pi := s.threads[i].priority;
      assert pi != p ==> r.ready[pi] == s.ready[pi];
    }
  }

  lemma TakeFirstOk(s: State, p: nat, ex: set<nat>)
    requires Shape(s) && QueuesOk(s) && OthersOk(s, ex)
    requires p < |s.ready| && s.ready[p] != []
    ensures var r, h := TakeFirst(s, p), s.ready[p][0]; Shape(r) && QueuesOk(r) && OthersOk(r, ex + {h})
    ensures var r, h := TakeFirst(s, p), s.ready[p][0];
            forall i: nat :: i < |s.threads| ==> (IsReady(r, i) <==> IsReady(s, i) && i != h)
  {
    var r, h := TakeFirst(s, p), s.ready[p][0];
    assert s.ready[p] == [h] + r.ready[p];
    forall i: nat | i < |s.threads| ensures IsReady(r, i) <==> IsReady(s, i) && i != h {
      var pi := s.threads[i].priority;
      assert pi != p ==> r.ready[pi] == s.ready[pi];
    }
  }

  /** Changing a thread that is in no queue. */
  lemma UpdateOk(s: State, id: nat, t: Thread, ex: set<nat>)
    requires Shape(s) && QueuesOk(s) && OthersOk(s, ex)
    requires id < |s.threads| && !IsReady(s, id) && t.priority == s.threads[id].priority
    ensures var r := s.(threads := s.threads[id := t]); Shape(r) && QueuesOk(r) && OthersOk(r, ex + {id})
    ensures var r := s.(threads := s.threads[id := t]);
            forall i: nat :: i < |s.threads| ==> (IsReady(r, i) <==> IsReady(s, i))
  {
  }

  lemma DispatchOk(s: State, id: nat, ex: set<nat>)
    requires Shape(s) && QueuesOk(s) && OthersOk(s, ex)
    requires id < |s.threads| && !IsReady(s, id)
    requires s.threads[id].ioDevice == NO_DEVICE && s.threads[id].thState in {READY, RUNNING, WAITING}
    ensures var r := Dispatch(s, id);
            && Shape(r) && QueuesOk(r) && OthersOk(r, ex + {id}) && CurrentOk(r)
            && forall i: nat :: i < |s.threads| ==> (IsReady(r, i) <==> IsReady(s, i))
  {
    hide QueuesOk, OthersOk;
    var t := s.threads[id];
    UpdateOk(s, id, if t.thState == READY then t.(thState := RUNNING) else t, ex);
    SameQueues(s.(threads := s.threads[id := if t.thState == READY then t.(thState := RUNNING) else t]),
               Dispatch(s, id), ex + {id});
  }

  /** The current thread plays no part in the queue conditions. */
  lemma SameQueues(s: State, r: State, ex: set<nat>)
    requires Shape(s) && QueuesOk(s) && OthersOk(s, ex)
    requires r.threads == s.threads && r.ready == s.ready && r.maxQuantum == s.maxQuantum && r.ioDev == s.ioDev
    requires r.current.Some? ==> r.current.value < |r.threads|
    ensures Shape(r) && QueuesOk(r) && OthersOk(r, ex)
    ensures forall i: nat :: i < |s.threads| ==> (IsReady(r, i) <==> IsReady(s, i))
  {
  }

  /** Queues only get shorter, so the best priority only falls. */
  lemma TopAfterTake(s: State, p: nat)
    requires Shape(s) && p == Top(s)
    ensures Top(TakeFirst(s, p)) <= p
  {
  }

  lemma HeadIsReady(s: State)
    requires Shape(s) && Top(s) >= 0
    ensures var h := s.ready[Top(s)][0]; h < |s.threads| && s.threads[h].priority == Top(s) && IsReady(s, h)
  {
  }

  lemma GetThreadOk(s: State, ex: set<nat>)
    requires Shape(s) && QueuesOk(s) && OthersOk(s, ex)
    ensures var r := GetThreadFromQueue(s);
            && Shape(r) && QueuesOk(r) && OthersOk(r, ex + Running(r)) && CurrentOk(r) && PriorityOk(r)
            && forall i: nat :: i < |s.threads| && !IsReady(s, i) ==>
                 !IsReady(r, i) && r.threads[i] == s.threads[i] && r.current != Some(i)
  {
    hide QueuesOk, OthersOk;
    var p, r := Top(s), GetThreadFromQueue(s);
    if p < 0 {
      SameQueues(s, r, ex);
      assert ex + Running(r) == ex;
    } else {
      var h, s1 := s.ready[p][0], TakeFirst(s, p);
      HeadIsReady(s);
      ReadyFacts(s, h);
      TakeFirstOk(s, p, ex);
      TopAfterTake(s, p);
      DispatchOk(s1, h, ex + {h});
      assert ex + {h} + {h} == ex + Running(r);
    }
  }

  lemma ReadyFacts(s: State, id: nat)
    requires Shape(s) && QueuesOk(s) && id < |s.threads| && IsReady(s, id)
    ensures s.threads[id].ioDevice == NO_DEVICE && s.threads[id].quantumLeft == s.maxQuantum
    ensures s.threads[id].thState in {READY, RUNNING, WAITING}
  {
  }

  lemma TopAfterPut(s: State, id: nat)
    requires Shape(s) && id < |s.threads|
    ensures Top(Put(s, id)) <= if Top(s) > s.threads[id].priority then Top(s) else s.threads[id].priority
  {
  }

  lemma ComparePrioritiesOk(s: State, expired: bool)
    requires Owned(s)
    ensures Inv(ComparePriorities(s, expired))
  {
    hide QueuesOk, OthersOk;
    var r := ComparePriorities(s, expired);
    if MustSwitch(s, expired) {
      var p, c := Top(s), s.current.value;
      var h := s.ready[p][0];
      var s1 := s.(threads := s.threads[c := s.threads[c].(quantumLeft := s.maxQuantum)]);
      HeadIsReady(s);
      ReadyFacts(s, h);
      UpdateOk(s, c, s1.threads[c], {c});
      assert {c} + {c} == {c};
      TakeFirstOk(s1, p, {c});
      var s2 := TakeFirst(s1, p);
      TopAfterTake(s1, p);
      assert {c} + {h} == {h} + {c};
      PutOk(s2, c, {h});
      TopAfterPut(s2, c);
      DispatchOk(Put(s2, c), h, {h});
      assert {h} + {h} == Running(r);
    }
  }

  lemma CheckSchedulerOk(s: State)
    requires Owned(s)
    ensures Inv(CheckScheduler(s))
  {
    hide QueuesOk, OthersOk;
    if s.current.Some? && Top(s) >= 0 {
      var c := s.current.value;
      HeadIsReady(s);
      var q := Tick(s.threads[c].quantumLeft);
      var s1 := s.(threads := s.threads[c := s.threads[c].(quantumLeft := q)]);
      UpdateOk(s, c, s1.threads[c], {c});
      assert {c} + {c} == {c};
      ComparePrioritiesOk(s1, q == 0);
    }
  }

  // ------------------------------------------------------- each call keeps Inv

  lemma NewThreadOk(s: State, priority: nat, ex: set<nat>)
    requires Shape(s) && QueuesOk(s) && OthersOk(s, ex) && priority <= SO_MAX_PRIO
    ensures var r := NewThread(s, priority);
            && Shape(r) && QueuesOk(r) && OthersOk(r, ex + {|s.threads|}) && !IsReady(r, |s.threads|)
            && forall i: nat :: i < |s.threads| ==> (IsReady(r, i) <==> IsReady(s, i))
  {
    var r, n := NewThread(s, priority), |s.threads|;
    assert forall p :: 0 <= p < |s.ready| ==> n !in s.ready[p];
  }

  lemma ForkOk(s: State, priority: nat)
    requires Inv(s)
    ensures Inv(Fork(s, priority))
  {
    hide QueuesOk, OthersOk;
    if priority <= SO_MAX_PRIO {
      var n, s1 := |s.threads|, NewThread(s, priority);
      NewThreadOk(s, priority, Running(s));
      PutOk(s1, n, Running(s));
      if s.current.None? {
        GetThreadOk(Put(s1, n), {});
        assert {} + Running(Fork(s, priority)) == Running(Fork(s, priority));
      } else {
        CheckSchedulerOk(Put(s1, n));
      }
    }
  }

  /** A blocked thread needs no exemption. */
  lemma DropExempt(s: State, c: nat)
    requires Shape(s) && OthersOk(s, {c}) && c < |s.threads|
    requires IsReady(s, c) || (IsBlocked(s, c) && s.threads[c].quantumLeft == s.maxQuantum) || IsDone(s, c)
    ensures OthersOk(s, {})
  {
  }

  /**
   The calls that keep the invariant. With no device at all the number 2^32 - 1 is
   accepted like any other, but it is also how a thread that waits for nothing is
   marked: nobody may wait on it, and it may be signalled only while no thread is in
   state WAITING and marked so.
   */
  predicate Sound(s: State, op: Op) {
    match op
    case OpWait(io) => !(io == NO_DEVICE && Accepts(s, io))
    case OpSignal(io) => io == NO_DEVICE && Accepts(s, io) ==> NobodyWaits(s, io)
    case _ => true
  }

  predicate NobodyWaits(s: State, io: nat) {
    forall id :: 0 <= id < |s.threads| ==> !WaitsOn(s.threads[id], io)
  }

  /** With 1 to 2^32 - 1 devices every call is sound. */
  lemma DevicesMakeSound(s: State, op: Op)
    requires 1 <= s.ioDev <= UINT_MAX
    ensures Sound(s, op)
  {
  }

  lemma WaitOk(s: State, io: nat)
    requires Inv(s) && s.current.Some? && Sound(s, OpWait(io))
    ensures Inv(Wait(s, io))
  {
    hide QueuesOk, OthersOk;
    if Accepts(s, io) {
      var c := s.current.value;
      var t := s.threads[c].(ioDevice := io, quantumLeft := s.maxQuantum, thState := WAITING);
      var s1 := s.(threads := s.threads[c := t]);
      UpdateOk(s, c, t, {c});
      assert {c} + {c} == {c};
      DropExempt(s1, c);
      GetThreadOk(s1, {});
      assert {} + Running(Wait(s, io)) == Running(Wait(s, io));
    }
  }

  lemma FinishOk(s: State)
    requires Inv(s) && s.current.Some?
    ensures Inv(Finish(s))
  {
    hide QueuesOk;
    var c := s.current.value;
    var r := GetThreadFromQueue(s);
    GetThreadOk(s, {c});
    UpdateOk(r, c, r.threads[c].(thState := TERMINATED), {c} + Running(r));
  }

  lemma {:induction false} WakeOk(s: State, io: nat, k: nat)
    requires Owned(s) && s.current.Some? && Accepts(s, io) && io != NO_DEVICE && k <= |s.threads|
    ensures Owned(Wake(s, io, k))
    decreases k
  {
    hide QueuesOk, OthersOk;
    if k == 0 {
    } else {
      WakeOk(s, io, k - 1);
      var r, id := Wake(s, io, k - 1), k - 1;
      if WaitsOn(r.threads[id], io) {
        WakeOneOk(r, io, id);
      }
    }
  }

  lemma WakeOneOk(s: State, io: nat, id: nat)
    requires Owned(s) && s.current.Some? && Accepts(s, io) && io != NO_DEVICE
    requires id < |s.threads| && WaitsOn(s.threads[id], io)
    ensures Owned(Put(s.(threads := s.threads[id := s.threads[id].(ioDevice := NO_DEVICE)]), id))
  {
    hide QueuesOk, OthersOk;
    var t := s.threads[id].(ioDevice := NO_DEVICE);
    BlockedFacts(s, id);
    UpdateOk(s, id, t, Running(s));
    PutOk(s.(threads := s.threads[id := t]), id, Running(s));
    WokenCurrentOk(s, id, t);
  }

  lemma WokenCurrentOk(s: State, id: nat, t: Thread)
    requires Shape(s) && CurrentOk(s) && s.current.Some? && id < |s.threads| && s.current != Some(id)
    requires t.priority == s.threads[id].priority
    ensures CurrentOk(Put(s.(threads := s.threads[id := t]), id))
  {
  }

  lemma BlockedFacts(s: State, id: nat)
    requires Owned(s) && id < |s.threads| && IsBlocked(s, id)
    ensures !IsReady(s, id) && s.current != Some(id) && s.threads[id].quantumLeft == s.maxQuantum
  {
  }

  lemma {:induction false} WakeNobody(s: State, io: nat, k: nat)
    requires Shape(s) && NobodyWaits(s, io) && k <= |s.threads|
    ensures Wake(s, io, k) == s
    decreases k
  {
    if k == 0 {
    } else {
      WakeNobody(s, io, k - 1);
    }
  }

  lemma WakeAllOk(s: State, io: nat)
    requires Inv(s) && s.current.Some? && Accepts(s, io) && Sound(s, OpSignal(io))
    ensures Owned(Wake(s, io, |s.threads|))
  {
    hide QueuesOk, OthersOk, CurrentOk;
    if io == NO_DEVICE {
      WakeNobody(s, io, |s.threads|);
    } else {
      WakeOk(s, io, |s.threads|);
    }
  }

  lemma SignalOk(s: State, io: nat)
    requires Inv(s) && s.current.Some? && Sound(s, OpSignal(io))
    ensures Inv(Signal(s, io))
  {
    hide QueuesOk, OthersOk;
    if Accepts(s, io) {
      WakeAllOk(s, io);
      var r := Wake(s, io, |s.threads|);
      ComparePrioritiesOk(r, r.threads[r.current.value].quantumLeft == 0);
    }
  }

  lemma StepOk(s: State, op: Op)
    requires Inv(s) && Enabled(s, op) && Sound(s, op)
    ensures Inv(Step(s, op))
  {
    hide *;
    StepCases(s, op);
    match op
    case OpFork(priority) => ForkOk(s, priority);
    case OpWait(io) => WaitOk(s, io);
    case OpSignal(io) => SignalOk(s, io);
    case OpExec => CheckSchedulerOk(s);
    case OpFinish => FinishOk(s);
  }

  lemma StepCases(s: State, op: Op)
    requires Inv(s) && Enabled(s, op)
    ensures Owned(s) && ((op.OpWait? || op.OpSignal? || op.OpFinish?) ==> s.current.Some?)
    ensures Step(s, op) ==
              match op
              case OpFork(priority) => Fork(s, priority)
              case OpWait(io) => Wait(s, io)
              case OpSignal(io) => Signal(s, io)
              case OpExec => CheckScheduler(s)
              case OpFinish => Finish(s)
  {
  }

  // ---------------------------------------------------------------- all runs

  ghost predicate Legal(s: State, ops: seq<Op>)
    requires Inv(s)
    decreases |ops|
  {
    ops == [] || (Enabled(s, ops[0]) && Sound(s, ops[0]) && (StepOk(s, ops[0]); Legal(Step(s, ops[0]), ops[1..])))
  }

  ghost function Run(s: State, ops: seq<Op>): (r: State)
    requires Inv(s) && Legal(s, ops)
    ensures Inv(r)
    decreases |ops|
  {
    if ops == [] then s else (StepOk(s, ops[0]); Run(Step(s, ops[0]), ops[1..]))
  }

  /** In every reachable state each live thread is in exactly one place, once. */
  lemma ExactlyOnePlace(quantum: nat, io: nat, ops: seq<Op>, id: nat)
    requires Legal(Init(quantum, io), ops) && id < |Run(Init(quantum, io), ops).threads|
    ensures var s := Run(Init(quantum, io), ops);
            var running, ready, blocked := s.current == Some(id), IsReady(s, id), IsBlocked(s, id);
            && (IsDone(s, id) ==> !running && !ready && !blocked)
            && (!IsDone(s, id) ==> running || ready || blocked)
            && !(running && ready) && !(running && blocked) && !(ready && blocked)
            && forall p :: 0 <= p < |s.ready| ==>
                 multiset(s.ready[p])[id] == if ready && p == s.threads[id].priority then 1 else 0
  {
    var s := Run(Init(quantum, io), ops);
    forall p | 0 <= p < |s.ready|
      ensures multiset(s.ready[p])[id] == if IsReady(s, id) && p == s.threads[id].priority then 1 else 0
    {
      DistinctOnce(s.ready[p], id);
    }
  }

  /** Priority and quanta after any run. */
  lemma PriorityAndQuanta(quantum: nat, io: nat, ops: seq<Op>, id: nat)
    requires Legal(Init(quantum, io), ops) && id < |Run(Init(quantum, io), ops).threads|
    ensures var s := Run(Init(quantum, io), ops);
            && (IsReady(s, id) && s.current.Some? && s.threads[s.current.value].thState == RUNNING ==>
                  s.threads[id].priority <= s.threads[s.current.value].priority)
            && (IsReady(s, id) ==> s.current.Some?)
            && (IsReady(s, id) || IsBlocked(s, id) ==> s.threads[id].quantumLeft == quantum)
  {
    var s := Run(Init(quantum, io), ops);
    QuantumIsFixed(Init(quantum, io), ops);
    if IsReady(s, id) {
      assert Top(s) >= s.threads[id].priority;
    }
    if IsBlocked(s, id) {
      BlockedFacts(s, id);
    }
  }

  lemma {:induction false} QuantumIsFixed(s: State, ops: seq<Op>)
    requires Inv(s) && Legal(s, ops)
    ensures Run(s, ops).maxQuantum == s.maxQuantum && Run(s, ops).ioDev == s.ioDev
    decreases |ops|
  {
    if ops == [] {
    } else {
      StepOk(s, ops[0]);
      StepKeepsQuantum(s, ops[0]);
      QuantumIsFixed(Step(s, ops[0]), ops[1..]);
    }
  }

  lemma StepKeepsQuantum(s: State, op: Op)
    requires Shape(s) && Enabled(s, op)
    ensures Step(s, op).maxQuantum == s.maxQuantum && Step(s, op).ioDev == s.ioDev
  {
    hide Shape;
  }

  lemma {:induction false} DistinctOnce(q: seq<nat>, id: nat)
    requires Distinct(q)
    ensures multiset(q)[id] == if id in q then 1 else 0
  {
    if q == [] {
    } else {
      assert q == [q[0]] + q[1..];
      DistinctOnce(q[1..], id);
    }
  }
}
