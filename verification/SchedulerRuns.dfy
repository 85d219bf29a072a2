/** Runs of a few calls that reach the limits of the scheduler. */
module SchedulerRuns {
  import opened Wrappers
  import opened SchedulerModel
  import opened SchedulerSafety
  import opened SchedulerOrder
  import opened SchedulerLimits

  /** Thread 1 waits for device 0, is signalled by thread 0 and runs again, still in state WAITING. */
  function Resumed(d: nat): (s: State)
    ensures Inv(s)
  {
    State(10, d, [Thread(0, 10, RUNNING, NO_DEVICE), Thread(1, 10, WAITING, NO_DEVICE)],
          [[0], [], [], [], [], []], Some(1))
  }

  const RESUME := [OpFork(0), OpFork(1), OpWait(0), OpSignal(0)]

  /** Four calls that lead there, however many devices there are. */
  lemma ReachResumed(d: nat, rest: seq<Op>)
    requires Legal(Resumed(d), rest)
    ensures Legal(Init(10, d), RESUME + rest)
    ensures Run(Init(10, d), RESUME + rest) == Run(Resumed(d), rest)
  {
    hide *;
    var a, b := Thread(0, 10, RUNNING, NO_DEVICE), Thread(1, 10, RUNNING, NO_DEVICE);
    var s0 := Init(10, d);
    var s1 := State(10, d, [a], [[], [], [], [], [], []], Some(0));
    var s2 := State(10, d, [a, b], [[0], [], [], [], [], []], Some(1));
    var s3 := State(10, d, [a, b.(thState := WAITING, ioDevice := 0)], [[], [], [], [], [], []], Some(0));
    var s4 := Resumed(d);
    FirstForkRuns(10, d, 0);
    KeepsInv(s0, OpFork(0));
    ForkPreempts(s1, s2, d);
    KeepsInv(s1, OpFork(1));
    WaitHandsOver(s2, s3, d);
    KeepsInv(s2, OpWait(0));
    ResumedIs(d);
    SignalPreempts(s3, s4, d);
    KeepsInv(s3, OpSignal(0));
    var o3 := [OpSignal(0)] + rest;
    var o2 := [OpWait(0)] + o3;
    var o1 := [OpFork(1)] + o2;
    RunOne(s3, OpSignal(0), rest);
    RunOne(s2, OpWait(0), o3);
    RunOne(s1, OpFork(1), o2);
    RunOne(s0, OpFork(0), o1);
    assert [OpFork(0)] + o1 == RESUME + rest by { ResumeIs(); }
  }

  lemma ResumeIs()
    ensures RESUME == [OpFork(0), OpFork(1), OpWait(0), OpSignal(0)]
  {
  }

  lemma ResumedIs(d: nat)
    ensures Resumed(d) == State(10, d, [Thread(0, 10, RUNNING, NO_DEVICE), Thread(1, 10, WAITING, NO_DEVICE)],
                                [[0], [], [], [], [], []], Some(1))
  {
  }

  /** All the calls of these runs are sound. */
  lemma KeepsInv(s: State, op: Op)
    requires Inv(s) && Enabled(s, op)
    requires op.OpFork? || op == OpWait(0) || op == OpSignal(0) || op.OpExec?
    ensures Sound(s, op) && Shape(s) && Inv(Step(s, op))
  {
    hide Step, Owned, PriorityOk;
    StepOk(s, op);
    OwnedHasShape(s);
  }

  lemma OwnedHasShape(s: State)
    requires Inv(s)
    ensures Shape(s)
  {
  }

  /** A better thread can be left waiting: thread 2 (priority 5) is ready while thread 1 (priority 1) runs. */
  lemma PriorityInversion()
    ensures var ops := RESUME + [OpFork(5)];
            && Legal(Init(10, 1), ops)
            && var r := Run(Init(10, 1), ops);
               && r.current == Some(1) && |r.threads| == 3 && r.threads[1].priority == 1
               && IsReady(r, 2) && r.threads[2].priority == 5
  {
    hide *;
    var s4 := Resumed(1);
    NothingIsLegal(s4);
    ReachResumed(1, []);
    ResumedIs(1);
    var s5 := State(10, 1, [Thread(0, 10, RUNNING, NO_DEVICE), Thread(1, 9, WAITING, NO_DEVICE),
                            Thread(5, 10, READY, NO_DEVICE)],
                    [[0], [], [], [], [], [2]], Some(1));
    ForkIsIgnored(s4, s5, 1);
    KeepsInv(s4, OpFork(5));
    Inverted(s5);
    RunOne(s4, OpFork(5), []);
    assert [OpFork(5)] + [] == [OpFork(5)];
    ReachResumed(1, [OpFork(5)]);
  }

  lemma NothingIsLegal(s: State)
    ensures Inv(s) ==> Legal(s, []) && Run(s, []) == s
  {
  }

  /** Without devices, signalling the number 2^32 - 1 makes the running thread ready as well. */
  lemma TwoPlaces()
    ensures Legal(Init(10, 0), RESUME)
    ensures var s := Run(Init(10, 0), RESUME);
            && Enabled(s, OpSignal(NO_DEVICE)) && Accepts(s, NO_DEVICE)
            && var r := Step(s, OpSignal(NO_DEVICE));
               && Shape(r) && r.current == Some(1) && |r.threads| == 2 && IsReady(r, 1)
  {
    hide *;
    NothingIsLegal(Resumed(0));
    ReachResumed(0, []);
    assert RESUME + [] == RESUME;
    SignalledTwice(Resumed(0));
  }

  lemma SignalledTwice(s: State)
    requires s == Resumed(0)
    ensures Shape(s) && Enabled(s, OpSignal(NO_DEVICE)) && Accepts(s, NO_DEVICE)
    ensures var r := Step(s, OpSignal(NO_DEVICE));
            Shape(r) && r.current == Some(1) && |r.threads| == 2 && IsReady(r, 1)
  {
    assert s.ready[0] == [0];
    assert Wake(s, NO_DEVICE, 0) == s;
    assert Wake(s, NO_DEVICE, 1) == s;
    var w := Wake(s, NO_DEVICE, 2);
    assert s.ready[1] + [1] == [1];
    assert w.ready == [[0], [1], [], [], [], []];
  }

  /** Three calls after which a thread has wrapped round: it expires while only a worse thread is ready. */
  lemma QuantumCanWrap()
    ensures var ops := [OpFork(1), OpFork(0), OpExec];
            && Legal(Init(1, 1), ops)
            && var r := Run(Init(1, 1), ops);
               r.current == Some(0) && |r.threads| == 2 && r.threads[0].quantumLeft == UINT_MAX
  {
    hide *;
    var s0 := Init(1, 1);
    var s1 := State(1, 1, [Thread(1, 1, RUNNING, NO_DEVICE)], [[], [], [], [], [], []], Some(0));
    var s2 := State(1, 1, [Thread(1, 0, RUNNING, NO_DEVICE), Thread(0, 1, READY, NO_DEVICE)],
                    [[1], [], [], [], [], []], Some(0));
    var s3 := State(1, 1, [Thread(1, UINT_MAX, RUNNING, NO_DEVICE), Thread(0, 1, READY, NO_DEVICE)],
                    [[1], [], [], [], [], []], Some(0));
    FirstForkRuns(1, 1, 1);
    KeepsInv(s0, OpFork(1));
    WorseJoins(s1, s2);
    KeepsInv(s1, OpFork(0));
    WrapsRound(s2, s3);
    KeepsInv(s2, OpExec);
    NothingIsLegal(s3);
    var o2 := [OpExec] + [];
    var o1 := [OpFork(0)] + o2;
    RunOne(s2, OpExec, []);
    RunOne(s1, OpFork(0), o2);
    RunOne(s0, OpFork(1), o1);
    assert [OpFork(1)] + o1 == [OpFork(1), OpFork(0), OpExec];
  }

  /** The first thread runs at once. */
  lemma FirstForkRuns(q: nat, d: nat, p: nat)
    requires p <= 5
    ensures var s := Init(q, d);
            && Inv(s) && Shape(s) && Enabled(s, OpFork(p))
            && Step(s, OpFork(p)) ==
               State(q, d, [Thread(p, q, RUNNING, NO_DEVICE)], [[], [], [], [], [], []], Some(0))
  {
    hide Top, GetThreadFromQueue, Inv;
    var s := Init(q, d);
    var m := Put(NewThread(s, p), 0);
    TopOfPut(NewThread(s, p), 0);
    NothingReady(q, d);
    var none: seq<seq<nat>> := [[], [], [], [], [], []];
    assert none[p] + [0] == [0];
    assert m == State(q, d, [Thread(p, q, READY, NO_DEVICE)], none[p := [0]], None);
    AloneIsDispatched(q, d, p);
    ForkIsDispatch(s, p);
  }

  lemma NothingReady(q: nat, d: nat)
    ensures Top(Init(q, d)) == -1
  {
  }

  lemma AloneIsDispatched(q: nat, d: nat, p: nat)
    requires p <= SO_MAX_PRIO
    ensures var none: seq<seq<nat>> := [[], [], [], [], [], []];
            var m := State(q, d, [Thread(p, q, READY, NO_DEVICE)], none[p := [0]], None);
            && Shape(m)
            && (Top(m) == p ==>
                  GetThreadFromQueue(m) == State(q, d, [Thread(p, q, RUNNING, NO_DEVICE)], none, Some(0)))
  {
    hide Top;
    var none: seq<seq<nat>> := [[], [], [], [], [], []];
    assert [0][1..] == [];
    assert none[p := [0]][p := []] == none;
  }

  lemma WorseJoins(s: State, r: State)
    requires s == State(1, 1, [Thread(1, 1, RUNNING, NO_DEVICE)], [[], [], [], [], [], []], Some(0))
    requires r == State(1, 1, [Thread(1, 0, RUNNING, NO_DEVICE), Thread(0, 1, READY, NO_DEVICE)],
                        [[1], [], [], [], [], []], Some(0))
    ensures Shape(s) && Enabled(s, OpFork(0)) && Step(s, OpFork(0)) == r
  {
    var m := Put(NewThread(s, 0), 1);
    assert s.ready[0] + [1] == [1];
    assert m.ready == [[1], [], [], [], [], []];
    assert m.ready[0] == [1];
    assert Top(m) == 0;
  }

  lemma WrapsRound(s: State, r: State)
    requires s == State(1, 1, [Thread(1, 0, RUNNING, NO_DEVICE), Thread(0, 1, READY, NO_DEVICE)],
                        [[1], [], [], [], [], []], Some(0))
    requires r == State(1, 1, [Thread(1, UINT_MAX, RUNNING, NO_DEVICE), Thread(0, 1, READY, NO_DEVICE)],
                        [[1], [], [], [], [], []], Some(0))
    ensures Shape(s) && Enabled(s, OpExec) && Step(s, OpExec) == r
  {
    assert s.ready[0] == [1];
    assert Top(s) == 0;
  }

  lemma Inverted(s: State)
    requires Inv(s) && |s.threads| == 3 && s.threads[2].priority == 5
    requires s.ready == [[0], [], [], [], [], [2]]
    ensures Shape(s) && IsReady(s, 2) && Legal(s, []) && Run(s, []) == s
  {
    assert s.ready[5] == [2];
  }

  lemma RunOne(s: State, op: Op, rest: seq<Op>)
    requires Inv(s) && Enabled(s, op) && Sound(s, op) && Inv(Step(s, op)) && Legal(Step(s, op), rest)
    ensures Legal(s, [op] + rest) && Run(s, [op] + rest) == Run(Step(s, op), rest)
  {
    assert ([op] + rest)[1..] == rest;
  }

  lemma ForkPreempts(s: State, r: State, d: nat)
    requires s == State(10, d, [Thread(0, 10, RUNNING, NO_DEVICE)],
                        [[], [], [], [], [], []], Some(0))
    requires r == State(10, d, [Thread(0, 10, RUNNING, NO_DEVICE), Thread(1, 10, RUNNING, NO_DEVICE)],
                        [[0], [], [], [], [], []], Some(1))
    ensures Shape(s) && Enabled(s, OpFork(1)) && Step(s, OpFork(1)) == r
  {
    hide ComparePriorities;
    var m := Put(NewThread(s, 1), 1);
    assert s.ready[1] + [1] == [1] && s.ready[0] + [0] == [0];
    assert m.ready == [[], [1], [], [], [], []];
    assert m.ready[1][1..] == [];
    assert Top(m) == 1;
    SwitchToNew(m.(threads := m.threads[0 := m.threads[0].(quantumLeft := 9)]), r, d);
  }

  lemma SwitchToNew(s: State, r: State, d: nat)
    requires s == State(10, d, [Thread(0, 9, RUNNING, NO_DEVICE), Thread(1, 10, READY, NO_DEVICE)],
                        [[], [1], [], [], [], []], Some(0))
    requires r == State(10, d, [Thread(0, 10, RUNNING, NO_DEVICE), Thread(1, 10, RUNNING, NO_DEVICE)],
                        [[0], [], [], [], [], []], Some(1))
    ensures Shape(s) && ComparePriorities(s, false) == r
  {
    assert s.ready[1] == [1] && s.ready[1][1..] == [] && s.ready[0] + [0] == [0];
    assert Top(s) == 1;
  }

  lemma WaitHandsOver(s: State, r: State, d: nat)
    requires s == State(10, d, [Thread(0, 10, RUNNING, NO_DEVICE), Thread(1, 10, RUNNING, NO_DEVICE)],
                        [[0], [], [], [], [], []], Some(1))
    requires r == State(10, d, [Thread(0, 10, RUNNING, NO_DEVICE), Thread(1, 10, WAITING, 0)],
                        [[], [], [], [], [], []], Some(0))
    ensures Shape(s) && Enabled(s, OpWait(0)) && Step(s, OpWait(0)) == r
  {
    var m := s.(threads := s.threads[1 := Thread(1, 10, WAITING, 0)]);
    assert m.ready[0] == [0] && m.ready[0][1..] == [];
    assert Top(m) == 0;
  }

  lemma SignalPreempts(s: State, r: State, d: nat)
    requires s == State(10, d, [Thread(0, 10, RUNNING, NO_DEVICE), Thread(1, 10, WAITING, 0)],
                        [[], [], [], [], [], []], Some(0))
    requires r == State(10, d, [Thread(0, 10, RUNNING, NO_DEVICE), Thread(1, 10, WAITING, NO_DEVICE)],
                        [[0], [], [], [], [], []], Some(1))
    ensures Shape(s) && Enabled(s, OpSignal(0)) && Step(s, OpSignal(0)) == r
  {
    hide ComparePriorities;
    assert Wake(s, 0, 0) == s;
    assert Wake(s, 0, 1) == s;
    assert s.ready[1] + [1] == [1];
    var w := Wake(s, 0, 2);
    assert w.ready == [[], [1], [], [], [], []];
    SwitchToWoken(w, r, d);
  }

  lemma SwitchToWoken(s: State, r: State, d: nat)
    requires s == State(10, d, [Thread(0, 10, RUNNING, NO_DEVICE), Thread(1, 10, WAITING, NO_DEVICE)],
                        [[], [1], [], [], [], []], Some(0))
    requires r == State(10, d, [Thread(0, 10, RUNNING, NO_DEVICE), Thread(1, 10, WAITING, NO_DEVICE)],
                        [[0], [], [], [], [], []], Some(1))
    ensures Shape(s) && ComparePriorities(s, false) == r
  {
    assert s.ready[1] == [1] && s.ready[1][1..] == [] && s.ready[0] + [0] == [0];
    assert Top(s) == 1;
  }

  lemma ForkIsIgnored(s: State, r: State, d: nat)
    requires s == State(10, d, [Thread(0, 10, RUNNING, NO_DEVICE), Thread(1, 10, WAITING, NO_DEVICE)],
                        [[0], [], [], [], [], []], Some(1))
    requires r == State(10, d, [Thread(0, 10, RUNNING, NO_DEVICE), Thread(1, 9, WAITING, NO_DEVICE),
                               Thread(5, 10, READY, NO_DEVICE)],
                        [[0], [], [], [], [], [2]], Some(1))
    ensures Shape(s) && Enabled(s, OpFork(5)) && Step(s, OpFork(5)) == r
  {
    var m := Put(NewThread(s, 5), 2);
    assert s.ready[5] + [2] == [2];
    assert m.ready == [[0], [], [], [], [], [2]];
    assert Top(m) == 5;
  }
}
