/**
 Time slicing among threads of equal priority: with only so_exec calls, the
 processor goes round the ring of the current thread and the best queue, a full
 quantum each, and the whole state recurs.
 */
module RoundRobin {
  import opened Wrappers
  import opened SchedulerModel
  import opened SchedulerSafety

  /** None of the ring's threads ever waited, somebody shares the priority, nobody ready is better. */
  predicate Sharing(s: State)
    ensures Sharing(s) ==> Inv(s)
  {
    && Inv(s)
    && s.current.Some?
    && var c := s.threads[s.current.value];
       && Top(s) == c.priority
       && c.thState == RUNNING
       && 1 <= c.quantumLeft <= s.maxQuantum
       && forall i :: 0 <= i < |s.ready[c.priority]| ==> s.threads[s.ready[c.priority][i]].thState in {READY, RUNNING}
  }

  /** The running thread followed by the queue of its own priority. */
  function RingOf(s: State): (ring: seq<nat>)
    requires Sharing(s)
    ensures |ring| >= 1 && s.current == Some(ring[0])
  {
    [s.current.value] + s.ready[s.threads[s.current.value].priority]
  }

  function Left(s: State): (r: nat)
    requires Sharing(s)
    ensures 1 <= r <= s.maxQuantum
  {
    s.threads[s.current.value].quantumLeft
  }

  /** s with the running thread's quantum replaced. */
  function WithLeft(s: State, r: nat): State
    requires Sharing(s)
  {
    var c := s.current.value;
    s.(threads := s.threads[c := s.threads[c].(quantumLeft := r)])
  }

  /** The next thread of the ring takes over. */
  function Turn(s: State): State
    requires Sharing(s)
  {
    var c := s.current.value;
    var p := s.threads[c].priority;
    var t := s.ready[p][0];
    var threads := s.threads[c := s.threads[c].(quantumLeft := s.maxQuantum)];
    s.(current := Some(t),
       ready := s.ready[p := s.ready[p][1..] + [c]],
       threads := threads[t := threads[t].(thState := RUNNING)])
  }

  function ExecN(s: State, n: nat): State
    requires Inv(s)
    decreases n
  {
    if n == 0 then s else (CheckSchedulerOk(s); ExecN(Exec(s), n - 1))
  }

  lemma {:induction false} ExecSplit(s: State, m: nat, n: nat)
    requires Inv(s)
    ensures Inv(ExecN(s, m)) && ExecN(s, m + n) == ExecN(ExecN(s, m), n)
    decreases m
  {
    hide Inv, Exec;
    if m == 0 {
    } else {
      OwnedIfInv(s);
      CheckSchedulerOk(s);
      ExecIsCheck(s);
      ExecSplit(Exec(s), m - 1, n);
    }
  }

  lemma OwnedIfInv(s: State)
    requires Inv(s)
    ensures Owned(s) && Shape(s)
  {
  }

  lemma ExecIsCheck(s: State)
    requires Shape(s)
    ensures Exec(s) == CheckScheduler(s)
  {
  }

  lemma RingFacts(s: State)
    requires Sharing(s)
    ensures var c, p := s.current.value, s.threads[s.current.value].priority;
            && 0 <= p < |s.ready| && s.ready[p] != [] && c !in s.ready[p] && Distinct(s.ready[p])
            && s.ready[p][0] < |s.threads| && s.ready[p][0] != c && |s.threads| > 1
            && (forall i :: 0 <= i < |s.ready[p]| ==>
                  s.ready[p][i] < |s.threads| && s.threads[s.ready[p][i]].priority == p
                  && s.threads[s.ready[p][i]].quantumLeft == s.maxQuantum
                  && s.threads[s.ready[p][i]].thState in {READY, RUNNING})
  {
    var p := s.threads[s.current.value].priority;
    forall i | 0 <= i < |s.ready[p]|
      ensures s.threads[s.ready[p][i]].quantumLeft == s.maxQuantum
    {
      assert IsReady(s, s.ready[p][i]);
    }
  }

  /** While quantum is left an exec only consumes it. */
  lemma QuietExec(s: State)
    requires Sharing(s) && Left(s) > 1
    ensures Exec(s) == WithLeft(s, Left(s) - 1) && Sharing(Exec(s)) && Left(Exec(s)) == Left(s) - 1
  {
    hide QueuesOk, OthersOk, Distinct;
    RingFacts(s);
    CheckSchedulerOk(s);
  }

  /** The exec that uses up the quantum hands over. */
  lemma LastExec(s: State)
    requires Sharing(s) && Left(s) == 1
    ensures Exec(s) == Turn(s)
  {
    hide QueuesOk, OthersOk, Distinct;
    RingFacts(s);
  }

  lemma WithLeftShares(s: State, r: nat)
    requires Sharing(s) && 1 <= r <= s.maxQuantum
    ensures Sharing(WithLeft(s, r)) && Left(WithLeft(s, r)) == r && Turn(WithLeft(s, r)) == Turn(s)
    ensures RingOf(WithLeft(s, r)) == RingOf(s)
  {
    hide QueuesOk, OthersOk, Distinct;
    RingFacts(s);
    var c := s.current.value;
    UpdateOk(s, c, s.threads[c].(quantumLeft := r), {c});
    assert {c} + {c} == {c};
    SameThreads(s, r);
  }

  lemma SameThreads(s: State, r: nat)
    requires Sharing(s)
    ensures var c := s.current.value;
            WithLeft(s, r).threads[c := WithLeft(s, r).threads[c].(quantumLeft := s.maxQuantum)] ==
            s.threads[c := s.threads[c].(quantumLeft := s.maxQuantum)]
  {
  }

  lemma TurnShares(s: State)
    requires Sharing(s)
    ensures Sharing(Turn(s)) && Left(Turn(s)) == s.maxQuantum && Turn(s).maxQuantum == s.maxQuantum
    ensures RingOf(Turn(s)) == RingOf(s)[1..] + [RingOf(s)[0]]
  {
    WithLeftShares(s, 1);
    LastExec(WithLeft(s, 1));
    CheckSchedulerOk(WithLeft(s, 1));
    hide QueuesOk, OthersOk, Distinct, CheckScheduler;
    RingFacts(s);
  }

  lemma {:induction false} RunDown(s: State, m: nat)
    requires Sharing(s) && m < Left(s)
    ensures ExecN(s, m) == WithLeft(s, Left(s) - m) && Sharing(WithLeft(s, Left(s) - m))
    decreases m
  {
    hide QueuesOk, OthersOk, PriorityOk, CurrentOk, Exec, Top;
    if m == 0 {
      assert s.threads[s.current.value := s.threads[s.current.value]] == s.threads;
    } else {
      QuietExec(s);
      RunDown(Exec(s), m - 1);
      assert WithLeft(Exec(s), Left(s) - m) == WithLeft(s, Left(s) - m);
    }
  }

  lemma FirstTurn(s: State)
    requires Sharing(s)
    ensures ExecN(s, Left(s)) == Turn(s) && Sharing(Turn(s))
  {
    hide Exec, Turn;
    RunDown(s, Left(s) - 1);
    WithLeftShares(s, 1);
    var s1 := WithLeft(s, 1);
    LastExec(s1);
    TurnShares(s);
    ExecSplit(s, Left(s) - 1, 1);
    hide *;
    ExecOnce(s1);
  }

  lemma ExecOnce(s: State)
    requires Inv(s)
    ensures ExecN(s, 1) == Exec(s)
  {
    CheckSchedulerOk(s);
    assert ExecN(Exec(s), 0) == Exec(s);
  }

  /** i turns of the ring. */
  function Rotate(s: State, i: nat): (r: State)
    requires Sharing(s)
    ensures Sharing(r) && r.maxQuantum == s.maxQuantum && (i > 0 ==> Left(r) == s.maxQuantum)
    decreases i
  {
    if i == 0 then s else (TurnShares(Rotate(s, i - 1)); Turn(Rotate(s, i - 1)))
  }

  /** The execs that i turns take: the rest of the running quantum, then full ones. */
  function Execs(s: State, i: nat): nat
    requires Sharing(s)
  {
    if i == 0 then 0 else Left(s) + (i - 1) * s.maxQuantum
  }

  lemma ExecsNext(s: State, i: nat)
    requires Sharing(s)
    ensures Execs(s, 0) == 0 && Execs(s, 1) == Left(s)
    ensures i >= 1 ==> Execs(s, i + 1) == Execs(s, i) + s.maxQuantum
    ensures Left(s) == s.maxQuantum ==> Execs(s, i) == i * s.maxQuantum
  {
    assert i >= 1 ==> (i - 1) * s.maxQuantum + s.maxQuantum == i * s.maxQuantum;
  }

  lemma {:induction false} TurnsTaken(s: State, i: nat)
    requires Sharing(s)
    ensures ExecN(s, Execs(s, i)) == Rotate(s, i)
    decreases i
  {
    hide Sharing, Turn, Exec, Execs, Inv;
    ExecsNext(s, i);
    if i == 0 {
    } else {
      TurnsTaken(s, i - 1);
      var r := Rotate(s, i - 1);
      FirstTurn(r);
      ExecsNext(s, i - 1);
      ExecSplit(s, Execs(s, i - 1), Left(r));
    }
  }

  lemma {:induction false} RotateRing(s: State, i: nat)
    requires Sharing(s) && i <= |RingOf(s)|
    ensures RingOf(Rotate(s, i)) == RingOf(s)[i..] + RingOf(s)[..i]
    decreases i
  {
    hide Sharing, Turn;
    if i > 0 {
      RotateRing(s, i - 1);
      TurnShares(Rotate(s, i - 1));
      RotateOnce(RingOf(s), i);
    } else {
      assert Rotate(s, 0) == s;
    }
  }

  lemma RotateOnce(ring: seq<nat>, i: nat)
    requires 1 <= i <= |ring|
    ensures var r := ring[i - 1..] + ring[..i - 1]; r[1..] + [r[0]] == ring[i..] + ring[..i]
  {
  }

  /** Who runs after m execs: the thread that runs keeps the processor for its whole quantum. */
  lemma WithinTurn(s: State, i: nat, b: nat)
    requires Sharing(s) && b < Left(Rotate(s, i))
    ensures ExecN(s, Execs(s, i) + b).current == Rotate(s, i).current
  {
    hide Sharing, ExecN, Rotate, RingOf, Inv, Execs;
    TurnsTaken(s, i);
    RunDown(Rotate(s, i), b);
    ExecSplit(s, Execs(s, i), b);
  }

  lemma RingIsDistinct(s: State)
    requires Sharing(s)
    ensures Distinct(RingOf(s)) && |RingOf(s)| > 1 && RingOf(s)[0] == s.current.value
  {
    RingFacts(s);
  }

  /** Before start + i*q execs, m lies in one of the turns 0..i. */
  lemma {:induction false} WhichTurn(r: nat, q: nat, i: nat, m: nat) returns (a: nat, b: nat)
    requires 1 <= r <= q && m < r + i * q
    ensures a <= i && m == (if a == 0 then 0 else r + (a - 1) * q) + b && b < if a == 0 then r else q
    decreases i
  {
    if m < r {
      a, b := 0, m;
    } else if i > 0 && m < r + (i - 1) * q {
      a, b := WhichTurn(r, q, i - 1, m);
    } else {
      a, b := i, m - (r + (i - 1) * q);
      assert i > 0;
      assert (i - 1) * q + q == i * q;
    }
  }

  /** The i-th waiting thread gets the processor after exactly r + i*q execs, not sooner, with a full quantum. */
  lemma DispatchedExactly(s: State, i: nat)
    requires Sharing(s) && i + 1 < |RingOf(s)|
    ensures var n := Left(s) + i * s.maxQuantum;
            && Sharing(ExecN(s, n))
            && ExecN(s, n).current == Some(RingOf(s)[i + 1])
            && Left(ExecN(s, n)) == s.maxQuantum
            && RingOf(ExecN(s, n)) == RingOf(s)[i + 1..] + RingOf(s)[..i + 1]
            && forall m: nat :: m < n ==> ExecN(s, m).current != Some(RingOf(s)[i + 1])
  {
    hide Sharing, ExecN, Rotate, RingOf;
    TurnsTaken(s, i + 1);
    RotateRing(s, i + 1);
    RingIsDistinct(Rotate(s, i + 1));
    RingIsDistinct(s);
    var n := Left(s) + i * s.maxQuantum;
    forall m: nat | m < n ensures ExecN(s, m).current != Some(RingOf(s)[i + 1]) {
      var a, b := WhichTurn(Left(s), s.maxQuantum, i, m);
      assert Rotate(s, 0) == s by { RotateZero(s); }
      WithinTurn(s, a, b);
      RotateRing(s, a);
      RingIsDistinct(Rotate(s, a));
      assert RingOf(Rotate(s, a))[0] == RingOf(s)[a] != RingOf(s)[i + 1];
    }
  }

  lemma RotateZero(s: State)
    requires Sharing(s)
    ensures Rotate(s, 0) == s
  {
  }

  // --------------------------------------------------------------- recurrence

  /** s with the given threads marked RUNNING. */
  function Started(s: State, ids: seq<nat>): seq<Thread> {
    seq(|s.threads|, id requires 0 <= id < |s.threads| =>
      if id in ids then s.threads[id].(thState := RUNNING) else s.threads[id])
  }

  lemma {:induction false} RotateThreads(s: State, i: nat)
    requires Sharing(s) && Left(s) == s.maxQuantum && i <= |RingOf(s)|
    ensures var r, p := Rotate(s, i), s.threads[s.current.value].priority;
            && r.threads == Started(s, RingOf(s)[..if i < |RingOf(s)| then i + 1 else i])
            && |r.ready| == |s.ready| && r.ioDev == s.ioDev
            && forall j :: 0 <= j < |s.ready| && j != p ==> r.ready[j] == s.ready[j]
    decreases i
  {
    hide *;
    RotateZero(s);
    if i == 0 {
      NobodyStarted(s);
    } else {
      RotateThreads(s, i - 1);
      RotateRing(s, i - 1);
      RotateNext(s, i);
      TurnThreads(s, Rotate(s, i - 1), i);
      TurnFrame(Rotate(s, i - 1));
      RotateKeepsPriority(s, i - 1);
    }
  }

  lemma RotateNext(s: State, i: nat)
    requires Sharing(s) && i > 0
    ensures Rotate(s, i) == Turn(Rotate(s, i - 1))
  {
  }

  lemma NobodyStarted(s: State)
    requires Sharing(s)
    ensures Started(s, RingOf(s)[..1]) == s.threads && |RingOf(s)| > 1
  {
    RingFacts(s);
  }

  /** The ring stays at one priority. */
  lemma RotateKeepsPriority(s: State, i: nat)
    requires Sharing(s) && i <= |RingOf(s)|
    requires Rotate(s, i).threads == Started(s, RingOf(s)[..if i < |RingOf(s)| then i + 1 else i])
    requires RingOf(Rotate(s, i)) == RingOf(s)[i..] + RingOf(s)[..i]
    ensures var r := Rotate(s, i);
            && 0 <= r.current.value < |r.threads| && 0 <= s.current.value < |s.threads|
            && r.threads[r.current.value].priority == s.threads[s.current.value].priority
  {
    hide Rotate, QueuesOk, OthersOk, PriorityOk, CurrentOk, Top;
    RingFacts(s);
    var r, ring := Rotate(s, i), RingOf(s);
    assert r.current.value == if i < |ring| then ring[i] else ring[0];
  }

  lemma TurnFrame(s: State)
    requires Sharing(s)
    ensures var c := s.threads[s.current.value].priority;
            && |Turn(s).ready| == |s.ready| && Turn(s).ioDev == s.ioDev
            && forall j :: 0 <= j < |s.ready| && j != c ==> Turn(s).ready[j] == s.ready[j]
  {
  }

  lemma TurnThreads(s: State, r: State, i: nat)
    requires Sharing(s) && Left(s) == s.maxQuantum && 1 <= i <= |RingOf(s)|
    requires Sharing(r) && Left(r) == r.maxQuantum == s.maxQuantum
    requires RingOf(r) == RingOf(s)[i - 1..] + RingOf(s)[..i - 1]
    requires r.threads == Started(s, RingOf(s)[..i])
    ensures Turn(r).threads == Started(s, RingOf(s)[..if i < |RingOf(s)| then i + 1 else i])
  {
    hide QueuesOk, OthersOk, PriorityOk, CurrentOk, Top;
    var ring := RingOf(s);
    RingFacts(r);
    var t, c := RingOf(r)[1], RingOf(r)[0];
    assert r.threads[c := r.threads[c].(quantumLeft := s.maxQuantum)] == r.threads;
    assert t == if i < |ring| then ring[i] else ring[0];
    assert Turn(r).threads == r.threads[t := r.threads[t].(thState := RUNNING)];
    if i < |ring| {
      assert ring[..i + 1] == ring[..i] + [t];
    }
  }

  lemma SameState(s: State, r: State)
    requires Sharing(s) && Sharing(r) && RingOf(r) == RingOf(s)
    requires r.maxQuantum == s.maxQuantum && r.ioDev == s.ioDev && |r.ready| == |s.ready|
    requires r.threads == Started(s, RingOf(s))
    requires forall j :: 0 <= j < |s.ready| && j != s.threads[s.current.value].priority ==> r.ready[j] == s.ready[j]
    ensures r == s.(threads := Started(s, RingOf(s)))
  {
    hide QueuesOk, OthersOk, PriorityOk, CurrentOk, Top;
    var p := s.threads[s.current.value].priority;
    assert r.current == s.current;
    assert r.ready[p] == RingOf(r)[1..] && s.ready[p] == RingOf(s)[1..];
    assert r.ready == s.ready;
  }

  lemma WholeRing(ring: seq<nat>)
    ensures var n := |ring|; ring[n..] + ring[..n] == ring && ring[..n] == ring
  {
  }

  lemma RoundFacts(s: State)
    requires Sharing(s) && Left(s) == s.maxQuantum
    ensures var r := Rotate(s, |RingOf(s)|);
            && Sharing(r) && RingOf(r) == RingOf(s) && r.threads == Started(s, RingOf(s))
            && r.maxQuantum == s.maxQuantum && r.ioDev == s.ioDev && |r.ready| == |s.ready|
            && forall j :: 0 <= j < |s.ready| && j != s.threads[s.current.value].priority ==> r.ready[j] == s.ready[j]
  {
    hide Sharing, Rotate, RingOf, Started, Left;
    RotateRing(s, |RingOf(s)|);
    RotateThreads(s, |RingOf(s)|);
    WholeRing(RingOf(s));
  }

  /** A whole round: every thread of the ring has had its quantum and all is as before. */
  lemma Recurs(s: State)
    requires Sharing(s) && Left(s) == s.maxQuantum
    ensures ExecN(s, |RingOf(s)| * s.maxQuantum) == s.(threads := Started(s, RingOf(s)))
  {
    hide *;
    TurnsTaken(s, |RingOf(s)|);
    ExecsNext(s, |RingOf(s)|);
    RoundFacts(s);
    SameState(s, Rotate(s, |RingOf(s)|));
  }
}
