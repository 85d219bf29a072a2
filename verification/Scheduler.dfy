/**
 so_scheduler.c on its own data: thread records updated in place, a table of
 linked queues, the list of all threads and the current_thread pointer. Every
 call is proved to do what the state machine of SchedulerModel says.
 */
module Scheduler {
  import opened Wrappers
  import opened PriorityTable
  import opened ThreadList
  import M = SchedulerModel
  import S = SchedulerSafety

  /** thread_t; the semaphore is the hand-off of the running role. */
  class Thread {
    const priority: nat
    var quantumLeft: nat
    var thState: M.ThreadState
    var ioDevice: nat
    /** Position in creation order. */
    ghost const id: nat

    constructor (priority: nat, quantum: nat, ghost id: nat)
      ensures this.priority == priority && this.id == id
      ensures quantumLeft == quantum && thState == M.NEW && ioDevice == M.NO_DEVICE
    {
      this.priority, this.id := priority, id;
      quantumLeft, thState, ioDevice := quantum, M.NEW, M.NO_DEVICE;
    }

    ghost function Record(): M.Thread
      reads this
    {
      M.Thread(priority, quantumLeft, thState, ioDevice)
    }
  }

  class Scheduler {
    var tp: Table<Thread>
    var threads: List<Thread>
    var current: Thread?
    var ioDev: nat
    var maxQuantum: nat
    var nrThreads: nat

    /** The state machine's view between calls. */
    ghost var model: M.State
    ghost var Repr: set<object>

    /** The heap holds exactly the state m. */
    ghost predicate Holds(m: M.State)
      reads this, Repr
    {
      && Footprint()
      && M.Shape(m)
      && m.maxQuantum == maxQuantum && m.ioDev == ioDev && |m.threads| == nrThreads
      && RecordsHeld(threads.items, m.threads)
      && QueuesHeld(tp.lists, m.ready, threads.items)
      && (current == null <==> m.current == None)
      && (current != null ==> current == threads.items[m.current.value])
    }

    static ghost predicate RecordsHeld(items: seq<Thread>, records: seq<M.Thread>)
      reads items
    {
      |items| == |records| && forall i :: 0 <= i < |items| ==> items[i].id == i && items[i].Record() == records[i]
    }

    /** The queues of thread objects list the threads with the given numbers. */
    static ghost predicate QueuesHeld(lists: seq<seq<Thread>>, ready: seq<seq<nat>>, items: seq<Thread>) {
      |lists| == |ready| && forall p :: 0 <= p < |lists| ==> QueueHeld(lists[p], ready[p], items)
    }

    static ghost predicate QueueHeld(q: seq<Thread>, ids: seq<nat>, items: seq<Thread>) {
      |q| == |ids| && forall i :: 0 <= i < |q| ==> ids[i] < |items| && q[i] == items[ids[i]]
    }

    ghost predicate Footprint()
      reads this, Repr
    {
      && this in Repr && tp in Repr && threads in Repr
      && tp.Repr <= Repr && threads.Repr <= Repr
      && this !in tp.Repr && this !in threads.Repr && tp.Repr !! threads.Repr
      && tp.Valid() && threads.Valid()
      && forall i :: 0 <= i < |threads.items| ==>
           threads.items[i] in Repr && threads.items[i] !in tp.Repr && threads.items[i] !in threads.Repr
    }

    ghost predicate Valid()
      reads this, Repr
    {
      Holds(model) && S.Inv(model)
    }

    /** so_init with accepted arguments. */
    constructor (timeQuantum: nat, io: nat)
      requires 1 <= timeQuantum <= M.UINT_MAX && io <= M.SO_MAX_NUM_EVENTS
      ensures Valid() && fresh(Repr) && model == S.Init(timeQuantum, io)
    {
      hide *;
      tp := new Table<Thread>(M.SO_MAX_PRIO + 1);
      threads := new List<Thread>();
      current := null;
      ioDev, maxQuantum, nrThreads := io, timeQuantum, 0;
      model := S.Init(timeQuantum, io);
      new;
      Repr := {this} + tp.Repr + threads.Repr;
      InitFacts(timeQuantum, io);
      assert |tp.lists| == M.SO_MAX_PRIO + 1;
      EmptyFootprint();
      EmptyHolds(timeQuantum, io);
    }

    static lemma InitFacts(timeQuantum: nat, io: nat)
      ensures S.Init(timeQuantum, io) == M.State(timeQuantum, io, [], [[], [], [], [], [], []], None)
    {
    }

    lemma EmptyFootprint()
      requires tp.Valid() && threads.Valid() && threads.items == []
      requires tp in tp.Repr && threads in threads.Repr
      requires this !in tp.Repr && this !in threads.Repr && tp.Repr !! threads.Repr
      requires Repr == {this} + tp.Repr + threads.Repr
      ensures Footprint()
    {
    }

    lemma EmptyHolds(timeQuantum: nat, io: nat)
      requires Footprint() && threads.items == [] && current == null
      requires ioDev == io && maxQuantum == timeQuantum && nrThreads == 0
      requires |tp.lists| == M.SO_MAX_PRIO + 1 && forall p :: 0 <= p < |tp.lists| ==> tp.lists[p] == []
      requires model == S.Init(timeQuantum, io)
      ensures Valid()
    {
    }

    /** so_init: -1 for bad arguments or a scheduler that is already there. */
    static method SoInit(timeQuantum: nat, io: nat, initOnce: bool) returns (r: int, s: Scheduler?)
      requires timeQuantum <= M.UINT_MAX
      ensures r == -1 <==> io > M.SO_MAX_NUM_EVENTS || timeQuantum == 0 || initOnce
      ensures r != -1 ==> r == 0 && s != null && fresh(s.Repr) && s.Valid() && s.model == S.Init(timeQuantum, io)
    {
      if io > M.SO_MAX_NUM_EVENTS || timeQuantum == 0 || initOnce {
        return -1, null;
      }
      s := new Scheduler(timeQuantum, io);
      return 0, s;
    }

    // ---------------------------------------------- one change to the state

    /** The parts of Holds, for methods that keep its body out of sight. */
    lemma Open(m: M.State)
      requires Holds(m)
      ensures this in Repr && tp in Repr && threads in Repr && tp.Repr <= Repr && threads.Repr <= Repr
      ensures this !in tp.Repr && this !in threads.Repr && tp.Repr !! threads.Repr
      ensures tp in tp.Repr && threads in threads.Repr
      ensures tp.Valid() && threads.Valid()
      ensures forall t :: t in threads.items ==> t in Repr && t !in tp.Repr && t !in threads.Repr
      ensures M.Shape(m) && |m.ready| == 6 && |tp.lists| == 6 && tp.v.Length == 6
      ensures m.maxQuantum == maxQuantum && m.ioDev == ioDev && |m.threads| == nrThreads == |threads.items|
      ensures RecordsHeld(threads.items, m.threads) && QueuesHeld(tp.lists, m.ready, threads.items)
      ensures current == null <==> m.current == None
      ensures current != null ==> m.current.value < |threads.items| && current == threads.items[m.current.value]
    {
    }

    lemma Close(m: M.State)
      requires this in Repr && tp in Repr && threads in Repr && tp.Repr <= Repr && threads.Repr <= Repr
      requires this !in tp.Repr && this !in threads.Repr && tp.Repr !! threads.Repr
      requires tp.Valid() && threads.Valid()
      requires forall t :: t in threads.items ==> t in Repr && t !in tp.Repr && t !in threads.Repr
      requires M.Shape(m)
      requires m.maxQuantum == maxQuantum && m.ioDev == ioDev && |m.threads| == nrThreads
      requires RecordsHeld(threads.items, m.threads) && QueuesHeld(tp.lists, m.ready, threads.items)
      requires current == null <==> m.current == None
      requires current != null ==> m.current.value < |threads.items| && current == threads.items[m.current.value]
      ensures Holds(m)
    {
      assert forall i :: 0 <= i < |threads.items| ==> threads.items[i] in threads.items;
    }

    static lemma PutFacts(m: M.State, id: nat)
      requires M.Shape(m) && id < |m.threads|
      ensures m.threads[id].priority < |m.ready| && M.Shape(M.Put(m, id))
      ensures var p := m.threads[id].priority; M.Put(m, id) == m.(ready := m.ready[p := m.ready[p] + [id]])
    {
    }

    static lemma RecordAt(items: seq<Thread>, records: seq<M.Thread>, i: nat)
      requires RecordsHeld(items, records) && i < |items|
      ensures |records| == |items| && items[i].id == i
      ensures records[i] == M.Thread(items[i].priority, items[i].quantumLeft, items[i].thState, items[i].ioDevice)
    {
    }

    static lemma QueuesPut(lists: seq<seq<Thread>>, ready: seq<seq<nat>>, items: seq<Thread>, p: nat, id: nat)
      requires QueuesHeld(lists, ready, items) && p < |lists| && id < |items|
      ensures |ready| == |lists|
      ensures QueuesHeld(lists[p := lists[p] + [items[id]]], ready[p := ready[p] + [id]], items)
    {
    }

    /** Put a thread at the end of the queue of its priority. */
    method Enqueue(th: Thread, ghost m: M.State, ghost id: nat)
      requires Holds(m) && id < |m.threads| && Item(th, id)
      modifies Repr
      ensures Holds(M.Put(m, id)) && fresh(Repr - old(Repr))
      ensures threads == old(threads) && threads.items == old(threads.items) && current == old(current)
      ensures threads.cells == old(threads.cells)
    {
      hide *;
      Open(m);
      ItemFacts(th, id);
      RecordAt(threads.items, m.threads, id);
      PutFacts(m, id);
      QueuesPut(tp.lists, m.ready, threads.items, th.priority, id);
      tp.Insert(th, th.priority);
      Repr := Repr + tp.Repr;
      Close(M.Put(m, id));
    }

    ghost predicate Item(th: Thread, id: nat)
      reads this, threads
    {
      id < |threads.items| && th == threads.items[id]
    }

    lemma ItemFacts(th: Thread, id: nat)
      requires Item(th, id)
      ensures id < |threads.items| && th == threads.items[id] && th in threads.items
    {
    }

    static lemma TakeFacts(m: M.State, p: nat)
      requires M.Shape(m) && p < |m.ready| && m.ready[p] != []
      ensures M.Shape(M.TakeFirst(m, p)) && M.TakeFirst(m, p) == m.(ready := m.ready[p := m.ready[p][1..]])
    {
    }

    static lemma QueuesTake(lists: seq<seq<Thread>>, ready: seq<seq<nat>>, items: seq<Thread>, p: nat)
      requires QueuesHeld(lists, ready, items) && p < |lists| && p < |ready| && ready[p] != []
      ensures lists[p] != [] && ready[p][0] < |items| && lists[p][0] == items[ready[p][0]]
      ensures QueuesHeld(lists[p := lists[p][1..]], ready[p := ready[p][1..]], items)
    {
    }

    /** Drop the first thread of a queue. */
    method Dequeue(p: nat, ghost m: M.State)
      requires Holds(m) && p < |m.ready| && m.ready[p] != []
      modifies Repr
      ensures Holds(M.TakeFirst(m, p)) && Repr == old(Repr)
      ensures threads == old(threads) && threads.items == old(threads.items) && current == old(current)
    {
      hide *;
      Open(m);
      TakeFacts(m, p);
      QueuesTake(tp.lists, m.ready, threads.items, p);
      tp.Remove(p);
      Close(M.TakeFirst(m, p));
    }

    /** Write the mutable fields of one record. */
    static method SetFields(th: Thread, quantumLeft: nat, thState: M.ThreadState, ioDevice: nat,
                            ghost items: seq<Thread>, ghost records: seq<M.Thread>, ghost id: nat)
      requires RecordsHeld(items, records) && id < |items| && th == items[id]
      modifies th
      ensures |records| == |items|
      ensures th.quantumLeft == quantumLeft && th.thState == thState && th.ioDevice == ioDevice
      ensures RecordsHeld(items, records[id := M.Thread(th.priority, quantumLeft, thState, ioDevice)])
    {
      th.quantumLeft := quantumLeft;
      th.thState := thState;
      th.ioDevice := ioDevice;
    }

    static lemma DispatchFacts(m: M.State, id: nat)
      requires M.Shape(m) && id < |m.threads|
      ensures M.Shape(M.Dispatch(m, id))
      ensures M.Dispatch(m, id) ==
              m.(current := Some(id),
                 threads := m.threads[id := if m.threads[id].thState == M.READY
                                            then m.threads[id].(thState := M.RUNNING) else m.threads[id]])
    {
    }

    /** sem_post: the scheduled thread wakes, and marks itself RUNNING if it never ran. */
    method Wake(th: Thread, ghost m: M.State, ghost id: nat)
      requires Holds(m) && id < |m.threads| && Item(th, id)
      modifies Repr
      ensures Holds(M.Dispatch(m, id)) && Repr == old(Repr)
      ensures threads == old(threads) && threads.items == old(threads.items) && current == th
    {
      hide *;
      Open(m);
      ItemFacts(th, id);
      RecordAt(threads.items, m.threads, id);
      DispatchFacts(m, id);
      current := th;
      if th.thState == M.READY {
        SetFields(th, th.quantumLeft, M.RUNNING, th.ioDevice, threads.items, m.threads, id);
      } else {
        assert m.threads[id := m.threads[id]] == m.threads;
      }
      Close(M.Dispatch(m, id));
    }

    // ------------------------------------------------------ scheduling steps

    static lemma HeadFacts(m: M.State, lists: seq<seq<Thread>>, items: seq<Thread>, p: int)
      requires M.Shape(m) && QueuesHeld(lists, m.ready, items) && -1 <= p < |lists|
      requires p >= 0 ==> lists[p] != []
      requires forall i :: p < i < |lists| ==> lists[i] == []
      requires |items| == |m.threads|
      ensures M.Top(m) == p
      ensures p >= 0 ==> m.ready[p] != [] && m.ready[p][0] < |items| && m.threads[m.ready[p][0]].priority == p
      ensures p >= 0 ==> lists[p][0] == items[m.ready[p][0]]
    {
      assert forall i :: 0 <= i < |lists| ==> |lists[i]| == |m.ready[i]|;
    }

    /** get_head on the scheduler's table. */
    method Head(ghost m: M.State) returns (th: Thread?, ghost id: nat)
      requires Holds(m)
      ensures th == null <==> M.Top(m) < 0
      ensures th != null ==> Item(th, id) && th.priority == M.Top(m) && m.ready[M.Top(m)][0] == id < |m.threads|
    {
      hide *;
      Open(m);
      ghost var p;
      var node;
      node, p := tp.GetHead();
      HeadFacts(m, tp.lists, threads.items, p);
      if node == null {
        return null, 0;
      }
      th, id := node.info, m.ready[p][0];
      RecordAt(threads.items, m.threads, id);
      MakeItem(th, id);
    }

    lemma MakeItem(th: Thread, id: nat)
      requires id < |threads.items| && th == threads.items[id]
      ensures Item(th, id)
    {
    }

    static lemma GetThreadCases(m: M.State)
      requires M.Shape(m)
      ensures M.Top(m) < |m.ready| && (M.Top(m) >= 0 ==> m.ready[M.Top(m)] != [])
      ensures M.Top(m) < 0 ==>
                M.GetThreadFromQueue(m) == m.(current := None) && M.Shape(M.GetThreadFromQueue(m))
      ensures M.Top(m) >= 0 && m.ready[M.Top(m)][0] < |m.threads| ==>
                M.GetThreadFromQueue(m) == M.Dispatch(M.TakeFirst(m, M.Top(m)), m.ready[M.Top(m)][0])
    {
    }

    method GetThreadFromQueue(ghost m: M.State)
      requires Holds(m)
      modifies Repr
      ensures Holds(M.GetThreadFromQueue(m)) && Repr == old(Repr)
      ensures threads == old(threads) && threads.items == old(threads.items)
    {
      hide *;
      Open(m);
      GetThreadCases(m);
      var th;
      ghost var id;
      th, id := Head(m);
      if th == null {
        current := null;
        Close(M.GetThreadFromQueue(m));
        return;
      }
      ItemFacts(th, id);
      Dequeue(th.priority, m);
      MakeItem(th, id);
      TakeKeepsThreads(m, M.Top(m));
      Wake(th, M.TakeFirst(m, M.Top(m)), id);
    }

    static lemma TakeKeepsThreads(m: M.State, p: nat)
      requires p < |m.ready| && m.ready[p] != []
      ensures M.TakeFirst(m, p).threads == m.threads
    {
    }

    /** What compare_priorities does in the state machine, by cases. */
    static lemma CompareCases(m: M.State, expired: bool, c: nat, h: nat)
      requires M.Shape(m)
      ensures m.current == None || M.Top(m) < 0 ==> M.ComparePriorities(m, expired) == m
      ensures M.Top(m) < |m.ready|
      ensures m.current == Some(c) && M.Top(m) >= 0 && c < |m.threads| && m.ready[M.Top(m)][0] == h < |m.threads| ==>
                var cur := m.threads[c];
                if (if expired then M.Top(m) >= cur.priority else M.Top(m) > cur.priority) && cur.thState == M.RUNNING
                then
                  var m1 := m.(threads := m.threads[c := cur.(quantumLeft := m.maxQuantum)]);
                  && M.Shape(m1) && M.Top(m1) == M.Top(m) && M.Shape(M.TakeFirst(m1, M.Top(m)))
                  && M.TakeFirst(m1, M.Top(m)).threads == m1.threads
                  && cur.priority < |M.TakeFirst(m1, M.Top(m)).ready|
                  && M.Shape(M.Put(M.TakeFirst(m1, M.Top(m)), c))
                  && M.Put(M.TakeFirst(m1, M.Top(m)), c).threads == m1.threads
                  && M.ComparePriorities(m, expired) == M.Dispatch(M.Put(M.TakeFirst(m1, M.Top(m)), c), h)
                else M.ComparePriorities(m, expired) == m
    {
      hide M.Put, M.TakeFirst, M.Dispatch;
      if m.current == Some(c) && M.Top(m) >= 0 {
        RequeueFacts(m, c);
      }
    }

    /** The shapes on the way through a switch. */
    static lemma RequeueFacts(m: M.State, c: nat)
      requires M.Shape(m) && c < |m.threads| && M.Top(m) >= 0
      ensures var m1 := m.(threads := m.threads[c := m.threads[c].(quantumLeft := m.maxQuantum)]);
              && M.Shape(m1) && M.Top(m1) == M.Top(m) && M.Shape(M.TakeFirst(m1, M.Top(m)))
              && M.TakeFirst(m1, M.Top(m)).threads == m1.threads
              && m.threads[c].priority < |M.TakeFirst(m1, M.Top(m)).ready|
              && M.Shape(M.Put(M.TakeFirst(m1, M.Top(m)), c))
              && M.Put(M.TakeFirst(m1, M.Top(m)), c).threads == m1.threads
    {
      var m1 := m.(threads := m.threads[c := m.threads[c].(quantumLeft := m.maxQuantum)]);
      TakeFacts(m1, M.Top(m));
      PutFacts(M.TakeFirst(m1, M.Top(m)), c);
    }

    method ComparePriorities(expired: bool, ghost m: M.State)
      requires Holds(m)
      modifies Repr
      ensures Holds(M.ComparePriorities(m, expired)) && fresh(Repr - old(Repr))
      ensures threads == old(threads) && threads.items == old(threads.items)
    {
      hide *;
      Open(m);
      var th;
      ghost var h;
      th, h := Head(m);
      ghost var c := if m.current.Some? then m.current.value else 0;
      CompareCases(m, expired, c, h);
      if th == null || current == null {
        return;
      }
      RecordAt(threads.items, m.threads, c);
      if ((th.priority > current.priority && !expired) || (th.priority >= current.priority && expired)) &&
         current.thState == M.RUNNING {
        var prev := current;
        ItemFacts(th, h);
        SetFields(prev, maxQuantum, prev.thState, prev.ioDevice, threads.items, m.threads, c);
        ghost var m1 := m.(threads := m.threads[c := m.threads[c].(quantumLeft := m.maxQuantum)]);
        ghost var m2 := M.TakeFirst(m1, M.Top(m));
        Close(m1);
        Dequeue(th.priority, m1);
        MakeItem(prev, c);
        Enqueue(prev, m2, c);
        MakeItem(th, h);
        Wake(th, M.Put(m2, c), h);
      }
    }

    static lemma CheckCases(m: M.State, c: nat)
      requires M.Shape(m)
      ensures m.current == None || M.Top(m) < 0 || |m.threads| <= 1 ==> M.CheckScheduler(m) == m
      ensures m.current == Some(c) && M.Top(m) >= 0 && |m.threads| > 1 ==>
                && c < |m.threads|
                && var q := M.Tick(m.threads[c].quantumLeft);
                   var m1 := m.(threads := m.threads[c := m.threads[c].(quantumLeft := q)]);
                   M.Shape(m1) && M.CheckScheduler(m) == M.ComparePriorities(m1, q == 0)
    {
    }

    static lemma TickCases(q: nat)
      ensures M.Tick(q) == if q == 0 then M.UINT_MAX else q - 1
    {
    }

    method CheckScheduler(ghost m: M.State)
      requires Holds(m)
      modifies Repr
      ensures Holds(M.CheckScheduler(m)) && fresh(Repr - old(Repr))
      ensures threads == old(threads) && threads.items == old(threads.items)
    {
      hide *;
      Open(m);
      ghost var c := if m.current.Some? then m.current.value else 0;
      CheckCases(m, c);
      if current == null {
        return;
      }
      var th;
      ghost var h;
      th, h := Head(m);
      if th != null && nrThreads > 1 {
        RecordAt(threads.items, m.threads, c);
        TickCases(current.quantumLeft);
        var q := if current.quantumLeft == 0 then M.UINT_MAX else current.quantumLeft - 1;  // unsigned decrement
        SetFields(current, q, current.thState, current.ioDevice, threads.items, m.threads, c);
        ghost var m1 := m.(threads := m.threads[c := m.threads[c].(quantumLeft := q)]);
        Close(m1);
        if current.quantumLeft > 0 {
          ComparePriorities(false, m1);
        } else {
          ComparePriorities(true, m1);
        }
      }
    }

    // ------------------------------------------------------------- the calls

    lemma ValidFacts()
      requires Valid()
      ensures Holds(model) && S.Inv(model) && M.Shape(model)
    {
    }

    lemma MakeValid()
      requires Holds(model) && S.Inv(model)
      ensures Valid()
    {
    }

    static lemma AlwaysSound(m: M.State, op: M.Op)
      requires !op.OpWait? && !op.OpSignal?
      ensures S.Sound(m, op)
    {
    }

    /** so_exec */
    method SoExec()
      requires Valid()
      modifies Repr
      ensures Valid() && fresh(Repr - old(Repr))
      ensures model == M.Step(old(model), M.OpExec)
    {
      hide *;
      ghost var m := model;
      ValidFacts();
      Open(m);
      ExecCases(m);
      AlwaysSound(m, M.OpExec);
      S.StepOk(m, M.OpExec);
      CheckScheduler(m);
      Open(M.CheckScheduler(m));
      SetModel(M.CheckScheduler(m));
      MakeValid();
    }

    static lemma ExecCases(m: M.State)
      requires S.Inv(m)
      ensures M.Enabled(m, M.OpExec) && M.Step(m, M.OpExec) == M.CheckScheduler(m)
    {
    }

    ghost method SetModel(m: M.State)
      requires Holds(m)
      modifies this`model
      ensures Holds(m) && model == m
    {
      model := m;
    }

    /** so_wait: -1 for a device that is not accepted. */
    method SoWait(io: nat) returns (r: int)
      requires Valid() && current != null
      modifies Repr
      ensures Holds(model) && fresh(Repr - old(Repr))
      ensures old(model).current.Some? && model == M.Step(old(model), M.OpWait(io))
      ensures S.Sound(old(model), M.OpWait(io)) ==> Valid()
      ensures r == if M.Accepts(old(model), io) then 0 else -1
    {
      hide *;
      ghost var m := model;
      ValidFacts();
      Open(m);
      WaitCases(m, io);
      if S.Sound(m, M.OpWait(io)) {
        S.StepOk(m, M.OpWait(io));
      }
      var last := if ioDev == 0 then M.UINT_MAX else ioDev - 1;  // unsigned
      if io > last {
        return -1;
      }
      ghost var c := m.current.value;
      RecordAt(threads.items, m.threads, c);
      SetFields(current, maxQuantum, M.WAITING, io, threads.items, m.threads, c);
      ghost var waiting := m.threads[c].(ioDevice := io, quantumLeft := m.maxQuantum, thState := M.WAITING);
      ghost var m1 := m.(threads := m.threads[c := waiting]);
      Close(m1);
      GetThreadFromQueue(m1);
      SetModel(M.Step(m, M.OpWait(io)));
      if S.Inv(model) {
        MakeValid();
      }
      return 0;
    }

    static lemma WaitCases(m: M.State, io: nat)
      requires S.Inv(m)
      ensures M.Shape(m) && (m.current.Some? ==> M.Enabled(m, M.OpWait(io)) && m.current.value < |m.threads|)
      ensures M.Accepts(m, io) <==> io <= if m.ioDev == 0 then M.UINT_MAX else m.ioDev - 1
      ensures m.current.Some? && !M.Accepts(m, io) ==> M.Step(m, M.OpWait(io)) == m
      ensures m.current.Some? && M.Accepts(m, io) ==>
                var c := m.current.value;
                var t := m.threads[c].(ioDevice := io, quantumLeft := m.maxQuantum, thState := M.WAITING);
                var m1 := m.(threads := m.threads[c := t]);
                M.Shape(m1) && M.Step(m, M.OpWait(io)) == M.GetThreadFromQueue(m1)
    {
    }

    /** The end of th_handler: the thread's function has returned. */
    method HandlerReturns()
      requires Valid() && current != null
      modifies Repr
      ensures Valid() && fresh(Repr - old(Repr))
      ensures old(model).current.Some? && model == M.Step(old(model), M.OpFinish)
    {
      hide *;
      ghost var m := model;
      ValidFacts();
      Open(m);
      FinishCases(m);
      AlwaysSound(m, M.OpFinish);
      S.StepOk(m, M.OpFinish);
      var th := current;
      ghost var c := m.current.value;
      GetThreadFromQueue(m);
      ghost var m1 := M.GetThreadFromQueue(m);
      Open(m1);
      RecordAt(threads.items, m1.threads, c);
      ItemIn(threads.items, c);
      SetFields(th, th.quantumLeft, M.TERMINATED, th.ioDevice, threads.items, m1.threads, c);
      Close(M.Step(m, M.OpFinish));
      SetModel(M.Step(m, M.OpFinish));
      MakeValid();
    }

    static lemma ItemIn(items: seq<Thread>, i: nat)
      requires i < |items|
      ensures items[i] in items
    {
    }

    static lemma FinishCases(m: M.State)
      requires S.Inv(m)
      ensures M.Shape(m) && (m.current.Some? ==> M.Enabled(m, M.OpFinish) && m.current.value < |m.threads|)
      ensures m.current.Some? ==>
                var r, c := M.GetThreadFromQueue(m), m.current.value;
                && |r.threads| == |m.threads|
                && M.Step(m, M.OpFinish) == r.(threads := r.threads[c := r.threads[c].(thState := M.TERMINATED)])
    {
    }

    /** so_signal: the number of threads that were waiting for the device, -1 if it is not accepted. */
    method SoSignal(io: nat) returns (r: int)
      requires Valid() && current != null
      modifies Repr
      ensures Holds(model) && fresh(Repr - old(Repr))
      ensures old(model).current.Some? && model == M.Step(old(model), M.OpSignal(io))
      ensures S.Sound(old(model), M.OpSignal(io)) ==> Valid()
      ensures r == if M.Accepts(old(model), io) then M.WaiterCount(old(model), io, |old(model).threads|) else -1
    {
      hide *;
      ghost var m := model;
      ValidFacts();
      Open(m);
      SignalCases(m, io);
      if S.Sound(m, M.OpSignal(io)) {
        S.StepOk(m, M.OpSignal(io));
      }
      var last := if ioDev == 0 then M.UINT_MAX else ioDev - 1;  // unsigned
      if io > last {
        return -1;
      }
      ghost var n := |m.threads|;
      var unblocked := WakeWaiters(io, m);
      ghost var w := M.Wake(m, io, n);
      Open(w);
      RecordAt(threads.items, w.threads, m.current.value);
      if current.quantumLeft > 0 {
        ComparePriorities(false, w);
      } else {
        ComparePriorities(true, w);
      }
      Open(M.Step(m, M.OpSignal(io)));
      SetModel(M.Step(m, M.OpSignal(io)));
      if S.Inv(model) {
        MakeValid();
      }
      return unblocked;
    }

    static lemma SignalCases(m: M.State, io: nat)
      requires S.Inv(m)
      ensures M.Shape(m)
      ensures m.current.Some? ==> M.Enabled(m, M.OpSignal(io)) && m.current.value < |m.threads|
      ensures M.Accepts(m, io) <==> io <= if m.ioDev == 0 then M.UINT_MAX else m.ioDev - 1
      ensures m.current.Some? && !M.Accepts(m, io) ==> M.Step(m, M.OpSignal(io)) == m
      ensures m.current.Some? && M.Accepts(m, io) ==>
                var w := M.Wake(m, io, |m.threads|);
                && |w.threads| == |m.threads| && w.current == m.current && M.Shape(w)
                && M.Step(m, M.OpSignal(io)) == M.ComparePriorities(w, w.threads[w.current.value].quantumLeft == 0)
    {
    }

    static lemma WakeCases(m: M.State, io: nat, k: nat)
      requires M.Shape(m) && k <= |m.threads|
      ensures M.Wake(m, io, 0) == m && M.WaiterCount(m, io, 0) == 0
      ensures k > 0 ==>
                var w, id := M.Wake(m, io, k - 1), k - 1;
                var waits := m.threads[id].ioDevice == io && m.threads[id].thState == M.WAITING;
                && M.Shape(w) && |w.threads| == |m.threads| && w.threads[id] == m.threads[id]
                && M.WaiterCount(m, io, k) == M.WaiterCount(m, io, k - 1) + (if waits then 1 else 0)
                && if waits then
                     var w1 := w.(threads := w.threads[id := w.threads[id].(ioDevice := M.NO_DEVICE)]);
                     M.Shape(w1) && M.Wake(m, io, k) == M.Put(w1, id)
                   else M.Wake(m, io, k) == w
    {
      hide M.Put, M.Shape;
      if k > 0 {
        ClearedShape(M.Wake(m, io, k - 1), k - 1);
      }
    }

    static lemma ClearedShape(m: M.State, id: nat)
      requires M.Shape(m) && id < |m.threads|
      ensures var m1 := m.(threads := m.threads[id := m.threads[id].(ioDevice := M.NO_DEVICE)]);
              M.Shape(m1) && m1.threads[id].priority < |m1.ready|
    {
    }

    /** so_signal's treatment of one thread. */
    method WakeOne(thread: Thread, io: nat, ghost m: M.State, ghost k: nat) returns (woken: bool)
      requires M.Shape(m) && k < |m.threads|
      requires Holds(M.Wake(m, io, k))
      requires k < |threads.items| && thread == threads.items[k]
      modifies Repr
      ensures Holds(M.Wake(m, io, k + 1)) && fresh(Repr - old(Repr))
      ensures threads == old(threads) && threads.cells == old(threads.cells)
      ensures M.WaiterCount(m, io, k + 1) == M.WaiterCount(m, io, k) + if woken then 1 else 0
    {
      hide *;
      ghost var w := M.Wake(m, io, k);
      Open(w);
      WakeCases(m, io, k + 1);
      RecordAt(threads.items, w.threads, k);
      woken := thread.ioDevice == io && thread.thState == M.WAITING;
      if woken {
        ItemIn(threads.items, k);
        SetFields(thread, thread.quantumLeft, thread.thState, M.NO_DEVICE, threads.items, w.threads, k);
        ghost var w1 := w.(threads := w.threads[k := w.threads[k].(ioDevice := M.NO_DEVICE)]);
        Close(w1);
        MakeItem(thread, k);
        Enqueue(thread, w1, k);
      }
    }

    /** The loop of so_signal over the list of all threads. */
    method WakeWaiters(io: nat, ghost m: M.State) returns (unblocked: nat)
      requires Holds(m)
      modifies Repr
      ensures M.Shape(m) && Holds(M.Wake(m, io, |m.threads|)) && fresh(Repr - old(Repr))
      ensures unblocked == M.WaiterCount(m, io, |m.threads|)
    {
      hide *;
      Open(m);
      WakeCases(m, io, 0);
      threads.At(0);
      unblocked := 0;
      var p := threads.head;
      ghost var k, cells := 0, threads.cells;
      while p != null
        invariant k <= |m.threads| == |cells| && threads.cells == cells
        invariant p == if k < |cells| then cells[k] else null
        invariant Holds(M.Wake(m, io, k))
        invariant unblocked == M.WaiterCount(m, io, k)
        invariant fresh(Repr - old(Repr))
        decreases |cells| - k
      {
        Open(M.Wake(m, io, k));
        threads.At(k);
        var woken := WakeOne(p.info, io, m, k);
        WakeCases(m, io, k + 1);
        unblocked := unblocked + if woken then 1 else 0;
        Open(M.Wake(m, io, k + 1));
        threads.At(k);
        p := p.urm;
        k := k + 1;
      }
    }

    /** so_fork: false stands for INVALID_TID. */
    method SoFork(hasHandler: bool, priority: nat) returns (ok: bool)
      requires Valid()
      modifies Repr
      ensures Valid() && fresh(Repr - old(Repr))
      ensures ok <==> hasHandler && priority <= M.SO_MAX_PRIO
      ensures model == if hasHandler then M.Step(old(model), M.OpFork(priority)) else old(model)
    {
      hide *;
      ghost var m := model;
      ValidFacts();
      Open(m);
      ForkCases(m, priority);
      AlwaysSound(m, M.OpFork(priority));
      S.StepOk(m, M.OpFork(priority));
      if priority > M.SO_MAX_PRIO || !hasHandler {
        return false;
      }
      ghost var n, s1 := |m.threads|, M.NewThread(m, priority);
      var thread := Create(priority, m);
      Enqueue(thread, s1, n);
      Open(M.Put(s1, n));
      if current == null {
        RunFirst(M.Put(s1, n), priority, n);
      } else {
        CheckScheduler(M.Put(s1, n));
      }
      Open(M.Step(m, M.OpFork(priority)));
      SetModel(M.Step(m, M.OpFork(priority)));
      MakeValid();
      return true;
    }

    /** th_handler when nobody runs: the head of the table is taken off and runs. */
    method RunFirst(ghost m: M.State, ghost p: nat, ghost n: nat)
      requires Holds(m) && M.Top(m) == p < |m.ready| && m.ready[p] == [n] && n < |m.threads|
      requires |M.TakeFirst(m, p).threads| == |m.threads|
      modifies Repr
      ensures Holds(M.Dispatch(M.TakeFirst(m, p), n)) && fresh(Repr - old(Repr))
    {
      hide *;
      Open(m);
      var th;
      ghost var h;
      th, h := Head(m);
      ItemFacts(th, h);
      Dequeue(th.priority, m);
      MakeItem(th, h);
      Wake(th, M.TakeFirst(m, p), n);
    }

    /** The first thread finds every queue empty, so the head it removes is itself. */
    static lemma ForkCases(m: M.State, priority: nat)
      requires S.Inv(m)
      ensures M.Shape(m) && M.Enabled(m, M.OpFork(priority))
      ensures priority > M.SO_MAX_PRIO ==> M.Step(m, M.OpFork(priority)) == m
      ensures priority <= M.SO_MAX_PRIO ==>
                var n, s1 := |m.threads|, M.NewThread(m, priority);
                && M.Shape(s1) && n < |s1.threads| && s1.threads[n].priority < |s1.ready|
                && M.Shape(M.Put(s1, n)) && M.Put(s1, n).current == m.current
                && M.Put(s1, n).threads == s1.threads
                && (m.current.Some? ==> M.Step(m, M.OpFork(priority)) == M.CheckScheduler(M.Put(s1, n)))
                && (m.current.None? ==>
                      && M.Top(M.Put(s1, n)) == priority < |M.Put(s1, n).ready|
                      && M.Put(s1, n).ready[priority] == [n]
                      && M.TakeFirst(M.Put(s1, n), priority).threads == s1.threads
                      && M.Step(m, M.OpFork(priority)) == M.Dispatch(M.TakeFirst(M.Put(s1, n), priority), n))
    {
      hide S.QueuesOk, S.OthersOk;
    }

    static lemma NewThreadFacts(m: M.State, priority: nat)
      requires M.Shape(m) && priority <= M.SO_MAX_PRIO
      ensures M.Shape(M.NewThread(m, priority))
      ensures M.NewThread(m, priority) ==
              m.(threads := m.threads + [M.Thread(priority, m.maxQuantum, M.READY, M.NO_DEVICE)])
    {
    }

    static lemma RecordsAdd(items: seq<Thread>, records: seq<M.Thread>, th: Thread)
      requires RecordsHeld(items, records) && th.id == |items|
      ensures RecordsHeld(items + [th], records + [M.Thread(th.priority, th.quantumLeft, th.thState, th.ioDevice)])
    {
    }

    static lemma QueuesGrow(lists: seq<seq<Thread>>, ready: seq<seq<nat>>, items: seq<Thread>, th: Thread)
      requires QueuesHeld(lists, ready, items)
      ensures QueuesHeld(lists, ready, items + [th])
    {
    }

    /** A thread record on the list of all threads, READY but in no queue yet. */
    method Create(priority: nat, ghost m: M.State) returns (thread: Thread)
      requires Holds(m) && priority <= M.SO_MAX_PRIO
      modifies Repr
      ensures Holds(M.NewThread(m, priority)) && fresh(Repr - old(Repr))
      ensures Item(thread, |m.threads|) && current == old(current)
    {
      hide *;
      Open(m);
      NewThreadFacts(m, priority);
      thread := new Thread(priority, maxQuantum, |m.threads|);
      nrThreads := nrThreads + 1;
      threads.Add(thread);
      thread.thState := M.READY;
      RecordsAdd(old(threads.items), m.threads, thread);
      QueuesGrow(tp.lists, m.ready, old(threads.items), thread);
      Repr := Repr + {thread} + threads.Repr;
      Close(M.NewThread(m, priority));
      MakeItem(thread, |m.threads|);
    }
  }
}