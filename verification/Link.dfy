/**
 link.c on its own data: the two linked queues and the scheduler's variables. Each
 method is one step of one thread and does what LinkModel says.
 */
module Link {
  import opened Wrappers
  import opened LinkQueue
  import Hamming
  import M = LinkModel

  class Link {
    const serialization: int
    const delay: int
    const capacity: nat
    var buffer: Queue<M.Message>
    var inFlight: Queue<M.InFlight>
    var crtTime: int
    var idleTime: int
    var stuff: bool

    ghost var model: M.State
    ghost var Repr: set<object>

    /** The heap holds exactly the state m. */
    ghost predicate Holds(m: M.State)
      reads this, Repr
    {
      && this in Repr && buffer in Repr && inFlight in Repr
      && buffer.Repr <= Repr && inFlight.Repr <= Repr && buffer.Repr !! inFlight.Repr
      && this !in buffer.Repr && this !in inFlight.Repr
      && buffer.Valid() && inFlight.Valid()
      && m.buffer == buffer.contents && m.wire == inFlight.contents
      && m.serialization == serialization && m.delay == delay && m.capacity == capacity
      && m.crtTime == crtTime && m.idleTime == idleTime && m.stuff == stuff
    }

    ghost predicate Valid()
      reads this, Repr
    {
      Holds(model) && M.Inv(model)
    }

    lemma ValidFacts()
      requires Valid()
      ensures Holds(model) && M.Inv(model)
    {
    }

    lemma MakeValid()
      requires Holds(model) && M.Inv(model)
      ensures Valid()
    {
    }

    /** The heap does not say where the two threads are, nor what has left it. */
    ghost method SetModel(m: M.State, r: M.State)
      requires Holds(m)
      requires r == m.(clock := r.clock, scheduler := r.scheduler, forwarder := r.forwarder,
                       originals := r.originals, accepted := r.accepted, delivered := r.delivered)
      modifies this`model
      ensures Holds(r) && model == r
    {
      model := r;
    }

    /** The parts of Holds, for methods that keep its body out of sight. */
    lemma Open(m: M.State)
      requires Holds(m)
      ensures this in Repr && buffer in Repr && inFlight in Repr
      ensures buffer.Repr <= Repr && inFlight.Repr <= Repr && buffer.Repr !! inFlight.Repr
      ensures this !in buffer.Repr && this !in inFlight.Repr && buffer in buffer.Repr && inFlight in inFlight.Repr
      ensures buffer.Valid() && inFlight.Valid()
      ensures m.buffer == buffer.contents && m.wire == inFlight.contents
      ensures buffer.size == |buffer.contents| && inFlight.size == |inFlight.contents|
      ensures m.serialization == serialization && m.delay == delay && m.capacity == capacity
      ensures m.crtTime == crtTime && m.idleTime == idleTime && m.stuff == stuff
    {
    }

    lemma Close(m: M.State)
      requires this in Repr && buffer in Repr && inFlight in Repr
      requires buffer.Repr <= Repr && inFlight.Repr <= Repr && buffer.Repr !! inFlight.Repr
      requires this !in buffer.Repr && this !in inFlight.Repr
      requires buffer.Valid() && inFlight.Valid()
      requires m.buffer == buffer.contents && m.wire == inFlight.contents
      requires m.serialization == serialization && m.delay == delay && m.capacity == capacity
      requires m.crtTime == crtTime && m.idleTime == idleTime && m.stuff == stuff
      ensures Holds(m)
    {
    }

    constructor (serialization: int, delay: int, capacity: nat, ghost clock: int)
      ensures Valid() && fresh(Repr) && model == M.Init(serialization, delay, capacity, clock)
    {
      hide *;
      this.serialization, this.delay, this.capacity := serialization, delay, capacity;
      buffer := new Queue<M.Message>();
      inFlight := new Queue<M.InFlight>();
      crtTime, idleTime, stuff := 0, 0, false;
      model := M.Init(serialization, delay, capacity, clock);
      new;
      Repr := {this} + buffer.Repr + inFlight.Repr;
      M.InitOk(serialization, delay, capacity, clock);
      InitFacts(serialization, delay, capacity, clock);
      Close(model);
      MakeValid();
    }

    // ----------------------------------------------- what happens around the link

    /** Time passes, or the clock is set back. */
    ghost method Tick(elapsed: int)
      requires Valid()
      modifies this`model
      ensures Valid() && Repr == old(Repr)
      ensures M.Enabled(old(model), M.Tick(elapsed)) && model == M.Step(old(model), M.Tick(elapsed))
    {
      hide *;
      ValidFacts();
      Open(model);
      AlwaysTicks(model, elapsed);
      M.StepOk(model, M.Tick(elapsed));
      StepFacts(model, M.Tick(elapsed));
      model := M.Step(model, M.Tick(elapsed));
      Close(model);
      MakeValid();
    }

    /** receive_message1 hands a message to run_forwarding. */
    ghost method Receive(m: M.Message)
      requires Valid() && M.Enabled(model, M.Receive(m))
      modifies this`model
      ensures Valid() && Repr == old(Repr)
      ensures model == M.Step(old(model), M.Receive(m)) && model.forwarder == M.Checking(m)
    {
      hide *;
      ValidFacts();
      Open(model);
      M.StepOk(model, M.Receive(m));
      StepFacts(model, M.Receive(m));
      ReceiveFacts(model, m);
      model := M.Step(model, M.Receive(m));
      Close(model);
      MakeValid();
    }

    // -------------------------------------------------------- link_scheduler

    /** crt_time = now() */
    method ReadClock(now: int)
      requires Valid() && M.Enabled(model, M.ReadClock) && now == model.clock
      modifies Repr
      ensures Valid() && fresh(Repr - old(Repr)) && model == M.Step(old(model), M.ReadClock)
    {
      hide *;
      ValidFacts();
      Open(model);
      M.StepOk(model, M.ReadClock);
      StepFacts(model, M.ReadClock);
      crtTime := now;
      model := M.Step(model, M.ReadClock);
      Close(model);
      MakeValid();
    }

    /** One turn of the sending loop: the message that leaves, or nothing when the loop ends. */
    method SendTurn() returns (sent: Option<M.Message>)
      requires Valid() && model.scheduler == M.Sending
      modifies Repr
      ensures Valid() && fresh(Repr - old(Repr))
      ensures var a := if M.Due(old(model)) then M.SendOldest else M.StopSending;
              M.Enabled(old(model), a) && model == M.Step(old(model), a)
      ensures sent == if M.Due(old(model)) then Some(old(model).wire[0].m) else None
    {
      hide *;
      ValidFacts();
      Open(model);
      SendFacts(model);
      if inFlight.size > 0 {
        var last := inFlight.Oldest();
        if crtTime >= last.finish {
          SendOldest();
          return Some(last.m);
        }
      }
      M.StepOk(model, M.StopSending);
      StepFacts(model, M.StopSending);
      model := M.Step(model, M.StopSending);
      Close(model);
      MakeValid();
      return None;
    }

    method SendOldest()
      requires Valid() && M.Enabled(model, M.SendOldest)
      modifies Repr
      ensures Valid() && fresh(Repr - old(Repr)) && model == M.Step(old(model), M.SendOldest)
    {
      hide *;
      ValidFacts();
      Open(model);
      M.StepOk(model, M.SendOldest);
      StepFacts(model, M.SendOldest);
      var mif := inFlight.Dequeue();
      model := M.Step(model, M.SendOldest);
      Close(model);
      MakeValid();
    }

    /** stuff = buffer->size > 0 */
    method SampleBuffer()
      requires Valid() && M.Enabled(model, M.SampleBuffer)
      modifies Repr
      ensures Valid() && fresh(Repr - old(Repr)) && model == M.Step(old(model), M.SampleBuffer)
    {
      hide *;
      ValidFacts();
      Open(model);
      M.StepOk(model, M.SampleBuffer);
      StepFacts(model, M.SampleBuffer);
      stuff := buffer.size > 0;
      model := M.Step(model, M.SampleBuffer);
      Close(model);
      MakeValid();
    }

    /** May the wire take a message now? */
    method Decide() returns (take: bool)
      requires Valid() && M.Enabled(model, M.Decide)
      modifies Repr
      ensures Valid() && fresh(Repr - old(Repr)) && model == M.Step(old(model), M.Decide)
      ensures take <==> model.scheduler == M.Taking
    {
      hide *;
      ValidFacts();
      Open(model);
      M.StepOk(model, M.Decide);
      StepFacts(model, M.Decide);
      take := stuff && crtTime >= idleTime;
      if take {
        idleTime := crtTime + serialization;
      }
      model := M.Step(model, M.Decide);
      Close(model);
      MakeValid();
    }

    /** dequeue(buffer) */
    method Unbuffer(ghost m: M.State) returns (msg: M.Message)
      requires Holds(m) && m.buffer != []
      modifies Repr
      ensures Holds(m.(buffer := m.buffer[1..])) && Repr == old(Repr) && model == old(model)
      ensures msg == m.buffer[0] && crtTime == old(crtTime)
    {
      hide *;
      Open(m);
      var d := buffer.Dequeue();
      assert d.Some?;
      msg := d.value;
      Close(m.(buffer := m.buffer[1..]));
    }

    /** enqueue(in_flight, mif) */
    method PutOnWire(mif: M.InFlight, ghost m: M.State)
      requires Holds(m)
      modifies Repr
      ensures Holds(m.(wire := m.wire + [mif])) && fresh(Repr - old(Repr)) && model == old(model)
    {
      hide *;
      Open(m);
      inFlight.Enqueue(mif);
      Repr := Repr + inFlight.Repr;
      Close(m.(wire := m.wire + [mif]));
    }

    /** From the buffer to the wire; the asserted message is there. */
    method Take()
      requires Valid() && M.Enabled(model, M.Take)
      modifies Repr
      ensures Valid() && fresh(Repr - old(Repr)) && model == M.Step(old(model), M.Take)
      ensures |model.wire| == |old(model).wire| + 1
    {
      hide *;
      ghost var m := model;
      ValidFacts();
      M.StepOk(m, M.Take);
      TakeFacts(m);
      var msg := Unbuffer(m);
      ghost var m1 := m.(buffer := m.buffer[1..]);
      Open(m1);
      var mif := M.InFlight(msg, crtTime, crtTime + serialization + delay);
      PutOnWire(mif, m1);
      SetModel(m1.(wire := m1.wire + [mif]), M.Step(m, M.Take));
      MakeValid();
    }

    // -------------------------------------------------------- run_forwarding

    /** Is there space? A message that is kept may have one bit flipped. */
    method CheckSpace(m: M.Message, lost: bool, flip: Option<M.Flip>) returns (kept: Option<M.Message>)
      requires Valid() && M.Enabled(model, M.CheckSpace(lost, flip)) && model.forwarder == M.Checking(m)
      modifies Repr
      ensures Valid() && fresh(Repr - old(Repr)) && model == M.Step(old(model), M.CheckSpace(lost, flip))
      ensures model.forwarder == if kept.Some? then M.Accepting(m, kept.value) else M.Receiving
    {
      hide *;
      ValidFacts();
      Open(model);
      M.StepOk(model, M.CheckSpace(lost, flip));
      CheckFacts(model, m, lost, flip);
      var overflow := buffer.size >= capacity;
      if overflow || lost {
        kept := None;
      } else if flip.Some? {
        kept := Some(m[flip.value.index := Hamming.Xor(m[flip.value.index], Hamming.BitMask(flip.value.bit))]);
      } else {
        kept := Some(m);
      }
      model := M.Step(model, M.CheckSpace(lost, flip));
      Close(model);
      MakeValid();
    }

    /** enqueue(buffer, m) */
    method Accept(m: M.Message)
      requires Valid() && M.Enabled(model, M.Accept) && model.forwarder.Accepting? && model.forwarder.m == m
      modifies Repr
      ensures Valid() && fresh(Repr - old(Repr)) && model == M.Step(old(model), M.Accept)
    {
      hide *;
      ValidFacts();
      Open(model);
      M.StepOk(model, M.Accept);
      StepFacts(model, M.Accept);
      buffer.Enqueue(m);
      Repr := Repr + buffer.Repr;
      model := M.Step(model, M.Accept);
      Close(model);
      MakeValid();
    }
  }

  lemma InitFacts(serialization: int, delay: int, capacity: nat, clock: int)
    ensures M.Init(serialization, delay, capacity, clock) ==
            M.State(serialization, delay, capacity, clock, M.Waiting, M.Receiving, [], [], 0, 0, false, [], [], [])
  {
  }

  /** What each step does to the variables the threads share. */
  lemma StepFacts(s: M.State, a: M.Action)
    requires M.Inv(s) && M.Enabled(s, a)
    ensures var r := M.Step(s, a);
            && r.serialization == s.serialization && r.delay == s.delay && r.capacity == s.capacity
            && r.crtTime == (if a.ReadClock? then s.clock else s.crtTime)
            && r.stuff == (if a.SampleBuffer? then |s.buffer| > 0 else s.stuff)
            && (a.Decide? ==> (if s.stuff && s.crtTime >= s.idleTime
                               then r.idleTime == s.crtTime + s.serialization && r.scheduler == M.Taking
                               else r.idleTime == s.idleTime && r.scheduler != M.Taking))
            && (!a.Decide? ==> r.idleTime == s.idleTime)
            && (a.Take? ==> s.buffer != [] && r.buffer == s.buffer[1..])
            && (a.Take? ==>
                  r.wire == s.wire + [M.InFlight(s.buffer[0], s.crtTime, s.crtTime + s.serialization + s.delay)])
            && (a.SendOldest? ==> s.wire != [] && r.wire == s.wire[1..])
            && (!a.Take? && !a.SendOldest? ==> r.wire == s.wire)
            && (a.Accept? ==> s.forwarder.Accepting? && r.buffer == s.buffer + [s.forwarder.m])
            && (!a.Take? && !a.Accept? ==> r.buffer == s.buffer)
  {
    hide M.Conserved, M.Spaced, M.LastFlight, M.Window, M.Punctual, M.Faithful;
  }

  lemma AlwaysTicks(s: M.State, elapsed: int)
    ensures M.Enabled(s, M.Tick(elapsed))
  {
  }

  lemma ReceiveFacts(s: M.State, m: M.Message)
    requires M.Enabled(s, M.Receive(m))
    ensures M.Step(s, M.Receive(m)).forwarder == M.Checking(m)
  {
  }

  lemma TakeFacts(s: M.State)
    requires M.Inv(s) && M.Enabled(s, M.Take)
    ensures s.buffer != []
    ensures M.Step(s, M.Take) ==
            s.(buffer := s.buffer[1..], scheduler := M.Waiting,
               wire := s.wire + [M.InFlight(s.buffer[0], s.crtTime, s.crtTime + s.serialization + s.delay)])
  {
    hide M.Conserved, M.Spaced, M.LastFlight, M.Window, M.Punctual, M.Faithful;
  }

  lemma SendFacts(s: M.State)
    requires s.scheduler == M.Sending
    ensures M.Due(s) <==> s.wire != [] && s.crtTime >= s.wire[0].finish
    ensures M.Enabled(s, M.SendOldest) <==> M.Due(s)
    ensures M.Enabled(s, M.StopSending) <==> !M.Due(s)
  {
  }

  lemma CheckFacts(s: M.State, m: M.Message, lost: bool, flip: Option<M.Flip>)
    requires M.Enabled(s, M.CheckSpace(lost, flip)) && s.forwarder == M.Checking(m)
    ensures flip.Some? ==> flip.value.index < |m| && flip.value.bit < 8
    ensures var r := M.Step(s, M.CheckSpace(lost, flip));
            r == s.(forwarder :=
              if |s.buffer| >= s.capacity || lost then M.Receiving
              else if flip.None? then M.Accepting(m, m)
              else M.Accepting(m, m[flip.value.index :=
                     Hamming.Xor(m[flip.value.index], Hamming.BitMask(flip.value.bit))]))
  {
  }
}
