/** The loops of src/oatpp/async/Processor.cpp that run on the processor's own thread, as methods. Each one is a run of
    the protocol: what is proved for all runs holds for what these loops do. */
module ProcessorLoop {
  import opened ProcessorProtocol
  import opened Sequences

  lemma {:induction false} RunOn(s: State, events: seq<Event>, e: Event)
    requires IsRun(s, events) && Enabled(End(s, events), e)
    ensures IsRun(s, events + [e]) && End(s, events + [e]) == Apply(End(s, events), e)
    decreases |events|
  {
    hide Apply, Enabled;
    if events == [] {
      assert [e][1..] == [];
      assert [] + [e] == [e];
    } else {
      assert (events + [e])[1..] == events[1..] + [e];
      RunOn(Apply(s, events[0]), events[1..], e);
    }
  }

  /** Nobody is in the middle of waking a coroutine. */
  predicate Quiet(lists: seq<WaitList>) {
    forall l :: 0 <= l < |lists| ==> lists[l].waking.Nothing?
  }

  class Processor {
    var state: State

    /** The state at the start of the current call of `iterate`, and the steps since. */
    ghost var start: State
    ghost var steps: seq<Event>

    ghost predicate Valid()
      reads this
    {
      IsRun(start, steps) && End(start, steps) == state && Quiet(state.lists)
    }

    constructor (ioWorkers: nat, timerWorkers: nat, lists: nat)
      ensures Valid() && state == start == Init(ioWorkers, timerWorkers, lists) && steps == []
    {
      state := Init(ioWorkers, timerWorkers, lists);
      start := Init(ioWorkers, timerWorkers, lists);
      steps := [];
      new;
      QuietAtFirst(lists);
    }

    method Step(e: Event)
      requires Valid() && Enabled(state, e) && Quiet(Apply(state, e).lists)
      modifies this
      ensures Valid() && state == Apply(old(state), e) && start == old(start) && steps == old(steps) + [e]
    {
      hide Apply, Enabled, Quiet;
      RunOn(start, steps, e);
      state := Apply(state, e);
      steps := steps + [e];
    }

    /** `takeAction` and `iterateAndTakeAction`: the coroutine's own code. */
    method Ask() returns (outcome: Outcome)
      ensures OutcomeFits(state, outcome)
    {
      outcome := *;
      if outcome.Wait? && outcome.list >= |state.lists| {
        outcome := GoOn;
      }
    }

    /** `waitList->add` after `putCoroutineToSleep`, if the coroutine goes to sleep. */
    method FinishInsertion()
      requires Valid() && (state.pc.Inserting? ==> state.pc.list < |state.lists|)
      modifies this
      ensures Valid() && start == old(start)
      ensures old(state).pc.Inserting? ==> state == Apply(old(state), Insert)
      ensures !old(state).pc.Inserting? ==> state == old(state)
    {
      if state.pc.Inserting? {
        InsertKeepsQuiet(state);
        Step(Insert);
      }
    }

    /** `pushQueues` */
    method PushQueues()
      requires Valid() && state.pc.Idle?
      modifies this
      ensures Valid() && start == old(start)
      ensures state.pc.Broken? || (state.pc.Adding? && state.tmp == [])
    {
      hide Apply, Enabled, Quiet;
      ConsumeIs(state);
      Step(Consume);
      while state.tmp != []
        invariant Valid() && start == old(start) && state.pc.Adding?
        decreases |state.tmp|
      {
        var outcome := Ask();
        AddIs(state, outcome);
        Step(Add(outcome));
        if state.pc.Broken? {
          return;
        }
        ghost var before := state;
        FinishInsertion();
        if before.pc.Inserting? {
          InsertKeepsQuiet(before);
          InsertIs(before);
        }
      }
    }

    /** `popTasks` */
    method PopTasks()
      requires Valid() && state.pc == Popping(0, 0)
      requires |state.ioPop| == |state.ioWork| && |state.timerPop| == |state.timerWork|
      modifies this
      ensures Valid() && start == old(start) && state.pc.Idle?
      ensures forall i :: 0 <= i < |state.ioPop| ==> state.ioPop[i] == []
      ensures forall i :: 0 <= i < |state.timerPop| ==> state.timerPop[i] == []
    {
      hide Apply, Enabled, Quiet;
      var i := 0;
      while i < |state.ioPop|
        invariant 0 <= i <= |state.ioPop| == |state.ioWork| && |state.timerPop| == |state.timerWork|
        invariant Valid() && start == old(start) && state.pc == Popping(i, 0)
        invariant forall j :: 0 <= j < i ==> state.ioPop[j] == []
        decreases |state.ioPop| - i
      {
        PopIoIs(state);
        Step(PopIo);
        i := i + 1;
      }
      var k := 0;
      while k < |state.timerPop|
        invariant 0 <= k <= |state.timerPop| == |state.timerWork|
        invariant Valid() && start == old(start) && state.pc == Popping(|state.ioPop|, k)
        invariant forall j :: 0 <= j < |state.ioPop| ==> state.ioPop[j] == []
        invariant forall j :: 0 <= j < k ==> state.timerPop[j] == []
        decreases |state.timerPop| - k
      {
        PopTimerIs(state);
        Step(PopTimer);
        k := k + 1;
      }
      PopsDoneIs(state);
      Step(PopsDone);
    }

    /** One turn of the loop of `iterate`. */
    method IterateOnce()
      requires Valid() && state.pc.Looping? && state.pc.turns > 0 && state.queue != []
      modifies this
      ensures Valid() && start == old(start)
      ensures state.pc.Broken? || state.pc == Looping(old(state).pc.turns - 1)
    {
      hide Apply, Enabled, Quiet;
      var finished: bool := *;
      if finished {
        FinishIs(state);
        Step(Finish);
        DecrementIs(state);
        Step(Decrement);
      } else {
        var outcome := Ask();
        TurnIs(state, outcome);
        Step(Turn(outcome));
        ghost var before := state;
        if !state.pc.Broken? {
          FinishInsertion();
          if before.pc.Inserting? {
            InsertKeepsQuiet(before);
            InsertIs(before);
          }
        }
      }
    }

    /** `iterate`; threw tells of the exception of a processor without workers. */
    method Iterate(numIterations: nat) returns (active: bool, threw: bool)
      requires Valid() && state.pc.Idle? && Invariant(state)
      requires |state.ioPop| == |state.ioWork| && |state.timerPop| == |state.timerWork|
      modifies this
      ensures Valid() && start == old(state)
      ensures Invariant(state) && threw == state.pc.Broken?
      ensures !threw ==> state.pc.Idle?
                         && active == (state.queue != [] || state.pushList != [] || state.taskList > 0)
      ensures old(state).ioPop != [] && old(state).timerPop != [] ==> !threw
    {
      hide Apply, Enabled, Quiet, Invariant;
      start, steps := state, [];
      PushQueues();
      if !state.pc.Broken? {
        AddsDoneIs(state, numIterations);
        Step(AddsDone(numIterations));
        while state.pc.Looping? && state.pc.turns > 0 && state.queue != []
          invariant Valid() && start == old(state) && (state.pc.Broken? || state.pc.Looping?)
          decreases if state.pc.Looping? then state.pc.turns else 0
        {
          IterateOnce();
        }
        if !state.pc.Broken? {
          TurnsDoneIs(state);
          Step(TurnsDone);
          WorkersStay(start, steps);
          PopTasks();
        }
      }
      RunKeeps(start, steps);
      if old(state).ioPop != [] && old(state).timerPop != [] {
        NotBroken(start);
        NeverBroken(start, steps);
      }
      threw := state.pc.Broken?;
      active := state.queue != [] || state.pushList != [] || state.taskList > 0;
    }
  }

  lemma {:induction false} QuietAtFirst(n: nat)
    ensures Quiet(Repeat(WaitList({}, Nothing), n))
    decreases n
  {
    if n > 0 {
      QuietAtFirst(n - 1);
    }
  }

  lemma NotBroken(s: State)
    requires s.pc.Idle?
    ensures !s.pc.Broken?
  {
  }

  lemma ConsumeIs(s: State)
    requires s.pc.Idle?
    ensures Enabled(s, Consume) && Apply(s, Consume).pc.Adding? && Apply(s, Consume).lists == s.lists
  {
  }

  /** After a handle was dispatched the processor goes on, has an insertion to finish, or has thrown. */
  predicate GoesOn(t: State, pc: Pc) {
    t.pc == pc || t.pc.Broken? || (t.pc.Inserting? && t.pc.back == pc && t.pc.list < |t.lists|)
  }

  lemma AddIs(s: State, outcome: Outcome)
    requires s.pc.Adding? && s.tmp != [] && OutcomeFits(s, outcome)
    ensures Enabled(s, Add(outcome)) && Apply(s, Add(outcome)).lists == s.lists
    ensures GoesOn(Apply(s, Add(outcome)), Adding) && |Apply(s, Add(outcome)).tmp| < |s.tmp|
  {
  }

  lemma TurnIs(s: State, outcome: Outcome)
    requires s.pc.Looping? && s.pc.turns > 0 && s.queue != [] && OutcomeFits(s, outcome)
    ensures Enabled(s, Turn(outcome)) && Apply(s, Turn(outcome)).lists == s.lists
    ensures GoesOn(Apply(s, Turn(outcome)), Looping(s.pc.turns - 1))
  {
  }

  lemma FinishIs(s: State)
    requires s.pc.Looping? && s.pc.turns > 0 && s.queue != []
    ensures Enabled(s, Finish) && Apply(s, Finish).lists == s.lists
    ensures Apply(s, Finish).pc == Deleting(Looping(s.pc.turns - 1))
  {
  }

  lemma DecrementIs(s: State)
    requires s.pc.Deleting?
    ensures Enabled(s, Decrement) && Apply(s, Decrement).lists == s.lists && Apply(s, Decrement).pc == s.pc.back
  {
  }

  lemma AddsDoneIs(s: State, turns: nat)
    requires s.pc.Adding? && s.tmp == []
    ensures Enabled(s, AddsDone(turns)) && Apply(s, AddsDone(turns)) == s.(pc := Looping(turns))
  {
  }

  lemma TurnsDoneIs(s: State)
    requires s.pc.Looping? && (s.pc.turns == 0 || s.queue == [])
    ensures Enabled(s, TurnsDone) && Apply(s, TurnsDone) == s.(pc := Popping(0, 0))
  {
  }

  lemma PopIoIs(s: State)
    requires s.pc.Popping? && s.pc.io < |s.ioPop| == |s.ioWork|
    ensures var t := Apply(s, PopIo);
            && Enabled(s, PopIo) && t.lists == s.lists && t.pc == Popping(s.pc.io + 1, s.pc.timer)
            && t.ioPop == s.ioPop[s.pc.io := []] && t.timerPop == s.timerPop
            && |t.ioWork| == |s.ioWork| && t.timerWork == s.timerWork
  {
  }

  lemma PopTimerIs(s: State)
    requires s.pc.Popping? && s.pc.timer < |s.timerPop| == |s.timerWork|
    ensures var t := Apply(s, PopTimer);
            && Enabled(s, PopTimer) && t.lists == s.lists && t.pc == Popping(s.pc.io, s.pc.timer + 1)
            && t.timerPop == s.timerPop[s.pc.timer := []] && t.ioPop == s.ioPop
            && |t.timerWork| == |s.timerWork| && t.ioWork == s.ioWork
  {
  }

  lemma PopsDoneIs(s: State)
    requires s.pc.Popping? && s.pc.io >= |s.ioPop| && s.pc.timer >= |s.timerPop|
    ensures Enabled(s, PopsDone) && Apply(s, PopsDone) == s.(pc := Idle)
  {
  }

  lemma InsertKeepsQuiet(s: State)
    requires s.pc.Inserting? && s.pc.list < |s.lists| && Quiet(s.lists)
    ensures Enabled(s, Insert) && Quiet(Apply(s, Insert).lists)
  {
  }

  lemma InsertIs(s: State)
    requires s.pc.Inserting? && s.pc.list < |s.lists| && Enabled(s, Insert)
    ensures Apply(s, Insert).pc == s.pc.back && Apply(s, Insert).tmp == s.tmp
  {
  }

  lemma StepKeepsSizes(s: State, e: Event)
    requires Enabled(s, e)
    ensures var t := Apply(s, e);
            |t.ioPop| == |s.ioPop| && |t.timerPop| == |s.timerPop| && |t.ioWork| == |s.ioWork|
              && |t.timerWork| == |s.timerWork|
  {
    hide Fresh, FreshSet;
  }

  lemma {:induction false} WorkersStay(s: State, events: seq<Event>)
    requires IsRun(s, events)
    ensures var t := End(s, events);
            |t.ioPop| == |s.ioPop| && |t.timerPop| == |s.timerPop| && |t.ioWork| == |s.ioWork|
              && |t.timerWork| == |s.timerWork|
    decreases |events|
  {
    hide Apply, Enabled;
    if events != [] {
      StepKeepsSizes(s, events[0]);
      WorkersStay(Apply(s, events[0]), events[1..]);
    }
  }
}
