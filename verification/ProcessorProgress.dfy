/** Every live handle can come back to the run queue, wherever it is: with an I/O worker or a timer worker, on its way
    there, asleep in a wait list, or in the hands of a notifier. */
module ProcessorProgress {
  import opened ProcessorProtocol
  import ProcessorLoop

  /** A state that a processor with a worker of each kind can be in. */
  ghost predicate Good(s: State) {
    && Invariant(s) && !s.pc.Broken? && s.ioPop != [] && s.timerPop != []
    && |s.ioPop| == |s.ioWork| && |s.timerPop| == |s.timerWork|
  }

  lemma GoodStep(s: State, e: Event)
    requires Good(s) && Enabled(s, e)
    ensures Good(Apply(s, e))
  {
    hide Apply, Enabled, Invariant;
    StepKeeps(s, e);
    StepKeepsWorkers(s, e);
    ProcessorLoop.StepKeepsSizes(s, e);
  }

  // ----- How far a handle is from the run queue -----

  predicate Held(qs: seq<seq<nat>>, from: nat, h: nat) {
    exists i :: from <= i < |qs| && h in qs[i]
  }

  predicate Waking(lists: seq<WaitList>, w: Waking) {
    exists l :: 0 <= l < |lists| && lists[l].waking == w
  }

  predicate OnList(lists: seq<WaitList>, h: nat) {
    exists l :: 0 <= l < |lists| && h in lists[l].members
  }

  /** The places a handle passes on its way, the run queue first. */
  predicate InStage(s: State, h: nat, k: nat) {
    match k
    case 0 => h in s.queue
    case 1 => h in s.tmp
    case 2 => h in s.pushList
    case 3 => Held(s.ioWork, 0, h) || Held(s.timerWork, 0, h)
    case 4 => Held(s.ioPop, 0, h) || Held(s.timerPop, 0, h)
    case 5 => Waking(s.lists, Unslept(h))
    case 6 => Waking(s.lists, Erased(h))
    case 7 => OnList(s.lists, h)
    case 8 => s.pc.Inserting? && s.pc.h == h
    case _ => false
  }

  function StageFrom(s: State, h: nat, k: nat): (n: nat)
    requires k <= 9
    ensures k <= n <= 9 && (n < 9 ==> InStage(s, h, n))
    ensures forall j :: k <= j < n ==> !InStage(s, h, j)
    decreases 9 - k
  {
    if k == 9 || InStage(s, h, k) then k else StageFrom(s, h, k + 1)
  }

  function Stage(s: State, h: nat): nat {
    StageFrom(s, h, 0)
  }

  lemma StageAtMost(s: State, h: nat, k: nat)
    requires k < 9 && InStage(s, h, k)
    ensures Stage(s, h) <= k
  {
  }

  lemma {:induction false} HeldSomewhere(qs: seq<seq<nat>>, h: nat)
    requires InAll(qs, h) > 0
    ensures Held(qs, 0, h)
    decreases |qs|
  {
    if h in qs[0] {
    } else {
      HeldSomewhere(qs[1..], h);
      var i :| 0 <= i < |qs[1..]| && h in qs[1..][i];
      assert h in qs[i + 1];
    }
  }

  lemma {:induction false} ListedSomewhere(lists: seq<WaitList>, h: nat)
    ensures Listed(lists, h) > 0 ==> OnList(lists, h) || Waking(lists, Erased(h))
    ensures InHand(lists, h) > 0 ==> Waking(lists, Unslept(h))
    decreases |lists|
  {
    if lists != [] {
      var rest := lists[1..];
      ListedSomewhere(rest, h);
      if OnList(rest, h) {
        var l :| 0 <= l < |rest| && h in rest[l].members;
        assert h in lists[l + 1].members;
      }
      if Waking(rest, Erased(h)) {
        var l :| 0 <= l < |rest| && rest[l].waking == Erased(h);
        assert lists[l + 1].waking == Erased(h);
      }
      if Waking(rest, Unslept(h)) {
        var l :| 0 <= l < |rest| && rest[l].waking == Unslept(h);
        assert lists[l + 1].waking == Unslept(h);
      }
    }
  }

  /** A live handle is somewhere. */
  lemma HasStage(s: State, h: nat)
    requires Good(s) && h in s.live
    ensures Stage(s, h) < 9 && InStage(s, h, Stage(s, h))
  {
    hide InAll, Listed, InHand, Held, Waking, OnList;
    assert Places(s, h) == 1 && Waits(s, h) == One(h in s.sleepSet);
    ListedSomewhere(s.lists, h);
    if InAll(s.ioWork, h) > 0 { HeldSomewhere(s.ioWork, h); }
    if InAll(s.timerWork, h) > 0 { HeldSomewhere(s.timerWork, h); }
    if InAll(s.ioPop, h) > 0 { HeldSomewhere(s.ioPop, h); }
    if InAll(s.timerPop, h) > 0 { HeldSomewhere(s.timerPop, h); }
    if k: nat :| k < 9 && InStage(s, h, k) {
      StageAtMost(s, h, k);
    }
  }

  // ----- No step takes a handle further away -----

  /** Steps that finish nothing and put nobody to sleep. */
  predicate Helps(e: Event) {
    !e.Finish? && !e.Count? && !e.Append? && (e.Add? || e.Turn? ==> e.outcome.GoOn?)
  }

  lemma InConcatenation(a: seq<nat>, b: seq<nat>, h: nat)
    ensures h in a + b <==> h in a || h in b
  {
  }

  lemma InRest(q: seq<nat>, h: nat)
    requires q != []
    ensures h in q <==> h == q[0] || h in q[1..]
  {
    assert q == [q[0]] + q[1..];
  }

  lemma InRemaining(q: seq<nat>, k: nat, h: nat)
    requires k < |q|
    ensures h in q <==> h == q[k] || h in Without(q, k)
  {
    assert q == q[..k] + ([q[k]] + q[k + 1..]);
  }

  lemma HeldUpdate(qs: seq<seq<nat>>, i: nat, q: seq<nat>, from: nat, h: nat)
    requires i < |qs|
    ensures Held(qs, from, h) && (h in qs[i] ==> h in q) ==> Held(qs[i := q], from, h)
    ensures Held(qs, from, h) && !Held(qs[i := q], from, h) ==> h in qs[i]
  {
    if Held(qs, from, h) {
      var j :| from <= j < |qs| && h in qs[j];
      assert qs[i := q][j] == if j == i then q else qs[j];
    }
  }

  lemma HeldAt(qs: seq<seq<nat>>, i: nat, h: nat)
    requires i < |qs| && h in qs[i]
    ensures Held(qs, 0, h)
  {
  }

  /** The queues on the way: the worker's queues, the push list, tmpList, the run queue. */
  lemma QueuesHelp(s: State, e: Event, h: nat, k: nat)
    requires Enabled(s, e) && Helps(e) && IsQueueStep(e) && k <= 4 && InStage(s, h, k)
    ensures exists j: nat :: j <= k && InStage(Apply(s, e), h, j)
  {
    hide Held, Fresh, FreshSet;
    var t := Apply(s, e);
    if e.Consume? {
      InConcatenation(s.queue, Fresh(s.next, s.taskList), h);
      InConcatenation(s.tmp, s.pushList, h);
      assert InStage(t, h, if k == 2 then 1 else k);
    } else if e.Add? {
      InRest(s.tmp, h);
      InConcatenation(s.queue, [s.tmp[0]], h);
      assert InStage(t, h, if k == 1 && h == s.tmp[0] then 0 else k);
    } else {
      InRest(s.queue, h);
      InConcatenation(s.queue[1..], [s.queue[0]], h);
      assert InStage(t, h, k);
    }
  }

  lemma PopHelps(s: State, e: Event, h: nat, k: nat)
    requires Enabled(s, e) && (e.PopIo? || e.PopTimer?) && k <= 4 && InStage(s, h, k)
    ensures exists j: nat :: j <= k && InStage(Apply(s, e), h, j)
  {
    hide Held;
    var t := Apply(s, e);
    var i := if e.PopIo? then s.pc.io else s.pc.timer;
    var pop, work := if e.PopIo? then s.ioPop else s.timerPop, if e.PopIo? then s.ioWork else s.timerWork;
    InConcatenation(work[i], pop[i], h);
    HeldUpdate(work, i, work[i] + pop[i], 0, h);
    HeldUpdate(pop, i, [], 0, h);
    var moved := k == 4 && h in pop[i];
    if moved {
      HeldAt(work[i := work[i] + pop[i]], i, h);
    }
    assert InStage(t, h, if moved then 3 else k);
  }

  lemma ReturnHelps(s: State, e: Event, h: nat, k: nat)
    requires Enabled(s, e) && (e.ReturnIo? || e.ReturnTimer?) && k <= 4 && InStage(s, h, k)
    ensures exists j: nat :: j <= k && InStage(Apply(s, e), h, j)
  {
    hide Held, Without;
    var t := Apply(s, e);
    var work := if e.ReturnIo? then s.ioWork else s.timerWork;
    InRemaining(work[e.worker], e.k, h);
    HeldUpdate(work, e.worker, Without(work[e.worker], e.k), 0, h);
    InConcatenation(s.pushList, [work[e.worker][e.k]], h);
    assert InStage(t, h, if k == 3 && h == work[e.worker][e.k] then 2 else k);
  }

  lemma OthersHelp(s: State, e: Event, h: nat, k: nat)
    requires Enabled(s, e) && Helps(e) && !IsQueueStep(e) && !IsWorkerStep(e) && k <= 4 && InStage(s, h, k)
    ensures exists j: nat :: j <= k && InStage(Apply(s, e), h, j)
  {
    hide Held;
    assert InStage(Apply(s, e), h, k);
  }

  /** The same for the wait lists and the hands of notifiers. */
  lemma ListsHelp(s: State, e: Event, h: nat, k: nat)
    requires Good(s) && Enabled(s, e) && Helps(e) && 5 <= k < 9 && InStage(s, h, k)
    ensures exists j: nat :: j <= k && InStage(Apply(s, e), h, j)
  {
    hide Held, Invariant, Fresh, FreshSet;
    var t := Apply(s, e);
    if k == 8 {
      if e.Insert? {
        assert h in t.lists[s.pc.list].members;
        assert InStage(t, h, 7);
      } else {
        assert InStage(t, h, 8);
      }
    } else {
      var l: nat :| l < |s.lists| && (match k
                                      case 5 => s.lists[l].waking == Unslept(h)
                                      case 6 => s.lists[l].waking == Erased(h)
                                      case _ => h in s.lists[l].members);
      ListStays(s, e, l);
      if e.WakePush? && e.list == l && k == 5 {
        assert h in t.pushList;
        assert InStage(t, h, 2);
      } else if e.WakeSleep? && e.list == l && k == 6 {
        assert t.lists[l].waking == Unslept(h);
        assert InStage(t, h, 5);
      } else if e.WakeErase? && e.list == l && k == 7 && e.h == h {
        assert t.lists[l].waking == Erased(h);
        assert InStage(t, h, 6);
      } else {
        assert t.lists[l].waking == s.lists[l].waking || k == 7;
        assert InStage(t, h, k);
      }
    }
  }

  /** What a step leaves of a wait list that it does not change in the way that counts. */
  lemma ListStays(s: State, e: Event, l: nat)
    requires Enabled(s, e) && l < |s.lists|
    ensures |Apply(s, e).lists| == |s.lists|
    ensures e.WakeErase? && e.list == l ==>
              s.lists[l].waking.Nothing? && Apply(s, e).lists[l] == WaitList(s.lists[l].members - {e.h}, Erased(e.h))
    ensures e.WakeSleep? && e.list == l ==>
              Apply(s, e).lists[l] == WaitList(s.lists[l].members, Unslept(s.lists[l].waking.h))
    ensures e.WakePush? && e.list == l ==> Apply(s, e).lists[l] == WaitList(s.lists[l].members, Nothing)
    ensures !(e.WakeErase? || e.WakeSleep? || e.WakePush?) || e.list != l ==>
              Apply(s, e).lists[l].waking == s.lists[l].waking && s.lists[l].members <= Apply(s, e).lists[l].members
  {
    hide Fresh, FreshSet;
  }

  lemma NotFurther(s: State, e: Event, h: nat)
    requires Good(s) && Enabled(s, e) && Helps(e) && h in s.live
    ensures Good(Apply(s, e)) && h in Apply(s, e).live && Stage(Apply(s, e), h) <= Stage(s, h) < 9
  {
    hide Apply, Enabled, Good, InStage, Stage;
    HasStage(s, h);
    GoodStep(s, e);
    StaysLive(s, e, h);
    var k := Stage(s, h);
    if k >= 5 {
      ListsHelp(s, e, h, k);
    } else if IsQueueStep(e) {
      QueuesHelp(s, e, h, k);
    } else if IsWorkerStep(e) {
      if e.PopIo? || e.PopTimer? {
        PopHelps(s, e, h, k);
      } else {
        ReturnHelps(s, e, h, k);
      }
    } else {
      OthersHelp(s, e, h, k);
    }
    var j: nat :| j <= k && InStage(Apply(s, e), h, j);
    StageAtMost(Apply(s, e), h, j);
  }

  lemma StaysLive(s: State, e: Event, h: nat)
    requires Enabled(s, e) && Helps(e) && h in s.live
    ensures h in Apply(s, e).live
  {
    hide Fresh, FreshSet;
  }

  // ----- Some step takes it nearer -----

  function BaseOf(pc: Pc): Pc {
    if pc.Inserting? || pc.Deleting? then pc.back else pc
  }

  /** A queue with the handle is still to be handed over in this call of popTasks. */
  predicate Ahead(s: State, h: nat) {
    BaseOf(s.pc).Popping? && (Held(s.ioPop, BaseOf(s.pc).io, h) || Held(s.timerPop, BaseOf(s.pc).timer, h))
  }

  /** How many phases of `iterate` are to be completed before the one that moves the handle. */
  function Rank(s: State, h: nat): nat {
    var base := BaseOf(s.pc);
    match Stage(s, h)
    case 1 => if base.Adding? then 0 else if base.Idle? then 1 else if base.Popping? then 2 else 3
    case 2 => if base.Idle? then 0 else if base.Popping? then 1 else if base.Looping? then 2 else 3
    case 4 =>
      if Ahead(s, h) then 0 else if base.Looping? then 1 else if base.Adding? then 2 else if base.Idle? then 3 else 4
    case _ => 0
  }

  function Minus(a: nat, b: nat): nat {
    if a < b then 0 else a - b
  }

  /** What is left of the phase. */
  function Inner(s: State): nat {
    match BaseOf(s.pc)
    case Adding => |s.tmp|
    case Looping(turns) => turns
    case Popping(io, timer) => Minus(|s.ioPop|, io) + Minus(|s.timerPop|, timer)
    case _ => 0
  }

  /** What the notifiers have to do. */
  function Busy(lists: seq<WaitList>): nat {
    if lists == [] then 0
    else (match lists[0].waking case Nothing => 0 case Erased(_) => 2 case Unslept(_) => 1) + Busy(lists[1..])
  }

  function Depth(s: State): nat {
    Busy(s.lists) + One(s.pc.Inserting? || s.pc.Deleting?)
  }

  lemma {:induction false} BusyUpdate(lists: seq<WaitList>, l: nat, w: WaitList)
    requires l < |lists|
    ensures w.waking == lists[l].waking ==> Busy(lists[l := w]) == Busy(lists)
    ensures (lists[l].waking.Erased? && w.waking.Unslept?) || (lists[l].waking.Unslept? && w.waking.Nothing?) ==>
              Busy(lists[l := w]) < Busy(lists)
    decreases |lists|
  {
    var t := lists[l := w];
    if l == 0 {
      assert t[1..] == lists[1..];
    } else {
      assert t[1..] == lists[1..][l - 1 := w];
      BusyUpdate(lists[1..], l - 1, w);
    }
  }

  /** The handle is nearer to the run queue. */
  predicate Nearer(t: State, s: State, h: nat) {
    || Stage(t, h) < Stage(s, h)
    || (Stage(t, h) == Stage(s, h) && Rank(t, h) < Rank(s, h))
    || (Stage(t, h) == Stage(s, h) && Rank(t, h) == Rank(s, h) && Inner(t) < Inner(s))
    || (Stage(t, h) == Stage(s, h) && Rank(t, h) == Rank(s, h) && Inner(t) == Inner(s) && Depth(t) < Depth(s))
  }

  /** The next step of the notifier that has a list. */
  function Advance(s: State, l: nat): Event
    requires l < |s.lists| && !s.lists[l].waking.Nothing?
  {
    if s.lists[l].waking.Erased? then WakeSleep(l) else WakePush(l)
  }

  /** The next step of the processor's thread, or of the notifier it waits for. */
  function Drive(s: State): Event
    requires Good(s)
  {
    match s.pc
    case Inserting(_, l, _) => if s.lists[l].waking.Nothing? then Insert else Advance(s, l)
    case Deleting(_) => Decrement
    case Adding => if s.tmp == [] then AddsDone(0) else Add(GoOn)
    case Looping(turns) => if turns == 0 || s.queue == [] then TurnsDone else Turn(GoOn)
    case Popping(io, timer) => if io < |s.ioPop| then PopIo else if timer < |s.timerPop| then PopTimer else PopsDone
    case _ => Consume
  }

  lemma DriveFits(s: State)
    requires Good(s)
    ensures Enabled(s, Drive(s)) && Helps(Drive(s))
  {
    hide Conserved;
  }

  lemma AdvanceNearer(s: State, h: nat, l: nat)
    requires Good(s) && h in s.live && l < |s.lists| && !s.lists[l].waking.Nothing?
    requires Stage(Apply(s, Advance(s, l)), h) == Stage(s, h)
    ensures Enabled(s, Advance(s, l)) && Nearer(Apply(s, Advance(s, l)), s, h)
  {
    hide Good, Stage, Busy, Held;
    var t := Apply(s, Advance(s, l));
    BusyUpdate(s.lists, l, t.lists[l]);
  }

  /** The end of an insertion, or of a deletion. */
  lemma BackNearer(s: State, h: nat)
    requires Good(s) && h in s.live && (s.pc.Deleting? || (s.pc.Inserting? && s.lists[s.pc.list].waking.Nothing?))
    requires Stage(Apply(s, Drive(s)), h) == Stage(s, h)
    ensures Nearer(Apply(s, Drive(s)), s, h)
  {
    hide Stage, Busy, Held, Conserved;
    var t := Apply(s, Drive(s));
    if s.pc.Inserting? {
      BusyUpdate(s.lists, s.pc.list, t.lists[s.pc.list]);
    }
  }

  /** A turn of one of the loops over tmpList and the run queue. */
  lemma LoopNearer(s: State, h: nat)
    requires Good(s) && h in s.live
    requires (s.pc.Adding? && s.tmp != []) || (s.pc.Looping? && s.pc.turns > 0 && s.queue != [])
    requires Stage(Apply(s, Drive(s)), h) == Stage(s, h)
    ensures Nearer(Apply(s, Drive(s)), s, h)
  {
    hide Stage, Busy, Held, Conserved;
  }

  lemma HeldFrom(qs: seq<seq<nat>>, i: nat, h: nat)
    requires i < |qs| && Held(qs, i, h) && h !in qs[i]
    ensures Held(qs[i := []], i + 1, h)
  {
    var j :| i <= j < |qs| && h in qs[j];
    assert h in qs[i := []][j];
  }

  lemma PopNearer(s: State, h: nat)
    requires Good(s) && h in s.live && s.pc.Popping? && (s.pc.io < |s.ioPop| || s.pc.timer < |s.timerPop|)
    requires Stage(Apply(s, Drive(s)), h) == Stage(s, h)
    ensures Nearer(Apply(s, Drive(s)), s, h)
  {
    hide Conserved, Busy, Stage, Held;
    var t := Apply(s, Drive(s));
    if Stage(s, h) == 4 && Ahead(s, h) {
      StillAhead(s, h);
    }
  }

  /** The queue with the handle is handed over, or it is one of the next. */
  lemma StillAhead(s: State, h: nat)
    requires Good(s) && s.pc.Popping? && (s.pc.io < |s.ioPop| || s.pc.timer < |s.timerPop|)
    requires Ahead(s, h) && Stage(Apply(s, Drive(s)), h) == 4
    ensures Ahead(Apply(s, Drive(s)), h)
  {
    hide Invariant, Stage, Held;
    var t := Apply(s, Drive(s));
    var io := s.pc.io < |s.ioPop|;
    var i := if io then s.pc.io else s.pc.timer;
    var pop, work := if io then s.ioPop else s.timerPop, if io then s.ioWork else s.timerWork;
    NoneHeld(s.ioPop, h);
    if h in pop[i] {
      InConcatenation(work[i], pop[i], h);
      HeldAt(work[i := work[i] + pop[i]], i, h);
      StageAtMost(t, h, 3);
    } else if Held(pop, i, h) {
      HeldFrom(pop, i, h);
    }
  }

  lemma NoneHeld(qs: seq<seq<nat>>, h: nat)
    ensures forall i: nat :: i >= |qs| ==> !Held(qs, i, h)
  {
  }

  /** The processor goes on to the next phase. */
  lemma PhaseNearer(s: State, h: nat)
    requires Good(s) && h in s.live && Stage(s, h) in {1, 2, 4}
    requires s.pc.Idle? || (s.pc.Adding? && s.tmp == []) || (s.pc.Looping? && (s.pc.turns == 0 || s.queue == []))
             || (s.pc.Popping? && s.pc.io >= |s.ioPop| && s.pc.timer >= |s.timerPop|)
    requires Stage(Apply(s, Drive(s)), h) == Stage(s, h)
    ensures Nearer(Apply(s, Drive(s)), s, h)
  {
    hide Conserved, Busy, Stage;
    var t := Apply(s, Drive(s));
    HasStage(s, h);
    if s.pc.Idle? && Stage(s, h) == 2 {
      InConcatenation(s.tmp, s.pushList, h);
      StageAtMost(t, h, 1);
    }
  }

  /** A worker gives the handle back. */
  lemma WorkerGives(s: State, h: nat) returns (e: Event)
    requires Good(s) && InStage(s, h, 3)
    ensures Enabled(s, e) && Helps(e) && InStage(Apply(s, e), h, 2)
  {
    hide Invariant, Without;
    if Held(s.ioWork, 0, h) {
      var w: nat :| w < |s.ioWork| && h in s.ioWork[w];
      var k: nat :| k < |s.ioWork[w]| && s.ioWork[w][k] == h;
      e := ReturnIo(w, k);
    } else {
      var w: nat :| w < |s.timerWork| && h in s.timerWork[w];
      var k: nat :| k < |s.timerWork[w]| && s.timerWork[w][k] == h;
      e := ReturnTimer(w, k);
    }
  }

  /** A notifier that has the handle in hand goes on. */
  lemma NotifierGives(s: State, h: nat) returns (e: Event)
    requires Good(s) && (InStage(s, h, 5) || InStage(s, h, 6))
    ensures Enabled(s, e) && Helps(e) && InStage(Apply(s, e), h, if InStage(s, h, 5) then 2 else 5)
  {
    hide Invariant;
    if InStage(s, h, 5) {
      var l: nat :| l < |s.lists| && s.lists[l].waking == Unslept(h);
      e := WakePush(l);
    } else {
      var l: nat :| l < |s.lists| && s.lists[l].waking == Erased(h);
      e := WakeSleep(l);
      assert Apply(s, e).lists[l].waking == Unslept(h);
    }
  }

  /** The handle is erased from its list, or the notifier of the list goes on. */
  lemma ListGives(s: State, h: nat) returns (e: Event, l: nat)
    requires Good(s) && InStage(s, h, 7)
    ensures l < |s.lists| && Enabled(s, e) && Helps(e)
    ensures if s.lists[l].waking.Nothing? then InStage(Apply(s, e), h, 6) else e == Advance(s, l)
  {
    hide Invariant;
    l :| l < |s.lists| && h in s.lists[l].members;
    if s.lists[l].waking.Nothing? {
      e := WakeErase(l, h);
      assert Apply(s, e).lists[l].waking == Erased(h);
    } else {
      e := Advance(s, l);
    }
  }

  lemma DriveNearer(s: State, h: nat)
    requires Good(s) && h in s.live && Stage(s, h) in {1, 2, 4, 8}
    ensures Enabled(s, Drive(s)) && Helps(Drive(s)) && Nearer(Apply(s, Drive(s)), s, h)
  {
    hide Apply, Enabled, Stage, Rank, Inner, Depth;
    DriveFits(s);
    NotFurther(s, Drive(s), h);
    if Stage(Apply(s, Drive(s)), h) == Stage(s, h) {
      InsertingIs8(s, h);
      if s.pc.Inserting? && !s.lists[s.pc.list].waking.Nothing? {
        AdvanceNearer(s, h, s.pc.list);
      } else if s.pc.Inserting? || s.pc.Deleting? {
        BackNearer(s, h);
      } else if (s.pc.Adding? && s.tmp != []) || (s.pc.Looping? && s.pc.turns > 0 && s.queue != []) {
        LoopNearer(s, h);
      } else if s.pc.Popping? && (s.pc.io < |s.ioPop| || s.pc.timer < |s.timerPop|) {
        PopNearer(s, h);
      } else {
        PhaseNearer(s, h);
      }
    }
  }

  lemma InsertingIs8(s: State, h: nat)
    requires Good(s) && h in s.live
    ensures Stage(s, h) == 8 ==> s.pc.Inserting?
    ensures s.pc.Inserting? ==> s.pc.list < |s.lists|
  {
    hide Conserved, Stage;
    HasStage(s, h);
  }

  lemma NextStep(s: State, h: nat) returns (e: Event)
    requires Good(s) && h in s.live && Stage(s, h) != 0
    ensures Enabled(s, e) && Helps(e) && Nearer(Apply(s, e), s, h)
  {
    hide Apply, Enabled, Stage, Good, InStage, Rank, Inner, Depth;
    HasStage(s, h);
    var k := Stage(s, h);
    if k == 3 {
      e := WorkerGives(s, h);
      StageAtMost(Apply(s, e), h, 2);
    } else if k == 5 || k == 6 {
      e := NotifierGives(s, h);
      StageAtMost(Apply(s, e), h, if InStage(s, h, 5) then 2 else 5);
    } else if k == 7 {
      var l;
      e, l := ListGives(s, h);
      if s.lists[l].waking.Nothing? {
        StageAtMost(Apply(s, e), h, 6);
      } else {
        NotFurther(s, e, h);
        if Stage(Apply(s, e), h) == k {
          AdvanceNearer(s, h, l);
        }
      }
    } else {
      DriveNearer(s, h);
      e := Drive(s);
    }
  }

  /** Some run of the processor, its workers and the notifiers brings the handle to the run queue. */
  lemma {:induction false} BackToQueue(s: State, h: nat) returns (events: seq<Event>)
    requires Good(s) && h in s.live
    ensures IsRun(s, events) && h in End(s, events).queue
    decreases Stage(s, h), Rank(s, h), Inner(s), Depth(s)
  {
    hide Apply, Enabled, Good, Stage, Rank, Inner, Depth;
    if Stage(s, h) == 0 {
      QueueIsStage0(s, h);
      events := [];
    } else {
      var e := NextStep(s, h);
      NotFurther(s, e, h);
      var more := BackToQueue(Apply(s, e), h);
      events := [e] + more;
      assert events[1..] == more;
    }
  }

  lemma QueueIsStage0(s: State, h: nat)
    requires Stage(s, h) == 0
    ensures h in s.queue
  {
  }

  /** At the end of the run the handle is in the run queue. */
  ghost predicate Queued(s: State, events: seq<Event>, h: nat)
    requires IsRun(s, events)
  {
    h in End(s, events).queue
  }

  /** From every state that a processor with a worker of each kind reaches, for every handle that is not deleted: some
      continuation brings it to the run queue. */
  lemma EveryoneCanRun(ioWorkers: nat, timerWorkers: nat, lists: nat, events: seq<Event>, h: nat)
    requires ioWorkers > 0 && timerWorkers > 0 && IsRun(Init(ioWorkers, timerWorkers, lists), events)
    requires h in End(Init(ioWorkers, timerWorkers, lists), events).live
    ensures var s := End(Init(ioWorkers, timerWorkers, lists), events);
            exists more :: IsRun(s, more) && Queued(s, more, h)
  {
    hide Apply, Enabled, Invariant, IsRun, Init;
    var s := Init(ioWorkers, timerWorkers, lists);
    InitHolds(ioWorkers, timerWorkers, lists);
    InitWorkers(ioWorkers, timerWorkers, lists);
    RunKeeps(s, events);
    NeverBroken(s, events);
    ProcessorLoop.WorkersStay(s, events);
    var more := BackToQueue(End(s, events), h);
    assert Queued(End(s, events), more, h);
  }

  lemma InitWorkers(ioWorkers: nat, timerWorkers: nat, lists: nat)
    ensures var s := Init(ioWorkers, timerWorkers, lists);
            && |s.ioPop| == |s.ioWork| == ioWorkers && |s.timerPop| == |s.timerWork| == timerWorkers && !s.pc.Broken?
  {
  }

  // ----- Every submission starts -----

  /** How many phases are left before the processor is idle. */
  function ToIdle(s: State): nat {
    var base := BaseOf(s.pc);
    if base.Idle? then 0 else if base.Popping? then 1 else if base.Looping? then 2 else 3
  }

  lemma DriveToIdle(s: State)
    requires Good(s) && !s.pc.Idle?
    ensures Enabled(s, Drive(s))
    ensures var t := Apply(s, Drive(s));
            && t.submitting == s.submitting && t.taskList == s.taskList
            && (ToIdle(t) < ToIdle(s)
                || (ToIdle(t) == ToIdle(s) && Inner(t) < Inner(s))
                || (ToIdle(t) == ToIdle(s) && Inner(t) == Inner(s) && Depth(t) < Depth(s)))
  {
    hide Conserved, Busy;
    DriveFits(s);
    var t := Apply(s, Drive(s));
    if s.pc.Inserting? {
      BusyUpdate(s.lists, s.pc.list, t.lists[s.pc.list]);
    }
  }

  lemma {:induction false} BecomesIdle(s: State) returns (events: seq<Event>)
    requires Good(s)
    ensures IsRun(s, events) && Good(End(s, events)) && End(s, events).pc.Idle?
    ensures End(s, events).submitting == s.submitting && End(s, events).taskList == s.taskList
    decreases ToIdle(s), Inner(s), Depth(s)
  {
    hide Apply, Enabled, Good, ToIdle, Inner, Depth;
    if s.pc.Idle? {
      events := [];
    } else {
      DriveToIdle(s);
      GoodStep(s, Drive(s));
      var more := BecomesIdle(Apply(s, Drive(s)));
      events := [Drive(s)] + more;
      assert events[1..] == more;
    }
  }

  lemma {:induction false} AllAppended(s: State) returns (events: seq<Event>)
    requires Good(s)
    ensures IsRun(s, events) && Good(End(s, events))
    ensures End(s, events).submitting == 0 && End(s, events).taskList == s.taskList + s.submitting
    decreases s.submitting
  {
    hide Good;
    if s.submitting == 0 {
      events := [];
    } else {
      GoodStep(s, Append);
      var more := AllAppended(Apply(s, Append));
      events := [Append] + more;
      assert events[1..] == more;
    }
  }

  lemma {:induction false} RunOn(s: State, a: seq<Event>, b: seq<Event>)
    requires IsRun(s, a) && IsRun(End(s, a), b)
    ensures IsRun(s, a + b) && End(s, a + b) == End(End(s, a), b)
    decreases |a|
  {
    hide Apply, Enabled;
    if a == [] {
      assert a + b == b;
    } else {
      RunOn(Apply(s, a[0]), a[1..], b);
      assert (a + b)[1..] == a[1..] + b;
    }
  }

  /** From every state that a processor with a worker of each kind reaches, some continuation creates the coroutines of
      all tasks submitted so far, and they are in the run queue. */
  lemma EverySubmissionStarts(s: State) returns (events: seq<Event>)
    requires Good(s)
    ensures IsRun(s, events)
    ensures End(s, events).submitting == 0 && End(s, events).taskList == 0
    ensures var tasks := s.submitting + s.taskList; var t := End(s, events);
            tasks <= |t.queue| && tasks <= t.next
            && t.queue[|t.queue| - tasks..] == Fresh(t.next - tasks, tasks)
            && forall h :: t.next - tasks <= h < t.next ==> h in t.live
  {
    hide Apply, Enabled, Good, Fresh;
    var first := AllAppended(s);
    var second := BecomesIdle(End(s, first));
    RunOn(s, first, second);
    var t := End(End(s, first), second);
    Consumes(t);
    assert [Consume][1..] == [];
    assert IsRun(t, [Consume]) && End(t, [Consume]) == Apply(t, Consume);
    RunOn(s, first + second, [Consume]);
    events := first + second + [Consume];
  }

  lemma Consumes(s: State)
    requires s.pc.Idle?
    ensures Enabled(s, Consume)
    ensures var t := Apply(s, Consume);
            && t.submitting == s.submitting && t.taskList == 0 && t.next == s.next + s.taskList
            && s.taskList <= |t.queue| && t.queue[|t.queue| - s.taskList..] == Fresh(s.next, s.taskList)
            && forall h :: s.next <= h < t.next ==> h in t.live
  {
    hide FreshSet, Fresh;
    InFresh(s.next, s.taskList, 0);
    forall h: nat | s.next <= h < s.next + s.taskList
      ensures h in FreshSet(s.next, s.taskList)
    {
      FreshMember(s.next, s.taskList, h);
    }
  }
}
