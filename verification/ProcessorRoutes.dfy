/** Where the steps of a processor take the handles, and that every handle can come back to the run queue. */
module ProcessorRoutes {
  import opened ProcessorProtocol

  // ----- One step -----

  /** The places where handles stand in line. Gone is for deleted ones, Asleep for the sleep set, which has no order. */
  datatype Place =
    | RunQueue | Pushed | ToAdd
    | ForIo(worker: nat) | ForTimer(worker: nat) | WithIo(worker: nat) | WithTimer(worker: nat)
    | Woken(list: nat)
    | Asleep | Gone | Lost

  function At(s: State, p: Place): seq<nat> {
    match p
    case RunQueue => s.queue
    case Pushed => s.pushList
    case ToAdd => s.tmp
    case ForIo(w) => if w < |s.ioPop| then s.ioPop[w] else []
    case ForTimer(w) => if w < |s.timerPop| then s.timerPop[w] else []
    case WithIo(w) => if w < |s.ioWork| then s.ioWork[w] else []
    case WithTimer(w) => if w < |s.timerWork| then s.timerWork[w] else []
    case Woken(l) => if l < |s.lists| && s.lists[l].waking.Unslept? then [s.lists[l].waking.h] else []
    case Lost => s.lost
    case _ => []
  }

  /** Some handles in line, from one place to the end of another. */
  datatype Route = Route(from: Place, first: nat, count: nat, to: Place) | Nowhere

  /** What an action asks for: the run queue, the next worker of a kind, or the sleep set. */
  function Asked(s: State, outcome: Outcome): Place {
    match outcome
    case GoOn => RunQueue
    case IoWait => if s.ioPop == [] then Lost else ForIo(Bump(s.ioBalancer) % |s.ioPop|)
    case WaitRepeat => if s.timerPop == [] then Lost else ForTimer(Bump(s.timerBalancer) % |s.timerPop|)
    case Wait(_) => Asleep
  }

  /** From where to where a step takes handles: a worker and a notifier put theirs on the push list, the push list is
      taken over as a whole, the first handle in line goes where its action asks, and the queue for a worker goes to
      that worker as a whole. */
  function RouteOf(s: State, e: Event): Route
    requires Enabled(s, e)
  {
    match e
    case Consume => Route(Pushed, 0, |s.pushList|, ToAdd)
    case Add(outcome) => Route(ToAdd, 0, 1, Asked(s, outcome))
    case Turn(outcome) => Route(RunQueue, 0, 1, Asked(s, outcome))
    case Finish => Route(RunQueue, 0, 1, Gone)
    case PopIo => Route(ForIo(s.pc.io), 0, |s.ioPop[s.pc.io]|, WithIo(s.pc.io))
    case PopTimer => Route(ForTimer(s.pc.timer), 0, |s.timerPop[s.pc.timer]|, WithTimer(s.pc.timer))
    case ReturnIo(w, k) => Route(WithIo(w), k, 1, Pushed)
    case ReturnTimer(w, k) => Route(WithTimer(w), k, 1, Pushed)
    case WakeSleep(l) => Nowhere
    case WakePush(l) => Route(Woken(l), 0, 1, Pushed)
    case _ => Nowhere
  }

  predicate IsRoute(s: State, r: Route) {
    r.Route? ==> r.first + r.count <= |At(s, r.from)|
  }

  function Part(q: seq<nat>, first: nat, count: nat): seq<nat>
    requires first + count <= |q|
  {
    q[first..first + count]
  }

  function Rest(q: seq<nat>, first: nat, count: nat): seq<nat>
    requires first + count <= |q|
  {
    q[..first] + q[first + count..]
  }

  /** The line at p when the handles of the route were taken. */
  function LineAfter(s: State, r: Route, p: Place): seq<nat>
    requires IsRoute(s, r)
  {
    if r.Nowhere? || (p != r.from && p != r.to) then At(s, p)
    else if p != r.to then Rest(At(s, p), r.first, r.count)
    else if p != r.from then At(s, p) + Part(At(s, r.from), r.first, r.count)
    else Rest(At(s, p), r.first, r.count) + Part(At(s, p), r.first, r.count)
  }

  /** What the step does to the line at p. Consume adds the new handles to the run queue, and a notifier takes its
      handle out of the sleep set. */
  ghost predicate Routed(s: State, e: Event, p: Place)
    requires Enabled(s, e)
  {
    && IsRoute(s, RouteOf(s, e))
    && At(Apply(s, e), p)
       == if e.Consume? && p.RunQueue? then s.queue + Fresh(s.next, s.taskList)
          else if e.WakeSleep? && p == Woken(e.list) then [s.lists[e.list].waking.h]
          else LineAfter(s, RouteOf(s, e), p)
  }

  lemma Slices(q: seq<nat>, k: nat)
    ensures Part(q, 0, |q|) == q && Rest(q, 0, |q|) == []
    ensures k < |q| ==> Part(q, k, 1) == [q[k]] && Rest(q, k, 1) == Without(q, k)
    ensures q != [] ==> Without(q, 0) == q[1..]
  {
  }

  lemma TakeoverRouted(s: State, e: Event, p: Place)
    requires Enabled(s, e) && (e.Consume? || e.Finish?) && !p.Asleep? && !p.Gone?
    ensures Routed(s, e, p)
  {
    hide Fresh, FreshSet, Part, Rest, Without;
    Slices(s.pushList, 0);
    Slices(s.queue, 0);
  }

  lemma DispatchAt(s: State, h: nat, outcome: Outcome, p: Place)
    requires !p.Asleep?
    ensures At(Dispatch(s, h, outcome), p) == if Asked(s, outcome) == p then At(s, p) + [h] else At(s, p)
  {
  }

  lemma AskedSame(s: State, t: State, outcome: Outcome)
    requires t.ioPop == s.ioPop && t.timerPop == s.timerPop
    requires t.ioBalancer == s.ioBalancer && t.timerBalancer == s.timerBalancer
    ensures Asked(s, outcome) == Asked(t, outcome)
  {
  }

  lemma AddRouted(s: State, e: Event, p: Place)
    requires Enabled(s, e) && e.Add? && !p.Asleep? && !p.Gone?
    ensures Routed(s, e, p)
  {
    hide Dispatch, Part, Rest, Asked, Without;
    var t := s.(tmp := s.tmp[1..]);
    Slices(s.tmp, 0);
    DispatchAt(t, s.tmp[0], e.outcome, p);
    AskedSame(s, t, e.outcome);
    assert At(t, p) == if p.ToAdd? then s.tmp[1..] else At(s, p);
  }

  lemma TurnRouted(s: State, e: Event, p: Place)
    requires Enabled(s, e) && e.Turn? && !p.Asleep? && !p.Gone?
    ensures Routed(s, e, p)
  {
    hide Dispatch, Part, Rest, Asked, Without;
    var t := s.(queue := s.queue[1..], pc := Looping(s.pc.turns - 1));
    Slices(s.queue, 0);
    DispatchAt(t, s.queue[0], e.outcome, p);
    AskedSame(s, t, e.outcome);
    assert At(t, p) == if p.RunQueue? then s.queue[1..] else At(s, p);
  }

  lemma PopIoRouted(s: State, e: Event, p: Place)
    requires Enabled(s, e) && e.PopIo? && !p.Asleep? && !p.Gone?
    ensures Routed(s, e, p)
  {
    hide Part, Rest, Without;
    Slices(s.ioPop[s.pc.io], 0);
  }

  lemma PopTimerRouted(s: State, e: Event, p: Place)
    requires Enabled(s, e) && e.PopTimer? && !p.Asleep? && !p.Gone?
    ensures Routed(s, e, p)
  {
    hide Part, Rest, Without;
    Slices(s.timerPop[s.pc.timer], 0);
  }

  lemma ReturnRouted(s: State, e: Event, p: Place)
    requires Enabled(s, e) && (e.ReturnIo? || e.ReturnTimer?) && !p.Asleep? && !p.Gone?
    ensures Routed(s, e, p)
  {
    hide Part, Rest, Without;
    Slices(At(s, RouteOf(s, e).from), e.k);
  }

  lemma OtherRouted(s: State, e: Event, p: Place)
    requires Enabled(s, e) && !IsQueueStep(e) && !IsWorkerStep(e) && !p.Asleep? && !p.Gone?
    ensures Routed(s, e, p)
  {
    hide Part, Rest, Without;
    if e.WakePush? {
      PushRouted(s, e, p);
    } else if e.WakeSleep? || e.WakeErase? || e.Insert? {
      ListRouted(s, e, p);
    }
  }

  lemma PushRouted(s: State, e: Event, p: Place)
    requires Enabled(s, e) && e.WakePush? && !p.Asleep? && !p.Gone?
    ensures Routed(s, e, p)
  {
    hide Part, Rest, Without;
    Slices([s.lists[e.list].waking.h], 0);
  }

  lemma ListRouted(s: State, e: Event, p: Place)
    requires Enabled(s, e) && (e.WakeSleep? || e.WakeErase? || e.Insert?) && !p.Asleep? && !p.Gone?
    ensures Routed(s, e, p)
  {
    hide Part, Rest, Without;
  }

  /** Every step takes just these handles, in their order, from where they were to the end of the line at their
      destination; every other line stays as it is. */
  lemma StepRoutes(s: State, e: Event, p: Place)
    requires Enabled(s, e) && !p.Asleep? && !p.Gone?
    ensures Routed(s, e, p)
  {
    hide Apply, Enabled, Routed;
    match e
    case Consume => TakeoverRouted(s, e, p);
    case Finish => TakeoverRouted(s, e, p);
    case Add(_) => AddRouted(s, e, p);
    case Turn(_) => TurnRouted(s, e, p);
    case PopIo => PopIoRouted(s, e, p);
    case PopTimer => PopTimerRouted(s, e, p);
    case ReturnIo(_, _) => ReturnRouted(s, e, p);
    case ReturnTimer(_, _) => ReturnRouted(s, e, p);
    case _ => OtherRouted(s, e, p);
  }

  function HandleOf(s: State, e: Event): set<nat>
    requires Enabled(s, e)
  {
    match e
    case Add(_) => {s.tmp[0]}
    case Turn(_) => {s.queue[0]}
    case WakeSleep(l) => {s.lists[l].waking.h}
    case _ => {}
  }

  /** The first handle in line goes to sleep exactly if its action asks for it, and the insertion into that list is what
      the processor does next; only a notifier that erased it from the list wakes it. */
  lemma StepSleeps(s: State, e: Event)
    requires Enabled(s, e)
    ensures Apply(s, e).sleepSet
            == if (e.Add? || e.Turn?) && e.outcome.Wait? then s.sleepSet + HandleOf(s, e)
               else s.sleepSet - (if e.WakeSleep? then HandleOf(s, e) else {})
    ensures (e.Add? || e.Turn?) && e.outcome.Wait? ==>
              Apply(s, e).pc.Inserting? && {Apply(s, e).pc.h} == HandleOf(s, e) && Apply(s, e).pc.list == e.outcome.list
  {
    hide Fresh, FreshSet;
  }

  /** A list gets just the handle that is inserted and loses just the one that is erased, which its notifier has in hand
      from then on, first as erased, then as taken from the sleep set, until it is on the push list. */
  lemma StepLists(s: State, e: Event, l: nat)
    requires Enabled(s, e) && l < |s.lists|
    ensures |Apply(s, e).lists| == |s.lists|
    ensures Apply(s, e).lists[l].members
            == s.lists[l].members + (if e.Insert? && s.pc.list == l then {s.pc.h} else {})
               - (if e.WakeErase? && e.list == l then {e.h} else {})
    ensures Apply(s, e).lists[l].waking
            == if e.WakeErase? && e.list == l then Erased(e.h)
               else if e.WakeSleep? && e.list == l then Unslept(s.lists[l].waking.h)
               else if e.WakePush? && e.list == l then Nothing
               else s.lists[l].waking
  {
    hide Fresh, FreshSet;
  }

  /** Whether the step gives a handle to a queue for a worker of that kind. */
  predicate Gives(e: Event, outcome: Outcome) {
    (e.Add? || e.Turn?) && e.outcome == outcome
  }

  /** One after the other gets a task: the worker whose turn it was is followed by the next one, and only a task of its
      kind makes that step. At the wrap-around of a balancer it is the worker at place 0. */
  lemma WorkersTakeTurns(s: State, e: Event)
    requires Enabled(s, e) && s.ioPop != [] && s.timerPop != [] && s.ioBalancer < UINT32 && s.timerBalancer < UINT32
    ensures Apply(s, e).ioBalancer < UINT32 && Apply(s, e).timerBalancer < UINT32
    ensures |Apply(s, e).ioPop| == |s.ioPop| && |Apply(s, e).timerPop| == |s.timerPop|
    ensures var i, k := Asked(s, IoWait).worker, Asked(Apply(s, e), IoWait).worker;
            if !Gives(e, IoWait) then k == i
            else if Bump(s.ioBalancer) + 1 < UINT32 then k == (i + 1) % |s.ioPop|
            else k == 0
    ensures var i, k := Asked(s, WaitRepeat).worker, Asked(Apply(s, e), WaitRepeat).worker;
            if !Gives(e, WaitRepeat) then k == i
            else if Bump(s.timerBalancer) + 1 < UINT32 then k == (i + 1) % |s.timerPop|
            else k == 0
  {
    hide Apply, Enabled;
    BalancersMove(s, e);
    NextModulo(Bump(s.ioBalancer), |s.ioPop|);
    NextModulo(Bump(s.timerBalancer), |s.timerPop|);
    BumpIs(Bump(s.ioBalancer));
    BumpIs(Bump(s.timerBalancer));
    Quotient(0, |s.ioPop|, 0, 0);
    Quotient(0, |s.timerPop|, 0, 0);
  }

  lemma BalancersMove(s: State, e: Event)
    requires Enabled(s, e) && s.ioPop != [] && s.timerPop != []
    ensures var t := Apply(s, e);
            && t.ioBalancer == (if Gives(e, IoWait) then Bump(s.ioBalancer) else s.ioBalancer)
            && t.timerBalancer == (if Gives(e, WaitRepeat) then Bump(s.timerBalancer) else s.timerBalancer)
            && |t.ioPop| == |s.ioPop| && |t.timerPop| == |s.timerPop|
  {
    hide Fresh, FreshSet, Bump;
  }

  /** The balancers are counted up before they are used: the first task goes to the worker at place 1, if there are two
      of them. */
  lemma FirstWorkers(ioWorkers: nat, timerWorkers: nat, lists: nat)
    requires ioWorkers > 0 && timerWorkers > 0
    ensures Asked(Init(ioWorkers, timerWorkers, lists), IoWait) == ForIo(1 % ioWorkers)
    ensures Asked(Init(ioWorkers, timerWorkers, lists), WaitRepeat) == ForTimer(1 % timerWorkers)
  {
  }

  /** `execute`, at any time: one submission is counted and put in the list, nothing else changes. */
  lemma Submits(s: State)
    ensures IsRun(s, [Count, Append])
    ensures End(s, [Count, Append]) == s.(counter := s.counter + 1, taskList := s.taskList + 1)
  {
    assert [Count, Append][1..] == [Append] && [Append][1..] == [];
  }
}
