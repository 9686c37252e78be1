/** src/oatpp/async/Processor.cpp: coroutine handles on their way between the queues of a processor, its workers and the
    wait lists, as a state machine. Every mutex section and every access to the task counter is one step. Only waits
    without a timeout are modelled. */
module ProcessorProtocol {
  import opened Sequences

  /** What a notifier that holds the mutex of a wait list has in hand: a handle it erased from the list, which is still
      in the sleep set, or one it erased from there as well and has not pushed yet. */
  datatype Waking = Nothing | Erased(h: nat) | Unslept(h: nat)

  datatype WaitList = WaitList(members: set<nat>, waking: Waking)

  /** Where the thread of the processor is in `iterate`. */
  datatype Pc =
    | Idle
    | Adding                                    // in the loop of pushQueues
    | Looping(turns: nat)                       // in the loop of iterate
    | Inserting(h: nat, list: nat, back: Pc)    // between putCoroutineToSleep and the insertion in the wait list
    | Deleting(back: Pc)                        // after popFrontNoData, before -- m_tasksCounter
    | Popping(io: nat, timer: nat)              // in the loops of popTasks
    | Broken                                    // "Processor has no workers" was thrown

  datatype State = State(
    counter: int,                // m_tasksCounter
    submitting: nat,             // calls of execute between ++ m_tasksCounter and the append
    taskList: nat,               // m_taskList
    pushList: seq<nat>,          // m_pushList
    tmp: seq<nat>,               // tmpList of pushQueues
    queue: seq<nat>,             // m_queue
    ioPop: seq<seq<nat>>,        // m_ioPopQueues
    timerPop: seq<seq<nat>>,     // m_timerPopQueues
    ioBalancer: nat,
    timerBalancer: nat,
    ioWork: seq<seq<nat>>,       // handles the I/O workers have
    timerWork: seq<seq<nat>>,    // handles the timer workers have
    sleepSet: set<nat>,          // m_sleepNoTimeSet
    lists: seq<WaitList>,
    lost: seq<nat>,              // handles in hand when an exception was thrown
    live: set<nat>,              // handles created and not deleted
    next: nat,                   // handles get numbers in the order of their creation
    pc: Pc)

  /** What a coroutine's action asks for. A repeated I/O operation counts as IoWait in `addCoroutine`, where both go to
      a worker, and as GoOn in `iterate`. */
  datatype Outcome = GoOn | IoWait | WaitRepeat | Wait(list: nat)

  datatype Event =
    | Count                          // execute: ++ m_tasksCounter
    | Append                         // execute: m_taskList.push_back
    | Consume                        // pushQueues: the section under m_taskLock
    | Add(outcome: Outcome)          // addCoroutine for the head of tmpList
    | AddsDone(turns: nat)
    | Turn(outcome: Outcome)         // a turn of the loop of iterate whose head is not finished
    | Finish                         // a turn whose head is finished: popFrontNoData
    | Decrement                      // -- m_tasksCounter
    | Insert                         // the insertion in CoroutineWaitList::add
    | TurnsDone
    | PopIo | PopTimer | PopsDone    // popTasks: pushTasks of one worker
    | ReturnIo(worker: nat, k: nat) | ReturnTimer(worker: nat, k: nat)   // a worker calls pushOneTask
    | WakeErase(list: nat, h: nat)   // removeCoroutine: erase from the list
    | WakeSleep(list: nat)           // wakeCoroutine: erase from the sleep set
    | WakePush(list: nat)            // wakeCoroutine: pushOneTask

  const UINT32 := 0x1_0000_0000

  function Bump(balancer: nat): nat {
    (balancer + 1) % UINT32
  }

  function Without(q: seq<nat>, k: nat): seq<nat>
    requires k < |q|
  {
    q[..k] + q[k + 1..]
  }

  predicate OutcomeFits(s: State, outcome: Outcome) {
    outcome.Wait? ==> outcome.list < |s.lists|
  }

  predicate Enabled(s: State, e: Event) {
    match e
    case Count => true
    case Append => s.submitting > 0
    case Consume => s.pc.Idle?
    case Add(outcome) => s.pc.Adding? && s.tmp != [] && OutcomeFits(s, outcome)
    case AddsDone(_) => s.pc.Adding? && s.tmp == []
    case Turn(outcome) => s.pc.Looping? && s.pc.turns > 0 && s.queue != [] && OutcomeFits(s, outcome)
    case Finish => s.pc.Looping? && s.pc.turns > 0 && s.queue != []
    case Decrement => s.pc.Deleting?
    case Insert => s.pc.Inserting? && s.pc.list < |s.lists| && s.lists[s.pc.list].waking.Nothing?
    case TurnsDone => s.pc.Looping? && (s.pc.turns == 0 || s.queue == [])
    case PopIo => s.pc.Popping? && s.pc.io < |s.ioPop| && s.pc.io < |s.ioWork|
    case PopTimer => s.pc.Popping? && s.pc.timer < |s.timerPop| && s.pc.timer < |s.timerWork|
    case PopsDone => s.pc.Popping? && s.pc.io >= |s.ioPop| && s.pc.timer >= |s.timerPop|
    case ReturnIo(w, k) => w < |s.ioWork| && k < |s.ioWork[w]|
    case ReturnTimer(w, k) => w < |s.timerWork| && k < |s.timerWork[w]|
    case WakeErase(l, h) => l < |s.lists| && s.lists[l].waking.Nothing? && h in s.lists[l].members
    case WakeSleep(l) => l < |s.lists| && s.lists[l].waking.Erased?
    case WakePush(l) => l < |s.lists| && s.lists[l].waking.Unslept?
  }

  /** `popIOTask` and `popTimerTask`: round robin over the workers' queues. */
  function PopIoTask(s: State, h: nat): State {
    if s.ioPop == [] then s.(lost := s.lost + [h], pc := Broken)
    else
      var i := Bump(s.ioBalancer) % |s.ioPop|;
      s.(ioBalancer := Bump(s.ioBalancer), ioPop := s.ioPop[i := s.ioPop[i] + [h]])
  }

  function PopTimerTask(s: State, h: nat): State {
    if s.timerPop == [] then s.(lost := s.lost + [h], pc := Broken)
    else
      var i := Bump(s.timerBalancer) % |s.timerPop|;
      s.(timerBalancer := Bump(s.timerBalancer), timerPop := s.timerPop[i := s.timerPop[i] + [h]])
  }

  /** Where a handle in hand goes. */
  function Dispatch(s: State, h: nat, outcome: Outcome): State {
    match outcome
    case GoOn => s.(queue := s.queue + [h])
    case IoWait => PopIoTask(s, h)
    case WaitRepeat => PopTimerTask(s, h)
    case Wait(l) => s.(sleepSet := s.sleepSet + {h}, pc := Inserting(h, l, s.pc))
  }

  function Fresh(next: nat, n: nat): seq<nat>
    decreases n
  {
    if n == 0 then [] else [next] + Fresh(next + 1, n - 1)
  }

  function FreshSet(next: nat, n: nat): set<nat>
    decreases n
  {
    if n == 0 then {} else {next} + FreshSet(next + 1, n - 1)
  }

  function Apply(s: State, e: Event): State
    requires Enabled(s, e)
  {
    match e
    case Count => s.(counter := s.counter + 1, submitting := s.submitting + 1)
    case Append => s.(submitting := s.submitting - 1, taskList := s.taskList + 1)
    case Consume =>
      s.(queue := s.queue + Fresh(s.next, s.taskList), live := s.live + FreshSet(s.next, s.taskList),
         next := s.next + s.taskList, taskList := 0, tmp := s.tmp + s.pushList, pushList := [], pc := Adding)
    case Add(outcome) => Dispatch(s.(tmp := s.tmp[1..]), s.tmp[0], outcome)
    case AddsDone(turns) => s.(pc := Looping(turns))
    case Turn(outcome) => Dispatch(s.(queue := s.queue[1..], pc := Looping(s.pc.turns - 1)), s.queue[0], outcome)
    case Finish => s.(queue := s.queue[1..], live := s.live - {s.queue[0]}, pc := Deleting(Looping(s.pc.turns - 1)))
    case Decrement => s.(counter := s.counter - 1, pc := s.pc.back)
    case Insert =>
      var l := s.pc.list;
      s.(lists := s.lists[l := s.lists[l].(members := s.lists[l].members + {s.pc.h})], pc := s.pc.back)
    case TurnsDone => s.(pc := Popping(0, 0))
    case PopIo =>
      var i := s.pc.io;
      s.(ioWork := s.ioWork[i := s.ioWork[i] + s.ioPop[i]], ioPop := s.ioPop[i := []], pc := s.pc.(io := i + 1))
    case PopTimer =>
      var i := s.pc.timer;
      s.(timerWork := s.timerWork[i := s.timerWork[i] + s.timerPop[i]], timerPop := s.timerPop[i := []],
         pc := s.pc.(timer := i + 1))
    case PopsDone => s.(pc := Idle)
    case ReturnIo(w, k) =>
      s.(ioWork := s.ioWork[w := Without(s.ioWork[w], k)], pushList := s.pushList + [s.ioWork[w][k]])
    case ReturnTimer(w, k) =>
      s.(timerWork := s.timerWork[w := Without(s.timerWork[w], k)], pushList := s.pushList + [s.timerWork[w][k]])
    case WakeErase(l, h) => s.(lists := s.lists[l := WaitList(s.lists[l].members - {h}, Erased(h))])
    case WakeSleep(l) =>
      var h := s.lists[l].waking.h;
      s.(sleepSet := s.sleepSet - {h}, lists := s.lists[l := s.lists[l].(waking := Unslept(h))])
    case WakePush(l) =>
      s.(pushList := s.pushList + [s.lists[l].waking.h], lists := s.lists[l := s.lists[l].(waking := Nothing)])
  }

  /** A processor with some workers and wait lists, before anything was submitted. */
  function Init(ioWorkers: nat, timerWorkers: nat, lists: nat): State {
    State(0, 0, 0, [], [], [], Repeat([], ioWorkers), Repeat([], timerWorkers), 0, 0,
          Repeat([], ioWorkers), Repeat([], timerWorkers), {}, Repeat(WaitList({}, Nothing), lists), [], {}, 0, Idle)
  }

  ghost predicate IsRun(s: State, events: seq<Event>)
    decreases |events|
  {
    events == [] || (Enabled(s, events[0]) && IsRun(Apply(s, events[0]), events[1..]))
  }

  function End(s: State, events: seq<Event>): State
    requires IsRun(s, events)
    decreases |events|
  {
    if events == [] then s else End(Apply(s, events[0]), events[1..])
  }

  // ----- How often a handle is somewhere -----

  function In(q: seq<nat>, h: nat): nat {
    multiset(q)[h]
  }

  function One(b: bool): nat {
    if b then 1 else 0
  }

  function InAll(qs: seq<seq<nat>>, h: nat): nat {
    if qs == [] then 0 else In(qs[0], h) + InAll(qs[1..], h)
  }

  /** The lists that have h, or whose notifier has it and has not taken it from the sleep set. */
  function Listed(lists: seq<WaitList>, h: nat): nat {
    if lists == [] then 0 else One(h in lists[0].members) + One(lists[0].waking == Erased(h)) + Listed(lists[1..], h)
  }

  /** The notifiers that have h in hand and nowhere else. */
  function InHand(lists: seq<WaitList>, h: nat): nat {
    if lists == [] then 0 else One(lists[0].waking == Unslept(h)) + InHand(lists[1..], h)
  }

  /** In how many places h is. */
  function Places(s: State, h: nat): nat {
    In(s.queue, h) + In(s.pushList, h) + In(s.tmp, h) + InAll(s.ioPop, h) + InAll(s.timerPop, h) + InAll(s.ioWork, h)
    + InAll(s.timerWork, h) + One(h in s.sleepSet) + InHand(s.lists, h) + In(s.lost, h)
  }

  /** How often the wait lists, their notifiers and an unfinished insertion account for h. */
  function Waits(s: State, h: nat): nat {
    Listed(s.lists, h) + One(s.pc.Inserting? && s.pc.h == h)
  }

  /** A live handle is in exactly one place, and the sleep set agrees with the wait lists. */
  ghost predicate Conserved(s: State) {
    forall h: nat :: Places(s, h) == One(h in s.live) && Waits(s, h) == One(h in s.sleepSet)
  }

  ghost predicate Invariant(s: State) {
    && Conserved(s)
    && s.counter == s.submitting + s.taskList + |s.live| + One(s.pc.Deleting?)
    && (forall h :: h in s.live ==> h < s.next)
    && (s.pc.Broken? || s.lost == [])
    && (s.pc.Inserting? ==>
          !s.pc.back.Inserting? && !s.pc.back.Deleting? && !s.pc.back.Broken? && s.pc.list < |s.lists|)
    && (s.pc.Deleting? ==> !s.pc.back.Inserting? && !s.pc.back.Deleting? && !s.pc.back.Broken?)
  }

  lemma InConcat(a: seq<nat>, b: seq<nat>, h: nat)
    ensures In(a + b, h) == In(a, h) + In(b, h)
  {
  }

  lemma InHead(q: seq<nat>, h: nat)
    requires q != []
    ensures In(q, h) == One(q[0] == h) + In(q[1..], h)
  {
    assert q == [q[0]] + q[1..];
  }

  lemma InOne(x: nat, h: nat)
    ensures In([x], h) == One(x == h) && In([], h) == 0
  {
  }

  lemma InWithout(q: seq<nat>, k: nat, h: nat)
    requires k < |q|
    ensures In(q, h) == In(Without(q, k), h) + One(q[k] == h)
  {
    assert q == q[..k] + ([q[k]] + q[k + 1..]);
    InConcat(q[..k], [q[k]] + q[k + 1..], h);
    InConcat([q[k]], q[k + 1..], h);
    InConcat(q[..k], q[k + 1..], h);
  }

  lemma {:induction false} InAllUpdate(qs: seq<seq<nat>>, i: nat, q: seq<nat>, h: nat)
    requires i < |qs|
    ensures InAll(qs[i := q], h) + In(qs[i], h) == InAll(qs, h) + In(q, h)
    decreases |qs|
  {
    hide In;
    var t := qs[i := q];
    if i == 0 {
      assert t[1..] == qs[1..];
    } else {
      assert t[1..] == qs[1..][i - 1 := q];
      InAllUpdate(qs[1..], i - 1, q, h);
    }
  }

  lemma {:induction false} ListsUpdate(lists: seq<WaitList>, i: nat, w: WaitList, h: nat)
    requires i < |lists|
    ensures Listed(lists[i := w], h) + One(h in lists[i].members) + One(lists[i].waking == Erased(h))
            == Listed(lists, h) + One(h in w.members) + One(w.waking == Erased(h))
    ensures InHand(lists[i := w], h) + One(lists[i].waking == Unslept(h))
            == InHand(lists, h) + One(w.waking == Unslept(h))
    ensures h in lists[i].members || lists[i].waking == Erased(h) ==> Listed(lists, h) > 0
    decreases |lists|
  {
    hide One;
    var t := lists[i := w];
    if i == 0 {
      assert t[1..] == lists[1..];
    } else {
      assert t[1..] == lists[1..][i - 1 := w];
      ListsUpdate(lists[1..], i - 1, w, h);
    }
    assert One(true) == 1 && One(false) == 0 by {
      OneIs();
    }
  }

  lemma OneIs()
    ensures One(true) == 1 && One(false) == 0
  {
  }

  lemma {:induction false} InFresh(next: nat, n: nat, h: nat)
    ensures In(Fresh(next, n), h) == One(next <= h < next + n) && |Fresh(next, n)| == n
    decreases n
  {
    hide In;
    InOne(next, h);
    if n > 0 {
      InFresh(next + 1, n - 1, h);
      InConcat([next], Fresh(next + 1, n - 1), h);
    }
  }

  /** A handle in hand is put in exactly one place. */
  lemma DispatchCounts(s: State, x: nat, outcome: Outcome, h: nat)
    requires !s.pc.Inserting? && (outcome.Wait? ==> x !in s.sleepSet)
    ensures var t := Dispatch(s, x, outcome);
            && Places(t, h) == Places(s, h) + One(x == h)
            && Waits(t, h) == Waits(s, h) + One(outcome.Wait? && x == h)
            && One(h in t.sleepSet) == One(h in s.sleepSet) + One(outcome.Wait? && x == h)
  {
    hide InAll, Listed, InHand, In;
    InOne(x, h);
    match outcome
    case GoOn => InConcat(s.queue, [x], h);
    case IoWait =>
      InConcat(s.lost, [x], h);
      if s.ioPop != [] {
        var i := Bump(s.ioBalancer) % |s.ioPop|;
        InConcat(s.ioPop[i], [x], h);
        InAllUpdate(s.ioPop, i, s.ioPop[i] + [x], h);
      }
    case WaitRepeat =>
      InConcat(s.lost, [x], h);
      if s.timerPop != [] {
        var i := Bump(s.timerBalancer) % |s.timerPop|;
        InConcat(s.timerPop[i], [x], h);
        InAllUpdate(s.timerPop, i, s.timerPop[i] + [x], h);
      }
    case Wait(l) =>
  }

  lemma Quotient(x: nat, n: nat, q: nat, r: nat)
    requires r < n && x == q * n + r
    ensures x % n == r
  {
    var p := x / n;
    assert x == p * n + x % n;
    assert (q - p) * n == q * n - p * n && (p - q) * n == p * n - q * n;
    if q > p {
      AtLeastOne(q - p, n);
    } else if p > q {
      AtLeastOne(p - q, n);
    }
  }

  lemma AtLeastOne(k: nat, n: nat)
    requires k > 0
    ensures k * n >= n
  {
  }

  lemma NextModulo(x: nat, n: nat)
    requires n > 0
    ensures (x + 1) % n == (x % n + 1) % n
  {
    var q, r := x / n, x % n;
    assert x == q * n + r;
    if r + 1 < n {
      Quotient(x + 1, n, q, r + 1);
      Quotient(r + 1, n, 0, r + 1);
    } else {
      assert x + 1 == (q + 1) * n + 0;
      Quotient(x + 1, n, q + 1, 0);
      Quotient(r + 1, n, 1, 0);
    }
  }

  /** Round robin: the next task of a kind goes to the next worker, exactly unless the 32-bit balancer wraps around and
      the number of workers does not divide 2^32. */
  lemma RoundRobin(balancer: nat, workers: nat)
    requires workers > 0 && balancer < UINT32
    ensures Bump(balancer) % workers == (balancer % workers + 1) % workers
            <==> balancer + 1 < UINT32 || UINT32 % workers == 0
  {
    NextModulo(balancer, workers);
    BumpIs(balancer);
    Quotient(0, workers, 0, 0);
  }

  lemma BumpIs(balancer: nat)
    requires balancer < UINT32
    ensures Bump(balancer) == if balancer + 1 < UINT32 then balancer + 1 else 0
  {
  }

  /** And in the place its action asks for: the run queue, a queue for an I/O worker, one for a timer worker, or the
      sleep set with the insertion into its list to come. */
  lemma DispatchRoutes(s: State, x: nat, outcome: Outcome, h: nat)
    requires s.ioPop != [] && s.timerPop != []
    ensures var t := Dispatch(s, x, outcome);
            && In(t.queue, h) == In(s.queue, h) + One(outcome.GoOn? && x == h)
            && InAll(t.ioPop, h) == InAll(s.ioPop, h) + One(outcome.IoWait? && x == h)
            && InAll(t.timerPop, h) == InAll(s.timerPop, h) + One(outcome.WaitRepeat? && x == h)
            && (h in t.sleepSet <==> h in s.sleepSet || (outcome.Wait? && x == h))
            && (outcome.Wait? ==> t.pc == Inserting(x, outcome.list, s.pc))
            && (outcome.GoOn? ==> t.queue == s.queue + [x])
  {
    hide InAll, In;
    InOne(x, h);
    InConcat(s.queue, [x], h);
    if outcome.IoWait? {
      var i := Bump(s.ioBalancer) % |s.ioPop|;
      InConcat(s.ioPop[i], [x], h);
      InAllUpdate(s.ioPop, i, s.ioPop[i] + [x], h);
    } else if outcome.WaitRepeat? {
      var i := Bump(s.timerBalancer) % |s.timerPop|;
      InConcat(s.timerPop[i], [x], h);
      InAllUpdate(s.timerPop, i, s.timerPop[i] + [x], h);
    }
  }

  predicate IsQueueStep(e: Event) {
    e.Consume? || e.Add? || e.Turn? || e.Finish?
  }

  predicate IsWorkerStep(e: Event) {
    e.PopIo? || e.PopTimer? || e.ReturnIo? || e.ReturnTimer?
  }

  predicate IsListStep(e: Event) {
    e.Insert? || e.WakeErase? || e.WakeSleep? || e.WakePush?
  }

  /** What a step does to one handle. */
  ghost predicate Balanced(s: State, t: State, h: nat) {
    && Places(t, h) + One(h in s.live) == Places(s, h) + One(h in t.live)
    && Waits(t, h) + One(h in s.sleepSet) == Waits(s, h) + One(h in t.sleepSet)
  }

  lemma ConsumeBalanced(s: State, e: Event, h: nat)
    requires Invariant(s) && Enabled(s, e) && e.Consume?
    ensures Balanced(s, Apply(s, e), h)
  {
    hide InAll, Listed, InHand, In, Fresh, FreshSet, Conserved;
    InFresh(s.next, s.taskList, h);
    FreshMember(s.next, s.taskList, h);
    InConcat(s.queue, Fresh(s.next, s.taskList), h);
    InConcat(s.tmp, s.pushList, h);
    InOne(0, h);
  }

  lemma DispatchBalanced(s: State, e: Event, h: nat)
    requires Invariant(s) && Enabled(s, e) && (e.Add? || e.Turn? || e.Finish?)
    ensures Balanced(s, Apply(s, e), h)
  {
    hide InAll, Listed, InHand, In, Dispatch, Conserved;
    if e.Add? {
      AwakeInQueue(s, s.tmp, 0);
      InHead(s.tmp, h);
      DispatchCounts(s.(tmp := s.tmp[1..]), s.tmp[0], e.outcome, h);
      DispatchKeepsLive(s.(tmp := s.tmp[1..]), s.tmp[0], e.outcome);
    } else {
      AwakeInQueue(s, s.queue, 0);
      InHead(s.queue, h);
      if e.Turn? {
        var t := s.(queue := s.queue[1..], pc := Looping(s.pc.turns - 1));
        DispatchCounts(t, s.queue[0], e.outcome, h);
        DispatchKeepsLive(t, s.queue[0], e.outcome);
      } else {
        InLive(s, s.queue[0]);
      }
    }
  }

  lemma DispatchKeepsLive(s: State, x: nat, outcome: Outcome)
    ensures var t := Dispatch(s, x, outcome);
            t.live == s.live && t.next == s.next && t.counter == s.counter && t.submitting == s.submitting
              && t.taskList == s.taskList
  {
  }

  /** A handle in one of the processor's own queues is live and does not sleep. */
  lemma AwakeInQueue(s: State, q: seq<nat>, k: nat)
    requires Invariant(s) && k < |q| && (q == s.queue || q == s.tmp)
    ensures q[k] in s.live && q[k] !in s.sleepSet
  {
  }

  lemma InLive(s: State, h: nat)
    requires Invariant(s) && h in s.live
    ensures h < s.next && |s.live - {h}| == |s.live| - 1
  {
  }

  lemma WorkerBalanced(s: State, e: Event, h: nat)
    requires Invariant(s) && Enabled(s, e) && IsWorkerStep(e)
    ensures Balanced(s, Apply(s, e), h)
  {
    hide InAll, Listed, InHand, In, Conserved, Without;
    InOne(0, h);
    match e
    case PopIo =>
      var i := s.pc.io;
      InConcat(s.ioWork[i], s.ioPop[i], h);
      InAllUpdate(s.ioWork, i, s.ioWork[i] + s.ioPop[i], h);
      InAllUpdate(s.ioPop, i, [], h);
    case PopTimer =>
      var i := s.pc.timer;
      InConcat(s.timerWork[i], s.timerPop[i], h);
      InAllUpdate(s.timerWork, i, s.timerWork[i] + s.timerPop[i], h);
      InAllUpdate(s.timerPop, i, [], h);
    case ReturnIo(w, k) =>
      InWithout(s.ioWork[w], k, h);
      InAllUpdate(s.ioWork, w, Without(s.ioWork[w], k), h);
      InConcat(s.pushList, [s.ioWork[w][k]], h);
      InOne(s.ioWork[w][k], h);
    case ReturnTimer(w, k) =>
      InWithout(s.timerWork[w], k, h);
      InAllUpdate(s.timerWork, w, Without(s.timerWork[w], k), h);
      InConcat(s.pushList, [s.timerWork[w][k]], h);
      InOne(s.timerWork[w][k], h);
  }

  lemma ListBalanced(s: State, e: Event, h: nat)
    requires Invariant(s) && Enabled(s, e) && IsListStep(e)
    ensures Balanced(s, Apply(s, e), h)
  {
    hide InAll, Listed, InHand, In;
    assert Places(s, h) == One(h in s.live) && Waits(s, h) == One(h in s.sleepSet);
    var t := Apply(s, e);
    var l := if e.Insert? then s.pc.list else e.list;
    ListsUpdate(s.lists, l, t.lists[l], h);
    if e.WakePush? {
      InConcat(s.pushList, [s.lists[l].waking.h], h);
      InOne(s.lists[l].waking.h, h);
    }
  }

  /** Every step leaves every live handle in exactly one place. */
  lemma StepConserves(s: State, e: Event)
    requires Invariant(s) && Enabled(s, e)
    ensures Conserved(Apply(s, e))
  {
    hide Places, Waits, Apply, Enabled;
    forall h: nat
      ensures Places(Apply(s, e), h) == One(h in Apply(s, e).live)
              && Waits(Apply(s, e), h) == One(h in Apply(s, e).sleepSet)
    {
      assert Places(s, h) == One(h in s.live) && Waits(s, h) == One(h in s.sleepSet);
      if e.Consume? {
        ConsumeBalanced(s, e, h);
      } else if IsQueueStep(e) {
        DispatchBalanced(s, e, h);
      } else if IsWorkerStep(e) {
        WorkerBalanced(s, e, h);
      } else if IsListStep(e) {
        ListBalanced(s, e, h);
      } else {
        OtherBalanced(s, e, h);
      }
    }
  }

  lemma OtherBalanced(s: State, e: Event, h: nat)
    requires Invariant(s) && Enabled(s, e) && !IsQueueStep(e) && !IsWorkerStep(e) && !IsListStep(e)
    ensures Balanced(s, Apply(s, e), h)
  {
    hide InAll, Listed, InHand, In, Conserved;
  }

  lemma StepCounts(s: State, e: Event)
    requires Invariant(s) && Enabled(s, e)
    ensures var t := Apply(s, e);
            && t.counter == t.submitting + t.taskList + |t.live| + One(t.pc.Deleting?)
            && (forall h :: h in t.live ==> h < t.next)
  {
    hide Conserved, Fresh, FreshSet, Dispatch;
    if e.Consume? {
      FreshAdds(s);
    } else if e.Add? {
      DispatchKeepsLive(s.(tmp := s.tmp[1..]), s.tmp[0], e.outcome);
      DispatchPc(s.(tmp := s.tmp[1..]), s.tmp[0], e.outcome);
    } else if e.Turn? {
      var t := s.(queue := s.queue[1..], pc := Looping(s.pc.turns - 1));
      DispatchKeepsLive(t, s.queue[0], e.outcome);
      DispatchPc(t, s.queue[0], e.outcome);
    } else if e.Finish? {
      AwakeInQueue(s, s.queue, 0);
      InLive(s, s.queue[0]);
    }
  }

  lemma {:induction false} FreshMember(next: nat, n: nat, h: nat)
    ensures h in FreshSet(next, n) <==> next <= h < next + n
    decreases n
  {
    if n > 0 {
      FreshMember(next + 1, n - 1, h);
    }
  }

  lemma {:induction false} FreshCount(next: nat, n: nat)
    ensures |FreshSet(next, n)| == n
    decreases n
  {
    if n > 0 {
      FreshCount(next + 1, n - 1);
      FreshMember(next + 1, n - 1, next);
    }
  }

  /** New handles are not live yet. */
  lemma FreshAdds(s: State)
    requires forall h :: h in s.live ==> h < s.next
    ensures |s.live + FreshSet(s.next, s.taskList)| == |s.live| + s.taskList
    ensures forall h :: h in s.live + FreshSet(s.next, s.taskList) ==> h < s.next + s.taskList
  {
    hide FreshSet;
    FreshCount(s.next, s.taskList);
    forall h: nat
      ensures h in FreshSet(s.next, s.taskList) <==> s.next <= h < s.next + s.taskList
    {
      FreshMember(s.next, s.taskList, h);
    }
    assert s.live !! FreshSet(s.next, s.taskList);
  }

  lemma DispatchPc(s: State, x: nat, outcome: Outcome)
    requires OutcomeFits(s, outcome) && (s.pc.Adding? || s.pc.Looping?)
    ensures var t := Dispatch(s, x, outcome);
            && !t.pc.Deleting?
              && (t.pc == s.pc || t.pc.Broken? || (t.pc.Inserting? && t.pc.back == s.pc && t.pc.list < |t.lists|))
            && (t.pc.Broken? || t.lost == s.lost)
  {
  }

  lemma StepKeepsPc(s: State, e: Event)
    requires Invariant(s) && Enabled(s, e)
    ensures var t := Apply(s, e);
            && (t.pc.Broken? || t.lost == [])
            && (t.pc.Inserting? ==>
                !t.pc.back.Inserting? && !t.pc.back.Deleting? && !t.pc.back.Broken? && t.pc.list < |t.lists|)
            && (t.pc.Deleting? ==> !t.pc.back.Inserting? && !t.pc.back.Deleting? && !t.pc.back.Broken?)
  {
    hide Conserved, Fresh, FreshSet, Dispatch;
    if e.Add? {
      DispatchPc(s.(tmp := s.tmp[1..]), s.tmp[0], e.outcome);
    } else if e.Turn? {
      DispatchPc(s.(queue := s.queue[1..], pc := Looping(s.pc.turns - 1)), s.queue[0], e.outcome);
    }
  }

  lemma StepKeeps(s: State, e: Event)
    requires Invariant(s) && Enabled(s, e)
    ensures Invariant(Apply(s, e))
  {
    hide Apply, Enabled, Conserved;
    StepConserves(s, e);
    StepCounts(s, e);
    StepKeepsPc(s, e);
  }

  lemma {:induction false} RunKeeps(s: State, events: seq<Event>)
    requires Invariant(s) && IsRun(s, events)
    ensures Invariant(End(s, events))
    decreases |events|
  {
    hide Invariant, Apply, Enabled;
    if events != [] {
      StepKeeps(s, events[0]);
      RunKeeps(Apply(s, events[0]), events[1..]);
    }
  }

  lemma {:induction false} NothingIn(n: nat, h: nat)
    ensures InAll(Repeat([], n), h) == 0
    ensures Listed(Repeat(WaitList({}, Nothing), n), h) == 0 && InHand(Repeat(WaitList({}, Nothing), n), h) == 0
    decreases n
  {
    if n > 0 {
      NothingIn(n - 1, h);
    }
  }

  lemma InitHolds(ioWorkers: nat, timerWorkers: nat, lists: nat)
    ensures Invariant(Init(ioWorkers, timerWorkers, lists))
  {
    hide InAll, Listed, InHand;
    var s := Init(ioWorkers, timerWorkers, lists);
    forall h: nat
      ensures Places(s, h) == One(h in s.live) && Waits(s, h) == One(h in s.sleepSet)
    {
      NothingIn(ioWorkers, h);
      NothingIn(timerWorkers, h);
      NothingIn(lists, h);
    }
  }

  /** In every interleaving of submissions, turns of the processor, workers and notifiers: every handle that was created
      and not deleted is in exactly one place, no other handle is anywhere, the sleep set agrees with the wait lists,
      and the task counter is the number of submissions on their way plus the live handles, plus a deleted one that is
      not counted off yet. */
  lemma NothingLost(ioWorkers: nat, timerWorkers: nat, lists: nat, events: seq<Event>)
    requires IsRun(Init(ioWorkers, timerWorkers, lists), events)
    ensures var s := End(Init(ioWorkers, timerWorkers, lists), events);
            && (forall h: nat :: Places(s, h) == One(h in s.live) && Waits(s, h) == One(h in s.sleepSet))
            && s.counter == s.submitting + s.taskList + |s.live| + One(s.pc.Deleting?)
            && (s.counter == 0 ==> s.submitting == 0 && s.taskList == 0 && s.live == {})
  {
    hide Places, Waits, Apply, Enabled;
    InitHolds(ioWorkers, timerWorkers, lists);
    RunKeeps(Init(ioWorkers, timerWorkers, lists), events);
  }

  lemma StepKeepsWorkers(s: State, e: Event)
    requires Invariant(s) && Enabled(s, e) && s.ioPop != [] && s.timerPop != [] && !s.pc.Broken?
    ensures Apply(s, e).ioPop != [] && Apply(s, e).timerPop != [] && !Apply(s, e).pc.Broken?
  {
    hide Conserved, Fresh, FreshSet;
  }

  /** No handle is ever lost to an exception if there is a worker of each kind. */
  lemma {:induction false} NeverBroken(s: State, events: seq<Event>)
    requires Invariant(s) && IsRun(s, events) && s.ioPop != [] && s.timerPop != [] && !s.pc.Broken?
    ensures !End(s, events).pc.Broken? && End(s, events).lost == []
    decreases |events|
  {
    hide Apply, Enabled, Conserved;
    if events != [] {
      StepKeeps(s, events[0]);
      StepKeepsWorkers(s, events[0]);
      NeverBroken(Apply(s, events[0]), events[1..]);
    }
  }

  // ----- Bounded waiting -----

  /** The turns of the loop of `iterate` in a run. */
  function Turns(events: seq<Event>): nat {
    if events == [] then 0 else One(events[0].Turn? || events[0].Finish?) + Turns(events[1..])
  }

  /** A turn takes the head away, and everything else only appends. */
  lemma QueueMoves(s: State, e: Event)
    requires Enabled(s, e)
    ensures var from := if e.Turn? || e.Finish? then 1 else 0;
            && from <= |s.queue| && |Apply(s, e).queue| >= |s.queue| - from
            && Apply(s, e).queue[..|s.queue| - from] == s.queue[from..]
  {
  }

  /** A handle at place k of the run queue is k turns away from the head, whatever the other coroutines return and
      whatever is appended meanwhile. */
  lemma {:induction false} BoundedWaiting(s: State, events: seq<Event>, k: nat)
    requires IsRun(s, events) && k < |s.queue| && Turns(events) <= k
    ensures k - Turns(events) < |End(s, events).queue|
    ensures End(s, events).queue[k - Turns(events)] == s.queue[k]
    decreases |events|
  {
    hide Apply, Enabled;
    if events != [] {
      var from := if events[0].Turn? || events[0].Finish? then 1 else 0;
      var t := Apply(s, events[0]);
      QueueMoves(s, events[0]);
      assert t.queue[k - from] == t.queue[..|s.queue| - from][k - from] == s.queue[from..][k - from];
      BoundedWaiting(t, events[1..], k - from);
    }
  }
}
