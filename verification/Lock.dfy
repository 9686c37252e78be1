/** src/oatpp/async/Lock.cpp with src/oatpp/async/CoroutineWaitList.cpp: the asynchronous lock as a state machine. Every
    access to the mutex, to the atomic counter and to the wait list is one step; the parties take steps in any order. */
module LockProtocol {

  /** Where a party is. */
  datatype Pc =
    | Idle                    // does not use the lock
    | Blocking                // a thread in m_mutex.lock()
    | Trying(woken: bool)     // a coroutine about to call m_mutex.try_lock()
    | GotMutex                // before ++ m_counter
    | Holding                 // owns the lock
    | Released                // after m_mutex.unlock(), before -- m_counter
    | Counted                 // about to test m_counter < 0
    | Notifying               // about to call m_list.notifyFirst()
    | TryFailed(woken: bool)  // in waitAsync, about to load m_counter
    | WillSleep               // its action is on the way to m_list.add()
    | Checking                // inserted; its processor is in onNewItem, about to load m_counter
    | CheckNotify             // its processor is in onNewItem, about to call notifyFirst()
    | Asleep                  // on the list, nothing more to come from its processor
    | Broken                  // an "Invalid state" exception was thrown

  /** owner is -1 when the mutex is free. */
  datatype State = State(pcs: seq<Pc>, owner: int, counter: int, list: set<nat>)

  /** A party starts to use the lock, from a thread or from a coroutine, or goes on. notifyFirst takes any entry of the
      unordered list, `pick`; try_lock may fail although the mutex is free. */
  datatype Event = Lock | LockAsync | Go(pick: nat, spurious: bool)

  /** The parties between ++ m_counter and -- m_counter. */
  predicate Counts(pc: Pc) {
    pc.Holding? || pc.Released?
  }

  predicate OwnsMutex(pc: Pc) {
    pc.GotMutex? || pc.Holding?
  }

  /** The parties that a sleeper can count on: one that has the mutex, that is releasing the lock, whose check after an
      insertion is not over, or that was woken and has not got the lock yet. */
  predicate Active(pc: Pc) {
    || pc.GotMutex? || pc.Holding? || pc.Released? || pc.Counted? || pc.Notifying?
    || pc.Checking? || pc.CheckNotify?
    || (pc.Trying? && pc.woken) || (pc.TryFailed? && pc.woken)
  }

  function Count(pcs: seq<Pc>): (n: nat) {
    if pcs == [] then 0 else (if Counts(pcs[0]) then 1 else 0) + Count(pcs[1..])
  }

  ghost predicate SomeActive(pcs: seq<Pc>) {
    exists i :: 0 <= i < |pcs| && Active(pcs[i])
  }

  predicate Enabled(s: State, i: nat, e: Event) {
    && i < |s.pcs|
    && match e
       case Lock => s.pcs[i].Idle?
       case LockAsync => s.pcs[i].Idle?
       case Go(pick, _) =>
         && !s.pcs[i].Idle? && !s.pcs[i].Asleep? && !s.pcs[i].Broken?
         && (s.pcs[i].Blocking? ==> s.owner == -1)
         && (s.list != {} ==> pick in s.list && pick < |s.pcs|)
  }

  function Move(s: State, i: nat, pc: Pc): State
    requires i < |s.pcs|
  {
    s.(pcs := s.pcs[i := pc])
  }

  /** `notifyFirst`: takes one entry off the list and hands it to its processor. If that processor is still in onNewItem
      for this entry, the coroutine goes on when it is done. */
  function NotifyFirst(s: State, pick: nat): State
    requires s.list != {} ==> pick < |s.pcs|
  {
    if s.list == {} then s
    else
      var t := s.(list := s.list - {pick});
      if s.pcs[pick].Asleep? then Move(t, pick, Trying(true)) else t
  }

  /** The processor of i is done with its insertion. */
  function Rest(s: State, i: nat): State
    requires i < |s.pcs|
  {
    Move(s, i, if i in s.list then Asleep else Trying(true))
  }

  function Apply(s: State, i: nat, e: Event): State
    requires Enabled(s, i, e)
  {
    match e
    case Lock => Move(s, i, Blocking)
    case LockAsync => Move(s, i, Trying(false))
    case Go(pick, spurious) =>
      match s.pcs[i]
      case Blocking => Move(s, i, GotMutex).(owner := i)
      case Trying(woken) =>
        if s.owner == -1 && !spurious then Move(s, i, GotMutex).(owner := i) else Move(s, i, TryFailed(woken))
      case GotMutex => Move(s, i, Holding).(counter := s.counter + 1)
      case Holding => Move(s, i, Released).(owner := -1)
      case Released => Move(s, i, Counted).(counter := s.counter - 1)
      case Counted => Move(s, i, if s.counter < 0 then Broken else Notifying)
      case Notifying => Move(NotifyFirst(s, pick), i, Idle)
      case TryFailed(woken) =>
        Move(s, i, if s.counter > 0 then WillSleep else if s.counter == 0 then Trying(woken) else Broken)
      case WillSleep => Move(s, i, Checking).(list := s.list + {i})
      case Checking =>
        if s.counter == 0 then Move(s, i, CheckNotify) else if s.counter < 0 then Move(s, i, Broken) else Rest(s, i)
      case CheckNotify => Rest(NotifyFirst(s, pick), i)
      case _ => s
  }

  function Init(parties: nat): State {
    State(seq(parties, _ => Idle), -1, 0, {})
  }

  /** The states a run goes through. */
  datatype Choice = Choice(party: nat, event: Event)

  ghost predicate IsRun(s: State, choices: seq<Choice>)
    decreases |choices|
  {
    choices == [] || (Enabled(s, choices[0].party, choices[0].event)
                      && IsRun(Apply(s, choices[0].party, choices[0].event), choices[1..]))
  }

  function End(s: State, choices: seq<Choice>): State
    requires IsRun(s, choices)
    decreases |choices|
  {
    if choices == [] then s else End(Apply(s, choices[0].party, choices[0].event), choices[1..])
  }

  // ----- The invariant -----

  ghost predicate MutexRight(s: State) {
    && (s.owner == -1 || 0 <= s.owner < |s.pcs|)
    && forall i :: 0 <= i < |s.pcs| ==> (OwnsMutex(s.pcs[i]) <==> s.owner == i)
  }

  ghost predicate ListRight(s: State) {
    && (forall i :: i in s.list ==> i < |s.pcs|)
    && forall i :: 0 <= i < |s.pcs| ==>
         && (s.pcs[i].Asleep? ==> i in s.list)
         && (i in s.list ==> s.pcs[i].Asleep? || s.pcs[i].Checking? || s.pcs[i].CheckNotify?)
  }

  /** No lost wakeup, and the counter counts. */
  ghost predicate Invariant(s: State) {
    && MutexRight(s) && ListRight(s)
    && s.counter == Count(s.pcs)
    && (s.list != {} ==> SomeActive(s.pcs))
    && forall i :: 0 <= i < |s.pcs| ==> !s.pcs[i].Broken?
  }

  lemma {:induction false} CountMove(pcs: seq<Pc>, i: nat, pc: Pc)
    requires i < |pcs|
    ensures Count(pcs[i := pc]) == Count(pcs) - (if Counts(pcs[i]) then 1 else 0) + (if Counts(pc) then 1 else 0)
    decreases |pcs|
  {
    hide Counts;
    var q := pcs[i := pc];
    if i == 0 {
      assert q[1..] == pcs[1..];
    } else {
      assert q[1..] == pcs[1..][i - 1 := pc];
      CountMove(pcs[1..], i - 1, pc);
    }
  }

  /** A positive counter means that somebody is between ++ and --. */
  lemma {:induction false} SomebodyCounts(pcs: seq<Pc>) returns (i: nat)
    requires Count(pcs) > 0
    ensures i < |pcs| && Counts(pcs[i])
    decreases |pcs|
  {
    if Counts(pcs[0]) {
      i := 0;
    } else {
      var j := SomebodyCounts(pcs[1..]);
      i := j + 1;
    }
  }

  lemma CountIsActive(pcs: seq<Pc>)
    ensures Count(pcs) > 0 ==> SomeActive(pcs)
  {
    if Count(pcs) > 0 {
      var i := SomebodyCounts(pcs);
      assert Active(pcs[i]);
    }
  }

  /** Another party moves: whoever else was active still is. */
  lemma StillActive(pcs: seq<Pc>, i: nat, pc: Pc)
    requires i < |pcs| && SomeActive(pcs) && (Active(pcs[i]) ==> Active(pc))
    ensures SomeActive(pcs[i := pc])
  {
    var j :| 0 <= j < |pcs| && Active(pcs[j]);
    assert Active(pcs[i := pc][j]);
  }

  lemma NowActive(pcs: seq<Pc>, i: nat, pc: Pc)
    requires i < |pcs| && Active(pc)
    ensures SomeActive(pcs[i := pc])
  {
    assert Active(pcs[i := pc][i]);
  }

  lemma StartKeeps(s: State, i: nat, e: Event)
    requires Invariant(s) && Enabled(s, i, e) && !e.Go?
    ensures Invariant(Apply(s, i, e))
  {
    hide Count;
    var pc := if e.Lock? then Blocking else Trying(false);
    CountMove(s.pcs, i, pc);
    if s.list != {} {
      StillActive(s.pcs, i, pc);
    }
  }

  /** Taking and releasing the mutex, and counting. */
  lemma MutexStepKeeps(s: State, i: nat, e: Event)
    requires Invariant(s) && Enabled(s, i, e) && e.Go?
    requires s.pcs[i].Blocking? || s.pcs[i].GotMutex? || s.pcs[i].Holding? || s.pcs[i].Released? || s.pcs[i].Counted?
    ensures Invariant(Apply(s, i, e))
  {
    hide Count;
    var pc := Apply(s, i, e).pcs[i];
    CountMove(s.pcs, i, pc);
    if s.list != {} {
      StillActive(s.pcs, i, pc);
    }
  }

  lemma TryKeeps(s: State, i: nat, e: Event)
    requires Invariant(s) && Enabled(s, i, e) && e.Go? && s.pcs[i].Trying?
    ensures Invariant(Apply(s, i, e))
  {
    hide Count;
    var pc := Apply(s, i, e).pcs[i];
    CountMove(s.pcs, i, pc);
    if s.list != {} {
      StillActive(s.pcs, i, pc);
    }
  }

  lemma WaitKeeps(s: State, i: nat, e: Event)
    requires Invariant(s) && Enabled(s, i, e) && e.Go? && (s.pcs[i].TryFailed? || s.pcs[i].WillSleep?)
    ensures Invariant(Apply(s, i, e))
  {
    hide Count;
    var pc := Apply(s, i, e).pcs[i];
    CountMove(s.pcs, i, pc);
    CountIsActive(s.pcs[i := pc]);
    if Active(pc) {
      NowActive(s.pcs, i, pc);
    } else if s.list != {} && s.counter == 0 {
      StillActive(s.pcs, i, pc);
    }
  }

  lemma CheckKeeps(s: State, i: nat, e: Event)
    requires Invariant(s) && Enabled(s, i, e) && e.Go? && s.pcs[i].Checking?
    ensures Invariant(Apply(s, i, e))
  {
    hide Count;
    var pc := Apply(s, i, e).pcs[i];
    CountMove(s.pcs, i, pc);
    CountIsActive(s.pcs[i := pc]);
    if Active(pc) {
      NowActive(s.pcs, i, pc);
    }
  }

  /** notifyFirst by party i: afterwards somebody is awake who was on the list, or nobody is on it. */
  lemma NotifyKeeps(s: State, i: nat, pick: nat)
    requires Invariant(s) && i < |s.pcs| && (s.pcs[i].Notifying? || s.pcs[i].CheckNotify?)
    requires s.list != {} ==> pick in s.list
    ensures var t := NotifyFirst(s, pick);
            && |t.pcs| == |s.pcs| && t.pcs[i] == s.pcs[i] && t.owner == s.owner && t.counter == s.counter
              && t.list <= s.list
            && MutexRight(t) && ListRight(t) && t.counter == Count(t.pcs)
            && (forall j :: 0 <= j < |t.pcs| ==> !t.pcs[j].Broken?)
            && (s.list != {} ==> pick < |t.pcs| && pick !in t.list && Active(t.pcs[pick]))
  {
    hide Count;
    if s.list != {} && s.pcs[pick].Asleep? {
      CountMove(s.pcs, pick, Trying(true));
    }
  }

  lemma NotifyingKeeps(s: State, i: nat, e: Event)
    requires Invariant(s) && Enabled(s, i, e) && e.Go? && s.pcs[i].Notifying?
    ensures Invariant(Apply(s, i, e))
  {
    hide Count, NotifyFirst;
    NotifyKeeps(s, i, e.pick);
    var t := NotifyFirst(s, e.pick);
    CountMove(t.pcs, i, Idle);
    if s.list != {} {
      assert e.pick != i;
      assert Active(t.pcs[i := Idle][e.pick]);
    }
  }

  lemma CheckNotifyKeeps(s: State, i: nat, e: Event)
    requires Invariant(s) && Enabled(s, i, e) && e.Go? && s.pcs[i].CheckNotify?
    ensures Invariant(Apply(s, i, e))
  {
    hide Count, NotifyFirst;
    NotifyKeeps(s, i, e.pick);
    var t := NotifyFirst(s, e.pick);
    var pc := if i in t.list then Asleep else Trying(true);
    CountMove(t.pcs, i, pc);
    if s.list != {} {
      if e.pick == i {
        NowActive(t.pcs, i, pc);
      } else {
        assert Active(t.pcs[i := pc][e.pick]);
      }
    }
  }

  /** Every step keeps the invariant. */
  lemma StepKeeps(s: State, i: nat, e: Event)
    requires Invariant(s) && Enabled(s, i, e)
    ensures Invariant(Apply(s, i, e))
  {
    hide Invariant, Apply, Count;
    match e
    case Lock => StartKeeps(s, i, e);
    case LockAsync => StartKeeps(s, i, e);
    case Go(_, _) =>
      match s.pcs[i]
      case Trying(_) => TryKeeps(s, i, e);
      case TryFailed(_) => WaitKeeps(s, i, e);
      case WillSleep => WaitKeeps(s, i, e);
      case Checking => CheckKeeps(s, i, e);
      case CheckNotify => CheckNotifyKeeps(s, i, e);
      case Notifying => NotifyingKeeps(s, i, e);
      case _ => MutexStepKeeps(s, i, e);
  }

  lemma {:induction false} NobodyCounts(pcs: seq<Pc>)
    requires forall i :: 0 <= i < |pcs| ==> pcs[i] == Idle
    ensures Count(pcs) == 0
    decreases |pcs|
  {
    if pcs != [] {
      NobodyCounts(pcs[1..]);
    }
  }

  lemma {:induction false} RunKeeps(s: State, choices: seq<Choice>)
    requires Invariant(s) && IsRun(s, choices)
    ensures Invariant(End(s, choices))
    decreases |choices|
  {
    hide Invariant, Apply, Enabled;
    if choices != [] {
      StepKeeps(s, choices[0].party, choices[0].event);
      RunKeeps(Apply(s, choices[0].party, choices[0].event), choices[1..]);
    }
  }

  /** In every interleaving of any number of parties: as long as a coroutine is on the wait list some party is active,
      the counter is the number of parties between ++ and --, at most one party owns the lock, and no exception is
      thrown. */
  lemma NoLostWakeup(parties: nat, choices: seq<Choice>)
    requires IsRun(Init(parties), choices)
    ensures var s := End(Init(parties), choices);
            && (s.list != {} ==> SomeActive(s.pcs))
            && s.counter == Count(s.pcs)
            && (forall i, j :: 0 <= i < j < |s.pcs| && OwnsMutex(s.pcs[i]) ==> !OwnsMutex(s.pcs[j]))
            && (forall i :: 0 <= i < |s.pcs| ==> !s.pcs[i].Broken?)
  {
    hide Count;
    NobodyCounts(Init(parties).pcs);
    RunKeeps(Init(parties), choices);
  }

  /** An active party can always take a step: a sleeper never waits for a party that is stuck. */
  lemma ActiveCanGo(s: State, i: nat) returns (e: Event)
    requires Invariant(s) && i < |s.pcs| && Active(s.pcs[i])
    ensures Enabled(s, i, e)
  {
    if s.list == {} {
      e := Go(0, false);
    } else {
      var pick :| pick in s.list;
      e := Go(pick, false);
    }
  }

  /** When nobody has anything left to do, nobody sleeps. */
  lemma NobodyLeftAsleep(parties: nat, choices: seq<Choice>)
    requires IsRun(Init(parties), choices)
    requires forall i :: 0 <= i < |End(Init(parties), choices).pcs| ==>
               End(Init(parties), choices).pcs[i].Idle? || End(Init(parties), choices).pcs[i].Asleep?
    ensures forall i :: 0 <= i < |End(Init(parties), choices).pcs| ==> End(Init(parties), choices).pcs[i].Idle?
  {
    hide Count, Apply, Enabled;
    NobodyCounts(Init(parties).pcs);
    RunKeeps(Init(parties), choices);
  }

  // ----- Every sleeper can get the lock -----

  lemma OneMoreStep(s: State, i: nat, e: Event, more: seq<Choice>)
    requires Enabled(s, i, e) && IsRun(Apply(s, i, e), more)
    ensures IsRun(s, [Choice(i, e)] + more) && End(s, [Choice(i, e)] + more) == End(Apply(s, i, e), more)
  {
    hide Apply, Enabled;
    assert ([Choice(i, e)] + more)[1..] == more;
  }

  lemma {:induction false} RunOn(s: State, a: seq<Choice>, b: seq<Choice>)
    requires IsRun(s, a) && IsRun(End(s, a), b)
    ensures IsRun(s, a + b) && End(s, a + b) == End(End(s, a), b)
    decreases |a|
  {
    hide Apply, Enabled;
    if a == [] {
      assert a + b == b;
    } else {
      RunOn(Apply(s, a[0].party, a[0].event), a[1..], b);
      assert (a + b)[1..] == a[1..] + b;
    }
  }

  /** How many steps a party is away from notifyFirst. */
  function StepsToNotify(pc: Pc): nat {
    match pc
    case GotMutex => 5
    case Holding => 4
    case Released => 3
    case Counted => 2
    case Notifying => 1
    case CheckNotify => 1
    case _ => 0
  }

  /** One step of a party on its way to notifyFirst, which takes z off the list when it gets there. */
  lemma NotifierStep(s: State, z: nat, a: nat)
    requires Invariant(s) && z < |s.pcs| && s.pcs[z].Asleep? && a < |s.pcs| && StepsToNotify(s.pcs[a]) > 0
    ensures Enabled(s, a, Go(z, false)) && Invariant(Apply(s, a, Go(z, false)))
    ensures var t := Apply(s, a, Go(z, false));
            && |t.pcs| == |s.pcs|
            && (StepsToNotify(s.pcs[a]) == 1 ==> t.pcs[z] == Trying(true))
            && (StepsToNotify(s.pcs[a]) > 1 ==>
                t.pcs[z].Asleep? && StepsToNotify(t.pcs[a]) == StepsToNotify(s.pcs[a]) - 1)
  {
    hide Count;
    StepKeeps(s, a, Go(z, false));
  }

  lemma {:induction false} NotifierWakes(s: State, z: nat, a: nat) returns (choices: seq<Choice>)
    requires Invariant(s) && z < |s.pcs| && s.pcs[z].Asleep? && a < |s.pcs| && StepsToNotify(s.pcs[a]) > 0
    ensures IsRun(s, choices) && z < |End(s, choices).pcs| && End(s, choices).pcs[z] == Trying(true)
    decreases StepsToNotify(s.pcs[a])
  {
    hide Invariant, Apply, Enabled;
    NotifierStep(s, z, a);
    var t := Apply(s, a, Go(z, false));
    var more := [];
    if StepsToNotify(s.pcs[a]) > 1 {
      more := NotifierWakes(t, z, a);
    }
    OneMoreStep(s, a, Go(z, false), more);
    choices := [Choice(a, Go(z, false))] + more;
  }

  /** Somebody is on the way to notifyFirst already, or owns the mutex and will be, or has counted and will be. */
  lemma SomeNotifier(s: State) returns (a: nat)
    requires Invariant(s) && (s.owner != -1 || s.counter > 0)
    ensures a < |s.pcs| && StepsToNotify(s.pcs[a]) > 0
  {
    if s.owner != -1 {
      a := s.owner;
    } else {
      a := SomebodyCounts(s.pcs);
    }
  }

  /** What a step of an active party that is not on the way to notifyFirst leads to, when nobody else is on the way. */
  lemma WakerStep(s: State, z: nat, a: nat)
    requires Invariant(s) && z < |s.pcs| && s.pcs[z].Asleep? && a < |s.pcs| && Active(s.pcs[a])
    requires StepsToNotify(s.pcs[a]) == 0 && s.owner == -1 && s.counter == 0
    ensures Enabled(s, a, Go(z, false)) && Invariant(Apply(s, a, Go(z, false)))
    ensures var t := Apply(s, a, Go(z, false));
            && |t.pcs| == |s.pcs| && t.pcs[z].Asleep?
            && if s.pcs[a].TryFailed? then t.pcs[a] == Trying(true) && t.owner == -1 && t.counter == 0
               else StepsToNotify(t.pcs[a]) > 0
  {
    hide Count;
    StepKeeps(s, a, Go(z, false));
  }

  /** Some run takes the sleeper z off the list. */
  lemma {:induction false} Wakes(s: State, z: nat, a: nat) returns (choices: seq<Choice>)
    requires Invariant(s) && z < |s.pcs| && s.pcs[z].Asleep? && a < |s.pcs| && Active(s.pcs[a])
    ensures IsRun(s, choices) && z < |End(s, choices).pcs| && End(s, choices).pcs[z] == Trying(true)
    decreases if s.pcs[a].TryFailed? then 1 else 0
  {
    hide Invariant, Apply, Enabled;
    if StepsToNotify(s.pcs[a]) > 0 {
      choices := NotifierWakes(s, z, a);
    } else if s.owner != -1 || s.counter > 0 {
      var b := SomeNotifier(s);
      choices := NotifierWakes(s, z, b);
    } else {
      CounterIsNat(s);
      WakerStep(s, z, a);
      var t := Apply(s, a, Go(z, false));
      var more: seq<Choice>;
      if s.pcs[a].TryFailed? {
        more := Wakes(t, z, a);
      } else {
        more := NotifierWakes(t, z, a);
      }
      OneMoreStep(s, a, Go(z, false), more);
      choices := [Choice(a, Go(z, false))] + more;
    }
  }

  lemma CounterIsNat(s: State)
    requires Invariant(s)
    ensures s.counter >= 0
  {
  }

  /** How far the owner of the mutex is from releasing it. */
  function StepsToFree(s: State): nat {
    if 0 <= s.owner < |s.pcs| then (if s.pcs[s.owner].GotMutex? then 2 else 1) else 0
  }

  /** A step of the owner of the mutex, or, when it is free, the step in which the party z takes it. */
  lemma OwnerStep(s: State, z: nat) returns (e: Event, a: nat)
    requires Invariant(s) && z < |s.pcs| && (s.pcs[z].Trying? || s.pcs[z].Blocking?)
    ensures a == (if s.owner == -1 then z else s.owner) && Enabled(s, a, e) && Invariant(Apply(s, a, e))
    ensures var t := Apply(s, a, e);
            && |t.pcs| == |s.pcs|
            && if s.owner == -1 then t.pcs[z].GotMutex? && t.owner == z
               else t.pcs[z] == s.pcs[z] && StepsToFree(t) < StepsToFree(s)
  {
    hide Count;
    a := if s.owner == -1 then z else s.owner;
    e := AnyPick(s, a);
    StepKeeps(s, a, e);
  }

  /** A party that is not idle, asleep or broken can go on, and one that is blocked if the mutex is free. */
  lemma AnyPick(s: State, i: nat) returns (e: Event)
    requires Invariant(s) && i < |s.pcs|
    requires !s.pcs[i].Idle? && !s.pcs[i].Asleep? && !s.pcs[i].Broken? && (s.pcs[i].Blocking? ==> s.owner == -1)
    ensures e.Go? && !e.spurious && Enabled(s, i, e)
  {
    if s.list == {} {
      e := Go(0, false);
    } else {
      var pick :| pick in s.list;
      e := Go(pick, false);
    }
  }

  lemma CountStep(s: State, z: nat) returns (e: Event)
    requires Invariant(s) && z < |s.pcs| && s.pcs[z].GotMutex?
    ensures Enabled(s, z, e) && z < |Apply(s, z, e).pcs| && Apply(s, z, e).pcs[z].Holding?
  {
    e := AnyPick(s, z);
  }

  /** Some run lets a coroutine that tries, or a thread that is blocked, get the lock. */
  lemma {:induction false} GetsLock(s: State, z: nat) returns (choices: seq<Choice>)
    requires Invariant(s) && z < |s.pcs| && (s.pcs[z].Trying? || s.pcs[z].Blocking?)
    ensures IsRun(s, choices) && z < |End(s, choices).pcs| && End(s, choices).pcs[z].Holding?
    decreases StepsToFree(s)
  {
    hide Invariant, Apply, Enabled, StepsToFree;
    var e, a := OwnerStep(s, z);
    var t := Apply(s, a, e);
    var more: seq<Choice>;
    if s.owner == -1 {
      var f := CountStep(t, z);
      OneMoreStep(t, z, f, []);
      more := [Choice(z, f)] + [];
    } else {
      more := GetsLock(t, z);
    }
    OneMoreStep(s, a, e, more);
    choices := [Choice(a, e)] + more;
  }

  /** At the end of the run the party z has the lock. */
  ghost predicate Gets(s: State, choices: seq<Choice>, z: nat)
    requires IsRun(s, choices)
  {
    z < |End(s, choices).pcs| && End(s, choices).pcs[z].Holding?
  }

  /** Somebody wakes the sleeper, and it gets the lock. */
  lemma SleeperGets(s: State, z: nat) returns (choices: seq<Choice>)
    requires Invariant(s) && z < |s.pcs| && s.pcs[z].Asleep?
    ensures IsRun(s, choices) && Gets(s, choices, z)
  {
    hide Apply, Enabled, Count, IsRun, Active;
    var a: nat :| a < |s.pcs| && Active(s.pcs[a]);
    var first := Wakes(s, z, a);
    RunKeeps(s, first);
    var second := GetsLock(End(s, first), z);
    RunOn(s, first, second);
    choices := first + second;
  }

  /** From every reachable state, for every sleeper, some run lets just that sleeper get the lock. */
  lemma SleeperCanGetLock(parties: nat, choices: seq<Choice>, z: nat)
    requires IsRun(Init(parties), choices)
    requires z < |End(Init(parties), choices).pcs| && End(Init(parties), choices).pcs[z].Asleep?
    ensures exists more :: IsRun(End(Init(parties), choices), more) && Gets(End(Init(parties), choices), more, z)
  {
    hide Apply, Enabled, Count, IsRun, Active;
    NobodyCounts(Init(parties).pcs);
    RunKeeps(Init(parties), choices);
    var more := SleeperGets(End(Init(parties), choices), z);
    assert Gets(End(Init(parties), choices), more, z);
  }
}
