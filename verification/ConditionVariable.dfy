/** src/oatpp/async/ConditionVariable.cpp: waiters that share one condition, parties that set it under the lock, and
    notifications, as a state machine. The lock itself is a mutex here. */
module ConditionVariableProtocol {

  datatype Pc =
    | Idle
    // WaitCoroutine
    | Locking                   // in lockAsyncInline
    | Evaluating                // onLocked: owns the lock, about to call m_condition()
    | SawFalse                  // owns the lock, about to set m_notified = false
    | Unlocking                 // owns the lock, about to unlock it and to ask for the wait list
    | WillSleep                 // its action is on the way to m_list.add()
    | Checking                  // inserted; in onNewItem, about to read m_notified
    | CheckNotify               // in onNewItem, about to call m_list.notifyFirst()
    | Asleep
    | Satisfied                 // finished; still owns the lock
    // a party that makes the condition true
    | SetterLocking
    | Setting                   // owns the lock, about to change what the condition looks at
    | SetterUnlocking           // owns the lock
    // notifyFirst and notifyAll
    | FirstFlag                 // about to set m_notified = true
    | FirstList                 // about to call m_list.notifyFirst()
    | AllFlag                   // about to set m_notified = true
    | AllList(following: bool)  // about to call m_list.notifyAll(); following: the condition was true when it began

  /** settled: a notifyAll that began after the condition was set has returned. */
  datatype State = State(pcs: seq<Pc>, owner: int, condition: bool, notified: bool, list: set<nat>, settled: bool)

  datatype Event = Wait | Set | NotifyFirst | NotifyAll | Go(pick: nat)

  predicate OwnsLock(pc: Pc) {
    pc.Evaluating? || pc.SawFalse? || pc.Unlocking? || pc.Satisfied? || pc.Setting? || pc.SetterUnlocking?
  }

  predicate TakesLock(pc: Pc) {
    pc.Locking? || pc.SetterLocking?
  }

  /** Insertions whose onNewItem has not returned. */
  predicate Pending(pc: Pc) {
    pc.Checking? || pc.CheckNotify?
  }

  function PendingChecks(pcs: seq<Pc>): (n: nat) {
    if pcs == [] then 0 else (if Pending(pcs[0]) then 1 else 0) + PendingChecks(pcs[1..])
  }

  predicate Enabled(s: State, i: nat, e: Event) {
    && i < |s.pcs|
    && match e
       case Go(pick) =>
         && !s.pcs[i].Idle? && !s.pcs[i].Asleep?
         && (TakesLock(s.pcs[i]) ==> s.owner == -1)
         && (s.list != {} ==> pick in s.list && pick < |s.pcs|)
       case _ => s.pcs[i].Idle?
  }

  function Move(s: State, i: nat, pc: Pc): State
    requires i < |s.pcs|
  {
    s.(pcs := s.pcs[i := pc])
  }

  /** Takes one entry off the list. */
  function WakeFirst(s: State, pick: nat): State
    requires s.list != {} ==> pick < |s.pcs|
  {
    if s.list == {} then s
    else
      var t := s.(list := s.list - {pick});
      if s.pcs[pick].Asleep? then Move(t, pick, Locking) else t
  }

  /** Takes all entries off the list, in one mutex section. */
  function WakeAll(s: State): State {
    s.(list := {}, pcs := seq(|s.pcs|, i requires 0 <= i < |s.pcs| => if s.pcs[i].Asleep? then Locking else s.pcs[i]))
  }

  function Rest(s: State, i: nat): State
    requires i < |s.pcs|
  {
    Move(s, i, if i in s.list then Asleep else Locking)
  }

  function Apply(s: State, i: nat, e: Event): State
    requires Enabled(s, i, e)
  {
    match e
    case Wait => Move(s, i, Locking)
    case Set => Move(s, i, SetterLocking)
    case NotifyFirst => Move(s, i, FirstFlag)
    case NotifyAll => Move(s, i, AllFlag)
    case Go(pick) =>
      match s.pcs[i]
      case Locking => Move(s, i, Evaluating).(owner := i)
      case Evaluating => Move(s, i, if s.condition then Satisfied else SawFalse)
      case SawFalse => Move(s, i, Unlocking).(notified := false)
      case Unlocking => Move(s, i, WillSleep).(owner := -1)
      case WillSleep => Move(s, i, Checking).(list := s.list + {i})
      case Checking => if s.notified then Move(s, i, CheckNotify) else Rest(s, i)
      case CheckNotify => Rest(WakeFirst(s, pick), i)
      case Satisfied => Move(s, i, Idle).(owner := -1)
      case SetterLocking => Move(s, i, Setting).(owner := i)
      case Setting => Move(s, i, SetterUnlocking).(condition := true)
      case SetterUnlocking => Move(s, i, Idle).(owner := -1)
      case FirstFlag => Move(s, i, FirstList).(notified := true)
      case FirstList => Move(WakeFirst(s, pick), i, Idle)
      case AllFlag => Move(s, i, AllList(s.condition)).(notified := true)
      case AllList(following) => Move(WakeAll(s), i, Idle).(settled := s.settled || following)
      case _ => s
  }

  function Init(parties: nat): State {
    State(seq(parties, _ => Idle), -1, false, false, {}, false)
  }

  datatype Choice = Choice(party: nat, event: Event)

  ghost predicate IsRun(s: State, choices: seq<Choice>)
    decreases |choices|
  {
    choices == [] || (Enabled(s, choices[0].party, choices[0].event)
                      && IsRun(Apply(s, choices[0].party, choices[0].event), choices[1..]))
  }

  function End(s: State, choices: seq<Choice>): State
    requires IsRun(s, choices)
    decreases |choices|
  {
    if choices == [] then s else End(Apply(s, choices[0].party, choices[0].event), choices[1..])
  }

  // ----- The invariant -----

  ghost predicate LockRight(s: State) {
    && (s.owner == -1 || 0 <= s.owner < |s.pcs|)
    && forall i :: 0 <= i < |s.pcs| ==> (OwnsLock(s.pcs[i]) <==> s.owner == i)
  }

  ghost predicate ListRight(s: State) {
    && (forall i :: i in s.list ==> i < |s.pcs|)
    && forall i :: 0 <= i < |s.pcs| ==>
         && (s.pcs[i].Asleep? ==> i in s.list)
         && (i in s.list ==> s.pcs[i].Asleep? || Pending(s.pcs[i]))
  }

  /** Once the condition is true no waiter is left that saw it false and has not cleared m_notified yet; and from a
      following notifyAll on, m_notified stays true. */
  ghost predicate FlagRight(s: State) {
    && (s.condition ==> NoneSawFalse(s.pcs))
    && (s.settled || SomeFollows(s.pcs) ==> s.condition && s.notified)
  }

  predicate NoneSawFalse(pcs: seq<Pc>) {
    forall i :: 0 <= i < |pcs| ==> !pcs[i].SawFalse?
  }

  predicate SomeFollows(pcs: seq<Pc>) {
    exists i :: 0 <= i < |pcs| && pcs[i].AllList? && pcs[i].following
  }

  ghost predicate Invariant(s: State) {
    && LockRight(s) && ListRight(s) && FlagRight(s)
    && (s.settled ==> |s.list| <= PendingChecks(s.pcs))
  }

  lemma {:induction false} PendingMove(pcs: seq<Pc>, i: nat, pc: Pc)
    requires i < |pcs|
    ensures PendingChecks(pcs[i := pc])
            == PendingChecks(pcs) - (if Pending(pcs[i]) then 1 else 0) + (if Pending(pc) then 1 else 0)
    ensures Pending(pcs[i]) ==> PendingChecks(pcs) > 0
    decreases |pcs|
  {
    hide Pending;
    var q := pcs[i := pc];
    if i == 0 {
      assert q[1..] == pcs[1..];
    } else {
      assert q[1..] == pcs[1..][i - 1 := pc];
      PendingMove(pcs[1..], i - 1, pc);
    }
  }

  /** Steps that leave the list alone and are not part of onNewItem. */
  predicate IsPlain(pc: Pc, e: Event) {
    !e.Go? || !(pc.WillSleep? || pc.Checking? || pc.CheckNotify? || pc.FirstList? || pc.AllList?)
  }

  /** What a plain step changes. */
  ghost predicate Shaped(s: State, i: nat, t: State, took: bool)
    requires i < |s.pcs|
  {
    && |t.pcs| == |s.pcs| && t.pcs == s.pcs[i := t.pcs[i]] && t.list == s.list && t.settled == s.settled
    && !Pending(s.pcs[i]) && !Pending(t.pcs[i]) && !s.pcs[i].Asleep? && !t.pcs[i].Asleep?
    && (if took then s.owner == -1 && t.owner == i && OwnsLock(t.pcs[i])
        else if OwnsLock(s.pcs[i]) == OwnsLock(t.pcs[i]) then t.owner == s.owner
        else OwnsLock(s.pcs[i]) && t.owner == -1)
  }

  lemma StartShape(s: State, i: nat, e: Event)
    requires Enabled(s, i, e) && !e.Go?
    ensures Shaped(s, i, Apply(s, i, e), false)
  {
  }

  lemma WaiterShape(s: State, i: nat, e: Event)
    requires Enabled(s, i, e) && e.Go?
    requires s.pcs[i].Locking? || s.pcs[i].Evaluating? || s.pcs[i].SawFalse? || s.pcs[i].Unlocking?
             || s.pcs[i].Satisfied?
    ensures Shaped(s, i, Apply(s, i, e), TakesLock(s.pcs[i]))
  {
  }

  lemma SetterShape(s: State, i: nat, e: Event)
    requires Enabled(s, i, e) && e.Go? && IsPlain(s.pcs[i], e)
    requires !(s.pcs[i].Locking? || s.pcs[i].Evaluating? || s.pcs[i].SawFalse? || s.pcs[i].Unlocking?
               || s.pcs[i].Satisfied?)
    ensures Shaped(s, i, Apply(s, i, e), TakesLock(s.pcs[i]))
  {
  }

  lemma PlainShape(s: State, i: nat, e: Event)
    requires Enabled(s, i, e) && IsPlain(s.pcs[i], e)
    ensures Shaped(s, i, Apply(s, i, e), e.Go? && TakesLock(s.pcs[i]))
  {
    hide Apply, Shaped, OwnsLock, TakesLock, Pending;
    if !e.Go? {
      StartShape(s, i, e);
    } else if s.pcs[i].Locking? || s.pcs[i].Evaluating? || s.pcs[i].SawFalse? || s.pcs[i].Unlocking?
              || s.pcs[i].Satisfied? {
      WaiterShape(s, i, e);
    } else {
      SetterShape(s, i, e);
    }
  }

  lemma PlainKeepsLock(s: State, i: nat, e: Event)
    requires LockRight(s) && Enabled(s, i, e) && IsPlain(s.pcs[i], e)
    ensures LockRight(Apply(s, i, e))
  {
    hide Apply, OwnsLock, Enabled, IsPlain;
    PlainShape(s, i, e);
    EnabledInside(s, i, e);
  }

  lemma EnabledInside(s: State, i: nat, e: Event)
    requires Enabled(s, i, e)
    ensures i < |s.pcs|
  {
  }

  lemma PlainKeepsList(s: State, i: nat, e: Event)
    requires ListRight(s) && Enabled(s, i, e) && IsPlain(s.pcs[i], e)
    ensures ListRight(Apply(s, i, e))
  {
    hide Apply, Enabled, IsPlain, OwnsLock, TakesLock, Pending;
    PlainShape(s, i, e);
  }

  lemma PlainKeepsFlag(s: State, i: nat, e: Event)
    requires LockRight(s) && FlagRight(s) && Enabled(s, i, e) && IsPlain(s.pcs[i], e)
    ensures FlagRight(Apply(s, i, e))
  {
    hide NoneSawFalse, SomeFollows, Apply, Enabled, IsPlain, OwnsLock, TakesLock, Pending, LockRight;
    PlainKeepsSeen(s, i, e);
    PlainShape(s, i, e);
    PlainFollows(s, i, e);
    var t := Apply(s, i, e);
    if s.condition && s.notified {
      assert !s.pcs[i].SawFalse? by {
        NotSeen(s.pcs, i);
      }
      PlainKeepsSet(s, i, e);
    }
    MovedFollows(s.pcs, i, t.pcs[i]);
  }

  /** A waiter that saw the condition false owns the lock. */
  lemma PlainKeepsSeen(s: State, i: nat, e: Event)
    requires LockRight(s) && Enabled(s, i, e) && IsPlain(s.pcs[i], e) && (s.condition ==> NoneSawFalse(s.pcs))
    ensures var t := Apply(s, i, e); t.condition ==> NoneSawFalse(t.pcs)
  {
    if e.Go? && s.pcs[i].Setting? {
      assert s.owner == i;
      assert forall j :: 0 <= j < |s.pcs| && s.pcs[j].SawFalse? ==> OwnsLock(s.pcs[j]);
    }
  }

  lemma NotSeen(pcs: seq<Pc>, i: nat)
    requires NoneSawFalse(pcs) && i < |pcs|
    ensures !pcs[i].SawFalse?
  {
  }

  lemma PlainKeepsSet(s: State, i: nat, e: Event)
    requires Enabled(s, i, e) && IsPlain(s.pcs[i], e) && s.condition && s.notified && !s.pcs[i].SawFalse?
    ensures Apply(s, i, e).condition && Apply(s, i, e).notified
  {
    hide TakesLock, WakeFirst, WakeAll, Rest;
  }

  lemma PlainFollows(s: State, i: nat, e: Event)
    requires Enabled(s, i, e) && IsPlain(s.pcs[i], e)
    ensures var t := Apply(s, i, e);
            i < |t.pcs| && (t.pcs[i].AllList? && t.pcs[i].following ==> t.condition && t.notified)
  {
    hide Apply, TakesLock, WakeFirst, WakeAll, Rest;
    if !e.Go? {
      StartsNoList(s, i, e);
    } else if s.pcs[i].AllFlag? {
      FlagFollows(s, i, e);
    } else {
      GoesToNoList(s, i, e);
    }
  }

  lemma StartsNoList(s: State, i: nat, e: Event)
    requires Enabled(s, i, e) && !e.Go?
    ensures i < |Apply(s, i, e).pcs| && !Apply(s, i, e).pcs[i].AllList?
  {
  }

  lemma FlagFollows(s: State, i: nat, e: Event)
    requires Enabled(s, i, e) && e.Go? && s.pcs[i].AllFlag?
    ensures var t := Apply(s, i, e); i < |t.pcs| && t.pcs[i] == AllList(t.condition) && t.notified
  {
  }

  lemma GoesToNoList(s: State, i: nat, e: Event)
    requires Enabled(s, i, e) && e.Go? && IsPlain(s.pcs[i], e) && !s.pcs[i].AllFlag?
    ensures i < |Apply(s, i, e).pcs| && !Apply(s, i, e).pcs[i].AllList?
  {
    hide TakesLock, WakeFirst, WakeAll, Rest;
  }

  lemma MovedFollows(pcs: seq<Pc>, i: nat, pc: Pc)
    requires i < |pcs|
    ensures SomeFollows(pcs[i := pc]) ==> SomeFollows(pcs) || (pc.AllList? && pc.following)
  {
    var moved := pcs[i := pc];
    if SomeFollows(moved) {
      var j :| 0 <= j < |moved| && moved[j].AllList? && moved[j].following;
      assert j != i ==> pcs[j] == moved[j];
    }
  }

  lemma PlainKeeps(s: State, i: nat, e: Event)
    requires Invariant(s) && Enabled(s, i, e) && IsPlain(s.pcs[i], e)
    ensures Invariant(Apply(s, i, e))
  {
    hide PendingChecks, Apply, LockRight, ListRight, FlagRight;
    PlainShape(s, i, e);
    PlainKeepsLock(s, i, e);
    PlainKeepsList(s, i, e);
    PlainKeepsFlag(s, i, e);
    PendingMove(s.pcs, i, Apply(s, i, e).pcs[i]);
  }

  lemma InsertKeeps(s: State, i: nat, e: Event)
    requires Invariant(s) && Enabled(s, i, e) && e.Go? && s.pcs[i].WillSleep?
    ensures Invariant(Apply(s, i, e))
  {
    hide PendingChecks;
    PendingMove(s.pcs, i, Checking);
  }

  lemma CheckKeeps(s: State, i: nat, e: Event)
    requires Invariant(s) && Enabled(s, i, e) && e.Go? && s.pcs[i].Checking?
    ensures Invariant(Apply(s, i, e))
  {
    hide PendingChecks;
    PendingMove(s.pcs, i, Apply(s, i, e).pcs[i]);
  }

  /** One entry is taken off the list: nothing else that matters changes. */
  lemma WakeFirstKeeps(s: State, i: nat, pick: nat)
    requires Invariant(s) && i < |s.pcs| && !s.pcs[i].Asleep? && (s.list != {} ==> pick in s.list)
    ensures s.list != {} ==> pick < |s.pcs|
    ensures var t := WakeFirst(s, pick);
            && |t.pcs| == |s.pcs| && t.pcs[i] == s.pcs[i]
            && LockRight(t) && ListRight(t) && FlagRight(t) && t.settled == s.settled
            && PendingChecks(t.pcs) == PendingChecks(s.pcs)
            && |t.list| == if s.list == {} then 0 else |s.list| - 1
  {
    hide PendingChecks;
    if s.list != {} && s.pcs[pick].Asleep? {
      PendingMove(s.pcs, pick, Locking);
    }
  }

  lemma CheckNotifyKeeps(s: State, i: nat, e: Event)
    requires Invariant(s) && Enabled(s, i, e) && e.Go? && s.pcs[i].CheckNotify?
    ensures Invariant(Apply(s, i, e))
  {
    hide PendingChecks, WakeFirst;
    WakeFirstKeeps(s, i, e.pick);
    var t := WakeFirst(s, e.pick);
    PendingMove(t.pcs, i, if i in t.list then Asleep else Locking);
  }

  lemma FirstListKeeps(s: State, i: nat, e: Event)
    requires Invariant(s) && Enabled(s, i, e) && e.Go? && s.pcs[i].FirstList?
    ensures Invariant(Apply(s, i, e))
  {
    hide PendingChecks, WakeFirst;
    WakeFirstKeeps(s, i, e.pick);
    PendingMove(WakeFirst(s, e.pick).pcs, i, Idle);
  }

  lemma AllListKeeps(s: State, i: nat, e: Event)
    requires Invariant(s) && Enabled(s, i, e) && e.Go? && s.pcs[i].AllList?
    ensures Invariant(Apply(s, i, e))
  {
    hide PendingChecks;
    var t := Apply(s, i, e);
    assert forall j :: 0 <= j < |t.pcs| ==>
        t.pcs[j] == if j == i then Idle else if s.pcs[j].Asleep? then Locking else s.pcs[j];
  }

  lemma StepKeeps(s: State, i: nat, e: Event)
    requires Invariant(s) && Enabled(s, i, e)
    ensures Invariant(Apply(s, i, e))
  {
    hide Invariant, Apply;
    if IsPlain(s.pcs[i], e) {
      PlainKeeps(s, i, e);
    } else {
      match s.pcs[i]
      case WillSleep => InsertKeeps(s, i, e);
      case Checking => CheckKeeps(s, i, e);
      case CheckNotify => CheckNotifyKeeps(s, i, e);
      case FirstList => FirstListKeeps(s, i, e);
      case AllList(_) => AllListKeeps(s, i, e);
    }
  }

  lemma {:induction false} RunKeeps(s: State, choices: seq<Choice>)
    requires Invariant(s) && IsRun(s, choices)
    ensures Invariant(End(s, choices))
    decreases |choices|
  {
    hide Invariant, Apply, Enabled;
    if choices != [] {
      StepKeeps(s, choices[0].party, choices[0].event);
      RunKeeps(Apply(s, choices[0].party, choices[0].event), choices[1..]);
    }
  }

  function Sleepers(pcs: seq<Pc>): set<nat> {
    set i: nat | i < |pcs| && pcs[i].Asleep?
  }

  /** After a notifyAll that follows the setting of the condition, in every interleaving: m_notified stays true, there
      are never more sleepers than insertions whose check is pending, and when no check is pending nobody sleeps. */
  lemma NobodyOversleeps(parties: nat, choices: seq<Choice>)
    requires IsRun(Init(parties), choices) && End(Init(parties), choices).settled
    ensures var s := End(Init(parties), choices);
            && s.condition && s.notified
            && |Sleepers(s.pcs)| <= |s.list| <= PendingChecks(s.pcs)
            && (PendingChecks(s.pcs) == 0 ==> forall i :: 0 <= i < |s.pcs| ==> !s.pcs[i].Asleep?)
  {
    hide PendingChecks, Apply, Enabled;
    RunKeeps(Init(parties), choices);
    var s := End(Init(parties), choices);
    SmallerSet(Sleepers(s.pcs), s.list);
  }

  lemma {:induction false} SmallerSet(a: set<nat>, b: set<nat>)
    requires a <= b
    ensures |a| <= |b|
    decreases |a|
  {
    if a != {} {
      var x :| x in a;
      SmallerSet(a - {x}, b - {x});
    }
  }
}
