/** What comes of the parties of a condition variable: waiters finish only when the condition is true, can finish when
    it was announced, and sleep until then; and what setting the condition and each notification do. */
module ConditionProgress {
  import opened ConditionVariableProtocol

  // ----- Runs -----

  lemma NoSteps(s: State)
    ensures IsRun(s, []) && End(s, []) == s
  {
  }

  lemma OneMoreStep(s: State, i: nat, e: Event, more: seq<Choice>)
    requires Enabled(s, i, e) && IsRun(Apply(s, i, e), more)
    ensures IsRun(s, [Choice(i, e)] + more) && End(s, [Choice(i, e)] + more) == End(Apply(s, i, e), more)
  {
    hide Apply, Enabled;
    assert ([Choice(i, e)] + more)[1..] == more;
  }

  // ----- Waiters finish only when the condition is true -----

  predicate SatisfiedRightly(s: State) {
    forall i :: 0 <= i < |s.pcs| && s.pcs[i].Satisfied? ==> s.condition
  }

  /** What a step leaves of the others: it can only wake them. */
  lemma OthersLeave(s: State, i: nat, e: Event, j: nat)
    requires Enabled(s, i, e) && i != j && j < |s.pcs|
    ensures |Apply(s, i, e).pcs| == |s.pcs|
    ensures var pc := Apply(s, i, e).pcs[j]; pc == s.pcs[j] || (s.pcs[j].Asleep? && pc == Locking)
  {
    hide OwnsLock, TakesLock, Pending;
    if IsPlain(s.pcs[i], e) {
      hide Apply;
      PlainShape(s, i, e);
    } else {
      hide Shaped;
      ListStepLeaves(s, i, e, j);
    }
  }

  lemma ListStepLeaves(s: State, i: nat, e: Event, j: nat)
    requires Enabled(s, i, e) && i != j && j < |s.pcs| && !IsPlain(s.pcs[i], e)
    ensures |Apply(s, i, e).pcs| == |s.pcs|
    ensures var pc := Apply(s, i, e).pcs[j]; pc == s.pcs[j] || (s.pcs[j].Asleep? && pc == Locking)
  {
    hide WakeFirst, TakesLock;
    WakeFirstLeaves(s, e.pick, j);
  }

  lemma WakeFirstLeaves(s: State, pick: nat, j: nat)
    requires (s.list != {} ==> pick < |s.pcs|) && j < |s.pcs|
    ensures |WakeFirst(s, pick).pcs| == |s.pcs|
    ensures var pc := WakeFirst(s, pick).pcs[j]; pc == s.pcs[j] || (s.pcs[j].Asleep? && pc == Locking)
    ensures WakeFirst(s, pick).condition == s.condition && WakeFirst(s, pick).settled == s.settled
  {
  }

  lemma OwnSatisfied(s: State, i: nat, e: Event)
    requires Enabled(s, i, e)
    ensures |Apply(s, i, e).pcs| == |s.pcs| && (s.condition ==> Apply(s, i, e).condition)
    ensures Apply(s, i, e).pcs[i].Satisfied? ==> Apply(s, i, e).condition
  {
    hide WakeFirst, TakesLock, Rest;
    if e.Go? {
      WakeFirstLeaves(s, e.pick, i);
      RestKeeps(s, i);
      RestKeeps(WakeFirst(s, e.pick), i);
    }
  }

  lemma RestKeeps(s: State, i: nat)
    requires i < |s.pcs|
    ensures |Rest(s, i).pcs| == |s.pcs| && Rest(s, i).condition == s.condition && !Rest(s, i).pcs[i].Satisfied?
  {
  }

  lemma StepSatisfies(s: State, i: nat, e: Event)
    requires Enabled(s, i, e) && SatisfiedRightly(s)
    ensures SatisfiedRightly(Apply(s, i, e))
  {
    hide Apply, Enabled;
    OwnSatisfied(s, i, e);
    forall j | 0 <= j < |s.pcs|
      ensures Apply(s, i, e).pcs[j].Satisfied? ==> Apply(s, i, e).condition
    {
      if j != i {
        OthersLeave(s, i, e, j);
      }
    }
  }

  lemma {:induction false} RunSatisfies(s: State, choices: seq<Choice>)
    requires SatisfiedRightly(s) && IsRun(s, choices)
    ensures SatisfiedRightly(End(s, choices))
    decreases |choices|
  {
    hide SatisfiedRightly, Apply, Enabled;
    if choices != [] {
      StepSatisfies(s, choices[0].party, choices[0].event);
      RunSatisfies(Apply(s, choices[0].party, choices[0].event), choices[1..]);
    }
  }

  /** In every interleaving: a waiter whose wait is over owns the lock, and the condition is true. */
  lemma WaitMeansTrue(parties: nat, choices: seq<Choice>, z: nat)
    requires IsRun(Init(parties), choices)
    requires z < |End(Init(parties), choices).pcs| && End(Init(parties), choices).pcs[z].Satisfied?
    ensures End(Init(parties), choices).condition && End(Init(parties), choices).owner == z
  {
    hide Apply, Enabled, PendingChecks;
    RunSatisfies(Init(parties), choices);
    RunKeeps(Init(parties), choices);
  }

  // ----- Waiters can finish -----

  predicate Waits(pc: Pc) {
    || pc.Locking? || pc.Evaluating? || pc.SawFalse? || pc.Unlocking? || pc.WillSleep?
    || pc.Checking? || pc.CheckNotify? || pc.Asleep? || pc.Satisfied?
  }

  /** The condition was announced by a notifyAll that followed it. */
  ghost predicate Settled(s: State) {
    Invariant(s) && s.settled
  }

  lemma SettledStep(s: State, i: nat, e: Event)
    requires Settled(s) && Enabled(s, i, e)
    ensures Settled(Apply(s, i, e)) && |Apply(s, i, e).pcs| == |s.pcs|
  {
    hide Invariant, Apply, Enabled;
    StepKeeps(s, i, e);
    SettledStays(s, i, e);
  }

  lemma SettledStays(s: State, i: nat, e: Event)
    requires Enabled(s, i, e)
    ensures s.settled ==> Apply(s, i, e).settled
    ensures |Apply(s, i, e).pcs| == |s.pcs|
  {
    hide WakeFirst;
    if e.Go? {
      WakeFirstLeaves(s, e.pick, i);
    }
  }

  /** How far the owner of the lock is from releasing it. */
  function StepsToFree(s: State): nat {
    if 0 <= s.owner < |s.pcs| then
      match s.pcs[s.owner]
      case Evaluating => 3
      case SawFalse => 2
      case Setting => 2
      case _ => 1
    else 0
  }

  lemma AnyPick(s: State, i: nat) returns (e: Event)
    requires Settled(s) && i < |s.pcs| && !s.pcs[i].Idle? && !s.pcs[i].Asleep?
    requires TakesLock(s.pcs[i]) ==> s.owner == -1
    ensures e.Go? && Enabled(s, i, e)
  {
    if s.list == {} {
      e := Go(0);
    } else {
      var pick :| pick in s.list;
      e := Go(pick);
    }
  }

  /** A step of the owner of the lock; or the waiter takes the lock. */
  lemma OwnerStep(s: State, z: nat) returns (e: Event, a: nat)
    requires Settled(s) && z < |s.pcs| && s.pcs[z].Locking?
    ensures a == (if s.owner == -1 then z else s.owner) && Enabled(s, a, e)
    ensures var t := Apply(s, a, e);
            && z < |t.pcs|
            && if s.owner == -1 then t.pcs[z].Evaluating?
               else t.pcs[z].Locking? && StepsToFree(t) < StepsToFree(s)
  {
    hide PendingChecks, FlagRight;
    a := if s.owner == -1 then z else s.owner;
    e := AnyPick(s, a);
  }

  lemma {:induction false} LockedCanFinish(s: State, z: nat) returns (choices: seq<Choice>)
    requires Settled(s) && z < |s.pcs| && s.pcs[z].Locking?
    ensures IsRun(s, choices) && Finishes(s, choices, z)
    decreases StepsToFree(s)
  {
    hide Settled, Apply, Enabled, StepsToFree, IsRun, End;
    var e, a := OwnerStep(s, z);
    var t := Apply(s, a, e);
    SettledStep(s, a, e);
    var more: seq<Choice>;
    if s.owner == -1 {
      more := EvaluatingFinishes(t, z);
    } else {
      more := LockedCanFinish(t, z);
    }
    OneMoreStep(s, a, e, more);
    choices := [Choice(a, e)] + more;
  }

  lemma EvaluatingFinishes(s: State, z: nat) returns (choices: seq<Choice>)
    requires Settled(s) && z < |s.pcs| && s.pcs[z].Evaluating?
    ensures IsRun(s, choices) && Finishes(s, choices, z)
  {
    var e := AnyPick(s, z);
    NoSteps(Apply(s, z, e));
    OneMoreStep(s, z, e, []);
    choices := [Choice(z, e)] + [];
  }

  /** The end of the run finds the wait of z over. */
  ghost predicate Finishes(s: State, choices: seq<Choice>, z: nat)
    requires IsRun(s, choices)
  {
    z < |End(s, choices).pcs| && End(s, choices).pcs[z].Satisfied?
  }

  /** The steps a waiter takes by itself before it locks again. */
  function OwnSteps(pc: Pc): nat {
    match pc
    case Unlocking => 4
    case WillSleep => 3
    case Checking => 2
    case CheckNotify => 1
    case _ => 0
  }

  /** Nothing lets it sleep: it is on the list when its processor takes an entry off, and m_notified is true. */
  lemma OwnStep(s: State, z: nat) returns (e: Event)
    requires Settled(s) && z < |s.pcs| && OwnSteps(s.pcs[z]) > 0
    ensures Enabled(s, z, e) && z < |Apply(s, z, e).pcs|
    ensures var pc := Apply(s, z, e).pcs[z]; OwnSteps(pc) < OwnSteps(s.pcs[z]) && (OwnSteps(pc) > 0 || pc.Locking?)
  {
    hide Apply, Settled, Pending;
    e := PickSelf(s, z);
    if s.pcs[z].CheckNotify? {
      NotifyStep(s, z, e);
    } else {
      QuietStep(s, z, e);
    }
  }

  lemma PickSelf(s: State, z: nat) returns (e: Event)
    requires Settled(s) && z < |s.pcs| && OwnSteps(s.pcs[z]) > 0
    ensures e.Go? && Enabled(s, z, e) && s.notified && (z in s.list ==> e.pick == z)
  {
    hide PendingChecks;
    if z in s.list {
      e := Go(z);
    } else {
      e := AnyPick(s, z);
    }
  }

  lemma QuietStep(s: State, z: nat, e: Event)
    requires Enabled(s, z, e) && e.Go? && s.notified
    requires s.pcs[z].Unlocking? || s.pcs[z].WillSleep? || s.pcs[z].Checking?
    ensures z < |Apply(s, z, e).pcs| && 0 < OwnSteps(Apply(s, z, e).pcs[z]) < OwnSteps(s.pcs[z])
  {
  }

  lemma NotifyStep(s: State, z: nat, e: Event)
    requires Enabled(s, z, e) && e.Go? && s.pcs[z].CheckNotify? && (z in s.list ==> e.pick == z)
    ensures z < |Apply(s, z, e).pcs| && Apply(s, z, e).pcs[z].Locking?
  {
  }

  lemma {:induction false} SomebodyChecks(pcs: seq<Pc>) returns (a: nat)
    requires PendingChecks(pcs) > 0
    ensures a < |pcs| && Pending(pcs[a])
    decreases |pcs|
  {
    if Pending(pcs[0]) {
      a := 0;
    } else {
      var b := SomebodyChecks(pcs[1..]);
      a := b + 1;
    }
  }

  /** A processor that checks after an insertion takes the sleeper z off the list, after one step if it has not read
      m_notified yet. */
  lemma CheckerStep(s: State, z: nat, a: nat)
    requires Settled(s) && z < |s.pcs| && s.pcs[z].Asleep? && a < |s.pcs| && Pending(s.pcs[a])
    ensures Enabled(s, a, Go(z))
    ensures var t := Apply(s, a, Go(z));
            && |t.pcs| == |s.pcs|
            && if s.pcs[a].Checking? then t.pcs[z].Asleep? && t.pcs[a].CheckNotify? else t.pcs[z].Locking?
  {
    hide PendingChecks;
  }

  lemma {:induction false} SleeperCanFinish(s: State, z: nat, a: nat) returns (choices: seq<Choice>)
    requires Settled(s) && z < |s.pcs| && s.pcs[z].Asleep? && a < |s.pcs| && Pending(s.pcs[a])
    ensures IsRun(s, choices) && Finishes(s, choices, z)
    decreases if s.pcs[a].Checking? then 1 else 0
  {
    hide Settled, Apply, Enabled, IsRun, End;
    CheckerStep(s, z, a);
    SettledStep(s, a, Go(z));
    var t := Apply(s, a, Go(z));
    var more: seq<Choice>;
    if s.pcs[a].Checking? {
      more := SleeperCanFinish(t, z, a);
    } else {
      more := LockedCanFinish(t, z);
    }
    OneMoreStep(s, a, Go(z), more);
    choices := [Choice(a, Go(z))] + more;
  }

  lemma SleeperIsPending(s: State, z: nat)
    requires Settled(s) && z < |s.pcs| && s.pcs[z].Asleep?
    ensures PendingChecks(s.pcs) > 0
  {
    hide PendingChecks;
    assert z in s.list;
  }

  lemma NotSawFalse(s: State, z: nat)
    requires Settled(s) && z < |s.pcs|
    ensures !s.pcs[z].SawFalse?
  {
  }

  lemma {:induction false} CanFinish(s: State, z: nat) returns (choices: seq<Choice>)
    requires Settled(s) && z < |s.pcs| && Waits(s.pcs[z])
    ensures IsRun(s, choices) && Finishes(s, choices, z)
    decreases OwnSteps(s.pcs[z])
  {
    hide Settled, Apply, Enabled, IsRun, End, PendingChecks, Pending;
    NotSawFalse(s, z);
    if OwnSteps(s.pcs[z]) > 0 {
      var e := OwnStep(s, z);
      SettledStep(s, z, e);
      var more := CanFinish(Apply(s, z, e), z);
      OneMoreStep(s, z, e, more);
      choices := [Choice(z, e)] + more;
    } else if s.pcs[z].Asleep? {
      SleeperIsPending(s, z);
      var a := SomebodyChecks(s.pcs);
      choices := SleeperCanFinish(s, z, a);
    } else if s.pcs[z].Locking? {
      choices := LockedCanFinish(s, z);
    } else if s.pcs[z].Evaluating? {
      choices := EvaluatingFinishes(s, z);
    } else {
      NoSteps(s);
      choices := [];
    }
  }

  /** After a notifyAll that follows the setting of the condition: from every reachable state, for every waiter, awake
      or asleep, some run ends its wait. */
  lemma WaiterCanFinish(parties: nat, choices: seq<Choice>, z: nat)
    requires IsRun(Init(parties), choices) && End(Init(parties), choices).settled
    requires z < |End(Init(parties), choices).pcs| && Waits(End(Init(parties), choices).pcs[z])
    ensures exists more :: IsRun(End(Init(parties), choices), more) && Finishes(End(Init(parties), choices), more, z)
  {
    hide Apply, Enabled, IsRun, Finishes, Invariant;
    InitHolds(parties);
    RunKeeps(Init(parties), choices);
    var more := CanFinish(End(Init(parties), choices), z);
    assert Finishes(End(Init(parties), choices), more, z);
  }

  lemma InitHolds(parties: nat)
    ensures Invariant(Init(parties))
  {
    hide PendingChecks;
  }

  // ----- A party on its own -----

  lemma PickInside(s: State, pick: nat)
    requires Invariant(s)
    ensures pick in s.list ==> pick < |s.pcs|
  {
    hide PendingChecks;
  }

  /** The lock is free: the condition is set and the lock is free again after these steps; nothing else has changed. */
  lemma Sets(s: State, i: nat, pick: nat)
    requires Invariant(s) && i < |s.pcs| && s.pcs[i].Idle? && s.owner == -1 && (s.list != {} ==> pick in s.list)
    ensures var go := Choice(i, Go(pick));
            var choices := [Choice(i, Set)] + ([go] + ([go] + ([go] + [])));
            IsRun(s, choices) && End(s, choices) == s.(condition := true)
  {
    hide PendingChecks, Invariant, WakeAll, WakeFirst, Rest;
    PickInside(s, pick);
    var go := Go(pick);
    var a := Apply(s, i, Set);
    var b := Apply(a, i, go);
    var c := Apply(b, i, go);
    var d := Apply(c, i, go);
    NoSteps(d);
    OneMoreStep(c, i, go, []);
    OneMoreStep(b, i, go, [Choice(i, go)] + []);
    OneMoreStep(a, i, go, [Choice(i, go)] + ([Choice(i, go)] + []));
    OneMoreStep(s, i, Set, [Choice(i, go)] + ([Choice(i, go)] + ([Choice(i, go)] + [])));
    assert d.pcs == s.pcs;
  }

  /** The condition is true and the lock is free: a wait is over after these steps, with the lock; one more gives the
      lock back. */
  lemma WaitsNot(s: State, i: nat, pick: nat)
    requires Invariant(s) && i < |s.pcs| && s.pcs[i].Idle? && s.owner == -1 && s.condition
    requires s.list != {} ==> pick in s.list
    ensures var go := Choice(i, Go(pick));
            var choices := [Choice(i, Wait)] + ([go] + ([go] + []));
            && IsRun(s, choices) && End(s, choices) == s.(pcs := s.pcs[i := Satisfied], owner := i)
            && Enabled(End(s, choices), i, Go(pick)) && Apply(End(s, choices), i, Go(pick)) == s
  {
    hide PendingChecks, Invariant, WakeAll, WakeFirst, Rest;
    PickInside(s, pick);
    var go := Go(pick);
    var a := Apply(s, i, Wait);
    var b := Apply(a, i, go);
    var c := Apply(b, i, go);
    NoSteps(c);
    OneMoreStep(b, i, go, []);
    OneMoreStep(a, i, go, [Choice(i, go)] + []);
    OneMoreStep(s, i, Wait, [Choice(i, go)] + ([Choice(i, go)] + []));
    assert c.pcs == s.pcs[i := Satisfied];
    assert Apply(c, i, go).pcs == s.pcs;
  }

  /** The condition is false and the lock is free: a waiter is asleep on the list after these steps, the lock is free
      again and m_notified is false. */
  lemma FallsAsleep(s: State, i: nat, pick: nat)
    requires Invariant(s) && i < |s.pcs| && s.pcs[i].Idle? && s.owner == -1 && !s.condition
    requires s.list != {} ==> pick in s.list
    ensures var go := Choice(i, Go(pick));
            var at := Choice(i, Go(i));
            var choices := [Choice(i, Wait)] + ([go] + ([go] + ([go] + ([go] + ([go] + ([at] + []))))));
            && IsRun(s, choices)
            && End(s, choices) == s.(pcs := s.pcs[i := Asleep], list := s.list + {i}, notified := false)
  {
    hide PendingChecks, Invariant, WakeAll, WakeFirst, Rest;
    PickInside(s, pick);
    var go, at := Go(pick), Go(i);
    FallsFurther(s.(pcs := s.pcs[i := Unlocking], owner := i, notified := false), i, pick);
    var a := Apply(s, i, Wait);
    var b := Apply(a, i, go);
    var c := Apply(b, i, go);
    var d := Apply(c, i, go);
    assert d.pcs == s.pcs[i := Unlocking];
    var rest := [Choice(i, go)] + ([Choice(i, go)] + ([Choice(i, at)] + []));
    OneMoreStep(c, i, go, rest);
    OneMoreStep(b, i, go, [Choice(i, go)] + rest);
    OneMoreStep(a, i, go, [Choice(i, go)] + ([Choice(i, go)] + rest));
    OneMoreStep(s, i, Wait, [Choice(i, go)] + ([Choice(i, go)] + ([Choice(i, go)] + rest)));
    assert s.pcs[i := Unlocking][i := Asleep] == s.pcs[i := Asleep];
  }

  lemma FallsFurther(s: State, i: nat, pick: nat)
    requires i < |s.pcs| && s.pcs[i].Unlocking? && !s.notified && (s.list != {} ==> pick in s.list && pick < |s.pcs|)
    ensures var go := Choice(i, Go(pick));
            var at := Choice(i, Go(i));
            var choices := [go] + ([go] + ([at] + []));
            && IsRun(s, choices)
            && End(s, choices) == s.(pcs := s.pcs[i := Asleep], owner := -1, list := s.list + {i})
  {
    var go, at := Go(pick), Go(i);
    var a := Apply(s, i, go);
    var b := Apply(a, i, go);
    var c := Apply(b, i, at);
    NoSteps(c);
    OneMoreStep(b, i, at, []);
    OneMoreStep(a, i, go, [Choice(i, at)] + []);
    OneMoreStep(s, i, go, [Choice(i, go)] + ([Choice(i, at)] + []));
    assert c.pcs == s.pcs[i := Asleep];
  }

  /** notifyFirst takes the entry it picks off the list, if there is one: the party locks again, at once if it was
      asleep. Nobody else is taken off. */
  lemma NotifiesFirst(s: State, i: nat, pick: nat)
    requires Invariant(s) && i < |s.pcs| && s.pcs[i].Idle? && (s.list != {} ==> pick in s.list)
    ensures var go := Choice(i, Go(pick));
            var choices := [Choice(i, NotifyFirst)] + ([go] + ([go] + []));
            && IsRun(s, choices)
            && (s.list == {} ==> End(s, choices) == s.(notified := true))
            && (s.list != {} ==>
                  End(s, choices)
                  == s.(notified := true, list := s.list - {pick},
                        pcs := if s.pcs[pick].Asleep? then s.pcs[pick := Locking] else s.pcs))
  {
    hide PendingChecks, WakeAll, Rest, Invariant;
    PickInside(s, pick);
    var go := Go(pick);
    var a := Apply(s, i, NotifyFirst);
    var b := Apply(a, i, go);
    var c := Apply(b, i, go);
    NoSteps(c);
    OneMoreStep(b, i, go, []);
    OneMoreStep(a, i, go, [Choice(i, go)] + []);
    OneMoreStep(s, i, NotifyFirst, [Choice(i, go)] + ([Choice(i, go)] + []));
    assert c.pcs == if s.list != {} && s.pcs[pick].Asleep? then s.pcs[pick := Locking] else s.pcs;
  }

  lemma WakesAll(s: State)
    ensures var t := WakeAll(s);
            && t == s.(list := {}, pcs := t.pcs) && |t.pcs| == |s.pcs|
            && forall j :: 0 <= j < |s.pcs| ==> t.pcs[j] == if s.pcs[j].Asleep? then Locking else s.pcs[j]
  {
  }

  /** notifyAll empties the list, and all sleepers lock again. */
  lemma NotifiesAll(s: State, i: nat, pick: nat)
    requires Invariant(s) && i < |s.pcs| && s.pcs[i].Idle? && (s.list != {} ==> pick in s.list)
    ensures var go := Choice(i, Go(pick));
            var choices := [Choice(i, NotifyAll)] + ([go] + ([go] + []));
            && IsRun(s, choices)
            && var t := End(s, choices);
            && t == s.(notified := true, list := {}, settled := s.settled || s.condition, pcs := t.pcs)
            && |t.pcs| == |s.pcs|
            && forall j :: 0 <= j < |s.pcs| ==> t.pcs[j] == if s.pcs[j].Asleep? then Locking else s.pcs[j]
  {
    hide PendingChecks, WakeAll, WakeFirst, Invariant;
    PickInside(s, pick);
    var go := Go(pick);
    var a := Apply(s, i, NotifyAll);
    var b := Apply(a, i, go);
    var c := Apply(b, i, go);
    WakesAll(b);
    NoSteps(c);
    OneMoreStep(b, i, go, []);
    OneMoreStep(a, i, go, [Choice(i, go)] + []);
    OneMoreStep(s, i, NotifyAll, [Choice(i, go)] + ([Choice(i, go)] + []));
  }
}
