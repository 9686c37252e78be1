/** What comes of a request for the asynchronous lock: it is not given up, it can always be met, and a coroutine that
    finds the lock taken sleeps. */
module LockProgress {
  import opened LockProtocol

  /** The party has asked for the lock and has not got it yet. */
  predicate Asks(pc: Pc) {
    || pc.Blocking? || pc.Trying? || pc.GotMutex? || pc.TryFailed? || pc.WillSleep?
    || pc.Checking? || pc.CheckNotify? || pc.Asleep?
  }

  // ----- A request is not given up -----

  lemma RequestAsks(s: State, i: nat, e: Event)
    requires Enabled(s, i, e) && !e.Go?
    ensures i < |Apply(s, i, e).pcs| && Asks(Apply(s, i, e).pcs[i])
  {
  }

  /** Whoever moves: a party that asks still asks afterwards, or has the lock. */
  lemma StillAsks(s: State, i: nat, e: Event, z: nat)
    requires Invariant(s) && Enabled(s, i, e) && z < |s.pcs| && Asks(s.pcs[z])
    ensures |Apply(s, i, e).pcs| == |s.pcs| && (Asks(Apply(s, i, e).pcs[z]) || Apply(s, i, e).pcs[z].Holding?)
  {
    hide Count, Invariant, Apply, Enabled;
    StepKeeps(s, i, e);
    if i == z {
      OwnStepAsks(s, i, e);
      NobodyBroken(Apply(s, i, e), i);
    } else {
      OthersLeave(s, i, e, z);
    }
  }

  lemma OwnStepAsks(s: State, i: nat, e: Event)
    requires Enabled(s, i, e) && Asks(s.pcs[i])
    ensures i < |Apply(s, i, e).pcs| == |s.pcs|
    ensures var pc := Apply(s, i, e).pcs[i]; Asks(pc) || pc.Holding? || pc.Broken?
  {
  }

  lemma NobodyBroken(s: State, i: nat)
    requires Invariant(s) && i < |s.pcs|
    ensures !s.pcs[i].Broken?
  {
  }

  /** The others can only wake it. */
  lemma OthersLeave(s: State, i: nat, e: Event, z: nat)
    requires Enabled(s, i, e) && i != z && z < |s.pcs|
    ensures |Apply(s, i, e).pcs| == |s.pcs|
    ensures var pc := Apply(s, i, e).pcs[z]; pc == s.pcs[z] || (s.pcs[z].Asleep? && pc == Trying(true))
  {
  }

  /** The party has the lock in some state of the run. */
  ghost predicate HoldsOnTheWay(s: State, choices: seq<Choice>, z: nat)
    requires IsRun(s, choices)
    decreases |choices|
  {
    || (z < |s.pcs| && s.pcs[z].Holding?)
    || (choices != [] && HoldsOnTheWay(Apply(s, choices[0].party, choices[0].event), choices[1..], z))
  }

  lemma {:induction false} NotGivenUp(s: State, choices: seq<Choice>, z: nat)
    requires Invariant(s) && IsRun(s, choices) && z < |s.pcs| && Asks(s.pcs[z])
    ensures z < |End(s, choices).pcs| && (Asks(End(s, choices).pcs[z]) || HoldsOnTheWay(s, choices, z))
    decreases |choices|
  {
    hide Apply, Enabled, Invariant, Asks;
    if choices != [] {
      var i, e := choices[0].party, choices[0].event;
      StepKeeps(s, i, e);
      StillAsks(s, i, e, z);
      var t := Apply(s, i, e);
      if Asks(t.pcs[z]) {
        NotGivenUp(t, choices[1..], z);
      } else {
        SizeStays(t, choices[1..]);
        assert HoldsOnTheWay(t, choices[1..], z);
      }
    }
  }

  lemma StepSize(s: State, i: nat, e: Event)
    requires Enabled(s, i, e)
    ensures |Apply(s, i, e).pcs| == |s.pcs|
  {
  }

  lemma {:induction false} SizeStays(s: State, choices: seq<Choice>)
    requires IsRun(s, choices)
    ensures |End(s, choices).pcs| == |s.pcs|
    decreases |choices|
  {
    hide Apply, Enabled;
    if choices != [] {
      StepSize(s, choices[0].party, choices[0].event);
      SizeStays(Apply(s, choices[0].party, choices[0].event), choices[1..]);
    }
  }

  /** In every interleaving: a party that has asked for the lock is idle again only after it has held it. */
  lemma AskedIsServed(parties: nat, before: seq<Choice>, z: nat, e: Event, after: seq<Choice>)
    requires IsRun(Init(parties), before) && !e.Go? && Enabled(End(Init(parties), before), z, e)
    requires IsRun(Apply(End(Init(parties), before), z, e), after)
    ensures var s := Apply(End(Init(parties), before), z, e);
            && z < |s.pcs| == |End(s, after).pcs| && Asks(s.pcs[z])
            && (End(s, after).pcs[z].Idle? ==> HoldsOnTheWay(s, after, z))
  {
    hide Apply, Enabled, Invariant, Count, IsRun, HoldsOnTheWay;
    NobodyCounts(Init(parties).pcs);
    InitHolds(parties);
    RunKeeps(Init(parties), before);
    var s := End(Init(parties), before);
    StepKeeps(s, z, e);
    RequestAsks(s, z, e);
    NotGivenUp(Apply(s, z, e), after, z);
    SizeStays(Apply(s, z, e), after);
  }

  lemma InitHolds(parties: nat)
    ensures Invariant(Init(parties))
  {
    NobodyCounts(Init(parties).pcs);
  }

  // ----- A request can be met -----

  /** The steps a coroutine takes by itself before it tries again or sleeps. */
  function OwnSteps(pc: Pc): nat {
    match pc
    case TryFailed(_) => 4
    case WillSleep => 3
    case Checking => 2
    case CheckNotify => 1
    case _ => 0
  }

  lemma OwnStep(s: State, z: nat) returns (e: Event)
    requires Invariant(s) && z < |s.pcs| && OwnSteps(s.pcs[z]) > 0
    ensures Enabled(s, z, e) && Invariant(Apply(s, z, e)) && z < |Apply(s, z, e).pcs|
    ensures OwnSteps(Apply(s, z, e).pcs[z]) < OwnSteps(s.pcs[z]) && Asks(Apply(s, z, e).pcs[z])
  {
    hide Count;
    e := AnyPick(s, z);
    StepKeeps(s, z, e);
  }

  lemma {:induction false} CanGet(s: State, z: nat) returns (choices: seq<Choice>)
    requires Invariant(s) && z < |s.pcs| && Asks(s.pcs[z])
    ensures IsRun(s, choices) && Gets(s, choices, z)
    decreases OwnSteps(s.pcs[z])
  {
    hide Invariant, Apply, Enabled, IsRun, End;
    if OwnSteps(s.pcs[z]) > 0 {
      var e := OwnStep(s, z);
      var more := CanGet(Apply(s, z, e), z);
      OneMoreStep(s, z, e, more);
      choices := [Choice(z, e)] + more;
    } else if s.pcs[z].Asleep? {
      choices := SleeperGets(s, z);
    } else if s.pcs[z].GotMutex? {
      var e := CountStep(s, z);
      NoSteps(Apply(s, z, e));
      OneMoreStep(s, z, e, []);
      choices := [Choice(z, e)] + [];
    } else {
      choices := GetsLock(s, z);
    }
  }

  lemma NoSteps(s: State)
    ensures IsRun(s, []) && End(s, []) == s
  {
  }

  /** From every reachable state, for every party that has asked for the lock, from a thread or from a coroutine, awake
      or asleep: some run lets it have the lock. */
  lemma EveryoneCanGetLock(parties: nat, choices: seq<Choice>, z: nat)
    requires IsRun(Init(parties), choices)
    requires z < |End(Init(parties), choices).pcs| && Asks(End(Init(parties), choices).pcs[z])
    ensures exists more :: IsRun(End(Init(parties), choices), more) && Gets(End(Init(parties), choices), more, z)
  {
    hide Apply, Enabled, Invariant, IsRun, Gets;
    InitHolds(parties);
    RunKeeps(Init(parties), choices);
    var more := CanGet(End(Init(parties), choices), z);
    assert Gets(End(Init(parties), choices), more, z);
  }

  // ----- A party on its own -----

  /** The lock is free: the party has it after these steps of its own, and is counted; nobody else has moved. */
  lemma TakesFreeLock(s: State, z: nat, e: Event, pick: nat)
    requires Invariant(s) && s.owner == -1 && Enabled(s, z, e) && !e.Go?
    requires s.list != {} ==> pick in s.list
    ensures var choices := [Choice(z, e)] + ([Choice(z, Go(pick, false))] + ([Choice(z, Go(pick, false))] + []));
            && IsRun(s, choices)
            && End(s, choices) == s.(pcs := s.pcs[z := Holding], owner := z, counter := s.counter + 1)
  {
    var go := Go(pick, false);
    var a := Apply(s, z, e);
    var b := Apply(a, z, go);
    var c := Apply(b, z, go);
    NoSteps(c);
    OneMoreStep(b, z, go, []);
    OneMoreStep(a, z, go, [Choice(z, go)] + []);
    OneMoreStep(s, z, e, [Choice(z, go)] + ([Choice(z, go)] + []));
    assert c.pcs == s.pcs[z := Holding];
  }

  /** And gives it back: the mutex is free, it is not counted any more, and the entry it picks is off the list. */
  lemma GivesItBack(s: State, z: nat, pick: nat)
    requires Invariant(s) && z < |s.pcs| && s.pcs[z].Holding? && (s.list != {} ==> pick in s.list)
    ensures var go := Choice(z, Go(pick, false));
            var choices := [go] + ([go] + ([go] + ([go] + [])));
            && IsRun(s, choices)
            && var t := End(s, choices);
            && t.owner == -1 && t.counter == s.counter - 1 && t.list == s.list - {pick} && |t.pcs| == |s.pcs|
            && t.pcs[z].Idle? && (pick in s.list && s.pcs[pick].Asleep? ==> t.pcs[pick] == Trying(true))
  {
    hide Count, Invariant;
    HolderFacts(s, z, pick);
    var go := Go(pick, false);
    var a := Apply(s, z, go);
    var b := Apply(a, z, go);
    var c := Apply(b, z, go);
    var d := Apply(c, z, go);
    NoSteps(d);
    OneMoreStep(c, z, go, []);
    OneMoreStep(b, z, go, [Choice(z, go)] + []);
    OneMoreStep(a, z, go, [Choice(z, go)] + ([Choice(z, go)] + []));
    OneMoreStep(s, z, go, [Choice(z, go)] + ([Choice(z, go)] + ([Choice(z, go)] + [])));
  }

  lemma HolderFacts(s: State, z: nat, pick: nat)
    requires Invariant(s) && z < |s.pcs| && s.pcs[z].Holding? && (s.list != {} ==> pick in s.list)
    ensures s.counter > 0 && z !in s.list && (s.list != {} ==> pick < |s.pcs|)
  {
    HolderCounts(s.pcs, z);
  }

  /** Somebody else holds the lock: the coroutine is asleep on the list after these steps of its own. */
  lemma FallsAsleep(s: State, z: nat, pick: nat)
    requires Invariant(s) && 0 <= s.owner < |s.pcs| && s.pcs[s.owner].Holding? && z < |s.pcs| && s.pcs[z].Idle?
    requires s.list != {} ==> pick in s.list
    ensures var go := Choice(z, Go(pick, false));
            var at := Choice(z, Go(z, false));
            var choices := [Choice(z, LockAsync)] + ([go] + ([go] + ([go] + ([at] + []))));
            && IsRun(s, choices)
            && End(s, choices) == s.(pcs := s.pcs[z := Asleep], list := s.list + {z})
  {
    hide Count;
    var go, at := Go(pick, false), Go(z, false);
    HolderCounts(s.pcs, s.owner);
    var a := Apply(s, z, LockAsync);
    var b := Apply(a, z, go);
    var c := Apply(b, z, go);
    var d := Apply(c, z, go);
    var f := Apply(d, z, at);
    NoSteps(f);
    OneMoreStep(d, z, at, []);
    OneMoreStep(c, z, go, [Choice(z, at)] + []);
    OneMoreStep(b, z, go, [Choice(z, go)] + ([Choice(z, at)] + []));
    OneMoreStep(a, z, go, [Choice(z, go)] + ([Choice(z, go)] + ([Choice(z, at)] + [])));
    OneMoreStep(s, z, LockAsync, [Choice(z, go)] + ([Choice(z, go)] + ([Choice(z, go)] + ([Choice(z, at)] + []))));
    assert f.pcs == s.pcs[z := Asleep];
  }

  lemma {:induction false} HolderCounts(pcs: seq<Pc>, i: nat)
    requires i < |pcs| && pcs[i].Holding?
    ensures Count(pcs) > 0
    decreases |pcs|
  {
    if i > 0 {
      HolderCounts(pcs[1..], i - 1);
    }
  }

  ghost predicate SomebodyCounted(pcs: seq<Pc>) {
    exists i :: 0 <= i < |pcs| && Counts(pcs[i])
  }

  lemma {:induction false} CountedIsPositive(pcs: seq<Pc>)
    ensures SomebodyCounted(pcs) <==> Count(pcs) > 0
    decreases |pcs|
  {
    if pcs != [] {
      CountedIsPositive(pcs[1..]);
      if SomebodyCounted(pcs[1..]) {
        var i :| 0 <= i < |pcs[1..]| && Counts(pcs[1..][i]);
        assert Counts(pcs[i + 1]);
      }
    }
  }

  /** A coroutine that was refused goes to sleep exactly if somebody is between ++ and --, and tries again otherwise;
      and when its insertion is checked, somebody is woken exactly if nobody is. */
  lemma SleepsExactlyIf(s: State, z: nat, e: Event)
    requires Invariant(s) && Enabled(s, z, e) && e.Go? && (s.pcs[z].TryFailed? || s.pcs[z].Checking?)
    ensures z < |Apply(s, z, e).pcs|
    ensures s.pcs[z].TryFailed? ==>
              Apply(s, z, e).pcs[z] == if SomebodyCounted(s.pcs) then WillSleep else Trying(s.pcs[z].woken)
    ensures s.pcs[z].Checking? ==> (Apply(s, z, e).pcs[z].CheckNotify? <==> !SomebodyCounted(s.pcs))
  {
    hide Count, SomebodyCounted;
    CountedIsPositive(s.pcs);
  }
}
