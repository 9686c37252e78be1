/** What a caller of the resource pool gets, by the history of the pool. */
module PoolHistory {
  import opened ResourcePool

  // ----- Runs, from the end -----

  lemma {:induction false} LastStep(s: PoolState, ops: seq<Op>)
    requires IsRun(s, ops) && ops != []
    ensures var before := ops[..|ops| - 1];
            && IsRun(s, before) && Enabled(End(s, before), ops[|ops| - 1])
            && End(s, ops) == Apply(End(s, before), ops[|ops| - 1])
    decreases |ops|
  {
    hide Apply, Enabled;
    var before := ops[..|ops| - 1];
    if |ops| > 1 {
      LastStep(Apply(s, ops[0]), ops[1..]);
      assert ops[1..][..|ops| - 2] == before[1..];
    } else {
      assert before == [] && ops[1..] == [];
    }
  }

  /** The place of the last release of a resource in the history, or -1. */
  function LastRelease(ops: seq<Op>, r: nat): int
    decreases |ops|
  {
    if ops == [] then -1
    else if ops[|ops| - 1].Release? && ops[|ops| - 1].resource == r then |ops| - 1
    else LastRelease(ops[..|ops| - 1], r)
  }

  predicate Stopped(ops: seq<Op>) {
    exists k :: 0 <= k < |ops| && ops[k].Stop?
  }

  // ----- Who is refused -----

  lemma {:induction false} StoppedExactly(s: PoolState, ops: seq<Op>)
    requires IsRun(s, ops) && s.running
    ensures End(s, ops).running <==> !Stopped(ops)
    decreases |ops|
  {
    hide Enabled;
    if ops != [] {
      var t := Apply(s, ops[0]);
      if t.running {
        StoppedExactly(t, ops[1..]);
        StoppedLater(ops);
      } else {
        assert ops[0].Stop?;
        StaysStopped(t, ops[1..]);
      }
    }
  }

  lemma StoppedLater(ops: seq<Op>)
    requires ops != [] && !ops[0].Stop?
    ensures Stopped(ops) <==> Stopped(ops[1..])
  {
    if Stopped(ops) {
      var k :| 0 <= k < |ops| && ops[k].Stop?;
      assert ops[1..][k - 1].Stop?;
    }
  }

  lemma {:induction false} StaysStopped(s: PoolState, ops: seq<Op>)
    requires IsRun(s, ops) && !s.running
    ensures !End(s, ops).running
    decreases |ops|
  {
    hide Enabled;
    if ops != [] {
      StaysStopped(Apply(s, ops[0]), ops[1..]);
    }
  }

  // ----- The order of the bench -----

  /** The record was made by the last release of its resource. */
  predicate Recorded(record: Record, ops: seq<Op>) {
    var k := LastRelease(ops, record.resource);
    0 <= k < |ops| && ops[k] == Release(record.resource, record.timestamp)
  }

  ghost predicate ByRelease(bench: seq<Record>, ops: seq<Op>) {
    && (forall i :: 0 <= i < |bench| ==> Recorded(bench[i], ops))
    && (forall i, j :: 0 <= i < j < |bench| ==>
          LastRelease(ops, bench[i].resource) < LastRelease(ops, bench[j].resource))
  }

  lemma {:induction false} LastReleaseInside(ops: seq<Op>, r: nat)
    ensures -1 <= LastRelease(ops, r) < |ops|
    decreases |ops|
  {
    if ops != [] {
      LastReleaseInside(ops[..|ops| - 1], r);
    }
  }

  lemma RecordedStill(record: Record, ops: seq<Op>, op: Op)
    requires Recorded(record, ops) && !(op.Release? && op.resource == record.resource)
    ensures Recorded(record, ops + [op])
    ensures LastRelease(ops + [op], record.resource) == LastRelease(ops, record.resource)
  {
    assert (ops + [op])[..|ops|] == ops;
  }

  /** Records that are left where they are, in their order. */
  lemma StillByRelease(bench: seq<Record>, ops: seq<Op>, op: Op)
    requires ByRelease(bench, ops)
    requires op.Release? ==> forall i :: 0 <= i < |bench| ==> bench[i].resource != op.resource
    ensures ByRelease(bench, ops + [op])
  {
    hide Recorded, LastRelease;
    forall i | 0 <= i < |bench|
      ensures Recorded(bench[i], ops + [op])
      ensures LastRelease(ops + [op], bench[i].resource) == LastRelease(ops, bench[i].resource)
    {
      RecordedStill(bench[i], ops, op);
    }
  }

  lemma AddedByRelease(bench: seq<Record>, ops: seq<Op>, r: nat, now: int)
    requires ByRelease(bench, ops) && forall i :: 0 <= i < |bench| ==> bench[i].resource != r
    ensures ByRelease(bench + [Record(r, now)], ops + [Release(r, now)])
  {
    hide Recorded;
    var op := Release(r, now);
    StillByRelease(bench, ops, op);
    assert (ops + [op])[|ops|] == op;
    forall i | 0 <= i < |bench|
      ensures LastRelease(ops + [op], bench[i].resource) < |ops|
    {
      assert (ops + [op])[..|ops|] == ops;
      LastReleaseInside(ops, bench[i].resource);
    }
    assert Recorded(Record(r, now), ops + [op]) by {
      RecordedNow(ops, r, now);
    }
  }

  lemma RecordedNow(ops: seq<Op>, r: nat, now: int)
    ensures Recorded(Record(r, now), ops + [Release(r, now)])
  {
  }

  lemma {:induction false} FreshByRelease(bench: seq<Record>, ops: seq<Op>, ticks: int, ttl: int)
    requires ByRelease(bench, ops)
    ensures ByRelease(Fresh(bench, ticks, ttl), ops)
    ensures forall record :: record in Fresh(bench, ticks, ttl) ==> record in bench
    decreases |bench|
  {
    hide Recorded, LastRelease;
    if bench != [] {
      var rest := Fresh(bench[1..], ticks, ttl);
      FreshByRelease(bench[1..], ops, ticks, ttl);
      forall j | 0 <= j < |rest|
        ensures LastRelease(ops, bench[0].resource) < LastRelease(ops, rest[j].resource)
      {
        assert rest[j] in bench[1..];
      }
    }
  }

  lemma StepByRelease(s: PoolState, ops: seq<Op>, op: Op)
    requires Invariant(s) && Enabled(s, op) && ByRelease(s.bench, ops)
    ensures ByRelease(Apply(s, op).bench, ops + [op])
  {
    hide Recorded, LastRelease, Fresh;
    var t := Apply(s, op);
    if op.Release? {
      assert forall i :: 0 <= i < |s.bench| ==> OnBenchOnly(s, s.bench[i].resource);
      if s.running && s.acquired[op.resource] {
        AddedByRelease(s.bench, ops, op.resource, op.now);
      } else {
        StillByRelease(s.bench, ops, op);
      }
    } else {
      if op.Cleanup? {
        FreshByRelease(s.bench, ops, op.ticks, s.ttl);
      }
      StillByRelease(t.bench, ops, op);
    }
  }

  /** Over every run: the bench is in the order of the last releases, and each record has the time of that release. */
  lemma {:induction false} BenchByRelease(maxResources: int, ttl: int, ops: seq<Op>)
    requires IsRun(Init(maxResources, ttl), ops)
    ensures ByRelease(End(Init(maxResources, ttl), ops).bench, ops)
    decreases |ops|
  {
    hide Apply, Enabled, Recorded, LastRelease, Invariant;
    if ops != [] {
      var before := ops[..|ops| - 1];
      LastStep(Init(maxResources, ttl), ops);
      BenchByRelease(maxResources, ttl, before);
      InitHolds(maxResources, ttl);
      RunKeeps(Init(maxResources, ttl), before);
      StepByRelease(End(Init(maxResources, ttl), before), before, ops[|ops| - 1]);
      assert before + [ops[|ops| - 1]] == ops;
    }
  }

  lemma InitHolds(maxResources: int, ttl: int)
    ensures Invariant(Init(maxResources, ttl)) && Init(maxResources, ttl).running
  {
  }

  // ----- The answers -----

  predicate OnBench(bench: seq<Record>, r: nat) {
    exists i :: 0 <= i < |bench| && bench[i].resource == r
  }

  /** The resource was released longest ago of those on the bench. */
  ghost predicate Oldest(bench: seq<Record>, ops: seq<Op>, r: nat) {
    && OnBench(bench, r)
    && forall i :: 0 <= i < |bench| ==> LastRelease(ops, r) <= LastRelease(ops, bench[i].resource)
  }

  lemma OldestIsFirst(bench: seq<Record>, ops: seq<Op>, r: nat)
    requires ByRelease(bench, ops)
    ensures Oldest(bench, ops, r) <==> bench != [] && bench[0].resource == r
  {
    hide LastRelease, Recorded;
  }

  /** After every run: a caller is refused if and only if the pool was stopped; it waits if and only if it was not and
      users and calls in flight have all the places; it gets a benched resource if and only if the pool was not stopped
      and there is one, and then the one that was released longest ago; and otherwise the provider is asked. */
  lemma AnswersExactly(maxResources: int, ttl: int, ops: seq<Op>, r: nat)
    requires IsRun(Init(maxResources, ttl), ops)
    ensures var s := End(Init(maxResources, ttl), ops);
            && (Acquired(s).Closed? <==> Stopped(ops))
            && (Acquired(s).Wait? <==> !Stopped(ops) && |s.acquired| + s.inFlight >= maxResources)
            && (Acquired(s) == FromBench(r) <==> !Stopped(ops) && Oldest(s.bench, ops, r))
            && (Acquired(s).AskProvider? <==>
                  !Stopped(ops) && s.bench == [] && |s.acquired| + s.inFlight < maxResources)
  {
    hide Apply, Enabled, LastRelease, Recorded, Invariant, Stopped;
    var s := End(Init(maxResources, ttl), ops);
    InitHolds(maxResources, ttl);
    RunKeeps(Init(maxResources, ttl), ops);
    MaxStays(Init(maxResources, ttl), ops);
    StoppedExactly(Init(maxResources, ttl), ops);
    WaitsExactly(s);
    BenchByRelease(maxResources, ttl, ops);
    OldestIsFirst(s.bench, ops, r);
  }

  function Acquires(n: nat): seq<Op> {
    if n == 0 then [] else [Acquire] + Acquires(n - 1)
  }

  lemma {:induction false} AcquiresTake(s: PoolState, n: nat)
    requires s.running && n <= |s.bench|
    ensures IsRun(s, Acquires(n))
    ensures End(s, Acquires(n)).bench == s.bench[n..] && End(s, Acquires(n)).running
    decreases n
  {
    if n > 0 {
      AcquiresTake(Apply(s, Acquire), n - 1);
      assert Acquires(n)[1..] == Acquires(n - 1);
    }
  }

  /** A valid resource that is released to a running pool is the answer of the acquire that follows those for the
      resources benched before it. */
  lemma ReleasedIsHandedOut(s: PoolState, r: nat, now: int)
    requires Invariant(s) && s.running && r in s.acquired && s.acquired[r]
    ensures Enabled(s, Release(r, now))
    ensures var t := Apply(s, Release(r, now));
            && IsRun(t, Acquires(|s.bench|))
            && Acquired(End(t, Acquires(|s.bench|))) == FromBench(r)
            && forall k :: 0 <= k < |s.bench| ==>
                 IsRun(t, Acquires(k)) && Acquired(End(t, Acquires(k))) == FromBench(s.bench[k].resource)
  {
    var t := Apply(s, Release(r, now));
    AcquiresTake(t, |s.bench|);
    forall k | 0 <= k < |s.bench|
      ensures IsRun(t, Acquires(k)) && Acquired(End(t, Acquires(k))) == FromBench(s.bench[k].resource)
    {
      AcquiresTake(t, k);
    }
  }

  /** The clean-up leaves on the bench just the records that are not older than the time to live, in their order. */
  lemma YoungStay(s: PoolState, ticks: int, record: Record)
    requires Invariant(s)
    ensures var t := Apply(s, Cleanup(ticks));
            record in t.bench <==> record in s.bench && ticks - record.timestamp <= s.ttl
  {
    hide Fresh;
    FreshRecords(s.bench, ticks, s.ttl);
  }

  // ----- A caller on its own -----

  lemma TwoOps(s: PoolState, a: Op, b: Op)
    requires Enabled(s, a) && Enabled(Apply(s, a), b)
    ensures IsRun(s, [a, b]) && End(s, [a, b]) == Apply(Apply(s, a), b)
  {
    hide Apply, Enabled;
    assert [a, b][1..] == [b] && [b][1..] == [];
    assert IsRun(Apply(s, a), [b]) && End(Apply(s, a), [b]) == Apply(Apply(s, a), b);
  }

  /** Where the provider is asked: the resource it gives is the caller's, valid and counted once; and if it fails, the
      place is given back and nothing has changed. */
  lemma ProviderAnswers(s: PoolState, r: nat)
    requires Invariant(s) && Acquired(s).AskProvider? && r !in s.seen
    ensures IsRun(s, [Acquire, ProviderReturned(r)]) && IsRun(s, [Acquire, ProviderFailed])
    ensures End(s, [Acquire, ProviderReturned(r)])
            == s.(counter := s.counter + 1, acquired := s.acquired[r := true], seen := s.seen + {r})
    ensures End(s, [Acquire, ProviderFailed]) == s
  {
    TwoOps(s, Acquire, ProviderReturned(r));
    TwoOps(s, Acquire, ProviderFailed);
  }

  /** A resource that was invalidated, or comes back to a stopped pool, is counted off and discarded. */
  lemma NotReused(s: PoolState, r: nat, now: int)
    requires Invariant(s) && r in s.acquired && !(s.running && s.acquired[r])
    ensures Enabled(s, Release(r, now))
    ensures var t := Apply(s, Release(r, now));
            && r !in t.acquired && r in t.discarded && t.bench == s.bench && t.counter == s.counter - 1
            && forall q :: q in s.acquired && q != r ==> q in t.acquired && t.acquired[q] == s.acquired[q]
  {
  }

  /** Stopping is always possible. It discards what is on the bench and leaves the users what they have; the last
      clean-up finds nothing to do. */
  lemma StopsForGood(s: PoolState)
    requires Invariant(s) && s.running
    ensures IsRun(s, [Stop, FinalCleanup])
    ensures var t := End(s, [Stop, FinalCleanup]);
            && !t.running && t.finished && t.bench == [] && t.acquired == s.acquired && t.inFlight == s.inFlight
            && t.counter == |s.acquired| + s.inFlight
            && t.discarded == s.discarded + Resources(s.bench)
  {
    TwoOps(s, Stop, FinalCleanup);
  }

  /** What the clean-up takes off the bench is discarded. */
  lemma OldAreDiscarded(s: PoolState, ticks: int, record: Record)
    requires Invariant(s) && record in s.bench && ticks - record.timestamp > s.ttl
    ensures record.resource in Apply(s, Cleanup(ticks)).discarded
  {
    hide Fresh;
    FreshRecords(s.bench, ticks, s.ttl);
    var kept := Fresh(s.bench, ticks, s.ttl);
    var i :| 0 <= i < |s.bench| && s.bench[i] == record;
    assert record.resource in Resources(s.bench);
    forall k | 0 <= k < |kept|
      ensures kept[k].resource != record.resource
    {
      assert kept[k] in s.bench && kept[k] != record;
    }
  }
}
