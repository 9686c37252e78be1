/** src/oatpp/provider/Pool.hpp: the accounting of a resource pool. Each section under m_lock is one operation, so every
    interleaving of threads and coroutines is a sequence of operations. */
module ResourcePool {

  datatype Record = Record(resource: nat, timestamp: int)

  /** acquired maps each resource behind a live AcquisitionProxy to the m_valid flag of that proxy; inFlight counts the
      calls of the provider that have not returned; discarded are the resources that were invalidated by a user, by
      expiry, or dropped; seen are all that the provider ever gave. */
  datatype PoolState = PoolState(
    counter: int,
    maxResources: int,
    ttl: int,
    running: bool,
    finished: bool,
    bench: seq<Record>,
    acquired: map<nat, bool>,
    inFlight: nat,
    discarded: set<nat>,
    seen: set<nat>)

  /** What a call of `get` or `act` of `getAsync` finds out under the mutex. */
  datatype Acquisition = FromBench(resource: nat) | AskProvider | Closed | Wait

  datatype Op =
    | Acquire
    | ProviderReturned(resource: nat)
    | ProviderFailed
    | Invalidate(resource: nat)
    | Release(resource: nat, now: int)
    | Cleanup(ticks: int)
    | Stop
    | FinalCleanup

  function Init(maxResources: int, ttl: int): PoolState {
    PoolState(0, maxResources, ttl, true, false, [], map[], 0, {}, {})
  }

  /** Resources are used by those who have them, and a provider gives a resource once. */
  predicate Enabled(s: PoolState, op: Op) {
    match op
    case Acquire => true
    case ProviderReturned(r) => s.inFlight > 0 && r !in s.seen
    case ProviderFailed => s.inFlight > 0
    case Invalidate(r) => r in s.acquired
    case Release(r, _) => r in s.acquired
    case Cleanup(_) => true
    case Stop => true
    case FinalCleanup => !s.running
  }

  function Acquired(s: PoolState): Acquisition {
    if s.running && s.bench == [] && s.counter >= s.maxResources then Wait
    else if !s.running then Closed
    else if s.bench != [] then FromBench(s.bench[0].resource)
    else AskProvider
  }

  predicate Expired(record: Record, ticks: int, ttl: int) {
    ticks - record.timestamp > ttl
  }

  function Resources(bench: seq<Record>): set<nat> {
    set i: nat | i < |bench| :: bench[i].resource
  }

  /** The records that stay on the bench, in their order. */
  function Fresh(bench: seq<Record>, ticks: int, ttl: int): seq<Record> {
    if bench == [] then []
    else (if Expired(bench[0], ticks, ttl) then [] else [bench[0]]) + Fresh(bench[1..], ticks, ttl)
  }

  function Apply(s: PoolState, op: Op): PoolState
    requires Enabled(s, op)
  {
    match op
    case Acquire =>
      (match Acquired(s)
       case FromBench(r) => s.(bench := s.bench[1..], acquired := s.acquired[r := true])
       case AskProvider => s.(counter := s.counter + 1, inFlight := s.inFlight + 1)
       case Closed => s
       case Wait => s)
    case ProviderReturned(r) => s.(inFlight := s.inFlight - 1, acquired := s.acquired[r := true], seen := s.seen + {r})
    case ProviderFailed => s.(inFlight := s.inFlight - 1, counter := s.counter - 1)
    case Invalidate(r) => s.(acquired := s.acquired[r := false], discarded := s.discarded + {r})
    case Release(r, now) =>
      var t := s.(acquired := s.acquired - {r});
      if s.running && s.acquired[r] then t.(bench := s.bench + [Record(r, now)])
      else t.(counter := s.counter - 1, discarded := s.discarded + {r})
    case Cleanup(ticks) =>
      var kept := Fresh(s.bench, ticks, s.ttl);
      s.(bench := kept, counter := s.counter - (|s.bench| - |kept|),
         discarded := s.discarded + (Resources(s.bench) - Resources(kept)))
    case Stop =>
      if s.running then
        s.(running := false, counter := s.counter - |s.bench|, bench := [],
           discarded := s.discarded + Resources(s.bench))
      else s
    case FinalCleanup =>
      s.(bench := [], counter := s.counter - |s.bench|, discarded := s.discarded + Resources(s.bench), finished := true)
  }

  // ----- The accounts -----

  predicate DistinctRecords(bench: seq<Record>) {
    forall i, j :: 0 <= i < j < |bench| ==> bench[i].resource != bench[j].resource
  }

  ghost predicate Invariant(s: PoolState) {
    && s.counter == |s.bench| + |s.acquired| + s.inFlight
    && s.counter <= (if s.maxResources > 0 then s.maxResources else 0)
    && DistinctRecords(s.bench)
    && (forall i :: 0 <= i < |s.bench| ==> OnBenchOnly(s, s.bench[i].resource))
    && (forall r :: r in s.acquired ==> r in s.seen && (s.acquired[r] <==> r !in s.discarded))
    && s.discarded <= s.seen
    && (!s.running ==> s.bench == [])
  }

  ghost predicate OnBenchOnly(s: PoolState, r: nat) {
    r !in s.acquired && r !in s.discarded && r in s.seen
  }

  lemma {:induction false} FreshRecords(bench: seq<Record>, ticks: int, ttl: int)
    requires DistinctRecords(bench)
    ensures DistinctRecords(Fresh(bench, ticks, ttl)) && |Fresh(bench, ticks, ttl)| <= |bench|
    ensures forall record :: record in Fresh(bench, ticks, ttl) <==> record in bench && !Expired(record, ticks, ttl)
    decreases |bench|
  {
    if bench != [] {
      var rest := Fresh(bench[1..], ticks, ttl);
      FreshRecords(bench[1..], ticks, ttl);
      forall record
        ensures record in bench <==> record == bench[0] || record in bench[1..]
      {
        assert bench == [bench[0]] + bench[1..];
      }
      if !Expired(bench[0], ticks, ttl) {
        forall j | 0 <= j < |rest|
          ensures rest[j].resource != bench[0].resource
        {
          assert rest[j] in bench[1..];
        }
      }
    }
  }

  lemma AcquireKeeps(s: PoolState)
    requires Invariant(s)
    ensures Invariant(Apply(s, Acquire))
  {
    match Acquired(s)
    case FromBench(r) =>
      assert OnBenchOnly(s, r);
      var t := Apply(s, Acquire);
      assert t.acquired.Keys == s.acquired.Keys + {r};
      assert forall i :: 0 <= i < |t.bench| ==> t.bench[i] == s.bench[i + 1] && OnBenchOnly(s, s.bench[i + 1].resource);
    case _ =>
  }

  lemma ProviderKeeps(s: PoolState, op: Op)
    requires Invariant(s) && Enabled(s, op) && (op.ProviderReturned? || op.ProviderFailed?)
    ensures Invariant(Apply(s, op))
  {
  }

  lemma InvalidateKeeps(s: PoolState, op: Op)
    requires Invariant(s) && Enabled(s, op) && op.Invalidate?
    ensures Invariant(Apply(s, op))
  {
  }

  lemma ReleaseKeeps(s: PoolState, op: Op)
    requires Invariant(s) && Enabled(s, op) && op.Release?
    ensures Invariant(Apply(s, op))
  {
    var t := Apply(s, op);
    assert t.acquired.Keys == s.acquired.Keys - {op.resource};
    assert |t.acquired| == |s.acquired| - 1;
    assert forall i :: 0 <= i < |s.bench| ==> OnBenchOnly(s, s.bench[i].resource);
  }

  lemma CleanupKeeps(s: PoolState, op: Op)
    requires Invariant(s) && Enabled(s, op) && (op.Cleanup? || op.Stop? || op.FinalCleanup?)
    ensures Invariant(Apply(s, op))
  {
    hide Fresh;
    assert forall i :: 0 <= i < |s.bench| ==> OnBenchOnly(s, s.bench[i].resource);
    if op.Cleanup? {
      var t := Apply(s, op);
      FreshRecords(s.bench, op.ticks, s.ttl);
      forall i | 0 <= i < |t.bench|
        ensures OnBenchOnly(t, t.bench[i].resource)
      {
        assert t.bench[i] in s.bench;
        assert t.bench[i].resource in Resources(t.bench);
      }
    }
  }

  lemma StepKeeps(s: PoolState, op: Op)
    requires Invariant(s) && Enabled(s, op)
    ensures Invariant(Apply(s, op))
  {
    hide Invariant, Apply;
    match op
    case Acquire => AcquireKeeps(s);
    case ProviderReturned(_) => ProviderKeeps(s, op);
    case ProviderFailed => ProviderKeeps(s, op);
    case Invalidate(_) => InvalidateKeeps(s, op);
    case Release(_, _) => ReleaseKeeps(s, op);
    case _ => CleanupKeeps(s, op);
  }

  ghost predicate IsRun(s: PoolState, ops: seq<Op>)
    decreases |ops|
  {
    ops == [] || (Enabled(s, ops[0]) && IsRun(Apply(s, ops[0]), ops[1..]))
  }

  function End(s: PoolState, ops: seq<Op>): PoolState
    requires IsRun(s, ops)
    decreases |ops|
  {
    if ops == [] then s else End(Apply(s, ops[0]), ops[1..])
  }

  lemma {:induction false} RunKeeps(s: PoolState, ops: seq<Op>)
    requires Invariant(s) && IsRun(s, ops)
    ensures Invariant(End(s, ops))
    decreases |ops|
  {
    hide Invariant, Apply, Enabled;
    if ops != [] {
      StepKeeps(s, ops[0]);
      RunKeeps(Apply(s, ops[0]), ops[1..]);
    }
  }

  /** Over every run: the counter is the bench plus the acquired resources plus the calls in flight and stays within its
      bounds, no resource is held twice, and nothing that was discarded is on the bench; a stopped pool has an empty
      bench. */
  lemma Accounts(maxResources: int, ttl: int, ops: seq<Op>)
    requires IsRun(Init(maxResources, ttl), ops)
    ensures var s := End(Init(maxResources, ttl), ops);
            && s.counter == |s.bench| + |s.acquired| + s.inFlight
            && 0 <= s.counter <= (if maxResources > 0 then maxResources else 0)
            && (forall i, j :: 0 <= i < j < |s.bench| ==> s.bench[i].resource != s.bench[j].resource)
            && (forall i :: 0 <= i < |s.bench| ==>
                s.bench[i].resource !in s.acquired && s.bench[i].resource !in s.discarded)
            && (!s.running ==> s.bench == [])
  {
    hide Apply, Enabled;
    RunKeeps(Init(maxResources, ttl), ops);
    MaxStays(Init(maxResources, ttl), ops);
    var s := End(Init(maxResources, ttl), ops);
    assert forall i :: 0 <= i < |s.bench| ==> OnBenchOnly(s, s.bench[i].resource);
  }

  lemma {:induction false} MaxStays(s: PoolState, ops: seq<Op>)
    requires IsRun(s, ops)
    ensures End(s, ops).maxResources == s.maxResources
    ensures s.discarded <= End(s, ops).discarded
    decreases |ops|
  {
    hide Enabled;
    if ops != [] {
      MaxStays(Apply(s, ops[0]), ops[1..]);
    }
  }

  /** Once a resource was invalidated, no later operation hands it out again or puts it back. */
  lemma NeverAgain(s: PoolState, r: nat, ops: seq<Op>, i: nat)
    requires Invariant(s) && IsRun(s, ops) && r in s.discarded
    ensures var t := End(s, ops);
            && (i < |t.bench| ==> t.bench[i].resource != r)
            && Acquired(t) != FromBench(r)
  {
    hide Apply, Enabled;
    RunKeeps(s, ops);
    MaxStays(s, ops);
    var t := End(s, ops);
    assert forall k :: 0 <= k < |t.bench| ==> OnBenchOnly(t, t.bench[k].resource);
  }

  /** A call waits exactly if the pool runs and users and calls in flight have all the places: never beside a resource
      on the bench. */
  lemma WaitsExactly(s: PoolState)
    requires Invariant(s)
    ensures Acquired(s).Wait? <==> s.running && |s.acquired| + s.inFlight >= s.maxResources
    ensures Acquired(s).Wait? ==> s.bench == []
    ensures Acquired(s).AskProvider? <==>
            s.running && s.bench == [] && |s.acquired| + s.inFlight < s.maxResources
  {
  }

  // ----- The pool object -----

  class Pool {
    var counter: int
    const maxResources: int
    const maxResourceTTL: int
    var running: bool
    var finished: bool
    var bench: seq<Record>
    ghost var acquired: map<nat, bool>
    ghost var inFlight: nat
    ghost var discarded: set<nat>
    ghost var seen: set<nat>

    ghost function Current(): PoolState
      reads this
    {
      PoolState(counter, maxResources, maxResourceTTL, running, finished, bench, acquired, inFlight, discarded, seen)
    }

    ghost predicate Valid()
      reads this
    {
      Invariant(Current())
    }

    constructor (maxResources: int, maxResourceTTL: int)
      ensures Valid() && Current() == Init(maxResources, maxResourceTTL)
    {
      this.maxResources := maxResources;
      this.maxResourceTTL := maxResourceTTL;
      counter, running, finished, bench := 0, true, false, [];
      acquired, inFlight, discarded, seen := map[], 0, {}, {};
    }

    /** The section under the mutex in `get` and in `act` of `getAsync`. */
    method Acquire() returns (a: Acquisition)
      requires Valid()
      modifies this
      ensures Valid() && a == Acquired(old(Current())) && Current() == Apply(old(Current()), Op.Acquire)
      ensures a.Wait? <==> old(running) && |old(acquired)| + old(inFlight) >= maxResources
      ensures a.Closed? <==> !old(running)
      ensures a.FromBench? <==> old(running) && old(bench) != []
      ensures a.FromBench? ==> a.resource == old(bench)[0].resource && a.resource in acquired
    {
      hide Invariant;
      AcquireKeeps(Current());
      WaitsExactly(Current());
      if running && |bench| == 0 && counter >= maxResources {
        return Wait;
      }
      if !running {
        return Closed;
      }
      if |bench| > 0 {
        var record := bench[0];
        bench := bench[1..];
        acquired := acquired[record.resource := true];
        return FromBench(record.resource);
      }
      counter := counter + 1;
      inFlight := inFlight + 1;
      a := AskProvider;
    }

    /** The provider gave a resource, which goes into a proxy. */
    method ProviderReturned(resource: nat)
      requires Valid() && Enabled(Current(), Op.ProviderReturned(resource))
      modifies this`inFlight, this`acquired, this`seen
      ensures Valid() && Current() == Apply(old(Current()), Op.ProviderReturned(resource))
    {
      hide Invariant;
      ProviderKeeps(Current(), Op.ProviderReturned(resource));
      inFlight, acquired, seen := inFlight - 1, acquired[resource := true], seen + {resource};
    }

    /** The handler of `get`, and `handleError` of `getAsync`. Every error counts down; the accounts stay right if and
        only if a provider call is in flight. */
    method ProviderFailed()
      requires Valid()
      modifies this`counter, this`inFlight
      ensures counter == old(counter) - 1 && inFlight == (if old(inFlight) > 0 then old(inFlight) - 1 else 0)
      ensures Valid() <==> old(inFlight) > 0
      ensures old(inFlight) > 0 ==> Current() == Apply(old(Current()), Op.ProviderFailed)
    {
      if inFlight > 0 {
        ProviderKeeps(Current(), Op.ProviderFailed);
        inFlight := inFlight - 1;
      }
      counter := counter - 1;
    }

    /** `release`, called by the destructor of a proxy with its m_valid. The notifications come after it. */
    method Release(resource: nat, canReuse: bool, now: int) returns (notify: bool)
      requires Valid() && resource in acquired && acquired[resource] == canReuse
      modifies this
      ensures Valid() && Current() == Apply(old(Current()), Op.Release(resource, now)) && notify == old(running)
    {
      hide Invariant;
      ReleaseKeeps(Current(), Op.Release(resource, now));
      acquired := acquired - {resource};
      if !running {
        counter := counter - 1;
        discarded := discarded + {resource};
        return false;
      }
      if canReuse {
        bench := bench + [Record(resource, now)];
      } else {
        counter := counter - 1;
        discarded := discarded + {resource};
      }
      notify := true;
    }

    /** One pass of the timer-based loop in `cleanupTask`. */
    method Cleanup(ticks: int)
      requires Valid()
      modifies this`bench, this`counter, this`discarded
      ensures Valid() && Current() == Apply(old(Current()), Op.Cleanup(ticks))
    {
      hide Invariant, Fresh, Apply, Acquired;
      ghost var start := Current();
      CleanupKeeps(start, Op.Cleanup(ticks));
      CleanupIs(start, ticks);
      ghost var before, kept := bench, Fresh(bench, ticks, maxResourceTTL);
      var i := 0;
      assert before[..0] == [] && before[0..] == before;
      NoneFresh(ticks, maxResourceTTL);
      while i < |bench|
        invariant 0 <= i <= |bench| <= |before|
        invariant bench[..i] + Fresh(bench[i..], ticks, maxResourceTTL) == kept
        invariant counter == old(counter) - (|before| - |bench|) && discarded == old(discarded)
        decreases |bench| - i
      {
        FreshHead(bench, i, ticks, maxResourceTTL);
        var elapsed := ticks - bench[i].timestamp;
        if elapsed > maxResourceTTL {
          bench := bench[..i] + bench[i + 1..];
          counter := counter - 1;
        } else {
          i := i + 1;
        }
      }
      assert bench[..i] == bench && bench[i..] == [] && bench == kept;
      discarded := discarded + (Resources(before) - Resources(bench));
    }

    /** The section under the mutex in `stop`; false if the pool was stopped before. */
    method Stop() returns (first: bool)
      requires Valid()
      modifies this
      ensures Valid() && Current() == Apply(old(Current()), Op.Stop) && first == old(running)
    {
      hide Invariant;
      CleanupKeeps(Current(), Op.Stop);
      if !running {
        return false;
      }
      running := false;
      counter := counter - |bench|;
      discarded := discarded + Resources(bench);
      bench := [];
      first := true;
    }

    /** The end of `cleanupTask`. `stop` has cleared the bench already: the loop that invalidates has nothing to do. */
    method FinalCleanup()
      requires Valid() && !running
      modifies this`bench, this`counter, this`finished, this`discarded
      ensures Valid() && Current() == Apply(old(Current()), Op.FinalCleanup)
      ensures bench == old(bench) == [] && counter == old(counter)
    {
      hide Invariant;
      ghost var before := Current();
      CleanupKeeps(before, Op.FinalCleanup);
      while |bench| > 0
        invariant counter == before.counter - (|before.bench| - |bench|)
        invariant discarded == before.discarded
        decreases |bench|
      {
        bench := bench[1..];
        counter := counter - 1;
      }
      finished := true;
      discarded := discarded + Resources(before.bench);
      StoppedIsEmpty(before);
    }

    /** What `onNewItem` does after it let the mutex go. */
    method OnNewItem() returns (all: bool, first: bool)
      requires Valid()
      ensures all == !running
      ensures first <==> running && |acquired| + inFlight < maxResources
    {
      WaitsExactly(Current());
      if !running {
        return true, false;
      }
      return false, counter < maxResources || |bench| > 0;
    }
  }

  lemma CleanupIs(s: PoolState, ticks: int)
    ensures var kept := Fresh(s.bench, ticks, s.ttl);
            Apply(s, Op.Cleanup(ticks))
            == s.(bench := kept, counter := s.counter - (|s.bench| - |kept|),
                  discarded := s.discarded + (Resources(s.bench) - Resources(kept)))
  {
    hide Fresh;
  }

  lemma StoppedIsEmpty(s: PoolState)
    requires Invariant(s) && !s.running
    ensures s.bench == []
  {
  }

  lemma NoneFresh(ticks: int, ttl: int)
    ensures Fresh([], ticks, ttl) == []
  {
  }

  lemma FreshHead(bench: seq<Record>, i: nat, ticks: int, ttl: int)
    requires i < |bench|
    ensures bench[..i] + Fresh(bench[i..], ticks, ttl)
            == if Expired(bench[i], ticks, ttl) then Cut(bench, i)[..i] + Fresh(Cut(bench, i)[i..], ticks, ttl)
               else bench[..i + 1] + Fresh(bench[i + 1..], ticks, ttl)
  {
  }

  function Cut(bench: seq<Record>, i: nat): seq<Record>
    requires i < |bench|
  {
    bench[..i] + bench[i + 1..]
  }
}
