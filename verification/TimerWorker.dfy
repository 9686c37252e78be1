/** src/oatpp/async/worker/TimerWorker.cpp: one traversal of the timer queue, which cuts entries while it walks. */
module TimerWorker {
  import opened AsyncQueue

  /** What a traversal does with one handle: it is not due, or it is iterated and returns an action. */
  datatype Outcome = NotDue | Ran(action: Action)

  predicate Stays(o: Outcome) {
    o.NotDue? || o.action.WaitRepeat? || o.action.IoWait?
  }

  /** The scheduled action after the traversal. */
  function Rescheduled(o: Outcome, before: Action): Action {
    match o
    case NotDue => before
    case Ran(IoWait) => WaitRepeat(0)
    case Ran(action) => action
  }

  /** The handles that stay, in their order. */
  function Kept(handles: seq<CoroutineHandle>, outcomes: seq<Outcome>): seq<CoroutineHandle>
    requires |handles| == |outcomes|
  {
    if handles == [] then [] else
      var n := |handles| - 1;
      Kept(handles[..n], outcomes[..n]) + Remains(handles[n], outcomes[n])
  }

  function Remains(h: CoroutineHandle, o: Outcome): seq<CoroutineHandle> {
    if Stays(o) then [h] else []
  }

  /** The handles that leave, in their order, each to its own processor and with the action it returned. */
  function Sent(handles: seq<CoroutineHandle>, outcomes: seq<Outcome>): seq<Delivery>
    requires |handles| == |outcomes|
  {
    if handles == [] then [] else
      var n := |handles| - 1;
      Sent(handles[..n], outcomes[..n]) + Leaves(handles[n], outcomes[n])
  }

  function Leaves(h: CoroutineHandle, o: Outcome): seq<Delivery> {
    if Stays(o) then [] else [Delivery(h.processor, h, o.action)]
  }

  /** One more handle. */
  lemma OneMore(all: seq<CoroutineHandle>, i: nat, outcomes: seq<Outcome>, o: Outcome)
    requires i < |all| && |outcomes| == i
    ensures Kept(all[..i + 1], outcomes + [o]) == Kept(all[..i], outcomes) + Remains(all[i], o)
    ensures Sent(all[..i + 1], outcomes + [o])
            == Sent(all[..i], outcomes) + Leaves(all[i], o)
  {
    assert all[..i + 1][..i] == all[..i] && (outcomes + [o])[..i] == outcomes;
  }

  lemma {:induction false} KeptSize(handles: seq<CoroutineHandle>, outcomes: seq<Outcome>)
    requires |handles| == |outcomes|
    ensures |Kept(handles, outcomes)| <= |handles|
    ensures forall h :: h in Kept(handles, outcomes) ==> h in handles
    decreases |handles|
  {
    if handles != [] {
      KeptSize(handles[..|handles| - 1], outcomes[..|handles| - 1]);
    }
  }

  function HandlesOf(deliveries: seq<Delivery>): seq<CoroutineHandle> {
    if deliveries == [] then [] else HandlesOf(deliveries[..|deliveries| - 1]) + [deliveries[|deliveries| - 1].handle]
  }

  /** Every handle either stays or is handed over, exactly once. */
  lemma {:induction false} EachOnce(handles: seq<CoroutineHandle>, outcomes: seq<Outcome>)
    requires |handles| == |outcomes|
    ensures multiset(Kept(handles, outcomes)) + multiset(HandlesOf(Sent(handles, outcomes))) == multiset(handles)
    decreases |handles|
  {
    hide Remains, Leaves, HandlesOf;
    if handles != [] {
      var n := |handles| - 1;
      EachOnce(handles[..n], outcomes[..n]);
      assert handles == handles[..n] + [handles[n]];
      OneOf(Kept(handles[..n], outcomes[..n]), Sent(handles[..n], outcomes[..n]), handles[n], outcomes[n]);
    } else {
      NoHandles();
    }
  }

  lemma NoHandles()
    ensures HandlesOf([]) == []
  {
  }

  lemma OneOf(kept: seq<CoroutineHandle>, sent: seq<Delivery>, h: CoroutineHandle, o: Outcome)
    ensures multiset(kept + Remains(h, o)) + multiset(HandlesOf(sent + Leaves(h, o)))
            == multiset(kept) + multiset(HandlesOf(sent)) + multiset{h}
  {
    if Stays(o) {
      assert sent + Leaves(h, o) == sent;
    } else {
      assert kept + Remains(h, o) == kept;
      assert (sent + Leaves(h, o))[..|sent|] == sent;
      assert HandlesOf(sent + Leaves(h, o)) == HandlesOf(sent) + [h];
    }
  }

  /** The handle at place i is not due, or asks for another wait: for a time, or for an I/O event to be polled again. */
  ghost predicate AsksForMore(outcomes: seq<Outcome>, i: int) {
    0 <= i < |outcomes|
    && (outcomes[i].NotDue? || outcomes[i] == Ran(IoWait) || exists t :: outcomes[i] == Ran(WaitRepeat(t)))
  }

  /** It returned some other action. */
  ghost predicate Returned(outcomes: seq<Outcome>, i: int, action: Action) {
    0 <= i < |outcomes| && outcomes[i] == Ran(action) && action != IoWait && forall t :: action != WaitRepeat(t)
  }

  /** The handles that ask for more stay, and no others. */
  lemma {:induction false} WhoStays(handles: seq<CoroutineHandle>, outcomes: seq<Outcome>, h: CoroutineHandle)
    requires |handles| == |outcomes|
    ensures h in Kept(handles, outcomes) <==>
            exists i :: 0 <= i < |handles| && handles[i] == h && AsksForMore(outcomes, i)
    decreases |handles|
  {
    if handles != [] {
      var n := |handles| - 1;
      WhoStays(handles[..n], outcomes[..n], h);
      StaysIs(outcomes, n);
      assert forall i :: 0 <= i < n ==> AsksForMore(outcomes[..n], i) == AsksForMore(outcomes, i)
                                        && handles[..n][i] == handles[i];
    }
  }

  lemma StaysIs(outcomes: seq<Outcome>, i: nat)
    requires i < |outcomes|
    ensures Stays(outcomes[i]) <==> AsksForMore(outcomes, i)
    ensures !Stays(outcomes[i]) <==> outcomes[i].Ran? && Returned(outcomes, i, outcomes[i].action)
  {
    if outcomes[i].Ran? && outcomes[i].action.WaitRepeat? {
      assert outcomes[i] == Ran(WaitRepeat(outcomes[i].action.timePoint));
    }
  }

  /** The others go to their processors, with the action they returned. */
  lemma {:induction false} WhoLeaves(handles: seq<CoroutineHandle>, outcomes: seq<Outcome>, d: Delivery)
    requires |handles| == |outcomes|
    ensures d in Sent(handles, outcomes) <==>
            exists i :: 0 <= i < |handles| && handles[i] == d.handle && d.processor == d.handle.processor
                        && Returned(outcomes, i, d.scheduled)
    decreases |handles|
  {
    if handles != [] {
      var n := |handles| - 1;
      WhoLeaves(handles[..n], outcomes[..n], d);
      StaysIs(outcomes, n);
      assert forall i :: 0 <= i < n ==> Returned(outcomes[..n], i, d.scheduled) == Returned(outcomes, i, d.scheduled)
                                        && handles[..n][i] == handles[i];
    }
  }

  /** A handle that stays waits for its time: as before, if it was not due; the one it asked for; or, for an I/O event,
      one that has come at every later tick. */
  lemma WaitsUntil(o: Outcome, before: Action, tick: int)
    requires before.WaitRepeat? && Stays(o)
    ensures Rescheduled(o, before).WaitRepeat?
    ensures o.NotDue? ==> Rescheduled(o, before).timePoint == before.timePoint
    ensures o.Ran? && o.action.WaitRepeat? ==> Rescheduled(o, before).timePoint == o.action.timePoint
    ensures o.Ran? && o.action.IoWait? && tick > 0 ==> Rescheduled(o, before).timePoint < tick
  {
  }

  /** What a queue looks like when the walk is at place i: the handles that stay, and the rest. */
  ghost predicate Walking(nodes: seq<CoroutineHandle>, all: seq<CoroutineHandle>, i: nat, outcomes: seq<Outcome>,
                          prev: CoroutineHandle?, curr: CoroutineHandle?)
  {
    && i <= |all| && |outcomes| == i
    && var kept := Kept(all[..i], outcomes);
    && nodes == kept + all[i..]
    && curr == (if i < |all| then all[i] else null)
    && prev == (if kept == [] then null else kept[|kept| - 1])
  }

  lemma WalkHere(nodes: seq<CoroutineHandle>, all: seq<CoroutineHandle>, i: nat, outcomes: seq<Outcome>,
                 prev: CoroutineHandle?, curr: CoroutineHandle)
    requires Walking(nodes, all, i, outcomes, prev, curr)
    ensures i < |all| && |outcomes| == i && all[i] == curr && curr in all && (prev == null || prev in all)
    ensures var k := |Kept(all[..i], outcomes)|;
            && k < |nodes| && nodes[k] == curr && prev == (if k == 0 then null else nodes[k - 1])
  {
    hide Kept;
    KeptSize(all[..i], outcomes);
    assert prev != null ==> prev in all[..i];
  }

  lemma WalkOn(nodes: seq<CoroutineHandle>, all: seq<CoroutineHandle>, i: nat, outcomes: seq<Outcome>,
               prev: CoroutineHandle?, curr: CoroutineHandle?, o: Outcome)
    requires Walking(nodes, all, i, outcomes, prev, curr) && i < |all|
    ensures var k := |Kept(all[..i], outcomes)|; var next := if i + 1 < |all| then all[i + 1] else null;
            && k < |nodes| && After(nodes, k) == next
            && Walking(if Stays(o) then nodes else Cut(nodes, k), all, i + 1, outcomes + [o],
                       if Stays(o) then curr else prev, next)
  {
    hide Kept, Stays;
    OneMore(all, i, outcomes, o);
    Rejoin(Kept(all[..i], outcomes), all, i);
  }

  lemma Rejoin(kept: seq<CoroutineHandle>, all: seq<CoroutineHandle>, i: nat)
    requires i < |all|
    ensures kept + all[i..] == (kept + [all[i]]) + all[i + 1..]
    ensures Cut(kept + all[i..], |kept|) == (kept + []) + all[i + 1..]
    ensures After(kept + all[i..], |kept|) == if i + 1 < |all| then all[i + 1] else null
  {
  }

  lemma LogOn(log: seq<Delivery>, sent: seq<Delivery>, more: seq<Delivery>)
    ensures (log + sent) + more == log + (sent + more)
  {
  }

  /** The actions scheduled for handles. */
  ghost function Schedules(handles: seq<CoroutineHandle>): (r: seq<Action>)
    reads handles`scheduled
    ensures |r| == |handles| && forall j :: 0 <= j < |r| ==> r[j] == handles[j].scheduled
  {
    if handles == [] then [] else Schedules(handles[..|handles| - 1]) + [handles[|handles| - 1].scheduled]
  }

  /** A handle is left alone exactly if its time has not come. */
  ghost predicate OnTime(outcomes: seq<Outcome>, was: seq<Action>, tick: int)
    requires |outcomes| <= |was|
  {
    forall j :: 0 <= j < |outcomes| ==> was[j].WaitRepeat? && (outcomes[j].NotDue? <==> was[j].timePoint >= tick)
  }

  lemma OnTimeStarts(was: seq<Action>, tick: int)
    ensures OnTime([], was, tick)
  {
  }

  lemma OnTimeMore(outcomes: seq<Outcome>, was: seq<Action>, tick: int, o: Outcome)
    requires |outcomes| < |was| && OnTime(outcomes, was, tick)
    requires was[|outcomes|].WaitRepeat? && (o.NotDue? <==> was[|outcomes|].timePoint >= tick)
    ensures OnTime(outcomes + [o], was, tick)
  {
  }

  class Worker {
    const queue: FastQueue
    const processors: Deliveries

    constructor (processors: Deliveries)
      ensures queue.Valid() && queue.nodes == [] && fresh(queue) && this.processors == processors
    {
      queue := new FastQueue();
      this.processors := processors;
    }

    /** `curr->iterate()`: the coroutine's own code. */
    method Iterate(handle: CoroutineHandle) returns (action: Action) {
      action := *;
    }

    /** What the traversal does at one handle; k is its place in the queue. */
    method Visit(curr: CoroutineHandle, prev: CoroutineHandle?, tick: int, ghost k: nat)
      returns (last: CoroutineHandle?, ghost outcome: Outcome)
      requires queue.Valid() && curr.scheduled.WaitRepeat?
      requires k < |queue.nodes| && queue.nodes[k] == curr && prev == if k == 0 then null else queue.nodes[k - 1]
      modifies queue, curr, (if prev == null then {} else {prev})`ref, processors
      ensures queue.Valid() && queue.nodes == if Stays(outcome) then old(queue.nodes) else Cut(old(queue.nodes), k)
      ensures last == if Stays(outcome) then curr else prev
      ensures outcome.NotDue? <==> old(curr.scheduled).timePoint >= tick
      ensures curr.scheduled == Rescheduled(outcome, old(curr.scheduled))
      ensures processors.log == old(processors.log) + Leaves(curr, outcome)
    {
      hide Cut;
      if curr.scheduled.timePoint >= tick {
        return curr, NotDue;
      }
      var action := Iterate(curr);
      outcome := Ran(action);
      last := curr;
      match action {
        case WaitRepeat(_) => curr.scheduled := action;
        case IoWait => curr.scheduled := WaitRepeat(0);
        case Other(_) =>
          CutLeavesOut(queue.nodes, k);
          queue.CutEntry(curr, prev, k);
          curr.scheduled := action;
          processors.PushOneTask(curr);
          last := prev;
      }
    }

    /** One turn of the inner loop of `run`. */
    method Turn(curr: CoroutineHandle, prev: CoroutineHandle?, tick: int,
                ghost all: seq<CoroutineHandle>, ghost i: nat, ghost outcomes: seq<Outcome>)
      returns (next: CoroutineHandle?, last: CoroutineHandle?, ghost outcome: Outcome)
      requires queue.Valid() && Walking(queue.nodes, all, i, outcomes, prev, curr) && curr.scheduled.WaitRepeat?
      modifies queue, curr, (if prev == null then {} else {prev})`ref, processors
      ensures queue.Valid() && Walking(queue.nodes, all, i + 1, outcomes + [outcome], last, next)
      ensures processors.log == old(processors.log) + Leaves(curr, outcome)
      ensures outcome.NotDue? <==> old(curr.scheduled).timePoint >= tick
      ensures curr.scheduled == Rescheduled(outcome, old(curr.scheduled))
    {
      hide Kept, Stays, Cut, FastQueue.Valid, Walking, Rescheduled, After, Leaves;
      ghost var nodes := queue.nodes;
      WalkHere(nodes, all, i, outcomes, prev, curr);
      ghost var k := |Kept(all[..i], outcomes)|;
      LinkAt(queue, k);
      next := curr.ref;
      last, outcome := Visit(curr, prev, tick, k);
      WalkOn(nodes, all, i, outcomes, prev, curr, outcome);
    }

    /** The inner loop of `run`. */
    method Traverse(tick: int) returns (ghost outcomes: seq<Outcome>)
      requires queue.Valid() && forall h :: h in queue.nodes ==> h.scheduled.WaitRepeat?
      modifies queue, queue.nodes, processors
      ensures queue.Valid() && |outcomes| == |old(queue.nodes)|
      ensures queue.nodes == Kept(old(queue.nodes), outcomes)
      ensures processors.log == old(processors.log) + Sent(old(queue.nodes), outcomes)
      ensures OnTime(outcomes, old(Schedules(queue.nodes)), tick)
      ensures forall i :: 0 <= i < |outcomes| ==>
                old(queue.nodes)[i].scheduled == Rescheduled(outcomes[i], old(Schedules(queue.nodes))[i])
    {
      hide Kept, Sent, Stays, Cut, FastQueue.Valid, Walking, Rescheduled, Distinct, After, Leaves, OnTime, Schedules;
      ghost var all, was := queue.nodes, Schedules(queue.nodes);
      ghost var i := 0;
      outcomes := [];
      var curr := queue.first;
      var prev: CoroutineHandle? := null;
      WalkStarts(queue);
      OnTimeStarts(was, tick);
      while curr != null
        invariant queue.Valid() && i <= |all| && |outcomes| == i && Walking(queue.nodes, all, i, outcomes, prev, curr)
        invariant processors.log == old(processors.log) + Sent(all[..i], outcomes)
        invariant OnTime(outcomes, was, tick)
        invariant forall j :: 0 <= j < i ==> all[j].scheduled == Rescheduled(outcomes[j], was[j])
        invariant forall j :: i <= j < |all| ==> all[j].scheduled == was[j]
        decreases |all| - i
      {
        WalkHere(queue.nodes, all, i, outcomes, prev, curr);
        DistinctPlace(all, i);
        ghost var outcome;
        ghost var at := curr;
        curr, prev, outcome := Turn(curr, prev, tick, all, i, outcomes);
        OneMore(all, i, outcomes, outcome);
        OnTimeMore(outcomes, was, tick, outcome);
        LogOn(old(processors.log), Sent(all[..i], outcomes), Leaves(at, outcome));
        outcomes := outcomes + [outcome];
        i := i + 1;
      }
      WalkEnds(queue.nodes, all, i, outcomes, prev);
    }

    /** One turn of the outer loop: afterwards all in the queue wait again, and the next turn can begin. */
    method Pass(tick: int) returns (ghost outcomes: seq<Outcome>)
      requires queue.Valid() && forall h :: h in queue.nodes ==> h.scheduled.WaitRepeat?
      modifies queue, queue.nodes, processors
      ensures queue.Valid() && forall h :: h in queue.nodes ==> h.scheduled.WaitRepeat?
      ensures |outcomes| == |old(queue.nodes)| && queue.nodes == Kept(old(queue.nodes), outcomes)
      ensures processors.log == old(processors.log) + Sent(old(queue.nodes), outcomes)
    {
      hide Kept, Sent, Stays, FastQueue.Valid, Rescheduled, OnTime;
      ghost var all, was := queue.nodes, Schedules(queue.nodes);
      outcomes := Traverse(tick);
      AllWait(all, outcomes, was);
    }
  }

  /** The handles that stay still wait. */
  lemma AllWait(all: seq<CoroutineHandle>, outcomes: seq<Outcome>, was: seq<Action>)
    requires |all| == |outcomes| == |was| && forall j :: 0 <= j < |was| ==> was[j].WaitRepeat?
    requires forall j :: 0 <= j < |all| ==> all[j].scheduled == Rescheduled(outcomes[j], was[j])
    ensures forall h :: h in Kept(all, outcomes) ==> h.scheduled.WaitRepeat?
  {
    hide Kept, Rescheduled, Stays;
    forall h | h in Kept(all, outcomes)
      ensures h.scheduled.WaitRepeat?
    {
      WhoStays(all, outcomes, h);
      var i :| 0 <= i < |all| && all[i] == h && AsksForMore(outcomes, i);
      StaysIs(outcomes, i);
      WaitsUntil(outcomes[i], was[i], 0);
    }
  }

  lemma LinkAt(queue: FastQueue, k: nat)
    requires queue.Valid() && k < |queue.nodes|
    ensures queue.nodes[k].ref == After(queue.nodes, k)
  {
  }

  lemma WalkStarts(queue: FastQueue)
    requires queue.Valid()
    ensures Distinct(queue.nodes)
    ensures Walking(queue.nodes, queue.nodes, 0, [], null, queue.first)
    ensures Sent(queue.nodes[..0], []) == []
  {
  }

  lemma WalkEnds(nodes: seq<CoroutineHandle>, all: seq<CoroutineHandle>, i: nat, outcomes: seq<Outcome>,
                 prev: CoroutineHandle?)
    requires Walking(nodes, all, i, outcomes, prev, null)
    ensures i == |all| && all[..i] == all && nodes == Kept(all, outcomes)
  {
  }

  lemma CutLeavesOut(nodes: seq<CoroutineHandle>, k: nat)
    requires Distinct(nodes) && k < |nodes|
    ensures forall i :: 0 <= i < |nodes| - 1 ==> Cut(nodes, k)[i] != nodes[k]
  {
  }
}
