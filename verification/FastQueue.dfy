/** src/oatpp/async/utils/FastQueue.hpp: the intrusive list of coroutine handles. */
module AsyncQueue {

  /** What the workers look at in an action. */
  datatype Action = WaitRepeat(timePoint: int) | IoWait | Other(actionType: int)

  /** Processors are told apart by their identity alone. */
  type Processor = nat

  datatype Delivery = Delivery(processor: Processor, handle: CoroutineHandle, scheduled: Action)

  /** The calls of `Processor::pushOneTask`, in order. */
  class Deliveries {
    var log: seq<Delivery>

    constructor ()
      ensures log == []
    {
      log := [];
    }

    /** From here on the link of the handle belongs to its processor. */
    method PushOneTask(handle: CoroutineHandle)
      modifies this, handle`ref
      ensures log == old(log) + [Delivery(handle.processor, handle, handle.scheduled)]
    {
      log := log + [Delivery(handle.processor, handle, handle.scheduled)];
      handle.ref := *;
    }
  }

  class CoroutineHandle {
    const processor: Processor
    var scheduled: Action
    var ref: CoroutineHandle?

    constructor (processor: Processor)
      ensures this.processor == processor && scheduled == Other(0) && ref == null
    {
      this.processor := processor;
      scheduled := Other(0);
      ref := null;
    }
  }

  predicate Distinct(s: seq<CoroutineHandle>) {
    forall i, j :: 0 <= i < j < |s| ==> s[i] != s[j]
  }

  lemma DistinctNone()
    ensures Distinct([])
  {
  }

  lemma DistinctConcat(head: seq<CoroutineHandle>, tail: seq<CoroutineHandle>)
    requires Distinct(head) && Distinct(tail) && forall h :: h in tail ==> h !in head
    ensures Distinct(head + tail)
    ensures forall h :: h in head ==> h !in tail
  {
    forall i, j | 0 <= i < j < |head + tail|
      ensures (head + tail)[i] != (head + tail)[j]
    {
      if i < |head| <= j {
        assert head[i] in head && tail[j - |head|] in tail;
      }
    }
  }

  lemma DistinctAt(s: seq<CoroutineHandle>, i: nat, k: nat)
    requires Distinct(s) && i < |s| && k < |s| && i != k
    ensures s[i] != s[k]
  {
  }

  lemma DistinctPlace(s: seq<CoroutineHandle>, k: nat)
    requires Distinct(s) && k < |s|
    ensures forall i :: 0 <= i < |s| && i != k ==> s[i] != s[k]
  {
  }

  /** The node after place i. */
  function After(s: seq<CoroutineHandle>, i: nat): CoroutineHandle? {
    if i + 1 < |s| then s[i + 1] else null
  }

  lemma AfterConcat(head: seq<CoroutineHandle>, tail: seq<CoroutineHandle>, i: nat)
    requires i < |head + tail|
    ensures (head + tail)[i] == (if i < |head| then head[i] else tail[i - |head|])
    ensures After(head + tail, i)
            == (if i >= |head| then After(tail, i - |head|)
                else if i + 1 < |head| then After(head, i)
                else if tail == [] then null else tail[0])
  {
  }

  function Cut(s: seq<CoroutineHandle>, k: nat): (t: seq<CoroutineHandle>)
    requires k < |s|
    ensures |t| == |s| - 1
  {
    s[..k] + s[k + 1..]
  }

  lemma CutShape(s: seq<CoroutineHandle>, k: nat)
    requires Distinct(s) && k < |s|
    ensures Distinct(Cut(s, k))
    ensures k + 1 < |s| ==> Cut(s, k)[|s| - 2] == s[|s| - 1]
    ensures k > 0 ==> Cut(s, k)[0] == s[0] && Cut(s, k)[k - 1] == s[k - 1]
    ensures After(s, k) == null <==> k + 1 == |s|
  {
  }

  lemma AfterCut(s: seq<CoroutineHandle>, k: nat, i: nat)
    requires k < |s| && i < |s| - 1
    ensures Cut(s, k)[i] == (if i < k then s[i] else s[i + 1])
    ensures After(Cut(s, k), i) == (if i + 1 == k then After(s, k) else if i < k then After(s, i) else After(s, i + 1))
  {
  }

  class FastQueue {
    var first: CoroutineHandle?
    var last: CoroutineHandle?
    var count: int
    ghost var nodes: seq<CoroutineHandle>

    /** The chain of links runs through the nodes in order. */
    ghost predicate Linked()
      reads this, nodes`ref
    {
      forall i :: 0 <= i < |nodes| ==> nodes[i].ref == After(nodes, i)
    }

    ghost predicate Valid()
      reads this, nodes`ref
    {
      && count == |nodes| && Distinct(nodes) && Linked()
      && first == (if nodes == [] then null else nodes[0])
      && last == (if nodes == [] then null else nodes[|nodes| - 1])
    }

    constructor ()
      ensures Valid() && nodes == []
    {
      first, last, count, nodes := null, null, 0, [];
    }

    method PushFront(entry: CoroutineHandle)
      requires Valid() && entry !in nodes
      modifies this, entry`ref
      ensures Valid() && nodes == [entry] + old(nodes)
    {
      entry.ref := first;
      first := entry;
      if last == null {
        last := first;
      }
      count := count + 1;
      nodes := [entry] + nodes;
      assert forall i :: 1 <= i < |nodes| ==> nodes[i] == old(nodes)[i - 1];
    }

    method PushBack(entry: CoroutineHandle)
      requires Valid() && entry !in nodes
      modifies this, entry`ref, nodes`ref
      ensures Valid() && nodes == old(nodes) + [entry]
    {
      entry.ref := null;
      if last == null {
        first := entry;
        last := entry;
      } else {
        last.ref := entry;
        last := entry;
      }
      count := count + 1;
      nodes := nodes + [entry];
    }

    /** The head goes to the back. */
    method Round()
      requires Valid()
      modifies this, nodes`ref
      ensures Valid() && nodes == if |old(nodes)| > 1 then old(nodes)[1..] + [old(nodes)[0]] else old(nodes)
    {
      if count > 1 {
        ghost var before := nodes;
        last.ref := first;
        last := first;
        first := first.ref;
        last.ref := null;
        nodes := nodes[1..] + [nodes[0]];
        assert forall i :: 0 <= i < |nodes| ==> nodes[i] == if i + 1 < |before| then before[i + 1] else before[0];
      }
    }

    method PopFront() returns (result: CoroutineHandle)
      requires Valid() && nodes != []
      modifies this
      ensures Valid() && result == old(nodes)[0] && nodes == old(nodes)[1..]
    {
      result := first;
      assert nodes[0].ref == After(nodes, 0);
      first := first.ref;
      if first == null {
        last := null;
      }
      count := count - 1;
      nodes := nodes[1..];
      assert forall i :: 0 <= i < |nodes| ==> nodes[i] == old(nodes)[i + 1];
    }

    /** Appends all of one queue to another. */
    static method MoveAll(fromQueue: FastQueue, toQueue: FastQueue)
      requires fromQueue.Valid() && toQueue.Valid() && fromQueue != toQueue
      requires forall h :: h in fromQueue.nodes ==> h !in toQueue.nodes
      modifies fromQueue, toQueue, toQueue.nodes`ref
      ensures fromQueue.Valid() && fromQueue.nodes == []
      ensures toQueue.Valid() && toQueue.nodes == old(toQueue.nodes) + old(fromQueue.nodes)
    {
      hide Distinct, After;
      if fromQueue.count > 0 {
        ghost var head, tail := toQueue.nodes, fromQueue.nodes;
        DistinctConcat(head, tail);
        DistinctNone();
        if head != [] {
          DistinctPlace(head, |head| - 1);
        }
        if toQueue.last == null {
          toQueue.first := fromQueue.first;
          toQueue.last := fromQueue.last;
        } else {
          toQueue.last.ref := fromQueue.first;
          toQueue.last := fromQueue.last;
        }
        toQueue.count := toQueue.count + fromQueue.count;
        fromQueue.count := 0;
        fromQueue.first := null;
        fromQueue.last := null;
        toQueue.nodes := head + tail;
        fromQueue.nodes := [];
        forall i | 0 <= i < |head| + |tail|
          ensures toQueue.nodes[i].ref == After(toQueue.nodes, i)
        {
          AfterConcat(head, tail, i);
          if i < |head| {
            if i + 1 < |head| {
              assert head[i].ref == After(head, i);
            }
          } else {
            assert tail[i - |head|] !in head;
            assert tail[i - |head|].ref == After(tail, i - |head|);
          }
        }
      } else {
        assert toQueue.nodes + [] == toQueue.nodes;
      }
    }

    /** The entry after another one is unlinked. */
    method Unlink(entry: CoroutineHandle, prevEntry: CoroutineHandle, ghost k: nat)
      requires Valid() && 0 < k < |nodes| && nodes[k] == entry && prevEntry == nodes[k - 1]
      modifies this, prevEntry`ref
      ensures Valid() && nodes == Cut(old(nodes), k)
    {
      hide Distinct, After, Cut;
      ghost var before := nodes;
      CutShape(before, k);
      assert before[k].ref == After(before, k);
      assert forall i :: 0 <= i < |before| ==> before[i].ref == After(before, i);
      label relink:
      prevEntry.ref := entry.ref;
      count := count - 1;
      if prevEntry.ref == null {
        last := prevEntry;
      }
      nodes := Cut(before, k);
      forall i | 0 <= i < |nodes|
        ensures nodes[i].ref == After(nodes, i)
      {
        AfterCut(before, k, i);
        var j := if i < k then i else i + 1;
        if i == k - 1 {
          assert before[j].ref == After(before, k);
        } else {
          DistinctAt(before, j, k - 1);
          assert old@relink(before[j].ref) == After(before, j);
        }
      }
    }

    /** Takes the entry at place k out; prevEntry is the one before it. */
    method CutEntry(entry: CoroutineHandle, prevEntry: CoroutineHandle?, ghost k: nat)
      requires Valid() && k < |nodes| && nodes[k] == entry
      requires prevEntry == if k == 0 then null else nodes[k - 1]
      modifies this, (if prevEntry == null then {} else {prevEntry})`ref
      ensures Valid() && nodes == Cut(old(nodes), k)
    {
      if prevEntry == null {
        var _ := PopFront();
      } else {
        Unlink(entry, prevEntry, k);
      }
    }
  }
}
