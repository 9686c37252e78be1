/** `CoroutineStarter`: a chain of coroutines that were not started yet, linked through m_parentReturnAction. */
module CoroutineStarters {
  import opened Coroutines
  import opened CoroutineProof

  /** m_parentReturnAction of a coroutine that was not started: another coroutine, or an action that holds none. */
  datatype Link = ToCoroutine(coroutine: AbstractCoroutine?) | ToAction(action: Action)

  class AbstractCoroutine {
    const id: nat
    var parentReturnAction: Link

    constructor (id: nat)
      ensures this.id == id && parentReturnAction == ToAction(None)
    {
      this.id := id;
      parentReturnAction := ToAction(None);
    }
  }

  predicate Distinct(s: seq<AbstractCoroutine>) {
    forall i, j :: 0 <= i < j < |s| ==> s[i] != s[j]
  }

  function Ids(s: seq<AbstractCoroutine>): (r: seq<nat>)
    ensures |r| == |s| && forall i :: 0 <= i < |s| ==> r[i] == s[i].id
  {
    seq(|s|, i requires 0 <= i < |s| => s[i].id)
  }

  /** Each coroutine but the last one leads to the next. */
  ghost predicate Linked(s: seq<AbstractCoroutine>)
    reads s
  {
    forall i :: 0 <= i < |s| - 1 ==> LeadsTo(s[i], s[i + 1])
  }

  ghost predicate LeadsTo(a: AbstractCoroutine, b: AbstractCoroutine)
    reads a
  {
    a.parentReturnAction == ToCoroutine(b)
  }

  /** The action that the chain of coroutines c, with the links as they are, stands for. */
  ghost predicate Means(s: seq<AbstractCoroutine>, final: Link)
    reads s
  {
    Linked(s) && (s != [] ==> s[|s| - 1].parentReturnAction == final)
  }

  class CoroutineStarter {
    var first: AbstractCoroutine?
    var last: AbstractCoroutine?

    /** The coroutines that a call of `next` can still reach. */
    ghost var chain: seq<AbstractCoroutine>

    ghost predicate Valid()
      reads this, chain
    {
      && Distinct(chain) && Linked(chain)
      && last == (if chain == [] then null else chain[|chain| - 1])
      && (chain != [] ==> first == chain[0])
    }

    /** A null coroutine gives an empty starter. */
    constructor (coroutine: AbstractCoroutine?)
      ensures Valid() && chain == if coroutine == null then [] else [coroutine]
    {
      first := coroutine;
      last := coroutine;
      chain := if coroutine == null then [] else [coroutine];
    }

    /** `next(Action&&)`: the chain, followed by the action; just the action if the starter is empty. */
    method NextAction(action: Link) returns (result: Link)
      requires Valid()
      modifies this, chain
      ensures Valid() && chain == []
      ensures result == if old(chain) == [] then action else ToCoroutine(old(chain)[0])
      ensures Means(old(chain), action)
    {
      if last == null {
        return action;
      }
      last.parentReturnAction := action;
      result := ToCoroutine(first);
      first := null;
      last := null;
      chain := [];
    }

    /** `next(CoroutineStarter&&)`. After an empty starter the coroutines of this one can no longer be reached. */
    method NextStarter(starter: CoroutineStarter)
      requires Valid() && starter.Valid() && starter != this
      requires forall c :: c in starter.chain ==> c !in chain
      modifies this, starter, chain
      ensures Valid() && starter.Valid() && starter.chain == []
      ensures Joined(old(chain), old(starter.chain), chain)
    {
      if last == null {
        first := starter.first;
        last := starter.last;
        chain := starter.chain;
      } else {
        ghost var before, more := chain, starter.chain;
        assert last in before && forall c :: c in more ==> c != last;
        last.parentReturnAction := ToCoroutine(starter.first);
        last := starter.last;
        chain := if more == [] then [] else before + more;
        if more != [] {
          JoinDistinct(before, more);
          forall i | 0 <= i < |chain| - 1
            ensures LeadsTo(chain[i], chain[i + 1])
          {
            JoinAt(before, more, i);
            if i < |before| - 1 {
              assert LeadsTo(before[i], before[i + 1]);
            } else if i >= |before| {
              assert more[i - |before|] in more && old(LeadsTo(more[i - |before|], more[i + 1 - |before|]));
              assert LeadsTo(more[i - |before|], more[i + 1 - |before|]);
            }
          }
        }
      }
      starter.first := null;
      starter.last := null;
      starter.chain := [];
    }
  }

  /** What joining two starters leaves. */
  function Join<T>(a: seq<T>, b: seq<T>): seq<T> {
    if a == [] then b else if b == [] then [] else a + b
  }

  predicate Joined(a: seq<AbstractCoroutine>, b: seq<AbstractCoroutine>, r: seq<AbstractCoroutine>) {
    r == Join(a, b)
  }

  lemma JoinDistinct(a: seq<AbstractCoroutine>, b: seq<AbstractCoroutine>)
    requires Distinct(a) && Distinct(b) && forall c :: c in b ==> c !in a
    ensures Distinct(a + b)
  {
    forall i, j | 0 <= i < j < |a + b|
      ensures (a + b)[i] != (a + b)[j]
    {
      if i < |a| <= j {
        assert a[i] in a && b[j - |a|] in b;
      }
    }
  }

  lemma JoinAt(a: seq<AbstractCoroutine>, b: seq<AbstractCoroutine>, i: nat)
    requires i + 1 < |a + b|
    ensures (a + b)[i] == (if i < |a| then a[i] else b[i - |a|])
    ensures (a + b)[i + 1] == (if i + 1 < |a| then a[i + 1] else b[i + 1 - |a|])
  {
  }

  /** Joining starters is associative except in one case: an empty starter between two that are not empty. */
  lemma NextAssociative(a: seq<nat>, b: seq<nat>, c: seq<nat>)
    ensures Join(Join(a, b), c) == Join(a, Join(b, c)) <==> !(a != [] && b == [] && c != [])
  {
    if a != [] && c != [] {
      if b == [] {
        assert |a + c| != |c|;
      } else {
        assert (a + b) + c == a + (b + c);
      }
    }
  }

  /** All coroutines are kept exactly if no non-empty starter is followed by an empty one. */
  lemma NextKeepsAll(a: seq<nat>, b: seq<nat>)
    ensures Join(a, b) == a + b <==> a == [] || b != []
  {
  }

  /** The action a chain stands for. */
  ghost function ActionOf(s: seq<AbstractCoroutine>, final: Action): Action {
    Chain(Ids(s), final)
  }

  /** The links of a chain, read as a value, are the pipeline of its coroutines: what follows coroutine k is the
      pipeline of those after it. */
  ghost predicate Represents(link: Link, action: Action, s: seq<AbstractCoroutine>, k: nat, final: Action)
    requires k <= |s|
    reads s
    decreases |s| - k
  {
    if k == |s| then link == ToAction(final) && action == final
    else
      && link == ToCoroutine(s[k])
      && action.Start? && action.coroutine.id == s[k].id
      && Represents(s[k].parentReturnAction, action.coroutine.next, s, k + 1, final)
  }

  lemma {:induction false} ChainRepresented(s: seq<AbstractCoroutine>, k: nat, final: Action)
    requires k <= |s| && Means(s, ToAction(final))
    ensures Represents(if k == |s| then ToAction(final) else ToCoroutine(s[k]), ActionOf(s[k..], final), s, k, final)
    decreases |s| - k
  {
    if k < |s| {
      ChainRepresented(s, k + 1, final);
      assert Ids(s[k..])[1..] == Ids(s[k + 1..]);
      if k + 1 < |s| {
        assert LeadsTo(s[k], s[k + 1]);
      }
    }
  }
}
