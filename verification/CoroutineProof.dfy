/** What `takeAction` keeps: every object is deleted once, errors find the nearest handler, and a pipeline runs its
    coroutines in order. */
module CoroutineProof {
  import opened Coroutines

  // ----- Every object is deleted exactly once -----

  lemma NoObjects(a: multiset<Owned>)
    ensures a + multiset{} == a && multiset{} + a == a && Objects(None) == multiset{} && Objects(Finish) == multiset{}
  {
  }

  lemma StartConserves(stack: seq<Frame>, c: Coroutine, fp: FunctionPtr)
    ensures StackObjects(stack) + Objects(Start(c)) == StackObjects([Frame(c.id, c.next, fp)] + stack)
  {
  }

  lemma FinishConserves(stack: seq<Frame>)
    requires stack != []
    ensures StackObjects(stack) == StackObjects(stack[1..]) + Objects(stack[0].next) + multiset{Co(stack[0].id)}
  {
  }

  /** A handler answers an error e with the error r, and its frame is popped. */
  lemma PopConserves(stack: seq<Frame>, e: nat, r: nat)
    requires stack != []
    ensures StackObjects(stack) + Objects(Error(e)) + Made(e, r)
            == StackObjects(stack[1..]) + Objects(Error(r)) + (Dropped(stack[0]) + Replaced(e, r))
  {
  }

  lemma TurnConserves(h: Handler, stack: seq<Frame>, fp: FunctionPtr, action: Action)
    requires Runnable(stack, action)
    ensures var t := TurnOf(h, stack, fp, action).taken;
            StackObjects(stack) + Objects(action) + t.created == StackObjects(t.stack) + Objects(t.action) + t.freed
  {
    hide StackObjects, Objects, Dropped, Made, Replaced;
    NoObjects(StackObjects(stack));
    NoObjects(StackObjects(stack) + Objects(action));
    match action
    case Start(c) =>
      StartConserves(stack, c, fp);
      NoObjects(StackObjects([Frame(c.id, c.next, fp)] + stack));
    case Finish => FinishConserves(stack);
    case Error(e) => ErrorConserves(h, stack, fp, e);
    case _ =>
  }

  lemma ErrorConserves(h: Handler, stack: seq<Frame>, fp: FunctionPtr, e: nat)
    requires Runnable(stack, Error(e))
    ensures var t := TurnOf(h, stack, fp, Error(e)).taken;
            StackObjects(stack) + Objects(Error(e)) + t.created == StackObjects(t.stack) + Objects(t.action) + t.freed
  {
    hide StackObjects, Dropped, Made, Replaced, Rooted;
    var answer := h(stack[0].id, e);
    if answer.Error? {
      PopConserves(stack, e, answer.error);
      NoObjects(StackObjects([]));
      if |stack| == 1 {
        assert stack[1..] == [];
        Swap(StackObjects([]), Objects(answer), Dropped(stack[0]) + Replaced(e, answer.error));
      }
    } else {
      Swap(StackObjects(stack), Objects(Error(e)), Objects(answer));
    }
  }

  lemma Swap(a: multiset<Owned>, b: multiset<Owned>, c: multiset<Owned>)
    ensures a + b + c == a + c + b == a + (c + b)
  {
  }

  /** Whatever a call of `takeAction` finds on the stack and in its action, and whatever the error handlers make, is
      afterwards on the stack, in the returned action, or deleted: nothing twice and nothing lost. */
  lemma {:induction false} Conservation(h: Handler, stack: seq<Frame>, fp: FunctionPtr, action: Action)
    requires Runnable(stack, action)
    ensures var t := Take(h, stack, fp, action);
            StackObjects(stack) + Objects(action) + t.created == StackObjects(t.stack) + Objects(t.action) + t.freed
    decreases |stack|, if action.Error? then 1 else 0
  {
    hide TurnOf, StackObjects, Objects, Rooted;
    var turn := TurnOf(h, stack, fp, action);
    TurnConserves(h, stack, fp, action);
    if !turn.done {
      var next := turn.taken;
      Conservation(h, next.stack, next.fp, next.action);
      var t := Take(h, next.stack, next.fp, next.action);
      Balance(StackObjects(stack) + Objects(action), next.created, StackObjects(next.stack) + Objects(next.action),
              next.freed,
              t.created, StackObjects(t.stack) + Objects(t.action), t.freed);
    }
  }

  lemma Balance(a: multiset<Owned>, made: multiset<Owned>, b: multiset<Owned>, gone: multiset<Owned>,
                more: multiset<Owned>, c: multiset<Owned>, after: multiset<Owned>)
    requires a + made == b + gone && b + more == c + after
    ensures a + (made + more) == c + (gone + after)
  {
    assert a + (made + more) == (a + made) + more == (b + gone) + more == (b + more) + gone == (c + after) + gone;
  }

  // ----- Errors -----

  datatype Unwinding = Caught(stack: seq<Frame>, answer: Action) | Lost(error: nat)

  /** An error climbs the frames, changed or not by each handler, to the first whose handler answers with something
      else. */
  function Unwound(h: Handler, stack: seq<Frame>, e: nat): Unwinding {
    if stack == [] then Lost(e) else
      var answer := h(stack[0].id, e);
      if answer.Error? then Unwound(h, stack[1..], answer.error) else Caught(stack, answer)
  }

  predicate Same(a: Taken, b: Taken) {
    a.stack == b.stack && a.fp == b.fp && a.action == b.action
  }

  /** `takeAction` goes on in the frame whose handler took the error, or ends the coroutine if none did. */
  lemma {:induction false} ErrorUnwinds(h: Handler, stack: seq<Frame>, fp: FunctionPtr, e: nat)
    requires Rooted(stack) && stack != []
    ensures match Unwound(h, stack, e)
            case Lost(_) => Take(h, stack, fp, Error(e)).stack == [] && Take(h, stack, fp, Error(e)).action == None
            case Caught(rest, answer) =>
              Rooted(rest) && rest != [] && Same(Take(h, stack, fp, Error(e)), Take(h, rest, fp, answer))
    decreases |stack|
  {
    hide Dropped, Objects;
    var answer := h(stack[0].id, e);
    if answer.Error? {
      if |stack| == 1 {
        assert Unwound(h, stack[1..], answer.error) == Lost(answer.error);
      } else {
        ErrorUnwinds(h, stack[1..], fp, answer.error);
      }
    }
  }

  /** The error that reaches frame k, if all handlers before it answer with errors. */
  function ErrorAt(h: Handler, stack: seq<Frame>, e: nat, k: nat): nat
    requires k <= |stack|
  {
    if k == 0 then e else
      var answer := h(stack[k - 1].id, ErrorAt(h, stack, e, k - 1));
      if answer.Error? then answer.error else 0
  }

  predicate Passes(h: Handler, stack: seq<Frame>, e: nat, k: nat)
    requires k < |stack|
  {
    h(stack[k].id, ErrorAt(h, stack, e, k)).Error?
  }

  lemma {:induction false} ErrorAtLater(h: Handler, stack: seq<Frame>, e: nat, k: nat)
    requires stack != [] && h(stack[0].id, e).Error? && k < |stack|
    ensures ErrorAt(h, stack, e, k + 1) == ErrorAt(h, stack[1..], h(stack[0].id, e).error, k)
    decreases k
  {
    if k > 0 {
      ErrorAtLater(h, stack, e, k - 1);
    } else {
      assert ErrorAt(h, stack, e, 1) == h(stack[0].id, ErrorAt(h, stack, e, 0)).error;
    }
  }

  /** The frame that catches the error is the nearest one whose handler does not answer with an error. */
  lemma {:induction false} NearestHandler(h: Handler, stack: seq<Frame>, e: nat, n: nat)
    requires n < |stack|
    ensures Unwound(h, stack, e) == Caught(stack[n..], h(stack[n].id, ErrorAt(h, stack, e, n)))
            <==> !Passes(h, stack, e, n) && forall k :: 0 <= k < n ==> Passes(h, stack, e, k)
    decreases |stack|
  {
    var answer := h(stack[0].id, e);
    assert Passes(h, stack, e, 0) == answer.Error?;
    if !answer.Error? {
      assert Unwound(h, stack, e) == Caught(stack, answer);
      assert stack[0..] == stack;
    } else {
      PassesLater(h, stack, e);
      if n > 0 {
        NearestHandler(h, stack[1..], answer.error, n - 1);
        ErrorAtLater(h, stack, e, n - 1);
        assert stack[1..][n - 1..] == stack[n..];
        assert (forall k :: 0 <= k < n ==> Passes(h, stack, e, k))
          <==> (forall k :: 0 <= k < n - 1 ==> Passes(h, stack[1..], answer.error, k)) by {
          assert forall k :: 1 <= k < n ==> Passes(h, stack, e, k) == Passes(h, stack[1..], answer.error, k - 1);
          assert forall k :: 0 <= k < n - 1 ==> Passes(h, stack, e, k + 1) == Passes(h, stack[1..], answer.error, k);
        }
      } else {
        UnwoundIsBelow(h, stack[1..], answer.error);
      }
    }
  }

  lemma PassesLater(h: Handler, stack: seq<Frame>, e: nat)
    requires stack != [] && h(stack[0].id, e).Error?
    ensures forall k :: 0 <= k < |stack| - 1 ==>
            Passes(h, stack, e, k + 1) == Passes(h, stack[1..], h(stack[0].id, e).error, k)
  {
    forall k | 0 <= k < |stack| - 1
      ensures Passes(h, stack, e, k + 1) == Passes(h, stack[1..], h(stack[0].id, e).error, k)
    {
      ErrorAtLater(h, stack, e, k);
    }
  }

  lemma {:induction false} UnwoundIsBelow(h: Handler, stack: seq<Frame>, e: nat)
    ensures Unwound(h, stack, e).Caught? ==> |Unwound(h, stack, e).stack| <= |stack|
    decreases |stack|
  {
    if stack != [] {
      var answer := h(stack[0].id, e);
      if answer.Error? {
        UnwoundIsBelow(h, stack[1..], answer.error);
      }
    }
  }

  /** The coroutine ends exactly if every handler on the stack answers with an error. */
  lemma {:induction false} NobodyCatches(h: Handler, stack: seq<Frame>, e: nat)
    ensures Unwound(h, stack, e).Lost? <==> forall k :: 0 <= k < |stack| ==> Passes(h, stack, e, k)
    decreases |stack|
  {
    if stack != [] {
      var answer := h(stack[0].id, e);
      assert Passes(h, stack, e, 0) == answer.Error?;
      if answer.Error? {
        NobodyCatches(h, stack[1..], answer.error);
        PassesLater(h, stack, e);
        assert forall k :: 1 <= k < |stack| ==> Passes(h, stack, e, k) == Passes(h, stack[1..], answer.error, k - 1);
      }
    }
  }

  predicate SameCoroutines(a: seq<Frame>, b: seq<Frame>) {
    |a| == |b| && forall k :: 0 <= k < |a| ==> a[k].id == b[k].id
  }

  /** Handlers see only the coroutine and the error. */
  lemma {:induction false} UnwindsAlike(h: Handler, a: seq<Frame>, b: seq<Frame>, e: nat)
    requires SameCoroutines(a, b)
    ensures match Unwound(h, a, e)
            case Lost(error) => Unwound(h, b, e) == Lost(error)
            case Caught(rest, answer) =>
              && |rest| <= |a| && rest == a[|a| - |rest|..]
              && Unwound(h, b, e) == Caught(b[|a| - |rest|..], answer)
    decreases |a|
  {
    if a != [] {
      var answer := h(a[0].id, e);
      if answer.Error? {
        UnwindsAlike(h, a[1..], b[1..], answer.error);
      } else {
        assert a[0..] == a && b[0..] == b;
      }
    }
  }

  /** The two stacks have the same frames from the one that catches the error down. */
  predicate SameBelow(h: Handler, a: seq<Frame>, b: seq<Frame>, e: nat) {
    match Unwound(h, a, e)
    case Lost(_) => true
    case Caught(rest, _) => |rest| <= |b| && b[|b| - |rest|..] == rest
  }

  /** The pipeline successors of the frames an error pops play no part: with others in their place `takeAction` ends
      with the same frames, function pointer and action. */
  lemma SuccessorsIgnored(h: Handler, a: seq<Frame>, b: seq<Frame>, fp: FunctionPtr, e: nat)
    requires Rooted(a) && Rooted(b) && a != [] && SameCoroutines(a, b) && SameBelow(h, a, b, e)
    ensures Same(Take(h, a, fp, Error(e)), Take(h, b, fp, Error(e)))
  {
    hide Take, Rooted, Unwound;
    UnwindsAlike(h, a, b, e);
    ErrorUnwinds(h, a, fp, e);
    ErrorUnwinds(h, b, fp, e);
    if Unwound(h, a, e).Lost? {
      LostAlike(h, a, fp, e);
      LostAlike(h, b, fp, e);
    }
  }

  /** The function pointer stays as it was. */
  lemma {:induction false} LostAlike(h: Handler, stack: seq<Frame>, fp: FunctionPtr, e: nat)
    requires Rooted(stack) && stack != [] && Unwound(h, stack, e).Lost?
    ensures Take(h, stack, fp, Error(e)).fp == fp
    decreases |stack|
  {
    hide Dropped, Objects;
    if |stack| > 1 {
      LostAlike(h, stack[1..], fp, h(stack[0].id, e).error);
    }
  }

  // ----- Pipelines -----

  /** `a.next(b)...next(final)` */
  function Chain(ids: seq<nat>, final: Action): Action {
    if ids == [] then final else Start(Coroutine(ids[0], Chain(ids[1..], final)))
  }

  /** Coroutine k of the pipeline, waiting to go on in `base` at fp. */
  function Stage(ids: seq<nat>, final: Action, k: nat, fp: FunctionPtr): Frame
    requires k < |ids|
  {
    Frame(ids[k], Chain(ids[k + 1..], final), fp)
  }

  /** The frames are those of coroutine k of the pipeline, with whatever it has started on top. */
  predicate Inside(stack: seq<Frame>, base: seq<Frame>, fp: FunctionPtr, ids: seq<nat>, final: Action, k: nat) {
    && k < |ids| && |stack| > |base|
    && stack[|stack| - |base|..] == base
    && stack[|stack| - |base| - 1] == Stage(ids, final, k, fp)
  }

  /** What becomes of the lowest of the top frames of a stack: it stays, or it finishes, or an error comes out of it,
      with the function pointer of that moment. */
  datatype Fate = Stays | Finishes | Fails(error: nat, fp: FunctionPtr)

  /** What becomes of frame n from the top in one call of `takeAction`: a coroutine that finishes hands its successor's
      action to the frame below, and one that fails hands on its error. */
  function FateOf(h: Handler, stack: seq<Frame>, fp: FunctionPtr, action: Action, n: nat): Fate
    requires 0 < n <= |stack|
    decreases n, if action.Error? then 1 else 0
  {
    match action
    case Finish => if n == 1 then Finishes else FateOf(h, stack[1..], stack[0].returnFp, stack[0].next, n - 1)
    case Error(e) =>
      var answer := h(stack[0].id, e);
      if !answer.Error? then FateOf(h, stack, fp, answer, n)
      else if n == 1 then Fails(answer.error, fp)
      else FateOf(h, stack[1..], fp, answer, n - 1)
    case _ => Stays
  }

  /** What one `takeAction` makes of a pipeline at coroutine k. As long as that one stays, so does its frame; when it
      finishes, its successor has just started in the same place or, after the last one, the final action is taken in
      the original frame; when it fails, the error is handled in the original frame. */
  predicate StepsOn(h: Handler, t: Taken, fate: Fate, base: seq<Frame>, fp: FunctionPtr, ids: seq<nat>, final: Action,
                    k: nat)
    requires Rooted(base) && base != [] && k < |ids|
  {
    match fate
    case Stays => Inside(t.stack, base, fp, ids, final, k)
    case Finishes =>
      if k + 1 < |ids| then t.stack == [Stage(ids, final, k + 1, fp)] + base && t.fp == Act && t.action == None
      else Same(t, Take(h, base, fp, final))
    case Fails(e, f) => Same(t, Take(h, base, f, Error(e)))
  }

  lemma {:induction false} PipelineStep(h: Handler, stack: seq<Frame>, now: FunctionPtr, action: Action,
                                        base: seq<Frame>, fp: FunctionPtr, ids: seq<nat>, final: Action, k: nat)
    requires Rooted(base) && base != [] && Runnable(stack, action) && Inside(stack, base, fp, ids, final, k)
    ensures |stack| > |base|
    ensures StepsOn(h, Take(h, stack, now, action), FateOf(h, stack, now, action, |stack| - |base|), base, fp, ids,
                    final, k)
    decreases |stack|, if action.Error? then 1 else 0, 1
  {
    hide TurnOf, Chain, Stage, StepsOn, Inside, Rooted, Take;
    InsideSize(stack, base, fp, ids, final, k);
    match action
    case Start(c) =>
      StartTurn(h, stack, now, c);
      StillInside(h, [Frame(c.id, c.next, now)], stack, base, fp, ids, final, k, Take(h, stack, now, action));
    case Finish => FinishStep(h, stack, now, base, fp, ids, final, k);
    case Error(e) => ErrorStep(h, stack, now, e, base, fp, ids, final, k);
    case _ =>
      PassiveTurn(h, stack, now, action);
      assert [] + stack == stack;
      StillInside(h, [], stack, base, fp, ids, final, k, Take(h, stack, now, action));
  }

  lemma {:induction false} FinishStep(h: Handler, stack: seq<Frame>, now: FunctionPtr,
                                      base: seq<Frame>, fp: FunctionPtr, ids: seq<nat>, final: Action, k: nat)
    requires Rooted(base) && base != [] && Runnable(stack, Finish) && Inside(stack, base, fp, ids, final, k)
    ensures |stack| > |base|
    ensures StepsOn(h, Take(h, stack, now, Finish), FateOf(h, stack, now, Finish, |stack| - |base|), base, fp, ids,
                    final, k)
    decreases |stack|, 0, 0
  {
    hide TurnOf, Chain, Stage, StepsOn, Inside, Rooted, Take;
    InsideSize(stack, base, fp, ids, final, k);
    if |stack| == |base| + 1 {
      StageDone(h, stack, now, base, fp, ids, final, k);
    } else {
      var rest, f, next := stack[1..], stack[0].returnFp, stack[0].next;
      PoppedInside(stack, base, fp, ids, final, k);
      FinishTurn(h, stack, now);
      PipelineStep(h, rest, f, next, base, fp, ids, final, k);
      StepsOnAlike(h, Take(h, stack, now, Finish), Take(h, rest, f, next), FateOf(h, rest, f, next, |rest| - |base|),
                   base, fp, ids, final, k);
    }
  }

  lemma {:induction false} ErrorStep(h: Handler, stack: seq<Frame>, now: FunctionPtr, e: nat,
                                     base: seq<Frame>, fp: FunctionPtr, ids: seq<nat>, final: Action, k: nat)
    requires Rooted(base) && base != [] && Runnable(stack, Error(e)) && Inside(stack, base, fp, ids, final, k)
    ensures |stack| > |base|
    ensures StepsOn(h, Take(h, stack, now, Error(e)), FateOf(h, stack, now, Error(e), |stack| - |base|), base, fp, ids,
                    final, k)
    decreases |stack|, 1, 0
  {
    hide TurnOf, Chain, Stage, StepsOn, Inside, Rooted, Take;
    InsideSize(stack, base, fp, ids, final, k);
    ErrorTurn(h, stack, now, e);
    var answer := h(stack[0].id, e);
    if answer.Error? && |stack| == |base| + 1 {
      BareStage(stack, base, fp, ids, final, k);
      FailsHere(h, Take(h, stack, now, Error(e)), now, answer.error, base, fp, ids, final, k);
    } else {
      var rest := if answer.Error? then stack[1..] else stack;
      if answer.Error? {
        PoppedInside(stack, base, fp, ids, final, k);
      }
      PipelineStep(h, rest, now, answer, base, fp, ids, final, k);
      StepsOnAlike(h, Take(h, stack, now, Error(e)), Take(h, rest, now, answer),
                   FateOf(h, rest, now, answer, |rest| - |base|), base, fp, ids, final, k);
    }
  }

  lemma InsideSize(stack: seq<Frame>, base: seq<Frame>, fp: FunctionPtr, ids: seq<nat>, final: Action, k: nat)
    requires Inside(stack, base, fp, ids, final, k)
    ensures k < |ids| && |stack| > |base|
  {
  }

  lemma StartTurn(h: Handler, stack: seq<Frame>, fp: FunctionPtr, c: Coroutine)
    requires Runnable(stack, Start(c))
    ensures var t := Take(h, stack, fp, Start(c));
            t.stack == [Frame(c.id, c.next, fp)] + stack && t.fp == Act && t.action == None
  {
  }

  lemma PassiveTurn(h: Handler, stack: seq<Frame>, fp: FunctionPtr, action: Action)
    requires Runnable(stack, action) && IsPassive(action)
    ensures Take(h, stack, fp, action).stack == stack
  {
  }

  lemma FinishTurn(h: Handler, stack: seq<Frame>, fp: FunctionPtr)
    requires Runnable(stack, Finish)
    ensures Runnable(stack[1..], stack[0].next)
    ensures Same(Take(h, stack, fp, Finish), Take(h, stack[1..], stack[0].returnFp, stack[0].next))
  {
  }

  lemma ErrorTurn(h: Handler, stack: seq<Frame>, fp: FunctionPtr, e: nat)
    requires Runnable(stack, Error(e))
    ensures var answer := h(stack[0].id, e);
            if !answer.Error? then
              Runnable(stack, answer) && Same(Take(h, stack, fp, Error(e)), Take(h, stack, fp, answer))
            else if |stack| > 1 then
              Runnable(stack[1..], answer) && Same(Take(h, stack, fp, Error(e)), Take(h, stack[1..], fp, answer))
            else Take(h, stack, fp, Error(e)).stack == []
  {
  }

  /** Only the frames, the function pointer and the action matter. */
  lemma StepsOnAlike(h: Handler, t: Taken, u: Taken, fate: Fate, base: seq<Frame>, fp: FunctionPtr, ids: seq<nat>,
                     final: Action, k: nat)
    requires Rooted(base) && base != [] && k < |ids| && Same(t, u) && StepsOn(h, u, fate, base, fp, ids, final, k)
    ensures StepsOn(h, t, fate, base, fp, ids, final, k)
  {
  }

  lemma StillInside(h: Handler, more: seq<Frame>, stack: seq<Frame>, base: seq<Frame>, fp: FunctionPtr, ids: seq<nat>,
                    final: Action, k: nat, t: Taken)
    requires Rooted(base) && base != [] && Inside(stack, base, fp, ids, final, k) && t.stack == more + stack
    ensures k < |ids| && StepsOn(h, t, Stays, base, fp, ids, final, k)
  {
  }

  lemma FailsHere(h: Handler, t: Taken, f: FunctionPtr, e: nat, base: seq<Frame>, fp: FunctionPtr, ids: seq<nat>,
                  final: Action, k: nat)
    requires Rooted(base) && base != [] && k < |ids| && Same(t, Take(h, base, f, Error(e)))
    ensures StepsOn(h, t, Fails(e, f), base, fp, ids, final, k)
  {
  }

  lemma PoppedInside(stack: seq<Frame>, base: seq<Frame>, fp: FunctionPtr, ids: seq<nat>, final: Action, k: nat)
    requires Inside(stack, base, fp, ids, final, k) && |stack| > |base| + 1
    ensures Inside(stack[1..], base, fp, ids, final, k)
  {
  }

  /** Coroutine k finishes with nothing on top of it. */
  lemma StageDone(h: Handler, stack: seq<Frame>, now: FunctionPtr, base: seq<Frame>, fp: FunctionPtr, ids: seq<nat>,
                  final: Action, k: nat)
    requires Rooted(base) && base != [] && Runnable(stack, Finish) && Inside(stack, base, fp, ids, final, k)
             && |stack| == |base| + 1
    ensures StepsOn(h, Take(h, stack, now, Finish), Finishes, base, fp, ids, final, k)
  {
    hide TurnOf, Rooted, Inside;
    BareStage(stack, base, fp, ids, final, k);
    FinishTurn(h, stack, now);
    var rest := ids[k + 1..];
    if rest != [] {
      assert rest[1..] == ids[k + 2..];
      StartTurn(h, base, fp, Coroutine(ids[k + 1], Chain(ids[k + 2..], final)));
    }
  }

  lemma BareStage(stack: seq<Frame>, base: seq<Frame>, fp: FunctionPtr, ids: seq<nat>, final: Action, k: nat)
    requires Inside(stack, base, fp, ids, final, k) && |stack| == |base| + 1
    ensures k < |ids| && stack[1..] == base && stack[0] == Stage(ids, final, k, fp)
  {
  }

  /** In every run of the handle from here on, whatever the coroutines return: coroutine k keeps its frame until it
      finishes or fails; when it finishes, the run goes on with the next one in the same place or, after the last, takes
      the final action in the original frame; when it fails, the error is handled in the original frame. */
  predicate RunsInOrder(h: Handler, stack: seq<Frame>, now: FunctionPtr, actions: seq<Action>,
                        base: seq<Frame>, fp: FunctionPtr, ids: seq<nat>, final: Action, k: nat)
    requires Rooted(base) && base != [] && Rooted(stack)
    decreases |actions|
  {
    && Inside(stack, base, fp, ids, final, k) && |stack| > |base|
    && (actions != [] ==>
          var t := Take(h, stack, now, actions[0]);
          match FateOf(h, stack, now, actions[0], |stack| - |base|)
          case Stays => RunsInOrder(h, t.stack, t.fp, actions[1..], base, fp, ids, final, k)
          case Finishes =>
            if k + 1 < |ids| then t.fp == Act && t.action == None && t.stack == [Stage(ids, final, k + 1, fp)] + base
                                  && RunsInOrder(h, t.stack, t.fp, actions[1..], base, fp, ids, final, k + 1)
            else Same(t, Take(h, base, fp, final))
          case Fails(e, f) => Same(t, Take(h, base, f, Error(e))))
  }

  lemma {:induction false} PipelineRuns(h: Handler, stack: seq<Frame>, now: FunctionPtr, actions: seq<Action>,
                                        base: seq<Frame>, fp: FunctionPtr, ids: seq<nat>, final: Action, k: nat)
    requires Rooted(base) && base != [] && Rooted(stack) && Inside(stack, base, fp, ids, final, k)
    ensures RunsInOrder(h, stack, now, actions, base, fp, ids, final, k)
    decreases |actions|
  {
    hide Take, Stage, FateOf, Inside;
    InsideSize(stack, base, fp, ids, final, k);
    if actions != [] {
      var t := Take(h, stack, now, actions[0]);
      PipelineStep(h, stack, now, actions[0], base, fp, ids, final, k);
      match FateOf(h, stack, now, actions[0], |stack| - |base|)
      case Stays => PipelineRuns(h, t.stack, t.fp, actions[1..], base, fp, ids, final, k);
      case Finishes =>
        if k + 1 < |ids| {
          FreshStage(base, fp, ids, final, k + 1);
          PipelineRuns(h, t.stack, t.fp, actions[1..], base, fp, ids, final, k + 1);
        }
      case Fails(_, _) =>
    }
  }

  lemma FreshStage(base: seq<Frame>, fp: FunctionPtr, ids: seq<nat>, final: Action, k: nat)
    requires k < |ids|
    ensures Inside([Stage(ids, final, k, fp)] + base, base, fp, ids, final, k)
  {
  }

  /** A coroutine in frame `base` at fp returns a pipeline: from then on every run goes through it in order. */
  lemma PipelineInOrder(h: Handler, base: seq<Frame>, fp: FunctionPtr, ids: seq<nat>, final: Action,
                        actions: seq<Action>)
    requires Rooted(base) && base != [] && ids != []
    ensures var t := Take(h, base, fp, Chain(ids, final));
            && t.stack == [Stage(ids, final, 0, fp)] + base && t.fp == Act && t.action == None
            && RunsInOrder(h, t.stack, t.fp, actions, base, fp, ids, final, 0)
  {
    var t := Take(h, base, fp, Chain(ids, final));
    FreshStage(base, fp, ids, final, 0);
    PipelineRuns(h, t.stack, t.fp, actions, base, fp, ids, final, 0);
  }
}
