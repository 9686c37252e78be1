/** Which function of a coroutine a handle calls next: `_FP` over whole runs. */
module CoroutineCalls {
  import opened Coroutines
  import opened CoroutineProof

  /** An action that starts nothing, ends nothing and is no error leaves `takeAction` at once, as it is; only a yield
      moves the function pointer, and it moves it to where the coroutine asked. */
  lemma LeavesAtOnce(h: Handler, stack: seq<Frame>, fp: FunctionPtr, action: Action)
    requires Runnable(stack, action) && !action.Start? && !action.Finish? && !action.Error?
    ensures Take(h, stack, fp, action)
            == Taken(stack, if action.YieldTo? then action.fp else fp, action, multiset{}, multiset{})
  {
  }

  /** A handle between two calls of `takeAction`. */
  datatype Moment = Moment(stack: seq<Frame>, fp: FunctionPtr)

  /** The n lowest frames are the same after every action of the run. */
  predicate Keeps(h: Handler, stack: seq<Frame>, fp: FunctionPtr, actions: seq<Action>, n: nat)
    requires Rooted(stack) && 0 < n <= |stack|
    decreases |actions|
  {
    actions == [] ||
    (var t := Take(h, stack, fp, actions[0]);
     FateOf(h, stack, fp, actions[0], |stack| - n + 1).Stays? && n <= |t.stack|
     && Keeps(h, t.stack, t.fp, actions[1..], n))
  }

  function EndOf(h: Handler, stack: seq<Frame>, fp: FunctionPtr, actions: seq<Action>, n: nat): (m: Moment)
    requires Rooted(stack) && 0 < n <= |stack| && Keeps(h, stack, fp, actions, n)
    ensures n <= |m.stack|
    decreases |actions|
  {
    if actions == [] then Moment(stack, fp) else
      var t := Take(h, stack, fp, actions[0]);
      EndOf(h, t.stack, t.fp, actions[1..], n)
  }

  /** The error that comes up into frame n in this call, if one does. */
  function FromAbove(h: Handler, stack: seq<Frame>, fp: FunctionPtr, action: Action, n: nat): Fate
    requires n <= |stack|
  {
    if n < |stack| then FateOf(h, stack, fp, action, |stack| - n) else Stays
  }

  /** Where frame n is after a call: where it yielded to in this call; else, if an error came up into it, where the
      coroutine was that failed, because `_FP` is not restored; else where it was. */
  function PointAfter(h: Handler, stack: seq<Frame>, fp: FunctionPtr, action: Action, n: nat, point: FunctionPtr):
    FunctionPtr
    requires Runnable(stack, action) && 0 < n <= |stack|
  {
    var t := Take(h, stack, fp, action);
    if |t.stack| == n && t.action.YieldTo? then t.action.fp
    else if FromAbove(h, stack, fp, action, n).Fails? then FromAbove(h, stack, fp, action, n).fp
    else point
  }

  function PointOf(h: Handler, stack: seq<Frame>, fp: FunctionPtr, actions: seq<Action>, n: nat, point: FunctionPtr):
    FunctionPtr
    requires Rooted(stack) && 0 < n <= |stack| && Keeps(h, stack, fp, actions, n)
    decreases |actions|
  {
    if actions == [] then point else
      var t := Take(h, stack, fp, actions[0]);
      PointOf(h, t.stack, t.fp, actions[1..], n, PointAfter(h, stack, fp, actions[0], n, point))
  }

  /** Frame n is at this point: it is called there, or it will be when the coroutine it started is done. */
  predicate IsAt(stack: seq<Frame>, fp: FunctionPtr, n: nat, point: FunctionPtr)
    requires 0 < n <= |stack|
  {
    if |stack| == n then fp == point else stack[|stack| - n - 1].returnFp == point
  }

  /** What a call leaves of the n lowest frames, and where the topmost of them is then. */
  predicate Stepped(h: Handler, stack: seq<Frame>, fp: FunctionPtr, action: Action, n: nat, point: FunctionPtr)
    requires Runnable(stack, action) && 0 < n <= |stack|
  {
    var t := Take(h, stack, fp, action);
    && n <= |t.stack| && t.stack[|t.stack| - n..] == stack[|stack| - n..]
    && IsAt(t.stack, t.fp, n, PointAfter(h, stack, fp, action, n, point))
  }

  /** Only what the call leaves behind matters, and what comes up into frame n. */
  lemma SteppedAlike(h: Handler, a: seq<Frame>, b: seq<Frame>, fp: FunctionPtr, gp: FunctionPtr, x: Action, y: Action,
                     n: nat, point: FunctionPtr, other: FunctionPtr)
    requires Runnable(a, x) && Runnable(b, y) && 0 < n <= |b| <= |a| && Same(Take(h, a, fp, x), Take(h, b, gp, y))
    requires a[|a| - n..] == b[|b| - n..] && Stepped(h, b, gp, y, n, other)
    requires var above := FromAbove(h, a, fp, x, n);
             if FromAbove(h, b, gp, y, n).Fails? then above == FromAbove(h, b, gp, y, n)
             else other == if above.Fails? then above.fp else point
    ensures Stepped(h, a, fp, x, n, point)
  {
    hide Take, FromAbove, Rooted;
  }

  lemma BelowPopped(stack: seq<Frame>, fp: FunctionPtr, n: nat, point: FunctionPtr)
    requires 0 < n < |stack| && IsAt(stack, fp, n, point)
    ensures stack[1..][|stack| - 1 - n..] == stack[|stack| - n..]
    ensures IsAt(stack[1..], stack[0].returnFp, n, point)
    ensures IsAt(stack[1..], fp, n, if |stack| == n + 1 then fp else point)
  {
  }

  /** What comes up into frame n when the top frame answers an error: from there, or from the frames left on top. */
  lemma AboveError(h: Handler, stack: seq<Frame>, fp: FunctionPtr, e: nat, n: nat)
    requires Runnable(stack, Error(e)) && 0 < n <= |stack|
    requires FateOf(h, stack, fp, Error(e), |stack| - n + 1).Stays?
    ensures var answer := h(stack[0].id, e);
            if !answer.Error? then
              && FateOf(h, stack, fp, answer, |stack| - n + 1).Stays?
              && FromAbove(h, stack, fp, answer, n) == FromAbove(h, stack, fp, Error(e), n)
            else
              && n < |stack| && FateOf(h, stack[1..], fp, answer, |stack| - n).Stays?
              && FromAbove(h, stack, fp, Error(e), n)
                 == if |stack| == n + 1 then Fate.Fails(answer.error, fp) else FromAbove(h, stack[1..], fp, answer, n)
  {
  }

  lemma AboveFinish(h: Handler, stack: seq<Frame>, fp: FunctionPtr, n: nat)
    requires Runnable(stack, Finish) && 0 < n <= |stack|
    requires FateOf(h, stack, fp, Finish, |stack| - n + 1).Stays?
    ensures n < |stack| && FateOf(h, stack[1..], stack[0].returnFp, stack[0].next, |stack| - n).Stays?
    ensures FromAbove(h, stack, fp, Finish, n)
            == if |stack| == n + 1 then Finishes else FromAbove(h, stack[1..], stack[0].returnFp, stack[0].next, n)
  {
  }

  lemma StartStep(h: Handler, stack: seq<Frame>, fp: FunctionPtr, c: Coroutine, n: nat, point: FunctionPtr)
    requires Runnable(stack, Start(c)) && 0 < n <= |stack| && IsAt(stack, fp, n, point)
    ensures Stepped(h, stack, fp, Start(c), n, point)
  {
    hide Take;
    StartTurn(h, stack, fp, c);
  }

  lemma LeaveStep(h: Handler, stack: seq<Frame>, fp: FunctionPtr, action: Action, n: nat, point: FunctionPtr)
    requires Runnable(stack, action) && !action.Start? && !action.Finish? && !action.Error?
    requires 0 < n <= |stack| && IsAt(stack, fp, n, point)
    ensures Stepped(h, stack, fp, action, n, point)
  {
    hide Take;
    LeavesAtOnce(h, stack, fp, action);
  }

  lemma NothingAbove(h: Handler, stack: seq<Frame>, fp: FunctionPtr, action: Action, n: nat)
    requires |stack| == n
    ensures FromAbove(h, stack, fp, action, n) == Stays
  {
  }

  lemma {:induction false} PointStep(h: Handler, stack: seq<Frame>, fp: FunctionPtr, action: Action, n: nat,
                                     point: FunctionPtr)
    requires Runnable(stack, action) && 0 < n <= |stack| && IsAt(stack, fp, n, point)
    requires FateOf(h, stack, fp, action, |stack| - n + 1).Stays?
    ensures Stepped(h, stack, fp, action, n, point)
    decreases |stack|, if action.Error? then 1 else 0, 1
  {
    hide Take, FateOf, FromAbove, IsAt, Stepped, Rooted;
    match action
    case Start(c) => StartStep(h, stack, fp, c, n, point);
    case Finish => FinishedStep(h, stack, fp, n, point);
    case Error(e) => FailedStep(h, stack, fp, e, n, point);
    case _ => LeaveStep(h, stack, fp, action, n, point);
  }

  lemma {:induction false} FinishedStep(h: Handler, stack: seq<Frame>, fp: FunctionPtr, n: nat, point: FunctionPtr)
    requires Runnable(stack, Finish) && 0 < n <= |stack| && IsAt(stack, fp, n, point)
    requires FateOf(h, stack, fp, Finish, |stack| - n + 1).Stays?
    ensures Stepped(h, stack, fp, Finish, n, point)
    decreases |stack|, 0, 0
  {
    hide Take, FateOf, FromAbove, IsAt, Stepped, Rooted;
    var rest, back, next := stack[1..], stack[0].returnFp, stack[0].next;
    AboveFinish(h, stack, fp, n);
    BelowPopped(stack, fp, n, point);
    FinishTurn(h, stack, fp);
    PointStep(h, rest, back, next, n, point);
    NothingAbove(h, rest, back, next, |rest|);
    SteppedAlike(h, stack, rest, fp, back, Finish, next, n, point, point);
  }

  lemma {:induction false} FailedStep(h: Handler, stack: seq<Frame>, fp: FunctionPtr, e: nat, n: nat,
                                      point: FunctionPtr)
    requires Runnable(stack, Error(e)) && 0 < n <= |stack| && IsAt(stack, fp, n, point)
    requires FateOf(h, stack, fp, Error(e), |stack| - n + 1).Stays?
    ensures Stepped(h, stack, fp, Error(e), n, point)
    decreases |stack|, 1, 0
  {
    hide Take, FateOf, FromAbove, IsAt, Stepped, Rooted;
    var answer := h(stack[0].id, e);
    AboveError(h, stack, fp, e, n);
    ErrorTurn(h, stack, fp, e);
    if !answer.Error? {
      PointStep(h, stack, fp, answer, n, point);
      SteppedAlike(h, stack, stack, fp, fp, Error(e), answer, n, point, point);
    } else {
      var rest, other := stack[1..], if |stack| == n + 1 then fp else point;
      BelowPopped(stack, fp, n, point);
      PointStep(h, rest, fp, answer, n, other);
      NothingAbove(h, rest, fp, answer, |rest|);
      SteppedAlike(h, stack, rest, fp, fp, Error(e), answer, n, point, other);
    }
  }

  lemma {:induction false} PointRuns(h: Handler, stack: seq<Frame>, fp: FunctionPtr, actions: seq<Action>, n: nat,
                                     point: FunctionPtr)
    requires Rooted(stack) && 0 < n <= |stack| && Keeps(h, stack, fp, actions, n) && IsAt(stack, fp, n, point)
    ensures var m := EndOf(h, stack, fp, actions, n);
            && m.stack[|m.stack| - n..] == stack[|stack| - n..]
            && IsAt(m.stack, m.fp, n, PointOf(h, stack, fp, actions, n, point))
    decreases |actions|
  {
    hide Take, FateOf, IsAt, PointAfter;
    if actions != [] {
      PointStep(h, stack, fp, actions[0], n, point);
      var t := Take(h, stack, fp, actions[0]);
      PointRuns(h, t.stack, t.fp, actions[1..], n, PointAfter(h, stack, fp, actions[0], n, point));
    }
  }

  /** No error comes up into frame n in the run. */
  predicate Undisturbed(h: Handler, stack: seq<Frame>, fp: FunctionPtr, actions: seq<Action>, n: nat)
    requires Rooted(stack) && 0 < n <= |stack| && Keeps(h, stack, fp, actions, n)
    decreases |actions|
  {
    actions == [] ||
    (var t := Take(h, stack, fp, actions[0]);
     !FromAbove(h, stack, fp, actions[0], n).Fails? && Undisturbed(h, t.stack, t.fp, actions[1..], n))
  }

  /** The last function that frame n yielded to in the run, or `last`. */
  function LastYield(h: Handler, stack: seq<Frame>, fp: FunctionPtr, actions: seq<Action>, n: nat, last: FunctionPtr):
    FunctionPtr
    requires Rooted(stack) && 0 < n <= |stack| && Keeps(h, stack, fp, actions, n)
    decreases |actions|
  {
    if actions == [] then last else
      var t := Take(h, stack, fp, actions[0]);
      LastYield(h, t.stack, t.fp, actions[1..], n,
                if |t.stack| == n && t.action.YieldTo? then t.action.fp else last)
  }

  lemma {:induction false} PointIsLastYield(h: Handler, stack: seq<Frame>, fp: FunctionPtr, actions: seq<Action>,
                                            n: nat, point: FunctionPtr)
    requires Rooted(stack) && 0 < n <= |stack| && Keeps(h, stack, fp, actions, n)
    requires Undisturbed(h, stack, fp, actions, n)
    ensures PointOf(h, stack, fp, actions, n, point) == LastYield(h, stack, fp, actions, n, point)
    decreases |actions|
  {
    hide Take, FateOf, FromAbove;
    if actions != [] {
      var t := Take(h, stack, fp, actions[0]);
      PointIsLastYield(h, t.stack, t.fp, actions[1..], n, PointAfter(h, stack, fp, actions[0], n, point));
    }
  }

  /** A coroutine was started. In every run that keeps it, whatever it and others return: when it is on top, the
      function called next is the last one it yielded to, or its `act` if it has not yielded; unless an error came up
      into it after that, and then it is the function at which the failed coroutine was. */
  lemma CalledNext(h: Handler, base: seq<Frame>, fp: FunctionPtr, c: Coroutine, actions: seq<Action>)
    requires Rooted(base) && base != [] && Keeps(h, [Frame(c.id, c.next, fp)] + base, Act, actions, |base| + 1)
    ensures var stack := [Frame(c.id, c.next, fp)] + base;
            var n := |stack|;
            var m := EndOf(h, stack, Act, actions, n);
            && m.stack[|m.stack| - n..] == stack
            && (|m.stack| == n ==> m.fp == PointOf(h, stack, Act, actions, n, Act))
            && (|m.stack| == n && Undisturbed(h, stack, Act, actions, n) ==>
                  m.fp == LastYield(h, stack, Act, actions, n, Act))
  {
    hide Take, FateOf, Keeps, EndOf, PointOf, LastYield, Undisturbed;
    var stack := [Frame(c.id, c.next, fp)] + base;
    PointRuns(h, stack, Act, actions, |stack|, Act);
    if Undisturbed(h, stack, Act, actions, |stack|) {
      PointIsLastYield(h, stack, Act, actions, |stack|, Act);
    }
  }

  /** The same for the root coroutine of a handle. */
  lemma RootCalledNext(h: Handler, root: nat, actions: seq<Action>)
    requires Keeps(h, [Frame(root, None, Act)], Act, actions, 1)
    ensures var stack := [Frame(root, None, Act)];
            var m := EndOf(h, stack, Act, actions, 1);
            && m.stack[|m.stack| - 1..] == stack
            && (|m.stack| == 1 ==> m.fp == PointOf(h, stack, Act, actions, 1, Act))
            && (|m.stack| == 1 && Undisturbed(h, stack, Act, actions, 1) ==>
                  m.fp == LastYield(h, stack, Act, actions, 1, Act))
  {
    hide Take, FateOf, Keeps, EndOf, PointOf, LastYield, Undisturbed;
    var stack := [Frame(root, None, Act)];
    PointRuns(h, stack, Act, actions, 1, Act);
    if Undisturbed(h, stack, Act, actions, 1) {
      PointIsLastYield(h, stack, Act, actions, 1, Act);
    }
  }

  lemma KeepsMore(h: Handler, stack: seq<Frame>, fp: FunctionPtr, action: Action, more: seq<Action>, n: nat)
    requires Rooted(stack) && 0 < n <= |stack| && FateOf(h, stack, fp, action, |stack| - n + 1).Stays?
    requires var t := Take(h, stack, fp, action); n <= |t.stack| && Keeps(h, t.stack, t.fp, more, n)
    ensures Keeps(h, stack, fp, [action] + more, n)
    ensures var t := Take(h, stack, fp, action);
            && EndOf(h, stack, fp, [action] + more, n) == EndOf(h, t.stack, t.fp, more, n)
            && forall last ::
                 LastYield(h, stack, fp, [action] + more, n, last)
                 == LastYield(h, t.stack, t.fp, more, n,
                              if |t.stack| == n && t.action.YieldTo? then t.action.fp else last)
  {
    hide Take, FateOf;
    assert ([action] + more)[1..] == more;
  }

  /** The root yields to a function, starts a coroutine that yields to another one and fails, and takes the error: it is
      called at the function of the coroutine that failed. */
  lemma NotRestored(h: Handler)
    requires h(1, 7) == Error(7) && h(0, 7) == Repeat
    ensures var stack := [Frame(0, None, Act)];
            var actions := [YieldTo(Method(1))] + ([Start(Coroutine(1, Finish))] + ([YieldTo(Method(2))] + [Error(7)]));
            && Keeps(h, stack, Act, actions, 1)
            && EndOf(h, stack, Act, actions, 1) == Moment(stack, Method(2))
            && LastYield(h, stack, Act, actions, 1, Act) == Method(1)
  {
    var root, child := Frame(0, None, Act), Frame(1, Finish, Method(1));
    var leaps, starts, moves := YieldTo(Method(1)), Start(Coroutine(1, Finish)), YieldTo(Method(2));
    assert [child] + [root] == [child, root] && [child, root][1..] == [root];
    ChildFails(h, child, root);
    assert [Error(7)] + [] == [Error(7)];
    KeepsMore(h, [child, root], Method(2), Error(7), [], 1);
    LeavesAtOnce(h, [child, root], Act, moves);
    KeepsMore(h, [child, root], Act, moves, [Error(7)], 1);
    StartTurn(h, [root], Method(1), starts.coroutine);
    KeepsMore(h, [root], Method(1), starts, [moves] + [Error(7)], 1);
    LeavesAtOnce(h, [root], Act, leaps);
    KeepsMore(h, [root], Act, leaps, [starts] + ([moves] + [Error(7)]), 1);
  }

  lemma ChildFails(h: Handler, child: Frame, root: Frame)
    requires h(child.id, 7) == Error(7) && h(root.id, 7) == Repeat && root.next == None
    ensures Same(Take(h, [child, root], Method(2), Error(7)), Taken([root], Method(2), Repeat, multiset{}, multiset{}))
    ensures FateOf(h, [child, root], Method(2), Error(7), 2).Stays?
  {
    assert [child, root][1..] == [root];
    ErrorTurn(h, [child, root], Method(2), 7);
    ErrorTurn(h, [root], Method(2), 7);
    LeavesAtOnce(h, [root], Method(2), Repeat);
    assert FateOf(h, [root], Method(2), Error(7), 1).Stays?;
  }
}
