/** src/oatpp/async/Coroutine.cpp: actions, the frames of a handle, and the machine in `CoroutineHandle::takeAction`. */
module Coroutines {

  /** Which method of a coroutine is called next; `Act` is its first. */
  datatype FunctionPtr = Act | Method(number: nat)

  /** A coroutine that has not been started: its own code is opaque, `next` is its m_parentReturnAction. */
  datatype Coroutine = Coroutine(id: nat, next: Action)

  datatype Action =
    | None
    | Start(coroutine: Coroutine)
    | YieldTo(fp: FunctionPtr)
    | Repeat
    | WaitRepeat(timePoint: int)
    | IoWait(io: int)
    | IoRepeat(io: int)
    | WaitList(list: nat, timePoint: int)
    | Finish
    | Error(error: nat)

  /** A started coroutine. The frames of a handle, `_CP` first, are the chain of m_parent pointers. */
  datatype Frame = Frame(id: nat, next: Action, returnFp: FunctionPtr)

  /** Objects on the heap that somebody has to delete. */
  datatype Owned = Co(id: nat) | Err(error: nat)

  /** What a coroutine's `handleError` returns for an error; an exception it throws counts as a new error. */
  type Handler = (nat, nat) -> Action

  function Objects(a: Action): multiset<Owned> {
    match a
    case Start(c) => multiset{Co(c.id)} + Objects(c.next)
    case Error(e) => multiset{Err(e)}
    case _ => multiset{}
  }

  function FrameObjects(f: Frame): multiset<Owned> {
    multiset{Co(f.id)} + Objects(f.next)
  }

  function StackObjects(stack: seq<Frame>): multiset<Owned> {
    if stack == [] then multiset{} else FrameObjects(stack[0]) + StackObjects(stack[1..])
  }

  /** The root coroutine was not started by a starter: nothing follows it. */
  predicate Rooted(stack: seq<Frame>) {
    stack != [] ==> stack[|stack| - 1].next == None
  }

  /** The state of a handle after `takeAction`, the action it returns, and the objects that were made and deleted. */
  datatype Taken = Taken(stack: seq<Frame>, fp: FunctionPtr, action: Action, created: multiset<Owned>,
                         freed: multiset<Owned>)

  function After(created: multiset<Owned>, freed: multiset<Owned>, t: Taken): Taken {
    t.(created := created + t.created, freed := freed + t.freed)
  }

  /** Kinds of action that leave the loop of `takeAction`. */
  predicate IsPassive(a: Action) {
    !a.Start? && !a.Finish? && !a.Error?
  }

  /** What a popped frame that failed takes with it: itself, and the rest of its pipeline. */
  function Dropped(f: Frame): multiset<Owned> {
    FrameObjects(f)
  }

  /** The error that is deleted when a handler answers with another one. */
  function Replaced(e: nat, newer: nat): multiset<Owned> {
    if newer == e then multiset{} else multiset{Err(e)}
  }

  function Made(e: nat, newer: nat): multiset<Owned> {
    if newer == e then multiset{} else multiset{Err(newer)}
  }

  predicate Runnable(stack: seq<Frame>, action: Action) {
    Rooted(stack) && (stack != [] || action.None?)
  }

  /** One turn of the loop in `takeAction`, and whether it returns. */
  datatype Turn = Turn(taken: Taken, done: bool)

  function TurnOf(h: Handler, stack: seq<Frame>, fp: FunctionPtr, action: Action): (t: Turn)
    requires Runnable(stack, action)
    ensures Runnable(t.taken.stack, t.taken.action)
    ensures t.done ==> IsPassive(t.taken.action)
    ensures !t.done ==>
              |t.taken.stack| < |stack|
              || (|t.taken.stack| == |stack| && action.Error? && !t.taken.action.Error?)
  {
    match action
    case Start(c) => Turn(Taken([Frame(c.id, c.next, fp)] + stack, Act, None, multiset{}, multiset{}), true)
    case Finish =>
      Turn(Taken(stack[1..], stack[0].returnFp, stack[0].next, multiset{}, multiset{Co(stack[0].id)}), false)
    case YieldTo(p) => Turn(Taken(stack, p, action, multiset{}, multiset{}), true)
    case Error(e) =>
      var answer := h(stack[0].id, e);
      if answer.Error? then
        var created, freed := Made(e, answer.error), Dropped(stack[0]) + Replaced(e, answer.error);
        if |stack| == 1 then Turn(Taken([], fp, None, created, freed + multiset{Err(answer.error)}), true)
        else Turn(Taken(stack[1..], fp, answer, created, freed), false)
      else Turn(Taken(stack, fp, answer, Objects(answer), multiset{Err(e)}), false)
    case _ => Turn(Taken(stack, fp, action, multiset{}, multiset{}), true)
  }

  /** `takeAction` */
  function Take(h: Handler, stack: seq<Frame>, fp: FunctionPtr, action: Action): (t: Taken)
    requires Runnable(stack, action)
    ensures Rooted(t.stack) && IsPassive(t.action)
    decreases |stack|, if action.Error? then 1 else 0
  {
    var turn := TurnOf(h, stack, fp, action);
    if turn.done then turn.taken
    else After(turn.taken.created, turn.taken.freed, Take(h, turn.taken.stack, turn.taken.fp, turn.taken.action))
  }

  /** _CP with its parents, and _FP. */
  class CoroutineHandle {
    const handler: Handler
    var stack: seq<Frame>
    var fp: FunctionPtr

    predicate Valid()
      reads this
    {
      Rooted(stack)
    }

    constructor (root: nat, handler: Handler)
      ensures Valid() && stack == [Frame(root, None, Act)] && fp == Act && this.handler == handler
    {
      this.handler := handler;
      stack := [Frame(root, None, Act)];
      fp := Act;
    }

    function Finished(): bool
      reads this
    {
      stack == []
    }

    /** The body of the loop in `takeAction`; created and freed account for the objects it makes and deletes. */
    method TakeTurn(action0: Action) returns (action: Action, done: bool, ghost created: multiset<Owned>,
                                              ghost freed: multiset<Owned>)
      requires Runnable(stack, action0)
      modifies this
      ensures TurnOf(handler, old(stack), old(fp), action0) == Turn(Taken(stack, fp, action, created, freed), done)
    {
      hide Dropped, Objects;
      action, done := action0, true;
      created, freed := multiset{}, multiset{};
      match action {
        case Start(c) =>
          stack := [Frame(c.id, c.next, fp)] + stack;
          fp := Act;
          action := None;
        case Finish =>
          var saved := stack[0];
          action := saved.next;
          fp := saved.returnFp;
          stack := stack[1..];
          freed := multiset{Co(saved.id)};
          done := false;
        case YieldTo(p) =>
          fp := p;
        case Error(e) =>
          var saved := stack[0];
          var newAction := handler(saved.id, e);
          done := false;
          if newAction.Error? {
            stack := stack[1..];
            freed := Dropped(saved);
            if newAction.error != e {
              created := multiset{Err(newAction.error)};
              freed := freed + multiset{Err(e)};
              action := newAction;
            } else {
              freed := freed + multiset{};
            }
            if stack == [] {
              freed := freed + multiset{Err(action.error)};
              action := None;
              done := true;
            }
          } else {
            created := Objects(newAction);
            freed := multiset{Err(e)};
            action := newAction;
          }
        case _ =>
      }
    }

    method TakeAction(action0: Action) returns (action: Action, ghost created: multiset<Owned>,
                                                ghost freed: multiset<Owned>)
      requires Valid() && !Finished()
      modifies this
      ensures Valid()
      ensures Take(handler, old(stack), old(fp), action0) == Taken(stack, fp, action, created, freed)
    {
      hide TurnOf, Rooted, After;
      action, created, freed := action0, multiset{}, multiset{};
      AfterNothing(Take(handler, stack, fp, action));
      var done := false;
      while !done
        invariant Runnable(stack, action)
        invariant Take(handler, old(stack), old(fp), action0)
                  == if done then Taken(stack, fp, action, created, freed)
                     else After(created, freed, Take(handler, stack, fp, action))
        decreases if done then 0 else 1, |stack|, if action.Error? then 1 else 0
      {
        ghost var made, gone;
        ghost var t := Take(handler, stack, fp, action);
        action, done, made, gone := TakeTurn(action);
        if done {
          AfterDone(created, freed, t);
        } else {
          AfterTwice(created, freed, made, gone, Take(handler, stack, fp, action));
        }
        created, freed := created + made, freed + gone;
      }
    }
  }

  lemma AfterNothing(t: Taken)
    ensures After(multiset{}, multiset{}, t) == t
  {
  }

  lemma AfterDone(created: multiset<Owned>, freed: multiset<Owned>, t: Taken)
    ensures After(created, freed, t) == Taken(t.stack, t.fp, t.action, created + t.created, freed + t.freed)
  {
  }

  lemma AfterTwice(created: multiset<Owned>, freed: multiset<Owned>, made: multiset<Owned>, gone: multiset<Owned>,
                   t: Taken)
    ensures After(created, freed, After(made, gone, t)) == After(created + made, freed + gone, t)
  {
  }
}
