/**
 poller_stop of workflow/src/kernel/poller.c comes to its end: the thread, wherever it is when the
 message to stop is written, and poller_stop itself have steps to make that lead there.
 */
module PollerStop {
  import opened PollerCalls
  import opened PollerProtocol

  // The stages of poller_stop, from the last one on.
  function Stage(s: State): nat {
    match s.stopping
    case NotStopping => 0
    case Clearing => 1
    case Joined => 2
    case Signaled => 3
  }

  // How far the thread is from its end: without the event of the pipe it has to come round again.
  function Level(s: State): nat {
    if !s.stopping.Signaled? then 0
    else match s.phase {
      case Off => 0
      case Exited => 0
      case Draining => if s.sawStop || Marks(s.drain) > 0 then 1 else 5
      case Handling => if s.pipeEvent then 2 else 6
      case Waiting => 3
      case TimingOut => 4
    }
  }

  function Size(s: State): nat {
    |s.stopList| + |s.batch| + |s.local| + |s.drain|
  }

  ghost predicate Nearer(s: State, t: State) {
    || Stage(t) < Stage(s)
    || (Stage(t) == Stage(s) && Level(t) < Level(s))
    || (Stage(t) == Stage(s) && Level(t) == Level(s) && Size(t) < Size(s))
  }

  lemma NearerMeans(s: State, t: State)
    requires Nearer(s, t)
    ensures Stage(t) <= Stage(s) && (Stage(t) == Stage(s) ==> Level(t) <= Level(s))
    ensures Stage(t) == Stage(s) && Level(t) == Level(s) ==> Size(t) < Size(s)
  {
  }

  lemma {:induction false} ListOf(t: set<nat>) returns (order: seq<nat>)
    ensures ListsExactly(order, t)
    decreases |t|
  {
    if t == {} {
      order := [];
    } else {
      var x :| x in t;
      var rest := ListOf(t - {x});
      order := [x] + rest;
      assert forall y :: y in order <==> y == x || y in rest;
    }
  }

  // What comes next when nobody else does anything.
  function NextOfThread(s: State): Action {
    match s.phase
    case Waiting => Fetch([], true)
    case Handling =>
      if s.local != [] then FinishLocal
      else if s.batch != [] then HandleEvent(false)
      else if s.pipeEvent then ReadPipe
      else TakeExpired([])
    case Draining => if s.drain != [] then HandleMessage else EndDrain
    case TimingOut => if s.local != [] then FinishLocal else EndRound
    case Exited => StopJoin
    case Off => StopJoin
  }

  lemma ThreadGoesOn(s: State)
    requires ThreadSane(s) && MarkOnItsWay(s) && s.stopping.Signaled?
    ensures var a := NextOfThread(s); Enabled(s, a) && Nearer(s, Apply(s, a))
  {
    assert Marks([]) == 0;
    hide Ids, Unregister;
  }

  lemma StopGoesOn(s: State) returns (a: Action)
    requires ThreadSane(s) && MarkOnItsWay(s) && !s.stopping.NotStopping?
    ensures Enabled(s, a) && !IsCallerStep(a) && Nearer(s, Apply(s, a))
    ensures Apply(s, a).stopping.NotStopping? <==> a == StopReturn
  {
    match s.stopping {
      case Signaled =>
        a := NextOfThread(s);
        ThreadGoesOn(s);
      case Joined =>
        var order := ListOf(s.held);
        a := StopClear(order);
      case Clearing =>
        a := if s.stopList != [] then StopFinish else StopReturn;
    }
    hide Ids, Unregister, Marks, Level, Size;
  }

  lemma OneStepOn(run: seq<Action>) returns (a: Action)
    requires Possible(run) && !After(run).stopping.NotStopping?
    ensures Possible(run + [a]) && !IsCallerStep(a) && Nearer(After(run), After(run + [a]))
    ensures After(run + [a]).stopping.NotStopping? <==> a == StopReturn
  {
    var s := After(run);
    EveryRunKeepsInv(run);
    EveryRunMovesMark(run);
    assert ThreadSane(s);
    hide Apply, Enabled, Inv, MarkOnItsWay, ThreadSane, Nearer;
    a := StopGoesOn(s);
    assert (run + [a])[..|run|] == run;
  }

  // From every reachable state in which poller_stop has begun, the steps of the thread and its own,
  // without any of a caller, lead to its return.
  lemma {:induction false} StopReturns(run: seq<Action>) returns (more: seq<Action>)
    requires Possible(run) && !After(run).stopping.NotStopping?
    ensures Possible(run + more) && After(run + more).stopping.NotStopping?
    ensures more != [] && more[|more| - 1] == StopReturn && forall a :: a in more ==> !IsCallerStep(a)
    decreases Stage(After(run)), Level(After(run)), Size(After(run))
  {
    hide *;
    var a := OneStepOn(run);
    NearerMeans(After(run), After(run + [a]));
    more := [a];
    if a != StopReturn {
      var rest := StopReturns(run + [a]);
      assert run + ([a] + rest) == (run + [a]) + rest;
      more := [a] + rest;
    }
  }

  // What each step of poller_stop does: it tells the thread, waits for its end, takes everything out
  // of the poller, and calls it back.
  lemma StopSteps(s: State, a: Action)
    requires Enabled(s, a) && IsStopStep(a)
    ensures var t := Apply(s, a);
      match a
      case StopSignal => t.stopping.Signaled? && t.pipe == s.pipe + [StopMark] && t.phase == s.phase
      case StopJoin => s.phase.Exited? && t.stopping.Joined? && t.stopped && t.phase.Off?
      case StopClear(_) =>
        && t.stopping.Clearing? && t.held == {} && t.nodes == map[] && t.pipe == []
        && (forall n :: n in t.stopList <==> n in s.held) && (forall n :: n in Ids(s.pipe) ==> n in t.called)
      case StopFinish => t.stopping.Clearing? && s.stopList == [t.called[|s.called|]] + t.stopList
      case _ => t == s.(stopping := NotStopping)
  {
    hide Unregister;
  }

  lemma OnlyClearCovers(s: State, a: Action)
    requires Enabled(s, a)
    ensures Apply(s, a).covered == if a.StopClear? then s.created else s.covered
  {
    hide Ids, Unregister;
  }

  lemma {:induction false} CoveredSinceClear(run: seq<Action>, k: nat)
    requires Possible(run) && k < |run| && run[k].StopClear? && forall i :: k < i < |run| ==> !run[i].StopClear?
    ensures Possible(run[..k]) && After(run).covered == After(run[..k]).created
    decreases |run|
  {
    var before := run[..|run| - 1];
    LastStep(run);
    OnlyClearCovers(After(before), run[|run| - 1]);
    if k < |before| {
      CoveredSinceClear(before, k);
      assert before[..k] == run[..k];
    } else {
      assert before == run[..k];
    }
    hide Apply, Enabled;
  }

  // When poller_stop returns, every node that had been inserted before it cleared the poller has been
  // called back, once, if and only if it is not in the hands of another caller.
  lemma StopHasFinished(run: seq<Action>, s: State, k: nat, n: nat)
    requires Possible(run) && s == After(run) && Enabled(s, StopReturn)
    requires k < |run| && run[k].StopClear? && forall i :: k < i < |run| ==> !run[i].StopClear?
    requires Possible(run[..k]) && n in After(run[..k]).created
    ensures Count(s.called, n) == if (exists i :: TakenAt(run, i, n)) then 0 else 1
  {
    CoveredSinceClear(run, k);
    StopFinishesEveryNode(run, s, n);
  }
}
