/**
 What the calls and the thread of workflow/src/kernel/poller.c achieve, step by step and for the
 rest of the run: `PollerProtocol` says what they keep.
 */
module PollerCalls {
  import opened PollerProtocol

  /* ---------- out for good ---------- */

  // The node was inserted and has been taken out.
  ghost predicate Out(s: State, n: nat) {
    n in s.created && n !in s.held
  }

  lemma StaysOut(s: State, a: Action, n: nat)
    requires Inv(s) && Enabled(s, a) && Out(s, n)
    ensures Out(Apply(s, a), n)
  {
    hide OnePlace, Flags, BatchSafe, ThreadSane, Covered, Ids, Registered;
  }

  lemma {:induction false} OutForGood(run: seq<Action>, k: nat, n: nat)
    requires Possible(run) && k <= |run| && Possible(run[..k]) && Out(After(run[..k]), n)
    ensures Out(After(run), n)
    decreases |run|
  {
    if k < |run| {
      var before := run[..|run| - 1];
      LastStep(run);
      EveryRunKeepsInv(before);
      assert before[..k] == run[..k];
      OutForGood(before, k, n);
      StaysOut(After(before), run[|run| - 1], n);
    } else {
      assert run[..k] == run;
    }
  }

  lemma {:induction false} PrefixPossible(run: seq<Action>, k: nat)
    requires Possible(run) && k <= |run|
    ensures Possible(run[..k])
    decreases |run|
  {
    if k < |run| {
      LastStep(run);
      PrefixPossible(run[..|run| - 1], k);
      assert run[..|run| - 1][..k] == run[..k];
    } else {
      assert run[..k] == run;
    }
  }

  // A node that is out has no event any more.
  lemma NoEventsFor(s: State, n: nat, events: seq<nat>, pipeEvent: bool)
    requires Inv(s) && Out(s, n) && Enabled(s, Fetch(events, pipeEvent))
    ensures n !in events
  {
    forall e | e in events
      ensures e in s.held
    {
      assert InNodes(s, e);
      var fd :| fd in s.nodes && s.nodes[fd] == e;
    }
  }

  /* ---------- the calls ---------- */

  // The node is out: through the pipe if the thread runs, in the caller's hands if it does not.
  ghost predicate TakenOut(s: State, t: State, n: nat) {
    && n !in t.held && !InNodes(t, n)
    && (!s.stopped ==> n in t.removed && t.pipe == s.pipe + [Pointer(n)] && t.handed == s.handed)
    && (s.stopped ==> n in t.handed && t.handed == s.handed + {n} && t.pipe == s.pipe)
    && t.called == s.called && t.local == s.local && t.batch == s.batch
  }

  // poller_del on a registered descriptor.
  lemma DelTakesOut(run: seq<Action>, s: State, fd: int)
    requires Possible(run) && s == After(run) && fd in s.nodes
    ensures var n, t := s.nodes[fd], Apply(s, Del(fd));
      && TakenOut(s, t, n) && fd !in t.nodes
      && t.nodes == s.nodes - {fd} && t.held == s.held - {n}
  {
    EveryRunKeepsInv(run);
    UnregisterOne(s, fd);
    hide OnePlace, Flags, BatchSafe, ThreadSane, Covered, Ids, Registered, Unregister;
  }

  lemma UnregisterOne(s: State, fd: int)
    requires Inv(s) && fd in s.nodes
    ensures Unregister(s, {s.nodes[fd]}) == s.nodes - {fd}
  {
    OneDescriptor(s, fd);
    hide OnePlace, Flags, BatchSafe, ThreadSane, Covered, Ids, Registered;
    var u, rest := Unregister(s, {s.nodes[fd]}), s.nodes - {fd};
    assert forall g :: g in u <==> g in s.nodes && g != fd;
    assert forall g :: g in rest <==> g in s.nodes && g != fd;
    assert forall g :: g in u ==> u[g] == rest[g];
    assert u.Keys == rest.Keys;
  }

  // No two descriptors share a node.
  lemma OneDescriptor(s: State, fd: int)
    requires Inv(s) && fd in s.nodes
    ensures forall g :: g in s.nodes && s.nodes[g] == s.nodes[fd] ==> g == fd
  {
    hide OnePlace, Flags, BatchSafe, ThreadSane, Covered, Ids;
  }

  // And no event of the deleted node is ever reported again.
  lemma DeletedIsNotReported(run: seq<Action>, k: nat, fd: int, n: nat, events: seq<nat>, pipeEvent: bool)
    requires Possible(run) && k < |run| && run[k] == Del(fd)
    requires Possible(run[..k]) && fd in After(run[..k]).nodes && n == After(run[..k]).nodes[fd]
    requires Enabled(After(run), Fetch(events, pipeEvent))
    ensures n !in events && n !in After(run).held
  {
    var s := After(run[..k]);
    DelTakesOut(run[..k], s, fd);
    PrefixPossible(run, k + 1);
    assert run[..k + 1][..k] == run[..k];
    LastStep(run[..k + 1]);
    EveryRunKeepsInv(run[..k]);
    HeldIsCreated(s, fd);
    assert Out(After(run[..k + 1]), n);
    OutForGood(run, k + 1, n);
    EveryRunKeepsInv(run);
    NoEventsFor(After(run), n, events, pipeEvent);
  }

  lemma HeldIsCreated(s: State, fd: int)
    requires Inv(s) && fd in s.nodes
    ensures s.nodes[fd] in s.held && s.nodes[fd] in s.created && s.nodes[fd] in Apply(s, Del(fd)).created
  {
    hide OnePlace, Flags, BatchSafe, ThreadSane, Covered, Ids;
  }

  // poller_add registers a new node for a free descriptor, and changes nothing for another.
  lemma AddRegisters(run: seq<Action>, s: State, id: nat, fd: int)
    requires Possible(run) && s == After(run) && Enabled(s, Add(id, fd))
    ensures var t := Apply(s, Add(id, fd));
      if fd in s.nodes then t == s
      else
        && t.nodes == s.nodes[fd := id] && t.held == s.held + {id} && Fd(t, id) == fd
        && id in t.created && id !in t.removed && id !in t.called
        && t.pipe == s.pipe && t.handed == s.handed && t.called == s.called
  {
    EveryRunKeepsInv(run);
    NewIsNowhere(s, id);
    hide OnePlace, BatchSafe, ThreadSane, Covered, Ids;
  }

  lemma NewIsNowhere(s: State, id: nat)
    requires Inv(s) && id !in s.created
    ensures id !in s.called && id !in s.removed && id !in s.held && !InNodes(s, id)
  {
    assert Times(s, id) == 0;
    CountIn(s.called, id);
    hide OnePlace, BatchSafe, ThreadSane, Covered, Ids;
  }

  // poller_mod puts a new node in the place of the registered one, which is taken out as by
  // poller_del; an unregistered descriptor it leaves alone.
  lemma ModReplaces(run: seq<Action>, s: State, fd: int, id: nat)
    requires Possible(run) && s == After(run) && Enabled(s, Mod(fd, id))
    ensures var t := Apply(s, Mod(fd, id));
      if fd !in s.nodes then t == s
      else
        && TakenOut(s, t, s.nodes[fd])
        && t.nodes == s.nodes[fd := id] && t.held == s.held - {s.nodes[fd]} + {id} && Fd(t, id) == fd
        && id !in t.removed
  {
    EveryRunKeepsInv(run);
    NewIsNowhere(s, id);
    if fd in s.nodes {
      OneDescriptor(s, fd);
      HeldIsCreated(s, fd);
    }
    hide OnePlace, BatchSafe, ThreadSane, Covered, Ids;
  }

  // A new timer waits, without a descriptor.
  lemma AddTimerHolds(run: seq<Action>, s: State, id: nat)
    requires Possible(run) && s == After(run) && Enabled(s, AddTimer(id))
    ensures var t := Apply(s, AddTimer(id));
      && t.held == s.held + {id} && id !in t.removed && Fd(t, id) == TIMER && !InNodes(t, id)
      && t.nodes == s.nodes && t.pipe == s.pipe && t.handed == s.handed && t.called == s.called
  {
    EveryRunKeepsInv(run);
    NewIsNowhere(s, id);
    hide OnePlace, BatchSafe, ThreadSane, Covered, Ids;
  }

  // poller_del_timer takes a waiting timer out, for the caller to call back; one that has been taken
  // out already it leaves alone.
  lemma DelTimerTakesOut(run: seq<Action>, s: State, id: nat)
    requires Possible(run) && s == After(run) && Enabled(s, DelTimer(id))
    ensures var t := Apply(s, DelTimer(id));
      if id !in s.held then t == s
      else
        && t.held == s.held - {id} && id in t.removed && t.handed == s.handed + {id}
        && t.nodes == s.nodes && t.pipe == s.pipe && t.called == s.called
  {
    EveryRunKeepsInv(run);
    hide OnePlace, BatchSafe, ThreadSane, Covered, Ids;
  }

  /* ---------- the thread ---------- */

  // A handler that completes a node takes it out and will call it back, unless somebody was first;
  // one that does not, leaves it registered.
  lemma HandlerTakesOut(run: seq<Action>, s: State, complete: bool)
    requires Possible(run) && s == After(run) && Enabled(s, HandleEvent(complete))
    ensures var e, t := s.batch[0], Apply(s, HandleEvent(complete));
      && t.batch == s.batch[1..] && t.called == s.called
      && (if complete && e in s.held then !InNodes(t, e) && t.held == s.held - {e} && t.local == [e]
          else t.nodes == s.nodes && t.held == s.held && t.local == [])
  {
    EveryRunKeepsInv(run);
    BatchHeld(s);
    hide OnePlace, BatchSafe, ThreadSane, Covered, Ids;
  }

  lemma BatchHeld(s: State)
    requires Inv(s) && s.batch != []
    ensures s.batch[0] in s.held <==> s.batch[0] !in s.removed
  {
    assert s.batch[0] in s.batch;
    hide OnePlace, ThreadSane, Covered, Ids, Registered;
  }

  // What expires is taken out, all of it, and waits for the thread to call it back.
  lemma ExpiryTakesOut(run: seq<Action>, s: State, due: seq<nat>)
    requires Possible(run) && s == After(run) && Enabled(s, TakeExpired(due))
    ensures var t := Apply(s, TakeExpired(due));
      && t.local == due && t.called == s.called
      && (forall n :: n in t.held <==> n in s.held && n !in due)
      && (forall n :: n in due ==> !InNodes(t, n) && (Fd(s, n) == TIMER ==> n in t.removed))
      && (forall fd :: fd in t.nodes <==> fd in s.nodes && s.nodes[fd] !in due)
  {
    EveryRunKeepsInv(run);
    hide OnePlace, BatchSafe, ThreadSane, Covered, Ids, Flags, Registered;
  }

  // The round of the thread: it handles every event it fetched and then, if the pipe was among them,
  // every message it finds there, and comes back to wait.
  lemma RoundGoesOn(s: State, a: Action)
    requires Enabled(s, a)
    ensures var t := Apply(s, a);
      && (a.Fetch? ==> t.phase == Handling && t.batch == a.events && (t.pipeEvent <==> a.pipeEvent))
      && (a.ReadPipe? ==> t.phase == Draining && t.drain == s.pipe && t.pipe == [] && !t.pipeEvent)
      && (a.EndRound? ==> t.phase == Waiting) && (a.TakeExpired? ==> t.phase == TimingOut)
      && (a.Start? ==> t.phase == Waiting && !t.stopped) && (a.StopJoin? ==> t.phase == Off && t.stopped)
  {
    hide Ids, Unregister;
  }

  // What a step has to do with callbacks.
  ghost function CallsOf(s: State, a: Action): seq<nat>
    requires Enabled(s, a)
  {
    match a
    case FinishHanded(id) => [id]
    case FinishLocal => [s.local[0]]
    case HandleMessage => if s.drain[0].Pointer? then [s.drain[0].id] else []
    case StopFinish => [s.stopList[0]]
    case StopClear(_) => Ids(s.pipe)
    case _ => []
  }

  // Callbacks are made by those who have a node in their hands, one at a time, by the thread for
  // what comes out of the pipe, and by poller_stop for what it finds there; and by nobody else.
  lemma WhoCallsBack(s: State, a: Action)
    requires Inv(s) && Enabled(s, a)
    ensures Apply(s, a).called == s.called + CallsOf(s, a)
  {
    hide *;
    if IsCallerStep(a) { CallerCalls(s, a); } else { OthersCall(s, a); }
  }

  lemma CallerCalls(s: State, a: Action)
    requires Enabled(s, a) && IsCallerStep(a)
    ensures Apply(s, a).called == s.called + CallsOf(s, a)
  {
    hide Ids, Unregister;
  }

  lemma OthersCall(s: State, a: Action)
    requires Enabled(s, a) && !IsCallerStep(a)
    ensures Apply(s, a).called == s.called + CallsOf(s, a)
  {
    hide Ids, Unregister;
  }

  // And the node is then in nobody's hands.
  lemma CalledIsDone(run: seq<Action>, a: Action, n: nat)
    requires Possible(run) && Enabled(After(run), a) && n in CallsOf(After(run), a)
    ensures var t := Apply(After(run), a);
      && n in t.called && n !in t.held && n !in t.handed && n !in t.local && n !in t.stopList
      && n !in Ids(t.pipe) && n !in Ids(t.drain)
  {
    var next := run + [a];
    assert next[..|run|] == run;
    EveryRunKeepsInv(run);
    WhoCallsBack(After(run), a);
    AtMostOneCallback(next, After(next), n);
  }

  /* ---------- the end of the thread ---------- */

  function Marks(m: seq<Message>): nat {
    if m == [] then 0 else (if m[0].StopMark? then 1 else 0) + Marks(m[1..])
  }

  lemma {:induction false} MarksPush(p: seq<Message>, m: Message)
    ensures Marks(p + [m]) == Marks(p) + if m.StopMark? then 1 else 0
  {
    if p == [] {
      assert Marks([m][1..]) == 0;
    } else {
      assert (p + [m])[1..] == p[1..] + [m];
      MarksPush(p[1..], m);
    }
  }

  // Between the write of poller_stop and the end of the thread, the mark is in one place: in the
  // pipe, among the messages that were read, noted, or obeyed.
  ghost predicate MarkOnItsWay(s: State) {
    Marks(s.pipe) + Marks(s.drain) + (if s.phase.Draining? && s.sawStop then 1 else 0)
      + (if s.phase.Exited? then 1 else 0) == if s.stopping.Signaled? then 1 else 0
  }

  lemma CallerMovesMark(s: State, a: Action)
    requires ThreadSane(s) && MarkOnItsWay(s) && Enabled(s, a) && IsCallerStep(a)
    ensures MarkOnItsWay(Apply(s, a))
  {
    match a {
      case Del(fd) => if fd in s.nodes { MarksPush(s.pipe, Pointer(s.nodes[fd])); }
      case Mod(fd, _) => if fd in s.nodes { MarksPush(s.pipe, Pointer(s.nodes[fd])); }
      case _ =>
    }
    hide Marks, Unregister;
  }

  lemma OthersMoveMark(s: State, a: Action)
    requires ThreadSane(s) && MarkOnItsWay(s) && Enabled(s, a) && !IsCallerStep(a)
    ensures MarkOnItsWay(Apply(s, a))
  {
    if a.StopSignal? { MarksPush(s.pipe, StopMark); }
    hide Ids, Unregister;
  }

  lemma StepMovesMark(s: State, a: Action)
    requires Inv(s) && MarkOnItsWay(s) && Enabled(s, a)
    ensures MarkOnItsWay(Apply(s, a))
  {
    hide Apply, Enabled, MarkOnItsWay;
    if IsCallerStep(a) { CallerMovesMark(s, a); } else { OthersMoveMark(s, a); }
  }

  lemma {:induction false} EveryRunMovesMark(run: seq<Action>)
    requires Possible(run)
    ensures MarkOnItsWay(After(run))
    decreases |run|
  {
    if run != [] {
      LastStep(run);
      EveryRunKeepsInv(run[..|run| - 1]);
      EveryRunMovesMark(run[..|run| - 1]);
      StepMovesMark(After(run[..|run| - 1]), run[|run| - 1]);
    }
  }

  // The thread ends only when poller_stop has told it to; the mark is not lost on its way; and once
  // the thread has handled what it read, it ends exactly if the mark was among that.
  lemma ThreadEndsWhenTold(run: seq<Action>, s: State)
    requires Possible(run) && s == After(run)
    ensures s.phase.Exited? ==> s.stopping.Signaled?
    ensures s.stopping.Signaled? && !s.phase.Exited? ==>
      Marks(s.pipe) > 0 || Marks(s.drain) > 0 || (s.phase.Draining? && s.sawStop)
    ensures Enabled(s, EndDrain) ==> (Apply(s, EndDrain).phase.Exited? <==> s.stopping.Signaled? && Marks(s.pipe) == 0)
  {
    EveryRunMovesMark(run);
    EveryRunKeepsInv(run);
    assert Marks([]) == 0;
    hide Marks, OnePlace, BatchSafe, Covered, Ids, Flags, Registered;
  }
}
