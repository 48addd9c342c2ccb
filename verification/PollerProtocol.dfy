/**
 Who finishes a poller node: the hand-off between callers, the poller thread and `poller_stop`
 in workflow/src/kernel/poller.c.  Every step below is one critical section, or one callback,
 and steps of different threads may follow each other in any order.
 */
module PollerProtocol {

  // What a write to the pipe carries: a node to finish, or the null pointer that stops the thread.
  datatype Message = Pointer(id: nat) | StopMark

  datatype Phase = Off | Waiting | Handling | Draining | TimingOut | Exited

  datatype Stopping = NotStopping | Signaled | Joined | Clearing

  datatype State = State(
    created: set<nat>,          // nodes ever inserted
    fdOf: map<nat, int>,        // data.fd of each node, -1 for a timer
    nodes: map<int, nat>,       // nodes[]
    held: set<nat>,             // nodes in the timeout list, the tree or the list without timeouts
    removed: set<nat>,          // nodes with the `removed` flag
    pipe: seq<Message>,
    stopped: bool,
    phase: Phase,               // the poller thread:
    batch: seq<nat>,            //   events fetched and not yet handled
    pipeEvent: bool,            //   one of them was the pipe
    drain: seq<Message>,        //   messages read and not yet handled
    sawStop: bool,
    local: seq<nat>,            //   nodes taken out and not yet called back
    handed: set<nat>,           // nodes that other callers took out and will call back
    stopping: Stopping,
    stopList: seq<nat>,         // nodes that poller_stop took out and will call back
    covered: set<nat>,          // nodes that were inserted before poller_stop cleared the poller
    called: seq<nat>            // the terminal callbacks made so far
  )

  const TIMER: int := -1

  function Init(): State {
    State({}, map[], map[], {}, {}, [], true, Off, [], false, [], false, [], {}, NotStopping, [], {}, [])
  }

  datatype Action =
    | Start
    | Add(id: nat, fd: int)
    | Del(fd: int)
    | Mod(fd: int, id: nat)
    | AddTimer(id: nat)
    | DelTimer(id: nat)
    | FinishHanded(id: nat)
    | Fetch(events: seq<nat>, pipeEvent: bool)
    | HandleEvent(complete: bool)
    | FinishLocal
    | ReadPipe
    | HandleMessage
    | EndDrain
    | TakeExpired(due: seq<nat>)
    | EndRound
    | StopSignal
    | StopJoin
    | StopClear(order: seq<nat>)
    | StopFinish
    | StopReturn

  // data.fd of a node.
  ghost function Fd(s: State, n: nat): int {
    if n in s.fdOf then s.fdOf[n] else TIMER
  }

  function Count(l: seq<nat>, n: nat): nat {
    if l == [] then 0 else (if l[0] == n then 1 else 0) + Count(l[1..], n)
  }

  // The nodes that messages point to.
  function Ids(m: seq<Message>): seq<nat> {
    if m == [] then []
    else if m[0].Pointer? then [m[0].id] + Ids(m[1..])
    else Ids(m[1..])
  }

  predicate IsCallerStep(a: Action) {
    a.Add? || a.Del? || a.Mod? || a.AddTimer? || a.DelTimer? || a.FinishHanded?
  }

  predicate IsStopStep(a: Action) {
    a.StopSignal? || a.StopJoin? || a.StopClear? || a.StopFinish? || a.StopReturn?
  }

  predicate IsThreadStep(a: Action) {
    !IsCallerStep(a) && !IsStopStep(a)
  }

  ghost predicate Distinct(s: seq<nat>) {
    forall i, j :: 0 <= i < j < |s| ==> s[i] != s[j]
  }

  ghost predicate ListsExactly(s: seq<nat>, t: set<nat>) {
    Distinct(s) && forall x :: x in s <==> x in t
  }

  ghost predicate InNodes(s: State, n: nat) {
    exists fd :: fd in s.nodes && s.nodes[fd] == n
  }

  // What the environment guarantees, and where each thread has to be, for an action to happen.
  ghost predicate Enabled(s: State, a: Action) {
    match a
    case Start => s.phase.Off? && s.stopping.NotStopping?
    case Add(id, fd) => id !in s.created && fd >= 0
    case Del(fd) => true
    case Mod(fd, id) => id !in s.created && fd >= 0
    case AddTimer(id) => id !in s.created
    // The caller must not use a timer that has been called back.
    case DelTimer(id) => id in s.created && Fd(s, id) == TIMER && id !in s.called
    case FinishHanded(id) => id in s.handed
    // The kernel reports registered descriptors only, each once.
    case Fetch(events, p) =>
      && s.phase.Waiting? && Distinct(events) && (forall e :: e in events ==> InNodes(s, e))
      && (p ==> s.pipe != [])
    case HandleEvent(complete) => s.phase.Handling? && s.batch != [] && s.local == []
    case FinishLocal => s.local != []
    case ReadPipe => s.phase.Handling? && s.batch == [] && s.local == [] && s.pipeEvent
    case HandleMessage => s.phase.Draining? && s.drain != []
    case EndDrain => s.phase.Draining? && s.drain == []
    case TakeExpired(due) =>
      && (s.phase.TimingOut? || (s.phase.Handling? && s.batch == [] && !s.pipeEvent)) && s.local == []
      && Distinct(due) && forall n :: n in due ==> n in s.held
    case EndRound => s.phase.TimingOut? && s.local == []
    case StopSignal => s.phase != Off && s.stopping.NotStopping?
    case StopJoin => s.phase.Exited? && s.stopping.Signaled?
    case StopClear(order) => s.stopping.Joined? && ListsExactly(order, s.held)
    case StopFinish => s.stopping.Clearing? && s.stopList != []
    case StopReturn => s.stopping.Clearing? && s.stopList == []
  }

  // poller->nodes[fd] = NULL for every node of `gone` that has a descriptor.
  ghost function Unregister(s: State, gone: set<nat>): map<int, nat> {
    map fd | fd in s.nodes && s.nodes[fd] !in gone :: s.nodes[fd]
  }

  // Takes `id` out for good: through the pipe if the thread runs, by the caller itself if not.
  ghost function HandOver(s: State, id: nat): State {
    if s.stopped then s.(held := s.held - {id}, handed := s.handed + {id})
    else s.(held := s.held - {id}, removed := s.removed + {id}, pipe := s.pipe + [Pointer(id)])
  }

  ghost function Call(s: State, id: nat): State {
    s.(called := s.called + [id])
  }

  ghost function Apply(s: State, a: Action): State
    requires Enabled(s, a)
  {
    match a
    case Start => s.(phase := Waiting, stopped := false)
    case Add(id, fd) =>
      if fd in s.nodes then s
      else s.(created := s.created + {id}, fdOf := s.fdOf[id := fd], nodes := s.nodes[fd := id], held := s.held + {id})
    case Del(fd) =>
      if fd !in s.nodes then s
      else HandOver(s, s.nodes[fd]).(nodes := Unregister(s, {s.nodes[fd]}))
    case Mod(fd, id) =>
      if fd !in s.nodes then s
      else
        var t := HandOver(s, s.nodes[fd]);
        t.(created := t.created + {id}, fdOf := t.fdOf[id := fd], nodes := t.nodes[fd := id], held := t.held + {id})
    case AddTimer(id) =>
      s.(created := s.created + {id}, fdOf := s.fdOf[id := TIMER], held := s.held + {id})
    case DelTimer(id) =>
      if id in s.removed then s
      else s.(removed := s.removed + {id}, held := s.held - {id}, handed := s.handed + {id})
    case FinishHanded(id) => Call(s.(handed := s.handed - {id}), id)
    case Fetch(events, p) => s.(phase := Handling, batch := events, pipeEvent := p)
    case HandleEvent(complete) =>
      var e, t := s.batch[0], s.(batch := s.batch[1..]);
      if !complete || e in s.removed then t
      else t.(nodes := Unregister(s, {e}), held := s.held - {e}, local := [e])
    case FinishLocal => Call(s.(local := s.local[1..]), s.local[0])
    case ReadPipe => s.(phase := Draining, drain := s.pipe, pipe := [], sawStop := false, pipeEvent := false)
    case HandleMessage =>
      var m, t := s.drain[0], s.(drain := s.drain[1..]);
      if m.StopMark? then t.(sawStop := true) else Call(t, m.id)
    case EndDrain => if s.sawStop then s.(phase := Exited) else s.(phase := TimingOut)
    case TakeExpired(due) =>
      var gone := set n | n in due;
      s.(phase := TimingOut, local := due, held := s.held - gone, nodes := Unregister(s, gone),
         removed := s.removed + (set n | n in gone && Fd(s, n) == TIMER))
    case EndRound => s.(phase := Waiting)
    case StopSignal => s.(pipe := s.pipe + [StopMark], stopping := Signaled)
    case StopJoin => s.(phase := Off, stopped := true, stopping := Joined)
    case StopClear(order) =>
      s.(called := s.called + Ids(s.pipe), pipe := [], stopList := order, held := {}, nodes := map[],
         removed := s.removed + (set n | n in s.held && Fd(s, n) == TIMER), covered := s.created, stopping := Clearing)
    case StopFinish => Call(s.(stopList := s.stopList[1..]), s.stopList[0])
    case StopReturn => s.(stopping := NotStopping)
  }

  // How often a node is found: held, on its way through the pipe, in the hands of one of the
  // threads, or called back.
  ghost function Times(s: State, n: nat): nat {
    (if n in s.held then 1 else 0) + Count(Ids(s.pipe), n) + Count(Ids(s.drain), n) + Count(s.local, n)
    + (if n in s.handed then 1 else 0) + Count(s.stopList, n) + Count(s.called, n)
  }

  ghost predicate OnePlace(s: State) {
    forall n :: Times(s, n) == if n in s.created then 1 else 0
  }

  ghost predicate Registered(s: State) {
    && s.fdOf.Keys == s.created && s.held <= s.created
    && (forall fd :: fd in s.nodes ==> s.nodes[fd] in s.held && Fd(s, s.nodes[fd]) == fd && fd >= 0)
    && (forall n :: n in s.held && Fd(s, n) != TIMER ==> Fd(s, n) in s.nodes && s.nodes[Fd(s, n)] == n)
  }

  ghost predicate Flags(s: State) {
    && s.removed <= s.created
    && (forall n :: n in s.held ==> n !in s.removed)
    && (forall n :: n in Ids(s.pipe) || n in Ids(s.drain) ==> n in s.removed)
    && (forall n :: n in s.created && Fd(s, n) == TIMER && n !in s.held ==> n in s.removed)
  }

  // A fetched event belongs to a node that is registered, or waits in the pipe for the thread.
  ghost predicate BatchSafe(s: State) {
    && Distinct(s.batch)
    && (forall e :: e in s.batch ==>
      e in s.created && Fd(s, e) != TIMER && (e in s.held || (e in s.removed && e in Ids(s.pipe))))
    && (s.batch != [] ==> s.phase.Handling?)
  }

  ghost predicate ThreadSane(s: State) {
    && (s.phase.Off? <==> s.stopped)
    && (s.drain != [] ==> s.phase.Draining?)
    && (s.local != [] ==> s.phase.Handling? || s.phase.TimingOut?)
    && (s.stopList != [] ==> s.stopping.Clearing?)
    && (s.stopping.Joined? || s.stopping.Clearing? ==> s.phase.Off?)
    && (s.phase.Off? && !s.stopping.Joined? ==> s.pipe == [])
  }

  ghost predicate Covered(s: State) {
    forall n :: n in s.covered ==> n in s.handed || n in s.stopList || n in s.called
  }

  ghost predicate Inv(s: State) {
    && OnePlace(s) && Registered(s) && Flags(s) && BatchSafe(s) && ThreadSane(s) && Covered(s)
  }

  lemma {:induction false} CountIn(l: seq<nat>, n: nat)
    ensures Count(l, n) > 0 <==> n in l
  {
    if l != [] { CountIn(l[1..], n); }
  }

  lemma {:induction false} CountDistinct(l: seq<nat>, n: nat)
    requires Distinct(l)
    ensures Count(l, n) == if n in l then 1 else 0
  {
    if l != [] {
      CountDistinct(l[1..], n);
      assert l[0] !in l[1..];
    }
  }

  lemma {:induction false} CountAppend(a: seq<nat>, b: seq<nat>, n: nat)
    ensures Count(a + b, n) == Count(a, n) + Count(b, n)
  {
    if a == [] {
      assert a + b == b;
    } else {
      assert (a + b)[1..] == a[1..] + b;
      CountAppend(a[1..], b, n);
    }
  }

  lemma CountHead(x: nat, l: seq<nat>, n: nat)
    ensures Count([x] + l, n) == (if x == n then 1 else 0) + Count(l, n)
  {
    assert ([x] + l)[1..] == l;
  }

  lemma CountPush(a: seq<nat>, x: nat, n: nat)
    ensures Count(a + [x], n) == Count(a, n) + if x == n then 1 else 0
  {
    CountAppend(a, [x], n);
    assert Count([x], n) == (if x == n then 1 else 0) + Count([], n);
  }

  lemma {:induction false} IdsPush(p: seq<Message>, m: Message)
    ensures Ids(p + [m]) == if m.Pointer? then Ids(p) + [m.id] else Ids(p)
  {
    if p == [] {
      assert Ids([m][1..]) == [];
    } else {
      assert (p + [m])[1..] == p[1..] + [m];
      IdsPush(p[1..], m);
      IdsStep(p);
      IdsStep(p + [m]);
      hide Ids;
    }
  }

  lemma IdsStep(p: seq<Message>)
    requires p != []
    ensures Ids(p) == if p[0].Pointer? then [p[0].id] + Ids(p[1..]) else Ids(p[1..])
  {
  }

  /* ---------- no step makes a node appear twice, or vanish ---------- */

  lemma HandOverTimes(s: State, x: nat, n: nat)
    requires OnePlace(s) && x in s.held && x in s.created
    ensures Times(HandOver(s, x), n) == Times(s, n)
  {
    assert Times(s, x) == 1;
    IdsPush(s.pipe, Pointer(x));
    hide Ids, Count, OnePlace;
    CountPush(Ids(s.pipe), x, n);
  }

  lemma InsertTimes(s: State, id: nat, n: nat, t: State)
    requires OnePlace(s) && id !in s.created
    requires t == s.(created := s.created + {id}, fdOf := t.fdOf, nodes := t.nodes, held := s.held + {id})
    ensures Times(t, n) == if n in t.created then 1 else 0
  {
    assert Times(s, n) == if n in s.created then 1 else 0;
    assert Times(s, id) == 0;
    hide Ids, Count;
  }

  lemma ReplaceTimes(s: State, x: nat, id: nat, n: nat, t: State)
    requires OnePlace(s) && x in s.held && x in s.created && id !in s.created
    requires var u := HandOver(s, x);
      t == u.(created := s.created + {id}, fdOf := t.fdOf, nodes := t.nodes, held := u.held + {id})
    ensures Times(t, n) == if n in t.created then 1 else 0
  {
    var u := HandOver(s, x);
    assert OnePlace(u) by {
      forall k
        ensures Times(u, k) == if k in u.created then 1 else 0
      {
        HandOverTimes(s, x, k);
      }
    }
    InsertTimes(u, id, n, t);
  }

  lemma TimerTimes(s: State, id: nat, n: nat)
    requires OnePlace(s) && id in s.held && id in s.created
    ensures Times(s.(removed := s.removed + {id}, held := s.held - {id}, handed := s.handed + {id}), n) == Times(s, n)
  {
    assert Times(s, id) == 1;
    hide Ids, Count;
  }

  lemma AddTimes(s: State, id: nat, fd: int, n: nat)
    requires Inv(s) && Enabled(s, Add(id, fd))
    ensures Times(Apply(s, Add(id, fd)), n) == if n in Apply(s, Add(id, fd)).created then 1 else 0
  {
    assert Times(s, n) == if n in s.created then 1 else 0;
    hide Ids, Count, BatchSafe, ThreadSane, Covered, OnePlace;
    if fd !in s.nodes { InsertTimes(s, id, n, Apply(s, Add(id, fd))); }
  }

  lemma DelTimes(s: State, fd: int, n: nat)
    requires Inv(s) && Enabled(s, Del(fd))
    ensures Times(Apply(s, Del(fd)), n) == if n in Apply(s, Del(fd)).created then 1 else 0
  {
    assert Times(s, n) == if n in s.created then 1 else 0;
    hide Ids, Count, BatchSafe, ThreadSane, Covered, OnePlace;
    if fd in s.nodes { HandOverTimes(s, s.nodes[fd], n); }
  }

  lemma ModTimes(s: State, fd: int, id: nat, n: nat)
    requires Inv(s) && Enabled(s, Mod(fd, id))
    ensures Times(Apply(s, Mod(fd, id)), n) == if n in Apply(s, Mod(fd, id)).created then 1 else 0
  {
    assert Times(s, n) == if n in s.created then 1 else 0;
    hide Ids, Count, BatchSafe, ThreadSane, Covered, OnePlace;
    if fd in s.nodes { ReplaceTimes(s, s.nodes[fd], id, n, Apply(s, Mod(fd, id))); }
  }

  lemma AddTimerTimes(s: State, id: nat, n: nat)
    requires Inv(s) && Enabled(s, AddTimer(id))
    ensures Times(Apply(s, AddTimer(id)), n) == if n in Apply(s, AddTimer(id)).created then 1 else 0
  {
    assert Times(s, n) == if n in s.created then 1 else 0;
    hide Ids, Count, BatchSafe, ThreadSane, Covered, OnePlace;
    InsertTimes(s, id, n, Apply(s, AddTimer(id)));
  }

  lemma DelTimerTimes(s: State, id: nat, n: nat)
    requires Inv(s) && Enabled(s, DelTimer(id))
    ensures Times(Apply(s, DelTimer(id)), n) == if n in Apply(s, DelTimer(id)).created then 1 else 0
  {
    assert Times(s, n) == if n in s.created then 1 else 0;
    hide Ids, Count, BatchSafe, ThreadSane, Covered, OnePlace;
    if id !in s.removed { TimerTimes(s, id, n); }
  }

  lemma FinishHandedTimes(s: State, id: nat, n: nat)
    requires Inv(s) && Enabled(s, FinishHanded(id))
    ensures Times(Apply(s, FinishHanded(id)), n) == if n in Apply(s, FinishHanded(id)).created then 1 else 0
  {
    assert Times(s, n) == if n in s.created then 1 else 0;
    hide Ids, Count, BatchSafe, ThreadSane, Covered, OnePlace;
    CountPush(s.called, id, n);
  }

  lemma CallerTimes(s: State, a: Action, n: nat)
    requires Inv(s) && Enabled(s, a) && IsCallerStep(a)
    ensures Times(Apply(s, a), n) == if n in Apply(s, a).created then 1 else 0
  {
    hide Apply, Enabled, Inv, Times;
    match a
    case Add(id, fd) => AddTimes(s, id, fd, n);
    case Del(fd) => DelTimes(s, fd, n);
    case Mod(fd, id) => ModTimes(s, fd, id, n);
    case AddTimer(id) => AddTimerTimes(s, id, n);
    case DelTimer(id) => DelTimerTimes(s, id, n);
    case FinishHanded(id) => FinishHandedTimes(s, id, n);
  }

  lemma HandleEventTimes(s: State, complete: bool, n: nat)
    requires Inv(s) && Enabled(s, HandleEvent(complete))
    ensures Times(Apply(s, HandleEvent(complete)), n) == if n in Apply(s, HandleEvent(complete)).created then 1 else 0
  {
    CountDistinct([s.batch[0]], n);
    assert Times(s, n) == if n in s.created then 1 else 0;
    hide Ids, Count, OnePlace, Registered, Flags, Covered;
  }

  lemma TakeExpiredTimes(s: State, due: seq<nat>, n: nat)
    requires Inv(s) && Enabled(s, TakeExpired(due))
    ensures Times(Apply(s, TakeExpired(due)), n) == if n in Apply(s, TakeExpired(due)).created then 1 else 0
  {
    CountDistinct(due, n);
    assert Count([], n) == 0;
    assert Times(s, n) == if n in s.created then 1 else 0;
    hide Ids, Count, OnePlace, Registered, Flags, Covered;
  }

  lemma HandleMessageTimes(s: State, n: nat)
    requires Inv(s) && Enabled(s, HandleMessage)
    ensures Times(Apply(s, HandleMessage), n) == if n in Apply(s, HandleMessage).created then 1 else 0
  {
    IdsStep(s.drain);
    assert Times(s, n) == if n in s.created then 1 else 0;
    hide Ids, Count, OnePlace, Registered, Flags, Covered;
    if s.drain[0].Pointer? {
      CountPush(s.called, s.drain[0].id, n);
      CountHead(s.drain[0].id, Ids(s.drain[1..]), n);
    }
  }

  lemma FinishLocalTimes(s: State, n: nat)
    requires Inv(s) && Enabled(s, FinishLocal)
    ensures Times(Apply(s, FinishLocal), n) == if n in Apply(s, FinishLocal).created then 1 else 0
  {
    assert Times(s, n) == if n in s.created then 1 else 0;
    hide Ids, Count, OnePlace, Registered, Flags, Covered;
    CountPush(s.called, s.local[0], n);
    CountHead(s.local[0], s.local[1..], n);
    assert s.local == [s.local[0]] + s.local[1..];
  }

  lemma QuietTimes(s: State, a: Action, n: nat)
    requires Inv(s) && Enabled(s, a)
    requires a.Start? || a.Fetch? || a.ReadPipe? || a.EndDrain? || a.EndRound?
    ensures Times(Apply(s, a), n) == if n in Apply(s, a).created then 1 else 0
  {
    assert Times(s, n) == if n in s.created then 1 else 0;
    assert Ids([]) == [] && Count([], n) == 0;
    hide Ids, Count, OnePlace, Registered, Flags, Covered;
  }

  lemma ThreadTimes(s: State, a: Action, n: nat)
    requires Inv(s) && Enabled(s, a) && IsThreadStep(a)
    ensures Times(Apply(s, a), n) == if n in Apply(s, a).created then 1 else 0
  {
    hide Apply, Enabled, Inv, Times;
    match a
    case HandleEvent(complete) => HandleEventTimes(s, complete, n);
    case FinishLocal => FinishLocalTimes(s, n);
    case HandleMessage => HandleMessageTimes(s, n);
    case TakeExpired(due) => TakeExpiredTimes(s, due, n);
    case _ => QuietTimes(s, a, n);
  }

  lemma StopClearTimes(s: State, order: seq<nat>, n: nat)
    requires Inv(s) && Enabled(s, StopClear(order))
    ensures Times(Apply(s, StopClear(order)), n) == if n in Apply(s, StopClear(order)).created then 1 else 0
  {
    assert Times(s, n) == if n in s.created then 1 else 0;
    CountDistinct(order, n);
    CountAppend(s.called, Ids(s.pipe), n);
    assert Ids([]) == [] && Count([], n) == 0;
    hide Ids, Count, OnePlace, Registered, Flags, Covered, BatchSafe;
  }

  lemma StopTimes(s: State, a: Action, n: nat)
    requires Inv(s) && Enabled(s, a) && IsStopStep(a)
    ensures Times(Apply(s, a), n) == if n in Apply(s, a).created then 1 else 0
  {
    assert Times(s, n) == if n in s.created then 1 else 0;
    if a.StopFinish? {
      CountPush(s.called, s.stopList[0], n);
      CountHead(s.stopList[0], s.stopList[1..], n);
      assert s.stopList == [s.stopList[0]] + s.stopList[1..];
    }
    hide Ids, Count, OnePlace, Registered, Flags, Covered, BatchSafe;
    match a
    case StopSignal => IdsPush(s.pipe, StopMark);
    case StopClear(order) => StopClearTimes(s, order, n);
    case _ =>
  }

  lemma OnePlaceKept(s: State, a: Action)
    requires Inv(s) && Enabled(s, a)
    ensures OnePlace(Apply(s, a))
  {
    forall n
      ensures Times(Apply(s, a), n) == if n in Apply(s, a).created then 1 else 0
    {
      hide Enabled, Apply, Inv, OnePlace, Times;
      if IsCallerStep(a) {
        CallerTimes(s, a, n);
      } else if IsStopStep(a) {
        StopTimes(s, a, n);
      } else {
        ThreadTimes(s, a, n);
      }
    }
  }

  /* ---------- the rest of the invariant ---------- */

  lemma ModRegistered(s: State, fd: int, id: nat)
    requires Inv(s) && Enabled(s, Mod(fd, id))
    ensures Registered(Apply(s, Mod(fd, id)))
  {
    hide OnePlace, Covered, Ids, Count, BatchSafe, ThreadSane, Flags;
  }

  lemma DelRegistered(s: State, fd: int)
    requires Inv(s) && Enabled(s, Del(fd))
    ensures Registered(Apply(s, Del(fd)))
  {
    hide OnePlace, Covered, Ids, Count, BatchSafe, ThreadSane, Flags;
  }

  lemma CallerRegistered(s: State, a: Action)
    requires Inv(s) && Enabled(s, a) && IsCallerStep(a)
    ensures Registered(Apply(s, a))
  {
    hide OnePlace, Covered, Ids, Count, BatchSafe, ThreadSane;
    match a
    case Mod(fd, id) => ModRegistered(s, fd, id);
    case Del(fd) => DelRegistered(s, fd);
    case _ =>
  }

  lemma UnregisterKeeps(s: State, gone: set<nat>, t: State)
    requires Registered(s) && t.created == s.created && t.fdOf == s.fdOf
    requires t.held == s.held - gone && t.nodes == Unregister(s, gone)
    ensures Registered(t)
  {
  }

  lemma HandleEventRegistered(s: State, complete: bool)
    requires Inv(s) && Enabled(s, HandleEvent(complete))
    ensures Registered(Apply(s, HandleEvent(complete)))
  {
    hide OnePlace, Covered, Ids, Count, ThreadSane, BatchSafe, Flags;
    if complete && s.batch[0] !in s.removed {
      UnregisterKeeps(s, {s.batch[0]}, Apply(s, HandleEvent(complete)));
    }
  }

  lemma TakeExpiredRegistered(s: State, due: seq<nat>)
    requires Inv(s) && Enabled(s, TakeExpired(due))
    ensures Registered(Apply(s, TakeExpired(due)))
  {
    hide OnePlace, Covered, Ids, Count, ThreadSane, BatchSafe, Flags;
    UnregisterKeeps(s, (set n | n in due), Apply(s, TakeExpired(due)));
  }

  lemma ThreadRegistered(s: State, a: Action)
    requires Inv(s) && Enabled(s, a) && IsThreadStep(a)
    ensures Registered(Apply(s, a))
  {
    hide OnePlace, Covered, Ids, Count, ThreadSane, BatchSafe, Flags;
    match a
    case HandleEvent(complete) => HandleEventRegistered(s, complete);
    case TakeExpired(due) => TakeExpiredRegistered(s, due);
    case _ =>
      QuietFields(s, a);
      hide Enabled, Apply;
  }

  lemma QuietFields(s: State, a: Action)
    requires Enabled(s, a) && IsThreadStep(a) && !a.HandleEvent? && !a.TakeExpired?
    ensures var t := Apply(s, a);
      t.created == s.created && t.fdOf == s.fdOf && t.nodes == s.nodes && t.held == s.held
  {
  }

  lemma StopRegistered(s: State, a: Action)
    requires Inv(s) && Enabled(s, a) && IsStopStep(a)
    ensures Registered(Apply(s, a))
  {
    hide OnePlace, Covered, Ids, Count, ThreadSane, BatchSafe;
  }

  lemma HandOverFlags(s: State, x: nat)
    requires Registered(s) && Flags(s) && x in s.held && Fd(s, x) != TIMER
    ensures Flags(HandOver(s, x))
  {
    IdsPush(s.pipe, Pointer(x));
  }

  lemma DelFlags(s: State, fd: int)
    requires Inv(s) && Enabled(s, Del(fd))
    ensures Flags(Apply(s, Del(fd)))
  {
    if fd in s.nodes { HandOverFlags(s, s.nodes[fd]); }
    hide OnePlace, Covered, Ids, Count, BatchSafe, ThreadSane;
  }

  lemma ModFlags(s: State, fd: int, id: nat)
    requires Inv(s) && Enabled(s, Mod(fd, id))
    ensures Flags(Apply(s, Mod(fd, id)))
  {
    if fd in s.nodes { HandOverFlags(s, s.nodes[fd]); }
    hide OnePlace, Covered, Ids, Count, BatchSafe, ThreadSane;
  }

  lemma CallerFlags(s: State, a: Action)
    requires Inv(s) && Enabled(s, a) && IsCallerStep(a)
    ensures Flags(Apply(s, a))
  {
    hide OnePlace, Covered, Ids, Count, BatchSafe, ThreadSane;
    match a
    case Del(fd) => DelFlags(s, fd);
    case Mod(fd, id) => ModFlags(s, fd, id);
    case _ =>
  }

  lemma HandleEventFlags(s: State, complete: bool)
    requires Inv(s) && Enabled(s, HandleEvent(complete))
    ensures Flags(Apply(s, HandleEvent(complete)))
  {
    assert s.batch[0] in s.created && Fd(s, s.batch[0]) != TIMER;
    hide Ids, BatchSafe, Registered, OnePlace, Covered, Count;
  }

  lemma TakeExpiredFlags(s: State, due: seq<nat>)
    requires Inv(s) && Enabled(s, TakeExpired(due))
    ensures Flags(Apply(s, TakeExpired(due)))
  {
    hide Ids, BatchSafe, OnePlace, Covered, Count;
  }

  lemma HandleMessageFlags(s: State)
    requires Inv(s) && Enabled(s, HandleMessage)
    ensures Flags(Apply(s, HandleMessage))
  {
    IdsStep(s.drain);
    hide Ids, BatchSafe, OnePlace, Covered, Count;
  }

  lemma ThreadFlags(s: State, a: Action)
    requires Inv(s) && Enabled(s, a) && IsThreadStep(a)
    ensures Flags(Apply(s, a))
  {
    assert Ids([]) == [];
    hide Ids, Registered, BatchSafe, OnePlace, Covered, Count, ThreadSane;
    match a
    case HandleEvent(c) => HandleEventFlags(s, c);
    case TakeExpired(due) => TakeExpiredFlags(s, due);
    case HandleMessage => HandleMessageFlags(s);
    case _ =>
  }

  lemma StopFlags(s: State, a: Action)
    requires Inv(s) && Enabled(s, a) && IsStopStep(a)
    ensures Flags(Apply(s, a))
  {
    if a.StopSignal? { IdsPush(s.pipe, StopMark); }
    assert Ids([]) == [];
    hide OnePlace, Covered, Ids, Count, ThreadSane, BatchSafe;
  }

  lemma HandOverBatch(s: State, x: nat)
    requires Registered(s) && BatchSafe(s) && ThreadSane(s) && x in s.held
    ensures BatchSafe(HandOver(s, x))
  {
    IdsPush(s.pipe, Pointer(x));
  }

  lemma DelBatch(s: State, fd: int)
    requires Inv(s) && Enabled(s, Del(fd))
    ensures BatchSafe(Apply(s, Del(fd)))
  {
    if fd in s.nodes { HandOverBatch(s, s.nodes[fd]); }
    hide OnePlace, Covered, Ids, Count, ThreadSane, Flags;
  }

  lemma ModBatch(s: State, fd: int, id: nat)
    requires Inv(s) && Enabled(s, Mod(fd, id))
    ensures BatchSafe(Apply(s, Mod(fd, id)))
  {
    if fd in s.nodes { HandOverBatch(s, s.nodes[fd]); }
    hide OnePlace, Covered, Ids, Count, ThreadSane, Flags;
  }

  lemma CallerBatch(s: State, a: Action)
    requires Inv(s) && Enabled(s, a) && IsCallerStep(a)
    ensures BatchSafe(Apply(s, a))
  {
    hide OnePlace, Covered, Ids, Count, ThreadSane, Flags;
    match a
    case Del(fd) => DelBatch(s, fd);
    case Mod(fd, id) => ModBatch(s, fd, id);
    case _ =>
  }

  lemma FetchBatch(s: State, events: seq<nat>, p: bool)
    requires Inv(s) && Enabled(s, Fetch(events, p))
    ensures BatchSafe(Apply(s, Fetch(events, p)))
  {
    hide OnePlace, Covered, Ids, Count, Flags, ThreadSane;
    forall e | e in events
      ensures e in s.held && e in s.created && Fd(s, e) != TIMER
    {
      assert InNodes(s, e);
      var fd :| fd in s.nodes && s.nodes[fd] == e;
    }
    hide Registered;
  }

  lemma HandleEventBatch(s: State, complete: bool)
    requires Inv(s) && Enabled(s, HandleEvent(complete))
    ensures BatchSafe(Apply(s, HandleEvent(complete)))
  {
    assert forall e :: e in s.batch[1..] ==> e in s.batch && e != s.batch[0];
    hide OnePlace, Covered, Ids, Count, Flags, Registered, ThreadSane;
  }

  lemma ThreadBatch(s: State, a: Action)
    requires Inv(s) && Enabled(s, a) && IsThreadStep(a)
    ensures BatchSafe(Apply(s, a))
  {
    hide OnePlace, Covered, Ids, Count, Flags, Registered;
    match a
    case Fetch(events, p) => FetchBatch(s, events, p);
    case HandleEvent(complete) => HandleEventBatch(s, complete);
    case _ =>
  }

  lemma StopBatch(s: State, a: Action)
    requires Inv(s) && Enabled(s, a) && IsStopStep(a)
    ensures BatchSafe(Apply(s, a))
  {
    if a.StopSignal? { IdsPush(s.pipe, StopMark); }
    hide OnePlace, Covered, Ids, Count, Flags;
  }

  lemma ThreadSaneKept(s: State, a: Action)
    requires Inv(s) && Enabled(s, a)
    ensures ThreadSane(Apply(s, a))
  {
    hide OnePlace, Covered, Registered, Flags, Ids;
  }

  lemma CoveredKept(s: State, a: Action)
    requires Inv(s) && Enabled(s, a)
    ensures Covered(Apply(s, a))
  {
    if a.StopClear? {
      forall n | n in s.created
        ensures n in s.handed || n in a.order || n in s.called + Ids(s.pipe)
      {
        assert Times(s, n) == 1;
        CountIn(Ids(s.pipe), n);
        CountIn(s.stopList, n);
        CountIn(s.called, n);
      }
    }
    hide OnePlace, Registered, Flags, BatchSafe, Ids, Count;
  }

  lemma StepKeepsInv(s: State, a: Action)
    requires Inv(s) && Enabled(s, a)
    ensures Inv(Apply(s, a))
  {
    OnePlaceKept(s, a);
    ThreadSaneKept(s, a);
    CoveredKept(s, a);
    hide Apply, Enabled, OnePlace, Registered, Flags, BatchSafe, ThreadSane, Covered;
    if IsCallerStep(a) {
      CallerRegistered(s, a); CallerFlags(s, a); CallerBatch(s, a);
    } else if IsStopStep(a) {
      StopRegistered(s, a); StopFlags(s, a); StopBatch(s, a);
    } else {
      ThreadRegistered(s, a); ThreadFlags(s, a); ThreadBatch(s, a);
    }
  }

  /* ---------- whole runs ---------- */

  // Every action of `run` is possible where it happens, starting from `Init`.
  ghost predicate Possible(run: seq<Action>)
    decreases |run|, 0
  {
    run == [] || (Possible(run[..|run| - 1]) && Enabled(After(run[..|run| - 1]), run[|run| - 1]))
  }

  ghost function After(run: seq<Action>): State
    requires Possible(run)
    decreases |run|, 1
  {
    if run == [] then Init() else Apply(After(run[..|run| - 1]), run[|run| - 1])
  }

  lemma {:induction false} EveryRunKeepsInv(run: seq<Action>)
    requires Possible(run)
    ensures Inv(After(run))
    decreases |run|
  {
    if run == [] {
      assert forall n :: Times(Init(), n) == 0;
    } else {
      EveryRunKeepsInv(run[..|run| - 1]);
      StepKeepsInv(After(run[..|run| - 1]), run[|run| - 1]);
    }
  }

  lemma LastStep(run: seq<Action>)
    requires Possible(run) && run != []
    ensures var before, a := run[..|run| - 1], run[|run| - 1];
      Possible(before) && Enabled(After(before), a) && After(run) == Apply(After(before), a)
  {
  }

  // In every run, a node gets at most one terminal callback, and none before it has left every
  // container, the pipe and every thread's hands.
  lemma AtMostOneCallback(run: seq<Action>, s: State, n: nat)
    requires Possible(run) && s == After(run)
    ensures Count(s.called, n) <= 1
    ensures n in s.called ==>
      && n !in s.held && n !in Ids(s.pipe) && n !in Ids(s.drain)
      && n !in s.local && n !in s.handed && n !in s.stopList
  {
    EveryRunKeepsInv(run);
    assert Times(s, n) == if n in s.created then 1 else 0;
    CountIn(s.called, n);
    CountIn(Ids(s.pipe), n);
    CountIn(Ids(s.drain), n);
    CountIn(s.local, n);
    CountIn(s.stopList, n);
  }

  // Nothing is lost: an inserted node that has not been called back can be found somewhere.
  lemma NothingLost(run: seq<Action>, s: State, n: nat)
    requires Possible(run) && s == After(run) && n in s.created && n !in s.called
    ensures n in s.held || n in Ids(s.pipe) || n in Ids(s.drain) || n in s.local || n in s.handed || n in s.stopList
  {
    EveryRunKeepsInv(run);
    assert Times(s, n) == 1;
    CountIn(s.called, n);
    CountIn(Ids(s.pipe), n);
    CountIn(Ids(s.drain), n);
    CountIn(s.local, n);
    CountIn(s.stopList, n);
  }

  // An event handler works on a node that still exists; it completes the node only if no other
  // thread has handed it to the pipe.
  lemma HandlerIsSafe(run: seq<Action>, s: State)
    requires Possible(run) && s == After(run) && Enabled(s, HandleEvent(true))
    ensures var e, t := s.batch[0], Apply(s, HandleEvent(true));
      && e !in s.called
      && (t.local == [e] <==> e in s.held)
      && (e in Ids(s.pipe) ==> t == s.(batch := s.batch[1..]))
  {
    EveryRunKeepsInv(run);
    var e := s.batch[0];
    assert Times(s, e) == 1;
    CountIn(s.called, e);
    CountIn(Ids(s.pipe), e);
  }

  // The step is a call that takes node `n` out and leaves its callback to the caller: poller_del_timer
  // when it succeeds, and poller_del and poller_mod when they find the poller stopped.
  ghost predicate Takes(s: State, a: Action, n: nat) {
    || (a == DelTimer(n) && n !in s.removed)
    || (s.stopped && (a.Del? || a.Mod?) && a.fd in s.nodes && s.nodes[a.fd] == n)
  }

  // Call number `i` of the run took `n` out, and has not called it back.
  ghost predicate TakenAt(run: seq<Action>, i: nat, n: nat) {
    && i < |run| && Possible(run[..i]) && Takes(After(run[..i]), run[i], n)
    && forall j :: i < j < |run| ==> run[j] != FinishHanded(n)
  }

  // What a step changes about the nodes in the hands of callers.
  lemma HandedStep(s: State, a: Action, n: nat)
    requires Inv(s) && Enabled(s, a)
    ensures n in Apply(s, a).handed <==> Takes(s, a, n) || (n in s.handed && a != FinishHanded(n))
  {
    hide OnePlace, Registered, Flags, BatchSafe, ThreadSane, Covered, Ids;
  }

  lemma TakenBefore(run: seq<Action>, i: nat, n: nat)
    requires i + 1 < |run|
    ensures TakenAt(run, i, n) <==> TakenAt(run[..|run| - 1], i, n) && run[|run| - 1] != FinishHanded(n)
  {
    var m := |run| - 1;
    assert run[..m][..i] == run[..i];
    hide Takes, Possible, After;
    assert forall j :: i < j < m ==> run[..m][j] == run[j];
  }

  lemma TakenNow(run: seq<Action>, n: nat)
    requires run != [] && Possible(run)
    ensures TakenAt(run, |run| - 1, n) <==> Takes(After(run[..|run| - 1]), run[|run| - 1], n)
  {
  }

  lemma TakenInRange(run: seq<Action>, i: nat, n: nat)
    requires TakenAt(run, i, n)
    ensures i < |run|
  {
  }

  // After one more step.
  lemma TakenOn(run: seq<Action>, n: nat)
    requires run != [] && Possible(run)
    ensures var before, a := run[..|run| - 1], run[|run| - 1];
      Possible(before) && ((exists i :: TakenAt(run, i, n)) <==>
        Takes(After(before), a, n) || ((exists i :: TakenAt(before, i, n)) && a != FinishHanded(n)))
  {
    var m := |run| - 1;
    LastStep(run);
    TakenNow(run, n);
    hide *;
    if i: nat :| TakenAt(run, i, n) {
      TakenInRange(run, i, n);
      if i < m { TakenBefore(run, i, n); }
    }
    if i: nat :| TakenAt(run[..m], i, n) {
      TakenInRange(run[..m], i, n);
      TakenBefore(run, i, n);
    }
  }

  lemma {:induction false} HandedIsTaken(run: seq<Action>, n: nat)
    requires Possible(run)
    ensures n in After(run).handed <==> exists i :: TakenAt(run, i, n)
    decreases |run|
  {
    if run == [] {
      assert forall i: nat :: !TakenAt([], i, n);
    } else {
      hide *;
      var before := run[..|run| - 1];
      LastStep(run);
      EveryRunKeepsInv(before);
      HandedStep(After(before), run[|run| - 1], n);
      HandedIsTaken(before, n);
      TakenOn(run, n);
    }
  }

  // When poller_stop returns, a node that was inserted before it cleared the poller has been called
  // back, once, if and only if no call of another thread has taken it out and not called it back yet.
  lemma StopFinishesEveryNode(run: seq<Action>, s: State, n: nat)
    requires Possible(run) && s == After(run) && Enabled(s, StopReturn) && n in s.covered
    ensures Count(s.called, n) == if (exists i :: TakenAt(run, i, n)) then 0 else 1
  {
    EveryRunKeepsInv(run);
    HandedIsTaken(run, n);
    CoveredCreated(s, n);
    assert Times(s, n) == 1;
    CountIn(s.called, n);
    CountIn(s.stopList, n);
  }

  // A step of another thread that leaves this stop its nodes: it deletes no timer, and no descriptor
  // between the end of the poller thread and the clearing.
  ghost predicate Harmless(s: State, a: Action) {
    && a != StopReturn
    && !(a.DelTimer? && a.id !in s.removed)
    && !(s.stopping.Joined? && (a.Del? || a.Mod?) && a.fd in s.nodes)
  }

  ghost predicate Quiet(run: seq<Action>, from: nat) {
    forall j :: from <= j < |run| ==> Possible(run[..j]) && Harmless(After(run[..j]), run[j])
  }

  // While the poller is being stopped, no caller has a node that the stop is about.
  ghost predicate Untaken(s: State) {
    match s.stopping
    case NotStopping => false
    case Signaled => !s.stopped && s.handed == {}
    case Joined => s.handed == {}
    case Clearing => s.handed !! s.covered
  }

  lemma UntakenStep(s: State, a: Action)
    requires Inv(s) && Enabled(s, a) && Harmless(s, a) && Untaken(s)
    ensures Untaken(Apply(s, a))
  {
    var u := Apply(s, a);
    forall n | n in u.handed
      ensures n in s.handed || (s.stopping.Clearing? && n in s.held)
    {
      HandedStep(s, a, n);
    }
    if s.stopping.Clearing? {
      forall n | n in s.held
        ensures n !in s.covered
      {
        HeldIsNotCovered(s, n);
      }
    }
    hide OnePlace, Registered, Flags, BatchSafe, Covered, Ids;
  }

  lemma HeldIsNotCovered(s: State, n: nat)
    requires Inv(s) && n in s.held
    ensures n !in s.covered || s.stopping.NotStopping?
  {
    assert Times(s, n) <= 1;
    CountIn(s.stopList, n);
    CountIn(s.called, n);
  }

  lemma QuietBefore(run: seq<Action>, from: nat)
    requires Quiet(run, from) && from < |run|
    ensures var m := |run| - 1;
      Quiet(run[..m], from) && Possible(run[..m]) && Harmless(After(run[..m]), run[m])
  {
    var m := |run| - 1;
    assert Possible(run[..m]) && Harmless(After(run[..m]), run[m]);
    hide Harmless, Possible, After;
    forall j | from <= j < m
      ensures Possible(run[..m][..j]) && Harmless(After(run[..m][..j]), run[..m][j])
    {
      assert run[..m][..j] == run[..j];
    }
  }

  lemma SignalLeavesUntaken(s: State)
    requires Inv(s) && Enabled(s, StopSignal) && s.handed == {}
    ensures Untaken(Apply(s, StopSignal))
  {
  }

  lemma {:induction false} QuietKeepsUntaken(run: seq<Action>, from: nat)
    requires Possible(run) && from < |run| && run[from] == StopSignal && Possible(run[..from])
    requires After(run[..from]).handed == {} && Quiet(run, from + 1)
    ensures Untaken(After(run))
    decreases |run|
  {
    hide *;
    var m := |run| - 1;
    LastStep(run);
    EveryRunKeepsInv(run[..m]);
    if from < m {
      assert run[..m][..from] == run[..from];
      QuietBefore(run, from + 1);
      QuietKeepsUntaken(run[..m], from);
      UntakenStep(After(run[..m]), run[m]);
    } else {
      SignalLeavesUntaken(After(run[..m]));
    }
  }

  // So a stop that begins with no node in the hands of a caller, and during which no timer is
  // deleted and, once the thread has ended, no descriptor, has finished every node when it returns.
  lemma QuietStopFinishesAll(run: seq<Action>, s: State, from: nat, n: nat)
    requires Possible(run) && s == After(run) && Enabled(s, StopReturn) && n in s.covered
    requires from < |run| && run[from] == StopSignal && Possible(run[..from])
    requires After(run[..from]).handed == {} && Quiet(run, from + 1)
    ensures Count(s.called, n) == 1
  {
    EveryRunKeepsInv(run);
    QuietKeepsUntaken(run, from);
    CoveredCreated(s, n);
    assert Times(s, n) == 1;
    CountIn(s.called, n);
    CountIn(s.stopList, n);
  }

  lemma CoveredCreated(s: State, n: nat)
    requires Inv(s) && n in s.covered
    ensures n in s.created
  {
    assert Times(s, n) == if n in s.created then 1 else 0;
    CountIn(s.called, n);
    CountIn(s.stopList, n);
  }

  // There can be such a call: a timer deleted while the poller is being stopped.
  lemma StopCanReturnTooEarly() returns (run: seq<Action>)
    ensures Possible(run) && Enabled(After(run), StopReturn) && 7 in After(run).covered && 7 !in After(run).called
  {
    run := TimerDeleted();
    hide Possible, After;
    run := Extend(run, StopJoin);
    run := Extend(run, StopClear([]));
  }

  lemma TimerDeleted() returns (run: seq<Action>)
    ensures Possible(run) && After(run) == State({7}, map[7 := TIMER], map[], {}, {7}, [], false, Exited,
      [], false, [], true, [], {7}, Signaled, [], {}, [])
  {
    run := StoppedThread();
    hide Possible, After;
    run := Extend(run, DelTimer(7));
  }

  lemma StoppedThread() returns (run: seq<Action>)
    ensures Possible(run) && After(run) == State({7}, map[7 := TIMER], map[], {7}, {}, [], false, Exited,
      [], false, [], true, [], {}, Signaled, [], {}, [])
  {
    run := StopSent();
    hide Possible, After;
    run := Extend(run, Fetch([], true));
    run := Extend(run, ReadPipe);
    run := Extend(run, HandleMessage);
    run := Extend(run, EndDrain);
  }

  lemma StopSent() returns (run: seq<Action>)
    ensures Possible(run) && After(run) == State({7}, map[7 := TIMER], map[], {7}, {}, [StopMark], false, Waiting,
      [], false, [], false, [], {}, Signaled, [], {}, [])
  {
    assert Possible([]) && After([]) == Init();
    hide Possible, After;
    run := Extend([], Start);
    run := Extend(run, AddTimer(7));
    run := Extend(run, StopSignal);
  }

  lemma Extend(run: seq<Action>, a: Action) returns (longer: seq<Action>)
    requires Possible(run) && Enabled(After(run), a)
    ensures longer == run + [a] && Possible(longer) && After(longer) == Apply(After(run), a)
  {
    longer := run + [a];
    assert longer[..|longer| - 1] == run;
  }
}
