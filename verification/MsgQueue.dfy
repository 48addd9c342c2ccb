/**
 The message queue of workflow/src/kernel/msgqueue.c: two linked lists, one that getters take from
 and one that putters add to, exchanged when the first runs dry.  The methods below are its
 critical sections; the second half runs them in every interleaving.
 */
module MsgQueue {
  import opened Wrappers

  // A message's link field, or one of the two list heads.
  class Link {
    var next: Link?

    constructor ()
      ensures next == null
    {
      next := null;
    }
  }

  // What the two lists hold: `get` comes first.
  datatype Lists<T> = Lists(get: seq<T>, put: seq<T>) {
    function Contents(): seq<T> {
      get + put
    }
  }

  function Appended<T>(q: Lists<T>, m: T): Lists<T> {
    q.(put := q.put + [m])
  }

  function Swapped<T>(q: Lists<T>): Lists<T> {
    Lists(q.put, [])
  }

  function Popped<T>(q: Lists<T>): Lists<T>
    requires q.get != []
  {
    q.(get := q.get[1..])
  }

  class Queue {
    const msgMax: nat
    const head1: Link
    const head2: Link
    var msgCnt: nat
    var nonblock: bool
    var getHead: Link
    var putHead: Link
    var putTail: Link
    ghost var lists: Lists<Link>

    // msgqueue_create
    constructor (maxlen: nat)
      ensures Valid() && lists == Lists([], []) && msgMax == maxlen && !nonblock
    {
      msgMax := maxlen;
      var h1 := new Link();
      var h2 := new Link();
      head1, head2 := h1, h2;
      getHead, putHead, putTail := h1, h2, h2;
      msgCnt, nonblock := 0, false;
      lists := Lists([], []);
    }

    static ghost function Before(head: Link, l: seq<Link>, i: int): Link
      requires 0 <= i <= |l|
    {
      if i == 0 then head else l[i - 1]
    }

    static ghost function After(l: seq<Link>, i: int): Link?
      requires 0 <= i <= |l|
    {
      if i < |l| then l[i] else null
    }

    // From `head` the links lead through `l` and end there.
    static ghost predicate Chain(head: Link, l: seq<Link>)
      reads head, l
    {
      head.next == After(l, 0) && forall i :: 0 <= i <= |l| ==> Before(head, l, i).next == After(l, i)
    }

    static ghost predicate Distinct(l: seq<Link>) {
      forall i, j :: 0 <= i < j < |l| ==> l[i] != l[j]
    }

    // The link belongs to no queued message and is no list head.
    ghost predicate Free(m: Link)
      reads this`lists
    {
      m != head1 && m != head2 && m !in lists.get && m !in lists.put
    }

    // No link is in two places.
    static ghost predicate Apart(h1: Link, h2: Link, get: seq<Link>, put: seq<Link>) {
      && h1 != h2 && Distinct(get) && Distinct(put)
      && (forall i :: 0 <= i < |get| ==> get[i] != h1 && get[i] != h2)
      && (forall i :: 0 <= i < |put| ==> put[i] != h1 && put[i] != h2)
      && (forall i, j :: 0 <= i < |get| && 0 <= j < |put| ==> get[i] != put[j])
    }

    ghost predicate Valid()
      reads this, getHead, putHead, lists.get, lists.put
    {
      && ((getHead == head1 && putHead == head2) || (getHead == head2 && putHead == head1))
      && Apart(head1, head2, lists.get, lists.put)
      && Chain(getHead, lists.get) && Chain(putHead, lists.put)
      && putTail == (if lists.put == [] then putHead else lists.put[|lists.put| - 1])
      && msgCnt == |lists.put|
    }

    // queue->msg_cnt > queue->msg_max - 1, on unsigned integers: a maximum of zero is no maximum.
    predicate Full()
      reads this`msgCnt
    {
      msgMax != 0 && msgCnt > msgMax - 1
    }

    predicate MustWait()
      reads this`msgCnt, this`nonblock
    {
      Full() && !nonblock
    }

    // msgqueue_put, once there is room
    method Put(msg: Link)
      requires Valid() && Free(msg) && !MustWait()
      modifies this`putTail, this`msgCnt, this`lists, msg, putTail
      ensures Valid() && lists == Appended(old(lists), msg)
    {
      ghost var l := lists.put;
      assert forall i :: 0 <= i < |l| ==> Before(putHead, l, i) != putTail;
      msg.next := null;
      putTail.next := msg;
      assert forall i :: 0 <= i <= |l| ==> Before(putHead, l + [msg], i) == Before(putHead, l, i);
      putTail := msg;
      msgCnt := msgCnt + 1;
      lists := Appended(lists, msg);
    }

    // msgqueue_put_head with the lock on the getters' list
    method PushGet(msg: Link)
      requires Valid() && Free(msg)
      modifies this`lists, msg, getHead
      ensures Valid() && lists == old(lists).(get := [msg] + old(lists.get))
    {
      msg.next := getHead.next;
      getHead.next := msg;
      ghost var l := lists.get;
      assert forall i :: 1 < i <= |l| + 1 ==> Before(getHead, [msg] + l, i) == Before(getHead, l, i - 1);
      lists := lists.(get := [msg] + lists.get);
    }

    // msgqueue_put_head on the putters' list, once there is room
    method PushPut(msg: Link)
      requires Valid() && Free(msg) && !MustWait()
      modifies this`putTail, this`msgCnt, this`lists, msg, putHead
      ensures Valid() && lists == old(lists).(put := [msg] + old(lists.put))
    {
      msg.next := putHead.next;
      if msg.next == null {
        putTail := msg;
      }
      putHead.next := msg;
      ghost var l := lists.put;
      assert forall i :: 1 < i <= |l| + 1 ==> Before(putHead, [msg] + l, i) == Before(putHead, l, i - 1);
      msgCnt := msgCnt + 1;
      lists := lists.(put := [msg] + lists.put);
    }

    // __msgqueue_swap, once there is something to get or the queue does not block
    method Swap() returns (cnt: nat)
      requires Valid() && lists.get == []
      modifies this`getHead, this`putHead, this`putTail, this`msgCnt, this`lists
      ensures Valid() && lists == Swapped(old(lists)) && cnt == |old(lists.put)|
    {
      var head := getHead;
      cnt := msgCnt;
      getHead := putHead;
      putHead := head;
      putTail := head;
      msgCnt := 0;
      lists := Swapped(lists);
    }

    // The rest of msgqueue_get
    method Pop() returns (msg: Link)
      requires Valid() && lists.get != []
      modifies this`lists, getHead
      ensures Valid() && msg == old(lists.get[0]) && lists == Popped(old(lists))
    {
      msg := getHead.next;
      ghost var l := lists.get;
      assert Before(getHead, l, 1) == msg;
      getHead.next := msg.next;
      assert forall i :: 0 < i <= |l| - 1 ==> Before(getHead, l[1..], i) == Before(getHead, l, i + 1);
      lists := Popped(lists);
    }

    // msgqueue_get by a caller who need not wait: null exactly when there is nothing.
    method Get() returns (msg: Link?)
      requires Valid() && (nonblock || lists.Contents() != [])
      modifies this`getHead, this`putHead, this`putTail, this`msgCnt, this`lists, getHead, putHead
      ensures Valid()
      ensures msg == null <==> old(lists.Contents()) == []
      ensures msg != null ==> old(lists.Contents()) == [msg] + lists.Contents()
      ensures msg == null ==> lists.Contents() == []
    {
      var some := getHead.next != null;
      if !some {
        var cnt := Swap();
        some := cnt > 0;
      }
      if some {
        msg := Pop();
      } else {
        msg := null;
      }
    }

    // msgqueue_put_head by a caller whom nobody disturbs, and who need not wait.
    method PutHead(msg: Link)
      requires Valid() && Free(msg) && (lists.get != [] || !MustWait())
      modifies this`putTail, this`msgCnt, this`lists, msg, getHead, putHead
      ensures Valid() && lists.Contents() == [msg] + old(lists.Contents())
    {
      if getHead.next != null {
        PushGet(msg);
      } else {
        PushPut(msg);
      }
    }
  }

  /* ---------- every interleaving ---------- */

  // What a thread is in the middle of.  From Checking to Prepending it holds the getters' lock, from
  // Looking to Inserting the putters' lock; `look` is the number of events when put_head found the
  // getters' list empty.
  datatype Pc =
    | Idle
    | Checking                // msgqueue_get looks at its list
    | Swapping                // and waits for the other one
    | Popping
    | Prepending(msg: int)    // msgqueue_put_head got the getters' lock, and let the putters' go
    | Looking(msg: int)       // msgqueue_put_head looks at the getters' list
    | Trying(msg: int)        // found something there, and tries to get its lock
    | Measuring(msg: int, look: nat, waited: bool)    // found nothing; is there room?
    | Inserting(msg: int, look: nat, waited: bool)    // there is
    | HeadWaiting(msg: int)                           // there is not

  // What the queue did, at the moment it did it.
  datatype Event =
    | Enqueued(msg: int)
    | Pushed(msg: int)
    | Late(msg: int, pos: nat)    // put_head on the putters' list, behind `pos` messages
    | Dequeued(msg: int)
    | Nothing                     // a get returned NULL

  datatype State = State(q: Lists<int>, max: nat, nonblock: bool, threads: seq<Pc>, events: seq<Event>)

  datatype Action =
    | Put(msg: int)
    | LockGet(thread: nat)
    | Check(thread: nat)
    | DoSwap(thread: nat)
    | DoPop(thread: nat)
    | StartHead(thread: nat, msg: int)
    | Look(thread: nat)
    | TryLock(thread: nat)
    | Prepend(thread: nat)
    | Measure(thread: nat)
    | Wake(thread: nat)
    | Insert(thread: nat)
    | SetNonblock(on: bool)

  predicate HoldsGet(pc: Pc) {
    pc.Checking? || pc.Swapping? || pc.Popping? || pc.Prepending?
  }

  predicate HoldsPut(pc: Pc) {
    pc.Looking? || pc.Trying? || pc.Measuring? || pc.Inserting?
  }

  predicate GetLocked(s: State) {
    exists t :: 0 <= t < |s.threads| && HoldsGet(s.threads[t])
  }

  predicate PutLocked(s: State) {
    exists t :: 0 <= t < |s.threads| && HoldsPut(s.threads[t])
  }

  predicate NoRoom(s: State) {
    s.max != 0 && |s.q.put| > s.max - 1 && !s.nonblock
  }

  predicate Enabled(s: State, a: Action) {
    match a
    case Put(_) => !PutLocked(s) && !NoRoom(s)
    case LockGet(t) => t < |s.threads| && s.threads[t] == Idle && !GetLocked(s)
    case Check(t) => t < |s.threads| && s.threads[t] == Checking
    case DoSwap(t) => t < |s.threads| && s.threads[t] == Swapping && !PutLocked(s) && (s.q.put != [] || s.nonblock)
    case DoPop(t) => t < |s.threads| && s.threads[t] == Popping && s.q.get != []
    case StartHead(t, _) => t < |s.threads| && s.threads[t] == Idle && !PutLocked(s)
    case Look(t) => t < |s.threads| && s.threads[t].Looking?
    case TryLock(t) => t < |s.threads| && s.threads[t].Trying?
    case Prepend(t) => t < |s.threads| && s.threads[t].Prepending?
    case Measure(t) => t < |s.threads| && s.threads[t].Measuring?
    case Wake(t) => t < |s.threads| && s.threads[t].HeadWaiting? && !PutLocked(s)
    case Insert(t) => t < |s.threads| && s.threads[t].Inserting?
    case SetNonblock(_) => true
  }

  function Goto(s: State, t: nat, pc: Pc): State
    requires t < |s.threads|
  {
    s.(threads := s.threads[t := pc])
  }

  function Did(s: State, e: Event): State {
    s.(events := s.events + [e])
  }

  // The look at the getters' list takes no account of its lock: between two steps of put_head, a
  // thread that has that lock can take the last message, or bring one.
  function Apply(s: State, a: Action): State
    requires Enabled(s, a)
  {
    match a
    case Put(m) => Did(s.(q := Appended(s.q, m)), Enqueued(m))
    case LockGet(t) => Goto(s, t, Checking)
    case Check(t) => Goto(s, t, if s.q.get != [] then Popping else Swapping)
    case DoSwap(t) =>
      var u := s.(q := Swapped(s.q));
      if s.q.put != [] then Goto(u, t, Popping) else Did(Goto(u, t, Idle), Nothing)
    case DoPop(t) => Did(Goto(s.(q := Popped(s.q)), t, Idle), Dequeued(s.q.get[0]))
    case StartHead(t, m) => Goto(s, t, Looking(m))
    case Look(t) =>
      var m := s.threads[t].msg;
      Goto(s, t, if s.q.get != [] then Trying(m) else Measuring(m, |s.events|, false))
    case TryLock(t) =>
      var m := s.threads[t].msg;
      Goto(s, t, if GetLocked(s) then Looking(m) else Prepending(m))
    case Prepend(t) =>
      var m := s.threads[t].msg;
      Did(Goto(s.(q := s.q.(get := [m] + s.q.get)), t, Idle), Pushed(m))
    case Measure(t) =>
      var pc := s.threads[t];
      Goto(s, t, if NoRoom(s) then HeadWaiting(pc.msg) else Inserting(pc.msg, pc.look, pc.waited))
    case Wake(t) => Goto(s, t, Measuring(s.threads[t].msg, 0, true))
    case Insert(t) =>
      var m := s.threads[t].msg;
      Did(Goto(s.(q := s.q.(put := [m] + s.q.put)), t, Idle), Late(m, |s.q.get|))
    case SetNonblock(on) => s.(nonblock := on)
  }

  ghost predicate Init(s: State) {
    s.q == Lists([], []) && !s.nonblock && s.events == [] && forall t :: 0 <= t < |s.threads| ==> s.threads[t] == Idle
  }

  // One thread at most holds each lock.
  ghost predicate Exclusive(threads: seq<Pc>) {
    && (forall t, u :: 0 <= t < u < |threads| ==> !(HoldsGet(threads[t]) && HoldsGet(threads[u])))
    && (forall t, u :: 0 <= t < u < |threads| ==> !(HoldsPut(threads[t]) && HoldsPut(threads[u])))
  }

  // What a getter saw of its list is still so.  Of put_head only this can be said: what it did not
  // find on the getters' list, others have put there since.
  ghost predicate Inv(s: State) {
    && Exclusive(s.threads)
    && (forall t :: 0 <= t < |s.threads| ==>
      && (s.threads[t].Popping? ==> s.q.get != [])
      && (s.threads[t].Swapping? ==> s.q.get == []))
  }

  // A step of thread `t` to `pc`, which takes a lock only if nobody has it.
  lemma ExclusiveStep(s: State, t: nat, pc: Pc)
    requires Exclusive(s.threads) && t < |s.threads|
    requires HoldsGet(pc) ==> HoldsGet(s.threads[t]) || !GetLocked(s)
    requires HoldsPut(pc) ==> HoldsPut(s.threads[t]) || !PutLocked(s)
    ensures Exclusive(s.threads[t := pc])
  {
  }

  lemma StepKeepsInv(s: State, a: Action)
    requires Inv(s) && Enabled(s, a)
    ensures Inv(Apply(s, a))
  {
    var u := Apply(s, a);
    if !a.Put? && !a.SetNonblock? {
      ExclusiveStep(s, a.thread, u.threads[a.thread]);
    }
    hide Exclusive;
    assert Exclusive(u.threads);
  }

  ghost predicate Leads(s: State, run: seq<Action>, u: State)
    decreases |run|
  {
    if run == [] then s == u else Enabled(s, run[0]) && Leads(Apply(s, run[0]), run[1..], u)
  }

  // What a single queue makes of an event; a message that is not the first cannot be dequeued, and
  // a queue that is not empty has something to give.
  function Next(q: seq<int>, e: Event): Option<seq<int>> {
    match e
    case Enqueued(m) => Some(q + [m])
    case Pushed(m) => Some([m] + q)
    case Late(m, k) => if k <= |q| then Some(q[..k] + [m] + q[k..]) else None
    case Dequeued(m) => if q != [] && q[0] == m then Some(q[1..]) else None
    case Nothing => if q == [] then Some(q) else None
  }

  function Replay(events: seq<Event>): Option<seq<int>> {
    if events == [] then Some([])
    else
      var before := Replay(events[..|events| - 1]);
      if before.None? then None else Next(before.value, events[|events| - 1])
  }

  lemma ReplayOn(events: seq<Event>, e: Event)
    requires Replay(events).Some?
    ensures Replay(events + [e]) == Next(Replay(events).value, e)
  {
    assert (events + [e])[..|events|] == events;
  }

  // Between two events the contents do not change, and every event is one queue's move.
  lemma StepIsMove(s: State, a: Action)
    requires Inv(s) && Enabled(s, a)
    ensures var u := Apply(s, a);
      || (u.events == s.events && u.q.Contents() == s.q.Contents())
      || (|u.events| == |s.events| + 1 && u.events == s.events + [u.events[|s.events|]]
          && Next(s.q.Contents(), u.events[|s.events|]) == Some(u.q.Contents()))
  {
    var u := Apply(s, a);
    var before, after := s.q.Contents(), u.q.Contents();
    match a {
      case Put(m) => assert after == before + [m];
      case DoSwap(t) => assert before == after;
      case DoPop(t) => assert before[1..] == after;
      case Prepend(t) => assert after == [s.threads[t].msg] + before;
      case Insert(t) =>
        assert before[..|s.q.get|] == s.q.get && before[|s.q.get|..] == s.q.put;
        assert after == s.q.get + [s.threads[t].msg] + s.q.put;
      case _ =>
    }
  }

  lemma StepIsLegal(s: State, a: Action)
    requires Inv(s) && Enabled(s, a) && Replay(s.events) == Some(s.q.Contents())
    ensures Replay(Apply(s, a).events) == Some(Apply(s, a).q.Contents())
  {
    var u := Apply(s, a);
    StepIsMove(s, a);
    hide Apply, Next;
    if u.events != s.events {
      ReplayOn(s.events, u.events[|s.events|]);
    }
  }

  // In every interleaving the queue behaves like a single one, on which puts append, gets take the
  // first message, and find none only when it is empty.
  lemma {:induction false} RefinesOneQueue(s: State, run: seq<Action>, u: State)
    requires Inv(s) && Replay(s.events) == Some(s.q.Contents()) && Leads(s, run, u)
    ensures Inv(u) && Replay(u.events) == Some(u.q.Contents())
    decreases |run|
  {
    if run != [] {
      StepKeepsInv(s, run[0]);
      StepIsLegal(s, run[0]);
      RefinesOneQueue(Apply(s, run[0]), run[1..], u);
    }
  }

  ghost predicate Reached(s0: State, run: seq<Action>, s: State) {
    Init(s0) && Leads(s0, run, s)
  }

  lemma EveryRunRefines(s0: State, run: seq<Action>, s: State)
    requires Reached(s0, run, s)
    ensures Inv(s) && Replay(s.events) == Some(s.q.Contents())
  {
    assert s0.q.Contents() == [];
    RefinesOneQueue(s0, run, s);
  }

  function In(events: seq<Event>): (r: seq<int>) {
    if events == [] then []
    else
      var e, r := events[|events| - 1], In(events[..|events| - 1]);
      if e.Enqueued? || e.Pushed? || e.Late? then r + [e.msg] else r
  }

  function Out(events: seq<Event>): (r: seq<int>) {
    if events == [] then []
    else
      var e, r := events[|events| - 1], Out(events[..|events| - 1]);
      if e.Dequeued? then r + [e.msg] else r
  }

  ghost predicate Plain(events: seq<Event>) {
    forall i :: 0 <= i < |events| ==> !events[i].Pushed? && !events[i].Late?
  }

  lemma NextConserves(p: seq<int>, e: Event, q: seq<int>)
    requires Next(p, e) == Some(q)
    ensures multiset(q) == (if e.Enqueued? || e.Pushed? || e.Late? then multiset(p) + multiset{e.msg}
      else if e.Dequeued? then multiset(p) - multiset{e.msg} else multiset(p))
    ensures e.Dequeued? ==> p == [e.msg] + q
  {
    match e
    case Enqueued(m) =>
    case Pushed(m) =>
    case Late(m, k) => assert p == p[..k] + p[k..];
    case Dequeued(m) => assert p == [m] + q;
    case Nothing =>
  }

  lemma {:induction false} ReplayConserves(events: seq<Event>, q: seq<int>)
    requires Replay(events) == Some(q)
    ensures multiset(In(events)) == multiset(Out(events)) + multiset(q)
  {
    if events != [] {
      var rest, e := events[..|events| - 1], events[|events| - 1];
      var p := Replay(rest).value;
      ReplayConserves(rest, p);
      NextConserves(p, e, q);
      hide Next;
    }
  }

  lemma {:induction false} ReplayInOrder(events: seq<Event>, q: seq<int>)
    requires Replay(events) == Some(q) && Plain(events)
    ensures In(events) == Out(events) + q
  {
    if events != [] {
      var rest, e := events[..|events| - 1], events[|events| - 1];
      var p := Replay(rest).value;
      ReplayInOrder(rest, p);
      NextConserves(p, e, q);
    }
  }

  // Nothing is lost and nothing duplicated; and without put_head, messages come out in the order
  // in which they went in.
  lemma NothingLost(s0: State, run: seq<Action>, s: State)
    requires Reached(s0, run, s)
    ensures multiset(In(s.events)) == multiset(Out(s.events)) + multiset(s.q.Contents())
    ensures Plain(s.events) ==> In(s.events) == Out(s.events) + s.q.Contents()
  {
    EveryRunRefines(s0, run, s);
    ReplayConserves(s.events, s.q.Contents());
    if Plain(s.events) { ReplayInOrder(s.events, s.q.Contents()); }
  }

  // put_head through the getters' list puts its message first.  Through the putters' list it puts
  // it behind the getters' list, and so first exactly when that is empty at that moment.
  lemma HeadGoesFirst(s0: State, run: seq<Action>, s: State, a: Action)
    requires Reached(s0, run, s) && Enabled(s, a) && (a.Prepend? || a.Insert?)
    ensures var u, m := Apply(s, a), s.threads[a.thread].msg;
      && (a.Prepend? ==> u.q.Contents() == [m] + s.q.Contents())
      && (a.Insert? ==> u.q.Contents() == s.q.get + [m] + s.q.put)
      && (a.Insert? && m !in s.q.Contents() ==> (u.q.Contents() == [m] + s.q.Contents() <==> s.q.get == []))
  {
    var u, m := Apply(s, a), s.threads[a.thread].msg;
    if a.Insert? && s.q.get != [] {
      assert u.q.Contents()[0] == s.q.get[0] && s.q.get[0] in s.q.Contents();
    }
  }

  // What would have happened if put_head, at its look, had put its message before everything.
  ghost function Earlier(events: seq<Event>, look: nat, m: int): Option<seq<int>>
    requires look <= |events|
  {
    Replay(events[..look] + [Pushed(m)] + events[look..])
  }

  predicate Early(pc: Pc) {
    (pc.Measuring? || pc.Inserting?) && !pc.waited
  }

  // As long as put_head has not waited, its message could have been first all the time since its
  // look: only the getters' list has changed, at its front.
  ghost predicate InTime(s: State) {
    forall t :: 0 <= t < |s.threads| && Early(s.threads[t]) ==>
      && s.threads[t].look <= |s.events|
      && Earlier(s.events, s.threads[t].look, s.threads[t].msg) == Some(s.q.get + [s.threads[t].msg] + s.q.put)
  }

  lemma EarlierOn(events: seq<Event>, look: nat, m: int, e: Event)
    requires look <= |events| && Earlier(events, look, m).Some?
    ensures Earlier(events + [e], look, m) == Next(Earlier(events, look, m).value, e)
  {
    assert events[..look] + [Pushed(m)] + (events + [e])[look..] ==
      (events[..look] + [Pushed(m)] + events[look..]) + [e];
    assert (events + [e])[..look] == events[..look];
    ReplayOn(events[..look] + [Pushed(m)] + events[look..], e);
  }

  lemma LookInTime(events: seq<Event>, m: int, put: seq<int>)
    requires Replay(events) == Some(put)
    ensures Earlier(events, |events|, m) == Some([] + [m] + put)
  {
    assert events[..|events|] + [Pushed(m)] + events[|events|..] == events + [Pushed(m)];
    assert [] + [m] + put == [m] + put;
    ReplayOn(events, Pushed(m));
  }

  predicate InFront(get: seq<int>, e: Event, get1: seq<int>) {
    (e.Pushed? && get1 == [e.msg] + get) || (e.Dequeued? && get == [e.msg] + get1)
  }

  lemma MoveInTime(events: seq<Event>, look: nat, m: int, e: Event, get: seq<int>, put: seq<int>, get1: seq<int>)
    requires look <= |events| && Earlier(events, look, m) == Some(get + [m] + put)
    requires InFront(get, e, get1)
    ensures Earlier(events + [e], look, m) == Some(get1 + [m] + put)
  {
    EarlierOn(events, look, m, e);
    var before := get + [m] + put;
    if e.Pushed? {
      assert [e.msg] + before == get1 + [m] + put;
    } else {
      assert before[0] == e.msg && before[1..] == get1 + [m] + put;
    }
  }

  // While a thread has the putters' lock, only the first messages come and go.
  lemma MovesInFront(s: State, a: Action)
    requires Inv(s) && Enabled(s, a) && PutLocked(s)
    ensures var u := Apply(s, a);
      a.Insert? || (u.q == s.q && u.events == s.events)
      || (u.q.put == s.q.put && exists e :: u.events == s.events + [e] && InFront(s.q.get, e, u.q.get))
  {
    var u := Apply(s, a);
    if a.Prepend? {
      assert u.events == s.events + [Pushed(s.threads[a.thread].msg)];
    } else if a.DoPop? {
      assert u.events == s.events + [Dequeued(s.q.get[0])];
    }
  }

  lemma StepInTime(s: State, a: Action)
    requires Inv(s) && InTime(s) && Enabled(s, a) && Replay(s.events) == Some(s.q.Contents())
    ensures InTime(Apply(s, a))
  {
    var u := Apply(s, a);
    forall t | 0 <= t < |u.threads| && Early(u.threads[t])
      ensures u.threads[t].look <= |u.events|
      ensures Earlier(u.events, u.threads[t].look, u.threads[t].msg) == Some(u.q.get + [u.threads[t].msg] + u.q.put)
    {
      if a == Look(t) {
        assert [] + s.q.put == s.q.put;
        LookInTime(s.events, u.threads[t].msg, s.q.put);
      } else {
        StaysInTime(s, a, t);
      }
    }
  }

  lemma SameThread(s: State, a: Action, t: int)
    requires Inv(s) && Enabled(s, a) && 0 <= t < |s.threads| && a != Look(t) && Early(Apply(s, a).threads[t])
    ensures Early(s.threads[t]) && PutLocked(s) && !a.Insert?
    ensures Apply(s, a).threads[t].look == s.threads[t].look && Apply(s, a).threads[t].msg == s.threads[t].msg
  {
    assert HoldsPut(s.threads[t]);
  }

  lemma StaysInTime(s: State, a: Action, t: int)
    requires Inv(s) && InTime(s) && Enabled(s, a)
    requires 0 <= t < |s.threads| && a != Look(t) && Early(Apply(s, a).threads[t])
    ensures var u := Apply(s, a);
      && u.threads[t].look <= |u.events|
      && Earlier(u.events, u.threads[t].look, u.threads[t].msg) == Some(u.q.get + [u.threads[t].msg] + u.q.put)
  {
    SameThread(s, a, t);
    MovesInFront(s, a);
    var u, pc := Apply(s, a), s.threads[t];
    hide Inv, Apply, Enabled, Earlier, PutLocked;
    if u.events != s.events {
      var e :| u.events == s.events + [e] && InFront(s.q.get, e, u.q.get);
      MoveInTime(s.events, pc.look, pc.msg, e, s.q.get, s.q.put, u.q.get);
    }
  }

  lemma {:induction false} RunInTime(s: State, run: seq<Action>, u: State)
    requires Inv(s) && InTime(s) && Replay(s.events) == Some(s.q.Contents()) && Leads(s, run, u)
    ensures InTime(u)
    decreases |run|
  {
    if run != [] {
      StepKeepsInv(s, run[0]);
      StepIsLegal(s, run[0]);
      StepInTime(s, run[0]);
      RunInTime(Apply(s, run[0]), run[1..], u);
    }
  }

  // A put_head that has not waited may go behind messages that others put first in the meantime;
  // but then it did prepend, a little earlier: with its message put first at its look, everything
  // since has the same effect, and leads to the same contents.
  lemma UnwaitedHeadPrepends(s0: State, run: seq<Action>, s: State, a: Action)
    requires Reached(s0, run, s) && Enabled(s, a) && a.Insert? && !s.threads[a.thread].waited
    ensures var pc := s.threads[a.thread];
      pc.look <= |s.events| && Earlier(s.events, pc.look, pc.msg) == Some(Apply(s, a).q.Contents())
  {
    assert s0.q.Contents() == [];
    RunInTime(s0, run, s);
    assert s.q.get + [s.threads[a.thread].msg] + s.q.put == Apply(s, a).q.Contents();
  }

  // Nobody but thread `t` calls put_head.
  ghost predicate OnlyHead(run: seq<Action>, t: nat) {
    forall i :: 0 <= i < |run| && run[i].StartHead? ==> run[i].thread == t
  }

  ghost predicate Undisturbed(s: State, t: nat) {
    && (forall k :: 0 <= k < |s.threads| && k != t ==>
      var pc := s.threads[k];
      pc.Idle? || pc.Checking? || pc.Swapping? || pc.Popping?)
    && (t < |s.threads| && Early(s.threads[t]) ==> s.q.get == [])
  }

  lemma {:induction false} RunUndisturbed(s: State, run: seq<Action>, u: State, t: nat)
    requires Undisturbed(s, t) && OnlyHead(run, t) && Leads(s, run, u)
    ensures Undisturbed(u, t)
    decreases |run|
  {
    if run != [] {
      UndisturbedStep(s, run[0], t);
      assert OnlyHead(run[1..], t);
      RunUndisturbed(Apply(s, run[0]), run[1..], u, t);
    }
  }

  lemma UndisturbedStep(s: State, a: Action, t: nat)
    requires Undisturbed(s, t) && Enabled(s, a) && (a.StartHead? ==> a.thread == t)
    ensures Undisturbed(Apply(s, a), t)
  {
    assert t < |s.threads| && HoldsPut(s.threads[t]) ==> PutLocked(s);
  }

  // So a caller of put_head who is the only one, and need not wait, goes first.
  lemma OnlyHeadGoesFirst(s0: State, run: seq<Action>, s: State, a: Action)
    requires Reached(s0, run, s) && Enabled(s, a) && a.Insert? && !s.threads[a.thread].waited
    requires OnlyHead(run, a.thread)
    ensures Apply(s, a).q.Contents() == [s.threads[a.thread].msg] + s.q.Contents()
  {
    RunUndisturbed(s0, run, s, a.thread);
  }

  // One message on the getters' list.
  lemma OneToGet() returns (s0: State, run: seq<Action>, s: State)
    ensures Reached(s0, run, s)
    ensures s == State(Lists([6], []), 0, false, [Idle, Idle, Idle], [Enqueued(5), Enqueued(6), Dequeued(5)])
  {
    s0 := State(Lists([], []), 0, false, [Idle, Idle, Idle], []);
    run, s := [], s0;
    assert Leads(s0, run, s);
    hide Leads;
    run, s := Follow(s0, run, s, Put(5));
    run, s := Follow(s0, run, s, Put(6));
    run, s := Follow(s0, run, s, LockGet(2));
    run, s := Follow(s0, run, s, Check(2));
    run, s := Follow(s0, run, s, DoSwap(2));
    run, s := Follow(s0, run, s, DoPop(2));
  }

  // put_head sees it, a getter takes it, and the lock that put_head then gets is that of an empty list.
  lemma LockOfEmptyList() returns (s0: State, run: seq<Action>, s: State)
    ensures Reached(s0, run, s)
    ensures s.q == Lists([], []) && s.max == 0 && s.threads == [Prepending(1), Idle, Idle] && |s.events| == 4
  {
    s0, run, s := OneToGet();
    hide Leads;
    run, s := Follow(s0, run, s, StartHead(0, 1));
    run, s := Follow(s0, run, s, Look(0));
    run, s := Follow(s0, run, s, LockGet(2));
    run, s := Follow(s0, run, s, Check(2));
    run, s := Follow(s0, run, s, DoPop(2));
    assert s.threads == [Trying(1), Idle, Idle];
    run, s := Follow(s0, run, s, TryLock(0));
  }

  // So a put_head can go behind another one without having waited.
  lemma HeadBehindHead() returns (s0: State, run: seq<Action>, s: State, a: Action)
    ensures Reached(s0, run, s) && Enabled(s, a) && a.Insert? && !s.threads[a.thread].waited
    ensures s.q.Contents() == [1] && Apply(s, a).q.Contents() == [1, 2]
  {
    s0, run, s := LockOfEmptyList();
    hide Leads;
    run, s := Follow(s0, run, s, StartHead(1, 2));
    run, s := Follow(s0, run, s, Look(1));
    assert s.threads == [Prepending(1), Measuring(2, 4, false), Idle];
    run, s := Follow(s0, run, s, Prepend(0));
    assert s.q == Lists([1], []) && s.threads == [Idle, Measuring(2, 4, false), Idle] && s.max == 0;
    run, s := Follow(s0, run, s, Measure(1));
    a := Insert(1);
  }

  // A put_head that found the queue full, behind two messages.
  lemma HeadComesLate() returns (s0: State, run: seq<Action>, s: State)
    ensures Reached(s0, run, s) && StartHead(1, 9) in run
    ensures s == State(Lists([], [1, 2]), 2, false, [Idle, HeadWaiting(9)], [Enqueued(1), Enqueued(2)])
  {
    s0 := State(Lists([], []), 2, false, [Idle, Idle], []);
    run, s := [], s0;
    assert Leads(s0, run, s);
    hide Leads;
    run, s := Follow(s0, run, s, Put(1));
    run, s := Follow(s0, run, s, Put(2));
    run, s := Follow(s0, run, s, StartHead(1, 9));
    run, s := Follow(s0, run, s, Look(1));
    assert s.threads == [Idle, Measuring(9, 2, false)];
    run, s := Follow(s0, run, s, Measure(1));
  }

  // While it waits, a getter takes both to the other list, and the first one out.
  lemma HeadStillWaits() returns (s0: State, run: seq<Action>, s: State)
    ensures Reached(s0, run, s) && StartHead(1, 9) in run
    ensures s.q == Lists([2], []) && s.max == 2 && s.threads == [Idle, HeadWaiting(9)]
  {
    s0, run, s := HeadComesLate();
    hide Leads;
    run, s := Follow(s0, run, s, LockGet(0));
    run, s := Follow(s0, run, s, Check(0));
    assert s.threads == [Swapping, HeadWaiting(9)];
    run, s := Follow(s0, run, s, DoSwap(0));
    run, s := Follow(s0, run, s, DoPop(0));
  }

  // The message of a put_head that waited can come out after one that was there before it.
  lemma LateHeadIsOvertaken() returns (s0: State, run: seq<Action>, s: State)
    ensures Reached(s0, run, s) && StartHead(1, 9) in run
    ensures s.threads == [Idle, Idle] && s.q.Contents() == [2, 9]
  {
    s0, run, s := HeadStillWaits();
    hide Leads;
    run, s := Follow(s0, run, s, Wake(1));
    assert s.q == Lists([2], []) && s.max == 2 && s.threads == [Idle, Measuring(9, 0, true)];
    run, s := Follow(s0, run, s, Measure(1));
    assert s.q == Lists([2], []) && s.threads == [Idle, Inserting(9, 0, true)];
    run, s := Follow(s0, run, s, Insert(1));
  }

  lemma {:induction false} LeadsOn(s: State, run: seq<Action>, u: State, a: Action)
    requires Leads(s, run, u) && Enabled(u, a)
    ensures Leads(s, run + [a], Apply(u, a))
    decreases |run|
  {
    if run == [] {
      assert Leads(Apply(u, a), [], Apply(u, a));
    } else {
      LeadsOn(Apply(s, run[0]), run[1..], u, a);
      assert (run + [a])[1..] == run[1..] + [a];
    }
  }

  lemma Follow(s0: State, run: seq<Action>, s: State, a: Action) returns (run1: seq<Action>, s1: State)
    requires Leads(s0, run, s) && Enabled(s, a)
    ensures run1 == run + [a] && s1 == Apply(s, a) && Leads(s0, run1, s1)
  {
    run1, s1 := run + [a], Apply(s, a);
    LeadsOn(s0, run, s, a);
  }

  ghost predicate WithoutHead(run: seq<Action>) {
    forall i :: 0 <= i < |run| ==> !run[i].StartHead? && run[i] != SetNonblock(true)
  }

  lemma {:induction false} Bounded(s: State, run: seq<Action>, u: State)
    requires s.max > 0 && !s.nonblock && |s.q.get| <= s.max && |s.q.put| <= s.max
    requires forall t :: 0 <= t < |s.threads| ==>
      var pc := s.threads[t];
      pc.Idle? || pc.Checking? || pc.Swapping? || pc.Popping?
    requires WithoutHead(run) && Leads(s, run, u)
    ensures |u.q.get| <= s.max && |u.q.put| <= s.max
    decreases |run|
  {
    if run != [] {
      Bounded(Apply(s, run[0]), run[1..], u);
    }
  }

  // While it blocks, and nobody calls put_head, the queue holds at most twice `maxlen` messages.
  lemma AtMostTwiceMaxlen(s0: State, run: seq<Action>, s: State)
    requires Reached(s0, run, s) && s0.max > 0 && WithoutHead(run)
    ensures |s.q.Contents()| <= 2 * s0.max
  {
    Bounded(s0, run, s);
  }

  // And it can hold that many: a getter has taken over a full list, and putters fill the other.
  lemma TwiceMaxlenIsReached() returns (s0: State, run: seq<Action>, s: State)
    ensures Reached(s0, run, s) && s0.max == 2 && WithoutHead(run) && |s.q.Contents()| == 4
  {
    s0, run, s := TakenOver();
    hide Leads;
    run, s := Follow(s0, run, s, Put(3));
    assert s.q == Lists([1, 2], [3]) && s.max == 2 && !s.nonblock && s.threads == [Popping];
    run, s := Follow(s0, run, s, Put(4));
  }

  lemma TakenOver() returns (s0: State, run: seq<Action>, s: State)
    ensures Reached(s0, run, s) && s0.max == 2 && WithoutHead(run)
    ensures s.q == Lists([1, 2], []) && s.max == 2 && !s.nonblock && s.threads == [Popping]
  {
    s0 := State(Lists([], []), 2, false, [Idle], []);
    run, s := [], s0;
    assert Leads(s0, run, s);
    hide Leads;
    run, s := Follow(s0, run, s, Put(1));
    run, s := Follow(s0, run, s, Put(2));
    run, s := Follow(s0, run, s, LockGet(0));
    run, s := Follow(s0, run, s, Check(0));
    assert s.q == Lists([], [1, 2]) && s.threads == [Swapping];
    run, s := Follow(s0, run, s, DoSwap(0));
  }

  /* ---------- what callers see ---------- */

  // The messages of the calls of put in a run, and of the puts the queue performed.
  function PutsOf(run: seq<Action>): seq<int> {
    if run == [] then [] else (if run[0].Put? then [run[0].msg] else []) + PutsOf(run[1..])
  }

  function EnqueuedOf(events: seq<Event>): seq<int> {
    if events == [] then []
    else
      var e, r := events[|events| - 1], EnqueuedOf(events[..|events| - 1]);
      if e.Enqueued? then r + [e.msg] else r
  }

  // How many messages getters took out.
  function PopsOf(run: seq<Action>): nat {
    if run == [] then 0 else (if run[0].DoPop? then 1 else 0) + PopsOf(run[1..])
  }

  function One(b: bool): nat { if b then 1 else 0 }

  // How often a message was handed to put_head, how often put_head put it, and how often it is still
  // carried by a thread.
  function HeadsOf(run: seq<Action>, m: int): nat {
    if run == [] then 0 else One(run[0].StartHead? && run[0].msg == m) + HeadsOf(run[1..], m)
  }

  function HeadsIn(events: seq<Event>, m: int): nat {
    if events == [] then 0
    else
      var e, r := events[|events| - 1], HeadsIn(events[..|events| - 1], m);
      r + One((e.Pushed? || e.Late?) && e.msg == m)
  }

  predicate Carries(pc: Pc, m: int) {
    !pc.Idle? && !pc.Checking? && !pc.Swapping? && !pc.Popping? && pc.msg == m
  }

  function Carried(threads: seq<Pc>, m: int): nat {
    if threads == [] then 0 else One(Carries(threads[0], m)) + Carried(threads[1..], m)
  }

  lemma {:induction false} CarriedStep(threads: seq<Pc>, t: nat, pc: Pc, m: int)
    requires t < |threads|
    ensures Carried(threads[t := pc], m) == Carried(threads, m) - One(Carries(threads[t], m)) + One(Carries(pc, m))
  {
    if t == 0 {
      assert threads[0 := pc][1..] == threads[1..];
    } else {
      assert threads[t := pc][1..] == threads[1..][t - 1 := pc];
      CarriedStep(threads[1..], t - 1, pc, m);
    }
  }

  lemma {:induction false} NothingCarried(threads: seq<Pc>, m: int)
    requires forall t :: 0 <= t < |threads| ==> threads[t] == Idle
    ensures Carried(threads, m) == 0
  {
    if threads != [] { NothingCarried(threads[1..], m); }
  }

  lemma OneEvent(events: seq<Event>, e: Event, m: int)
    ensures EnqueuedOf(events + [e]) == EnqueuedOf(events) + (if e.Enqueued? then [e.msg] else [])
    ensures HeadsIn(events + [e], m) == HeadsIn(events, m) + One((e.Pushed? || e.Late?) && e.msg == m)
    ensures |Out(events + [e])| == |Out(events)| + One(e.Dequeued?)
  {
    assert (events + [e])[..|events|] == events;
  }

  // The event that belongs to a step, if any.
  lemma StepEvent(s: State, a: Action)
    requires Enabled(s, a)
    ensures var u := Apply(s, a);
      match a
      case Put(m) => u.events == s.events + [Enqueued(m)] && u.threads == s.threads
      case DoPop(t) => u.events == s.events + [Dequeued(s.q.get[0])]
      case Prepend(t) => u.events == s.events + [Pushed(s.threads[t].msg)]
      case Insert(t) => u.events == s.events + [Late(s.threads[t].msg, |s.q.get|)]
      case DoSwap(t) => u.events == s.events || u.events == s.events + [Nothing]
      case _ => u.events == s.events
  {
  }

  // Each call shows in what the queue does.
  lemma StepShows(s: State, a: Action, m: int)
    requires Enabled(s, a)
    ensures var u := Apply(s, a);
      && EnqueuedOf(u.events) == EnqueuedOf(s.events) + (if a.Put? then [a.msg] else [])
      && |Out(u.events)| == |Out(s.events)| + One(a.DoPop?)
      && HeadsIn(u.events, m) + Carried(u.threads, m)
        == HeadsIn(s.events, m) + Carried(s.threads, m) + One(a.StartHead? && a.msg == m)
  {
    var u := Apply(s, a);
    StepEvent(s, a);
    if u.events != s.events { OneEvent(s.events, u.events[|s.events|], m); }
    if !a.Put? && !a.SetNonblock? { CarriedStep(s.threads, a.thread, u.threads[a.thread], m); }
    hide EnqueuedOf, HeadsIn, Out, Carried;
  }

  lemma {:induction false} RunShows(s: State, run: seq<Action>, u: State, m: int)
    requires Leads(s, run, u)
    ensures EnqueuedOf(u.events) == EnqueuedOf(s.events) + PutsOf(run)
    ensures |Out(u.events)| == |Out(s.events)| + PopsOf(run)
    ensures HeadsIn(u.events, m) + Carried(u.threads, m)
      == HeadsIn(s.events, m) + Carried(s.threads, m) + HeadsOf(run, m)
    decreases |run|
  {
    if run != [] {
      var t := Apply(s, run[0]);
      StepShows(s, run[0], m);
      RunShows(t, run[1..], u, m);
      hide Apply, Enabled, EnqueuedOf, HeadsIn, Out, Carried;
      assert PutsOf(run) == (if run[0].Put? then [run[0].msg] else []) + PutsOf(run[1..]);
    }
  }

  // Every call counts: what was put has been enqueued, in the order of the calls; what put_head was
  // called with has been put or is still carried; and every get that found a message took one out.
  lemma CallsArrive(s0: State, run: seq<Action>, s: State, m: int)
    requires Reached(s0, run, s)
    ensures EnqueuedOf(s.events) == PutsOf(run) && |Out(s.events)| == PopsOf(run)
    ensures HeadsIn(s.events, m) + Carried(s.threads, m) == HeadsOf(run, m)
  {
    NothingCarried(s0.threads, m);
    RunShows(s0, run, s, m);
  }

  // So each message is in the queue as often as it was put, less the times it was taken out and the
  // times a put_head still carries it.
  lemma ContentsAreCalls(s0: State, run: seq<Action>, s: State, m: int)
    requires Reached(s0, run, s)
    ensures multiset(s.q.Contents())[m] + multiset(Out(s.events))[m] + Carried(s.threads, m)
      == multiset(PutsOf(run))[m] + HeadsOf(run, m)
  {
    CallsArrive(s0, run, s, m);
    NothingLost(s0, run, s);
    InIsBoth(s.events, m);
    hide Out, In, EnqueuedOf, HeadsIn, Carried, PutsOf, HeadsOf, PopsOf;
  }

  lemma {:induction false} InIsBoth(events: seq<Event>, m: int)
    ensures multiset(In(events))[m] == multiset(EnqueuedOf(events))[m] + HeadsIn(events, m)
  {
    if events != [] { InIsBoth(events[..|events| - 1], m); }
  }

  // Without blocking, nobody waits for another call: a thread that has begun, or the one whose lock
  // it needs, can go on.
  lemma NobodyBlocks(s0: State, run: seq<Action>, s: State, t: nat) returns (a: Action)
    requires Reached(s0, run, s) && s.nonblock && t < |s.threads| && s.threads[t] != Idle
    ensures Enabled(s, a) && !a.Put? && !a.SetNonblock? && !a.LockGet? && !a.StartHead?
  {
    EveryRunRefines(s0, run, s);
    var u := t;
    if PutLocked(s) {
      u :| 0 <= u < |s.threads| && HoldsPut(s.threads[u]);
    }
    match s.threads[u]
    case Checking => a := Check(u);
    case Swapping => a := DoSwap(u);
    case Popping => a := DoPop(u);
    case Prepending(_) => a := Prepend(u);
    case Looking(_) => a := Look(u);
    case Trying(_) => a := TryLock(u);
    case Measuring(_, _, _) => a := Measure(u);
    case Inserting(_, _, _) => a := Insert(u);
    case HeadWaiting(_) => a := Wake(u);
  }
}
