/**
 The selector task (WFSelectorTask in workflow/src/factory/WFTask.h): several candidates submit,
 the first message wins, and the last one to leave deletes the task.  There is no lock; a step
 below is one atomic operation of one thread.
 */
module SelectorTask {

  const NULL: int := 0

  // Where a thread is in `submit`, or, from Exchanging on, in `dispatch`.
  datatype Pc =
    | Submitting      // message.compare_exchange_strong
    | Exchanging      // flag.exchange(true)
    | Notifying       // the flag was set already: subtask_done comes next
    | InDone          // in subtask_done, with the callback
    | Leaving         // --nleft
    | Checking        // it was the last one: is there a message?
    | Complaining     // there is not: subtask_done with ENOMSG comes next
    | InComplaint
    | Deleting
    | Ended

  datatype Thread = Thread(dispatcher: bool, input: int, pc: Pc, ret: int)

  datatype Submission = Submission(thread: int, message: int)

  // What a callback is told.
  datatype Outcome = Success(message: int) | NoMessage

  datatype State = State(
    message: int,
    flag: bool,
    nleft: int,
    threads: seq<Thread>,
    calls: seq<Outcome>,     // the calls of subtask_done so far
    deletes: nat,            // how often the task was deleted
    order: seq<Submission>   // what was submitted, in the order of the compare-and-exchanges
  )

  // A task for n candidates, the n calls of submit and the one of dispatch.
  ghost predicate Init(s: State) {
    && |s.threads| > 0 && s.nleft == |s.threads| && s.message == NULL && !s.flag
    && s.calls == [] && s.deletes == 0 && s.order == []
    && forall i :: 0 <= i < |s.threads| ==>
      s.threads[i] == Thread(i == 0, s.threads[i].input, if i == 0 then Exchanging else Submitting, 0)
  }

  predicate Enabled(s: State, i: int) {
    0 <= i < |s.threads| && s.threads[i].pc != Ended
  }

  function Goto(s: State, i: int, pc: Pc): State
    requires 0 <= i < |s.threads|
  {
    s.(threads := s.threads[i := s.threads[i].(pc := pc)])
  }

  function Step(s: State, i: int): State
    requires Enabled(s, i)
  {
    var t := s.threads[i];
    match t.pc
    case Submitting =>
      var u := s.(order := s.order + [Submission(i, t.input)]);
      if s.message == NULL && t.input != NULL
      then u.(message := t.input, threads := s.threads[i := t.(pc := Exchanging, ret := 1)])
      else Goto(u, i, Leaving)
    case Exchanging => Goto(s.(flag := true), i, if s.flag then Notifying else Leaving)
    case Notifying => Goto(s.(calls := s.calls + [Success(s.message)]), i, InDone)
    case InDone => Goto(s, i, Leaving)
    case Leaving => Goto(s.(nleft := s.nleft - 1), i, if s.nleft == 1 then Checking else Ended)
    case Checking => Goto(s, i, if s.message == NULL then Complaining else Deleting)
    case Complaining => Goto(s.(calls := s.calls + [NoMessage]), i, InComplaint)
    case InComplaint => Goto(s, i, Deleting)
    case Deleting => Goto(s.(deletes := s.deletes + 1), i, Ended)
    case Ended => s
  }

  /* ---------- counting threads ---------- */

  ghost function Count(p: Thread -> bool, l: seq<Thread>): nat {
    if l == [] then 0 else (if p(l[0]) then 1 else 0) + Count(p, l[1..])
  }

  lemma {:induction false} CountAt(p: Thread -> bool, l: seq<Thread>, i: int, t: Thread)
    requires 0 <= i < |l|
    ensures Count(p, l[i := t]) == Count(p, l) - (if p(l[i]) then 1 else 0) + (if p(t) then 1 else 0)
  {
    if i > 0 {
      CountAt(p, l[1..], i - 1, t);
      assert l[i := t][1..] == l[1..][i - 1 := t];
    } else {
      assert l[0 := t][1..] == l[1..];
    }
  }

  lemma {:induction false} CountSome(p: Thread -> bool, l: seq<Thread>, i: int)
    requires 0 <= i < |l| && p(l[i])
    ensures Count(p, l) > 0
  {
    if i > 0 { CountSome(p, l[1..], i - 1); }
  }

  lemma {:induction false} CountTwo(p: Thread -> bool, l: seq<Thread>, i: int, j: int)
    requires 0 <= i < j < |l| && p(l[i]) && p(l[j])
    ensures Count(p, l) > 1
  {
    if i > 0 { CountTwo(p, l[1..], i - 1, j - 1); } else { CountSome(p, l[1..], j - 1); }
  }

  lemma {:induction false} CountNone(p: Thread -> bool, l: seq<Thread>)
    requires forall i :: 0 <= i < |l| ==> !p(l[i])
    ensures Count(p, l) == 0
  {
    if l != [] { CountNone(p, l[1..]); }
  }

  lemma {:induction false} CountAll(p: Thread -> bool, l: seq<Thread>)
    requires forall i :: 0 <= i < |l| ==> p(l[i])
    ensures Count(p, l) == |l|
  {
    if l != [] { CountAll(p, l[1..]); }
  }

  predicate Present(t: Thread) {
    t.pc in {Submitting, Exchanging, Notifying, InDone, Leaving}
  }

  predicate Closing(t: Thread) {
    t.pc in {Checking, Complaining, InComplaint, Deleting}
  }

  predicate Won(t: Thread) { t.ret == 1 }

  // The dispatcher and the winner exchange the flag.
  predicate Exchanged(t: Thread) {
    (t.dispatcher || Won(t)) && t.pc != Submitting && t.pc != Exchanging
  }

  // About to call subtask_done.
  predicate Due(t: Thread) { t.pc == Notifying || t.pc == Complaining }

  predicate AtCheck(t: Thread) { t.pc == Checking }

  predicate Dispatches(t: Thread) { t.dispatcher }

  // The first submission that is not null.
  function First(order: seq<Submission>): Submission {
    if order == [] then Submission(-1, NULL)
    else if order[0].message != NULL then order[0]
    else First(order[1..])
  }

  lemma {:induction false} FirstPushed(order: seq<Submission>, x: Submission)
    ensures First(order + [x]) ==
      if First(order).message != NULL then First(order) else if x.message != NULL then x else Submission(-1, NULL)
    ensures First(order).message == NULL ==> First(order).thread == -1
  {
    if order != [] {
      assert (order + [x])[1..] == order[1..] + [x];
      FirstPushed(order[1..], x);
    }
  }

  /* ---------- the invariant ---------- */

  ghost predicate ThreadOk(s: State, t: Thread) {
    && 0 <= t.ret <= 1
    && (t.dispatcher ==> t.pc != Submitting && t.ret == 0)
    && (Won(t) ==> t.input == s.message && s.message != NULL && t.pc != Submitting)
    && (t.pc in {Exchanging, Notifying, InDone} ==> t.dispatcher || Won(t))
    && (t.pc == Notifying ==> Count(Exchanged, s.threads) == 2)
    && (t.pc == Complaining ==> s.message == NULL && s.nleft == 0)
  }

  ghost predicate Counts(s: State) {
    && Count(Dispatches, s.threads) == 1
    && Count(Won, s.threads) == (if s.message == NULL then 0 else 1)
    && s.nleft == Count(Present, s.threads)
    && Count(Closing, s.threads) + s.deletes == (if s.nleft == 0 then 1 else 0)
    && (s.flag <==> Count(Exchanged, s.threads) > 0)
    && Called(s)
  }

  // subtask_done was called, or is about to be, by the second of those who exchange the flag, or
  // by the last one to leave when nobody brought a message.
  ghost predicate Called(s: State) {
    && |s.calls| + Count(Due, s.threads) == (if Count(Exchanged, s.threads) == 2 then 1 else 0)
      + (if s.message == NULL && s.nleft == 0 && Count(AtCheck, s.threads) == 0 then 1 else 0)
  }

  ghost predicate CallsOk(s: State) {
    forall k :: 0 <= k < |s.calls| ==> match s.calls[k] {
      case Success(m) => m == s.message && m != NULL
      case NoMessage => s.message == NULL && s.nleft == 0
    }
  }

  ghost predicate OrderOk(s: State) {
    && (forall k :: 0 <= k < |s.order| ==> var x := s.order[k];
      0 <= x.thread < |s.threads| && x.message == s.threads[x.thread].input)
    && (forall i :: 0 <= i < |s.threads| && !s.threads[i].dispatcher && s.threads[i].pc != Submitting ==>
      Submission(i, s.threads[i].input) in s.order)
    && First(s.order).message == s.message
    && (s.message != NULL ==> 0 <= First(s.order).thread < |s.threads| && Won(s.threads[First(s.order).thread]))
  }

  ghost predicate Inv(s: State) {
    && Counts(s) && CallsOk(s) && OrderOk(s)
    && forall i :: 0 <= i < |s.threads| ==> ThreadOk(s, s.threads[i])
  }

  lemma InitInv(s: State)
    requires Init(s)
    ensures Inv(s)
  {
    CountNone(Won, s.threads);
    CountAll(Present, s.threads);
    CountNone(Closing, s.threads);
    CountNone(Exchanged, s.threads);
    CountNone(Due, s.threads);
    CountNone(Dispatches, s.threads[1..]);
  }

  // Only the dispatcher and the winner exchange the flag; both have when everybody has left.
  lemma {:induction false} ExchangersAtMost(l: seq<Thread>)
    requires forall i :: 0 <= i < |l| ==> l[i].dispatcher ==> l[i].ret == 0
    ensures Count(Exchanged, l) <= Count(Dispatches, l) + Count(Won, l)
    ensures Count(Present, l) == 0 ==> Count(Exchanged, l) == Count(Dispatches, l) + Count(Won, l)
  {
    if l != [] {
      ExchangersAtMost(l[1..]);
    }
  }

  lemma CountsAt(s: State, i: int, t: Thread)
    requires 0 <= i < |s.threads|
    ensures var l, u := s.threads, s.threads[i := t];
      && Count(Dispatches, u) ==
        Count(Dispatches, l) - (if Dispatches(l[i]) then 1 else 0) + (if Dispatches(t) then 1 else 0)
      && Count(Won, u) == Count(Won, l) - (if Won(l[i]) then 1 else 0) + (if Won(t) then 1 else 0)
      && Count(Present, u) == Count(Present, l) - (if Present(l[i]) then 1 else 0) + (if Present(t) then 1 else 0)
      && Count(Closing, u) == Count(Closing, l) - (if Closing(l[i]) then 1 else 0) + (if Closing(t) then 1 else 0)
      && Count(Exchanged, u) ==
        Count(Exchanged, l) - (if Exchanged(l[i]) then 1 else 0) + (if Exchanged(t) then 1 else 0)
      && Count(Due, u) == Count(Due, l) - (if Due(l[i]) then 1 else 0) + (if Due(t) then 1 else 0)
      && Count(AtCheck, u) == Count(AtCheck, l) - (if AtCheck(l[i]) then 1 else 0) + (if AtCheck(t) then 1 else 0)
  {
    CountAt(Dispatches, s.threads, i, t);
    CountAt(Won, s.threads, i, t);
    CountAt(Present, s.threads, i, t);
    CountAt(Closing, s.threads, i, t);
    CountAt(Exchanged, s.threads, i, t);
    CountAt(Due, s.threads, i, t);
    CountAt(AtCheck, s.threads, i, t);
  }

  // What each count says about one thread.
  lemma ThreadFacts(s: State, i: int)
    requires Inv(s) && 0 <= i < |s.threads|
    ensures ThreadOk(s, s.threads[i])
    ensures Present(s.threads[i]) ==> s.nleft > 0 && s.deletes == 0
    ensures Closing(s.threads[i]) ==> s.nleft == 0 && s.deletes == 0
    ensures AtCheck(s.threads[i]) ==> Count(AtCheck, s.threads) > 0
    ensures Due(s.threads[i]) ==> Count(Due, s.threads) > 0
    ensures Exchanged(s.threads[i]) ==> Count(Exchanged, s.threads) > 0
    ensures Count(Exchanged, s.threads) <= 1 + (if s.message == NULL then 0 else 1)
    ensures s.nleft == 0 ==> Count(Exchanged, s.threads) == 1 + (if s.message == NULL then 0 else 1)
    ensures Count(AtCheck, s.threads) <= Count(Closing, s.threads)
  {
    var t, l := s.threads[i], s.threads;
    if Present(t) { CountSome(Present, l, i); }
    if Closing(t) { CountSome(Closing, l, i); }
    if AtCheck(t) { CountSome(AtCheck, l, i); }
    if Due(t) { CountSome(Due, l, i); }
    if Exchanged(t) { CountSome(Exchanged, l, i); }
    assert forall k :: 0 <= k < |l| ==> ThreadOk(s, l[k]);
    ExchangersAtMost(l);
    ChecksClose(l);
  }

  lemma {:induction false} ChecksClose(l: seq<Thread>)
    ensures Count(AtCheck, l) <= Count(Closing, l)
  {
    if l != [] { ChecksClose(l[1..]); }
  }

  lemma StepKeepsCounts(s: State, i: int)
    requires Inv(s) && Enabled(s, i)
    ensures Counts(Step(s, i))
  {
    hide CallsOk, OrderOk, Count, Called, AtCheck;
    ThreadFacts(s, i);
    CountsAt(s, i, Step(s, i).threads[i]);
    if s.threads[i].pc in {Submitting, Exchanging, Notifying, InDone} {
      EarlyStepKeepsCalled(s, i);
    } else {
      LateStepKeepsCalled(s, i);
    }
  }

  lemma EarlyStepKeepsCalled(s: State, i: int)
    requires Inv(s) && Enabled(s, i) && s.threads[i].pc in {Submitting, Exchanging, Notifying, InDone}
    ensures Called(Step(s, i))
  {
    var u := Step(s, i);
    ThreadFacts(s, i);
    CountsAt(s, i, u.threads[i]);
    forall k | 0 <= k < |u.threads|
      ensures u.threads[k].dispatcher ==> u.threads[k].ret == 0
    {
      ThreadFacts(s, k);
    }
    hide CallsOk, OrderOk, Count, ThreadOk;
    ExchangersAtMost(u.threads);
  }

  lemma LateStepKeepsCalled(s: State, i: int)
    requires Inv(s) && Enabled(s, i) && s.threads[i].pc !in {Submitting, Exchanging, Notifying, InDone}
    ensures Called(Step(s, i))
  {
    var u := Step(s, i);
    ThreadFacts(s, i);
    CountsAt(s, i, u.threads[i]);
    forall k | 0 <= k < |u.threads|
      ensures u.threads[k].dispatcher ==> u.threads[k].ret == 0
    {
      ThreadFacts(s, k);
    }
    hide CallsOk, OrderOk, Count, ThreadOk;
    ExchangersAtMost(u.threads);
  }

  // The order of exchanges after one more, `x`, by thread `i`.
  lemma OrderGrows(s: State, u: State, i: int, x: Submission)
    requires OrderOk(s) && 0 <= i < |s.threads| == |u.threads| && u.order == s.order + [x]
    requires x == Submission(i, s.threads[i].input) && u.threads[i].input == x.message
    requires forall k :: 0 <= k < |u.threads| && k != i ==> u.threads[k] == s.threads[k]
    requires First(u.order).message == u.message
    requires u.message != NULL ==> 0 <= First(u.order).thread < |u.threads| && Won(u.threads[First(u.order).thread])
    ensures OrderOk(u)
  {
    hide First;
    assert x in u.order;
    assert forall y :: y in s.order ==> y in u.order;
  }

  lemma SubmitKeepsOrder(s: State, i: int)
    requires Inv(s) && Enabled(s, i) && s.threads[i].pc == Submitting
    ensures OrderOk(Step(s, i))
  {
    var u := Step(s, i);
    var x := Submission(i, s.threads[i].input);
    hide Counts, CallsOk, First, Count;
    ThreadFacts(s, i);
    FirstPushed(s.order, x);
    OrderGrows(s, u, i, x);
  }

  lemma StepKeepsOrder(s: State, i: int)
    requires Inv(s) && Enabled(s, i)
    ensures OrderOk(Step(s, i))
  {
    var u := Step(s, i);
    if s.threads[i].pc == Submitting {
      SubmitKeepsOrder(s, i);
    } else {
      assert u.order == s.order && u.message == s.message && |u.threads| == |s.threads|;
      assert forall k :: 0 <= k < |u.threads| ==>
        u.threads[k].input == s.threads[k].input && u.threads[k].ret == s.threads[k].ret;
      assert forall k :: 0 <= k < |u.threads| ==> u.threads[k].dispatcher == s.threads[k].dispatcher;
      assert forall k :: 0 <= k < |u.threads| && u.threads[k].pc != Submitting ==> s.threads[k].pc != Submitting;
      hide Counts, CallsOk, First, Count, Step, ThreadOk;
    }
  }

  lemma StepKeepsCalls(s: State, i: int)
    requires Inv(s) && Enabled(s, i)
    ensures CallsOk(Step(s, i))
  {
    ThreadFacts(s, i);
    hide Counts, OrderOk;
  }

  lemma StepKeepsThread(s: State, i: int)
    requires Inv(s) && Enabled(s, i) && Counts(Step(s, i))
    ensures ThreadOk(Step(s, i), Step(s, i).threads[i])
  {
    var u := Step(s, i);
    ThreadFacts(s, i);
    CountsAt(s, i, u.threads[i]);
    hide CallsOk, OrderOk, Count;
  }

  lemma StepKeepsThreads(s: State, i: int, k: int)
    requires Inv(s) && Enabled(s, i) && 0 <= k < |s.threads| && k != i && Counts(Step(s, i))
    ensures ThreadOk(Step(s, i), Step(s, i).threads[k])
  {
    var u := Step(s, i);
    ThreadFacts(s, i);
    ThreadFacts(s, k);
    CountsAt(s, i, u.threads[i]);
    hide CallsOk, OrderOk, Count;
  }

  lemma StepKeepsInv(s: State, i: int)
    requires Inv(s) && Enabled(s, i)
    ensures Inv(Step(s, i))
  {
    StepKeepsCounts(s, i);
    StepKeepsOrder(s, i);
    StepKeepsCalls(s, i);
    forall k | 0 <= k < |s.threads|
      ensures ThreadOk(Step(s, i), Step(s, i).threads[k])
    {
      if k == i { StepKeepsThread(s, i); } else { StepKeepsThreads(s, i, k); }
    }
    hide ThreadOk, Counts, CallsOk, OrderOk;
  }

  /* ---------- every run ---------- */

  // `u` is what an interleaving of the threads makes of `s`.
  ghost predicate Leads(s: State, run: seq<int>, u: State)
    decreases |run|
  {
    if run == [] then s == u else Enabled(s, run[0]) && Leads(Step(s, run[0]), run[1..], u)
  }

  lemma {:induction false} EveryRunKeepsInv(s: State, run: seq<int>, u: State)
    requires Inv(s) && Leads(s, run, u)
    ensures Inv(u)
    decreases |run|
  {
    if run != [] {
      StepKeepsInv(s, run[0]);
      EveryRunKeepsInv(Step(s, run[0]), run[1..], u);
    }
  }

  // Whoever still has a step to make finds the task there, and subtask_done is called, and the
  // task deleted, at most once.
  lemma NeverTwice(s0: State, run: seq<int>, s: State)
    requires Init(s0) && Leads(s0, run, s)
    ensures forall i :: Enabled(s, i) ==> s.deletes == 0
    ensures |s.calls| <= 1 && s.deletes <= 1
  {
    InitInv(s0);
    EveryRunKeepsInv(s0, run, s);
    forall i | Enabled(s, i)
      ensures s.deletes == 0
    {
      ThreadFacts(s, i);
    }
    if s.nleft == 0 {
      ThreadFacts(s, 0);
    }
  }

  // In the end the task has been deleted once and subtask_done called once: with the first message
  // that is not null, or with ENOMSG when there was none; and submit returned 1 to the thread that
  // submitted it and 0 to the others.
  lemma InTheEnd(s0: State, run: seq<int>, s: State)
    requires Init(s0) && Leads(s0, run, s)
    requires forall i :: !Enabled(s, i)
    ensures s.deletes == 1
    ensures var first := First(s.order);
      && s.calls == [if first.message == NULL then NoMessage else Success(first.message)]
      && (first.message != NULL ==> 0 <= first.thread < |s.threads|)
      && forall i :: 0 <= i < |s.threads| ==>
        s.threads[i].ret == if first.message != NULL && i == first.thread then 1 else 0
    ensures forall i :: 0 <= i < |s.threads| && !s.threads[i].dispatcher ==>
      Submission(i, s.threads[i].input) in s.order
  {
    InitInv(s0);
    EveryRunKeepsInv(s0, run, s);
    forall i | 0 <= i < |s.threads|
      ensures s.threads[i].pc == Ended
    {
      assert !Enabled(s, i);
    }
    CountNone(Present, s.threads);
    CountNone(Closing, s.threads);
    CountNone(Due, s.threads);
    CountNone(AtCheck, s.threads);
    StartedWith(s0, run, s);
    ThreadFacts(s, 0);
    forall i | 0 <= i < |s.threads|
      ensures s.threads[i].ret == if s.message != NULL && i == First(s.order).thread then 1 else 0
    {
      ThreadFacts(s, i);
      var w := First(s.order).thread;
      if Won(s.threads[i]) && i != w {
        CountTwo(Won, s.threads, if i < w then i else w, if i < w then w else i);
      }
    }
  }

  // No thread comes or goes.
  lemma {:induction false} StartedWith(s: State, run: seq<int>, u: State)
    requires Leads(s, run, u)
    ensures |u.threads| == |s.threads|
    decreases |run|
  {
    if run != [] {
      StartedWith(Step(s, run[0]), run[1..], u);
    }
  }

  // The threads of `todo` in the order of their first steps in the run, each with its input.
  function SubmitsOf(run: seq<int>, todo: set<int>, inputs: seq<int>): seq<Submission>
    requires forall i :: i in todo ==> 0 <= i < |inputs|
  {
    if run == [] then []
    else if run[0] in todo then
      [Submission(run[0], inputs[run[0]])] + SubmitsOf(run[1..], todo - {run[0]}, inputs)
    else SubmitsOf(run[1..], todo, inputs)
  }

  function Inputs(l: seq<Thread>): seq<int> {
    seq(|l|, i requires 0 <= i < |l| => l[i].input)
  }

  function ToSubmit(l: seq<Thread>): set<int> {
    set i | 0 <= i < |l| && l[i].pc == Submitting
  }

  lemma {:induction false} OrderShows(s: State, run: seq<int>, u: State)
    requires Leads(s, run, u)
    ensures u.order == s.order + SubmitsOf(run, ToSubmit(s.threads), Inputs(s.threads))
    decreases |run|
  {
    if run != [] {
      var i, t := run[0], Step(s, run[0]);
      assert Inputs(t.threads) == Inputs(s.threads);
      assert ToSubmit(t.threads) == ToSubmit(s.threads) - {i};
      OrderShows(t, run[1..], u);
      if i !in ToSubmit(s.threads) { assert ToSubmit(t.threads) == ToSubmit(s.threads); }
    }
  }

  // The winner is the candidate that, of those with a message that is not null, comes first in the run.
  lemma FirstToSubmitWins(s0: State, run: seq<int>, s: State)
    requires Init(s0) && Leads(s0, run, s) && forall i :: !Enabled(s, i)
    ensures forall i :: i in ToSubmit(s0.threads) <==> 0 < i < |s0.threads|
    ensures var first := First(SubmitsOf(run, ToSubmit(s0.threads), Inputs(s0.threads)));
      && s.calls == [if first.message == NULL then NoMessage else Success(first.message)]
      && forall i :: 0 <= i < |s.threads| ==>
        s.threads[i].ret == if first.message != NULL && i == first.thread then 1 else 0
  {
    OrderShows(s0, run, s);
    assert s.order == SubmitsOf(run, ToSubmit(s0.threads), Inputs(s0.threads));
    InTheEnd(s0, run, s);
  }

  /* ---------- every run ends ---------- */

  function Rank(pc: Pc): nat {
    match pc
    case Submitting => 9
    case Exchanging => 8
    case Notifying => 7
    case InDone => 6
    case Leaving => 5
    case Checking => 4
    case Complaining => 3
    case InComplaint => 2
    case Deleting => 1
    case Ended => 0
  }

  function Ranks(l: seq<Thread>): nat {
    if l == [] then 0 else Rank(l[0].pc) + Ranks(l[1..])
  }

  lemma {:induction false} RanksAt(l: seq<Thread>, i: int, t: Thread)
    requires 0 <= i < |l|
    ensures Ranks(l[i := t]) == Ranks(l) - Rank(l[i].pc) + Rank(t.pc)
  {
    if i > 0 {
      RanksAt(l[1..], i - 1, t);
      assert l[i := t][1..] == l[1..][i - 1 := t];
    } else {
      assert l[0 := t][1..] == l[1..];
    }
  }

  lemma {:induction false} RunsEnd(s: State, run: seq<int>, u: State)
    requires Leads(s, run, u)
    ensures |run| + Ranks(u.threads) <= Ranks(s.threads)
    decreases |run|
  {
    if run != [] {
      var t := Step(s, run[0]);
      RanksAt(s.threads, run[0], t.threads[run[0]]);
      RunsEnd(t, run[1..], u);
    }
  }
}
