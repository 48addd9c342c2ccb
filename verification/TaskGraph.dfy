/**
 A task graph (workflow/src/factory/WFGraphTask.cc and .h): every node counts down its
 predecessors, runs its task, and then cancels and counts its successors.  Nodes live on many
 threads; a step below is one atomic operation of one of them.
 */
module TaskGraph {

  // Where a node's series is.
  datatype Phase =
    | Waiting                       // counting down
    | Starting                      // the counter has reached zero, `done` comes next
    | Running                       // the user's task is on its way
    | Leaving                       // the node is about to be destroyed
    | Cancelling(rest: seq<nat>)    // the destructor still has to cancel these successors
    | Counting(rest: seq<nat>)      // the destructor still has to count these successors
    | Done

  datatype State = State(
    succs: seq<seq<nat>>,     // successors of each node, in the order they were added
    value: seq<int>,          // the counters
    phase: seq<Phase>,
    canceled: seq<bool>,      // of each node's series
    noticed: seq<bool>,       // the destructor found the series canceled
    runs: seq<nat>,           // how often each user task was started
    started: bool,            // the parallel task has been dispatched
    next: nat,                // its dispatch loop has reached this node
    nleft: int,
    finished: nat             // how often the parallel task's `done` was called
  )

  function Init(): State {
    State([], [], [], [], [], [], false, 0, 0, 0)
  }

  datatype Action =
    | CreateNode
    | Precede(from: nat, to: nat)
    | Dispatch
    | DispatchNode
    | FirstDone(node: nat)
    | FinishTask(node: nat)
    | Destroy(node: nat)
    | CancelNext(node: nat)
    | CountNext(node: nat)
    | FinishSeries(node: nat)
    | UserCancel(node: nat)

  predicate Enabled(s: State, a: Action) {
    match a
    case CreateNode => !s.started
    case Precede(i, j) => !s.started && i < |s.phase| && j < |s.phase|
    case Dispatch => !s.started
    case DispatchNode => s.started && s.next < |s.phase|
    case FirstDone(i) => i < |s.phase| && s.phase[i] == Starting
    case FinishTask(i) => i < |s.phase| && s.phase[i] == Running
    case Destroy(i) => i < |s.phase| && s.phase[i] == Leaving
    case CancelNext(i) => i < |s.phase| && s.phase[i].Cancelling?
    case CountNext(i) => i < |s.phase| && s.phase[i].Counting? && s.phase[i].rest != []
    case FinishSeries(i) => i < |s.phase| && s.phase[i] == Counting([])
    case UserCancel(i) => i < |s.phase|
  }

  // WFCounterTask::count
  function Count(s: State, i: nat): State
    requires i < |s.phase| == |s.value|
  {
    var t := s.(value := s.value[i := s.value[i] - 1]);
    if t.value[i] == 0 then t.(phase := t.phase[i := Starting]) else t
  }

  predicate Shaped(s: State) {
    && |s.succs| == |s.value| == |s.phase| == |s.canceled| == |s.noticed| == |s.runs|
    && (forall i :: 0 <= i < |s.succs| ==> InRange(s.succs[i], |s.phase|))
    && (forall i :: 0 <= i < |s.phase| ==> IsSuffix(s, i))
  }

  predicate InRange(l: seq<nat>, n: nat) {
    forall k :: 0 <= k < |l| ==> l[k] < n
  }

  // What the destructor has left to do is the end of the successor list.
  predicate IsSuffix(s: State, i: nat)
    requires i < |s.phase| == |s.succs|
  {
    s.phase[i].Cancelling? || s.phase[i].Counting? ==>
      var r, l := s.phase[i].rest, s.succs[i];
      |r| <= |l| && r == l[|l| - |r|..] && InRange(r, |s.phase|)
  }

  function Apply(s: State, a: Action): State
    requires Shaped(s) && Enabled(s, a)
  {
    match a
    case CreateNode =>
      State(s.succs + [[]], s.value + [1], s.phase + [Waiting], s.canceled + [false], s.noticed + [false], s.runs + [0],
            false, s.next, s.nleft, s.finished)
    case Precede(i, j) =>
      s.(value := s.value[j := s.value[j] + 1], succs := s.succs[i := s.succs[i] + [j]])
    case Dispatch =>
      s.(started := true, nleft := |s.phase|, finished := if |s.phase| == 0 then s.finished + 1 else s.finished)
    case DispatchNode => Count(s, s.next).(next := s.next + 1)
    // The counter is set again, and the series goes on: with the task, or by deleting what is left.
    case FirstDone(i) =>
      var t := s.(value := s.value[i := 1]);
      if s.canceled[i] then t.(phase := t.phase[i := Leaving])
      else t.(phase := t.phase[i := Running], runs := t.runs[i := t.runs[i] + 1])
    case FinishTask(i) =>
      s.(value := s.value[i := if s.canceled[i] then s.value[i] else s.value[i] - 1], phase := s.phase[i := Leaving])
    case Destroy(i) =>
      if s.canceled[i] then s.(phase := s.phase[i := Cancelling(s.succs[i])], noticed := s.noticed[i := true])
      else s.(phase := s.phase[i := Counting(s.succs[i])])
    case CancelNext(i) =>
      assert IsSuffix(s, i);
      var r := s.phase[i].rest;
      if r == [] then s.(phase := s.phase[i := Counting(s.succs[i])])
      else s.(phase := s.phase[i := Cancelling(r[1..])], canceled := s.canceled[r[0] := true])
    case CountNext(i) =>
      assert IsSuffix(s, i);
      var r := s.phase[i].rest;
      Count(s.(phase := s.phase[i := Counting(r[1..])]), r[0])
    case FinishSeries(i) =>
      s.(phase := s.phase[i := Done], nleft := s.nleft - 1,
         finished := if s.nleft == 1 then s.finished + 1 else s.finished)
    case UserCancel(i) => s.(canceled := s.canceled[i := true])
  }

  /* ---------- counting what has not been counted ---------- */

  function Occurrences(l: seq<nat>, j: nat): nat {
    if l == [] then 0 else (if l[0] == j then 1 else 0) + Occurrences(l[1..], j)
  }

  function Total(lists: seq<seq<nat>>, j: nat): nat {
    if lists == [] then 0 else Occurrences(lists[0], j) + Total(lists[1..], j)
  }

  // The successors that node `i` has not counted yet.
  function Uncounted(s: State, i: nat): seq<nat>
    requires i < |s.phase| == |s.succs|
  {
    match s.phase[i]
    case Counting(rest) => rest
    case Done => []
    case _ => s.succs[i]
  }

  function AllUncounted(s: State): (r: seq<seq<nat>>)
    requires |s.phase| == |s.succs|
    ensures |r| == |s.phase| && forall i :: 0 <= i < |r| ==> r[i] == Uncounted(s, i)
  {
    seq(|s.phase|, i requires 0 <= i < |s.phase| => Uncounted(s, i))
  }

  lemma {:induction false} OccurrencesIn(l: seq<nat>, j: nat)
    ensures Occurrences(l, j) > 0 <==> j in l
  {
    if l != [] { OccurrencesIn(l[1..], j); }
  }

  lemma {:induction false} OccurrencesPush(l: seq<nat>, x: nat, j: nat)
    ensures Occurrences(l + [x], j) == Occurrences(l, j) + if x == j then 1 else 0
  {
    if l == [] {
      assert [x][1..] == [];
    } else {
      assert (l + [x])[1..] == l[1..] + [x];
      OccurrencesPush(l[1..], x, j);
    }
  }

  lemma {:induction false} TotalUpdate(lists: seq<seq<nat>>, i: nat, l: seq<nat>, j: nat)
    requires i < |lists|
    ensures Total(lists[i := l], j) == Total(lists, j) - Occurrences(lists[i], j) + Occurrences(l, j)
  {
    if i == 0 {
      assert lists[0 := l][1..] == lists[1..];
    } else {
      assert lists[i := l][1..] == lists[1..][i - 1 := l];
      TotalUpdate(lists[1..], i - 1, l, j);
    }
  }

  lemma {:induction false} TotalPositive(lists: seq<seq<nat>>, i: nat, j: nat)
    requires i < |lists| && j in lists[i]
    ensures Total(lists, j) > 0
  {
    if i == 0 { OccurrencesIn(lists[0], j); } else { TotalPositive(lists[1..], i - 1, j); }
  }

  lemma {:induction false} TotalWitness(lists: seq<seq<nat>>, j: nat) returns (i: nat)
    requires Total(lists, j) > 0
    ensures i < |lists| && j in lists[i]
  {
    if Occurrences(lists[0], j) > 0 {
      OccurrencesIn(lists[0], j);
      i := 0;
    } else {
      i := TotalWitness(lists[1..], j);
      i := i + 1;
    }
  }

  lemma {:induction false} TotalPush(lists: seq<seq<nat>>, l: seq<nat>, j: nat)
    ensures Total(lists + [l], j) == Total(lists, j) + Occurrences(l, j)
  {
    if lists == [] {
      assert [l][1..] == [];
    } else {
      assert (lists + [l])[1..] == lists[1..] + [l];
      TotalPush(lists[1..], l, j);
    }
  }

  /* ---------- the invariant ---------- */

  // A node's counter is what it still waits for: the dispatch loop, and its predecessors.
  ghost predicate Counters(s: State)
    requires Shaped(s)
  {
    forall j :: 0 <= j < |s.phase| ==>
      if s.phase[j].Waiting? then
        s.value[j] > 0 && s.value[j] == (if j < s.next then 0 else 1) + Total(AllUncounted(s), j)
      else
        j < s.next && Total(AllUncounted(s), j) == 0
  }

  predicate Began(p: Phase) {
    !p.Waiting? && !p.Starting?
  }

  predicate Destroyed(p: Phase) {
    p.Cancelling? || p.Counting? || p.Done?
  }

  ghost predicate Runs(s: State)
    requires Shaped(s)
  {
    && (forall j :: 0 <= j < |s.phase| ==> s.runs[j] <= 1 && (s.runs[j] == 1 ==> Began(s.phase[j])))
    && (forall j :: 0 <= j < |s.phase| && s.phase[j].Starting? ==> s.value[j] == 0)
    && (forall j :: 0 <= j < |s.phase| && s.phase[j].Running? ==> s.value[j] == 1 && s.runs[j] == 1)
  }

  function Open(p: seq<Phase>): nat {
    if p == [] then 0 else (if p[0].Done? then 0 else 1) + Open(p[1..])
  }

  ghost predicate Join(s: State)
    requires Shaped(s)
  {
    && s.next <= |s.phase|
    && (!s.started ==> s.next == 0 && s.finished == 0 && forall j :: 0 <= j < |s.phase| ==> s.phase[j].Waiting?)
    && (s.started ==> s.nleft == Open(s.phase) && s.finished == if s.nleft == 0 then 1 else 0)
  }

  // A node that found its series canceled has canceled its successors before counting them.
  ghost predicate Cancels(s: State)
    requires Shaped(s)
  {
    && (forall i :: 0 <= i < |s.phase| && s.noticed[i] ==> Destroyed(s.phase[i]))
    && (forall i :: 0 <= i < |s.phase| && s.phase[i].Cancelling? ==> s.noticed[i])
    && (forall i, k :: 0 <= i < |s.phase| && s.noticed[i] && 0 <= k < |s.succs[i]| ==> Passed(s, i, k, s.succs[i][k]))
  }

  ghost predicate Passed(s: State, i: nat, k: nat, j: nat)
    requires Shaped(s) && i < |s.phase| && k < |s.succs[i]| && j < |s.phase|
  {
    && (s.phase[i].Cancelling? && k < |s.succs[i]| - |s.phase[i].rest| ==> s.canceled[j])
    && (!s.phase[i].Cancelling? ==> s.canceled[j])
    && s.runs[j] == 0
    && (Destroyed(s.phase[j]) ==> s.noticed[j])
  }

  ghost predicate Inv(s: State) {
    Shaped(s) && Counters(s) && Runs(s) && Join(s) && Cancels(s)
  }

  /* ---------- every step keeps the invariant ---------- */

  ghost predicate SameSizes(s: State, t: State) {
    && |t.value| == |s.value| && |t.phase| == |s.phase| && |t.canceled| == |s.canceled|
    && |t.noticed| == |s.noticed| && |t.runs| == |s.runs| && t.succs == s.succs
  }

  // Only node `i` moves on, and node `j` may start.
  lemma Reshaped(s: State, t: State, i: nat, j: nat)
    requires Shaped(s) && SameSizes(s, t) && i < |s.phase| && j < |s.phase|
    requires forall k :: 0 <= k < |s.phase| && k != i && k != j ==> t.phase[k] == s.phase[k]
    requires IsSuffix(t, i) && IsSuffix(t, j)
    ensures Shaped(t)
  {
    forall k | 0 <= k < |t.phase|
      ensures IsSuffix(t, k)
    {
      assert IsSuffix(s, k);
    }
  }

  lemma {:induction false} NobodyWaitsFor(lists: seq<seq<nat>>, n: nat)
    requires forall i :: 0 <= i < |lists| ==> InRange(lists[i], n)
    ensures Total(lists, n) == 0
  {
    if lists != [] {
      OccurrencesIn(lists[0], n);
      assert InRange(lists[0], n);
      NobodyWaitsFor(lists[1..], n);
    }
  }

  lemma CreateNodeShaped(s: State)
    requires Inv(s) && Enabled(s, CreateNode)
    ensures Shaped(Apply(s, CreateNode))
  {
    hide Counters, Cancels, Runs;
    var t := Apply(s, CreateNode);
    var n := |s.phase|;
    forall i | 0 <= i < |t.succs|
      ensures InRange(t.succs[i], |t.phase|)
    {
      assert i < n ==> InRange(s.succs[i], n);
    }
  }

  lemma CreateNodeCounters(s: State)
    requires Inv(s) && Enabled(s, CreateNode) && Shaped(Apply(s, CreateNode))
    ensures Counters(Apply(s, CreateNode))
  {
    hide Cancels, Runs;
    var t := Apply(s, CreateNode);
    assert AllUncounted(t) == AllUncounted(s) + [[]];
    forall j | 0 <= j < |t.phase|
      ensures t.phase[j].Waiting? && t.value[j] > 0 && t.value[j] == 1 + Total(AllUncounted(t), j)
    {
      TotalPush(AllUncounted(s), [], j);
      if j == |s.phase| { NobodyWaitsFor(AllUncounted(s), j); }
    }
  }

  lemma CreateNodeKeeps(s: State)
    requires Inv(s) && Enabled(s, CreateNode)
    ensures Inv(Apply(s, CreateNode))
  {
    CreateNodeShaped(s);
    CreateNodeCounters(s);
    hide Counters;
  }

  lemma PrecedeKeeps(s: State, i: nat, j: nat)
    requires Inv(s) && Enabled(s, Precede(i, j))
    ensures Inv(Apply(s, Precede(i, j)))
  {
    var t := Apply(s, Precede(i, j));
    forall k | 0 <= k < |t.succs|
      ensures InRange(t.succs[k], |t.phase|)
    {
      assert InRange(s.succs[k], |s.phase|);
    }
    assert Shaped(t);
    assert AllUncounted(t) == AllUncounted(s)[i := s.succs[i] + [j]];
    forall k | 0 <= k < |t.phase|
      ensures t.phase[k].Waiting? && t.value[k] > 0 && t.value[k] == 1 + Total(AllUncounted(t), k)
    {
      TotalUpdate(AllUncounted(s), i, s.succs[i] + [j], k);
      OccurrencesPush(s.succs[i], j, k);
    }
  }

  lemma {:induction false} OpenWaiting(p: seq<Phase>)
    requires forall i :: 0 <= i < |p| ==> p[i].Waiting?
    ensures Open(p) == |p|
  {
    if p != [] { OpenWaiting(p[1..]); }
  }

  lemma DispatchKeeps(s: State)
    requires Inv(s) && Enabled(s, Dispatch)
    ensures Inv(Apply(s, Dispatch))
  {
    var t := Apply(s, Dispatch);
    OpenWaiting(s.phase);
    assert forall i :: 0 <= i < |t.phase| ==> IsSuffix(s, i) && IsSuffix(t, i);
    assert AllUncounted(t) == AllUncounted(s);
    hide Total, Open, AllUncounted, InRange;
  }

  lemma UserCancelKeeps(s: State, i: nat)
    requires Inv(s) && Enabled(s, UserCancel(i))
    ensures Inv(Apply(s, UserCancel(i)))
  {
    var t := Apply(s, UserCancel(i));
    assert IsSuffix(s, i);
    Reshaped(s, t, i, i);
    assert AllUncounted(t) == AllUncounted(s);
    forall k, m | 0 <= k < |t.phase| && t.noticed[k] && 0 <= m < |t.succs[k]|
      ensures Passed(t, k, m, t.succs[k][m])
    {
      assert Passed(s, k, m, s.succs[k][m]);
    }
  }

  lemma {:induction false} OpenUpdate(p: seq<Phase>, i: nat, q: Phase)
    requires i < |p|
    ensures Open(p[i := q]) == Open(p) - (if p[i].Done? then 0 else 1) + (if q.Done? then 0 else 1)
  {
    if i == 0 {
      assert p[0 := q][1..] == p[1..];
    } else {
      assert p[i := q][1..] == p[1..][i - 1 := q];
      OpenUpdate(p[1..], i - 1, q);
    }
  }

  // A node starts, if its counter has just reached zero.
  lemma StartOpen(s: State, j: nat)
    requires j < |s.phase| == |s.value| && !s.phase[j].Done?
    ensures Open(Count(s, j).phase) == Open(s.phase)
  {
    OpenUpdate(s.phase, j, Starting);
  }

  // Nothing changes for the successors of nodes that noticed a cancellation.
  ghost predicate StillPassed(s: State, t: State)
    requires Shaped(s) && Shaped(t)
  {
    && |s.phase| == |t.phase| && s.succs == t.succs && s.noticed == t.noticed
    && (forall i, k :: 0 <= i < |s.phase| && s.noticed[i] && 0 <= k < |s.succs[i]| && Passed(s, i, k, s.succs[i][k])
          ==> Passed(t, i, k, s.succs[i][k]))
    && (forall i :: 0 <= i < |s.phase| && Destroyed(s.phase[i]) ==> Destroyed(t.phase[i]))
    && (forall i :: 0 <= i < |s.phase| && t.phase[i].Cancelling? ==> s.phase[i].Cancelling?)
  }

  lemma CancelsKept(s: State, t: State)
    requires Shaped(s) && Shaped(t) && Cancels(s) && StillPassed(s, t)
    ensures Cancels(t)
  {
    forall k, m | 0 <= k < |t.phase| && t.noticed[k] && 0 <= m < |t.succs[k]|
      ensures Passed(t, k, m, t.succs[k][m])
    {
      assert Passed(s, k, m, s.succs[k][m]);
    }
  }

  lemma DispatchNodeKeeps(s: State)
    requires Inv(s) && Enabled(s, DispatchNode)
    ensures Inv(Apply(s, DispatchNode))
  {
    var t, d := Apply(s, DispatchNode), s.next;
    assert IsSuffix(s, d);
    assert s.phase[d].Waiting?;
    Reshaped(s, t, d, d);
    assert AllUncounted(t) == AllUncounted(s);
    StartOpen(s, d);
    assert StillPassed(s, t);
    CancelsKept(s, t);
    hide Cancels, StillPassed, Total, Open;
  }

  lemma FirstDoneCancels(s: State, i: nat)
    requires Inv(s) && Enabled(s, FirstDone(i)) && Shaped(Apply(s, FirstDone(i)))
    ensures Cancels(Apply(s, FirstDone(i)))
  {
    var t := Apply(s, FirstDone(i));
    forall k, m | 0 <= k < |s.phase| && s.noticed[k] && 0 <= m < |s.succs[k]|
      ensures Passed(t, k, m, t.succs[k][m])
    {
      assert Passed(s, k, m, s.succs[k][m]);
      if s.succs[k][m] == i {
        AllCountedAt(s, k, m, i);
      }
    }
    hide Counters;
  }

  lemma FirstDoneKeeps(s: State, i: nat)
    requires Inv(s) && Enabled(s, FirstDone(i))
    ensures Inv(Apply(s, FirstDone(i)))
  {
    var t := Apply(s, FirstDone(i));
    Reshaped(s, t, i, i);
    FirstDoneCancels(s, i);
    assert AllUncounted(t) == AllUncounted(s);
    OpenUpdate(s.phase, i, t.phase[i]);
    hide Cancels, Total, Open;
  }

  // A node that has started has been counted by all its predecessors.
  lemma AllCountedAt(s: State, k: nat, m: nat, j: nat)
    requires Inv(s) && k < |s.phase| && m < |s.succs[k]| && s.succs[k][m] == j
    requires j < |s.phase| && !s.phase[j].Waiting?
    ensures j !in Uncounted(s, k)
    ensures s.phase[k].Counting? || s.phase[k].Done?
  {
    if j in Uncounted(s, k) {
      TotalPositive(AllUncounted(s), k, j);
      assert false;
    }
    assert j in s.succs[k];
  }

  lemma FinishTaskKeeps(s: State, i: nat)
    requires Inv(s) && Enabled(s, FinishTask(i))
    ensures Inv(Apply(s, FinishTask(i)))
  {
    var t := Apply(s, FinishTask(i));
    Reshaped(s, t, i, i);
    assert AllUncounted(t) == AllUncounted(s);
    OpenUpdate(s.phase, i, t.phase[i]);
    forall k, m | 0 <= k < |t.phase| && t.noticed[k] && 0 <= m < |t.succs[k]|
      ensures Passed(t, k, m, t.succs[k][m])
    {
      assert Passed(s, k, m, s.succs[k][m]);
    }
  }

  lemma DestroyCancels(s: State, i: nat)
    requires Inv(s) && Enabled(s, Destroy(i)) && Shaped(Apply(s, Destroy(i)))
    ensures Cancels(Apply(s, Destroy(i)))
  {
    var t := Apply(s, Destroy(i));
    forall k, m | 0 <= k < |t.phase| && t.noticed[k] && 0 <= m < |t.succs[k]|
      ensures Passed(t, k, m, t.succs[k][m])
    {
      if s.noticed[k] {
        assert Passed(s, k, m, s.succs[k][m]);
        if s.succs[k][m] == i { AllCountedAt(s, k, m, i); }
      } else {
        WaitsFor(s, i, m);
      }
    }
    hide Counters;
  }

  lemma DestroyShaped(s: State, i: nat)
    requires Inv(s) && Enabled(s, Destroy(i))
    ensures Shaped(Apply(s, Destroy(i))) && AllUncounted(Apply(s, Destroy(i))) == AllUncounted(s)
  {
    var t := Apply(s, Destroy(i));
    hide Counters, Runs, Join, Cancels;
    assert InRange(s.succs[i], |s.phase|);
    Reshaped(s, t, i, i);
    assert forall k :: 0 <= k < |s.phase| ==> Uncounted(t, k) == Uncounted(s, k);
  }

  lemma DestroyKeeps(s: State, i: nat)
    requires Inv(s) && Enabled(s, Destroy(i))
    ensures Inv(Apply(s, Destroy(i)))
  {
    var t := Apply(s, Destroy(i));
    DestroyShaped(s, i);
    DestroyCancels(s, i);
    OpenUpdate(s.phase, i, t.phase[i]);
    hide Cancels, Total, Open, AllUncounted, Shaped, IsSuffix;
  }

  // The successors of a node that has not counted them yet are still waiting.
  lemma WaitsFor(s: State, i: nat, m: nat)
    requires Inv(s) && i < |s.phase| && m < |s.succs[i]| && Uncounted(s, i) == s.succs[i]
    ensures s.succs[i][m] < |s.phase| && s.phase[s.succs[i][m]].Waiting? && s.runs[s.succs[i][m]] == 0
  {
    assert InRange(s.succs[i], |s.phase|);
    TotalPositive(AllUncounted(s), i, s.succs[i][m]);
  }

  lemma CancelNextCancels(s: State, i: nat)
    requires Inv(s) && Enabled(s, CancelNext(i)) && IsSuffix(s, i) && Shaped(Apply(s, CancelNext(i)))
    ensures Cancels(Apply(s, CancelNext(i)))
  {
    hide Counters, Runs, Join;
    var t := Apply(s, CancelNext(i));
    forall k, m | 0 <= k < |t.phase| && t.noticed[k] && 0 <= m < |t.succs[k]|
      ensures Passed(t, k, m, t.succs[k][m])
    {
      assert Passed(s, k, m, s.succs[k][m]);
    }
  }

  lemma CancelNextShaped(s: State, i: nat)
    requires Inv(s) && Enabled(s, CancelNext(i))
    ensures IsSuffix(s, i) && Shaped(Apply(s, CancelNext(i)))
    ensures AllUncounted(Apply(s, CancelNext(i))) == AllUncounted(s)
  {
    var t := Apply(s, CancelNext(i));
    hide Counters, Runs, Cancels, Join;
    assert IsSuffix(s, i) && InRange(s.succs[i], |s.phase|);
    CancelNextSuffix(s, i);
    assert forall k :: 0 <= k < |s.phase| ==> Uncounted(t, k) == Uncounted(s, k);
    hide Uncounted, IsSuffix, Apply;
    Reshaped(s, t, i, i);
  }

  lemma CancelNextSuffix(s: State, i: nat)
    requires Shaped(s) && Enabled(s, CancelNext(i)) && IsSuffix(s, i) && InRange(s.succs[i], |s.phase|)
    ensures var t := Apply(s, CancelNext(i));
      && SameSizes(s, t) && IsSuffix(t, i) && (forall k :: 0 <= k < |s.phase| && k != i ==> t.phase[k] == s.phase[k])
  {
    var r := s.phase[i].rest;
    if r != [] {
      assert r[1..] == s.succs[i][|s.succs[i]| - |r[1..]|..];
      assert forall k :: 0 <= k < |r[1..]| ==> r[1..][k] == r[k + 1];
    }
  }

  lemma CancelNextRuns(s: State, i: nat)
    requires Inv(s) && Enabled(s, CancelNext(i)) && IsSuffix(s, i) && Shaped(Apply(s, CancelNext(i)))
    ensures Runs(Apply(s, CancelNext(i))) && Join(Apply(s, CancelNext(i)))
  {
    OpenUpdate(s.phase, i, Apply(s, CancelNext(i)).phase[i]);
    hide Counters, Cancels, Total, Open, InRange;
  }

  lemma CancelNextKeeps(s: State, i: nat)
    requires Inv(s) && Enabled(s, CancelNext(i))
    ensures Inv(Apply(s, CancelNext(i)))
  {
    CancelNextShaped(s, i);
    CancelNextCancels(s, i);
    CancelNextRuns(s, i);
    hide Cancels, Runs, Join, Total, AllUncounted, Shaped, IsSuffix;
  }

  lemma NextWaits(s: State, i: nat)
    requires Inv(s) && Enabled(s, CountNext(i))
    ensures IsSuffix(s, i) && s.phase[s.phase[i].rest[0]].Waiting?
  {
    hide Runs, Cancels, Join;
    assert IsSuffix(s, i);
    TotalPositive(AllUncounted(s), i, s.phase[i].rest[0]);
  }

  lemma CountNextShaped(s: State, i: nat)
    requires Inv(s) && Enabled(s, CountNext(i))
    ensures IsSuffix(s, i) && s.phase[s.phase[i].rest[0]].Waiting? && Shaped(Apply(s, CountNext(i)))
  {
    NextWaits(s, i);
    hide Counters, Cancels, Runs, Join;
    var r := s.phase[i].rest;
    var u := s.(phase := s.phase[i := Counting(r[1..])]);
    Reshaped(s, u, i, i);
    Reshaped(u, Apply(s, CountNext(i)), i, r[0]);
  }

  lemma CountNextCounters(s: State, i: nat)
    requires Inv(s) && Enabled(s, CountNext(i)) && IsSuffix(s, i) && Shaped(Apply(s, CountNext(i)))
    requires s.phase[s.phase[i].rest[0]].Waiting?
    ensures Counters(Apply(s, CountNext(i)))
  {
    var t, r := Apply(s, CountNext(i)), s.phase[i].rest;
    assert AllUncounted(t) == AllUncounted(s)[i := r[1..]];
    forall k
      ensures Total(AllUncounted(t), k) == Total(AllUncounted(s), k) - if k == r[0] then 1 else 0
    {
      TotalUpdate(AllUncounted(s), i, r[1..], k);
    }
    hide Cancels, Total, Runs;
  }

  lemma CountNextCancels(s: State, i: nat)
    requires Inv(s) && Enabled(s, CountNext(i)) && IsSuffix(s, i) && Shaped(Apply(s, CountNext(i)))
    requires s.phase[s.phase[i].rest[0]].Waiting?
    ensures Cancels(Apply(s, CountNext(i)))
  {
    hide Counters, Total, Runs;
    var t := Apply(s, CountNext(i));
    assert StillPassed(s, t);
    CancelsKept(s, t);
  }

  lemma CountNextOpen(s: State, i: nat)
    requires Inv(s) && Enabled(s, CountNext(i)) && IsSuffix(s, i) && s.phase[s.phase[i].rest[0]].Waiting?
    ensures Open(Apply(s, CountNext(i)).phase) == Open(s.phase)
  {
    hide Counters, Cancels, Runs;
    var r := s.phase[i].rest;
    OpenUpdate(s.phase, i, Counting(r[1..]));
    StartOpen(s.(phase := s.phase[i := Counting(r[1..])]), r[0]);
  }

  lemma CountNextRuns(s: State, i: nat)
    requires Inv(s) && Enabled(s, CountNext(i)) && IsSuffix(s, i) && Shaped(Apply(s, CountNext(i)))
    requires s.phase[s.phase[i].rest[0]].Waiting?
    ensures Runs(Apply(s, CountNext(i)))
  {
    hide Counters, Cancels, Total, Join, InRange;
  }

  lemma CountNextKeeps(s: State, i: nat)
    requires Inv(s) && Enabled(s, CountNext(i))
    ensures Inv(Apply(s, CountNext(i)))
  {
    CountNextShaped(s, i);
    CountNextCounters(s, i);
    CountNextCancels(s, i);
    CountNextOpen(s, i);
    CountNextRuns(s, i);
    hide Counters, Cancels, Total, Open, AllUncounted, Shaped, Runs;
  }

  lemma FinishSeriesKeeps(s: State, i: nat)
    requires Inv(s) && Enabled(s, FinishSeries(i))
    ensures Inv(Apply(s, FinishSeries(i)))
  {
    var t := Apply(s, FinishSeries(i));
    Reshaped(s, t, i, i);
    assert AllUncounted(t) == AllUncounted(s);
    OpenUpdate(s.phase, i, Done);
    forall k, m | 0 <= k < |t.phase| && t.noticed[k] && 0 <= m < |t.succs[k]|
      ensures Passed(t, k, m, t.succs[k][m])
    {
      assert Passed(s, k, m, s.succs[k][m]);
    }
  }

  lemma StepKeepsInv(s: State, a: Action)
    requires Inv(s) && Enabled(s, a)
    ensures Inv(Apply(s, a))
  {
    match a
    case CreateNode => CreateNodeKeeps(s);
    case Precede(i, j) => PrecedeKeeps(s, i, j);
    case Dispatch => DispatchKeeps(s);
    case DispatchNode => DispatchNodeKeeps(s);
    case FirstDone(i) => FirstDoneKeeps(s, i);
    case FinishTask(i) => FinishTaskKeeps(s, i);
    case Destroy(i) => DestroyKeeps(s, i);
    case CancelNext(i) => CancelNextKeeps(s, i);
    case CountNext(i) => CountNextKeeps(s, i);
    case FinishSeries(i) => FinishSeriesKeeps(s, i);
    case UserCancel(i) => UserCancelKeeps(s, i);
  }

  /* ---------- whole runs ---------- */

  // `s` can be reached from `Init` by performing `run`.
  ghost predicate Reaches(run: seq<Action>, s: State)
    decreases |run|
  {
    Shaped(s) &&
    if run == [] then s == Init()
    else exists t: State | Shaped(t) && Enabled(t, run[|run| - 1]) ::
      Reaches(run[..|run| - 1], t) && s == Apply(t, run[|run| - 1])
  }

  lemma {:induction false} EveryRunKeepsInv(run: seq<Action>, s: State)
    requires Reaches(run, s)
    ensures Inv(s)
    decreases |run|
  {
    if run != [] {
      var t :| Shaped(t) && Enabled(t, run[|run| - 1]) && Reaches(run[..|run| - 1], t) && s == Apply(t, run[|run| - 1]);
      EveryRunKeepsInv(run[..|run| - 1], t);
      StepKeepsInv(t, run[|run| - 1]);
    }
  }

  // In every interleaving a task is started at most once, and only when every predecessor has
  // finished and counted it.
  lemma TasksRunInOrder(run: seq<Action>, s: State, k: nat, j: nat)
    requires Reaches(run, s) && k < |s.phase| && j < |s.phase| && j in s.succs[k]
    ensures s.runs[j] <= 1
    ensures s.runs[j] == 1 ==> (s.phase[k].Counting? || s.phase[k].Done?) && j !in Uncounted(s, k)
  {
    EveryRunKeepsInv(run, s);
    if s.runs[j] == 1 {
      var m :| 0 <= m < |s.succs[k]| && s.succs[k][m] == j;
      AllCountedAt(s, k, m, j);
    }
  }

  // A node that still waits has a counter equal to the number of edges into it that have not
  // been counted, plus one for the dispatch loop: each edge is counted exactly once.
  lemma CountersAreExact(run: seq<Action>, s: State, j: nat)
    requires Reaches(run, s) && j < |s.phase|
    ensures s.phase[j].Waiting? <==> s.next <= j || Total(AllUncounted(s), j) > 0
    ensures s.phase[j].Waiting? ==> s.value[j] == (if j < s.next then 0 else 1) + Total(AllUncounted(s), j)
  {
    EveryRunKeepsInv(run, s);
  }

  lemma {:induction false} OpenZero(p: seq<Phase>)
    ensures Open(p) == 0 <==> forall i :: 0 <= i < |p| ==> p[i].Done?
  {
    if p != [] {
      OpenZero(p[1..]);
      assert forall i :: 0 < i < |p| ==> p[i] == p[1..][i - 1];
    }
  }

  // The parallel task is done once all series are done, and only once.
  lemma DoneOnce(run: seq<Action>, s: State)
    requires Reaches(run, s) && s.started
    ensures s.finished == if (forall i :: 0 <= i < |s.phase| ==> s.phase[i].Done?) then 1 else 0
  {
    EveryRunKeepsInv(run, s);
    OpenZero(s.phase);
  }

  // The node whose fields or series a step reads or writes.
  predicate Touches(s: State, a: Action, j: nat)
    requires Enabled(s, a)
  {
    match a
    case DispatchNode => j == s.next
    case FirstDone(i) => j == i
    case FinishTask(i) => j == i
    case Destroy(i) => j == i
    case CancelNext(i) => s.phase[i].rest != [] && j == s.phase[i].rest[0]
    case CountNext(i) => j == s.phase[i].rest[0]
    case _ => false
  }

  // No step touches a node that has been destroyed, nor a series after the parallel task is done
  // and has deleted all of them: the successor that a destructor cancels or counts is still waiting.
  lemma OnlyLiveObjects(run: seq<Action>, s: State, a: Action, j: nat)
    requires Reaches(run, s) && Enabled(s, a) && Touches(s, a, j)
    ensures j < |s.phase| && !Destroyed(s.phase[j]) && s.finished == 0
    ensures a.DispatchNode? || a.CancelNext? || a.CountNext? ==> s.phase[j].Waiting?
  {
    EveryRunKeepsInv(run, s);
    hide Cancels, Runs, Total, AllUncounted, Open, InRange;
    match a {
      case DispatchNode => OpenAt(s.phase, j);
      case CancelNext(i) =>
        CancelsWaiting(s, i);
        OpenAt(s.phase, i);
      case CountNext(i) =>
        NextWaits(s, i);
        OpenAt(s.phase, i);
      case _ => OpenAt(s.phase, j);
    }
  }

  lemma CancelsWaiting(s: State, i: nat)
    requires Inv(s) && Enabled(s, CancelNext(i)) && s.phase[i].rest != []
    ensures s.phase[i].rest[0] < |s.phase| && s.phase[s.phase[i].rest[0]].Waiting?
  {
    assert IsSuffix(s, i);
    WaitsFor(s, i, |s.succs[i]| - |s.phase[i].rest|);
  }

  lemma {:induction false} OpenAt(p: seq<Phase>, i: nat)
    requires i < |p| && !p[i].Done?
    ensures Open(p) > 0
  {
    if i > 0 { OpenAt(p[1..], i - 1); }
  }

  /* ---------- cancellation ---------- */

  ghost predicate IsPath(s: State, path: seq<nat>)
    requires Shaped(s)
  {
    && path != [] && InRange(path, |s.phase|)
    && forall k :: 0 <= k < |path| - 1 ==> path[k + 1] in s.succs[path[k]]
  }

  // Below a node that has not been destroyed, everything waits.
  lemma {:induction false} NothingRunsBelow(s: State, path: seq<nat>)
    requires Inv(s) && IsPath(s, path) && |path| > 1 && !Destroyed(s.phase[path[0]])
    ensures s.runs[path[|path| - 1]] == 0
    decreases |path|
  {
    var l := s.succs[path[0]];
    assert path[1] in l;
    var m :| 0 <= m < |l| && l[m] == path[1];
    WaitsFor(s, path[0], m);
    if |path| > 2 {
      assert IsPath(s, path[1..]);
      NothingRunsBelow(s, path[1..]);
    }
  }

  lemma {:induction false} CanceledBelow(s: State, path: seq<nat>)
    requires Inv(s) && IsPath(s, path) && |path| > 1 && s.noticed[path[0]]
    ensures s.runs[path[|path| - 1]] == 0
    decreases |path|
  {
    var l := s.succs[path[0]];
    assert path[1] in l;
    var m :| 0 <= m < |l| && l[m] == path[1];
    assert Passed(s, path[0], m, l[m]);
    if |path| > 2 {
      assert IsPath(s, path[1..]);
      if s.noticed[path[1]] {
        CanceledBelow(s, path[1..]);
      } else {
        NothingRunsBelow(s, path[1..]);
      }
    }
  }

  // If a node's series is canceled by the time the node is destroyed, then the task of no
  // transitive successor ever runs.
  lemma CanceledSuccessorsNeverRun(run: seq<Action>, s: State, path: seq<nat>)
    requires Reaches(run, s) && IsPath(s, path) && |path| > 1 && s.noticed[path[0]]
    ensures s.runs[path[|path| - 1]] == 0
  {
    EveryRunKeepsInv(run, s);
    CanceledBelow(s, path);
  }

  /* ---------- completion ---------- */

  // `rank` shows that the graph has no cycle.
  ghost predicate Ranks(s: State, rank: seq<nat>)
    requires Shaped(s)
  {
    |rank| == |s.phase| && forall i, j :: 0 <= i < |s.phase| && j in s.succs[i] && j < |s.phase| ==> rank[i] < rank[j]
  }

  // Some thread can go on as long as a node is not done.
  lemma {:induction false} SomeoneMovesFrom(s: State, rank: seq<nat>, j: nat) returns (a: Action)
    requires Inv(s) && s.started && s.next == |s.phase| && Ranks(s, rank)
    requires j < |s.phase| && !s.phase[j].Done?
    ensures Enabled(s, a) && !a.UserCancel?
    decreases rank[j]
  {
    match s.phase[j]
    case Starting => a := FirstDone(j);
    case Running => a := FinishTask(j);
    case Leaving => a := Destroy(j);
    case Cancelling(_) => a := CancelNext(j);
    case Counting(r) => a := if r == [] then FinishSeries(j) else CountNext(j);
    case Waiting =>
      var i := TotalWitness(AllUncounted(s), j);
      assert IsSuffix(s, i) && j in s.succs[i];
      a := SomeoneMovesFrom(s, rank, i);
  }

  function Weight(p: Phase, n: nat): nat {
    match p
    case Waiting => 2 * n + 6
    case Starting => 2 * n + 5
    case Running => 2 * n + 4
    case Leaving => 2 * n + 3
    case Cancelling(r) => n + |r| + 2
    case Counting(r) => |r| + 1
    case Done => 0
  }

  function Weights(p: seq<Phase>, l: seq<seq<nat>>): nat
    requires |p| == |l|
  {
    if p == [] then 0 else Weight(p[0], |l[0]|) + Weights(p[1..], l[1..])
  }

  lemma {:induction false} WeightsUpdate(p: seq<Phase>, l: seq<seq<nat>>, i: nat, q: Phase)
    requires |p| == |l| && i < |p|
    ensures Weights(p[i := q], l) == Weights(p, l) - Weight(p[i], |l[i]|) + Weight(q, |l[i]|)
  {
    if i == 0 {
      assert p[0 := q][1..] == p[1..];
    } else {
      assert p[i := q][1..] == p[1..][i - 1 := q];
      WeightsUpdate(p[1..], l[1..], i - 1, q);
    }
  }

  // What is left to do in a dispatched graph.
  function Work(s: State): nat
    requires Shaped(s) && s.next <= |s.phase|
  {
    |s.phase| - s.next + Weights(s.phase, s.succs)
  }

  lemma NodeDoesWork(s: State, i: nat, t: State)
    requires Inv(s) && i < |s.phase| && Shaped(t) && t.succs == s.succs && t.next == s.next
    requires |t.phase| == |s.phase| && t.phase == s.phase[i := t.phase[i]]
    requires Weight(t.phase[i], |s.succs[i]|) < Weight(s.phase[i], |s.succs[i]|)
    ensures Work(t) < Work(s)
  {
    WeightsUpdate(s.phase, s.succs, i, t.phase[i]);
  }

  lemma DispatchDoesWork(s: State)
    requires Inv(s) && Enabled(s, DispatchNode)
    ensures Shaped(Apply(s, DispatchNode)) && Work(Apply(s, DispatchNode)) < Work(s)
  {
    DispatchNodeKeeps(s);
    WeightsUpdate(s.phase, s.succs, s.next, Starting);
    hide Counters, Runs, Cancels;
  }

  lemma CountDoesWork(s: State, i: nat)
    requires Inv(s) && Enabled(s, CountNext(i))
    ensures Shaped(Apply(s, CountNext(i))) && Work(Apply(s, CountNext(i))) < Work(s)
  {
    CountNextShaped(s, i);
    var r := s.phase[i].rest;
    WeightsUpdate(s.phase, s.succs, i, Counting(r[1..]));
    WeightsUpdate(s.phase[i := Counting(r[1..])], s.succs, r[0], Starting);
    hide Counters, Runs, Cancels;
  }

  lemma FirstDoneDoesWork(s: State, i: nat)
    requires Inv(s) && Enabled(s, FirstDone(i)) && Inv(Apply(s, FirstDone(i)))
    ensures Work(Apply(s, FirstDone(i))) < Work(s)
  {
    hide Counters, Runs, Cancels, Weights;
    NodeDoesWork(s, i, Apply(s, FirstDone(i)));
  }

  lemma FinishTaskDoesWork(s: State, i: nat)
    requires Inv(s) && Enabled(s, FinishTask(i)) && Inv(Apply(s, FinishTask(i)))
    ensures Work(Apply(s, FinishTask(i))) < Work(s)
  {
    hide Counters, Runs, Cancels, Weights;
    NodeDoesWork(s, i, Apply(s, FinishTask(i)));
  }

  lemma DestroyDoesWork(s: State, i: nat)
    requires Inv(s) && Enabled(s, Destroy(i)) && Inv(Apply(s, Destroy(i)))
    ensures Work(Apply(s, Destroy(i))) < Work(s)
  {
    hide Counters, Runs, Cancels, Weights;
    NodeDoesWork(s, i, Apply(s, Destroy(i)));
  }

  lemma CancelNextDoesWork(s: State, i: nat)
    requires Inv(s) && Enabled(s, CancelNext(i)) && Inv(Apply(s, CancelNext(i)))
    ensures Work(Apply(s, CancelNext(i))) < Work(s)
  {
    hide Counters, Runs, Cancels, Weights;
    NodeDoesWork(s, i, Apply(s, CancelNext(i)));
  }

  lemma FinishSeriesDoesWork(s: State, i: nat)
    requires Inv(s) && Enabled(s, FinishSeries(i)) && Inv(Apply(s, FinishSeries(i)))
    ensures Work(Apply(s, FinishSeries(i))) < Work(s)
  {
    hide Counters, Runs, Cancels, Weights;
    NodeDoesWork(s, i, Apply(s, FinishSeries(i)));
  }

  lemma StepDoesWork(s: State, a: Action)
    requires Inv(s) && Enabled(s, a) && s.started
    ensures Inv(Apply(s, a)) && Apply(s, a).started
    ensures Work(Apply(s, a)) <= Work(s)
    ensures !a.UserCancel? ==> Work(Apply(s, a)) < Work(s)
  {
    StepKeepsInv(s, a);
    assert Apply(s, a).started;
    assert a.UserCancel? ==> Work(Apply(s, a)) == Work(s);
    hide Counters, Runs, Cancels, Weights, Apply, Work;
    match a
    case DispatchNode => DispatchDoesWork(s);
    case CountNext(i) => CountDoesWork(s, i);
    case FirstDone(i) => FirstDoneDoesWork(s, i);
    case FinishTask(i) => FinishTaskDoesWork(s, i);
    case Destroy(i) => DestroyDoesWork(s, i);
    case CancelNext(i) => CancelNextDoesWork(s, i);
    case FinishSeries(i) => FinishSeriesDoesWork(s, i);
    case UserCancel(_) =>
  }

  // In an acyclic graph that has been dispatched, every run comes to an end, and it can only
  // end with all series done and the parallel task finished exactly once.
  lemma Completes(run: seq<Action>, s: State, rank: seq<nat>)
    requires Reaches(run, s) && s.started && Shaped(s) && Ranks(s, rank)
    requires forall a :: Enabled(s, a) ==> a.UserCancel?
    ensures s.finished == 1 && forall i :: 0 <= i < |s.phase| ==> s.phase[i].Done?
  {
    EveryRunKeepsInv(run, s);
    OpenZero(s.phase);
    if s.next < |s.phase| {
      assert Enabled(s, DispatchNode);
    } else {
      forall i | 0 <= i < |s.phase|
        ensures s.phase[i].Done?
      {
        if !s.phase[i].Done? {
          var a := SomeoneMovesFrom(s, rank, i);
        }
      }
    }
  }

  function RealSteps(run: seq<Action>): nat {
    if run == [] then 0 else (if run[0].UserCancel? then 0 else 1) + RealSteps(run[1..])
  }

  // `run` leads from `s` to `t`.
  ghost predicate Leads(s: State, run: seq<Action>, t: State)
    decreases |run|
  {
    if run == [] then t == s
    else Shaped(s) && Enabled(s, run[0]) && Leads(Apply(s, run[0]), run[1..], t)
  }

  lemma {:induction false} RunsEnd(s: State, run: seq<Action>, t: State)
    requires Inv(s) && s.started && Leads(s, run, t)
    ensures RealSteps(run) <= Work(s)
    decreases |run|
  {
    if run != [] {
      StepDoesWork(s, run[0]);
      RunsEnd(Apply(s, run[0]), run[1..], t);
    }
  }

  /* ---------- what does run ---------- */

  // A node that has left its task behind has run it, or its series is canceled; and a destructor
  // notices exactly that.
  ghost predicate Accounted(s: State)
    requires Shaped(s)
  {
    && (forall j :: 0 <= j < |s.phase| && (s.phase[j].Leaving? || Destroyed(s.phase[j])) ==>
      s.runs[j] == 1 || s.canceled[j])
    && (forall j :: 0 <= j < |s.phase| && s.noticed[j] ==> s.canceled[j])
    && (forall j :: 0 <= j < |s.phase| && s.phase[j].Leaving? ==> s.value[j] == 0 || s.canceled[j])
  }

  // Nodes other than `i` and `j` stay as they are, and no series is un-canceled.
  ghost predicate Beside(s: State, t: State, i: nat, j: nat)
    requires Shaped(s) && Shaped(t)
  {
    && |t.phase| == |s.phase| && i < |s.phase| && j < |s.phase|
    && (forall k :: 0 <= k < |s.phase| && k != i && k != j ==>
      t.phase[k] == s.phase[k] && t.runs[k] == s.runs[k] && t.noticed[k] == s.noticed[k] && t.value[k] == s.value[k])
    && (forall k :: 0 <= k < |s.phase| && s.canceled[k] ==> t.canceled[k])
  }

  ghost predicate AccountedAt(s: State, j: nat)
    requires Shaped(s) && j < |s.phase|
  {
    && (s.phase[j].Leaving? || Destroyed(s.phase[j]) ==> s.runs[j] == 1 || s.canceled[j])
    && (s.noticed[j] ==> s.canceled[j])
    && (s.phase[j].Leaving? ==> s.value[j] == 0 || s.canceled[j])
  }

  lemma AccountsBeside(s: State, t: State, i: nat, j: nat)
    requires Shaped(s) && Shaped(t) && Accounted(s) && Beside(s, t, i, j) && AccountedAt(t, i) && AccountedAt(t, j)
    ensures Accounted(t)
  {
    hide Shaped;
  }

  // The node that counts, or cancels, and its successor.
  lemma DestructorAccounts(s: State, a: Action)
    requires Inv(s) && Accounted(s) && Enabled(s, a) && Shaped(Apply(s, a)) && (a.CancelNext? || a.CountNext?)
    ensures Accounted(Apply(s, a))
  {
    var i, t := a.node, Apply(s, a);
    var r := s.phase[i].rest;
    assert IsSuffix(s, i);
    if a.CountNext? { NextWaits(s, i); }
    hide Counters, Join, Cancels, Runs, Inv;
    AccountsBeside(s, t, i, if r == [] then i else r[0]);
  }

  lemma NodeAccounts(s: State, a: Action)
    requires Inv(s) && Accounted(s) && Enabled(s, a) && Shaped(Apply(s, a))
    requires a.FirstDone? || a.FinishTask? || a.Destroy? || a.FinishSeries? || a.UserCancel?
    ensures Accounted(Apply(s, a))
  {
    hide Counters, Join, Cancels, Total, AllUncounted, Open, IsSuffix, InRange;
    AccountsBeside(s, Apply(s, a), a.node, a.node);
  }

  lemma BuildingAccounts(s: State, a: Action)
    requires Inv(s) && Accounted(s) && Enabled(s, a) && Shaped(Apply(s, a))
    requires a.CreateNode? || a.Precede? || a.Dispatch? || a.DispatchNode?
    ensures Accounted(Apply(s, a))
  {
    hide Cancels, Total, AllUncounted, Open, IsSuffix, InRange, Runs;
    if a.DispatchNode? { AccountsBeside(s, Apply(s, a), s.next, s.next); }
    if a.Precede? { AccountsBeside(s, Apply(s, a), a.to, a.to); }
  }

  lemma StepAccounts(s: State, a: Action)
    requires Inv(s) && Accounted(s) && Enabled(s, a)
    ensures Shaped(Apply(s, a)) && Accounted(Apply(s, a))
  {
    StepKeepsInv(s, a);
    assert Shaped(s) && Shaped(Apply(s, a));
    hide Apply, Inv, Shaped, Enabled, Accounted;
    if a.CancelNext? || a.CountNext? {
      DestructorAccounts(s, a);
    } else if a.CreateNode? || a.Precede? || a.Dispatch? || a.DispatchNode? {
      BuildingAccounts(s, a);
    } else {
      NodeAccounts(s, a);
    }
  }

  // The last step of a run.
  lemma LastStep(run: seq<Action>, s: State) returns (t: State)
    requires Reaches(run, s) && run != []
    ensures Shaped(t) && Enabled(t, run[|run| - 1]) && Reaches(run[..|run| - 1], t) && s == Apply(t, run[|run| - 1])
    ensures Inv(t)
  {
    t :| Shaped(t) && Enabled(t, run[|run| - 1]) && Reaches(run[..|run| - 1], t) && s == Apply(t, run[|run| - 1]);
    EveryRunKeepsInv(run[..|run| - 1], t);
  }

  lemma {:induction false} EveryRunAccounts(run: seq<Action>, s: State)
    requires Reaches(run, s)
    ensures Accounted(s)
    decreases |run|
  {
    if run != [] {
      var t := LastStep(run, s);
      EveryRunAccounts(run[..|run| - 1], t);
      StepAccounts(t, run[|run| - 1]);
    }
  }

  // The successors that a run gave to node `i`.
  function Edges(run: seq<Action>, i: nat): seq<nat> {
    if run == [] then []
    else
      var l, a := Edges(run[..|run| - 1], i), run[|run| - 1];
      if a.Precede? && a.from == i then l + [a.to] else l
  }

  function Creations(run: seq<Action>): nat {
    if run == [] then 0
    else Creations(run[..|run| - 1]) + if run[|run| - 1].CreateNode? then 1 else 0
  }

  // The graph is the one that was built: no node and no edge is lost or made up.
  lemma {:induction false} GraphIsBuilt(run: seq<Action>, s: State)
    requires Reaches(run, s)
    ensures |s.phase| == Creations(run)
    ensures forall i :: 0 <= i < |s.phase| ==> s.succs[i] == Edges(run, i)
    ensures forall i :: i >= |s.phase| ==> Edges(run, i) == []
    decreases |run|
  {
    if run != [] {
      var t := LastStep(run, s);
      GraphIsBuilt(run[..|run| - 1], t);
      SameGraph(t, run[|run| - 1]);
    }
  }

  lemma SameGraph(s: State, a: Action)
    requires Shaped(s) && Enabled(s, a)
    ensures var t := Apply(s, a);
      && |t.phase| == |s.phase| + (if a.CreateNode? then 1 else 0)
      && t.succs == (match a
           case CreateNode => s.succs + [[]]
           case Precede(i, j) => s.succs[i := s.succs[i] + [j]]
           case _ => s.succs)
  {
    if a.CancelNext? || a.CountNext? { assert IsSuffix(s, a.node); }
  }

  lemma PathStays(s: State, a: Action, path: seq<nat>)
    requires Inv(s) && Enabled(s, a) && IsPath(s, path) && Shaped(Apply(s, a))
    ensures IsPath(Apply(s, a), path)
  {
    var t := Apply(s, a);
    SameGraph(s, a);
    hide Apply, Inv, Enabled, Shaped;
    forall k | 0 <= k < |path| - 1
      ensures path[k + 1] in t.succs[path[k]]
    {
      assert path[k + 1] in s.succs[path[k]];
    }
  }

  lemma OneIsPath(s: State, j: nat)
    requires Shaped(s)
    ensures j < |s.phase| ==> IsPath(s, [j])
  {
  }

  lemma PathOn(s: State, path: seq<nat>, j: nat)
    requires Shaped(s) && IsPath(s, path) && j < |s.phase| && j in s.succs[path[|path| - 1]]
    ensures IsPath(s, path + [j])
  {
    var l := path + [j];
    forall k | 0 <= k < |l| - 1
      ensures l[k + 1] in s.succs[l[k]]
    {
      if k < |path| - 1 { assert path[k + 1] in s.succs[path[k]]; }
    }
  }

  lemma CanceledBy(s: State, a: Action, j: nat)
    requires Inv(s) && Accounted(s) && Enabled(s, a) && Shaped(Apply(s, a)) && a != UserCancel(j)
    requires j < |Apply(s, a).phase| && Apply(s, a).canceled[j] && !(j < |s.phase| && s.canceled[j])
    ensures a.CancelNext? && j in s.succs[a.node] && s.canceled[a.node] && j < |s.phase|
  {
    if a.CancelNext? { assert IsSuffix(s, a.node); }
    hide Counters, Join, Runs, Total, AllUncounted, Open;
  }

  // A series is canceled only because the user canceled it, or one before it on a path.
  lemma {:induction false} CancelHasCause(run: seq<Action>, s: State, j: nat) returns (path: seq<nat>)
    requires Reaches(run, s) && j < |s.phase| && s.canceled[j]
    ensures IsPath(s, path) && path[|path| - 1] == j && UserCancel(path[0]) in run
    decreases |run|
  {
    assert run != [];
    var t := LastStep(run, s);
    var a := run[|run| - 1];
    assert Shaped(t) && (a == UserCancel(j) ==> j < |t.phase|);
    OneIsPath(t, j);
    hide Apply, Enabled, Accounted, IsPath, Shaped, Counters, Runs, Join, Cancels;
    if j < |t.phase| && t.canceled[j] {
      path := CancelHasCause(run[..|run| - 1], t, j);
      PathStays(t, a, path);
    } else if a == UserCancel(j) {
      path := [j];
      PathStays(t, a, path);
    } else {
      EveryRunAccounts(run[..|run| - 1], t);
      CanceledBy(t, a, j);
      path := CancelHasCause(run[..|run| - 1], t, a.node);
      PathOn(t, path, j);
      path := path + [j];
      PathStays(t, a, path);
    }
  }

  // When an acyclic graph has come to rest, every task has run, exactly once, except those that the
  // user canceled and those that come after them.
  lemma RestMeansRun(run: seq<Action>, s: State, rank: seq<nat>, j: nat) returns (path: seq<nat>)
    requires Reaches(run, s) && s.started && Shaped(s) && Ranks(s, rank) && j < |s.phase|
    requires forall a :: Enabled(s, a) ==> a.UserCancel?
    ensures s.runs[j] == 1 || (IsPath(s, path) && path[|path| - 1] == j && UserCancel(path[0]) in run)
  {
    Completes(run, s, rank);
    EveryRunAccounts(run, s);
    EveryRunKeepsInv(run, s);
    path := [];
    if s.canceled[j] {
      path := CancelHasCause(run, s, j);
    }
  }

  // In particular, if nobody cancels anything, every task runs once.
  lemma EverythingRuns(run: seq<Action>, s: State, rank: seq<nat>)
    requires Reaches(run, s) && s.started && Shaped(s) && Ranks(s, rank)
    requires forall a :: Enabled(s, a) ==> a.UserCancel?
    requires forall i :: UserCancel(i) !in run
    ensures forall j :: 0 <= j < |s.phase| ==> s.runs[j] == 1
  {
    forall j: nat | j < |s.phase|
      ensures s.runs[j] == 1
    {
      var path := RestMeansRun(run, s, rank, j);
    }
  }

  // From the moment the user cancels a node that has not been destroyed.
  ghost predicate CancelSeen(s: State, i: nat)
    requires Shaped(s)
  {
    i < |s.phase| && s.canceled[i] && (Destroyed(s.phase[i]) ==> s.noticed[i])
  }

  lemma DestructorStaysSeen(s: State, a: Action, i: nat)
    requires Inv(s) && Enabled(s, a) && CancelSeen(s, i) && Shaped(Apply(s, a)) && (a.CancelNext? || a.CountNext?)
    ensures CancelSeen(Apply(s, a), i)
  {
    assert IsSuffix(s, a.node);
    if a.CountNext? { NextWaits(s, a.node); }
    if s.phase[i].Cancelling? { assert s.noticed[i]; }
    hide Counters, Join, Cancels, IsSuffix, InRange, Runs, Total, AllUncounted, Open;
  }

  lemma OtherStaysSeen(s: State, a: Action, i: nat)
    requires Inv(s) && Enabled(s, a) && CancelSeen(s, i) && Shaped(Apply(s, a)) && !a.CancelNext? && !a.CountNext?
    ensures CancelSeen(Apply(s, a), i)
  {
    hide Counters, Join, Cancels, IsSuffix, InRange, Runs, Total, AllUncounted, Open;
  }

  lemma CancelStaysSeen(s: State, a: Action, i: nat)
    requires Inv(s) && Enabled(s, a) && CancelSeen(s, i)
    ensures Inv(Apply(s, a)) && CancelSeen(Apply(s, a), i)
  {
    StepKeepsInv(s, a);
    if a.CancelNext? || a.CountNext? {
      DestructorStaysSeen(s, a, i);
    } else {
      OtherStaysSeen(s, a, i);
    }
    hide Apply, Enabled, CancelSeen, Counters, Join, Cancels, Runs;
  }

  lemma {:induction false} CancelReaches(s: State, run: seq<Action>, t: State, i: nat)
    requires Inv(s) && CancelSeen(s, i) && Leads(s, run, t)
    ensures Inv(t) && CancelSeen(t, i)
    decreases |run|
  {
    if run != [] {
      CancelStaysSeen(s, run[0], i);
      CancelReaches(Apply(s, run[0]), run[1..], t, i);
    }
  }

  // If the user cancels the series of a node that has not been destroyed, the task of no transitive
  // successor ever runs.
  lemma UserCancelStopsSuccessors(before: seq<Action>, s: State, i: nat, run: seq<Action>, t: State, path: seq<nat>)
    requires Reaches(before, s) && Enabled(s, UserCancel(i)) && !Destroyed(s.phase[i])
    requires Leads(Apply(s, UserCancel(i)), run, t) && Shaped(t)
    requires IsPath(t, path) && |path| > 1 && path[0] == i
    ensures t.runs[path[|path| - 1]] == 0
  {
    EveryRunKeepsInv(before, s);
    StepKeepsInv(s, UserCancel(i));
    CancelReaches(Apply(s, UserCancel(i)), run, t, i);
    if Destroyed(t.phase[i]) {
      CanceledBelow(t, path);
    } else {
      NothingRunsBelow(t, path);
    }
  }
}
