/**
 What the steps of SubTasks do to a series, whatever happens in between: its tasks run one after
 another, in the order that the pushes give them, and every one of them that is done has run.
 */
module SubTaskOrder {
  import opened SubTasks

  /* ---------- the order of a series ---------- */

  ghost predicate Before(q: seq<int>, t: int, v: int) {
    exists i, j :: 0 <= i < j < |q| && q[i] == t && q[j] == v
  }

  // Of two tasks of one series, `t` comes first: it is done, or it is the task the series is at
  // while `v` is in the queue, or it is ahead of `v` in the queue.
  ghost predicate Precedes(s: State, t: int, v: int) {
    && Has(|s.tasks|, t) && Has(|s.tasks|, v) && t != v
    && s.tasks[t].home == s.tasks[v].home && Has(|s.series|, s.tasks[t].home)
    && (s.tasks[t].dones > 0
        || (v in s.series[s.tasks[t].home].queue && t !in s.series[s.tasks[t].home].queue)
        || Before(s.series[s.tasks[t].home].queue, t, v))
  }

  lemma QueueTakes(q: seq<int>, t: int, front: bool, v: int)
    requires t != v
    ensures var p := if front then [t] + q else q + [t];
      t in p && (v in p <==> v in q) && (v in q ==> if front then Before(p, t, v) else Before(p, v, t))
  {
    var p, k := if front then [t] + q else q + [t], if front then 1 else 0;
    assert p[if front then 0 else |q|] == t;
    if v in q {
      var i :| 0 <= i < |q| && q[i] == v;
      assert p[i + k] == v;
    }
  }

  // A pushed task is in the series; with push_back it comes after everything that was there, with
  // push_front after the task the series is at and before everything in the queue.
  lemma PushTakesPlace(s: State, w: int, t: int, front: bool, v: int)
    requires Inv(s) && Enabled(s, Push(w, t, front)) && Has(|s.tasks|, v) && s.tasks[v].home == w && v != t
    ensures var u := Apply(s, Push(w, t, front));
      && |u.tasks| == |s.tasks| && u.tasks[t].home == w && u.tasks[t].dones == 0
      && (if front && v in s.series[w].queue then Precedes(u, t, v) else Precedes(u, v, t))
  {
    var u := Apply(s, Push(w, t, front));
    TaskFacts(s, t);
    TaskFacts(s, v);
    SeriesFacts(s, w);
    hide Shape, AllSeries, AllTasks, AllJobs, AllCarried;
    hide Before;
    QueueTakes(s.series[w].queue, t, front, v);
  }

  lemma QueueGrows(q: seq<int>, x: int, front: bool, t: int, v: int)
    requires x != t && x != v
    ensures var p := if front then [x] + q else q + [x];
      && (t in p <==> t in q) && (v in p <==> v in q) && (Before(q, t, v) ==> Before(p, t, v))
  {
    var p, k := if front then [x] + q else q + [x], if front then 1 else 0;
    assert forall i :: 0 <= i < |q| ==> p[i + k] == q[i];
    if Before(q, t, v) {
      var i, j :| 0 <= i < j < |q| && q[i] == t && q[j] == v;
      assert p[i + k] == t && p[j + k] == v;
    }
  }

  lemma PushKeepsOrder(s: State, w: int, x: int, front: bool, t: int, v: int)
    requires Inv(s) && Enabled(s, Push(w, x, front)) && Precedes(s, t, v)
    ensures Precedes(Apply(s, Push(w, x, front)), t, v)
  {
    var u, h := Apply(s, Push(w, x, front)), s.tasks[t].home;
    TaskFacts(s, x);
    hide Shape, AllSeries, AllTasks, AllJobs, AllCarried;
    assert x != t && x != v && u.tasks[t] == s.tasks[t] && u.tasks[v] == s.tasks[v];
    hide Before;
    if s.tasks[t].dones == 0 && h == w { QueueGrows(s.series[w].queue, x, front, t, v); }
  }

  lemma DoneKeepsOrder(s: State, i: int, t: int, v: int)
    requires Inv(s) && Enabled(s, Run(i)) && s.jobs[i].Finish? && Precedes(s, t, v)
    ensures Precedes(Apply(s, Run(i)), t, v)
  {
    var u, h, x := Apply(s, Run(i)), s.tasks[t].home, s.jobs[i].task;
    JobFacts(s, i);
    TaskFacts(s, t);
    SeriesFacts(s, h);
    hide Shape, AllSeries, AllTasks, AllJobs, AllCarried;
    var q, p := s.series[h].queue, u.series[h].queue;
    if s.tasks[t].dones > 0 || s.tasks[x].home != h {
    } else if Before(q, t, v) {
      var a, b :| 0 <= a < b < |q| && q[a] == t && q[b] == v;
      assert p == q[1..] && p[b - 1] == v;
      if a == 0 {
        assert t !in p;
      } else {
        assert p[a - 1] == t;
      }
    } else {
      assert x == t;
    }
  }

  lemma StepKeepsOrder(s: State, a: Action, t: int, v: int)
    requires Inv(s) && Enabled(s, a) && Precedes(s, t, v)
    ensures Precedes(Apply(s, a), t, v)
  {
    match a
    case Push(w, x, front) => PushKeepsOrder(s, w, x, front, t, v);
    case Start(_) => hide Shape, AllSeries, AllTasks, AllJobs, AllCarried, Before;
    case Run(i) =>
      if s.jobs[i].Finish? {
        DoneKeepsOrder(s, i, t, v);
      } else {
        JobFacts(s, i);
        hide Shape, AllSeries, AllTasks, AllJobs, AllCarried, Before;
      }
  }

  lemma {:induction false} RunKeepsOrder(s: State, run: seq<Action>, u: State, t: int, v: int)
    requires Inv(s) && Precedes(s, t, v) && Leads(s, run, u)
    ensures Inv(u) && Precedes(u, t, v)
    decreases |run|
  {
    if run != [] {
      StepKeepsOrder(s, run[0], t, v);
      StepKeepsInv(s, run[0]);
      RunKeepsOrder(Apply(s, run[0]), run[1..], u, t, v);
    }
  }

  // Once `t` comes before `v`, no step ever turns them round, and when a thread has `v` in hand
  // the `done` of `t` has been called.
  lemma OneAfterAnother(s0: State, before: seq<Action>, s: State, run: seq<Action>, u: State, i: int, t: int, v: int)
    requires Reached(s0, before, s) && Precedes(s, t, v) && Leads(s, run, u)
    ensures Precedes(u, t, v)
    ensures Has(|u.jobs|, i) && JobTask(u.jobs[i]) == v ==> u.tasks[t].dones == 1
  {
    InitInv(s0);
    EveryRunKeepsInv(s0, before, s);
    RunKeepsOrder(s, run, u, t, v);
    if Has(|u.jobs|, i) && JobTask(u.jobs[i]) == v {
      JobFacts(u, i);
      TaskFacts(u, t);
      SeriesFacts(u, u.tasks[v].home);
      hide Shape, AllSeries, AllTasks, AllJobs, AllCarried;
      assert v !in u.series[u.tasks[v].home].queue;
    }
  }

  /* ---------- every task that is done has run ---------- */

  // How often the task itself, not being a parallel task, ran in the course of the run.
  function Runs(s: State, run: seq<Action>, t: int): nat
    decreases |run|
  {
    if run == [] || !(Named(s) && Enabled(s, run[0])) then 0
    else
      var a := run[0];
      (if a.Run? && s.jobs[a.thread] == Leaf(t) then 1 else 0) + Runs(Apply(s, a), run[1..], t)
  }

  ghost predicate HasRun(s: State, t: int) {
    Has(|s.tasks|, t) && (s.tasks[t].dones > 0 || Finish(t) in s.jobs)
  }

  lemma StepRuns(s: State, a: Action, t: int)
    requires Inv(s) && Enabled(s, a) && Has(|s.tasks|, t) && !s.tasks[t].par
    ensures var u := Apply(s, a);
      && |u.tasks| == |s.tasks| && !u.tasks[t].par
      && (a.Run? && s.jobs[a.thread] == Leaf(t) ==> !HasRun(s, t) && HasRun(u, t))
      && (!(a.Run? && s.jobs[a.thread] == Leaf(t)) ==> (HasRun(u, t) <==> HasRun(s, t)))
  {
    var u := Apply(s, a);
    TaskFacts(s, t);
    match a
    case Start(_) => JobJoins(s.jobs, u.jobs, t);
    case Push(_, _, _) =>
    case Run(i) =>
      JobFacts(s, i);
      RunRuns(s, i, t);
  }

  lemma JobJoins(jobs: seq<Job>, joined: seq<Job>, t: int)
    requires |joined| == |jobs| + 1 && joined[..|jobs|] == jobs && !joined[|jobs|].Finish?
    ensures Finish(t) in joined <==> Finish(t) in jobs
  {
    if Finish(t) in jobs {
      var i :| 0 <= i < |jobs| && jobs[i] == Finish(t);
      assert joined[i] == Finish(t);
    }
  }

  lemma JobMoves(jobs: seq<Job>, i: int, j: Job, t: int)
    requires 0 <= i < |jobs| && (jobs[i] != Finish(t) <==> j != Finish(t))
    ensures Finish(t) in jobs[i := j] <==> Finish(t) in jobs
  {
    var moved := jobs[i := j];
    if Finish(t) in jobs {
      var k :| 0 <= k < |jobs| && jobs[k] == Finish(t);
      assert moved[k] == Finish(t);
    }
  }

  lemma RunRuns(s: State, i: int, t: int)
    requires Inv(s) && Enabled(s, Run(i)) && Has(|s.tasks|, t) && !s.tasks[t].par
    ensures var u := Apply(s, Run(i));
      && |u.tasks| == |s.tasks| && !u.tasks[t].par
      && (s.jobs[i] == Leaf(t) ==> !HasRun(s, t) && HasRun(u, t))
      && (s.jobs[i] != Leaf(t) ==> (HasRun(u, t) <==> HasRun(s, t)))
  {
    var u := Apply(s, Run(i));
    JobFacts(s, i);
    TaskFacts(s, t);
    hide Shape, AllSeries, AllTasks, AllJobs, AllCarried;
    match s.jobs[i]
    case Leaf(v) =>
      assert u.jobs[i] == Finish(v);
      if v != t { JobMoves(s.jobs, i, u.jobs[i], t); }
    case Finish(v) =>
      assert s.jobs[i] in s.jobs;
      if v != t { JobMoves(s.jobs, i, u.jobs[i], t); }
    case Pass(v, _) =>
      TaskFacts(s, v);
      JobMoves(s.jobs, i, u.jobs[i], t);
    case Drop(p, _) =>
      JobMoves(s.jobs, i, u.jobs[i], t);
    case Loop(_, _) =>
      JobMoves(s.jobs, i, u.jobs[i], t);
      JobJoins(s.jobs[i := u.jobs[i]], u.jobs, t);
  }

  lemma {:induction false} RunsCount(s: State, run: seq<Action>, u: State, t: int)
    requires Inv(s) && Leads(s, run, u) && Has(|s.tasks|, t) && !s.tasks[t].par
    ensures Has(|u.tasks|, t) && Runs(s, run, t) + (if HasRun(s, t) then 1 else 0) == if HasRun(u, t) then 1 else 0
    decreases |run|
  {
    if run != [] {
      StepRuns(s, run[0], t);
      StepKeepsInv(s, run[0]);
      RunsCount(Apply(s, run[0]), run[1..], u, t);
      hide Inv, Apply, HasRun;
    }
  }

  predicate AtRest(s: State) {
    forall i :: 0 <= i < |s.jobs| ==> s.jobs[i] == Rest
  }

  // A task that is done has run once; and when all threads rest, every task of a series that was
  // started, or lies inside one, has.
  lemma DoneMeansRun(s0: State, run: seq<Action>, s: State, t: int)
    requires Reached(s0, run, s) && Has(|s0.tasks|, t) && !s0.tasks[t].par
    ensures Has(|s.tasks|, t) && Runs(s0, run, t) <= 1
    ensures s.tasks[t].dones == 1 ==> Runs(s0, run, t) == 1
    ensures Runs(s0, run, t) == 1 ==> s.tasks[t].dones == 1 || Finish(t) in s.jobs
    ensures AtRest(s) && Has(|s.series|, s.tasks[t].home) ==>
      s.series[s.tasks[t].home].place == Unstarted || Runs(s0, run, t) == 1
  {
    InitInv(s0);
    EveryRunKeepsInv(s0, run, s);
    RunsCount(s0, run, s, t);
    TaskFacts(s, t);
    if AtRest(s) && Has(|s.series|, s.tasks[t].home) { RestMeansOver(s0, run, s, s.tasks[t].home); }
  }
}
