/**
 Fork and join (workflow/src/kernel/SubTask.cc, with SeriesWork::pop and ParallelWork::done of
 workflow/src/factory/Workflow.cc): series of tasks, some of which are parallel tasks over series
 of their own.  Any number of threads carry them; a step below is what one thread does between
 two points at which the others can be seen.
 */
module SubTasks {

  const NONE: int := -1

  // Where a series is.
  datatype Place =
    | Unstarted
    | Passing(task: int)    // the task was taken off the series and is about to be dispatched
    | At(task: int)         // the task was dispatched
    | Drained               // the last pop found nothing
    | Counted               // and the parent has been told

  datatype Task = Task(
    par: bool,          // a parallel task
    kids: seq<int>,     // its series
    home: int,          // the series it was put in, NONE so far for a task nobody pushed
    parent: int,        // SubTask::parent
    nleft: int,
    dones: int          // how often `done` was called; the first call destroys the task
  )

  datatype Series = Series(
    first: int,
    queue: seq<int>,
    owner: int,         // the parallel task it belongs to, NONE for an outermost series
    pos: int,           // and which of its series it is
    place: Place
  )

  // What a thread does next.
  datatype Job =
    | Rest
    | Leaf(task: int)                // the task runs; it will call subtask_done
    | Finish(task: int)              // at the top of subtask_done's loop, with cur == task
    | Pass(task: int, parent: int)   // about to set the task's parent and dispatch it
    | Drop(parent: int, from: int)   // `from` is drained; about to decrement the parent's nleft
    | Loop(task: int, next: int)     // in the dispatch loop of a parallel task

  datatype State = State(tasks: seq<Task>, series: seq<Series>, jobs: seq<Job>)

  datatype Action =
    | Start(series: int)                           // SeriesWork::start of an outermost series
    | Push(series: int, task: int, front: bool)    // push_front or push_back of a task
    | Run(thread: int)

  /* ---------- the steps ---------- */

  predicate Has(n: nat, id: int) { 0 <= id < n }

  // Every name that occurs is that of a task or a series.
  predicate TaskNamed(x: Task, series: nat) {
    (x.home == NONE || Has(series, x.home)) && forall i :: 0 <= i < |x.kids| ==> Has(series, x.kids[i])
  }

  predicate SeriesNamed(x: Series, tasks: nat) {
    && Has(tasks, x.first) && (x.owner == NONE || Has(tasks, x.owner))
    && (forall i :: 0 <= i < |x.queue| ==> Has(tasks, x.queue[i]))
    && (x.place.Passing? || x.place.At? ==> Has(tasks, x.place.task))
  }

  predicate JobNamed(tasks: seq<Task>, series: nat, j: Job) {
    match j
    case Rest => true
    case Leaf(t) => Has(|tasks|, t) && Has(series, tasks[t].home)
    case Finish(t) => Has(|tasks|, t) && Has(series, tasks[t].home)
    case Pass(t, p) => Has(|tasks|, t) && Has(series, tasks[t].home) && (p == NONE || Has(|tasks|, p))
    case Drop(p, w) => Has(|tasks|, p) && Has(series, w)
    case Loop(t, k) => Has(|tasks|, t) && Has(series, tasks[t].home) && 0 <= k < |tasks[t].kids|
  }

  predicate Named(s: State) {
    && (forall t :: 0 <= t < |s.tasks| ==> TaskNamed(s.tasks[t], |s.series|))
    && (forall w :: 0 <= w < |s.series| ==> SeriesNamed(s.series[w], |s.tasks|))
    && (forall i :: 0 <= i < |s.jobs| ==> JobNamed(s.tasks, |s.series|, s.jobs[i]))
  }

  predicate Enabled(s: State, a: Action) {
    match a
    case Start(w) => Has(|s.series|, w) && s.series[w].owner == NONE && s.series[w].place == Unstarted
    // A task is pushed once, to a series that is not over yet and is not inside the task: an
    // outer series has the smaller number.
    case Push(w, t, front) =>
      && Has(|s.series|, w) && !s.series[w].place.Drained? && !s.series[w].place.Counted?
      && Has(|s.tasks|, t) && s.tasks[t].home == NONE
      && forall i :: 0 <= i < |s.tasks[t].kids| ==> w < s.tasks[t].kids[i]
    case Run(i) => 0 <= i < |s.jobs| && s.jobs[i] != Rest
  }

  function Placed(series: seq<Series>, w: int, place: Place): seq<Series>
    requires Has(|series|, w)
  {
    series[w := series[w].(place := place)]
  }

  // What dispatch leaves its thread with: the task running, the dispatch loop, or, for a parallel
  // task without series, subtask_done at once.
  function Entered(x: Task, t: int): Job {
    if !x.par then Leaf(t) else if x.kids == [] then Finish(t) else Loop(t, 0)
  }

  // cur = cur->done(): the task is destroyed, a parallel task with its series, and what comes next
  // in its series is fetched.
  function DoneStep(s: State, i: int, t: int): State
    requires Has(|s.tasks|, t) && Has(|s.series|, s.tasks[t].home) && 0 <= i < |s.jobs|
  {
    var w, parent := s.tasks[t].home, s.tasks[t].parent;
    var tasks := s.tasks[t := s.tasks[t].(dones := s.tasks[t].dones + 1)];
    var q := s.series[w].queue;
    if q != [] then
      State(tasks, s.series[w := s.series[w].(queue := q[1..], place := Passing(q[0]))],
        s.jobs[i := Pass(q[0], parent)])
    else if parent != NONE then State(tasks, Placed(s.series, w, Drained), s.jobs[i := Drop(parent, w)])
    else State(tasks, Placed(s.series, w, Counted), s.jobs[i := Rest])
  }

  // cur->parent = parent; cur->dispatch().
  function PassStep(s: State, i: int, t: int, parent: int): State
    requires Has(|s.tasks|, t) && Has(|s.series|, s.tasks[t].home) && 0 <= i < |s.jobs|
  {
    var x := s.tasks[t];
    State(s.tasks[t := x.(parent := parent, nleft := |x.kids|)], Placed(s.series, x.home, At(t)),
      s.jobs[i := Entered(x, t)])
  }

  // __sync_sub_and_fetch(&parent->nleft, 1) == 0
  function DropStep(s: State, i: int, p: int, w: int): State
    requires Has(|s.tasks|, p) && Has(|s.series|, w) && 0 <= i < |s.jobs|
  {
    var left := s.tasks[p].nleft - 1;
    State(s.tasks[p := s.tasks[p].(nleft := left)], Placed(s.series, w, Counted),
      s.jobs[i := if left == 0 then Finish(p) else Rest])
  }

  // One round of the dispatch loop: the subtask is handed on, and only local variables say
  // whether there is another one.
  function LoopStep(s: State, i: int, t: int, k: int): State
    requires Has(|s.tasks|, t) && 0 <= k < |s.tasks[t].kids| && Has(|s.series|, s.tasks[t].kids[k]) && 0 <= i < |s.jobs|
  {
    var w := s.tasks[t].kids[k];
    var first := s.series[w].first;
    var rest := if k + 1 < |s.tasks[t].kids| then Loop(t, k + 1) else Rest;
    State(s.tasks, Placed(s.series, w, Passing(first)), s.jobs[i := rest] + [Pass(first, t)])
  }

  function PushStep(s: State, w: int, t: int, front: bool): State
    requires Has(|s.tasks|, t) && Has(|s.series|, w)
  {
    var q := s.series[w].queue;
    s.(series := s.series[w := s.series[w].(queue := if front then [t] + q else q + [t])],
       tasks := s.tasks[t := s.tasks[t].(home := w)])
  }

  function Apply(s: State, a: Action): State
    requires Named(s) && Enabled(s, a)
  {
    match a
    case Start(w) =>
      var first := s.series[w].first;
      State(s.tasks, Placed(s.series, w, Passing(first)), s.jobs + [Pass(first, NONE)])
    case Push(w, t, front) => PushStep(s, w, t, front)
    case Run(i) =>
      assert JobNamed(s.tasks, |s.series|, s.jobs[i]);
      match s.jobs[i] {
        case Leaf(t) => s.(jobs := s.jobs[i := Finish(t)])
        case Finish(t) => DoneStep(s, i, t)
        case Pass(t, p) => PassStep(s, i, t, p)
        case Drop(p, w) => DropStep(s, i, p, w)
        case Loop(t, k) => assert TaskNamed(s.tasks[t], |s.series|); LoopStep(s, i, t, k)
        case Rest => s
      }
  }

  /* ---------- the invariant ---------- */

  // The series of a parallel task are its own, and lie inside the series it is in.
  ghost predicate KidsOk(series: seq<Series>, x: Task, t: int)
    requires TaskNamed(x, |series|)
  {
    && (x.kids != [] ==> x.par)
    && forall i :: 0 <= i < |x.kids| ==>
      series[x.kids[i]].owner == t && series[x.kids[i]].pos == i && x.home < x.kids[i]
  }

  ghost predicate OwnerOk(tasks: seq<Task>, x: Series, w: int)
    requires SeriesNamed(x, |tasks|)
  {
    x.owner != NONE ==> 0 <= x.pos < |tasks[x.owner].kids| && tasks[x.owner].kids[x.pos] == w
  }

  ghost predicate Awaits(tasks: seq<Task>, t: int, w: int)
    requires Has(|tasks|, t)
  {
    tasks[t].home == w && tasks[t].dones == 0
  }

  ghost predicate SeriesOk(tasks: seq<Task>, x: Series, w: int)
    requires SeriesNamed(x, |tasks|)
  {
    && tasks[x.first].home == w
    && (forall i :: 0 <= i < |x.queue| ==> Awaits(tasks, x.queue[i], w))
    && (forall i, j :: 0 <= i < j < |x.queue| ==> x.queue[i] != x.queue[j])
    && match x.place {
      case Unstarted => Awaits(tasks, x.first, w) && x.first !in x.queue
      case Passing(t) => Awaits(tasks, t, w) && t !in x.queue
      case At(t) => Awaits(tasks, t, w) && t !in x.queue
      case Drained => x.queue == [] && x.owner != NONE
      case Counted => x.queue == []
    }
  }

  // A task whose `done` was not called is still to be found in its series.
  ghost predicate TaskOk(series: seq<Series>, x: Task, t: int)
    requires TaskNamed(x, |series|)
  {
    && 0 <= x.dones <= 1
    && (x.home == NONE ==> x.dones == 0)
    && (x.home != NONE && x.dones == 0 ==> Pending(series[x.home], t))
  }

  predicate Pending(w: Series, t: int) {
    t in w.queue || w.place == Passing(t) || w.place == At(t) || (w.place == Unstarted && w.first == t)
  }

  predicate Dispatched(series: seq<Series>, x: Task, t: int) {
    Has(|series|, x.home) && series[x.home].place == At(t)
  }

  // The number of series that have not been counted.
  ghost function Open(series: seq<Series>, kids: seq<int>): nat
  {
    if kids == [] then 0
    else (if Has(|series|, kids[0]) && series[kids[0]].place == Counted then 0 else 1) + Open(series, kids[1..])
  }

  ghost predicate All(series: seq<Series>, kids: seq<int>, place: Place) {
    forall i :: 0 <= i < |kids| ==> Has(|series|, kids[i]) && series[kids[i]].place == place
  }

  ghost predicate ParOk(series: seq<Series>, x: Task, t: int) {
    if x.dones > 0 then All(series, x.kids, Counted)
    else if Dispatched(series, x, t) then x.nleft == Open(series, x.kids) && x.parent == series[x.home].owner
    else All(series, x.kids, Unstarted)
  }

  // The series from position `k` on have not been started, the others have.
  ghost predicate StartedUpTo(series: seq<Series>, kids: seq<int>, k: int) {
    forall i :: 0 <= i < |kids| ==> Has(|series|, kids[i]) && (series[kids[i]].place == Unstarted <==> i >= k)
  }

  ghost predicate JobOk(tasks: seq<Task>, series: seq<Series>, j: Job)
    requires JobNamed(tasks, |series|, j)
  {
    match j
    case Rest => true
    case Leaf(t) => Dispatched(series, tasks[t], t) && !tasks[t].par
    case Finish(t) => Dispatched(series, tasks[t], t) && All(series, tasks[t].kids, Counted)
    case Pass(t, p) => series[tasks[t].home].place == Passing(t) && p == series[tasks[t].home].owner
    case Drop(p, w) => series[w].place == Drained && series[w].owner == p
    case Loop(t, k) => Dispatched(series, tasks[t], t) && StartedUpTo(series, tasks[t].kids, k)
  }

  function JobTask(j: Job): int {
    match j
    case Rest => NONE
    case Leaf(t) => t
    case Finish(t) => t
    case Pass(t, _) => t
    case Drop(_, _) => NONE
    case Loop(t, _) => t
  }

  function JobFrom(j: Job): int {
    if j.Drop? then j.from else NONE
  }

  // No two threads carry the same task, or come from the same series.
  ghost predicate Apart(jobs: seq<Job>) {
    forall i, j :: 0 <= i < j < |jobs| ==>
      && (JobTask(jobs[i]) == JobTask(jobs[j]) ==> JobTask(jobs[i]) == NONE)
      && (JobFrom(jobs[i]) == JobFrom(jobs[j]) ==> JobFrom(jobs[i]) == NONE)
  }

  ghost predicate SomeCarries(jobs: seq<Job>, t: int) {
    exists i :: 0 <= i < |jobs| && JobTask(jobs[i]) == t
  }

  ghost predicate SomeComesFrom(jobs: seq<Job>, w: int) {
    exists i :: 0 <= i < |jobs| && JobFrom(jobs[i]) == w
  }

  // Every series that goes on is carried by a thread, or waits for series that go on.
  ghost predicate Carried(s: State, x: Series, w: int)
    requires SeriesNamed(x, |s.tasks|)
  {
    match x.place
    case Unstarted => true
    case Passing(t) => SomeCarries(s.jobs, t)
    case At(t) => SomeCarries(s.jobs, t)
      || (s.tasks[t].nleft > 0 && StartedUpTo(s.series, s.tasks[t].kids, |s.tasks[t].kids|))
    case Drained => SomeComesFrom(s.jobs, w)
    case Counted => true
  }

  ghost predicate Shape(s: State)
    requires Named(s)
  {
    && (forall t :: 0 <= t < |s.tasks| ==> KidsOk(s.series, s.tasks[t], t))
    && (forall w :: 0 <= w < |s.series| ==> OwnerOk(s.tasks, s.series[w], w))
  }

  ghost predicate AllSeries(s: State)
    requires Named(s)
  {
    forall w :: 0 <= w < |s.series| ==> SeriesOk(s.tasks, s.series[w], w)
  }

  ghost predicate AllTasks(s: State)
    requires Named(s)
  {
    && (forall t :: 0 <= t < |s.tasks| ==> TaskOk(s.series, s.tasks[t], t))
    && (forall t :: 0 <= t < |s.tasks| ==> ParOk(s.series, s.tasks[t], t))
  }

  ghost predicate AllJobs(s: State)
    requires Named(s)
  {
    Apart(s.jobs) && forall i :: 0 <= i < |s.jobs| ==> JobOk(s.tasks, s.series, s.jobs[i])
  }

  ghost predicate AllCarried(s: State)
    requires Named(s)
  {
    forall w :: 0 <= w < |s.series| ==> Carried(s, s.series[w], w)
  }

  ghost predicate Inv(s: State) {
    Named(s) && Shape(s) && AllSeries(s) && AllTasks(s) && AllJobs(s) && AllCarried(s)
  }

  // Whatever was built before the first thread starts: tasks on their series or on none, nothing
  // done.
  ghost predicate Init(s: State) {
    && Named(s) && s.jobs == []
    && (forall t :: 0 <= t < |s.tasks| ==> KidsOk(s.series, s.tasks[t], t))
    && (forall w :: 0 <= w < |s.series| ==> OwnerOk(s.tasks, s.series[w], w))
    && (forall w :: 0 <= w < |s.series| ==> SeriesOk(s.tasks, s.series[w], w) && s.series[w].place == Unstarted)
    && (forall t :: 0 <= t < |s.tasks| ==> TaskOk(s.series, s.tasks[t], t) && s.tasks[t].dones == 0)
  }

  lemma InitInv(s: State)
    requires Init(s)
    ensures Inv(s)
  {
    forall t | 0 <= t < |s.tasks|
      ensures ParOk(s.series, s.tasks[t], t)
    {
      assert TaskNamed(s.tasks[t], |s.series|);
    }
  }

  /* ---------- what a step leaves alone ---------- */

  // Series `w` may have moved on; everything else about the series is as before.
  ghost predicate Only(s: State, u: State, w: int) {
    && Has(|s.series|, w) && |u.series| == |s.series| && u.series == s.series[w := u.series[w]]
    && u.series[w].owner == s.series[w].owner && u.series[w].pos == s.series[w].pos
    && u.series[w].first == s.series[w].first
  }

  ghost predicate SameTask(x: Task, y: Task) {
    x.par == y.par && x.kids == y.kids && x.home == y.home
  }

  ghost predicate SameTasks(s: State, u: State) {
    |s.tasks| == |u.tasks| && forall t :: 0 <= t < |s.tasks| ==> SameTask(s.tasks[t], u.tasks[t])
  }

  lemma ShapeKept(s: State, u: State, w: int)
    requires Named(s) && Named(u) && Shape(s) && Only(s, u, w) && SameTasks(s, u)
    ensures Shape(u)
  {
    forall t | 0 <= t < |u.tasks|
      ensures KidsOk(u.series, u.tasks[t], t)
    {
      var x := s.tasks[t];
      assert SameTask(x, u.tasks[t]) && KidsOk(s.series, x, t) && TaskNamed(x, |s.series|);
      forall i | 0 <= i < |x.kids|
        ensures u.series[x.kids[i]].owner == t && u.series[x.kids[i]].pos == i && x.home < x.kids[i]
      {
        assert x.kids[i] != w ==> u.series[x.kids[i]] == s.series[x.kids[i]];
      }
    }
    forall v | 0 <= v < |u.series|
      ensures OwnerOk(u.tasks, u.series[v], v)
    {
      assert OwnerOk(s.tasks, s.series[v], v) && SeriesNamed(s.series[v], |s.tasks|);
      if u.series[v].owner != NONE { assert SameTask(s.tasks[u.series[v].owner], u.tasks[u.series[v].owner]); }
    }
  }

  lemma {:induction false} OpenSame(s: seq<Series>, u: seq<Series>, kids: seq<int>)
    requires |s| == |u|
    requires forall i :: 0 <= i < |kids| && Has(|s|, kids[i]) ==>
      (s[kids[i]].place == Counted <==> u[kids[i]].place == Counted)
    ensures Open(s, kids) == Open(u, kids)
  {
    if kids != [] { OpenSame(s, u, kids[1..]); }
  }

  lemma {:induction false} OpenAtLeast(s: seq<Series>, kids: seq<int>, i: int)
    requires 0 <= i < |kids| && !(Has(|s|, kids[i]) && s[kids[i]].place == Counted)
    ensures Open(s, kids) > 0
  {
    if i > 0 { OpenAtLeast(s, kids[1..], i - 1); }
  }

  lemma {:induction false} OpenTwo(s: seq<Series>, kids: seq<int>, i: int, j: int)
    requires 0 <= i < j < |kids|
    requires !(Has(|s|, kids[i]) && s[kids[i]].place == Counted) && !(Has(|s|, kids[j]) && s[kids[j]].place == Counted)
    ensures Open(s, kids) > 1
  {
    if i > 0 { OpenTwo(s, kids[1..], i - 1, j - 1); } else { OpenAtLeast(s, kids[1..], j - 1); }
  }

  lemma {:induction false} OpenZero(s: seq<Series>, kids: seq<int>)
    requires Open(s, kids) == 0
    ensures All(s, kids, Counted)
  {
    forall i | 0 <= i < |kids|
      ensures Has(|s|, kids[i]) && s[kids[i]].place == Counted
    {
      if !(Has(|s|, kids[i]) && s[kids[i]].place == Counted) { OpenAtLeast(s, kids, i); }
    }
  }

  lemma {:induction false} OpenUnstarted(s: seq<Series>, kids: seq<int>)
    requires All(s, kids, Unstarted)
    ensures Open(s, kids) == |kids|
  {
    if kids != [] {
      assert All(s, kids[1..], Unstarted);
      OpenUnstarted(s, kids[1..]);
    }
  }

  // One of the series has just been counted.
  lemma {:induction false} OpenLess(s: seq<Series>, u: seq<Series>, kids: seq<int>, i: int)
    requires |s| == |u| && 0 <= i < |kids| && Has(|s|, kids[i])
    requires s[kids[i]].place != Counted && u[kids[i]].place == Counted
    requires forall k :: 0 <= k < |kids| && k != i ==> kids[k] != kids[i]
    requires forall w :: 0 <= w < |s| && w != kids[i] ==> s[w].place == u[w].place
    ensures Open(u, kids) == Open(s, kids) - 1
  {
    if i == 0 {
      OpenSame(s, u, kids[1..]);
    } else {
      OpenLess(s, u, kids[1..], i - 1);
    }
  }

  // A parallel task whose own `done` is not due, when series `w` moves on without being counted.
  lemma ParKept(s: State, u: State, w: int, t: int)
    requires Named(s) && Shape(s) && Only(s, u, w) && Has(|s.tasks|, t)
    requires s.tasks[t].home == w ==> (s.series[w].place == At(t) <==> u.series[w].place == At(t))
    requires t == s.series[w].owner ==> s.series[w].place != Counted && u.series[w].place != Counted
    requires t == s.series[w].owner ==> s.series[w].place != Unstarted || Dispatched(s.series, s.tasks[t], t)
    requires ParOk(s.series, s.tasks[t], t)
    ensures ParOk(u.series, s.tasks[t], t)
  {
    var kids := s.tasks[t].kids;
    assert TaskNamed(s.tasks[t], |s.series|) && KidsOk(s.series, s.tasks[t], t) && OwnerOk(s.tasks, s.series[w], w);
    assert t != s.series[w].owner ==> forall i :: 0 <= i < |kids| ==> kids[i] != w;
    OpenSame(s.series, u.series, kids);
  }

  // Who carries a task finds it where its series says.
  lemma CarrierPlace(s: State, i: int)
    requires Named(s) && AllJobs(s) && 0 <= i < |s.jobs| && JobTask(s.jobs[i]) != NONE
    ensures Has(|s.tasks|, JobTask(s.jobs[i])) && Has(|s.series|, s.tasks[JobTask(s.jobs[i])].home)
    ensures s.series[s.tasks[JobTask(s.jobs[i])].home].place ==
      if s.jobs[i].Pass? then Passing(JobTask(s.jobs[i])) else At(JobTask(s.jobs[i]))
  {
    assert JobNamed(s.tasks, |s.series|, s.jobs[i]) && JobOk(s.tasks, s.series, s.jobs[i]);
  }

  // A thread that does not carry a task of the series that moved, nor comes from it.
  lemma JobKept(s: State, u: State, w: int, j: Job)
    requires Named(s) && Shape(s) && Only(s, u, w) && SameTasks(s, u)
    requires JobNamed(s.tasks, |s.series|, j) && JobOk(s.tasks, s.series, j)
    requires JobTask(j) != NONE ==> s.tasks[JobTask(j)].home != w
    requires JobFrom(j) != w && s.series[w].place != Counted
    requires j.Loop? && j.task == s.series[w].owner ==> s.series[w].place != Unstarted && u.series[w].place != Unstarted
    ensures JobNamed(u.tasks, |u.series|, j) && JobOk(u.tasks, u.series, j)
  {
    var t := JobTask(j);
    if t != NONE {
      assert SameTask(s.tasks[t], u.tasks[t]);
      var kids := s.tasks[t].kids;
      assert TaskNamed(s.tasks[t], |s.series|) && KidsOk(s.series, s.tasks[t], t);
      if t != s.series[w].owner {
        assert forall i :: 0 <= i < |kids| ==> kids[i] != w;
      } else {
        assert OwnerOk(s.tasks, s.series[w], w);
      }
    }
  }

  // The other threads, when thread `i`, or nobody (-1), moves series `w` on.
  lemma JobsKept(s: State, u: State, w: int, i: int)
    requires Named(s) && Shape(s) && AllJobs(s) && Only(s, u, w) && SameTasks(s, u)
    requires s.series[w].place != Counted
    requires s.series[w].place.Passing? || s.series[w].place.At? ==>
      0 <= i < |s.jobs| && JobTask(s.jobs[i]) == s.series[w].place.task
    requires s.series[w].place.Drained? ==> 0 <= i < |s.jobs| && JobFrom(s.jobs[i]) == w
    requires s.series[w].place.Passing? ==> 0 <= s.series[w].place.task
    requires s.series[w].place.At? ==> 0 <= s.series[w].place.task
    requires s.series[w].place != Unstarted ==> u.series[w].place != Unstarted
    requires forall k :: 0 <= k < |s.jobs| && k != i && s.jobs[k].Loop? && s.jobs[k].task == s.series[w].owner ==>
      s.series[w].place != Unstarted
    requires |s.jobs| <= |u.jobs| && forall k :: 0 <= k < |s.jobs| && k != i ==> u.jobs[k] == s.jobs[k]
    ensures forall k :: 0 <= k < |s.jobs| && k != i ==>
      JobNamed(u.tasks, |u.series|, u.jobs[k]) && JobOk(u.tasks, u.series, u.jobs[k])
  {
    forall k | 0 <= k < |s.jobs| && k != i
      ensures JobNamed(u.tasks, |u.series|, u.jobs[k]) && JobOk(u.tasks, u.series, u.jobs[k])
    {
      var j := s.jobs[k];
      assert JobNamed(s.tasks, |s.series|, j) && JobOk(s.tasks, s.series, j);
      if JobTask(j) != NONE {
        CarrierPlace(s, k);
      }
      JobKept(s, u, w, j);
    }
  }

  lemma ApartMoved(jobs: seq<Job>, i: int, j: Job)
    requires Apart(jobs) && 0 <= i < |jobs|
    requires JobTask(j) == JobTask(jobs[i]) || JobTask(j) == NONE || !SomeCarries(jobs, JobTask(j))
    requires JobFrom(j) == NONE || !SomeComesFrom(jobs, JobFrom(j))
    ensures Apart(jobs[i := j])
  {
  }

  lemma ApartJoined(jobs: seq<Job>, j: Job)
    requires Apart(jobs)
    requires JobTask(j) == NONE || !SomeCarries(jobs, JobTask(j))
    requires JobFrom(j) == NONE
    ensures Apart(jobs + [j])
  {
  }

  lemma StillCarried(a: seq<Job>, b: seq<Job>, i: int, t: int)
    requires |a| <= |b| && forall k :: 0 <= k < |a| && k != i ==> b[k] == a[k]
    requires 0 <= i < |a| ==> JobTask(a[i]) != t || JobTask(b[i]) == t
    ensures SomeCarries(a, t) ==> SomeCarries(b, t)
  {
    if SomeCarries(a, t) {
      var k :| 0 <= k < |a| && JobTask(a[k]) == t;
      assert JobTask(b[k]) == t;
    }
  }

  lemma StillComesFrom(a: seq<Job>, b: seq<Job>, i: int, w: int)
    requires |a| <= |b| && forall k :: 0 <= k < |a| && k != i ==> b[k] == a[k]
    requires 0 <= i < |a| ==> JobFrom(a[i]) != w
    ensures SomeComesFrom(a, w) ==> SomeComesFrom(b, w)
  {
    if SomeComesFrom(a, w) {
      var k :| 0 <= k < |a| && JobFrom(a[k]) == w;
      assert JobFrom(b[k]) == w;
    }
  }

  // The series that did not move.
  lemma CarriedKept(s: State, u: State, i: int, v: int)
    requires Named(s) && SameTasks(s, u) && 0 <= v < |s.series| == |u.series| && u.series[v] == s.series[v]
    requires forall w :: 0 <= w < |s.series| && s.series[w].place != Unstarted ==> u.series[w].place != Unstarted
    requires Carried(s, s.series[v], v) && SeriesNamed(u.series[v], |u.tasks|)
    requires |s.jobs| <= |u.jobs| && forall k :: 0 <= k < |s.jobs| && k != i ==> u.jobs[k] == s.jobs[k]
    requires s.series[v].place.Passing? || s.series[v].place.At? ==> 0 <= i < |s.jobs| ==>
      JobTask(s.jobs[i]) != s.series[v].place.task || JobTask(u.jobs[i]) == s.series[v].place.task
    requires 0 <= i < |s.jobs| ==> JobFrom(s.jobs[i]) != v
    requires s.series[v].place.At? ==> u.tasks[s.series[v].place.task].nleft == s.tasks[s.series[v].place.task].nleft
    ensures Carried(u, u.series[v], v)
  {
    var x := s.series[v];
    match x.place
    case Unstarted =>
    case Passing(t) => StillCarried(s.jobs, u.jobs, i, t);
    case At(t) =>
      StillCarried(s.jobs, u.jobs, i, t);
      assert SameTask(s.tasks[t], u.tasks[t]);
    case Drained => StillComesFrom(s.jobs, u.jobs, i, v);
    case Counted =>
  }

  /* ---------- the steps keep the invariant ---------- */

  lemma TaskFacts(s: State, t: int)
    requires Inv(s) && Has(|s.tasks|, t)
    ensures TaskNamed(s.tasks[t], |s.series|) && KidsOk(s.series, s.tasks[t], t)
    ensures TaskOk(s.series, s.tasks[t], t) && ParOk(s.series, s.tasks[t], t)
  {
  }

  lemma SeriesFacts(s: State, w: int)
    requires Inv(s) && Has(|s.series|, w)
    ensures SeriesNamed(s.series[w], |s.tasks|) && OwnerOk(s.tasks, s.series[w], w)
    ensures SeriesOk(s.tasks, s.series[w], w) && Carried(s, s.series[w], w)
  {
  }

  lemma JobFacts(s: State, i: int)
    requires Inv(s) && Has(|s.jobs|, i)
    ensures JobNamed(s.tasks, |s.series|, s.jobs[i]) && JobOk(s.tasks, s.series, s.jobs[i])
    ensures forall j :: 0 <= j < |s.jobs| && j != i && JobTask(s.jobs[i]) != NONE ==>
      JobTask(s.jobs[j]) != JobTask(s.jobs[i])
  {
  }

  // What a step that moves series `w` on and touches task `t0` has to see to, so that the
  // invariant holds for all the others.  Thread `i` makes the step, and may leave another one.
  ghost predicate Move(s: State, u: State, w: int, t0: int, i: int)
    requires Named(s)
  {
    && Only(s, u, w) && SameTasks(s, u)
    && (forall v :: 0 <= v < |s.tasks| && v != t0 ==> u.tasks[v] == s.tasks[v])
    && (0 <= t0 < |s.tasks| && s.tasks[t0].home != w ==> u.tasks[t0].dones == s.tasks[t0].dones)
    && |s.jobs| <= |u.jobs| <= |s.jobs| + 1
    && (forall k :: 0 <= k < |s.jobs| && k != i ==> u.jobs[k] == s.jobs[k])
    && s.series[w].place != Counted && u.series[w].place != Unstarted
  }

  lemma MoveSeries(s: State, u: State, w: int, t0: int, i: int)
    requires Inv(s) && Move(s, u, w, t0, i) && Named(u)
    requires SeriesOk(u.tasks, u.series[w], w)
    ensures AllSeries(u)
  {
    forall v | 0 <= v < |u.series|
      ensures SeriesOk(u.tasks, u.series[v], v)
    {
      SeriesFacts(s, v);
      assert forall t :: 0 <= t < |s.tasks| ==> SameTask(s.tasks[t], u.tasks[t]);
      assert v != w ==> forall t :: 0 <= t < |s.tasks| && Awaits(s.tasks, t, v) ==> Awaits(u.tasks, t, v);
    }
  }

  lemma MoveTasks(s: State, u: State, w: int, t0: int, i: int)
    requires Inv(s) && Move(s, u, w, t0, i) && Named(u)
    requires Has(|s.tasks|, t0) ==> TaskOk(u.series, u.tasks[t0], t0) && ParOk(u.series, u.tasks[t0], t0)
    requires forall v :: 0 <= v < |s.tasks| && v != t0 && s.tasks[v].home == w ==>
      && (s.series[w].place == At(v) <==> u.series[w].place == At(v))
      && (Pending(s.series[w], v) ==> Pending(u.series[w], v))
    requires var p := s.series[w].owner; Has(|s.tasks|, p) && p != t0 ==>
      u.series[w].place != Counted && (s.series[w].place != Unstarted || Dispatched(s.series, s.tasks[p], p))
    ensures AllTasks(u)
  {
    forall v | 0 <= v < |u.tasks|
      ensures TaskOk(u.series, u.tasks[v], v) && ParOk(u.series, u.tasks[v], v)
    {
      TaskFacts(s, v);
      if v != t0 { ParKept(s, u, w, v); }
    }
  }

  lemma MoveJobs(s: State, u: State, w: int, t0: int, i: int)
    requires Inv(s) && Move(s, u, w, t0, i) && Apart(u.jobs)
    requires match s.series[w].place {
      case Unstarted => forall k :: 0 <= k < |s.jobs| && k != i && s.jobs[k].Loop? ==>
        s.jobs[k].task != s.series[w].owner
      case Passing(t) => Has(|s.jobs|, i) && JobTask(s.jobs[i]) == t
      case At(t) => Has(|s.jobs|, i) && JobTask(s.jobs[i]) == t
      case Drained => Has(|s.jobs|, i) && JobFrom(s.jobs[i]) == w
      case Counted => true
    }
    requires Has(|s.jobs|, i) ==> JobNamed(u.tasks, |u.series|, u.jobs[i]) && JobOk(u.tasks, u.series, u.jobs[i])
    requires |u.jobs| > |s.jobs| ==>
      JobNamed(u.tasks, |u.series|, u.jobs[|s.jobs|]) && JobOk(u.tasks, u.series, u.jobs[|s.jobs|])
    requires SeriesNamed(u.series[w], |u.tasks|)
    ensures Named(u) && AllJobs(u)
  {
    SeriesFacts(s, w);
    JobsKept(s, u, w, i);
    forall t | 0 <= t < |u.tasks|
      ensures TaskNamed(u.tasks[t], |u.series|)
    {
      assert TaskNamed(s.tasks[t], |s.series|) && SameTask(s.tasks[t], u.tasks[t]);
    }
  }

  lemma MoveCarried(s: State, u: State, w: int, w2: int, t0: int, i: int)
    requires Inv(s) && Move(s, u, w, t0, i) && Named(u)
    requires Carried(u, u.series[w], w) && (Has(|u.series|, w2) ==> Carried(u, u.series[w2], w2))
    requires Has(|s.tasks|, t0) ==> s.tasks[t0].home in {w, w2} || u.tasks[t0].nleft == s.tasks[t0].nleft
    requires Has(|s.jobs|, i) ==> JobFrom(s.jobs[i]) in {NONE, w, w2}
    requires Has(|s.jobs|, i) && Has(|s.tasks|, JobTask(s.jobs[i])) ==> s.tasks[JobTask(s.jobs[i])].home in {w, w2}
    ensures AllCarried(u)
  {
    forall v | 0 <= v < |u.series|
      ensures Carried(u, u.series[v], v)
    {
      SeriesFacts(s, v);
      if v != w && v != w2 {
        CarriedKept(s, u, i, v);
      }
    }
  }

  lemma LeafKeeps(s: State, i: int)
    requires Inv(s) && Enabled(s, Run(i)) && s.jobs[i].Leaf?
    ensures Inv(Apply(s, Run(i)))
  {
    var u, t := Apply(s, Run(i)), s.jobs[i].task;
    JobFacts(s, i);
    TaskFacts(s, t);
    ApartMoved(s.jobs, i, Finish(t));
    forall v | 0 <= v < |u.series|
      ensures Carried(u, u.series[v], v)
    {
      SeriesFacts(s, v);
      CarriedKept(s, u, i, v);
    }
  }

  lemma NotCarried(s: State, t: int, w: int)
    requires Inv(s) && Has(|s.tasks|, t) && Has(|s.series|, w) && s.tasks[t].home == w
    requires s.series[w].place != Passing(t) && s.series[w].place != At(t)
    ensures !SomeCarries(s.jobs, t)
  {
    if SomeCarries(s.jobs, t) {
      var i :| 0 <= i < |s.jobs| && JobTask(s.jobs[i]) == t;
      CarrierPlace(s, i);
    }
  }

  lemma StartKeeps(s: State, w: int)
    requires Inv(s) && Enabled(s, Start(w))
    ensures Inv(Apply(s, Start(w)))
  {
    var u, first := Apply(s, Start(w)), s.series[w].first;
    SeriesFacts(s, w);
    NotCarried(s, first, w);
    ApartJoined(s.jobs, Pass(first, NONE));
    assert JobTask(u.jobs[|s.jobs|]) == first;
    hide Shape, AllSeries, AllTasks, AllJobs, AllCarried, KidsOk, TaskOk, ParOk, Apart;
    MoveJobs(s, u, w, NONE, -1);
    ShapeKept(s, u, w);
    MoveSeries(s, u, w, NONE, -1);
    MoveTasks(s, u, w, NONE, -1);
    MoveCarried(s, u, w, w, NONE, -1);
  }

  // What the moved series and the thread look like after a step of the dispatch loop.
  lemma LoopMoves(s: State, i: int)
    requires Inv(s) && Enabled(s, Run(i)) && s.jobs[i].Loop?
    ensures var u, t := Apply(s, Run(i)), s.jobs[i].task;
      var w := s.tasks[t].kids[s.jobs[i].next];
      && Move(s, u, w, NONE, i) && SeriesNamed(u.series[w], |u.tasks|) && SeriesOk(u.tasks, u.series[w], w)
      && JobNamed(u.tasks, |u.series|, u.jobs[i]) && JobOk(u.tasks, u.series, u.jobs[i])
      && JobNamed(u.tasks, |u.series|, u.jobs[|s.jobs|]) && JobOk(u.tasks, u.series, u.jobs[|s.jobs|])
  {
    var u, t, k := Apply(s, Run(i)), s.jobs[i].task, s.jobs[i].next;
    hide Shape, AllSeries, AllTasks, AllJobs, AllCarried, Apart, Open;
    JobFacts(s, i);
    TaskFacts(s, t);
    SeriesFacts(s, s.tasks[t].kids[k]);
    SeriesFacts(s, s.tasks[t].home);
    assert StartedUpTo(u.series, s.tasks[t].kids, k + 1);
  }

  lemma LoopCarries(s: State, i: int)
    requires Inv(s) && Enabled(s, Run(i)) && s.jobs[i].Loop?
    ensures var u, t := Apply(s, Run(i)), s.jobs[i].task;
      var w, home := s.tasks[t].kids[s.jobs[i].next], s.tasks[t].home;
      && Apart(u.jobs) && (SeriesNamed(u.series[w], |u.tasks|) ==> Carried(u, u.series[w], w))
      && (SeriesNamed(u.series[home], |u.tasks|) ==> Carried(u, u.series[home], home))
  {
    var u, t, k := Apply(s, Run(i)), s.jobs[i].task, s.jobs[i].next;
    hide Shape, AllSeries, AllTasks, AllJobs, AllCarried, Apart;
    JobFacts(s, i);
    TaskFacts(s, t);
    var x, rest := s.tasks[t], u.jobs[i];
    var w := x.kids[k];
    var first := s.series[w].first;
    SeriesFacts(s, w);
    SeriesFacts(s, x.home);
    NotCarried(s, first, w);
    OpenAtLeast(s.series, x.kids, k);
    JobsApart(s);
    ApartMoved(s.jobs, i, rest);
    ApartJoined(s.jobs[i := rest], Pass(first, t));
    assert StartedUpTo(u.series, x.kids, k + 1);
    assert JobTask(u.jobs[|s.jobs|]) == first;
    assert rest != Rest ==> JobTask(u.jobs[i]) == t;
  }

  lemma JobsApart(s: State)
    requires Inv(s)
    ensures Apart(s.jobs)
  {
  }

  lemma LoopKeeps(s: State, i: int)
    requires Inv(s) && Enabled(s, Run(i)) && s.jobs[i].Loop?
    ensures Inv(Apply(s, Run(i)))
  {
    var u, t := Apply(s, Run(i)), s.jobs[i].task;
    JobFacts(s, i);
    TaskFacts(s, t);
    var w := s.tasks[t].kids[s.jobs[i].next];
    SeriesFacts(s, w);
    LoopMoves(s, i);
    LoopCarries(s, i);
    hide Shape, AllSeries, AllTasks, AllJobs, AllCarried, Apart, SomeCarries, Open, SeriesOk, JobNamed, Carried,
      TaskOk, ParOk;
    MoveJobs(s, u, w, NONE, i);
    ShapeKept(s, u, w);
    MoveSeries(s, u, w, NONE, i);
    MoveTasks(s, u, w, NONE, i);
    MoveCarried(s, u, w, s.tasks[t].home, NONE, i);
  }

  lemma PassKeeps(s: State, i: int)
    requires Inv(s) && Enabled(s, Run(i)) && s.jobs[i].Pass?
    ensures Inv(Apply(s, Run(i)))
  {
    var u, t := Apply(s, Run(i)), s.jobs[i].task;
    JobFacts(s, i);
    TaskFacts(s, t);
    var x, w := s.tasks[t], s.tasks[t].home;
    SeriesFacts(s, w);
    assert forall k :: 0 <= k < |x.kids| ==> x.kids[k] != w;
    assert All(u.series, x.kids, Unstarted);
    OpenUnstarted(u.series, x.kids);
    ApartMoved(s.jobs, i, u.jobs[i]);
    assert JobTask(u.jobs[i]) == t && SomeCarries(u.jobs, t);
    hide Shape, AllSeries, AllTasks, AllJobs, AllCarried, Apart, SomeCarries, Open;
    MoveJobs(s, u, w, t, i);
    ShapeKept(s, u, w);
    MoveSeries(s, u, w, t, i);
    MoveTasks(s, u, w, t, i);
    MoveCarried(s, u, w, w, t, i);
  }

  // Nobody else carries a parallel task whose last series is about to be counted.
  lemma LastOneOut(s: State, p: int, w: int)
    requires Inv(s) && Has(|s.series|, w) && s.series[w].place == Drained && s.series[w].owner == p
    ensures Has(|s.tasks|, p) && Dispatched(s.series, s.tasks[p], p) && s.tasks[p].dones == 0
    ensures s.tasks[p].nleft == Open(s.series, s.tasks[p].kids) > 0
    ensures s.tasks[p].nleft == 1 ==> !SomeCarries(s.jobs, p)
  {
    SeriesFacts(s, w);
    TaskFacts(s, p);
    var kids, pos := s.tasks[p].kids, s.series[w].pos;
    OpenAtLeast(s.series, kids, pos);
    if s.tasks[p].nleft == 1 && SomeCarries(s.jobs, p) {
      var i :| 0 <= i < |s.jobs| && JobTask(s.jobs[i]) == p;
      JobFacts(s, i);
      assert s.jobs[i].Loop?;
      OpenTwo(s.series, kids, pos, s.jobs[i].next);
    }
  }

  lemma DropKeeps(s: State, i: int)
    requires Inv(s) && Enabled(s, Run(i)) && s.jobs[i].Drop?
    ensures Inv(Apply(s, Run(i)))
  {
    var u, p, w := Apply(s, Run(i)), s.jobs[i].parent, s.jobs[i].from;
    JobFacts(s, i);
    TaskFacts(s, p);
    SeriesFacts(s, w);
    LastOneOut(s, p, w);
    var x := s.tasks[p];
    SeriesFacts(s, x.home);
    OpenLess(s.series, u.series, x.kids, s.series[w].pos);
    if u.tasks[p].nleft == 0 { OpenZero(u.series, x.kids); }
    ApartMoved(s.jobs, i, u.jobs[i]);
    assert u.tasks[p].nleft == 0 ==> JobTask(u.jobs[i]) == p && SomeCarries(u.jobs, p);
    StillCarried(s.jobs, u.jobs, i, p);
    assert Carried(u, u.series[x.home], x.home);
    hide Shape, AllSeries, AllTasks, AllJobs, AllCarried, Apart, SomeCarries, Open, Carried;
    MoveJobs(s, u, w, p, i);
    ShapeKept(s, u, w);
    MoveSeries(s, u, w, p, i);
    MoveTasks(s, u, w, p, i);
    MoveCarried(s, u, w, x.home, p, i);
  }

  lemma DoneIsCounted(s: State, i: int)
    requires Inv(s) && Enabled(s, Run(i)) && s.jobs[i].Finish?
    ensures var u, t := Apply(s, Run(i)), s.jobs[i].task;
      var w := s.tasks[t].home;
      && TaskOk(u.series, u.tasks[t], t) && ParOk(u.series, u.tasks[t], t)
      && SeriesNamed(u.series[w], |u.tasks|) && SeriesOk(u.tasks, u.series[w], w)
  {
    var u, t := Apply(s, Run(i)), s.jobs[i].task;
    hide Shape, AllSeries, AllTasks, AllJobs, AllCarried, Apart, Open;
    JobFacts(s, i);
    TaskFacts(s, t);
    SeriesFacts(s, s.tasks[t].home);
    assert forall k :: 0 <= k < |s.tasks[t].kids| ==> s.tasks[t].kids[k] != s.tasks[t].home;
  }

  lemma DoneMoves(s: State, i: int)
    requires Inv(s) && Enabled(s, Run(i)) && s.jobs[i].Finish?
    ensures var u, t := Apply(s, Run(i)), s.jobs[i].task;
      var w := s.tasks[t].home;
      && Move(s, u, w, t, i) && SeriesNamed(u.series[w], |u.tasks|) && SeriesOk(u.tasks, u.series[w], w)
      && JobNamed(u.tasks, |u.series|, u.jobs[i]) && JobOk(u.tasks, u.series, u.jobs[i])
      && TaskOk(u.series, u.tasks[t], t) && ParOk(u.series, u.tasks[t], t)
  {
    var u, t := Apply(s, Run(i)), s.jobs[i].task;
    DoneIsCounted(s, i);
    hide ParOk, TaskOk, SeriesOk, Shape, AllSeries, AllTasks, AllJobs, AllCarried, Apart, Open;
    JobFacts(s, i);
    TaskFacts(s, t);
    SeriesFacts(s, s.tasks[t].home);
  }

  lemma DoneCarries(s: State, i: int)
    requires Inv(s) && Enabled(s, Run(i)) && s.jobs[i].Finish?
    ensures var u, w := Apply(s, Run(i)), s.tasks[s.jobs[i].task].home;
      && Apart(u.jobs) && (SeriesNamed(u.series[w], |u.tasks|) ==> Carried(u, u.series[w], w))
  {
    var u, t := Apply(s, Run(i)), s.jobs[i].task;
    hide Shape, AllSeries, AllTasks, AllJobs, AllCarried, Apart, Open;
    JobFacts(s, i);
    TaskFacts(s, t);
    var x, w := s.tasks[t], s.tasks[t].home;
    SeriesFacts(s, w);
    var q := s.series[w].queue;
    if q != [] { NotCarried(s, q[0], w); }
    NobodyComesFrom(s, w);
    JobsApart(s);
    ApartMoved(s.jobs, i, u.jobs[i]);
    assert q != [] ==> JobTask(u.jobs[i]) == q[0];
    assert q == [] && x.parent != NONE ==> JobFrom(u.jobs[i]) == w;
  }

  lemma NobodyComesFrom(s: State, w: int)
    requires Inv(s) && Has(|s.series|, w) && s.series[w].place != Drained
    ensures !SomeComesFrom(s.jobs, w)
  {
  }

  lemma DoneKeeps(s: State, i: int)
    requires Inv(s) && Enabled(s, Run(i)) && s.jobs[i].Finish?
    ensures Inv(Apply(s, Run(i)))
  {
    var u, t := Apply(s, Run(i)), s.jobs[i].task;
    JobFacts(s, i);
    TaskFacts(s, t);
    var w := s.tasks[t].home;
    SeriesFacts(s, w);
    DoneMoves(s, i);
    DoneCarries(s, i);
    hide Shape, AllSeries, AllTasks, AllJobs, AllCarried, Apart, SomeCarries, Open, SeriesOk, JobNamed, Carried;
    MoveJobs(s, u, w, t, i);
    ShapeKept(s, u, w);
    MoveSeries(s, u, w, t, i);
    MoveTasks(s, u, w, t, i);
    MoveCarried(s, u, w, w, t, i);
  }

  // What a push changes.
  ghost predicate Pushed(s: State, u: State, w: int, t: int)
    requires Has(|s.series|, w) && Has(|s.tasks|, t)
  {
    && |u.tasks| == |s.tasks| && |u.series| == |s.series| && u.jobs == s.jobs
    && (forall v :: 0 <= v < |s.tasks| ==> u.tasks[v] == if v == t then s.tasks[t].(home := w) else s.tasks[v])
    && (forall v :: 0 <= v < |s.series| && v != w ==> u.series[v] == s.series[v])
    && u.series[w] == s.series[w].(queue := u.series[w].queue)
    && (forall i :: 0 <= i < |u.series[w].queue| ==>
      u.series[w].queue[i] == t || u.series[w].queue[i] in s.series[w].queue)
    && (forall k :: k in s.series[w].queue || k == t ==> k in u.series[w].queue)
    && (t !in s.series[w].queue && Unique(s.series[w].queue) ==> Unique(u.series[w].queue))
  }

  ghost predicate Unique(q: seq<int>) {
    forall i, j :: 0 <= i < j < |q| ==> q[i] != q[j]
  }

  lemma PushIs(s: State, w: int, t: int, front: bool)
    requires Has(|s.series|, w) && Has(|s.tasks|, t)
    ensures Pushed(s, PushStep(s, w, t, front), w, t)
  {
  }

  lemma PushKids(s: State, u: State, w: int, t: int, front: bool, v: int)
    requires Inv(s) && Enabled(s, Push(w, t, front)) && Pushed(s, u, w, t) && Has(|s.tasks|, v)
    ensures TaskNamed(u.tasks[v], |u.series|) && KidsOk(u.series, u.tasks[v], v)
  {
    hide Shape, AllSeries, AllTasks, AllJobs, AllCarried;
    TaskFacts(s, v);
    var x := u.tasks[v];
    var kids := s.tasks[v].kids;
    assert x == s.tasks[v].(home := x.home) && (x.home == s.tasks[v].home || (v == t && x.home == w));
    assert TaskNamed(x, |u.series|);
    forall i | 0 <= i < |x.kids|
      ensures u.series[x.kids[i]].owner == v && u.series[x.kids[i]].pos == i && x.home < x.kids[i]
    {
      assert Has(|s.series|, kids[i]) && kids[i] == x.kids[i];
      assert x.kids[i] != w ==> u.series[x.kids[i]] == s.series[x.kids[i]];
    }
  }

  lemma PushNamed(s: State, u: State, w: int, t: int, front: bool)
    requires Inv(s) && Enabled(s, Push(w, t, front)) && Pushed(s, u, w, t)
    ensures Named(u) && Shape(u)
  {
    hide AllSeries, AllTasks, AllJobs, AllCarried;
    forall v | 0 <= v < |u.tasks|
      ensures TaskNamed(u.tasks[v], |u.series|) && KidsOk(u.series, u.tasks[v], v)
    {
      PushKids(s, u, w, t, front, v);
    }
    forall v | 0 <= v < |u.series|
      ensures SeriesNamed(u.series[v], |u.tasks|) && OwnerOk(u.tasks, u.series[v], v)
    {
      SeriesFacts(s, v);
    }
    forall i | 0 <= i < |u.jobs|
      ensures JobNamed(u.tasks, |u.series|, u.jobs[i])
    {
      JobFacts(s, i);
    }
  }

  lemma PushSeries(s: State, u: State, w: int, t: int, front: bool)
    requires Inv(s) && Enabled(s, Push(w, t, front)) && Pushed(s, u, w, t) && Named(u)
    ensures AllSeries(u)
  {
    hide Shape, AllTasks, AllJobs, AllCarried;
    TaskFacts(s, t);
    SeriesFacts(s, w);
    forall v | 0 <= v < |u.series|
      ensures SeriesOk(u.tasks, u.series[v], v)
    {
      SeriesFacts(s, v);
    }
  }

  lemma PushTasks(s: State, u: State, w: int, t: int, front: bool)
    requires Inv(s) && Enabled(s, Push(w, t, front)) && Pushed(s, u, w, t) && Named(u)
    ensures AllTasks(u)
  {
    hide Shape, AllSeries, AllJobs, AllCarried;
    TaskFacts(s, t);
    SeriesFacts(s, w);
    forall v | 0 <= v < |u.tasks|
      ensures TaskOk(u.series, u.tasks[v], v) && ParOk(u.series, u.tasks[v], v)
    {
      TaskFacts(s, v);
      OpenSame(s.series, u.series, s.tasks[v].kids);
    }
  }

  lemma PushJobs(s: State, u: State, w: int, t: int, front: bool)
    requires Inv(s) && Enabled(s, Push(w, t, front)) && Pushed(s, u, w, t) && Named(u)
    ensures AllJobs(u) && AllCarried(u)
  {
    JobsApart(s);
    hide Shape, AllSeries, AllTasks, AllJobs, AllCarried, Apart;
    forall i | 0 <= i < |u.jobs|
      ensures JobOk(u.tasks, u.series, u.jobs[i])
    {
      JobFacts(s, i);
      var v := JobTask(s.jobs[i]);
      if v != NONE { TaskFacts(s, v); }
    }
    forall v | 0 <= v < |u.series|
      ensures Carried(u, u.series[v], v)
    {
      SeriesFacts(s, v);
    }
  }

  lemma PushKeeps(s: State, w: int, t: int, front: bool)
    requires Inv(s) && Enabled(s, Push(w, t, front))
    ensures Inv(Apply(s, Push(w, t, front)))
  {
    var u := PushStep(s, w, t, front);
    PushIs(s, w, t, front);
    PushNamed(s, u, w, t, front);
    PushSeries(s, u, w, t, front);
    PushTasks(s, u, w, t, front);
    PushJobs(s, u, w, t, front);
    hide PushStep;
  }

  /* ---------- every run ---------- */

  lemma StepKeepsInv(s: State, a: Action)
    requires Inv(s) && Enabled(s, a)
    ensures Inv(Apply(s, a))
  {
    hide Apply;
    match a
    case Start(w) => StartKeeps(s, w);
    case Push(w, t, front) => PushKeeps(s, w, t, front);
    case Run(i) =>
      match s.jobs[i]
      case Leaf(_) => LeafKeeps(s, i);
      case Finish(_) => DoneKeeps(s, i);
      case Pass(_, _) => PassKeeps(s, i);
      case Drop(_, _) => DropKeeps(s, i);
      case Loop(_, _) => LoopKeeps(s, i);
  }

  // `u` is what some interleaving of steps makes of `s`.
  ghost predicate Leads(s: State, run: seq<Action>, u: State)
    decreases |run|
  {
    if run == [] then s == u
    else Named(s) && Enabled(s, run[0]) && Leads(Apply(s, run[0]), run[1..], u)
  }

  lemma {:induction false} EveryRunKeepsInv(s: State, run: seq<Action>, u: State)
    requires Inv(s) && Leads(s, run, u)
    ensures Inv(u)
    decreases |run|
  {
    if run != [] {
      StepKeepsInv(s, run[0]);
      EveryRunKeepsInv(Apply(s, run[0]), run[1..], u);
    }
  }

  // `s` is what some interleaving makes of what was built.
  ghost predicate Reached(s0: State, run: seq<Action>, s: State) {
    Init(s0) && Leads(s0, run, s)
  }

  /* ---------- done once, and only after everything inside is over ---------- */

  // Series `v` is one of the task's, or lies inside one of them.
  ghost predicate Inside(s: State, v: int, t: int)
    requires Named(s) && Shape(s) && Has(|s.series|, v)
    decreases v
  {
    var p := s.series[v].owner;
    assert SeriesNamed(s.series[v], |s.tasks|) && OwnerOk(s.tasks, s.series[v], v);
    p != NONE && (p == t || (assert TaskNamed(s.tasks[p], |s.series|) && KidsOk(s.series, s.tasks[p], p);
      s.tasks[p].home != NONE && Inside(s, s.tasks[p].home, t)))
  }

  ghost predicate Over(s: State, v: int)
    requires Has(|s.series|, v)
  {
    && s.series[v].place == Counted && s.series[v].queue == []
    && forall t :: 0 <= t < |s.tasks| && s.tasks[t].home == v ==> s.tasks[t].dones == 1
  }

  lemma CountedIsOver(s: State, v: int)
    requires Inv(s) && Has(|s.series|, v) && s.series[v].place == Counted
    ensures Over(s, v)
  {
    SeriesFacts(s, v);
    forall t | 0 <= t < |s.tasks| && s.tasks[t].home == v
      ensures s.tasks[t].dones == 1
    {
      TaskFacts(s, t);
    }
  }

  lemma {:induction false} InsideIsOver(s: State, v: int, t: int)
    requires Inv(s) && Has(|s.series|, v) && Has(|s.tasks|, t) && Inside(s, v, t)
    requires All(s.series, s.tasks[t].kids, Counted)
    ensures Over(s, v)
    decreases v
  {
    SeriesFacts(s, v);
    var p := s.series[v].owner;
    TaskFacts(s, p);
    if p != t {
      InsideIsOver(s, s.tasks[p].home, t);
    }
    assert s.tasks[p].kids[s.series[v].pos] == v;
    CountedIsOver(s, v);
  }

  // When a thread is about to call a parallel task's `done`, it is the only one, the call is the
  // first, and all tasks of all series inside it are done.
  lemma DoneAfterAllInside(s0: State, run: seq<Action>, s: State, i: int, v: int)
    requires Reached(s0, run, s) && Has(|s.jobs|, i) && s.jobs[i].Finish?
    ensures Has(|s.tasks|, s.jobs[i].task) && s.tasks[s.jobs[i].task].dones == 0
    ensures forall j :: 0 <= j < |s.jobs| && j != i ==> JobTask(s.jobs[j]) != s.jobs[i].task
    ensures Has(|s.series|, v) && Named(s) && Shape(s) && Inside(s, v, s.jobs[i].task) ==> Over(s, v)
  {
    InitInv(s0);
    EveryRunKeepsInv(s0, run, s);
    JobFacts(s, i);
    var t := s.jobs[i].task;
    TaskFacts(s, t);
    SeriesFacts(s, s.tasks[t].home);
    if Has(|s.series|, v) && Inside(s, v, t) { InsideIsOver(s, v, t); }
  }

  // The same afterwards; and no task's `done` is ever called twice.
  lemma DoneOnce(s0: State, run: seq<Action>, s: State, t: int, v: int)
    requires Reached(s0, run, s) && Has(|s.tasks|, t)
    ensures s.tasks[t].dones <= 1
    ensures s.tasks[t].dones == 1 && Has(|s.series|, v) && Named(s) && Shape(s) && Inside(s, v, t) ==> Over(s, v)
  {
    InitInv(s0);
    EveryRunKeepsInv(s0, run, s);
    TaskFacts(s, t);
    if s.tasks[t].dones == 1 && Has(|s.series|, v) && Inside(s, v, t) { InsideIsOver(s, v, t); }
  }

  /* ---------- nothing is touched after it was destroyed ---------- */

  predicate TaskAlive(s: State, t: int) {
    Has(|s.tasks|, t) && s.tasks[t].dones == 0
  }

  // A parallel task's `done` deletes its series; an outermost series deletes itself when its last
  // pop finds nothing.
  predicate SeriesAlive(s: State, w: int) {
    && Has(|s.series|, w)
    && if s.series[w].owner == NONE then s.series[w].place != Counted else TaskAlive(s, s.series[w].owner)
  }

  // What the thread's next step reads or writes.
  ghost predicate Touches(s: State, j: Job, t: int) {
    match j
    case Rest => false
    case Leaf(v) => t == v
    case Finish(v) => t == v
    case Pass(v, _) => t == v
    case Drop(p, _) => t == p
    case Loop(v, k) =>
      || t == v
      || (Has(|s.tasks|, v) && Has(|s.tasks[v].kids|, k) && Has(|s.series|, s.tasks[v].kids[k])
          && t == s.series[s.tasks[v].kids[k]].first)
  }

  // The dispatch loop in particular: with series left to start, the parallel task's counter cannot
  // have reached zero.
  lemma OnlyLiveObjects(s0: State, run: seq<Action>, s: State, i: int, t: int)
    requires Reached(s0, run, s) && Has(|s.jobs|, i) && Touches(s, s.jobs[i], t)
    ensures TaskAlive(s, t)
    ensures s.jobs[i].Finish? ==> SeriesAlive(s, s.tasks[t].home)
    ensures s.jobs[i].Finish? ==> forall k :: 0 <= k < |s.tasks[t].kids| ==> SeriesAlive(s, s.tasks[t].kids[k])
    ensures s.jobs[i].Loop? && t == s.jobs[i].task ==> s.tasks[t].nleft > 0
  {
    InitInv(s0);
    EveryRunKeepsInv(s0, run, s);
    JobFacts(s, i);
    SeriesFacts(s, if s.jobs[i].Drop? then s.jobs[i].from else s.tasks[JobTask(s.jobs[i])].home);
    match s.jobs[i]
    case Drop(p, w) => LastOneOut(s, p, w);
    case Loop(v, k) =>
      TaskFacts(s, v);
      SeriesFacts(s, s.tasks[v].kids[k]);
      OpenAtLeast(s.series, s.tasks[v].kids, k);
    case Finish(v) =>
      TaskFacts(s, v);
      HomeAlive(s, v);
    case _ =>
  }

  // A series is there as long as one of its tasks is.
  lemma HomeAlive(s: State, t: int)
    requires Inv(s) && TaskAlive(s, t) && Dispatched(s.series, s.tasks[t], t)
    ensures SeriesAlive(s, s.tasks[t].home)
  {
    var w := s.tasks[t].home;
    SeriesFacts(s, w);
    if s.series[w].owner != NONE {
      TaskFacts(s, s.series[w].owner);
    }
  }

  /* ---------- everything that was started ends ---------- */

  lemma {:induction false} NobodyStuck(s: State, w: int)
    requires Inv(s) && Has(|s.series|, w) && forall i :: 0 <= i < |s.jobs| ==> s.jobs[i] == Rest
    ensures s.series[w].place == Unstarted || s.series[w].place == Counted
    decreases |s.series| - w
  {
    SeriesFacts(s, w);
    if s.series[w].place.At? {
      var t := s.series[w].place.task;
      TaskFacts(s, t);
      var kids := s.tasks[t].kids;
      forall i | 0 <= i < |kids|
        ensures s.series[kids[i]].place == Counted
      {
        NobodyStuck(s, kids[i]);
      }
      OpenUncounted(s.series, kids);
    }
  }

  lemma {:induction false} OpenUncounted(s: seq<Series>, kids: seq<int>)
    requires All(s, kids, Counted)
    ensures Open(s, kids) == 0
  {
    if kids != [] {
      assert All(s, kids[1..], Counted);
      OpenUncounted(s, kids[1..]);
    }
  }

  // When no thread has anything left to do, every series that was started is over, and so is
  // everything inside it.
  lemma RestMeansOver(s0: State, run: seq<Action>, s: State, w: int)
    requires Reached(s0, run, s) && Has(|s.series|, w)
    requires forall i :: 0 <= i < |s.jobs| ==> s.jobs[i] == Rest
    ensures s.series[w].place == Unstarted || Over(s, w)
  {
    InitInv(s0);
    EveryRunKeepsInv(s0, run, s);
    NobodyStuck(s, w);
    if s.series[w].place == Counted { CountedIsOver(s, w); }
  }

  function JobWork(j: Job): nat {
    match j
    case Rest => 0
    case Finish(_) => 1
    case Leaf(_) => 2
    case Drop(_, _) => 2
    case Loop(_, _) => 2
    case Pass(_, _) => 3
  }

  function JobsWork(jobs: seq<Job>): nat {
    if jobs == [] then 0 else JobWork(jobs[0]) + JobsWork(jobs[1..])
  }

  function SeriesWork(series: seq<Series>): nat {
    if series == [] then 0 else (if series[0].place == Unstarted then 4 else 0) + SeriesWork(series[1..])
  }

  function TasksWork(tasks: seq<Task>): nat {
    if tasks == [] then 0 else (if tasks[0].dones == 0 then 5 else 0) + TasksWork(tasks[1..])
  }

  // A bound on what is left to do.
  function Work(s: State): nat {
    JobsWork(s.jobs) + SeriesWork(s.series) + TasksWork(s.tasks)
  }

  lemma {:induction false} JobsWorkAt(jobs: seq<Job>, i: int, j: Job)
    requires 0 <= i < |jobs|
    ensures JobsWork(jobs[i := j]) == JobsWork(jobs) - JobWork(jobs[i]) + JobWork(j)
  {
    if i > 0 {
      JobsWorkAt(jobs[1..], i - 1, j);
      assert jobs[i := j][1..] == jobs[1..][i - 1 := j];
    } else {
      assert jobs[0 := j][1..] == jobs[1..];
    }
  }

  lemma {:induction false} JobsWorkPush(jobs: seq<Job>, j: Job)
    ensures JobsWork(jobs + [j]) == JobsWork(jobs) + JobWork(j)
  {
    if jobs != [] {
      JobsWorkPush(jobs[1..], j);
      assert (jobs + [j])[1..] == jobs[1..] + [j];
    }
  }

  lemma {:induction false} SeriesWorkAt(series: seq<Series>, w: int, x: Series)
    requires 0 <= w < |series|
    ensures SeriesWork(series[w := x]) == SeriesWork(series)
      - (if series[w].place == Unstarted then 4 else 0) + (if x.place == Unstarted then 4 else 0)
  {
    if w > 0 {
      SeriesWorkAt(series[1..], w - 1, x);
      assert series[w := x][1..] == series[1..][w - 1 := x];
    } else {
      assert series[0 := x][1..] == series[1..];
    }
  }

  lemma {:induction false} TasksWorkAt(tasks: seq<Task>, t: int, x: Task)
    requires 0 <= t < |tasks|
    ensures TasksWork(tasks[t := x]) == TasksWork(tasks)
      - (if tasks[t].dones == 0 then 5 else 0) + (if x.dones == 0 then 5 else 0)
  {
    if t > 0 {
      TasksWorkAt(tasks[1..], t - 1, x);
      assert tasks[t := x][1..] == tasks[1..][t - 1 := x];
    } else {
      assert tasks[0 := x][1..] == tasks[1..];
    }
  }

  lemma DoneDoesWork(s: State, i: int)
    requires Inv(s) && Enabled(s, Run(i)) && s.jobs[i].Finish?
    ensures Work(Apply(s, Run(i))) < Work(s)
  {
    var u, t := Apply(s, Run(i)), s.jobs[i].task;
    DoneMoves(s, i);
    hide Shape, AllSeries, AllTasks, AllJobs, AllCarried, Apart, JobsWork, SeriesWork, TasksWork, SeriesOk, ParOk,
      Only, SameTasks;
    JobFacts(s, i);
    var w := s.tasks[t].home;
    SeriesFacts(s, w);
    JobsWorkAt(s.jobs, i, u.jobs[i]);
    SeriesWorkAt(s.series, w, u.series[w]);
    TasksWorkAt(s.tasks, t, u.tasks[t]);
    TaskFacts(s, t);
  }

  lemma PassDoesWork(s: State, i: int)
    requires Inv(s) && Enabled(s, Run(i)) && s.jobs[i].Pass?
    ensures Work(Apply(s, Run(i))) < Work(s)
  {
    var u, t := Apply(s, Run(i)), s.jobs[i].task;
    hide Shape, AllSeries, AllTasks, AllJobs, AllCarried, Apart, JobsWork, SeriesWork, TasksWork;
    JobFacts(s, i);
    var w := s.tasks[t].home;
    JobsWorkAt(s.jobs, i, u.jobs[i]);
    SeriesWorkAt(s.series, w, u.series[w]);
    TasksWorkAt(s.tasks, t, u.tasks[t]);
  }

  lemma DropDoesWork(s: State, i: int)
    requires Inv(s) && Enabled(s, Run(i)) && s.jobs[i].Drop?
    ensures Work(Apply(s, Run(i))) < Work(s)
  {
    var u, p, w := Apply(s, Run(i)), s.jobs[i].parent, s.jobs[i].from;
    hide Shape, AllSeries, AllTasks, AllJobs, AllCarried, Apart, JobsWork, SeriesWork, TasksWork;
    JobFacts(s, i);
    JobsWorkAt(s.jobs, i, u.jobs[i]);
    SeriesWorkAt(s.series, w, u.series[w]);
    TasksWorkAt(s.tasks, p, u.tasks[p]);
  }

  lemma LoopDoesWork(s: State, i: int)
    requires Inv(s) && Enabled(s, Run(i)) && s.jobs[i].Loop?
    ensures Work(Apply(s, Run(i))) < Work(s)
  {
    var u, t := Apply(s, Run(i)), s.jobs[i].task;
    hide Shape, AllSeries, AllTasks, AllJobs, AllCarried, Apart, JobsWork, SeriesWork, TasksWork, KidsOk, ParOk,
      Carried, Dispatched, OwnerOk, StartedUpTo;
    JobFacts(s, i);
    TaskFacts(s, t);
    var w := s.tasks[t].kids[s.jobs[i].next];
    JobsWorkAt(s.jobs, i, u.jobs[i]);
    SeriesWorkAt(s.series, w, u.series[w]);
    JobsWorkPush(s.jobs[i := u.jobs[i]], u.jobs[|s.jobs|]);
  }

  // Every step but a push does some of the work.
  lemma StepDoesWork(s: State, a: Action)
    requires Inv(s) && Enabled(s, a)
    ensures Work(Apply(s, a)) < Work(s) + if a.Push? then 1 else 0
  {
    var u := Apply(s, a);
    hide Shape, AllSeries, AllTasks, AllJobs, AllCarried, JobsWork, SeriesWork, TasksWork;
    match a
    case Start(w) =>
      JobsWorkPush(s.jobs, u.jobs[|s.jobs|]);
      SeriesWorkAt(s.series, w, u.series[w]);
    case Push(w, t, front) =>
      SeriesWorkAt(s.series, w, u.series[w]);
      TasksWorkAt(s.tasks, t, u.tasks[t]);
    case Run(i) =>
      match s.jobs[i]
      case Leaf(t) => JobsWorkAt(s.jobs, i, Finish(t));
      case Finish(_) => DoneDoesWork(s, i);
      case Pass(_, _) => PassDoesWork(s, i);
      case Drop(_, _) => DropDoesWork(s, i);
      case Loop(_, _) => LoopDoesWork(s, i);
  }

  function Pushes(run: seq<Action>): nat {
    if run == [] then 0 else (if run[0].Push? then 1 else 0) + Pushes(run[1..])
  }

  // So a run makes at most as many steps, apart from pushes, as there was work to begin with.
  lemma {:induction false} RunsEnd(s: State, run: seq<Action>, u: State)
    requires Inv(s) && Leads(s, run, u)
    ensures |run| - Pushes(run) + Work(u) <= Work(s)
    decreases |run|
  {
    if run != [] {
      StepDoesWork(s, run[0]);
      StepKeepsInv(s, run[0]);
      RunsEnd(Apply(s, run[0]), run[1..], u);
    }
  }
}
