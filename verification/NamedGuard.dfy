/**
 Named guards (__NamedGuardMap and __WFNamedGuard in workflow/src/factory/WFTaskFactory.cc, on
 WFConditional of WFTask.h): asynchronous locks, looked up by name, counted, and handed over in
 the order of dispatch.  A step below is one critical section or one atomic exchange.
 */
module NamedGuard {

  // How far a guard is.
  datatype Phase =
    | Created
    | Entered      // dispatch has looked at the list; WFConditional::dispatch comes next
    | Suspended    // WFConditional::dispatch found the flag clear
    | Running      // the inner task was started, and the guard object is gone
    | Released     // and has released the name
    | Destroyed    // was deleted without having been dispatched

  datatype Guard = Guard(
    list: nat,
    phase: Phase,
    flag: bool,        // WFConditional::flag
    holder: bool,      // it has been given the name and has not released it
    toSignal: bool     // a release took it off the list and is about to signal it
  )

  datatype List = List(
    name: int,
    acquired: bool,
    refcnt: int,
    waiters: seq<nat>,
    freed: bool,
    arrived: seq<nat>,    // every guard that was dispatched here, in order
    granted: seq<nat>     // every guard that was given the name, in order
  )

  datatype State = State(guards: seq<Guard>, lists: seq<List>, root: map<int, nat>)

  function Init(): State {
    State([], [], map[])
  }

  datatype Action =
    | Create(name: int)
    | Destroy(guard: nat)
    | Enter(guard: nat)       // __WFNamedGuard::dispatch, under the list's lock
    | Dispatch(guard: nat)    // WFConditional::dispatch
    | Release(guard: nat)     // __NamedGuardMap::release, called by the holder
    | Signal(guard: nat)      // WFConditional::signal by the releaser

  predicate Enabled(s: State, a: Action) {
    match a
    case Create(_) => true
    case Destroy(g) => g < |s.guards| && s.guards[g].phase == Created
    case Enter(g) => g < |s.guards| && s.guards[g].phase == Created
    case Dispatch(g) => g < |s.guards| && s.guards[g].phase == Entered
    case Release(g) => g < |s.guards| && s.guards[g].phase == Running
    case Signal(g) => g < |s.guards| && s.guards[g].toSignal
  }

  predicate Linked(s: State) {
    && (forall g :: 0 <= g < |s.guards| ==> s.guards[g].list < |s.lists|)
    && (forall n :: n in s.root ==> s.root[n] < |s.lists|)
    && (forall l :: 0 <= l < |s.lists| ==> forall i :: 0 <= i < |s.lists[l].waiters| ==>
      s.lists[l].waiters[i] < |s.guards|)
  }

  // One reference less; the last one takes the list out of the tree and frees it.
  function Unref(s: State, l: nat): State
    requires l < |s.lists|
  {
    var x := s.lists[l].(refcnt := s.lists[l].refcnt - 1);
    if x.refcnt == 0 then s.(lists := s.lists[l := x.(freed := true)], root := s.root - {x.name})
    else s.(lists := s.lists[l := x])
  }

  function SetGuard(s: State, g: nat, x: Guard): State
    requires g < |s.guards|
  {
    s.(guards := s.guards[g := x])
  }

  function SetList(s: State, l: nat, x: List): State
    requires l < |s.lists|
  {
    s.(lists := s.lists[l := x])
  }

  function CreateStep(s: State, name: int): State
    requires Linked(s)
  {
    if name in s.root then
      var l := s.root[name];
      var x := Guard(l, Created, false, false, false);
      SetList(s, l, s.lists[l].(refcnt := s.lists[l].refcnt + 1)).(guards := s.guards + [x])
    else
      State(s.guards + [Guard(|s.lists|, Created, false, false, false)],
            s.lists + [List(name, false, 1, [], false, [], [])], s.root[name := |s.lists|])
  }

  function EnterStep(s: State, g: nat): State
    requires Linked(s) && g < |s.guards|
  {
    var x, l := s.guards[g], s.guards[g].list;
    var y := s.lists[l].(arrived := s.lists[l].arrived + [g]);
    if y.acquired then
      SetGuard(SetList(s, l, y.(waiters := y.waiters + [g])), g, x.(phase := Entered))
    else
      SetGuard(SetList(s, l, y.(acquired := true, granted := y.granted + [g])), g,
        x.(phase := Entered, flag := true, holder := true))
  }

  function ReleaseStep(s: State, g: nat): State
    requires Linked(s) && g < |s.guards|
  {
    var name := s.lists[s.guards[g].list].name;
    var u := SetGuard(s, g, s.guards[g].(phase := Released, holder := false));
    if name !in s.root then u
    else
      var l := s.root[name];
      var x := s.lists[l];
      if x.refcnt == 1 then Unref(u, l)
      else if x.waiters != [] then
        var w := x.waiters[0];
        SetGuard(SetList(u, l, x.(refcnt := x.refcnt - 1, waiters := x.waiters[1..], granted := x.granted + [w])),
                 w, u.guards[w].(holder := true, toSignal := true))
      else SetList(u, l, x.(refcnt := x.refcnt - 1, acquired := false))
  }

  function Apply(s: State, a: Action): State
    requires Linked(s) && Enabled(s, a)
  {
    match a
    case Create(name) => CreateStep(s, name)
    // The flag is clear, so the destructor gives the reference back.
    case Destroy(g) =>
      var u := SetGuard(s, g, s.guards[g].(phase := Destroyed));
      if s.guards[g].flag then u else Unref(u, s.guards[g].list)
    case Enter(g) => EnterStep(s, g)
    case Dispatch(g) =>
      SetGuard(s, g, s.guards[g].(flag := true, phase := if s.guards[g].flag then Running else Suspended))
    case Release(g) => ReleaseStep(s, g)
    case Signal(g) =>
      SetGuard(s, g, s.guards[g].(flag := true, toSignal := false,
        phase := if s.guards[g].flag then Running else s.guards[g].phase))
  }

  /* ---------- the invariant ---------- */

  predicate Refers(x: Guard, l: nat) {
    x.list == l && (x.phase == Created || x.phase == Entered || x.phase == Suspended || x.phase == Running)
  }

  // The guards that refer to list `l`: undispatched, waiting or holding.
  function Refs(guards: seq<Guard>, l: nat): nat {
    if guards == [] then 0 else (if Refers(guards[0], l) then 1 else 0) + Refs(guards[1..], l)
  }

  function Holders(guards: seq<Guard>, l: nat): nat {
    if guards == [] then 0 else (if guards[0].list == l && guards[0].holder then 1 else 0) + Holders(guards[1..], l)
  }

  ghost predicate GuardOk(x: Guard) {
    match x.phase
    case Created => !x.flag && !x.holder && !x.toSignal
    case Entered => x.flag == (x.holder && !x.toSignal) && (x.toSignal ==> x.holder)
    case Suspended => x.flag && x.toSignal == x.holder
    case Running => x.flag && x.holder && !x.toSignal
    case Released => !x.holder && !x.toSignal
    case Destroyed => !x.holder && !x.toSignal
  }

  predicate Waits(x: Guard, l: nat) {
    x.list == l && (x.phase == Entered || x.phase == Suspended) && !x.holder
  }

  ghost predicate WaitersOk(guards: seq<Guard>, y: List, l: nat) {
    && (forall i :: 0 <= i < |y.waiters| ==> y.waiters[i] < |guards| && Waits(guards[y.waiters[i]], l))
    && (forall i, j :: 0 <= i < j < |y.waiters| ==> y.waiters[i] != y.waiters[j])
    && (forall g :: 0 <= g < |guards| && Waits(guards[g], l) ==> g in y.waiters)
    && (y.waiters != [] ==> y.acquired)
    && y.arrived == y.granted + y.waiters
  }

  ghost predicate CountsOk(guards: seq<Guard>, y: List, l: nat) {
    && y.refcnt == Refs(guards, l) && (y.freed <==> y.refcnt == 0)
    && Holders(guards, l) == (if y.acquired && !y.freed then 1 else 0)
  }

  // The tree holds the lists that are not freed.
  ghost predicate RootOk(s: State) {
    && (forall n :: n in s.root ==> s.root[n] < |s.lists| && s.lists[s.root[n]].name == n && !s.lists[s.root[n]].freed)
    && (forall l :: 0 <= l < |s.lists| && !s.lists[l].freed ==>
      s.lists[l].name in s.root && s.root[s.lists[l].name] == l)
  }

  ghost predicate Inv(s: State) {
    && (forall g :: 0 <= g < |s.guards| ==> s.guards[g].list < |s.lists| && GuardOk(s.guards[g]))
    && (forall l :: 0 <= l < |s.lists| ==> WaitersOk(s.guards, s.lists[l], l))
    && (forall l :: 0 <= l < |s.lists| ==> CountsOk(s.guards, s.lists[l], l))
    && RootOk(s)
  }

  lemma InvLinked(s: State)
    requires Inv(s)
    ensures Linked(s)
  {
    forall l | 0 <= l < |s.lists|
      ensures forall i :: 0 <= i < |s.lists[l].waiters| ==> s.lists[l].waiters[i] < |s.guards|
    {
      assert WaitersOk(s.guards, s.lists[l], l);
    }
  }

  lemma {:induction false} RefsAt(guards: seq<Guard>, g: nat, x: Guard, l: nat)
    requires g < |guards|
    ensures Refs(guards[g := x], l) ==
      Refs(guards, l) - (if Refers(guards[g], l) then 1 else 0) + (if Refers(x, l) then 1 else 0)
    ensures Holders(guards[g := x], l) == Holders(guards, l)
      - (if guards[g].list == l && guards[g].holder then 1 else 0) + (if x.list == l && x.holder then 1 else 0)
  {
    if g > 0 {
      RefsAt(guards[1..], g - 1, x, l);
      assert guards[g := x][1..] == guards[1..][g - 1 := x];
    } else {
      assert guards[0 := x][1..] == guards[1..];
    }
  }

  lemma {:induction false} RefsPush(guards: seq<Guard>, x: Guard, l: nat)
    ensures Refs(guards + [x], l) == Refs(guards, l) + (if Refers(x, l) then 1 else 0)
    ensures Holders(guards + [x], l) == Holders(guards, l) + (if x.list == l && x.holder then 1 else 0)
  {
    if guards != [] {
      RefsPush(guards[1..], x, l);
      assert (guards + [x])[1..] == guards[1..] + [x];
    }
  }

  lemma {:induction false} RefsSome(guards: seq<Guard>, g: nat, l: nat)
    requires g < |guards|
    ensures Refers(guards[g], l) ==> Refs(guards, l) > 0
    ensures guards[g].list == l && guards[g].holder ==> Holders(guards, l) > 0
  {
    if g > 0 { RefsSome(guards[1..], g - 1, l); }
  }

  // What the list's counts say about one of its guards.
  lemma GuardFacts(s: State, g: nat)
    requires Inv(s) && g < |s.guards|
    ensures s.guards[g].list < |s.lists| && GuardOk(s.guards[g])
    ensures var l := s.guards[g].list;
      var y := s.lists[l];
      && WaitersOk(s.guards, y, l) && CountsOk(s.guards, y, l)
      && (Refers(s.guards[g], l) ==> y.refcnt > 0 && !y.freed && y.name in s.root && s.root[y.name] == l)
      && (s.guards[g].holder ==> y.acquired && Refers(s.guards[g], l))
  {
    var x := s.guards[g];
    assert s.guards[g].list < |s.lists| && GuardOk(s.guards[g]);
    assert WaitersOk(s.guards, s.lists[x.list], x.list) && CountsOk(s.guards, s.lists[x.list], x.list);
    RefsSome(s.guards, g, x.list);
  }

  lemma {:induction false} HoldersRefer(guards: seq<Guard>, l: nat)
    requires forall g :: 0 <= g < |guards| ==> GuardOk(guards[g])
    ensures Holders(guards, l) <= Refs(guards, l)
  {
    if guards != [] { HoldersRefer(guards[1..], l); }
  }

  // Lists other than the one whose guards change.
  lemma {:induction false} SameRefs(gs: seq<Guard>, hs: seq<Guard>, l: nat)
    requires |gs| == |hs| && forall g :: 0 <= g < |gs| ==> hs[g] == gs[g] || (gs[g].list != l && hs[g].list != l)
    ensures Refs(hs, l) == Refs(gs, l) && Holders(hs, l) == Holders(gs, l)
  {
    if gs != [] { SameRefs(gs[1..], hs[1..], l); }
  }

  lemma OtherList(gs: seq<Guard>, hs: seq<Guard>, y: List, l: nat)
    requires |gs| == |hs| && forall g :: 0 <= g < |gs| ==> hs[g] == gs[g] || (gs[g].list != l && hs[g].list != l)
    requires WaitersOk(gs, y, l) && CountsOk(gs, y, l)
    ensures WaitersOk(hs, y, l) && CountsOk(hs, y, l)
  {
    SameRefs(gs, hs, l);
  }

  // A step on the guards of list `l`.
  lemma OneList(s: State, u: State, l: nat)
    requires Inv(s) && l < |s.lists| == |u.lists| && |s.guards| == |u.guards|
    requires forall g :: 0 <= g < |s.guards| ==>
      u.guards[g] == s.guards[g] || (s.guards[g].list == l && u.guards[g].list == l)
    requires forall m :: 0 <= m < |s.lists| && m != l ==> u.lists[m] == s.lists[m]
    requires forall g :: 0 <= g < |s.guards| ==> GuardOk(u.guards[g])
    requires WaitersOk(u.guards, u.lists[l], l) && CountsOk(u.guards, u.lists[l], l) && RootOk(u)
    ensures Inv(u)
  {
    forall g | 0 <= g < |u.guards|
      ensures u.guards[g].list < |u.lists|
    {
      assert s.guards[g].list < |s.lists|;
    }
    forall m | 0 <= m < |u.lists|
      ensures WaitersOk(u.guards, u.lists[m], m) && CountsOk(u.guards, u.lists[m], m)
    {
      if m != l {
        assert WaitersOk(s.guards, s.lists[m], m) && CountsOk(s.guards, s.lists[m], m);
        OtherList(s.guards, u.guards, s.lists[m], m);
      }
    }
  }

  // A guard joins the end of the queue.
  lemma WaiterJoins(gs: seq<Guard>, g: nat, x: Guard, y: List, l: nat)
    requires g < |gs| && !Waits(gs[g], l) && Waits(x, l) && WaitersOk(gs, y, l) && y.acquired
    ensures WaitersOk(gs[g := x], y.(waiters := y.waiters + [g], arrived := y.arrived + [g]), l)
  {
    var hs, q := gs[g := x], y.waiters + [g];
    forall h | 0 <= h < |hs| && Waits(hs[h], l)
      ensures h in q
    {
      if h == g { assert q[|y.waiters|] == g; } else { assert h in y.waiters; }
    }
  }

  // A guard that does not wait, before or after.
  lemma WaitersStay(gs: seq<Guard>, g: nat, x: Guard, y: List, l: nat)
    requires g < |gs| && !Waits(gs[g], l) && !Waits(x, l) && WaitersOk(gs, y, l)
    ensures WaitersOk(gs[g := x], y, l)
  {
  }

  // The first guard of the queue is given the name.
  lemma WaiterLeaves(gs: seq<Guard>, x: Guard, y: List, l: nat)
    requires WaitersOk(gs, y, l) && y.waiters != [] && !Waits(x, l)
    ensures y.waiters[0] < |gs|
    ensures WaitersOk(gs[y.waiters[0] := x], y.(waiters := y.waiters[1..], granted := y.granted + [y.waiters[0]]), l)
  {
    var w, q := y.waiters[0], y.waiters[1..];
    var hs := gs[w := x];
    assert y.waiters == [w] + q;
    forall h | 0 <= h < |hs| && Waits(hs[h], l)
      ensures h in q
    {
      assert h in y.waiters;
    }
  }

  /* ---------- the steps keep the invariant ---------- */

  lemma DispatchKeeps(s: State, g: nat)
    requires Inv(s) && Linked(s) && Enabled(s, Dispatch(g))
    ensures Inv(Apply(s, Dispatch(g)))
  {
    var u, l := Apply(s, Dispatch(g)), s.guards[g].list;
    GuardFacts(s, g);
    RefsAt(s.guards, g, u.guards[g], l);
    OneList(s, u, l);
  }

  lemma SignalKeeps(s: State, g: nat)
    requires Inv(s) && Linked(s) && Enabled(s, Signal(g))
    ensures Inv(Apply(s, Signal(g)))
  {
    var u, l := Apply(s, Signal(g)), s.guards[g].list;
    GuardFacts(s, g);
    RefsAt(s.guards, g, u.guards[g], l);
    OneList(s, u, l);
  }

  lemma EnterKeeps(s: State, g: nat)
    requires Inv(s) && Linked(s) && Enabled(s, Enter(g))
    ensures Inv(Apply(s, Enter(g)))
  {
    var u, l := Apply(s, Enter(g)), s.guards[g].list;
    GuardFacts(s, g);
    RefsAt(s.guards, g, u.guards[g], l);
    if s.lists[l].acquired {
      WaiterJoins(s.guards, g, u.guards[g], s.lists[l], l);
    } else {
      WaitersStay(s.guards, g, u.guards[g], s.lists[l], l);
      assert s.lists[l].waiters == [];
    }
    assert WaitersOk(u.guards, u.lists[l], l);
    hide WaitersOk, Refs, Holders, Linked;
    OneList(s, u, l);
  }

  lemma DestroyOnList(s: State, g: nat)
    requires Inv(s) && Linked(s) && Enabled(s, Destroy(g))
    ensures var u, l := Apply(s, Destroy(g)), s.guards[g].list;
      && |u.guards| == |s.guards| && |u.lists| == |s.lists|
      && WaitersOk(u.guards, u.lists[l], l) && CountsOk(u.guards, u.lists[l], l) && RootOk(u)
  {
    var u, l := Apply(s, Destroy(g)), s.guards[g].list;
    GuardFacts(s, g);
    RefsAt(s.guards, g, u.guards[g], l);
    HoldersRefer(u.guards, l);
    WaitersStay(s.guards, g, u.guards[g], s.lists[l], l);
  }

  lemma DestroyKeeps(s: State, g: nat)
    requires Inv(s) && Linked(s) && Enabled(s, Destroy(g))
    ensures Inv(Apply(s, Destroy(g)))
  {
    var u, l := Apply(s, Destroy(g)), s.guards[g].list;
    GuardFacts(s, g);
    DestroyOnList(s, g);
    hide WaitersOk, CountsOk, RootOk, Refs, Holders, Linked;
    OneList(s, u, l);
  }

  lemma ReleaseLastKeeps(s: State, g: nat)
    requires Inv(s) && Linked(s) && Enabled(s, Release(g)) && s.lists[s.guards[g].list].refcnt == 1
    ensures Inv(Apply(s, Release(g)))
  {
    var u, l := Apply(s, Release(g)), s.guards[g].list;
    GuardFacts(s, g);
    RefsAt(s.guards, g, u.guards[g], l);
    OneList(s, u, l);
  }

  lemma ReleaseFreeKeeps(s: State, g: nat)
    requires Inv(s) && Linked(s) && Enabled(s, Release(g))
    requires s.lists[s.guards[g].list].refcnt != 1 && s.lists[s.guards[g].list].waiters == []
    ensures Inv(Apply(s, Release(g)))
  {
    var u, l := Apply(s, Release(g)), s.guards[g].list;
    GuardFacts(s, g);
    RefsAt(s.guards, g, u.guards[g], l);
    OneList(s, u, l);
  }

  lemma ReleaseOnList(s: State, g: nat)
    requires Inv(s) && Linked(s) && Enabled(s, Release(g))
    requires s.lists[s.guards[g].list].refcnt != 1 && s.lists[s.guards[g].list].waiters != []
    ensures var u, l := Apply(s, Release(g)), s.guards[g].list;
      |u.guards| == |s.guards| && |u.lists| == |s.lists| && WaitersOk(u.guards, u.lists[l], l)
        && CountsOk(u.guards, u.lists[l], l)
  {
    var u, l := Apply(s, Release(g)), s.guards[g].list;
    GuardFacts(s, g);
    var y, w := s.lists[l], s.lists[l].waiters[0];
    GuardFacts(s, w);
    hide Refs, Holders, Linked, RootOk, Inv;
    var mid := s.guards[g := u.guards[g]];
    RefsAt(s.guards, g, u.guards[g], l);
    RefsAt(mid, w, u.guards[w], l);
    WaitersStay(s.guards, g, u.guards[g], y, l);
    WaiterLeaves(mid, u.guards[w], y, l);
  }

  lemma ReleaseOnKeeps(s: State, g: nat)
    requires Inv(s) && Linked(s) && Enabled(s, Release(g))
    requires s.lists[s.guards[g].list].refcnt != 1 && s.lists[s.guards[g].list].waiters != []
    ensures Inv(Apply(s, Release(g)))
  {
    var u, l := Apply(s, Release(g)), s.guards[g].list;
    GuardFacts(s, g);
    GuardFacts(s, s.lists[l].waiters[0]);
    ReleaseOnList(s, g);
    hide WaitersOk, CountsOk, Refs, Holders, Linked;
    OneList(s, u, l);
  }

  lemma CreateList(s: State, name: int, l: nat)
    requires Inv(s) && Linked(s) && l < |Apply(s, Create(name)).lists|
    ensures var u := Apply(s, Create(name)); WaitersOk(u.guards, u.lists[l], l) && CountsOk(u.guards, u.lists[l], l)
  {
    var u := Apply(s, Create(name));
    RefsPush(s.guards, u.guards[|s.guards|], l);
    if l < |s.lists| {
      assert WaitersOk(s.guards, s.lists[l], l) && CountsOk(s.guards, s.lists[l], l);
      RefsOfRoot(s, name);
    } else {
      NoRefs(s, l);
    }
    hide Refs, Holders, Linked;
  }

  lemma RefsOfRoot(s: State, name: int)
    requires Inv(s)
    ensures name in s.root ==> s.root[name] < |s.lists| && Refs(s.guards, s.root[name]) > 0
  {
    if name in s.root {
      assert CountsOk(s.guards, s.lists[s.root[name]], s.root[name]);
    }
  }

  lemma CreateKeeps(s: State, name: int)
    requires Inv(s) && Linked(s)
    ensures Inv(Apply(s, Create(name)))
  {
    var u := Apply(s, Create(name));
    forall g | 0 <= g < |u.guards|
      ensures u.guards[g].list < |u.lists| && GuardOk(u.guards[g])
    {
      if g < |s.guards| { GuardFacts(s, g); }
    }
    forall l | 0 <= l < |u.lists|
      ensures WaitersOk(u.guards, u.lists[l], l) && CountsOk(u.guards, u.lists[l], l)
    {
      CreateList(s, name, l);
    }
    hide WaitersOk, CountsOk, Refs, Holders, Linked;
  }

  lemma NoRefs(s: State, l: nat)
    requires Inv(s) && l >= |s.lists|
    ensures Refs(s.guards, l) == 0 && Holders(s.guards, l) == 0
  {
    NoneOf(s.guards, l);
  }

  lemma {:induction false} NoneOf(guards: seq<Guard>, l: nat)
    requires forall g :: 0 <= g < |guards| ==> guards[g].list != l
    ensures Refs(guards, l) == 0 && Holders(guards, l) == 0
  {
    if guards != [] { NoneOf(guards[1..], l); }
  }

  lemma StepKeepsInv(s: State, a: Action)
    requires Inv(s) && Linked(s) && Enabled(s, a)
    ensures Inv(Apply(s, a))
  {
    hide Apply, Inv;
    match a
    case Create(n) => CreateKeeps(s, n);
    case Destroy(g) => DestroyKeeps(s, g);
    case Enter(g) => EnterKeeps(s, g);
    case Dispatch(g) => DispatchKeeps(s, g);
    case Signal(g) => SignalKeeps(s, g);
    case Release(g) =>
      if s.lists[s.guards[g].list].refcnt == 1 {
        ReleaseLastKeeps(s, g);
      } else if s.lists[s.guards[g].list].waiters == [] {
        ReleaseFreeKeeps(s, g);
      } else {
        ReleaseOnKeeps(s, g);
      }
  }

  /* ---------- every run ---------- */

  ghost predicate Leads(s: State, run: seq<Action>, u: State)
    decreases |run|
  {
    if run == [] then s == u
    else Linked(s) && Enabled(s, run[0]) && Leads(Apply(s, run[0]), run[1..], u)
  }

  lemma {:induction false} RunKeepsInv(s: State, run: seq<Action>, u: State)
    requires Inv(s) && Leads(s, run, u)
    ensures Inv(u)
    decreases |run|
  {
    if run != [] {
      StepKeepsInv(s, run[0]);
      RunKeepsInv(Apply(s, run[0]), run[1..], u);
    }
  }

  // A run in which only those who hold a name release it.
  ghost predicate Reached(run: seq<Action>, s: State) {
    Leads(Init(), run, s)
  }

  lemma EveryRunKeepsInv(run: seq<Action>, s: State)
    requires Reached(run, s)
    ensures Inv(s) && Linked(s)
  {
    RunKeepsInv(Init(), run, s);
    InvLinked(s);
  }

  lemma {:induction false} LeadsOn(s: State, run: seq<Action>, u: State, a: Action)
    requires Leads(s, run, u) && Linked(u) && Enabled(u, a)
    ensures Leads(s, run + [a], Apply(u, a))
    decreases |run|
  {
    if run == [] {
      assert Leads(Apply(u, a), [], Apply(u, a));
    } else {
      LeadsOn(Apply(s, run[0]), run[1..], u, a);
      assert (run + [a])[1..] == run[1..] + [a];
    }
  }

  // `Linked` shuts no run out: whatever is enabled can happen next.
  lemma RunsGoOn(run: seq<Action>, s: State, a: Action)
    requires Reached(run, s) && Enabled(s, a)
    ensures Linked(s) && Reached(run + [a], Apply(s, a))
  {
    EveryRunKeepsInv(run, s);
    LeadsOn(Init(), run, s, a);
  }

  lemma {:induction false} TwoHolders(guards: seq<Guard>, g: nat, h: nat, l: nat)
    requires g < h < |guards| && guards[g].list == l && guards[h].list == l && guards[g].holder && guards[h].holder
    ensures Holders(guards, l) > 1
  {
    if g > 0 { TwoHolders(guards[1..], g - 1, h - 1, l); } else { RefsSome(guards[1..], h - 1, l); }
  }

  // One guard at most holds a name, and only the holder's inner task runs.
  lemma OneHolderPerName(run: seq<Action>, s: State, g: nat, h: nat)
    requires Reached(run, s) && g < |s.guards| && h < |s.guards|
    ensures s.guards[g].list < |s.lists| && s.guards[h].list < |s.lists|
    ensures s.guards[g].phase == Running ==> s.guards[g].holder
    ensures s.guards[g].holder && s.guards[h].holder ==>
      s.lists[s.guards[g].list].name == s.lists[s.guards[h].list].name ==> g == h
  {
    EveryRunKeepsInv(run, s);
    GuardFacts(s, g);
    GuardFacts(s, h);
    if s.guards[g].holder && s.guards[h].holder && s.guards[g].list == s.guards[h].list && g != h {
      TwoHolders(s.guards, if g < h then g else h, if g < h then h else g, s.guards[g].list);
    }
  }

  lemma {:induction false} SomeHolder(guards: seq<Guard>, l: nat) returns (h: nat)
    requires Holders(guards, l) > 0
    ensures h < |guards| && guards[h].list == l && guards[h].holder
  {
    if guards[0].list == l && guards[0].holder {
      h := 0;
    } else {
      h := SomeHolder(guards[1..], l);
      h := h + 1;
    }
  }

  // While a guard waits, another one has the name, and that one either runs its inner task or has
  // a step to make that brings it there: no release is lost between the two exchanges of the flag.
  lemma WaitersAreServed(run: seq<Action>, s: State, g: nat) returns (h: nat)
    requires Reached(run, s) && g < |s.guards| && Waits(s.guards[g], s.guards[g].list)
    ensures h < |s.guards| && s.guards[h].list == s.guards[g].list && s.guards[h].holder
    ensures Enabled(s, Release(h)) || Enabled(s, Dispatch(h)) || Enabled(s, Signal(h))
  {
    EveryRunKeepsInv(run, s);
    GuardFacts(s, g);
    h := SomeHolder(s.guards, s.guards[g].list);
    GuardFacts(s, h);
  }

  // The name is given to the guards in the order of their dispatch; those who wait come next.
  lemma FirstComeFirstServed(run: seq<Action>, s: State, l: nat)
    requires Reached(run, s) && l < |s.lists|
    ensures s.lists[l].arrived == s.lists[l].granted + s.lists[l].waiters
    ensures forall g :: 0 <= g < |s.guards| && s.guards[g].list == l ==>
      (g in s.lists[l].waiters <==> Waits(s.guards[g], l))
  {
    EveryRunKeepsInv(run, s);
    assert WaitersOk(s.guards, s.lists[l], l);
  }

  // The reference count is the number of guards that are undispatched, waiting or holding, and a
  // list is freed exactly when there is none left.
  lemma CountIsExact(run: seq<Action>, s: State, l: nat)
    requires Reached(run, s) && l < |s.lists|
    ensures s.lists[l].refcnt == Refs(s.guards, l)
    ensures s.lists[l].freed <==> Refs(s.guards, l) == 0
    ensures s.lists[l].freed <==> !(s.lists[l].name in s.root && s.root[s.lists[l].name] == l)
  {
    EveryRunKeepsInv(run, s);
    assert CountsOk(s.guards, s.lists[l], l);
  }

  // Whatever step comes next, the list it locks or counts is there, release finds the list that
  // its guard was dispatched on, and the guard that is signalled or dispatched is not done yet.
  lemma OnlyLiveObjects(run: seq<Action>, s: State, a: Action)
    requires Reached(run, s) && Enabled(s, a) && !a.Create?
    ensures s.guards[a.guard].list < |s.lists|
    ensures !a.Signal? ==> !s.lists[s.guards[a.guard].list].freed
    ensures a.Release? ==> (s.lists[s.guards[a.guard].list].name, s.guards[a.guard].list) in s.root.Items
    ensures a.Signal? || a.Dispatch? ==> s.guards[a.guard].phase == Entered || s.guards[a.guard].phase == Suspended
  {
    EveryRunKeepsInv(run, s);
    GuardFacts(s, a.guard);
  }

  /* ---------- what the calls of a run come to ---------- */

  // The names of the guards created, and the guards of list `l` dispatched, in the order of the calls.
  function NamesOf(run: seq<Action>): seq<int> {
    if run == [] then [] else (if run[0].Create? then [run[0].name] else []) + NamesOf(run[1..])
  }

  function EntersOf(run: seq<Action>, guards: seq<Guard>, l: nat): seq<nat> {
    if run == [] then []
    else
      var a := run[0];
      (if a.Enter? && a.guard < |guards| && guards[a.guard].list == l then [a.guard] else [])
        + EntersOf(run[1..], guards, l)
  }

  function ArrivedAt(s: State, l: nat): seq<nat> {
    if l < |s.lists| then s.lists[l].arrived else []
  }

  function NameOf(s: State, g: nat): int
    requires Linked(s) && g < |s.guards|
  {
    s.lists[s.guards[g].list].name
  }

  // A guard keeps its list, and a list its name.
  lemma NamesStay(s: State, a: Action)
    requires Inv(s) && Linked(s) && Enabled(s, a)
    ensures var u := Apply(s, a);
      && |u.guards| == |s.guards| + (if a.Create? then 1 else 0) && |u.lists| >= |s.lists|
      && (forall g :: 0 <= g < |s.guards| ==> u.guards[g].list == s.guards[g].list)
      && (forall l :: 0 <= l < |s.lists| ==> u.lists[l].name == s.lists[l].name)
      && (a.Create? ==> u.guards[|s.guards|].list < |u.lists| && u.lists[u.guards[|s.guards|].list].name == a.name)
  {
    hide WaitersOk, CountsOk, GuardOk, Refs, Holders;
  }

  // Only a dispatch adds to the arrivals.
  lemma ArrivalsShow(s: State, a: Action, l: nat)
    requires Linked(s) && Enabled(s, a)
    ensures ArrivedAt(Apply(s, a), l) ==
      ArrivedAt(s, l) + if a.Enter? && s.guards[a.guard].list == l then [a.guard] else []
  {
  }

  lemma {:induction false} RunStays(s: State, run: seq<Action>, u: State)
    requires Inv(s) && Leads(s, run, u)
    ensures Linked(u) && |u.guards| == |s.guards| + |NamesOf(run)| && |u.lists| >= |s.lists|
    ensures forall g :: 0 <= g < |s.guards| ==> u.guards[g].list == s.guards[g].list
    ensures forall l :: 0 <= l < |s.lists| ==> u.lists[l].name == s.lists[l].name
    decreases |run|
  {
    if run == [] {
      InvLinked(s);
    } else {
      StepKeepsInv(s, run[0]);
      NamesStay(s, run[0]);
      RunStays(Apply(s, run[0]), run[1..], u);
      hide Apply, Inv, Linked;
    }
  }

  // The guards that a run creates have the names they were created with.
  lemma {:induction false} RunNames(s: State, run: seq<Action>, u: State, k: nat)
    requires Inv(s) && Leads(s, run, u) && k < |NamesOf(run)|
    ensures Linked(u) && |s.guards| + k < |u.guards| && NameOf(u, |s.guards| + k) == NamesOf(run)[k]
    decreases |run|
  {
    hide Apply, Inv, Linked;
    var a, t := run[0], Apply(s, run[0]);
    StepKeepsInv(s, a);
    NamesStay(s, a);
    RunStays(s, run, u);
    RunStays(t, run[1..], u);
    assert NamesOf(run) == (if a.Create? then [a.name] else []) + NamesOf(run[1..]);
    if !a.Create? {
      RunNames(t, run[1..], u, k);
      hide Leads, NamesOf, Enabled;
    } else if k > 0 {
      RunNames(t, run[1..], u, k - 1);
      hide Leads, NamesOf, Enabled;
    }
  }

  lemma EntersSplit(run: seq<Action>, gs: seq<Guard>, hs: seq<Guard>, l: nat)
    requires run != [] && |gs| <= |hs| && (run[0].Enter? ==> run[0].guard < |gs|)
    requires forall g :: 0 <= g < |gs| ==> hs[g].list == gs[g].list
    ensures EntersOf(run, hs, l) ==
      (if run[0].Enter? && gs[run[0].guard].list == l then [run[0].guard] else []) + EntersOf(run[1..], hs, l)
  {
  }

  // The arrivals at a list are the calls of dispatch on its guards.
  lemma {:induction false} RunArrives(s: State, run: seq<Action>, u: State, l: nat)
    requires Inv(s) && Leads(s, run, u)
    ensures ArrivedAt(u, l) == ArrivedAt(s, l) + EntersOf(run, u.guards, l)
    decreases |run|
  {
    hide Apply, Inv, Linked, ArrivedAt;
    if run != [] {
      var a, t := run[0], Apply(s, run[0]);
      StepKeepsInv(s, a);
      ArrivalsShow(s, a, l);
      RunStays(s, run, u);
      RunArrives(t, run[1..], u, l);
      hide Leads;
      EntersSplit(run, s.guards, u.guards, l);
    }
  }

  // The guards are those that were created, under the names they were created with; and a name is
  // given in the order of the calls of dispatch.
  lemma GuardsAreCalls(run: seq<Action>, s: State, l: nat)
    requires Reached(run, s)
    ensures |s.guards| == |NamesOf(run)| && Linked(s)
    ensures forall g: nat :: g < |s.guards| ==> NameOf(s, g) == NamesOf(run)[g]
    ensures l < |s.lists| ==> s.lists[l].granted + s.lists[l].waiters == EntersOf(run, s.guards, l)
  {
    EveryRunKeepsInv([], Init());
    EveryRunKeepsInv(run, s);
    RunStays(Init(), run, s);
    RunArrives(Init(), run, s, l);
    forall g: nat | g < |s.guards|
      ensures NameOf(s, g) == NamesOf(run)[g]
    {
      RunNames(Init(), run, s, g);
    }
  }

  // The guard that was given the name last is the one that has it.
  ghost predicate LastAt(guards: seq<Guard>, y: List, l: nat) {
    y.acquired && !y.freed ==>
      var q := y.granted;
      q != [] && q[|q| - 1] < |guards| && guards[q[|q| - 1]].list == l && guards[q[|q| - 1]].holder
  }

  ghost predicate LastHolds(s: State) {
    forall l :: 0 <= l < |s.lists| ==> LastAt(s.guards, s.lists[l], l)
  }

  // A list that the step leaves alone.
  lemma LastStays(gs: seq<Guard>, hs: seq<Guard>, y: List, l: nat)
    requires LastAt(gs, y, l) && |gs| <= |hs|
    requires forall g :: 0 <= g < |gs| && gs[g].list == l && gs[g].holder ==> hs[g].list == l && hs[g].holder
    ensures LastAt(hs, y, l)
  {
  }

  lemma ReleaseKeepsLast(s: State, g: nat, l: nat)
    requires Inv(s) && Linked(s) && Enabled(s, Release(g)) && l < |s.lists| && LastAt(s.guards, s.lists[l], l)
    ensures var u := Apply(s, Release(g)); |u.lists| == |s.lists| && LastAt(u.guards, u.lists[l], l)
  {
    var u, m := Apply(s, Release(g)), s.guards[g].list;
    GuardFacts(s, g);
    hide RootOk, CountsOk, GuardOk, Refs, Holders;
    if l == m {
    } else {
      LastStays(s.guards, u.guards, s.lists[l], l);
    }
  }

  lemma EnterKeepsLast(s: State, g: nat, l: nat)
    requires Inv(s) && Linked(s) && Enabled(s, Enter(g)) && l < |s.lists| && LastAt(s.guards, s.lists[l], l)
    ensures var u := Apply(s, Enter(g)); |u.lists| == |s.lists| && LastAt(u.guards, u.lists[l], l)
  {
    var u, m := Apply(s, Enter(g)), s.guards[g].list;
    GuardFacts(s, g);
    hide RootOk, CountsOk, WaitersOk, Refs, Holders;
    if l == m && !s.lists[m].acquired {
    } else {
      LastStays(s.guards, u.guards, s.lists[l], l);
    }
  }

  // Steps that neither take the name nor give it away.
  lemma QuietKeepsLast(s: State, a: Action, l: nat)
    requires Inv(s) && Linked(s) && Enabled(s, a) && !a.Enter? && !a.Release?
    requires l < |s.lists| && LastAt(s.guards, s.lists[l], l)
    ensures var u := Apply(s, a); |u.lists| >= |s.lists| && LastAt(u.guards, u.lists[l], l)
  {
    if !a.Create? { GuardFacts(s, a.guard); }
    hide RootOk, CountsOk, WaitersOk, Refs, Holders, Linked;
    LastStays(s.guards, Apply(s, a).guards, s.lists[l], l);
  }

  lemma StepKeepsLast(s: State, a: Action)
    requires Inv(s) && Linked(s) && LastHolds(s) && Enabled(s, a)
    ensures LastHolds(Apply(s, a))
  {
    var u := Apply(s, a);
    forall l | 0 <= l < |u.lists|
      ensures LastAt(u.guards, u.lists[l], l)
    {
      if l < |s.lists| {
        assert LastAt(s.guards, s.lists[l], l);
        match a {
          case Enter(g) => EnterKeepsLast(s, g, l);
          case Release(g) => ReleaseKeepsLast(s, g, l);
          case _ => QuietKeepsLast(s, a, l);
        }
      }
    }
  }

  // Whoever has, or had, the name was given it.
  ghost predicate OnlyGranted(s: State)
    requires Linked(s)
  {
    forall g :: 0 <= g < |s.guards| && (s.guards[g].holder || s.guards[g].phase == Released) ==>
      g in s.lists[s.guards[g].list].granted
  }

  // What was granted stays so.
  lemma GrantedStays(s: State, a: Action, l: nat)
    requires Linked(s) && Enabled(s, a) && l < |s.lists|
    ensures |Apply(s, a).lists| >= |s.lists| && s.lists[l].granted <= Apply(s, a).lists[l].granted
  {
  }

  // The guards that a step gives the name to.
  lemma NewlyGranted(s: State, a: Action, g: nat)
    requires Inv(s) && Linked(s) && Enabled(s, a) && g < |Apply(s, a).guards|
    requires var x := Apply(s, a).guards[g]; x.holder || x.phase == Released
    requires g < |s.guards| ==> !s.guards[g].holder && s.guards[g].phase != Released
    ensures var u := Apply(s, a); u.guards[g].list < |u.lists| && g in u.lists[u.guards[g].list].granted
  {
    if !a.Create? { GuardFacts(s, a.guard); }
    hide RootOk, CountsOk, Refs, Holders;
    var u := Apply(s, a);
    match a {
      case Enter(h) =>
        var q := s.lists[s.guards[h].list].granted;
        assert (q + [h])[|q|] == h;
      case Release(h) =>
        var y := s.lists[s.guards[h].list];
        assert y.waiters != [] && g == y.waiters[0];
        assert (y.granted + [g])[|y.granted|] == g;
      case _ =>
    }
  }

  lemma StepKeepsGranted(s: State, a: Action)
    requires Inv(s) && Linked(s) && OnlyGranted(s) && Enabled(s, a)
    ensures Linked(Apply(s, a)) && OnlyGranted(Apply(s, a))
  {
    var u := Apply(s, a);
    StepKeepsInv(s, a);
    InvLinked(u);
    NamesStay(s, a);
    forall g | 0 <= g < |u.guards| && (u.guards[g].holder || u.guards[g].phase == Released)
      ensures g in u.lists[u.guards[g].list].granted
    {
      if g < |s.guards| && (s.guards[g].holder || s.guards[g].phase == Released) {
        GrantedStays(s, a, s.guards[g].list);
        hide Apply, Inv;
      } else {
        NewlyGranted(s, a, g);
      }
    }
  }

  lemma {:induction false} RunKeepsLast(s: State, run: seq<Action>, u: State)
    requires Inv(s) && Linked(s) && LastHolds(s) && OnlyGranted(s) && Leads(s, run, u)
    ensures LastHolds(u) && Linked(u) && OnlyGranted(u)
    decreases |run|
  {
    if run != [] {
      StepKeepsInv(s, run[0]);
      StepKeepsLast(s, run[0]);
      StepKeepsGranted(s, run[0]);
      RunKeepsLast(Apply(s, run[0]), run[1..], u);
    }
  }

  lemma HolderIsLastGranted(run: seq<Action>, s: State, g: nat)
    requires Reached(run, s) && g < |s.guards| && s.guards[g].holder
    ensures s.guards[g].list < |s.lists|
    ensures var q := s.lists[s.guards[g].list].granted; q != [] && q[|q| - 1] == g
  {
    EveryRunKeepsInv([], Init());
    EveryRunKeepsInv(run, s);
    RunKeepsLast(Init(), run, s);
    GuardFacts(s, g);
    var l := s.guards[g].list;
    var q := s.lists[l].granted;
    var h := q[|q| - 1];
    if h != g { TwoHolders(s.guards, if g < h then g else h, if g < h then h else g, l); }
  }

  /* ---------- every guard gets its turn ---------- */

  function Rank(x: Guard): nat {
    (match x.phase
     case Created => 10
     case Entered => 8
     case Suspended => 6
     case Running => 4
     case Released => 0
     case Destroyed => 0) + if x.toSignal then 1 else 0
  }

  // What is left to do.
  function Work(guards: seq<Guard>): nat {
    if guards == [] then 0 else Rank(guards[0]) + Work(guards[1..])
  }

  lemma {:induction false} WorkAt(guards: seq<Guard>, g: nat, x: Guard)
    requires g < |guards|
    ensures Work(guards[g := x]) == Work(guards) - Rank(guards[g]) + Rank(x)
  {
    if g == 0 {
      assert guards[0 := x][1..] == guards[1..];
    } else {
      assert guards[g := x][1..] == guards[1..][g - 1 := x];
      WorkAt(guards[1..], g - 1, x);
    }
  }

  lemma {:induction false} WorkPush(guards: seq<Guard>, x: Guard)
    ensures Work(guards + [x]) == Work(guards) + Rank(x)
  {
    if guards == [] {
      assert [x][1..] == [];
    } else {
      assert (guards + [x])[1..] == guards[1..] + [x];
      WorkPush(guards[1..], x);
    }
  }

  lemma ReleaseDoesWork(s: State, g: nat)
    requires Inv(s) && Linked(s) && Enabled(s, Release(g))
    ensures Work(Apply(s, Release(g)).guards) < Work(s.guards)
  {
    var u, l := Apply(s, Release(g)), s.guards[g].list;
    GuardFacts(s, g);
    var x := s.guards[g].(phase := Released, holder := false);
    WorkAt(s.guards, g, x);
    assert s.root[s.lists[l].name] == l;
    if s.lists[l].refcnt != 1 && s.lists[l].waiters != [] {
      var w := s.lists[l].waiters[0];
      assert Waits(s.guards[w], l) && GuardOk(s.guards[w]);
      WorkAt(s.guards[g := x], w, s.guards[w].(holder := true, toSignal := true));
    }
    hide Work, Refs, Holders;
  }

  lemma QuietDoesWork(s: State, a: Action)
    requires Inv(s) && Linked(s) && Enabled(s, a) && !a.Create? && !a.Release?
    ensures Work(Apply(s, a).guards) < Work(s.guards)
  {
    hide Work, Refs, Holders, WaitersOk, CountsOk, RootOk, Linked;
    var u := Apply(s, a);
    GuardFacts(s, a.guard);
    WorkAt(s.guards, a.guard, u.guards[a.guard]);
    assert u.guards == s.guards[a.guard := u.guards[a.guard]];
  }

  // Every step but a creation does some of it.
  lemma StepDoesWork(s: State, a: Action)
    requires Inv(s) && Linked(s) && Enabled(s, a)
    ensures Work(Apply(s, a).guards) < Work(s.guards) + if a.Create? then 11 else 0
  {
    match a {
      case Release(g) => ReleaseDoesWork(s, g);
      case Create(_) => WorkPush(s.guards, Apply(s, a).guards[|s.guards|]);
      case _ => QuietDoesWork(s, a);
    }
  }

  lemma {:induction false} RunsEnd(s: State, run: seq<Action>, u: State)
    requires Inv(s) && Leads(s, run, u)
    ensures |run| + Work(u.guards) <= Work(s.guards) + 11 * |NamesOf(run)|
    decreases |run|
  {
    if run != [] {
      StepKeepsInv(s, run[0]);
      StepDoesWork(s, run[0]);
      RunsEnd(Apply(s, run[0]), run[1..], u);
    }
  }

  // When there is nothing left to do but to create new guards, every guard that was dispatched has
  // had the name and released it, and every other one has been deleted.
  lemma EveryoneHadTheName(run: seq<Action>, s: State, g: nat)
    requires Reached(run, s) && g < |s.guards|
    requires forall a :: Enabled(s, a) ==> a.Create?
    ensures s.guards[g].phase == Destroyed || s.guards[g].phase == Released
    ensures s.guards[g].phase == Released ==> Linked(s) && g in s.lists[s.guards[g].list].granted
  {
    assert !Enabled(s, Enter(g)) && !Enabled(s, Dispatch(g)) && !Enabled(s, Release(g)) && !Enabled(s, Signal(g));
    EveryRunKeepsInv(run, s);
    GuardFacts(s, g);
    if s.guards[g].phase == Suspended {
      assert !s.guards[g].holder && Waits(s.guards[g], s.guards[g].list);
      var h := WaitersAreServed(run, s, g);
    }
    EveryRunKeepsInv([], Init());
    RunKeepsLast(Init(), run, s);
  }
}
