/**
 The containers of a poller's nodes (workflow/src/kernel/poller.c): the sorted timeout list, the
 tree and the list of nodes without a timeout.  Here the hand-off protocol of `PollerProtocol` runs
 together with them; which container a node with a timeout goes to depends on its deadline
 (`PollerTimers`) and is left open.
 */
module PollerContainers {
  import P = PollerProtocol

  datatype Place = Listed | InTree | Untimed

  // `flagged` are the nodes with the `in_rbtree` flag.
  datatype Containers = Containers(listed: set<nat>, inTree: set<nat>, untimed: set<nat>, flagged: set<nat>)

  datatype State = State(protocol: P.State, c: Containers)

  datatype Action =
    | Protocol(a: P.Action, place: Place)    // a node that is inserted goes to `place`
    | SetTimeout(fd: int, place: Place)

  function Init(): State {
    State(P.Init(), Containers({}, {}, {}, {}))
  }

  function Put(c: Containers, n: nat, place: Place): Containers {
    match place
    case Listed => c.(listed := c.listed + {n})
    case InTree => c.(inTree := c.inTree + {n}, flagged := c.flagged + {n})
    case Untimed => c.(untimed := c.untimed + {n})
  }

  // __poller_tree_erase for a node with the flag, list_del for one without.
  function Take(c: Containers, n: nat): Containers {
    if n in c.flagged then c.(inTree := c.inTree - {n}, flagged := c.flagged - {n})
    else c.(listed := c.listed - {n}, untimed := c.untimed - {n})
  }

  // Only nodes with a timeout expire.
  ghost predicate Enabled(s: State, a: Action) {
    match a
    case Protocol(b, _) => P.Enabled(s.protocol, b) && (b.TakeExpired? ==> forall n :: n in b.due ==> n !in s.c.untimed)
    case SetTimeout(_, _) => true
  }

  ghost function Moved(s: P.State, c: Containers, a: P.Action, place: Place): Containers
    requires P.Enabled(s, a)
  {
    match a
    case Add(id, fd) => if fd in s.nodes then c else Put(c, id, place)
    case Del(fd) => if fd in s.nodes then Take(c, s.nodes[fd]) else c
    case Mod(fd, id) => if fd in s.nodes then Put(Take(c, s.nodes[fd]), id, place) else c
    case AddTimer(id) => Put(c, id, place)
    case DelTimer(id) => if id in s.removed then c else Take(c, id)
    case HandleEvent(complete) => if complete && s.batch[0] !in s.removed then Take(c, s.batch[0]) else c
    // The flag of a node that expires stays as it was.
    case TakeExpired(due) =>
      var gone := set n | n in due;
      c.(listed := c.listed - gone, inTree := c.inTree - gone)
    case StopClear(_) => c.(listed := {}, inTree := {}, untimed := {})
    case _ => c
  }

  ghost function Apply(s: State, a: Action): State
    requires Enabled(s, a)
  {
    match a
    case Protocol(b, place) => State(P.Apply(s.protocol, b), Moved(s.protocol, s.c, b, place))
    case SetTimeout(fd, place) =>
      if fd in s.protocol.nodes then s.(c := Put(Take(s.c, s.protocol.nodes[fd]), s.protocol.nodes[fd], place)) else s
  }

  // The nodes that the protocol knows as held are in exactly one container each, and the flag tells
  // the tree from the lists.
  ghost predicate Exact(s: P.State, c: Containers) {
    && c.listed !! c.inTree && c.listed !! c.untimed && c.inTree !! c.untimed
    && c.listed + c.inTree + c.untimed == s.held
    && c.flagged <= s.created
    && forall n :: n in s.held ==> (n in c.flagged <==> n in c.inTree)
  }

  ghost predicate Inv(s: State) {
    P.Inv(s.protocol) && Exact(s.protocol, s.c)
  }

  lemma TakeOne(s: P.State, c: Containers, n: nat, t: P.State)
    requires Exact(s, c) && n in s.held && t.held == s.held - {n} && t.created == s.created
    ensures Exact(t, Take(c, n)) && n !in Take(c, n).flagged
  {
  }

  lemma PutOne(s: P.State, c: Containers, n: nat, place: Place, t: P.State)
    requires Exact(s, c) && n !in s.held && n !in c.flagged && t.held == s.held + {n} && t.created >= s.created
    requires n in t.created
    ensures Exact(t, Put(c, n, place))
  {
  }

  lemma Registered(s: P.State, fd: int)
    requires P.Inv(s) && fd in s.nodes
    ensures s.nodes[fd] in s.held && s.held <= s.created
  {
  }

  lemma MoveKeeps(s: P.State, c: Containers, a: P.Action, place: Place)
    requires P.Inv(s) && Exact(s, c) && Enabled(State(s, c), Protocol(a, place))
    ensures Exact(P.Apply(s, a), Moved(s, c, a, place))
  {
    var t := P.Apply(s, a);
    assert s.held <= s.created;
    match a
    case Add(id, fd) =>
      if fd !in s.nodes { PutOne(s, c, id, place, t); }
    case Del(fd) =>
      if fd in s.nodes { Registered(s, fd); TakeOne(s, c, s.nodes[fd], t); }
    case Mod(fd, id) =>
      if fd in s.nodes {
        Registered(s, fd);
        var u := P.HandOver(s, s.nodes[fd]);
        TakeOne(s, c, s.nodes[fd], u);
        PutOne(u, Take(c, s.nodes[fd]), id, place, t);
      }
    case AddTimer(id) => PutOne(s, c, id, place, t);
    case DelTimer(id) =>
      if id !in s.removed {
        TimerHeld(s, id);
        TakeOne(s, c, id, t);
      }
    case HandleEvent(complete) =>
      if complete && s.batch[0] !in s.removed {
        EventHeld(s);
        TakeOne(s, c, s.batch[0], t);
      }
    case TakeExpired(due) =>
    case _ =>
  }

  lemma TimerHeld(s: P.State, id: nat)
    requires P.Inv(s) && P.Enabled(s, P.DelTimer(id)) && id !in s.removed
    ensures id in s.held
  {
  }

  lemma EventHeld(s: P.State)
    requires P.Inv(s) && s.batch != [] && s.batch[0] !in s.removed
    ensures s.batch[0] in s.held
  {
  }

  lemma StepKeepsInv(s: State, a: Action)
    requires Inv(s) && Enabled(s, a)
    ensures Inv(Apply(s, a))
  {
    match a
    case Protocol(b, place) =>
      P.StepKeepsInv(s.protocol, b);
      MoveKeeps(s.protocol, s.c, b, place);
    case SetTimeout(fd, place) =>
      if fd in s.protocol.nodes {
        var n := s.protocol.nodes[fd];
        Registered(s.protocol, fd);
        var u := s.protocol.(held := s.protocol.held - {n});
        TakeOne(s.protocol, s.c, n, u);
        PutOne(u, Take(s.c, n), n, place, s.protocol);
      }
  }

  ghost predicate Leads(s: State, run: seq<Action>, u: State)
    decreases |run|
  {
    if run == [] then s == u else Enabled(s, run[0]) && Leads(Apply(s, run[0]), run[1..], u)
  }

  lemma {:induction false} RunKeepsInv(s: State, run: seq<Action>, u: State)
    requires Inv(s) && Leads(s, run, u)
    ensures Inv(u)
    decreases |run|
  {
    if run != [] {
      StepKeepsInv(s, run[0]);
      RunKeepsInv(Apply(s, run[0]), run[1..], u);
    }
  }

  lemma InitInv()
    ensures Inv(Init())
  {
    assert P.Possible([]) && P.After([]) == P.Init();
    P.EveryRunKeepsInv([]);
  }

  // In every interleaving, a node that was inserted and not taken out is in exactly one of the three
  // containers, and any other node in none.
  lemma ExactlyOneContainer(run: seq<Action>, s: State, n: nat)
    requires Leads(Init(), run, s)
    ensures (if n in s.c.listed then 1 else 0) + (if n in s.c.inTree then 1 else 0)
      + (if n in s.c.untimed then 1 else 0)
      == if n in s.protocol.held then 1 else 0
    ensures n in s.protocol.held ==> (n in s.c.flagged <==> n in s.c.inTree)
  {
    InitInv();
    RunKeepsInv(Init(), run, s);
  }

  function At(c: Containers, place: Place): set<nat> {
    match place
    case Listed => c.listed
    case InTree => c.inTree
    case Untimed => c.untimed
  }

  // Which containers a node is in.
  ghost function Places(c: Containers, n: nat): set<Place> {
    (if n in c.listed then {Listed} else {}) + (if n in c.inTree then {InTree} else {})
    + (if n in c.untimed then {Untimed} else {})
  }

  ghost predicate Inserts(s: State, a: Action, n: nat) {
    match a
    case SetTimeout(fd, _) => fd in s.protocol.nodes && s.protocol.nodes[fd] == n
    case Protocol(Add(id, fd), _) => id == n && fd !in s.protocol.nodes
    case Protocol(Mod(fd, id), _) => id == n && fd in s.protocol.nodes
    case Protocol(AddTimer(id), _) => id == n
    case _ => false
  }

  // What the invariant says about one node.
  lemma OnlyPlace(s: State, n: nat, place: Place)
    requires Inv(s)
    ensures n !in s.protocol.held ==> Places(s.c, n) == {}
    ensures n in At(s.c, place) ==> Places(s.c, n) == {place}
  {
    hide P.Inv;
  }

  lemma KeptByTimeout(s: State, fd: int, place: Place, n: nat)
    requires Inv(s)
    ensures var t := Apply(s, SetTimeout(fd, place));
      if Inserts(s, SetTimeout(fd, place), n) then n in At(t.c, place) else Places(t.c, n) == Places(s.c, n)
  {
    if fd in s.protocol.nodes { Registered(s.protocol, fd); }
    hide P.Inv;
  }

  lemma Kept(s: State, a: P.Action, place: Place, n: nat)
    requires Inv(s) && Enabled(s, Protocol(a, place))
    ensures var t := Apply(s, Protocol(a, place));
      if Inserts(s, Protocol(a, place), n) then n in At(t.c, place)
      else n in t.protocol.held ==> Places(t.c, n) == Places(s.c, n)
  {
    hide P.Inv;
  }

  // A node that is inserted, or gets a new timeout, is then in the container it was put in, and no
  // other; one that is taken out is in none; and every other node stays where it was.
  lemma WhereNodesGo(run: seq<Action>, s: State, a: Action, n: nat)
    requires Leads(Init(), run, s) && Enabled(s, a)
    ensures Places(Apply(s, a).c, n) ==
      if Inserts(s, a, n) then {a.place}
      else if n in Apply(s, a).protocol.held then Places(s.c, n) else {}
  {
    InitInv();
    RunKeepsInv(Init(), run, s);
    StepKeepsInv(s, a);
    OnlyPlace(Apply(s, a), n, a.place);
    hide *;
    match a
    case Protocol(b, place) => Kept(s, b, place, n);
    case SetTimeout(fd, place) => KeptByTimeout(s, fd, place, n);
  }

  // What the protocol sees of a run: everything but the changes of timeouts.
  function Seen(run: seq<Action>): seq<P.Action> {
    if run == [] then []
    else
      var r, a := Seen(run[..|run| - 1]), run[|run| - 1];
      if a.Protocol? then r + [a.a] else r
  }

  lemma {:induction false} LeadsBack(s: State, run: seq<Action>, u: State) returns (t: State)
    requires Leads(s, run, u) && run != []
    ensures Leads(s, run[..|run| - 1], t) && Enabled(t, run[|run| - 1]) && u == Apply(t, run[|run| - 1])
    decreases |run|
  {
    if |run| == 1 {
      t := s;
      assert Leads(s, [], t) && run[..0] == [];
      assert Leads(Apply(s, run[0]), run[1..], u) && run[1..] == [];
    } else {
      t := LeadsBack(Apply(s, run[0]), run[1..], u);
      assert run[1..][..|run| - 2] == run[..|run| - 1][1..];
    }
  }

  // So poller_set_timeout changes nothing in the protocol, and all that holds of its runs holds here.
  lemma {:induction false} RunsAreProtocolRuns(run: seq<Action>, s: State)
    requires Leads(Init(), run, s)
    ensures P.Possible(Seen(run)) && P.After(Seen(run)) == s.protocol
    decreases |run|
  {
    if run == [] {
      assert P.Possible([]) && P.After([]) == P.Init();
    } else {
      var t := LeadsBack(Init(), run, s);
      var before, a := run[..|run| - 1], run[|run| - 1];
      RunsAreProtocolRuns(before, t);
      if a.Protocol? {
        assert (Seen(before) + [a.a])[..|Seen(before)|] == Seen(before);
      }
    }
  }
}
