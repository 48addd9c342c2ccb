# Verified models of the RPC layer and the workflow engine below it

The repository is an RPC layer (`rpc/src`) on top of an asynchronous task engine
(`workflow/src`). This project models the parts of both whose correctness rests on loops over
mutable structures, on interleaved steps of several threads, or on exact formats, and proves what
they are meant to do.

How the models are made:

- Code that changes structures in place is modelled as classes and methods with the same fields,
  loops and branches, and proved against a simple view of the structure: a red-black tree and its
  in-order sequence (`RbTree`, with the theory of trees and places in trees in `RedBlackTheory`),
  the timer store on top of it (`PollerTimers`), the load heap (`CommScheduler`), the two-list
  queue (`MsgQueue`), the ring of a series (`SeriesWork`), the checksum table (`Crc32`), the codecs
  (`TinyPbCodec`, `RpcMessage`, `EtcdKeys`), the token bucket (`RateLimiter`).
- Code whose difficulty is the interleaving is modelled as a system of steps, one per critical
  section or atomic operation, and the theorems are about every run: the hand-off of nodes in the
  poller (`PollerProtocol`; with its three containers `PollerContainers`; what each call achieves
  `PollerCalls`; that stopping it ends `PollerStop`), fork and join (`SubTasks`; the order within a
  series `SubTaskOrder`), the task graph (`TaskGraph`), the selector (`SelectorTask`), the named
  guard (`NamedGuard`), and the queue's two locks (`MsgQueue`, second part). For four of these the
  runs are also shown to end, and to end where they should.

`dafny verify dfyconfig.toml` checks everything.

What the models show the code does not do:

- `poller_stop` can return before a timer that another thread deletes at the same time has been
  called back (`PollerProtocol.StopCanReturnTooEarly`).  `StopFinishesEveryNode` says which calls of
  other threads make the difference, and `QuietStopFinishesAll` what callers have to refrain from.
- `msgqueue_put_head` does not always put its message first.  After waiting for room it can find
  messages on the getters' list and goes behind them (`MsgQueue.LateHeadIsOvertaken`).  Without
  waiting it can go behind the message of another put_head, since it looks at the getters' list
  without that list's lock (`HeadBehindHead`).  `HeadGoesFirst` gives the exact condition at the
  moment of the insertion, `OnlyHeadGoesFirst` one that callers can arrange for.
- A TinyPB message whose frame does not fit 32 bits is encoded without an error and then refused
  by the decoder (`TinyPbCodec.RoundTrip`); a message of the other protocol whose payload has 2^32
  bytes or more does not arrive as it was sent either (`RpcMessage.RoundTrip`; its meta data cannot
  get that long).
- The rate limiter can grant as little as half of its rate: it counts whole tokens and drops the
  remainder with every refill (`RateLimiter.HalfIsLost`). `AtLeastHalf` shows that a client whose
  bucket never fills up gets no less than that, and `GrantedExactly` when a call is granted.
- The range that stands for a prefix misses keys exactly when the prefix is empty or all 0xFF
  (`EtcdKeys.RangeIsExact`). For the empty prefix the code means to send a zero byte, but assigning
  the literal `"\x00"` to a string leaves it empty, and the model follows the code.

## Model

| member | source | states |
|---|---|---|
| RbTree.RbRoot.Erase | workflow/src/kernel/rbtree.c:222-294 | `rb_erase` on any node of any valid tree takes exactly that node out of the in-order sequence and leaves a valid red-black tree with consistent parent and child links |
| RbTree.RbRoot.EraseOneChild | workflow/src/kernel/rbtree.c:227-293 | the branch for a node with at most one child |
| RbTree.RbRoot.EraseTwoChildren | workflow/src/kernel/rbtree.c:231-274 | the branch in which the successor takes the place of the node |
| RbTree.RbRoot.UnlinkSuccessor | workflow/src/kernel/rbtree.c:233-255 | the successor is taken out of the right subtree; the shape left behind is either valid or one black node short exactly at `parent` |
| RbTree.RbRoot.PromoteSuccessor | workflow/src/kernel/rbtree.c:256-272 | the detached successor takes the place, the colour and all links of the node, and nothing else moves |
| RbTree.RbRoot.EraseColor | workflow/src/kernel/rbtree.c:130-220 | from any tree with one subtree one black node short, the loop restores all rules without changing the in-order sequence, and ends |
| RbTree.RbRoot.EraseRoundLeft | workflow/src/kernel/rbtree.c:137-176 | one round when the short subtree is a left child: the deficit is paid, or moves up, or lands on a red node; no node is lost or reordered |
| RbTree.RbRoot.EraseRoundRight | workflow/src/kernel/rbtree.c:177-216 | the mirror image |
| RbTree.RbRoot.InsertColor | workflow/src/kernel/rbtree.c:65-128 | after a red leaf has been linked, all rules hold again and the in-order sequence is the one with the leaf at its place |
| RbTree.RbRoot.InsertRoundLeft | workflow/src/kernel/rbtree.c:73-98 | one round of the insertion loop below a left child: only the focused node may still have a red parent, and the path above it is shorter |
| RbTree.RbRoot.InsertRoundRight | workflow/src/kernel/rbtree.c:99-124 | the mirror image |
| RbTree.RbRoot.LinkNode | workflow/src/kernel/rbtree.h:140-148 | the new node is a red leaf exactly at the empty place, with consistent links |
| RbTree.RbRoot.Insert | workflow/src/kernel/poller.c:320-321 | linking and recolouring together: the new node stands between what was before and after the place |
| RbTree.RbRoot.RotateLeft | workflow/src/kernel/rbtree.c:25-43 | a rotation reshapes one edge, keeps every link consistent and the in-order sequence unchanged |
| RbTree.RbRoot.RotateRight | workflow/src/kernel/rbtree.c:45-63 | the mirror image |
| RbTree.RbRoot.Next | workflow/src/kernel/rbtree.c:323-344 | the node right after `x` in order, or null at the end |
| RbTree.RbRoot.Prev | workflow/src/kernel/rbtree.c:346-363 | the node right before `x` in order, or null at the beginning |
| RedBlackTheory.PlugInOrder | workflow/src/kernel/rbtree.c:65-294 | what is before a place, in it and after it makes up the in-order sequence of the whole tree: the view in which every loop is proved |
| RedBlackTheory.PlugNodes | workflow/src/kernel/rbtree.c:65-294 | no node occurs twice in the whole exactly when none does in the parts and the parts are apart |
| RedBlackTheory.PlugRedBlack | workflow/src/kernel/rbtree.c:65-294 | a balanced subtree in balanced surroundings makes a red-black tree |
| RedBlackTheory.UnplugRedBlack | workflow/src/kernel/rbtree.c:65-294 | and every place of a red-black tree is of this kind |
| RedBlackTheory.RecolorStep | workflow/src/kernel/rbtree.c:77-84 | with a red uncle, recolouring moves the only possible conflict two levels up |
| RedBlackTheory.RotateStep | workflow/src/kernel/rbtree.c:87-98 | with a black uncle, the rotations end the conflict, in all four arrangements |
| RedBlackTheory.SiblingOnRight | workflow/src/kernel/rbtree.c:139-167 | what the first three cases of the removal loop make of the deficit: it stays, moves up, or the far nephew becomes red |
| RedBlackTheory.PaidFromRight | workflow/src/kernel/rbtree.c:168-172 | the last case pays for the missing black node |
| RedBlackTheory.SiblingOnLeft | workflow/src/kernel/rbtree.c:179-207 | the mirror image of the first three cases |
| RedBlackTheory.PaidFromLeft | workflow/src/kernel/rbtree.c:208-212 | the mirror image of the last case |
| RedBlackTheory.UnlinkStep | workflow/src/kernel/rbtree.c:276-293 | taking out a red node with at most one child breaks no rule, a black one leaves a deficit of one at its place |
| RedBlackTheory.SuccessorSpell | workflow/src/kernel/rbtree.c:233-272 | with the successor in the place of the node, the in-order sequence is the old one without the node |
| RedBlackTheory.SuccessorStep | workflow/src/kernel/rbtree.c:233-274 | and the rules hold, or one black node is missing where the successor was |
| RedBlackTheory.RedBlackDepth | workflow/src/kernel/rbtree.c:65-294 | what the rules are for: a tree of n nodes is at most 2 log2(n + 1) deep |
| PollerTimers.TimerStore.TreeInsert | workflow/src/kernel/poller.c:285-322 | the node goes behind all nodes due no later and before all due later; the tree stays sorted, and `tree_first` and `tree_last` are its ends |
| PollerTimers.TimerStore.FindSlot | workflow/src/kernel/poller.c:303-313 | the descent ends at an empty place that splits the sorted sequence at the deadline |
| PollerTimers.TimerStore.ChooseSlot | workflow/src/kernel/poller.c:291-317 | all three branches choose a right place and the right new ends |
| PollerTimers.TimerStore.TreeErase | workflow/src/kernel/poller.c:324-335 | exactly the node leaves the tree, and the cached ends are again its ends |
| PollerTimers.TimerStore.InsertNode | workflow/src/kernel/poller.c:1261-1288 | a node due no earlier than the last of the list goes to the end of the list, any other to its place in the tree; both stay sorted; the timer is set to the new deadline exactly when it is before all others, and rings no later than the first of all |
| PollerTimers.TimerStore.RemoveNode | workflow/src/kernel/poller.c:343-350 | the node leaves whichever container it is in, and nothing else changes, not even the time the timer is set to |
| PollerTimers.NodeStore.SetTimeout | workflow/src/kernel/poller.c:1533-1554 | the node leaves the timeout list, the tree or the list without timeouts, whichever it is in, and goes to one with the new deadline or, for a negative timeout, to the list without |
| PollerTimers.NodeStore.Insert | workflow/src/kernel/poller.c:1398-1401 | a node with a timeout joins the timer store, one without the other list; it is in one container only, and the timer is armed in time |
| PollerTimers.NodeStore.TakeOut | workflow/src/kernel/poller.c:1436-1439 | exactly the node leaves the container it is in, as its `in_rbtree` flag tells |
| PollerTimers.TimerStore.TakeDown | workflow/src/kernel/poller.c:1660-1669 | the tree is taken apart from its root and the list joined to it: all nodes, each once |
| PollerTimers.NodeStore.TakeDown | workflow/src/kernel/poller.c:1660-1670 | the same for all three containers |
| PollerTimers.TimerStore.SetTimer | workflow/src/kernel/poller.c:1021-1048 | the timer is set to the first deadline of all, and switched off exactly when there is none |
| PollerTimers.TimerStore.HandleTimeout | workflow/src/kernel/poller.c:955-1001 | exactly the nodes due at or before now are taken out, each once, and exactly the others stay; those of the list come first, then those of the tree, each in the order of their deadlines |
| PollerTimers.TimerStore.TakeFromList | workflow/src/kernel/poller.c:963-978 | the loop over the list stops before the first node that is not due, and keeps all that is taken |
| PollerTimers.TimerStore.TakeFromTree | workflow/src/kernel/poller.c:980-999 | the loop over the tree, with `tree_first` moving on and `tree_last` reset at the end |
| PollerTimers.TimerStore.NeverLate | workflow/src/kernel/poller.c:1021-1287 | no deadline is missed: once one has passed, the timer is due or has rung |
| PollerTimers.TimerStore.Earliest | workflow/src/kernel/poller.c:1028-1036 | the smaller of the first list deadline and `tree_first` is the minimum of all |
| PollerTimers.InsertSorted | workflow/src/kernel/poller.c:297-313 | the chosen place keeps the sequence sorted, and equal deadlines in order of arrival |
| PollerProtocol.StepKeepsInv | workflow/src/kernel/poller.c:337-1692 | every critical section of every thread keeps the whole invariant: one place per node, `nodes[]` exact, `removed` flags right, fetched events alive |
| PollerProtocol.EveryRunKeepsInv | workflow/src/kernel/poller.c:1050-1692 | so it holds in every reachable state of every interleaving |
| PollerProtocol.AtMostOneCallback | workflow/src/kernel/poller.c:930-1690 | a node gets at most one terminal callback, and none while any container, the pipe or another thread still has it |
| PollerProtocol.NothingLost | workflow/src/kernel/poller.c:1385-1692 | a node that was not called back is in exactly one place from which it will be |
| PollerProtocol.HandlerIsSafe | workflow/src/kernel/poller.c:337-357 | a handler works on a node that exists, and completes it exactly when no other thread has taken it; one that is in the pipe it leaves alone |
| PollerProtocol.HandedIsTaken | workflow/src/kernel/poller.c:1443-1633 | a node is in the hands of a caller exactly when one of the calls made so far took it out (a successful `poller_del_timer`, or `poller_del` or `poller_mod` on a stopped poller) and its callback has not followed |
| PollerProtocol.StopFinishesEveryNode | workflow/src/kernel/poller.c:1644-1692 | when `poller_stop` returns, a node inserted before it cleared the poller has been called back, once, if and only if there is no such call |
| PollerProtocol.QuietStopFinishesAll | workflow/src/kernel/poller.c:1644-1692 | so a stop that begins with no node in the hands of a caller, and during which no timer is deleted and, between the end of the thread and the clearing, no descriptor, has finished every node exactly once |
| PollerProtocol.StopCanReturnTooEarly | workflow/src/kernel/poller.c:1608-1692 | and otherwise it may not: a run in which a deleted timer is called back only after `poller_stop` has returned |
| PollerCalls.DelTakesOut | workflow/src/kernel/poller.c:1419-1463 | in every reachable state, `poller_del` on a registered descriptor unregisters it and takes its node out of every container: into the pipe, flagged, if the poller runs, and into the hands of the caller if not |
| PollerCalls.DeletedIsNotReported | workflow/src/kernel/poller.c:1419-1463 | and no event of that node is fetched in the rest of any run |
| PollerCalls.AddRegisters | workflow/src/kernel/poller.c:1385-1417 | `poller_add` registers a new node, which waits in a container, and changes nothing for a descriptor that is taken |
| PollerCalls.ModReplaces | workflow/src/kernel/poller.c:1465-1520 | `poller_mod` puts the new node in the place of the old one, which is taken out as by `poller_del` |
| PollerCalls.AddTimerHolds | workflow/src/kernel/poller.c:1560-1606 | a new timer waits in a container, without a descriptor |
| PollerCalls.DelTimerTakesOut | workflow/src/kernel/poller.c:1608-1636 | `poller_del_timer` takes a waiting timer out, into the hands of the caller, and leaves alone one that was taken out before |
| PollerCalls.HandlerTakesOut | workflow/src/kernel/poller.c:337-357 | a handler that completes a node takes it out, for the thread to call back, unless another thread was first |
| PollerCalls.ExpiryTakesOut | workflow/src/kernel/poller.c:955-1001 | all that expires is taken out, its descriptors are unregistered and its timers flagged, and nothing else is |
| PollerCalls.WhoCallsBack | workflow/src/kernel/poller.c:903-1690 | which step calls back which nodes: those in the hands of a caller or of the thread, those read from the pipe, those `poller_stop` finds in the pipe or clears; and no other step calls anything back |
| PollerCalls.CalledIsDone | workflow/src/kernel/poller.c:903-1690 | a node that was called back is in nobody's hands afterwards, in no container and in no message |
| PollerCalls.RoundGoesOn | workflow/src/kernel/poller.c:1050-1117 | the thread handles all events it fetched, then the messages it finds in the pipe, then the timeouts, and waits again |
| PollerCalls.ThreadEndsWhenTold | workflow/src/kernel/poller.c:933-1117 | the thread ends only when `poller_stop` has written its message; that message is not lost on its way through the pipe, and the thread ends exactly after reading it |
| PollerStop.StopReturns | workflow/src/kernel/poller.c:1050-1692 | from every reachable state in which `poller_stop` has begun, whatever is fetched, read or waiting in the pipe, the steps of the thread and of `poller_stop` alone lead to its return |
| PollerStop.StopGoesOn | workflow/src/kernel/poller.c:1050-1692 | in each such state one of them has a step to make, and it comes nearer to the end |
| PollerStop.StopSteps | workflow/src/kernel/poller.c:1644-1692 | each step of `poller_stop`: it writes the null pointer, waits for the end of the thread, takes every node out of the poller and calls all of them back |
| PollerStop.StopHasFinished | workflow/src/kernel/poller.c:1644-1692 | in terms of the run: every node inserted before the clearing has, at the return, been called back once, if and only if no caller took it out without calling it back |
| PollerContainers.StepKeepsInv | workflow/src/kernel/poller.c:285-1692 | every step, run together with the three containers and the `in_rbtree` flags, keeps them disjoint and exact |
| PollerContainers.ExactlyOneContainer | workflow/src/kernel/poller.c:1261-1692 | in every interleaving a node that was inserted and not taken out is in exactly one of timeout list, tree and list without timeouts, and any other node in none; the flag tells the tree from the lists |
| PollerContainers.RunsAreProtocolRuns | workflow/src/kernel/poller.c:1522-1558 | `poller_set_timeout` changes nothing that the hand-off sees, so all theorems about it hold here |
| PollerContainers.WhereNodesGo | workflow/src/kernel/poller.c:1385-1606 | a node that is inserted or gets a new timeout is then in the container it was put in and no other, one that is taken out in none, and every other node stays where it was |
| TaskGraph.StepKeepsInv | workflow/src/factory/WFGraphTask.cc:23-61 | every atomic step of every node keeps the invariant of counters, task runs, join and cancellation |
| TaskGraph.EveryRunKeepsInv | workflow/src/factory/WFGraphTask.cc:23-61 | so it holds in every interleaving, from building the graph on |
| TaskGraph.PrecedeKeeps | workflow/src/factory/WFGraphTask.h:31-40 | an edge adds one to the successor's counter and the successor to the list, also for repeated edges |
| TaskGraph.GraphIsBuilt | workflow/src/factory/WFGraphTask.h:31-40 | the graph that runs has exactly the nodes created and the edges added, in order |
| TaskGraph.TasksRunInOrder | workflow/src/factory/WFGraphTask.cc:23-51 | in every interleaving a task starts at most once, and only after every predecessor has finished and counted it |
| TaskGraph.CountersAreExact | workflow/src/factory/WFTask.h:449-456 | a waiting node's counter is the number of edges into it not yet counted, plus one for the dispatch: every edge counts exactly once |
| TaskGraph.DoneOnce | workflow/src/factory/WFGraphTask.cc:53-61 | the parallel task is done exactly when all nodes are, and once |
| TaskGraph.CanceledSuccessorsNeverRun | workflow/src/factory/WFGraphTask.cc:38-46 | if a node's series is canceled when the node is destroyed, the task of no transitive successor ever runs |
| TaskGraph.UserCancelStopsSuccessors | workflow/src/factory/WFGraphTask.cc:38-46 | so if the user cancels the series of a node that has not been destroyed, no task on a path from it ever runs |
| TaskGraph.CancelHasCause | workflow/src/factory/WFGraphTask.cc:38-46 | and a series is canceled only if the user canceled it, or a node before it on a path |
| TaskGraph.NothingRunsBelow | workflow/src/factory/WFGraphTask.cc:48-49 | below a node that has not been destroyed yet no task has run |
| TaskGraph.SomeoneMovesFrom | workflow/src/factory/WFGraphTask.cc:23-61 | in an acyclic graph, some thread can go on as long as a node is not done |
| TaskGraph.StepDoesWork | workflow/src/factory/WFGraphTask.cc:23-61 | every step other than a cancellation by the user does some of the work that is left |
| TaskGraph.Completes | workflow/src/factory/WFGraphTask.cc:23-61 | so an acyclic graph, canceled or not, can only come to rest with all nodes done and the parallel task finished once |
| TaskGraph.EveryRunAccounts | workflow/src/factory/WFGraphTask.cc:23-36 | in every interleaving, a node that has left its task behind has run it, unless its series is canceled; a destructor takes notice of a cancellation, and of nothing else |
| TaskGraph.RestMeansRun | workflow/src/factory/WFGraphTask.cc:23-51 | when an acyclic graph has come to rest, every task has run exactly once, except those the user canceled and those behind them |
| TaskGraph.EverythingRuns | workflow/src/factory/WFGraphTask.cc:23-51 | so without a cancellation by the user every task of the graph runs, once |
| TaskGraph.RunsEnd | workflow/src/factory/WFGraphTask.cc:23-61 | and every run comes to rest |
| TaskGraph.OnlyLiveObjects | workflow/src/factory/WFGraphTask.cc:23-51 | no step touches a destroyed node, nor a series after the parallel task deleted them; the successor that a destructor cancels or counts is still waiting |
| CommScheduler.CmpIsRatio | workflow/src/kernel/CommScheduler.cc:168-180 | cross-multiplication orders targets by the ratio of load to maximum |
| CommScheduler.AtMostTransitive | workflow/src/kernel/CommScheduler.cc:168-180 | the order by cross-products is transitive, for positive maxima |
| CommScheduler.SiftUp | workflow/src/kernel/CommScheduler.cc:187-198 | a swap with the parent moves the only possible disorder one level up, also when the two are loaded the same |
| CommScheduler.SiftDown | workflow/src/kernel/CommScheduler.cc:212-256 | a swap with the lightest child moves it one level down |
| CommScheduler.CommSchedGroup.HeapAdjust | workflow/src/kernel/CommScheduler.cc:182-202 | the target goes up exactly past the parents that are loaded more, and with `swap_on_equal` past those loaded as much, and stops there; the targets stay the same, each knows its index, and above the moved target the heap is ordered |
| CommScheduler.CommSchedGroup.Heapify | workflow/src/kernel/CommScheduler.cc:205-260 | the target goes down past lighter children, the lightest of two each time, and only they go up; the heap is then ordered, holds the same targets, and each knows its index |
| CommScheduler.CommSchedGroup.LighterChild | workflow/src/kernel/CommScheduler.cc:221-242 | of two children the one that changes places with the target: none if both are loaded as much or more, else the lightest, the left one if they are equal |
| CommScheduler.CommSchedGroup.HeapInsert | workflow/src/kernel/CommScheduler.cc:262-283 | the heap stays ordered and gains exactly the target, which passes only targets loaded more, also across doubling the array |
| CommScheduler.CommSchedGroup.Grow | workflow/src/kernel/CommScheduler.cc:266-272 | the array is twice as long and holds the same heap |
| CommScheduler.CommSchedGroup.HeapRemove | workflow/src/kernel/CommScheduler.cc:285-298 | the up-then-down repair leaves an ordered heap without exactly the target at that index |
| CommScheduler.CommSchedGroup.Mend | workflow/src/kernel/CommScheduler.cc:295-296 | up and then down orders the heap around a position that got any other target |
| CommScheduler.CommSchedGroup.constructor | workflow/src/kernel/CommScheduler.cc:302-332 | an empty group, in which everything below holds |
| CommScheduler.CommSchedGroup.Add | workflow/src/kernel/CommScheduler.cc:341-370 | a target without group and waiters becomes a member, else the error says why not; the sums over the members stay right |
| CommScheduler.CommSchedGroup.Remove | workflow/src/kernel/CommScheduler.cc:372-394 | a member without waiters leaves, else the error says why not; the sums over the members stay right |
| CommScheduler.CommSchedGroup.Acquire | workflow/src/kernel/CommScheduler.cc:396-437 | below its maximum the group gives a member with a free slot whose load ratio is minimal among all members; at the maximum it fails and changes nothing |
| CommScheduler.CommSchedTarget.Acquire | workflow/src/kernel/CommScheduler.cc:92-143 | a target below its maximum is loaded one more, and so is its group; heap and sums stay right |
| CommScheduler.CommSchedTarget.Release | workflow/src/kernel/CommScheduler.cc:145-166 | target and group are loaded one less and nobody else changes; a target with an idle connection ends above all it would have to pass that are loaded as much, one without stays where it was unless its parent is loaded more |
| CommScheduler.CommSchedGroup.Give | workflow/src/kernel/CommScheduler.cc:159-163 | the group's part of it: which targets change places with the one that became lighter, for idle and busy connections |
| CommScheduler.RootIsMinimal | workflow/src/kernel/CommScheduler.cc:423 | the root of an ordered heap has the smallest load ratio |
| CommScheduler.AllFull | workflow/src/kernel/CommScheduler.cc:403-423 | if the target with the smallest ratio is full, the group is |
| CommScheduler.RootHasRoom | workflow/src/kernel/CommScheduler.cc:421-425 | so below the group's maximum the root has a free slot, and nobody is loaded less |
| SubTasks.StepKeepsInv | workflow/src/kernel/SubTask.cc:21-64 | every step of every thread through nested series and parallel tasks keeps the invariant |
| SubTasks.EveryRunKeepsInv | workflow/src/kernel/SubTask.cc:21-64 | so it holds in every interleaving |
| SubTasks.DoneAfterAllInside | workflow/src/kernel/SubTask.cc:26-41 | a thread about to call a parallel task's `done` is the only one, the call is the first, and every series inside, at any depth, has drained with all its tasks done |
| SubTasks.DoneOnce | workflow/src/kernel/SubTask.cc:28-29 | no task's `done` is called twice, and what was inside stays over |
| SubTasks.OnlyLiveObjects | workflow/src/kernel/SubTask.cc:30-60 | no step touches a task or a series that has been destroyed; the dispatch loop's parent in particular is alive while a series is left to start |
| SubTasks.LastOneOut | workflow/src/kernel/SubTask.cc:37-40 | the counter equals the number of series not yet counted, and the thread that takes it to zero is the only one that carries the parallel task |
| SubTasks.PushKeeps | workflow/src/factory/Workflow.cc:86-112 | pushing a task, also one with series inside, to a running series keeps the invariant |
| SubTasks.NobodyStuck | workflow/src/kernel/SubTask.cc:21-64 | with all threads at rest, no series is half-way |
| SubTasks.RestMeansOver | workflow/src/kernel/SubTask.cc:21-64 | with all threads at rest, every started series and everything inside it is over |
| SubTasks.StepDoesWork | workflow/src/kernel/SubTask.cc:21-64 | every step but a push does some of the work |
| SubTasks.RunsEnd | workflow/src/kernel/SubTask.cc:21-64 | so every run with finitely many pushes comes to rest |
| SubTaskOrder.PushTakesPlace | workflow/src/factory/Workflow.cc:86-112 | a pushed task is in the series; with `push_back` behind all that is there, with `push_front` behind the task the series is at and before the whole queue |
| SubTaskOrder.OneAfterAnother | workflow/src/kernel/SubTask.cc:21-41 | no step of any thread ever turns two tasks of a series round, and a thread has the second one in hand only after `done` of the first was called |
| SubTaskOrder.DoneMeansRun | workflow/src/kernel/SubTask.cc:21-64 | a task, not being a parallel task, runs at most once; it has run when it is done; and when all threads rest, every such task of every series that was started has run |
| SelectorTask.StepKeepsInv | workflow/src/factory/WFTask.h:567-625 | every atomic operation of every thread keeps the invariant |
| SelectorTask.EveryRunKeepsInv | workflow/src/factory/WFTask.h:567-625 | so it holds in every interleaving of n submits and one dispatch |
| SelectorTask.NeverTwice | workflow/src/factory/WFTask.h:567-625 | whoever still has a step to make finds the task alive; at most one `subtask_done`, at most one delete |
| SelectorTask.InTheEnd | workflow/src/factory/WFTask.h:567-625 | in the end exactly one `subtask_done` and one delete; the first message that is not null won, ENOMSG only if there was none; exactly its submit returned 1 |
| SelectorTask.FirstToSubmitWins | workflow/src/factory/WFTask.h:567-625 | of the candidates with a message that is not null the winner is the one whose compare-and-exchange comes first in the run |
| SelectorTask.RunsEnd | workflow/src/factory/WFTask.h:567-625 | and every run comes to that end |
| MsgQueue.Queue.constructor | workflow/src/kernel/msgqueue.c:139-183 | an empty queue |
| MsgQueue.Queue.Put | workflow/src/kernel/msgqueue.c:55-69 | the message goes to the end of the putters' list; links, tail pointer and count stay right |
| MsgQueue.Queue.Swap | workflow/src/kernel/msgqueue.c:101-120 | the putters' list becomes the getters', and its length is returned |
| MsgQueue.Queue.Pop | workflow/src/kernel/msgqueue.c:129-130 | the first message of the getters' list |
| MsgQueue.Queue.Get | workflow/src/kernel/msgqueue.c:122-137 | removes the first message of the whole queue, and gives null exactly when the queue is empty |
| MsgQueue.Queue.PushGet | workflow/src/kernel/msgqueue.c:81-84 | the message goes before the getters' list |
| MsgQueue.Queue.PushPut | workflow/src/kernel/msgqueue.c:91-97 | the message goes before the putters' list, also when that is empty |
| MsgQueue.Queue.PutHead | workflow/src/kernel/msgqueue.c:71-99 | undisturbed, the message goes before the whole queue |
| MsgQueue.StepKeepsInv | workflow/src/kernel/msgqueue.c:55-137 | one thread at most has each lock, and what a getter saw of its list stays so; no such thing is claimed of put_head, which looks without the lock |
| MsgQueue.StepIsLegal | workflow/src/kernel/msgqueue.c:55-137 | every step, put_head's look, trylock, measuring and insertion each being one, is one move of a single sequence, or none |
| MsgQueue.EveryRunRefines | workflow/src/kernel/msgqueue.c:55-137 | in every interleaving the two lists make up the sequence that a single queue would hold; a get finds nothing only when that is empty |
| MsgQueue.NothingLost | workflow/src/kernel/msgqueue.c:55-137 | nothing is lost or duplicated; without put_head, messages come out in the order they went in |
| MsgQueue.CallsArrive | workflow/src/kernel/msgqueue.c:55-137 | what was put in is what the calls brought, in the order of the calls of put; a message of put_head is put in or still carried by its thread; what came out is what the gets took |
| MsgQueue.ContentsAreCalls | workflow/src/kernel/msgqueue.c:55-137 | so the queue holds every message as often as calls brought it, less the times it came out or is still on its way |
| MsgQueue.NobodyBlocks | workflow/src/kernel/msgqueue.c:41-53 | with non-blocking mode on, some thread that has begun a call can always go on |
| MsgQueue.HeadGoesFirst | workflow/src/kernel/msgqueue.c:71-99 | put_head through the getters' list puts its message first; through the putters' list behind the getters' list, so first if and only if that is empty then |
| MsgQueue.UnwaitedHeadPrepends | workflow/src/kernel/msgqueue.c:75-97 | put_head that did not wait is a prepend all the same, at the moment of its look: with its message first there, everything others did since has the same effect and leads to the same contents |
| MsgQueue.OnlyHeadGoesFirst | workflow/src/kernel/msgqueue.c:71-99 | and it does go first if no other thread uses put_head |
| MsgQueue.HeadBehindHead | workflow/src/kernel/msgqueue.c:76-97 | otherwise it may not: a run in which a getter empties the list between look and trylock of one put_head, and another goes behind it without waiting |
| MsgQueue.LateHeadIsOvertaken | workflow/src/kernel/msgqueue.c:88-117 | nor after waiting: a run in which put_head waits and another message comes out first |
| MsgQueue.AtMostTwiceMaxlen | workflow/src/kernel/msgqueue.c:61-117 | a blocking queue with a positive maximum holds at most twice that many messages if put_head is not used |
| MsgQueue.TwiceMaxlenIsReached | workflow/src/kernel/msgqueue.c:61-117 | and it can hold that many: a run |
| NamedGuard.StepKeepsInv | workflow/src/factory/WFTaskFactory.cc:948-1113 | every critical section and every exchange of a flag keeps the invariant |
| NamedGuard.EveryRunKeepsInv | workflow/src/factory/WFTaskFactory.cc:948-1113 | so it holds in every run in which only holders release |
| NamedGuard.RunsGoOn | workflow/src/factory/WFTaskFactory.cc:948-1113 | and whatever is enabled in a reachable state can happen next: no run is shut out by the shape of states |
| NamedGuard.OneHolderPerName | workflow/src/factory/WFTaskFactory.cc:1023-1090 | at most one guard per name holds it, and only the holder's inner task runs |
| NamedGuard.WaitersAreServed | workflow/src/factory/WFTaskFactory.cc:1104-1113 | while a guard waits another one holds the name and has a step to make; no hand-over is lost between the two exchanges of the flag |
| NamedGuard.FirstComeFirstServed | workflow/src/factory/WFTaskFactory.cc:1026-1078 | the name is given in the order of dispatch |
| NamedGuard.GuardsAreCalls | workflow/src/factory/WFTaskFactory.cc:948-1078 | the guards are those created, under the names they were created with, and the name is given in the order of the calls of dispatch in the run |
| NamedGuard.HolderIsLastGranted | workflow/src/factory/WFTaskFactory.cc:1023-1078 | whoever holds a name is the one it was given to last |
| NamedGuard.StepDoesWork | workflow/src/factory/WFTaskFactory.cc:948-1113 | every step but the creation of a guard does some of the work that is left |
| NamedGuard.RunsEnd | workflow/src/factory/WFTaskFactory.cc:948-1113 | so every run with finitely many guards comes to rest |
| NamedGuard.EveryoneHadTheName | workflow/src/factory/WFTaskFactory.cc:948-1113 | and then every guard that was dispatched has had the name and released it, and every other one has been deleted |
| NamedGuard.CountIsExact | workflow/src/factory/WFTaskFactory.cc:971-1069 | `refcnt` is the number of guards undispatched, waiting or holding; the list is freed, and out of the tree, exactly at zero |
| NamedGuard.OnlyLiveObjects | workflow/src/factory/WFTaskFactory.cc:971-1113 | no step touches a freed list or a guard that is done; release finds the list its guard was dispatched on |
| Crc32.TableStep | rpc/src/tinypb_codec.cc:43 | one step by table is eight steps of the bitwise reflected register |
| Crc32.TablesAreBits | rpc/src/tinypb_codec.cc:41-44 | the loop over the bytes computes the bitwise CRC-32 of section 8 of RFC 1952 |
| Crc32.RegisterIsShifts | rpc/src/tinypb_codec.cc:18-22 | feeding bits one by one is the same as taking them together and then shifting |
| Crc32.Table.Init | rpc/src/tinypb_codec.cc:13-25 | the two nested loops fill all 256 entries |
| Crc32.Table.Crc | rpc/src/tinypb_codec.cc:27-46 | the checksum of every byte string, with the table filled at first use |
| Crc32.StepInjective | rpc/src/tinypb_codec.cc:43 | one step: equal bytes keep different registers different, different bytes make equal registers differ |
| Crc32.TablesInjective | rpc/src/tinypb_codec.cc:41-44 | so does any number of steps |
| Crc32.OneByteShows | rpc/src/tinypb_codec.cc:40-45 | one changed byte always changes the checksum |
| Crc32.CheckValue | rpc/src/tinypb_codec.cc:13-46 | the checksum of the digits 1 to 9 is 0xCBF43926, as for every CRC-32 of RFC 1952 |
| TinyPbCodec.Encode | rpc/src/tinypb_codec.cc:58-120 | writes exactly the frame, or refuses a message whose size would overflow |
| TinyPbCodec.Decode | rpc/src/tinypb_codec.cc:122-203 | for every input the verdict and the fields, with the checks in the order of the code |
| TinyPbCodec.RoundTrip | rpc/src/tinypb_codec.cc:58-203 | a message comes back unchanged if and only if its frame fits 32 bits; a longer one is refused |
| TinyPbCodec.AcceptsExactlyFrames | rpc/src/tinypb_codec.cc:58-203 | for all byte strings: one is accepted as a message if and only if it is that message's frame and fits 32 bits |
| TinyPbCodec.RefusedFirst | rpc/src/tinypb_codec.cc:122-148 | fewer than 26 bytes are EINVAL, a wrong first byte or length EBADMSG, whatever follows; nothing else is EINVAL |
| TinyPbCodec.ChangedByteIsNoticed | rpc/src/tinypb_codec.cc:133-200 | whichever byte of a frame is changed, the frame is not accepted; and it is refused with EBADMSG unless the byte belongs to one of the three inner lengths |
| TinyPbCodec.ChangedByte | rpc/src/tinypb_codec.cc:133-200 | the same for any consistent frame; EBADMSG also for inner lengths that still lead to places inside it |
| TinyPbCodec.FrameFormat | rpc/src/tinypb_codec.cc:77-117 | the frame byte by byte: marks, lengths and code as big-endian numbers, and the strings between them |
| TinyPbCodec.WordOrder | rpc/src/tinypb_codec.cc:48-117 | the checksum is written with its most significant byte first |
| NetworkOrder.Num32Be | rpc/src/tinypb_codec.cc:48-56 | a number written in network order is read back modulo 2^32, as the cast truncates it |
| NetworkOrder.NumbersAreBigEndian | rpc/src/tinypb_codec.cc:48-56 | what is read in network order is the number that the bytes spell, the most significant first, for 16, 32 and 64 bits |
| RpcMessage.RpcMessage.Append | rpc/src/rpc_message.cc:204-273 | takes exactly the bytes still missing, returns -1, 0 or 1 with the error that the bytes received so far call for, whatever state it was left in, and with 1 has the fields they spell |
| RpcMessage.RpcMessage.AppendBody | rpc/src/rpc_message.cc:237-268 | the part of it behind the header |
| RpcMessage.RpcMessage.DecodeHeader | rpc/src/rpc_message.cc:116-166 | EBADMSG exactly when the first six bytes are not 57 52 50 43 00 01, else EMSGSIZE exactly when the two lengths exceed the limit; otherwise the body is set up |
| RpcMessage.FeedTwice | rpc/src/rpc_message.cc:204-273 | two calls do what one call with both buffers does |
| RpcMessage.PiecesDoNotMatter | rpc/src/rpc_message.cc:204-273 | so does any number: bytes, verdict and fields do not depend on how the input is cut |
| RpcMessage.TakesExactly | rpc/src/rpc_message.cc:237-268 | from a good header on, exactly 32 + meta_len + payload_len bytes are taken |
| RpcMessage.RefusesAtHeader | rpc/src/rpc_message.cc:224-228 | from a bad one, the header alone, with its error |
| RpcMessage.RefusedExactly | rpc/src/rpc_message.cc:142-153 | for all headers: which of the two errors, or none, in terms of the bytes at 0 to 5 and the big-endian numbers at 16 and 20 |
| RpcMessage.WholeCanBeSent | rpc/src/rpc_message.cc:95-273 | whatever is judged whole is what encoding its fields gives, but for the four reserved bytes |
| RpcMessage.RpcMessage.EncodeHeader | rpc/src/rpc_message.cc:95-114 | writes the 32 bytes of the header |
| RpcMessage.HeaderFields | rpc/src/rpc_message.cc:95-140 | what is written into the header is what is read from it |
| RpcMessage.WireFormat | rpc/src/rpc_message.cc:95-114 | the message byte by byte: the six bytes of magic and version, every field as a big-endian number at its offset, zeros, meta data, payload |
| RpcMessage.RpcMessage.Encode | rpc/src/rpc_message.cc:168-202 | the vectors spell header, meta data and payload, empty parts left out; too few vectors are refused |
| RpcMessage.RoundTrip | rpc/src/rpc_message.cc:95-273 | a message arrives whole and unchanged if and only if both lengths fit 32 bits and together the limit |
| RpcMessage.SentAndReceived | rpc/src/rpc_message.cc:95-322 | the same for service, method and payload, received in any pieces |
| RpcMessage.RpcMessage.SetServiceMethod | rpc/src/rpc_message.cc:283-299 | names of up to 65535 bytes become the meta data; longer ones are refused and change nothing |
| RpcMessage.RpcMessage.GetServiceMethod | rpc/src/rpc_message.cc:301-322 | reads exactly what set_service_method can have written, and nothing else |
| RpcMessage.ServiceMetaParts | rpc/src/rpc_message.cc:291-317 | both names are found in the meta data again |
| RpcMessage.Canonical | rpc/src/rpc_message.cc:303-321 | and meta data in which they are found is what those names are written as |
| NetworkOrder.Num64Be | rpc/src/rpc_message.cc:11-23 | a 64-bit number, half by half |
| SeriesWork.SeriesWork.PushFront | workflow/src/factory/Workflow.cc:86-98 | the task becomes the first of the sequence, across wrap-around and expansion |
| SeriesWork.SeriesWork.PushBack | workflow/src/factory/Workflow.cc:100-112 | the task becomes the last of the ring, across wrap-around and expansion; the ring is never left looking empty |
| SeriesWork.SeriesWork.ExpandQueue | workflow/src/factory/Workflow.cc:62-84 | a full ring, at any rotation, is copied in order to one twice as long |
| SeriesWork.SeriesWork.PopTask | workflow/src/factory/Workflow.cc:131-161 | the first of the sequence followed by `last`; when there is none the series is finished, its callback called if it has one, and the series gone unless a parallel task owns it |
| SeriesWork.SeriesWork.Pop | workflow/src/factory/Workflow.cc:114-129 | a canceled series deletes everything left, in order and once each, and ends in the same way; otherwise the next task |
| SeriesWork.SeriesWork.Dismiss | workflow/src/factory/Workflow.cc:50-60 | a series that will not run deletes its first and all other tasks, once each, and ends without a callback |
| SeriesWork.ParallelWork.ExpandBuf | workflow/src/factory/Workflow.cc:192-206 | both halves of the buffer move to the right places of one twice as long |
| SeriesWork.ParallelWork.AddSeries | workflow/src/factory/Workflow.cc:208-218 | the series and its first task are added at the same position of the two halves |
| RateLimiter.RateLimiter.TryAcquire | rpc/src/rpc_rate_limiter.cc:16-80 | one call: granted if and only if it asks for 1 to qps permits that the bucket holds or is worth by now; the new state is the one of the refill, cap and grant |
| RateLimiter.GrantedExactly | rpc/src/rpc_rate_limiter.cc:42-80 | that condition, for all valid buckets, in terms of tokens and elapsed time only |
| RateLimiter.NothingForNothing | rpc/src/rpc_rate_limiter.cc:16-24 | a call for nothing, or without a rate, is refused and changes nothing |
| RateLimiter.TokensInRange | rpc/src/rpc_rate_limiter.cc:60-73 | tokens stay between 0 and the rate |
| RateLimiter.RefillWorth | rpc/src/rpc_rate_limiter.cc:50-66 | with all rounding and capping, refilling never adds to what the bucket is worth, and leaves less than the rate and one token |
| RateLimiter.RefillLoses | rpc/src/rpc_rate_limiter.cc:50-66 | unless the bucket is full, a refill loses less than one token of its worth, and leaves less than one to be refilled |
| RateLimiter.CallWorth | rpc/src/rpc_rate_limiter.cc:42-80 | a call takes what it grants out of that worth |
| RateLimiter.GrantedWithin | rpc/src/rpc_rate_limiter.cc:42-80 | all grants of a run are paid from the worth at its start and the time since |
| RateLimiter.EveryWindow | rpc/src/rpc_rate_limiter.cc:42-80 | after any run, permits granted in w milliseconds satisfy 1000 G < 1000 (qps + 1) + qps w |
| RateLimiter.WindowBound | rpc/src/rpc_rate_limiter.cc:42-80 | the same from any valid state of the bucket |
| RateLimiter.FullAfterASecond | rpc/src/rpc_rate_limiter.cc:50-66 | after a second without calls the bucket is full |
| RateLimiter.AtLeastHalf | rpc/src/rpc_rate_limiter.cc:42-80 | a lower bound on a window: a client that is refused in the end, without having let the bucket fill up, has been granted, with what it was refused, more than half of the rate over that time |
| RateLimiter.HalfIsLost | rpc/src/rpc_rate_limiter.cc:50-66 | and not more in general: at 999 permits in a second, a client asking in every millisecond is granted every other call |
| EtcdKeys.RoundTrip | rpc/src/rpc_service_registry.cc:26-119 | decoding what was encoded gives every byte string back |
| EtcdKeys.Alphabet | rpc/src/rpc_service_registry.cc:19-24 | the digits are the 64 characters of the table, in its order |
| EtcdKeys.KnownEncodings | rpc/src/rpc_service_registry.cc:26-69 | three encodings from section 10 of RFC 4648 |
| EtcdKeys.EncodedLength | rpc/src/rpc_service_registry.cc:26-69 | whole groups of four characters, as section 4 of RFC 4648 asks |
| EtcdKeys.ProgramDigits | rpc/src/rpc_service_registry.cc:41-44 | the shifts and masks of the code are the four 6-bit digits of the 24-bit number |
| EtcdKeys.ProgramBytes | rpc/src/rpc_service_registry.cc:96-98 | and back, with the truncation to a byte |
| EtcdKeys.Base64Encode | rpc/src/rpc_service_registry.cc:26-69 | the loops compute the encoding of section 4 of RFC 4648, with its padding |
| EtcdKeys.Base64Decode | rpc/src/rpc_service_registry.cc:71-119 | the loops compute its inverse up to the first padding character |
| EtcdKeys.PrefixRange | rpc/src/rpc_service_registry.cc:290-308 | the backward loop computes the end of the range |
| EtcdKeys.RangeIsPrefix | rpc/src/rpc_service_registry.cc:289-302 | with a byte below 0xFF in the prefix, a key is in the range, in byte order, exactly when it starts with the prefix |
| EtcdKeys.RangeIsExact | rpc/src/rpc_service_registry.cc:289-308 | the range is the keys with the prefix if and only if the prefix has a byte below 0xFF |
| EtcdKeys.RangeMisses | rpc/src/rpc_service_registry.cc:303-308 | a key that is missed when it has none |
| EtcdKeys.RangeWithoutRoom | rpc/src/rpc_service_registry.cc:303-308 | exactly what the range holds then: no key for the empty prefix, else the prefix itself and what continues it with a zero byte |

## Left out

- Red-black tree: `rb_first`, `rb_last` and `rb_replace_node` are not modelled; the first two are the loops of `FirstBelow` and `LastBelow`.
- Timer store: deadlines are integers instead of pairs of seconds and nanoseconds, and a failing or late timerfd is not modelled.
- Poller protocol: a read of the pipe takes everything in it, where the code takes at most a buffer; failing system calls and allocations are not modelled; a caller of `poller_del_timer` must not use a timer after its callback, as in the code.
- Task graph: the outer WFGraphTask, which pushes itself and the parallel task to its series and is called again after it, is represented by the parallel task only; user tasks are assumed to end; a graph that is destroyed instead of dispatched is not modelled.
- Fork and join: cancellation and dismissal are not part of this model (TaskGraph and SeriesWork have them); parallel tasks and series are numbered from the outside in, and a task is pushed to a series outside of it; user tasks are assumed to end, and calls that the code nests on one stack are steps that may also be made by different threads.
- CommScheduler.CommSchedGroup.Acquire: the state is the one in which waiting ended and the reason is a parameter, so waking up the right waiter is not covered; `wait_cnt` changes only while a thread waits; products of loads are unbounded, that is, assumed not to overflow `size_t`; a failing `realloc` is not modelled.
- CommScheduler.CommSchedTarget.Acquire: as for the group.
- Scheduler: the signals sent to waiters are left out; `has_idle_conn` is a parameter.
- MsgQueue.EveryRunRefines: condition variables are the guards of the steps, so wake-up is not covered; the length of the spin in put_head is not bounded.
- Named guard: the release through a timer task (`release_guard_safe`) is the same two steps with time between them; messages passed along are left out; releasing without holding is outside the model.
- Selector: what `subtask_done` does to the series is in SubTasks.
- Series: the mutex around each operation and the deletion of buffers are left out; that a task or the series itself has been deleted is recorded, and a series that is gone cannot be used.
- Checksum: the lock around the first use is left out.
- TinyPbCodec.Decode: when an inner length leads past the end of the frame the result is `Undefined`, since the code then reads outside the input or fails in the string library; the fields already written when a frame is refused are not modelled.
- Messages: moving and copying messages, and the overload without the count of bytes used, are left out; after set_service_method on a message whose reception has begun, nothing is claimed about receiving the rest; the loop of the code never goes round twice and is written without one.
- RateLimiter.RateLimiter.TryAcquire: calls are serialised, since the refill is not exclusive with the grant in the code; times and products are unbounded; `set_rate` is left out.
- Base64: shifts and masks are written as divisions and remainders, and the length is not truncated to `int`.
- EtcdKeys.Base64Decode: a character outside the alphabet gives `None`, where the code computes with a null pointer (or, for a zero character, with the number 64).
- Sockets, epoll, timerfd, SSL, threads and mutexes: inputs, steps or critical sections stand for them.
- Communicator, Executor, thread pool, asynchronous file I/O: plumbing over system calls.
- WFMailboxTask, named timers, counters, conditionals and the `__WFTimedGoTask`: smaller relatives of the selector and the guard, partly in sources that are not part of this model.
- HTTP, MySQL, Redis, Kafka, DNS and Consul clients, circuit breaker, governance, metrics, logging, configuration, channels and servers: wrappers and text.
