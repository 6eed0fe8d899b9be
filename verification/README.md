# Models and proofs for PIP

PIP caps the power of a machine by capping the CPU bandwidth of two control groups. The repository holds the PIP
controller, a Thunderbolt baseline to compare it with, and Filebench, which generates the load. This project models
three parts of it in Dafny and proves what they keep over every input and every run.

**The AVL tree and the filesets on top of it** (`fb_avl.c`, `fb_avl.h`, `fileset.c`, parts of `flowop_library.c`).
Tree nodes are heap objects with child, parent, child-index and balance fields, updated in place as the C code does.
A ghost shape says which tree they form, and a one-hole context says where in it a loop stands. What the memory
holds is stated over snapshots of the nodes. On top of the trees:

- `FilesetPool` runs `fileset_pick` and `fileset_unbusy` on three heap trees and proves them equal to steps on values.
- `FilesetProtocol`, `FilesetRuns`, `FilesetSleep` and `FilesetStranded` take those steps as the atomic critical
  sections of any number of threads, interleaved in any order, with the condition variables written out.
- `FilesetPopulate` lays a fileset out, for any draws of depth and width and any pattern of failing allocations.
  `FilesetLayout` says what layouts are right, `FilesetLoops` how the two loops of each directory show in one, and
  `FilesetComplete` what follows for a layout that is complete.

**Event tokens and composite flowops** (`eventgen.c`, the limiters of `flowop_library.c`, `flowop.c`). `EventTokens` is
a state machine with one producer, any number of limiters and resets in any order. `EventReadings` bounds what the
limiters let by in terms of the readings and calls of a run alone, and `EventLimiter` has the code that changes the
fields. `FlowopCopy` copies nested linked lists, and `FlowopRun` runs them, for any draws of iteration
counts, any results of the flowops and any abort requests.

**The two controllers** (`control/`). `PipControl` and `Thunderbolt` give one turn as a function of the caps and a
sample; `PipController` and `ThunderboltLoop` have the loops and assignments and are proved equal to that function.
Power, budgets, waits and every answer of the power model are arbitrary inputs.

## What the proofs found

- The draws and the numbers wanted leave just one complete layout, and a population that gets all its memory ends
  there (`OneLayout`, `Fileset.Populate`).
- Filebench numbers files and leaf directories from 1 separately, in the same directory. After a successful population
  all paths differ if and only if only one of the two kinds was asked for (`Fileset.Populate`), and a population for
  one of each does end with two equal paths (`PopulateOneOfEach`).
- The idle count is exact if and only if every close so far found its open count at 1 (`IdleCountExact`). It is
  never too low, so a pick goes to sleep only when every entry is busy.
- A thread that waits for an idle entry can be left asleep although an entry is idle, nothing is held and no thread
  has been woken for it; a run from a populated fileset gets there (`SleeperLeftBehind`). A run does so if and only if
  it has a pick by the only woken thread, while others sleep, with more idle entries counted than the pick will take
  (`StrandsExactly`, `RunStrandsExactly`).
- A limiter's demand is always met if and only if it is at most five seconds' worth of events, or on the queue already
  (`ServedExactly`). At any rate one burst of operations leaves a limiter waiting for good (`SomeoneStarves`).
- A turn of the event generator posts all that falls due if and only if nothing is rounded away, its two readings of
  the clock are equal and the queue is not full (`PostsAllDue`).
- `avl_update` gives back all the nodes in full order exactly when the new key differs from all others. With an equal
  key, a member out of place with its neighbours is dropped from the tree, and one in place stays (`Update`).
- In PIP, once the user group is at 1, a violation of 5 W or more changes nothing if the model accepts the critical cap
  and writing it again does not round it down; otherwise, and only then, the critical cap falls (`LargeViolation`,
  `LargeViolations`).
- In Thunderbolt, the hysteresis flag never changes a cap (`FlagIdle`).

## Where code and comments differ

The models follow the code.

- `strict_power_capping` is described as reducing a cap by 5 for a small violation. It reduces by 10 when power is at
  or over the budget.
- `recover_bandwidth` is described as trying every cap down to the current one plus 1 with the calibrated prediction.
  It tries every fifth cap, and the calibration offset cancels out.
- `critical_power_capping` means to start its search no lower than 5, but assigns to a misspelt name.
- `eventgen_thread` is described as keeping the average rate. It drops the fraction of an event at every turn and the
  time between its two readings of the clock.

## Assumptions

- Comparators are total orders. Integer counters do not overflow.
- Cgroup writes succeed. A cap read back is the one written or one rounded down, and never below 1.
- Measured power and real-valued caps are exact reals.
- The counters a limiter reads never go down.
- Where it is proved that a demand of over five seconds' worth can wait for good, the event rate is at most one per
  nanosecond.
- Leaf directories have one rotor for existing entries where files have one per thread. For them the thread number
  is always the same.

## Model

| member | source | states |
|---|---|---|
| AvlRotation.RotateKeepsOrder | benchmark-suites/filebench/fb_avl.c:294-460 | both rotations keep the in-order sequence |
| AvlRotation.RotateBalances | benchmark-suites/filebench/fb_avl.c:294-460 | at a subtree two too tall on one side, rotation restores balance; the height afterwards tells whether the tall child was level |
| AvlRotate.Rotation | benchmark-suites/filebench/fb_avl.c:294-460 | on the heap: links, parent indices and balances right again, same nodes, same order, and true returned exactly when the subtree got shorter |
| AvlInsert.RebalanceGrown | benchmark-suites/filebench/fb_avl.c:520-561 | the upward loop leaves a valid tree over the same nodes in the same order |
| AvlInsert.Insert | benchmark-suites/filebench/fb_avl.c:473-561 | valid tree; the order is the old one with the node at the given place |
| AvlOrder.Find | benchmark-suites/filebench/fb_avl.c:244-277 | a node with an equal key, or the empty place with all smaller keys before it and all larger ones after; at most as many steps as levels |
| AvlOrder.Add | benchmark-suites/filebench/fb_avl.c:614-628 | sorted insertion, or no change when an equal key is there |
| AvlWalk.Walk | benchmark-suites/filebench/fb_avl.c:123-164 | the exact in-order neighbour on either side, null only at the end |
| AvlWalk.First | benchmark-suites/filebench/fb_avl.c:170-183 | the first node in order, null when empty |
| AvlWalk.Last | benchmark-suites/filebench/fb_avl.c:189-202 | the last node in order, null when empty |
| AvlWalk.Nearest | benchmark-suites/filebench/fb_avl.c:213-232 | what comes right before or right after an insertion point |
| AvlWalk.InsertHere | benchmark-suites/filebench/fb_avl.c:575-609 | the new node lands right before or right after the given one |
| AvlSwap.Swap | benchmark-suites/filebench/fb_avl.c:684-730 | the node to delete and its neighbour trade places around a temporary, in the adjacent case too |
| AvlRemove.RebalanceShrunk | benchmark-suites/filebench/fb_avl.c:764-805 | the upward loop of a removal ends, and leaves a valid tree in the same order |
| AvlRemove.Remove | benchmark-suites/filebench/fb_avl.c:653-805 | for any member: valid tree, count one less, order the old one without it |
| AvlUpdate.Update | benchmark-suites/filebench/fb_avl.c:807-871 | full order over the same nodes if and only if the new key is distinct; moved exactly when it was out of place with its neighbours; with an equal key a moved member is dropped and the rest keep their order |
| AvlUpdate.UpdateLt | benchmark-suites/filebench/fb_avl.c:811-830 | the same when the key only fell, looking at one side |
| AvlUpdate.UpdateGt | benchmark-suites/filebench/fb_avl.c:832-851 | the same when the key only rose, looking at one side |
| AvlDrain.DestroyNodes | benchmark-suites/filebench/fb_avl.c:937-1065 | each call gives the next node in post order; after the last, null with root null and count 0; no later call touches a node given back |
| AvlDrain.DrainAll | benchmark-suites/filebench/fb_avl.c:942-1065 | the whole loop gives every node, in post order, in one call more than there are nodes, though each node is overwritten as soon as it comes back |
| AvlDrain.DescendantsFirst | benchmark-suites/filebench/fb_avl.c:942-956 | in post order every node comes after all its descendants |
| AvlDrain.PostOrderNoDup | benchmark-suites/filebench/fb_avl.c:942-956 | no node is given back twice |
| AvlHeight.FibBound | benchmark-suites/filebench/fb_avl.c:34-41 | a balanced tree of h levels has at least Fib(h+2)-1 nodes |
| AvlHeight.Sparsest | benchmark-suites/filebench/fb_avl.c:34-41 | for every h that many nodes make a balanced tree of h levels |
| AvlHeight.SearchIsLogarithmic | benchmark-suites/filebench/fb_avl.c:253-271 | a search of k steps needs at least 2^(k/2)-1 nodes |
| AvlPacking.SetParentRefines | benchmark-suites/filebench/fb_avl.h:115-117 | setting the parent in the packed word changes that field alone |
| AvlPacking.SetChildRefines | benchmark-suites/filebench/fb_avl.h:122-124 | setting the child index changes that field alone |
| AvlPacking.SetBalanceRefines | benchmark-suites/filebench/fb_avl.h:131-133 | setting the balance changes that field alone |
| AvlPacking.SetAll | benchmark-suites/filebench/fb_avl.h:105-133 | setting all three in any word gives the packed form of the unpacked node |
| AvlPacking.AlignmentNeeded | benchmark-suites/filebench/fb_avl.h:115-117 | the other fields survive for every word if and only if the parent address is a multiple of 8 |
| AvlPacking.IndexRoundTrip | benchmark-suites/filebench/fb_avl.h:148-150 | an insertion point packed into a word gives back its node and side |
| FilesetOrder.CyclicSkips | benchmark-suites/filebench/fileset.c:764-780 | skipping busy entries from the start found is looking for an idle one from the request |
| FilesetFind.FindEntry | benchmark-suites/filebench/fileset.c:579-599 | the cyclic successor: least index not below the request, else the least; null only when empty |
| FilesetFind.ScanIdle | benchmark-suites/filebench/fileset.c:764-780 | the wrap-around scan ends, with null exactly when all are busy and else the first idle entry cyclically |
| FilesetMove.MoveEntry | benchmark-suites/filebench/fileset.c:222-228 | the entry leaves one tree and joins the other, both in order |
| FilesetPool.EntryPool.Pick | benchmark-suites/filebench/fileset.c:692-806 | on the three heap trees: does what `Picks` says, and keeps trees, flags and counts consistent |
| FilesetPool.EntryPool.Relocate | benchmark-suites/filebench/fileset.c:829-917 | sets or clears existence: flags changed and the entry moved to the tree they name |
| FilesetPool.EntryPool.Unbusy | benchmark-suites/filebench/fileset.c:813-964 | move, open count, busy flag, waiting flag and idle count, exactly as the value step says |
| FilesetState.PickByFlags | benchmark-suites/filebench/fileset.c:626-806 | by the flags alone: a pick past its wait fails if and only if no idle entry is free, not existing or existing as asked; else it takes the one with the least index not below where it starts, or the least of all, and changes nothing else but a rotor |
| FilesetState.PickTurns | benchmark-suites/filebench/fileset.c:721-759 | only a pick in rotation moves a rotor, only the one it used, and to just past the nearest entry with the flags asked for, busy or not |
| FilesetState.PickOutcome | benchmark-suites/filebench/fileset.c:692-806 | past its wait a pick fails exactly when the selected tree has no idle entry, and else takes one from it |
| FilesetState.PickDetermined | benchmark-suites/filebench/fileset.c:692-806 | state and request determine the outcome |
| FilesetState.SetExistsSound | benchmark-suites/filebench/fileset.c:829-917 | afterwards the entry exists as asked, is not free, is in the tree its flags name, and no other entry changed |
| FilesetState.ReleaseSets | benchmark-suites/filebench/fileset.c:813-964 | a release sets existence as asked or leaves it, moves the open count, makes the entry idle, and changes no other entry |
| FilesetProtocol.PickKeeps | benchmark-suites/filebench/fileset.c:616-806 | a pick by any thread, sleeping or not, keeps the invariant |
| FilesetProtocol.GrabKeeps | benchmark-suites/filebench/flowop_library.c:1733-1745 | so do the grabs of delete and close, with their wait for the entry |
| FilesetProtocol.LetKeeps | benchmark-suites/filebench/fileset.c:813-964 | so does a release with its broadcast and signal |
| FilesetRuns.RunInv | benchmark-suites/filebench/fileset.c:616-964 | the invariant holds at every point of every run of any number of threads |
| FilesetRuns.BusyIsHeld | benchmark-suites/filebench/fileset.c:782-800 | an entry is busy if and only if a thread holds it, and then exactly one does |
| FilesetRuns.EntryIsPlaced | benchmark-suites/filebench/fileset.c:829-917 | every entry is in exactly one tree, the one its flags name |
| FilesetRuns.SleepsOnlyWhenAllBusy | benchmark-suites/filebench/fileset.c:635-638 | the idle count is at least the number of idle entries, so a pick sleeps only when all are busy |
| FilesetRuns.IdleCountExact | benchmark-suites/filebench/flowop_library.c:1901-1906 | the idle count is exact if and only if no close so far skipped its decrement |
| FilesetRuns.SleepsExactly | benchmark-suites/filebench/fileset.c:635-638 | while no close has skipped its decrement, a pick sleeps if and only if there are entries and all are busy |
| FilesetRuns.GrabTakes | benchmark-suites/filebench/flowop_library.c:1733-1745 | a delete or close holds the entry if and only if it was idle, and else sleeps on it with the waiting flag set; what happens to the idle count |
| FilesetRuns.SleeperIsRemembered | benchmark-suites/filebench/flowop_library.c:1893-1899 | a thread asleep on an entry sleeps on a busy one whose waiting flag is set |
| FilesetRuns.ReleaseWakes | benchmark-suites/filebench/fileset.c:928-933 | after a release no thread sleeps on that entry: it wakes every thread asleep on any entry if its waiting flag is set, and none of them otherwise |
| FilesetRuns.HeldIsFrozen | benchmark-suites/filebench/fileset.c:616-964 | while a thread holds an entry no other thread changes its index, flags, tree or open count; all it may do is set the waiting flag |
| FilesetRuns.DeleteClears | benchmark-suites/filebench/flowop_library.c:1733-1783 | a delete that read the open count without the lock still ends with open count 0, not existing and idle |
| FilesetSleep.RunMatched | benchmark-suites/filebench/fileset.c:936-943 | while a picker sleeps, idle entries are matched by woken threads or by woken picks that failed |
| FilesetSleep.StrandedOnlyIfFruitless | benchmark-suites/filebench/fileset.c:635-638 | a picker is left asleep beside an idle entry, with no thread woken for it, only after such a failed pick |
| FilesetStranded.StrandsExactly | benchmark-suites/filebench/fileset.c:635-806 | a step leaves a sleeper beside an idle entry with no thread woken if and only if it is a pick by the only woken thread, others sleep, and more idle entries are counted than it will take |
| FilesetStranded.RunStrandsExactly | benchmark-suites/filebench/fileset.c:616-964 | a run gets to such a state if and only if it has such a step |
| FilesetStranded.SleeperLeftBehind | benchmark-suites/filebench/fileset.c:635-638 | a run from a populated fileset that leaves a picker asleep with its file idle and nothing held |
| FilesetRotor.TurnsCover | benchmark-suites/filebench/fileset.c:724-759 | from any start as many rotor turns as there are indices give each once |
| FilesetRotor.RotorSpins | benchmark-suites/filebench/fileset.c:724-759 | up to n rotor picks from an n-entry tree with no busy entry, with releases in any order between them: none comes back empty, and those picked are the next so many in rotation |
| FilesetRotor.RotorVisitsAll | benchmark-suites/filebench/fileset.c:724-759 | n such picks, whatever is held and released meanwhile, take every entry exactly once |
| FilesetLayout.IndexUnique | benchmark-suites/filebench/fileset.c:1344-1348 | indices of a kind increase in order of creation |
| FilesetLayout.IndexFound | benchmark-suites/filebench/fileset.c:1344-1348 | every number below the count of a kind is an index of that kind |
| FilesetLayout.PathsDifferIff | benchmark-suites/filebench/fileset.c:113-133 | resolved paths differ exactly when names differ within each directory |
| FilesetLayout.OneOfEach | benchmark-suites/filebench/fileset.c:1505-1539 | a smallest layout in which a file and a leaf directory have the same path |
| FilesetLayout.PathAsDrawn | benchmark-suites/filebench/fileset.c:1456-1521 | by paths: in the root only directories; elsewhere a directory exactly if its path is shorter than the depth drawn for its parent, and a last name within the width drawn |
| FilesetComplete.OneLayout | benchmark-suites/filebench/fileset.c:1430-1543 | two complete layouts for the same draws and numbers wanted are the same |
| FilesetComplete.NoneInVain | benchmark-suites/filebench/fileset.c:1500-1539 | in a complete layout each directory made while a kind was missing has one of that kind below it |
| FilesetComplete.ClashIff | benchmark-suites/filebench/fileset.c:1505-1539 | in a complete layout names differ within each directory if and only if one of the kinds was not wanted |
| FilesetComplete.OneOfEachComplete | benchmark-suites/filebench/fileset.c:1430-1543 | that smallest layout is complete for one file, one leaf directory and draws of 1 |
| FilesetPopulate.PopulateOneOfEach | benchmark-suites/filebench/fileset.c:1556-1628 | the call that populates so succeeds and leaves that layout, with two equal paths |
| FilesetLayout.PopulatedIsInit | benchmark-suites/filebench/fileset.c:1568-1571 | a populated fileset is an initial state of the pick protocol, with every entry idle |
| FilesetPopulate.Fileset.PopulateEntry | benchmark-suites/filebench/fileset.c:1331-1412 | one more file or leaf directory with the next index; it fails only if an allocation does, and then leaves the counters consistent |
| FilesetPopulate.Fileset.Fill | benchmark-suites/filebench/fileset.c:1505-1539 | either loop ends, and fails only if an allocation does; it gives the names 1, 2, 3 and so on, each while its kind is missing, and stops only when the number wanted is reached or, below the root, the width drawn is full |
| FilesetPopulate.Fileset.PopulateSubdir | benchmark-suites/filebench/fileset.c:1430-1543 | terminates for bounded depths and fails only if an allocation does; success adds at least one of each missing kind, and all of them at the root, and every directory it makes is filled by both loops as far as they go |
| FilesetPopulate.Fileset.Populate | benchmark-suites/filebench/fileset.c:1556-1628 | if no allocation fails it succeeds; success means a complete layout: exactly the files and leaf directories wanted, every directory filled as far as its two loops go, and none made in vain; paths are then distinct if and only if one kind was wanted; in any case the layout is as drawn: only directories in the root, elsewhere no name beyond the width drawn, and directories exactly where the depth drawn is not reached |
| EventTokens.EnterBalanced | benchmark-suites/filebench/flowop_library.c:838-855 | reaching a limiter keeps its bucket equal to what was paid for less what went by |
| EventTokens.GrantBalanced | benchmark-suites/filebench/flowop_library.c:1025-1038 | so does taking the events; at rest the bucket of a bandwidth limiter is in 0..1MB and that of an operation limiter is 0 |
| EventTokens.PaidFor | benchmark-suites/filebench/flowop_library.c:957-1041 | at rest, bytes since the baseline are at most 1MB per event and at least that less 1MB; operations equal events |
| EventTokens.NextInv | benchmark-suites/filebench/eventgen.c:73-127 | each step conserves events: posted = queued + cleared + taken, and posted events are earned by elapsed time |
| EventTokens.RateBound | benchmark-suites/filebench/eventgen.c:73-127 | in every run taken plus queued is at most posted, and posted at most rate times elapsed time |
| EventTokens.PaidShare | benchmark-suites/filebench/flowop_library.c:957-1041 | what a limiter has been paid for is all that went by when it is at rest, and what its events are worth when it waits; never more than that |
| EventTokens.PaidRate | benchmark-suites/filebench/flowop_library.c:796-1041 | in every run the operations and megabytes that all limiters together, waiting or not, have been paid for are at most rate times elapsed time |
| EventTokens.ResetStops | benchmark-suites/filebench/eventgen.c:164-168 | after a reset no limiter can take anything until more is posted, and what was queued counts as dropped |
| EventReadings.RunTracks | benchmark-suites/filebench/flowop_library.c:838-1041 | at every point of every run a limiter's fields are the first and last reading it was called with while enabled, or the number of its calls, and what had gone by at its last return is paid for |
| EventReadings.HeardIsPaid | benchmark-suites/filebench/flowop_library.c:838-1041 | events taken and waited for cover what the readings say went by, and by less than one event too many; exactly for calls and operations |
| EventReadings.EndToEnd | benchmark-suites/filebench/flowop_library.c:796-1041 | in every run what all limiters together let by in calls that returned, by the readings and calls of the run alone, is at most rate times elapsed time |
| EventSupply.RoundingCost | benchmark-suites/filebench/eventgen.c:90-105 | after an unbroken sleep, rounding down loses at most a ninth of what is due |
| EventSupply.QueueCap | benchmark-suites/filebench/eventgen.c:114-122 | the queue stays below five seconds' worth and one posting |
| EventSupply.Starves | benchmark-suites/filebench/flowop_library.c:1025-1036 | a limiter asking for that much or more waits for the rest of the run |
| EventSupply.Served | benchmark-suites/filebench/flowop_library.c:1025-1036 | a demand within five seconds' worth is met after at most as many postings |
| EventSupply.ServedExactly | benchmark-suites/filebench/eventgen.c:90-122 | every run of the generator alone with as many turns as events are missing lets the limiter go, if and only if it asks for at most five seconds' worth or for no more than is queued |
| EventSupply.SomeoneStarves | benchmark-suites/filebench/flowop_library.c:1025-1036 | at every rate, a run of any length from the start that leaves a limiter waiting with too little queued |
| EventSupply.TurnPosts | benchmark-suites/filebench/eventgen.c:73-127 | a turn posts the whole events due up to its first clock reading, or none when five seconds' worth are queued, and the clock is left at the second reading |
| EventSupply.PostsAllDue | benchmark-suites/filebench/eventgen.c:90-122 | a turn posts all that fell due if and only if nothing is rounded away, both clock readings agree and the queue is below five seconds' worth |
| EventLimiter.Generator.Turn | benchmark-suites/filebench/eventgen.c:73-127 | one turn of the producer is the step of the state machine |
| EventLimiter.Generator.Clear | benchmark-suites/filebench/eventgen.c:164-168 | so is a reset |
| EventLimiter.LimitFlowop.Reach | benchmark-suites/filebench/flowop_library.c:838-856 | a limiter up to its wait loop is the step of the state machine: it records the reading, keeps its baseline, debits what went by, and asks for events exactly when the bucket is then short |
| EventLimiter.LimitFlowop.Wait | benchmark-suites/filebench/flowop_library.c:857-872 | the wait loop takes its events the first time the queue holds enough, and not before |
| EventLimiter.LimitFlowop.Limit | benchmark-suites/filebench/flowop_library.c:957-1041 | a call that returns has events taken for all between the baseline and its reading, exactly as many for operations, one for a call; a bandwidth limiter's bucket is then in 0..1MB |
| FlowopCopy.Registry.Push | benchmark-suites/filebench/flowop.c:744-750 | a new flowop goes to the head of the global list |
| FlowopCopy.AppendTo | benchmark-suites/filebench/flowop.c:757-771 | only the next pointer of the old last flowop changes |
| FlowopCopy.Define | benchmark-suites/filebench/flowop.c:703-776 | a fresh copy at the tail of the list and the head of the global one, owned by the thread |
| FlowopCopy.InitFlow | benchmark-suites/filebench/flowop.c:1052-1067 | a composite stops sharing its prototype's inner list and gets a copy of it |
| FlowopCopy.CreateRuntime | benchmark-suites/filebench/flowop.c:238-277 | a fresh deep copy of any nesting: same order and shape, no flowop twice, all owned by the thread, prototypes unchanged; the global list gains just the flowops of the copy, at its head |
| FlowopRun.Worker.Composite | benchmark-suites/filebench/flowop.c:993-1050 | a pass goes through one flat plan of abort checks and innermost flowops, with iteration counts drawn in that order, up to the first that is not OK, and returns its result |
| FlowopRun.FlatIsTurns | benchmark-suites/filebench/flowop.c:998-1045 | that plan has one turn for each flowop of the list, in its order, each drawing after the one before |
| FlowopRun.PlainTurn | benchmark-suites/filebench/flowop.c:1005-1019 | the turn of a flowop that is not composite is one abort check and one draw, and then it runs exactly as often as drawn, never for a count below 1 |
| FlowopRun.CompositeTurn | benchmark-suites/filebench/flowop.c:1005-1019 | the turn of a composite is one abort check and one draw, and then as many passes through its inner list as drawn |
| FlowopRun.RanAll | benchmark-suites/filebench/flowop.c:1002-1048 | a pass goes on while no abort is asked for and every flowop says OK; where it stops early it says DONE for an abort and else what the flowop said |
| FlowopRun.RanSum | benchmark-suites/filebench/flowop.c:1016-1038 | running two stretches one after the other is running their concatenation |
| FlowopRun.CopyRuns | benchmark-suites/filebench/flowop.c:238-277 | a copy performs the same operations in the same order as its prototypes would, drawing the same counts, and ends the same way |
| PipControl.FirstFitGreatest | control/powercap_CPU_powertrace-final.py:379-400 | a search returns the greatest candidate the model accepts, and its floor exactly when it accepts none |
| PipControl.StrictLowers | control/powercap_CPU_powertrace-final.py:552-637 | capping raises neither cap and keeps bounds and priority |
| PipControl.IncreaseRaises | control/powercap_CPU_powertrace-final.py:447-497 | recovery lowers neither cap and raises their sum until both are 100 |
| PipControl.StrictPicks | control/powercap_CPU_powertrace-final.py:585-637 | a large violation picks the greatest accepted user cap at least 5 lower; if none, user goes to 1 and critical to what is read back of its greatest accepted cap or of 1 |
| PipControl.RaisedPicks | control/powercap_CPU_powertrace-final.py:466-477 | a large gap picks the greatest accepted cap; from below 10, or if none is accepted, it adds 5 |
| PipControl.IncreasePicks | control/powercap_CPU_powertrace-final.py:447-497 | recovery from a large gap: the critical group first by its own search, then the user group by its own |
| PipControl.TurnKeeps | control/powercap_CPU_powertrace-final.py:724-737 | every turn keeps both caps in 1..100, with critical below 100 only when user is 1 |
| PipRuns.RunKeeps | control/powercap_CPU_powertrace-final.py:643-737 | so does every run |
| PipRuns.NothingUntilNearBudget | control/powercap_CPU_powertrace-final.py:665-689 | full mode starts at the first sample within 3% of the budget and never ends; until then nothing is capped |
| PipRuns.Recovers | control/powercap_CPU_powertrace-final.py:730-733 | any 198 samples in a row below the band restore both caps |
| PipRuns.RecoversSlowly | control/powercap_CPU_powertrace-final.py:466-468 | 197 may not: with gaps under 10 W each sample adds exactly 1 |
| PipRuns.UserFloor | control/powercap_CPU_powertrace-final.py:552-637 | any 20 samples in a row at the budget bring the user cap to 1 |
| PipRuns.SmallViolations | control/powercap_CPU_powertrace-final.py:562-584 | any 40 small violations in a row bring both caps to 1 |
| PipRuns.SmallOverBudget | control/powercap_CPU_powertrace-final.py:562-584 | at or over the budget small violations bring both caps to 1 after exactly as many samples as tens are left above 1, at most 20 |
| PipRuns.NoFewer | control/powercap_CPU_powertrace-final.py:562-584 | 39 may not: under the budget they do after exactly as many samples as fives are left above 1, 40 from the start |
| PipRuns.SmallTakes | control/powercap_CPU_powertrace-final.py:562-584 | a small violation takes exactly 5 under the budget and 10 at or over it, or what is left above 1, from user and then from critical |
| PipRuns.LeftAlone | control/powercap_CPU_powertrace-final.py:724-737 | the exact samples that change nothing: in the band, above it with nothing to take or the model content, or below it with both caps at 100 |
| PipRuns.BandHolds | control/powercap_CPU_powertrace-final.py:730-737 | a run of samples between the two thresholds, and of missed ones, changes nothing |
| PipRuns.LargeViolation | control/powercap_CPU_powertrace-final.py:503-550 | with user at 1, a large violation changes nothing if the model accepts the critical cap and it reads back unrounded, or it is 1; otherwise critical falls |
| PipRuns.LargeViolations | control/powercap_CPU_powertrace-final.py:503-550 | a run of large violations, of any length, leaves the caps alone if and only if that is so at every sample; otherwise critical ends lower |
| PipRuns.CapRoundTrip | control/powercap_CPU_powertrace-final.py:127-171 | without rounding, the cap read back is the cap set |
| PipController.FindFit | control/powercap_CPU_powertrace-final.py:379-400 | the loop over candidates finds the greatest one accepted |
| PipController.Controller.CapStrictly | control/powercap_CPU_powertrace-final.py:552-637 | the routine with its assignments is the capping function |
| PipController.Controller.IncreaseBandwidth | control/powercap_CPU_powertrace-final.py:447-497 | the routine with its assignments is the recovery function |
| PipController.Controller.Sampled | control/powercap_CPU_powertrace-final.py:655-737 | a turn of the loop is the turn of the model, and keeps the invariant |
| Thunderbolt.TurnKeeps | control/powercap_CPU_google-ALL-v1.2.py:158-211 | every turn keeps both caps in 1..100, critical below 100 only when user is exactly 1, and the caps in force within 0.01 of the caps |
| Thunderbolt.TurnMoves | control/powercap_CPU_google-ALL-v1.2.py:168-205 | over the low threshold neither cap rises, otherwise neither falls |
| Thunderbolt.TurnMovesBy | control/powercap_CPU_google-ALL-v1.2.py:168-205 | by how much: to a hundredth over 98% of the budget, to three quarters over 96%, up by 5 at or under that once the timer has run out, which is then set |
| Thunderbolt.TurnWrites | control/powercap_CPU_google-ALL-v1.2.py:158-211 | a cap is written exactly when it moved by more than 0.01; when the flag goes up and down |
| Thunderbolt.FlagIdle | control/powercap_CPU_google-ALL-v1.2.py:158-173 | the hysteresis flag makes no difference |
| Thunderbolt.RunKeeps | control/powercap_CPU_google-ALL-v1.2.py:143-217 | the invariant holds in every run |
| Thunderbolt.ThirtyFour | control/powercap_CPU_google-ALL-v1.2.py:168-187 | any 34 samples in a row over the low threshold, hard or soft, bring both caps to 1 |
| Thunderbolt.ThirtyThree | control/powercap_CPU_google-ALL-v1.2.py:168-187 | 33 soft ones do not |
| Thunderbolt.TwoHard | control/powercap_CPU_google-ALL-v1.2.py:168-187 | two samples over the high threshold bring both caps to 1 |
| Thunderbolt.FortyRaises | control/powercap_CPU_google-ALL-v1.2.py:189-205 | 40 raises with no throttling between them restore full bandwidth from any caps |
| Thunderbolt.RaisesTakeTime | control/powercap_CPU_google-ALL-v1.2.py:191-205 | n raises move the timer by at least n seconds and gain at most 5n |
| Thunderbolt.RaisesApart | control/powercap_CPU_google-ALL-v1.2.py:191-205 | any two raises are at least a second apart |
| Thunderbolt.RaisesReturn | control/powercap_CPU_google-ALL-v1.2.py:191-205 | ten seconds after the last raise, a sample at or under 96% raises a cap that is not full |
| Thunderbolt.RecoveryTakesForty | control/powercap_CPU_google-ALL-v1.2.py:191-205 | from both caps at 1, full bandwidth takes at least 40 raises |
| ThunderboltLoop.Loop.Sampled | control/powercap_CPU_google-ALL-v1.2.py:158-211 | a turn of the loop is the turn of the model, and keeps the invariant |

## Left out

- Non-leaf directories as entries to pick: they live in one tree and never change it, so they add only easy cases.
- `fileset_pickreset`: it moves entries while walking the tree they leave.
- `avl_create`, `avl_destroy`, `avl_numnodes`, `avl_is_empty`: one assignment or test each.
- The offset between a node and the data around it, and user keys inside nodes: keys are a map beside the tree.
- Fairness of the condition variables: only what a state permits next is modelled, not that a woken thread gets to run.
- FlowopCopy.CreateRuntime: allocations succeed, and resolving file names and other fields that are copied bit for bit are not modelled.
- Destroying and deleting flowops: the destruct loop reads a flowop after it is freed.
- FilesetPopulate.Fileset.Populate: file sizes, the skip of a populated fileset and raw devices are not modelled; drawn depths have some bound and drawn widths are not negative, without which the recursion need not end.
- EventTokens.RateBound: the 32-bit result of the event count is not modelled.
- Restarting the PIP worker after an exception, which resets one cap and not the other.
- Calibration, sensitivities and feature maps of PIP: they reach the caps only through the model's answers, which are arbitrary.
- The floor of 1000 microseconds and the rounding in Thunderbolt's `cpu.max` quota.
- File, perf, RAPL and cgroup input and output, model training and prediction, plotting, and the weaker variants of the controllers.
