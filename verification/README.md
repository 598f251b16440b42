# Verified model of the HAL and RTAPI core

This project models the shared-memory HAL library (`hal/hal_lib.c`), the RTAPI services it stands on
(`rtapi/`) and the example task's command path and controller (`ExampleTask/`), and proves what they keep
over whole runs. `dafny verify dfyconfig.toml` checks everything.

## How the model is laid out

The HAL registry is modelled twice and the two are tied together.

* `Registry` is the registry as a value: lists, free lists and rings are sequences of struct offsets, struct
  contents are maps from offsets, and each section under `hal_data->mutex` is one function, written loop
  iteration by loop iteration. `Step` is any section, `Run` any sequence of them. All theorems about runs are
  about this machine.
* `Hal.HalLib` is the code's own form: `next_ptr` words, `next`/`prev` words of the entry rings, the roots and
  the counters are fields that the methods rewrite in place, with the source's loops. Every method is proved to
  end exactly where the corresponding `Registry` function goes and to leave every chain and ring well formed
  (`Hal.HalLib.Apply`, `Hal.HalLib.ApplyAll`). `Links` holds the pointer reasoning, `Pools` one struct kind with
  its live and free list, `Arena` the allocator.

Over the registry machine:

* `Invariant`, `Preservation`: the invariant and that every operation keeps it. It says that lists and rings are
  disjoint and closed, names are strictly increasing, each function's `users` is the number of entries that name
  it over all thread rings, a non-reentrant function has at most one entry, every entry names a listed function
  and runs its code, a floating-point function is only on floating-point threads, and every function and
  parameter belongs to a registered component.
* `Sweeps`, `Cascade`: what the remove-while-walking loops and the whole `hal_exit` cascade do.
* `Schedule`: the history replayed on plain names, and that one pass of `thread_task` calls exactly what the
  replay says. `Positions`: where an insert lands, and that add followed by del restores.
* `Churn`: structs ever carved are the disjoint union of used and free ones, and their number is the peak use.
* `Footprint`: a run is a history of allocator requests, so all structs of all kinds and all `hal_malloc` memory lie
  apart in the segment, which is what one map of contents per kind stands on; and what churn costs in bytes.
* `Refusals`: exact acceptance conditions, and what refused calls leave behind. `Effects`: what accepted calls leave,
  field by field, said with the arguments of the call, and the lock.

The other parts are state machines whose steps are single shared accesses or system calls, so that a run is any
interleaving: `Mailbox` (the command channel under its test-and-set lock), `PauseProtocol` (pause and resume
semaphores, with the task's methods as a class), `TaskLoop` (both together), `ShmKernel` (many processes on one
System V segment). `Commands` is one undisturbed call on each side of the channel in the source's own form, down to
what each command does to pins, task and timing. `ShmHandles` is the handle table of one process as a class over an
array, `Deadline` the absolute deadlines with the in-place `timespec` arithmetic, `Controller` the position
controller.

## Where the code does something other than its documentation says

* Component names are not unique. `hal/hal_lib.c:102-108` looks for the name, but no name is ever copied into the
  component, so the check can only fire for the empty name (`Preservation.InitRefusesOnlyEmptyName`).
* The demo in `ExampleTask/operate.cpp:250-261` pauses the task through the command channel and expects a RESUME
  on the same channel to be consumed. Without an outside resume it never is (`TaskLoop.SelfPauseIsPermanent`); a run
  that consumed a PAUSE runs a further command in some continuation exactly when that resumes the task from outside
  (`TaskLoop.PausedRunsResumeOnlyFromOutside`).
* `hal_create_thread` comments its error exits as a rollback of the new thread; the rollback also stops every
  other thread (`Refusals.FailedCreateStopsThreads`).
* `task_resume` may be accepted more than once for one pause, and the surplus makes a later pause fall
  through. Pauses block exactly while accepted resumes do not exceed accepted pauses
  (`PauseProtocol.PauseBlocksIff`).
* `rtapi_shmem_new` answers a failed shmat with IPC_RMID as if it had created the segment. That is harmless exactly
  when no process maps the segment, in particular when the caller created it and nobody attached since (`ShmKernel.RefusalHarmlessIff`);
  when some process does, the key can come to name two segments (`ShmKernel.RefusalSplitsTheKeyIff`). A key that
  meets only harmless failures names one segment, whatever happens to other keys (`ShmKernel.OneSegmentPerKey`).
* `hal_malloc` accepts negative sizes and then moves the bottom of the heap down (`Arena.UpReleasesIffNegative`):
  bytes already handed out can be handed out again exactly after such a request (`Arena.ReusesIffNegative`).
* A first thread that `hal_create_thread` rolls back has set the clock, and the rollback does not unset it
  (`Refusals.ClockChangesIff`). A retry is then measured against the period that failed
  (`Refusals.RetryAfterRollback`). A first period beyond `long` is rolled back too and leaves a negative clock
  (`Refusals.ClockTurnsNegativeIff`), under which any ordinary period is accepted (`Refusals.NegativeClockTakesAny`).

## Model

| member | source | states |
|---|---|---|
| Links.RingMutuallyInverse | hal/hal_priv.h:257-266 | on a closed ring, following next then prev or prev then next from any member comes back to it |
| Links.RingsRemove | hal/hal_priv.h:274-278 | list_remove_entry keeps every ring closed and disjoint, drops exactly that entry from its ring, and leaves it on no ring |
| Links.RingsAdd | hal/hal_priv.h:267-273 | list_add_after of an entry that is on no ring keeps every ring closed and disjoint and puts it right behind the given stop |
| Links.RingsInit | hal/hal_priv.h:255 | a self-ring made at a cell outside every ring adds one empty ring and disturbs no other |
| Links.ChainLink | hal/hal_lib.c:499-519 | next_ptr and *prev stores insert a struct in front of a position of a null-terminated list and keep it a list |
| Links.ChainUnlink | hal/hal_lib.c:184-185 | storing next_ptr through prev removes exactly that struct from its list |
| Names.HasNameIffMember | hal/hal_lib.c:512-527 | in a strictly increasing list the first name not below the key equals the key exactly when the key is in the list |
| Names.InsertKeepsSorted | hal/hal_lib.c:499-519 | inserting at that place keeps names strictly increasing and adds exactly the key: set insertion |
| Names.StrCmpIsByteOrder | hal/hal_lib.c:512 | a name is below another exactly when at the first place they differ it ends or has the smaller byte |
| Arena.UpTakesLeast | hal/hal_lib.c:1399-1430 | shmalloc_up succeeds exactly when some aligned placement fits in the gap, returns the least one, and wastes less than the alignment |
| Arena.DnTakesGreatest | hal/hal_lib.c:1432-1464 | shmalloc_dn succeeds exactly when some aligned placement fits, returns the greatest one, and wastes less than the alignment |
| Arena.EndsAgree | hal/hal_lib.c:1399-1464 | from any gap one end can serve a size exactly when the other can |
| Arena.AlignmentIs | hal/hal_lib.c:1404-1421 | a size is put on the largest power of two up to 16 that it reaches; size 3 alone is put on any byte |
| Arena.UpReleasesIffNegative | hal/hal_lib.c:1399-1430 | the bottom of the gap moves down exactly for a negative request |
| Arena.NegativeSizeOverlaps | hal/hal_lib.c:199-219 | asking for a size, for its negative and for the size again hands out the same block twice |
| Arena.ReusesIffNegative | hal/hal_lib.c:1399-1464 | after a request some sane continuation hands out bytes below the former bottom if and only if the size asked for was negative |
| Arena.HistorySafe | hal/hal_lib.c:1386-1464 | over any mixed history of non-negative sizes the gap stays inside its first bounds, all blocks are inside them, aligned and pairwise disjoint, refused requests change nothing, and shmem_avail is top - bot from the first success on |
| Arena.Allocator.ShmallocUp | hal/hal_lib.c:1399-1430 | new allocator words and returned offset; non-null exactly when a placement exists |
| Arena.Allocator.ShmallocDn | hal/hal_lib.c:1432-1464 | new allocator words and returned offset; non-null exactly when a placement exists |
| Invariant.TakeFresh | hal/hal_lib.c:1492-1519 | the struct an allocation hands out is on no list of its kind and the lists stay disjoint; failure changes nothing |
| Refusals.TakeIff | hal/hal_lib.c:1492-1519 | an allocation succeeds exactly when a struct was freed before or an aligned place for one exists |
| Pools.StructPool.Alloc | hal/hal_lib.c:1492-1519 | pops the head of the free list or carves from the top; both lists stay chained and the struct is on neither |
| Pools.StructPool.Push | hal/hal_lib.c:1706-1709 | a freed struct becomes the head of its free list with an empty name |
| Pools.StructPool.UnlinkAt | hal/hal_lib.c:1594-1599 | removes exactly one struct from the live list, order of the rest kept |
| Pools.StructPool.FindSlot | hal/hal_lib.c:497-534 | the walk ends at the place where the name belongs and reports a duplicate exactly when the name is there |
| Pools.StructPool.LinkSorted | hal/hal_lib.c:495-534 | links the named struct at its place in name order, or links nothing when the name is taken |
| Pools.StructPool.AddSorted | hal/hal_lib.c:1937-1968 | allocation and sorted insert as a whole; a duplicate ends on the free list and the live list is as before |
| Pools.StructPool.FindByName | hal/hal_lib.c:1803-1821 | the walk returns the first struct of that name, null when there is none |
| Sweeps.SweepThreadsSafe | hal/hal_lib.c:1666-1697 | freeing a function's entries moves them to the free ring, no entry is lost or doubled, and other functions, entries and counts stay |
| Sweeps.SweepThreadsKeeps | hal/hal_lib.c:1666-1697 | every ring becomes the in-order subsequence of entries that do not name the function |
| Sweeps.EmptyRingCounts | hal/hal_lib.c:1748-1755 | emptying a ring lowers each function's users by the number of entries that named it |
| Invariant.FreeFunctEffect | hal/hal_lib.c:1657-1710 | with exact use counts, free_funct_struct removes exactly the function's entries from every ring whether or not it runs its loop |
| Cascade.ExitDeletes | hal/hal_lib.c:142-196 | hal_exit of a present id removes exactly that component, leaves the in-order subsequences of functions, parameters and ring entries it did not own, keeps surviving functions whole with their users; an absent id changes nothing |
| Cascade.ExitKeepsInv | hal/hal_lib.c:1579-1633 | the cascade keeps the whole registry invariant |
| Preservation.RegisterEffect | hal/hal_lib.c:480-534 | allocate, name, insert: accepted exactly when a struct was had and the name is new, names stay strictly increasing, otherwise the live list is untouched |
| Preservation.InitKeepsInv | hal/hal_lib.c:96-139 | registration keeps the invariant when module ids are new, in particular unique component ids |
| Preservation.InitRefusesOnlyEmptyName | hal/hal_lib.c:102-132 | the uniqueness check of hal_init refuses a name exactly when it is empty and a component exists |
| Preservation.ExportKeepsInv | hal/hal_lib.c:426-536 | exporting keeps counts, names, links and ownership, duplicates included |
| Preservation.ParamKeepsInv | hal/hal_lib.c:1857-1969 | registering a parameter keeps the invariant |
| Preservation.PinKeepsInv | hal/hal_lib.c:2061-2172 | registering a pin keeps the invariant |
| Preservation.CreateCases | hal/hal_lib.c:602-680 | creating a thread either links it with an empty ring, or gives its struct back with all rings as before, or changes nothing; linked or given back, a first thread has set the clock |
| Preservation.CreateKeepsInv | hal/hal_lib.c:558-680 | creation and each rollback keep the invariant |
| Preservation.FreeThreadsKeepsInv | hal/hal_lib.c:1164-1173 | tearing down all threads keeps the invariant and leaves no thread |
| Preservation.AddKeepsInv | hal/hal_lib.c:768-910 | adding a function keeps exact use counts and the limits on non-reentrant and floating-point functions |
| Preservation.DelKeepsInv | hal/hal_lib.c:912-998 | taking a function off a thread keeps the invariant |
| Preservation.StepKeepsInv | hal/hal_lib.c:43-1184 | every operation keeps the registry invariant |
| Preservation.ReachableInv | hal/hal_lib.c:43-1184 | the invariant holds in every reachable state |
| Refusals.Refused | hal/hal_lib.c:43-1184 | a refused operation leaves every listed struct, name, owner and schedule as it was, pins included, and the run flag unless it was a thread creation |
| Refusals.FailedCreateStopsThreads | hal/hal_lib.c:621-670 | a refused call stops running threads exactly when it is a thread creation that got as far as taking a struct |
| Refusals.ClockChangesIff | hal/hal_lib.c:616-670 | an operation, accepted or refused, changes the clock exactly when it is a thread creation that gets its struct with no thread listed and the clock unset |
| Refusals.ClockTurnsNegativeIff | hal/hal_lib.c:621-633 | from a clock that is not negative it turns negative exactly by such a creation with a period beyond long, and that call is refused |
| Refusals.RetryAfterRollback | hal/hal_lib.c:616-670 | after a first thread with period p was rolled back, a retry with q is accepted exactly when p is at most q with one per cent, as a long |
| Refusals.NegativeClockTakesAny | hal/hal_lib.c:616-637 | from a negative clock every period that stays a long with one per cent is accepted for a first thread, and the clock stays negative |
| Refusals.ExportAcceptedIff | hal/hal_lib.c:426-534 | an export is accepted exactly for a short new name, unlocked, from a registered real-time component that is not ready, while a struct can be had |
| Refusals.ParamAcceptedIff | hal/hal_lib.c:1857-1969 | a parameter is accepted exactly with valid type, direction and address, a short new name, unlocked, from a registered component that is not ready, while a struct can be had |
| Refusals.PinAcceptedIff | hal/hal_lib.c:2061-2172 | a pin is accepted exactly with valid type and address, a short new name, unlocked, from a registered component that is not ready, while a struct can be had |
| Refusals.CreateAcceptedIff | hal/hal_lib.c:558-680 | a thread is accepted exactly for a positive period and a short new name, unlocked, while a struct can be had, its task is created and started, and a first thread finds the clock unset with a period that stays a long with one per cent added, or set within one per cent |
| Refusals.ReadyToggles | hal/hal_lib.c:274-356 | ready and unready succeed exactly when a registered component with the id has the flag the other way, and undo each other |
| Refusals.StartThenStop | hal/hal_lib.c:1006-1072 | threads start exactly from an unlocked ACTIVE registry, and the stop that follows succeeds and restores it |
| Refusals.DelAcceptedIff | hal/hal_lib.c:912-998 | a removal is accepted exactly when both names are listed and some entry of that thread runs that function |
| Effects.InitLands | hal/hal_lib.c:118-131 | an accepted registration puts one real-time component, not ready, with the new id at the head of the list and changes nothing else |
| Effects.InitAcceptedIff | hal/hal_lib.c:96-132 | a registration is accepted exactly for a short name, not empty beside other components, while a struct can be had; which refusal is which |
| Effects.ReadyLands | hal/hal_lib.c:274-356 | the component with the id takes the flag and no other changes |
| Effects.ExportLands | hal/hal_lib.c:480-534 | an accepted export adds one function with the name, both flags, code and argument of the call, no users, and the component with the caller's id as owner; nothing else changes |
| Effects.ParamLands | hal/hal_lib.c:1900-1968 | an accepted parameter is added under its name, belongs to the component with the caller's id, and leaves the owners of the others |
| Effects.PinLands | hal/hal_lib.c:2100-2172 | so is an accepted pin |
| Effects.CreateLands | hal/hal_lib.c:602-680 | an accepted thread heads the list with the name, flag, priority and period of the call and an empty ring; other threads, rings and the run flag stay |
| Effects.AppExitLeaves | hal/hal_lib.c:1147-1175 | after shutdown no thread is left, no function has a user, the threads are stopped, and everything registered is still there |
| Effects.StartStopResults | hal/hal_lib.c:1006-1072 | starting and stopping in every state, locked and unlocked, with each answer |
| Effects.AddAcceptedExactly | hal/hal_lib.c:768-910 | an add is accepted exactly for listed names, a function that is reentrant or on no thread, a thread with floating point if the function needs it, and a position on the ring |
| Effects.DelLands | hal/hal_lib.c:973-997 | an accepted removal takes out the first entry that runs the function, clears it onto the free ring, lowers its users by one and changes nothing else |
| Effects.LastFreedIsReused | hal/hal_lib.c:1492-1519 | the struct freed last is handed out first, at no cost in memory |
| Effects.LastEntryIsReused | hal/hal_lib.c:1522-1547 | so is the entry freed last |
| Effects.FreedIsClear | hal/hal_lib.c:1657-1761 | functions, entries and threads are cleared when they are freed |
| Effects.LockTakesEffect | hal/hal_lib.c:375-383 | a lock that is set refuses exactly the operations behind its bits, without any change |
| Effects.OutOfMemory | hal/hal_lib.c:43-1184 | an operation runs out of memory only when no struct of its kind is free and no place fits one |
| Positions.NegativePosition | hal/hal_lib.c:847-883 | position p below zero is the same place as n + 2 + p on a ring of n entries |
| Positions.AddAcceptedIff | hal/hal_lib.c:847-883 | with compatible names and flags an add is accepted exactly for 1 <= abs(position) <= n + 1, and refused without any change |
| Positions.AddLands | hal/hal_lib.c:847-907 | the new entry lands at position - 1 or n + 1 + position, all others in order, users one higher, nothing else changed |
| Positions.AddThenDelRestores | hal/hal_lib.c:768-998 | add followed by del restores the ring and the use count when the function was not on that thread |
| Schedule.FindIffListed | hal/hal_lib.c:1803-1821 | the search by name succeeds exactly on listed names |
| Schedule.FirstUseIsFirstOf | hal/hal_lib.c:974-995 | the entry that del removes is the first occurrence of the function's name in the plan |
| Schedule.StepShows | hal/hal_lib.c:43-1184 | each operation changes the registry's plans as its replay on names says, and a refused one not at all |
| Schedule.RunShows | hal/hal_lib.c:43-1184 | the registry shows the replay of its whole history: for every function the component, code and flags it was exported with, for every thread its plan and the flag, period and priority it was created with |
| Schedule.PassFollowsHistory | hal/hal_lib.c:1281-1363 | after any history a pass calls one for one, in order, what the functions named by the replayed plan were exported with, and tells each the period the thread was created with |
| Churn.StepConserves | hal/hal_lib.c:1466-1760 | an operation adds to the structs ever carved exactly the one it carves, and it carves only when none of the kind is free |
| Churn.UsedFreeApart | hal/hal_lib.c:1466-1760 | in every reachable state no struct is both in use and free |
| Churn.CarvedIsPeakFromStart | hal/hal_lib.c:1466-1760 | from the start, the structs carved over the run are exactly those in use or free, and their number is the peak number in use at once, a failed attempt in flight included |
| Churn.CarvedAreStructs | hal/hal_lib.c:1466-1760 | over any run the structs of a kind become those before it and the accumulated carves: none is lost, none appears |
| Churn.StepServes | hal/hal_lib.c:1399-1576 | each operation moves the gap exactly as the one allocator request it makes, shmalloc_up for memory and shmalloc_dn for a struct when none is free |
| Churn.NoCarveNoGrowth | hal/hal_lib.c:1466-1760 | an operation that carves no struct leaves the heap as it is |
| Footprint.RunServes | hal/hal_lib.c:1399-1576 | a run is a history of allocator requests whose blocks are the structs carved and the memory handed out, each struct at its offset with the size of its kind |
| Footprint.StructsApart | hal/hal_lib.c:1399-1576 | in every reachable state any two structs, of whatever kinds, in use or free, are aligned, behind the header, inside the segment and do not overlap |
| Footprint.HeapApart | hal/hal_lib.c:199-219 | memory from hal_malloc overlaps no struct, no header and no other such memory |
| Footprint.ChurnCostsThePeaks | hal/hal_lib.c:1466-1760 | however long the run, structs take at most the peak number of each kind times its size and 15 bytes from the top of the segment |
| Hal.HalLib.ListRemoveEntry | hal/hal_priv.h:274-278 | unlinks one entry, keeps all rings closed and disjoint, returns the entry after it |
| Hal.HalLib.FreeFunctEntryStruct | hal/hal_lib.c:1713-1728 | drops the use, clears the entry and puts it at the front of the free ring |
| Hal.HalLib.SweepThread | hal/hal_lib.c:1680-1692 | the remove-while-walking loop visits each entry once, terminates, and frees exactly the function's entries |
| Hal.HalLib.SweepAllThreads | hal/hal_lib.c:1666-1697 | the loop over the thread list does so for every thread |
| Hal.HalLib.FreeFunctStruct | hal/hal_lib.c:1657-1710 | whole new wiring and free list after freeing a function |
| Hal.HalLib.FreeFunctsOf | hal/hal_lib.c:1590-1605 | the function loop of free_comp_struct, deleting from the list it walks, ends in the cascade's state |
| Hal.HalLib.FreeParamsOf | hal/hal_lib.c:1607-1622 | the parameter loop of free_comp_struct ends in the cascade's state |
| Hal.HalLib.SearchComp | hal/hal_lib.c:162-183 | finds the first component with the id and the cell that points at it |
| Hal.HalLib.HalInit | hal/hal_lib.c:96-139 | new registry state and result of every branch |
| Hal.HalLib.HalExit | hal/hal_lib.c:142-196 | new registry state and result of every branch, with all lists and rings still well formed |
| Hal.HalLib.HalSetReady | hal/hal_lib.c:274-356 | sets or clears the ready flag of the component with the id; refused for an absent id or when it has that value |
| Hal.HalLib.HalExportFunct | hal/hal_lib.c:426-536 | new registry state and result of every branch, duplicates through free_funct_struct included |
| Hal.HalLib.HalParamNew | hal/hal_lib.c:1857-1969 | new registry state and result of every branch |
| Hal.HalLib.HalPinNew | hal/hal_lib.c:2061-2172 | new registry state and result of every branch |
| Hal.HalLib.HalMalloc | hal/hal_lib.c:199-219 | new allocator words for any size; the pointer is the least aligned offset with room in the gap, exactly the block the request gets, and null exactly when there is none |
| Hal.HalLib.EmptyThreadRing | hal/hal_lib.c:1746-1755 | the emptying loop frees every entry once and terminates |
| Hal.HalLib.FreeThreadStruct | hal/hal_lib.c:1730-1761 | empties the ring, clears and frees the struct, clears threads_running |
| Hal.HalLib.HalCreateThread | hal/hal_lib.c:558-680 | new registry state and result of every branch, with each of the four rollbacks |
| Hal.HalLib.StartClock | hal/hal_lib.c:616-645 | the first thread sets an unset clock, to the period as a long, and fails exactly when that is negative or the clock is over one per cent slower |
| Hal.HalLib.FreeAllThreads | hal/hal_lib.c:1164-1173 | the loop that takes threads off the head of the list until none is left |
| Hal.HalLib.HalAppExit | hal/hal_lib.c:1147-1175 | shuts down and frees all threads, once |
| Hal.HalLib.HalStartThreads | hal/hal_lib.c:1006-1035 | only from ACTIVE, unlocked; sets the run flag and RUNNING |
| Hal.HalLib.HalStopThreads | hal/hal_lib.c:1043-1072 | only from RUNNING, unlocked; clears the run flag |
| Hal.HalLib.HalSetLock | hal/hal_lib.c:375-383 | the lock word takes the given value and nothing else changes |
| Hal.HalLib.FindPlace | hal/hal_lib.c:847-883 | the forward and the backward walk both end right behind the entry the position means, or fail exactly when it is off the ring |
| Hal.HalLib.AllocFunctEntryStruct | hal/hal_lib.c:1522-1547 | takes the front of the free ring or carves; the entry is then on no ring and cleared |
| Hal.HalLib.HalAddFunctToThread | hal/hal_lib.c:768-910 | new registry state and result of every branch |
| Hal.HalLib.FindUse | hal/hal_lib.c:973-997 | the walk ends at the thread's first entry for the function, or at the root when there is none |
| Hal.HalLib.HalDelFunctFromThread | hal/hal_lib.c:912-998 | new registry state and result of every branch |
| Hal.HalLib.ThreadPass | hal/hal_lib.c:1296-1353 | one pass terminates and calls the code of every ring entry once, in ring order, with the thread's period, and nothing while stopped |
| Hal.HalLib.Apply | hal/hal_lib.c:43-1184 | every section takes the linked structures exactly where the registry step goes, keeps invariant and links, and returns the memory the step hands out |
| Hal.HalLib.ApplyAll | hal/hal_lib.c:43-1184 | so does every run of sections; the memory it returned is the one Footprint.HeapApart speaks of |
| Mailbox.MailboxRefines | ExampleTask/operate.cpp:152-168 | in every interleaving the handler has run exactly the newest send of each non-empty batch between its cycles, and with the lock free head - tail counts the sends to come |
| Mailbox.RunsAreASubsequence | ExampleTask/funct_command.c:41-130 | commands run are sends at strictly increasing positions with their own id and data: at most once, in order, never torn |
| Mailbox.ReturnedSendsWereAsked | ExampleTask/operate.cpp:152-168 | for every sender the sends that returned are, in order, the commands it was called with, up to the one it may still be in |
| Mailbox.EveryCommandWasCalled | ExampleTask/funct_command.c:46-51 | every command run, at any moment of any run, is the id and data of some call |
| Mailbox.CycleEnds | ExampleTask/funct_command.c:41-134 | a cycle with the lock ends by the handler's own steps, frees the lock, and ran the newest send exactly when one was new |
| Mailbox.SenderKeepsInv | ExampleTask/operate.cpp:156-165 | every access of a sender keeps exclusion, slot and counter invariant |
| Mailbox.HandlerKeepsInv | ExampleTask/funct_command.c:41-134 | every access of the handler keeps it |
| Mailbox.SendCompletes | rtapi/rtapi_mutex.h:53-62 | a sender that has the lock or finds it free returns by its own accesses, with its command sent |
| Mailbox.EverySendCanComplete | ExampleTask/operate.cpp:152-168 | with the handler outside, every send in progress can return whoever holds the lock |
| Commands.TaskShared.SendCommand | ExampleTask/operate.cpp:152-168 | an undisturbed send adds itself to the history, moves no pin and keeps slot and counters telling what is pending |
| Commands.TaskShared.CommandHandler | ExampleTask/funct_command.c:31-134 | an undisturbed cycle has the effect of the newest send exactly when one is new, and then nothing is pending |
| Commands.TaskShared.RunCommand | ExampleTask/funct_command.c:51-125 | what each command id does to the pins, the task and the correction, and that others do nothing |
| Commands.EffectsByNumber | ExampleTask/task.h:26-34 | each command number does its own thing and no more: target, enable, disable, pause, resume, limited correction; other numbers do nothing |
| Commands.EffectShows | ExampleTask/funct_command.c:53-78 | the target and enable pins always show the newest command run that concerns them |
| Commands.PendingIsNewest | ExampleTask/funct_command.c:46-48 | after any interleaving that leaves the lock free, head differs from tail exactly when a send is new, and the slot then holds the newest one whole |
| PauseProtocol.PosixTask.TaskPause | rtapi/uspace_rtapi_app.cpp:589-597 | accepted exactly in RUNNING; the state change and the token as one step of the protocol |
| PauseProtocol.PosixTask.TaskResume | rtapi/uspace_rtapi_app.cpp:607-615 | accepted exactly in PAUSED; posts a token and leaves the state to the task |
| PauseProtocol.PosixTask.TryPause | rtapi/uspace_rtapi_app.cpp:642-643 | takes the pause token if there is one and is then between the semaphores |
| PauseProtocol.PosixTask.TakeResume | rtapi/uspace_rtapi_app.cpp:646 | takes one resume token |
| PauseProtocol.PosixTask.WriteRunning | rtapi/uspace_rtapi_app.cpp:648 | back to RUNNING |
| PauseProtocol.PausedMeansPending | rtapi/uspace_rtapi_app.cpp:589-649 | in every interleaving PAUSED holds exactly while one pause token is pending or the task is between taking it and writing RUNNING, and an accepted resume is never lost |
| PauseProtocol.LeftoverTokens | rtapi/uspace_rtapi_app.cpp:589-649 | while running, resume tokens left over are accepted resumes minus accepted pauses |
| PauseProtocol.PauseBlocksIff | rtapi/uspace_rtapi_app.cpp:636-649 | an accepted pause blocks until a later resume if and only if accepted resumes do not exceed the pauses before it |
| PauseProtocol.NoTokenSurvives | rtapi/uspace_rtapi_app.cpp:607-615 | when each pause gets at most one accepted resume, no token survives into RUNNING and every later pause blocks |
| PauseProtocol.SecondResumeSurvives | rtapi/uspace_rtapi_app.cpp:607-615 | a second resume of one pause is accepted and leaves a token |
| TaskLoop.SelfPauseIsPermanent | ExampleTask/funct_command.c:80-103 | in every run without an outside resume a PAUSE is the last command ever run and the task is stuck |
| TaskLoop.RunsAMailbox | ExampleTask/funct_command.c:31-134 | a run of the task with its senders is a run of the mailbox, so all that holds of the mailbox holds there |
| TaskLoop.BlocksWithoutTheLock | ExampleTask/funct_command.c:129-134 | a stuck task gives the lock back and blocks at its next wait within four of its own steps |
| TaskLoop.SendersStillComplete | ExampleTask/operate.cpp:156-165 | while it is blocked every send in progress can still return, and none is run |
| TaskLoop.OutsideResumeWakes | rtapi/uspace_rtapi_app.cpp:607-649 | one outside resume brings the task into its next cycle with no token left |
| TaskLoop.OutsideResumeDelivers | ExampleTask/funct_command.c:41-134 | with a command waiting and the lock free, one outside resume and nine steps of the task run the newest send |
| TaskLoop.CommandRunsIffResumed | rtapi/uspace_rtapi_app.cpp:607-649 | from any stuck, blocked task, also one paused from outside, some continuation with n outside resumes runs a further command if and only if n is not zero |
| TaskLoop.AfterPauseIffResumed | ExampleTask/operate.cpp:250-261 | in every state of the whole in which a PAUSE was the last command run, wherever the task is in its cycle, some continuation with n outside resumes runs a further command if and only if n is not zero |
| TaskLoop.PausedRunsResumeOnlyFromOutside | ExampleTask/operate.cpp:250-261 | so it is after every run from the start that consumed a PAUSE and had no outside resume |
| Deadline.Advance | rtapi/uspace_rtapi_app.cpp:853-870 | adds exactly the given nanoseconds and leaves tv_nsec in [0, 10^9), also when result and source are one object |
| Deadline.Less | rtapi/rtapi_uspace.h:26-30 | compares instants |
| Deadline.DriftFree | rtapi/uspace_rtapi_app.cpp:538-651 | after k waits the deadline is start + (k+1) periods plus the corrections in force at those waits, hence within one per cent |
| Deadline.LatenessLeavesNoTrace | rtapi/uspace_rtapi_app.cpp:651-664 | runs that differ only in clock readings end with the same deadline |
| Deadline.AppliedBounded | rtapi/uspace_rtapi_app.cpp:555-562 | the correction in force never exceeds one per cent of the period, whatever was requested |
| Deadline.RequestInForce | rtapi/uspace_rtapi_app.cpp:555-562 | a request inside the limit is in force as made, one outside at the limit it exceeds |
| Deadline.PeriodicTask.SetCorrection | rtapi/uspace_rtapi_app.cpp:555-562 | the stored correction is the request limited on both sides |
| Deadline.PeriodicTask.Wait | rtapi/uspace_rtapi_app.cpp:651-664 | advances nextstart in place by period and correction and reports lateness |
| ShmHandles.SettledIff | rtapi/uspace_common.c:122-139 | shmget is retried through transient refusals, at most five times, and the first id it gives is the one taken |
| ShmHandles.HandleTable.FindSlot | rtapi/uspace_common.c:96-113 | one walk finds the live slot of the key, or else the first free slot |
| ShmHandles.HandleTable.GetSegment | rtapi/uspace_common.c:122-139 | the retry loop returns the answer it settles for |
| ShmHandles.HandleTable.ShmemNew | rtapi/uspace_common.c:75-217 | new table and result of every branch under every system answer |
| ShmHandles.HandleTable.ShmemDelete | rtapi/uspace_common.c:289-357 | new table and result of every branch under every system answer |
| ShmHandles.HandleTable.ShmemGetptr | rtapi/uspace_common.c:238-264 | the address; in a well-formed table non-null exactly for live handles |
| ShmHandles.OpenGivesTheKey | rtapi/uspace_common.c:98-196 | a successful open returns a handle that holds the key: the one already open with one reference more, or a free slot with the id shmget gave and the address shmat gave |
| ShmHandles.OpenResults | rtapi/uspace_common.c:82-216 | when an open succeeds, which failure is which, and that a failed one changes no live slot |
| ShmHandles.DeleteResults | rtapi/uspace_common.c:289-357 | a delete drops one reference; with the last the slot is free and unmapped, and the answer tells whether the system calls succeeded |
| ShmHandles.HeldKeyKeepsItsHandle | rtapi/uspace_common.c:98-104 | while a handle is held every open of its key returns that handle |
| ShmHandles.NextKeepsOk | rtapi/uspace_common.c:75-357 | live slots stay mapped and ACTIVE with count at least one and distinct keys |
| ShmHandles.CountIsBalance | rtapi/uspace_common.c:98-357 | over any run with any failures a live count is opens minus deletes of its key |
| ShmHandles.AddressIsFixed | rtapi/uspace_common.c:238-264 | until its last delete a handle keeps key, segment and its one address |
| ShmKernel.NextKeepsInv | rtapi/uspace_common.c:119-357 | every step of every process keeps attach counts, handles and issued ids consistent, harmful refusals of shmat included |
| ShmKernel.RunKeepsInv | rtapi/uspace_common.c:119-357 | so does every run, without any condition |
| ShmKernel.RunKeepsOwned | rtapi/uspace_common.c:119-357 | a key that meets no harmful refusal keeps naming its only segment, whatever happens to other keys |
| ShmKernel.ReachableInv | rtapi/uspace_common.c:119-357 | both hold after every run from an empty kernel, the second for every key without a harmful refusal |
| ShmKernel.AttachCountIsProcesses | rtapi/uspace_common.c:162-328 | in every reachable state the attach count is the number of processes that map the segment |
| ShmKernel.MappedSegmentExists | rtapi/uspace_common.c:162-196 | in every reachable state a mapped handle names an existing segment of its key |
| ShmKernel.OneSegmentPerKey | rtapi/uspace_common.c:119-217 | live handles of any two processes on a key without a harmful refusal name one existing segment |
| ShmKernel.RemovedOnlyAtZero | rtapi/uspace_common.c:198-349 | in every run a segment goes away only when nobody maps it: in the count-and-remove step, in the rollback of a refused shmat, or with the last shmdt of a segment whose key was taken away before |
| ShmKernel.ReapRemovesIff | rtapi/uspace_common.c:330-349 | the check after the last shmdt of a process takes away segment and key exactly when no process maps it |
| ShmKernel.LastDeleteRemoves | rtapi/uspace_common.c:289-349 | the only process with one reference left removes the segment by its delete |
| ShmKernel.OpenDeleteCancel | rtapi/uspace_common.c:98-312 | a further open and a delete undo each other and leave the kernel alone |
| ShmKernel.OneOpenOneDelete | rtapi/uspace_common.c:119-328 | one open maps the segment once, one delete unmaps it again |
| ShmKernel.OpensAgree | rtapi/uspace_common.c:119-141 | two processes that open one key get one id: that of the segment there, or of a new and empty one |
| ShmKernel.TakesTheNextId | rtapi/uspace_common.c:428-433 | a module id is the counter of the segment plus one, and the counter becomes it |
| ShmKernel.ModuleIdsIncrease | rtapi/uspace_common.c:396-436 | while one reference to the counter's segment remains and its key meets no harmful refusal, module ids strictly increase over all processes |
| ShmKernel.RefusalHarmlessIff | rtapi/uspace_common.c:198-217 | after a refused shmat the key still names its only segment exactly when no process maps that segment |
| ShmKernel.RefusalSplitsTheKeyIff | rtapi/uspace_common.c:197-217 | after a refused shmat two handles on the key can come to map different segments if and only if some process mapped the segment then |
| Controller.TaskController.Step | ExampleTask/funct_control.c:31-108 | new pins and statics of one cycle; an enabled cycle never moves away from the target |
| Controller.StepTracks | ExampleTask/funct_control.c:46-66 | an enabled cycle lowers the distance by exactly min(step, distance) and never crosses the target |
| Controller.StepLimited | ExampleTask/funct_control.c:48-57 | the rate clamp bounds a step by two thousandths of the velocity, or one |
| Controller.StepSizeIs | ExampleTask/funct_control.c:48-57 | a step is the whole part of a thousandth of velocity times rate when that is at least one, else one |
| Controller.RatesOutside | ExampleTask/funct_control.c:48-49 | rates below 0 and above 2 count as 0 and 2 |
| Controller.CycleOutputs | ExampleTask/funct_control.c:68-105 | what a cycle writes to the running, error and heartbeat outputs and the statics |
| Controller.StaysInHull | ExampleTask/funct_control.c:46-75 | for any inputs the position stays between the extremes of its start and the enabled targets |
| Controller.DistanceLeft | ExampleTask/funct_control.c:46-75 | with a fixed target and continuous enable the distance left is exactly what the steps have not covered |
| Controller.Converges | ExampleTask/funct_control.c:46-75 | the target is reached within ceil(distance / smallest step) cycles and held |
| Controller.ErrorLatch | ExampleTask/funct_control.c:84-99 | while disabled the position holds and the error is latched exactly when mismatched targets since the last enable exceed ten |

## Left out

- Registry.Enabled: an add is a step only when an entry can be had, because with a full arena `hal/hal_lib.c:1536-1538` hands a null pointer to `list_init_entry`; memory is asked for in non-negative sizes, because a negative one gives bytes away twice (`Arena.ReusesIffNegative`); and `rtapi_init` is taken never to repeat an id, which `ShmKernel.ModuleIdsIncrease` proves only while a reference to the counter remains.
- Preservation.StepKeepsInv: says nothing about who owns a pin, because `free_comp_struct` does not free pins.
- Controller.Converges: integers are unbounded and the rate is a real number, so neither `int` overflow nor float rounding is modelled.
- Mailbox.MailboxRefines: head and tail are unbounded, so the wrap of a 32-bit counter is not modelled.
- Mailbox.EverySendCanComplete: shows a completing run; without a fair scheduler a spinning sender need not complete in every run.
- `list_init_entry` is only declared in the repository (hal/hal_priv.h:255); it is taken to make a self-ring.
- A fresh segment is taken to be zeroed, which is what `init_hal_data` relies on for the words it does not set; a second `init_hal_data` on a segment in use is not modelled.
- `hal_export_funct` and `hal_create_thread` release the mutex and then register their pins, parameters and pseudo component; those are further `Step`s of the same kinds, and other operations may come between.
- Task creation, start and deletion inside `hal_create_thread` and `free_thread_struct` are two success flags.
- Reads and writes of `state`, `lock` and `threads_running` outside the mutex are taken as part of the section they belong to.
- A change of the lists during a running pass of `thread_task`: the pass takes no lock and is one step here.
- `hal_thread_delete` (it calls `hal_exit` under the same mutex), `hal_export_functfv` (reads an unset length), and the write to `hal_data->state` after the segment was released in `hal_app_exit`, so no run reaches DESTROYED.
- Null names, calls before initialisation, and names cut by `rt_snprintf` (longer names are refused first).
- Per-function run time, thread statistics, `hal_get_stats`, `hal_set_constructor`, `hal_set_unready` (clears the flag without looking), old-name structs, diagnostics and messages.
- `ShmKernel` lets shmdt and the count query succeed; `ShmHandles` has their failures within one process.
- Size and content of segments other than the module id counter, process ids, errno fields, ownership changes, page touching.
- `rtapi_init` keeps a static pointer to the counter from its first call; a process that released the segment and mapped it again is not modelled.
- Thread attributes, affinity, the clock itself, `nanosleep`, cancellation, and deleting a task while it is paused.
- The message queue, printing, `taskmain.cpp` and `task.c` start-up, priorities, `RCS_TIMER`: wiring and input or output.
