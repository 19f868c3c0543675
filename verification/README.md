# Verification of the Bellagio core and of the OSAL

A Dafny model of the stateful parts of an OpenMAX IL 1.1.2 implementation: the Bellagio core (resource
manager, component queues, semaphores, component registry, component directory) and the operating system
layer below the codec components (events and guarded memory). `dafny verify dfyconfig.toml` checks it.

| file | models |
|---|---|
| `HolderList.dfy` | the linked lists of the resource manager, as heap nodes rewritten in place, and the victim search |
| `ResourcePolicy.dfy` | what each resource manager call does, on values; the invariant of all runs; RM_Deinit |
| `ResourceManager.dfy` | the manager over its tables of lists in memory; each call is proved to take its policy step |
| `ResourceAnswers.dfy` | what each call answers, sends and leaves alone |
| `ResourceRuns.dfy` | what holds over whole runs: preemption, bounds, waiting order, conservation |
| `ResourceBounds.dfy` | how many requests can be granted without a release |
| `ResourceWitnesses.dfy` | runs of the manager on which it does not do what is documented |
| `ResourceClients.dfy` | the manager together with the state changes of the components that call it |
| `ResourceStories.dfy` | runs of components and manager on which places are lost, kept or given twice |
| `ResourceRace.dfy` | RM_getResource called by several threads at once |
| `RingQueue.dfy` | the ring queue, on values against a bounded FIFO and in memory, with allocation and release |
| `RingProtocol.dfy` | one producer and one consumer on the ring, test and each write a separate step |
| `RingCrowd.dfy` | any number of producers and consumers on the ring, test and locked update a step each |
| `Semaphore.dfy` | the semaphore as interleaved steps of any number of threads, and its functions |
| `RegistryText.dfy` | the registry file as omxregister writes it |
| `RegistryScan.dfy` | the two scanners of that file, and the round trips |
| `RegistryReadback.dfy` | what numbers, quality strings and lines of the file say to a reader, and their order |
| `ComponentDirectory.dfy` | enumeration of names and the two role queries, within and across loaders |
| `OsalEvent.dfy` | the events, as calls of one thread and as interleaved steps of many |
| `OsalMemory.dfy` | the guarded allocator, byte by byte |
| `Sequences.dfy` | facts about sequences that several modules use |

Code that changes state in place is modelled in place: a class or method beside each state machine or
specification function, proved to compute it. Whatever the system decides (the answer of OMX_SendCommand,
which threads a signal wakes, which allocations fail, what the pipes hold when select returns, the libraries
a directory scan finds) is a parameter.

## Where the code does not do what it says

Each of these has an if-and-only-if, named first, and a concrete input.

- RM_Deinit "cleans up everything" but stops at the first type without holders
  (`ResourcePolicy.DeinitClearsAllIff`, `ResourceWitnesses.DeinitLeavesHolder`).
- With 64-bit unsigned longs a priority from 2^31 to 2^32 never preempts a 32-bit one
  (`ResourceRuns.WidePriorityDepartsIff`, `ResourceWitnesses.WidePriorityRefused`), and one from 2^32 on can
  preempt holders of its own priority for ever (`ResourceBounds.GrantsAlwaysBounded` and
  `ResourceBounds.UnfairGrantsUnbounded`, `ResourceWitnesses.WidePrioritiesTakeTurns`).
- A component that holds a type twice can lose the wrong entry (`ResourceRuns.GrantLowersSumIff`,
  `ResourceWitnesses.TwiceHeldMisleads`).
- RM_releaseResource forgets a waiting component that refuses the command to go to Idle
  (`ResourceRuns.ReleaseWakesFirstIff` and `ResourceRuns.WokenInOrder`, `ResourceWitnesses.RefusedWakeLosesWaiter`).
- RM_releaseResource is documented to hand the resource to the component it wakes.  It reserves nothing
  (`ResourceRuns.PlaceKeptForWokenIff`), and the component goes to Idle without asking, so that it never holds
  the resource (`ResourceClients.EngagedHoldsIff`, `ResourceStories.TwoOnOnePlace`).
- A component that needs its resource can be without it in other ways, and one that does not need it can keep
  it (`ResourceClients.EngagedHoldsIff` and `ResourceClients.AskerHoldsIff`): the place is released while the
  component is in Idle, where it stays if a buffer cannot be freed (`ResourceStories.RunsAfterRelease`); it is
  not released by going to Invalid or by destruction (`ResourceStories.InvalidKeepsPlace`), nor when the
  buffers for Idle cannot be had (`ResourceStories.FailedArrivalBlocksItself`).
- RM_getResource takes no mutex, so that two components can take the last place of a type
  (`ResourceRace.AlwaysWithinBoundIff`, `ResourceRace.OneInsideKeepsBound`).
- The queue tests outside its lock, which is right for one producer and one consumer
  (`RingProtocol.TestsStayTrue`) and not for more (`RingCrowd.AlwaysIntactIff`, `RingCrowd.BreaksWithTooMany`).
  A null element breaks it (`RingQueue.PutNeedsNonNull`,
  `RingQueue.NullIsLost`).
- tsem_timed_down takes a unit for every wait that times out (`Semaphore.TimedDownTakesOneIff`,
  `Semaphore.EarlierTimeoutTakesToo`), and at zero leaves sleeping threads behind a full counter
  (`Semaphore.TimeoutAtZeroLosesWakeupIff`, `Semaphore.TimeoutLosesWakeup`).
- A quality level of zero or less garbles the quality string (`RegistryText.QualityExact`,
  `RegistryText.ZeroGarblesQuality`); a component line without roles and quality string is listed with its
  newline (`RegistryScan.ComponentRoundTrip`, `RegistryScan.BareNameKeepsNewline`).
- OMX_GetRolesOfComponent forgets the caller's capacity after a first loader that does not know the name
  (`ComponentDirectory.RolesDeliveredIff`, `ComponentDirectory.SecondLoaderWritesNothing`).
- OSAL_EventWaitMultiple can report a combination of events that never was (`OsalEvent.WaitsAtomicIff`,
  `OsalEvent.SplitWait`).
- OSAL_Malloc asks for too little when the size with its guards wraps around
  (`OsalMemory.BlockLargeEnoughIff`, `OsalMemory.WrappedRequest`).

## Model

| member | source | states |
|---|---|---|
| `ResourceManager.Manager.AddTo` | project.omx/libomxil-bellagio-0.9.3/src/omx_reference_resource_manager.c:109-151 | the whole function: that list grows at its end by the component with the clock value, and the clock advances by one |
| `HolderList.ListSlot.RemoveElem` | project.omx/libomxil-bellagio-0.9.3/src/omx_reference_resource_manager.c:157-194 | exactly the first node of the component is unlinked, from the head or from inside, and freed; the three results tell an empty list, a removal and an absent component apart |
| `HolderList.ListSlot.NumElem` | project.omx/libomxil-bellagio-0.9.3/src/omx_reference_resource_manager.c:202-217 | the length of the list |
| `HolderList.ListSlot.Clear` | project.omx/libomxil-bellagio-0.9.3/src/omx_reference_resource_manager.c:223-240 | the list ends empty, and every node it ever had is freed, none twice |
| `HolderList.ListSlot.SearchLowerPriority` | project.omx/libomxil-bellagio-0.9.3/src/omx_reference_resource_manager.c:277-306 | on any well-formed list: the number of entries of strictly lower priority, and the oldest entry from the first of them on, whatever the priorities behind it; without a list a number that is not zero, with the caller's variable left as it was |
| `HolderList.OldestOfSuffixIsOldestLower` | project.omx/libomxil-bellagio-0.9.3/src/omx_reference_resource_manager.c:288-302 | if timestamps increase along the list, the entry the search keeps is the oldest of exactly the entries of lower priority, although priorities are not rechecked after the first hit |
| `HolderList.UnorderedSearchMisleads` | project.omx/libomxil-bellagio-0.9.3/src/omx_reference_resource_manager.c:292-300 | a list whose timestamps do not increase on which the search offers an entry of high priority |
| `ResourcePolicy.ThresholdExact` | project.omx/libomxil-bellagio-0.9.3/src/omx_reference_resource_manager.c:277 | passing the priority as an int and comparing it with an unsigned long is a comparison with the priority itself for exactly these values |
| `ResourcePolicy.StepKeepsInv` | project.omx/libomxil-bellagio-0.9.3/src/omx_reference_resource_manager.c:62-478 | every call keeps: strictly increasing timestamps in every list, unique names, indices equal to positions, and no more holders than the registered bound |
| `ResourcePolicy.LeadsToInv` | project.omx/libomxil-bellagio-0.9.3/src/omx_reference_resource_manager.c:42-478 | the invariant holds after every sequence of calls from RM_Init |
| `ResourcePolicy.EmptyFullIffBoundBelowOne` | project.omx/libomxil-bellagio-0.9.3/src/omx_reference_resource_manager.c:282-285 | a request searches a list that does not exist exactly when the type was registered with a bound below one |
| `ResourcePolicy.DeinitClearsAllIff` | project.omx/libomxil-bellagio-0.9.3/src/omx_reference_resource_manager.c:93-103 | RM_Deinit, which should clean up every list, does so if and only if no type from the first one without holders on has a list left |
| `ResourcePolicy.SomeTypeFreeIff` | project.omx/libomxil-bellagio-0.9.3/src/omx_reference_resource_manager.c:93-103 | its loop ends inside the tables if and only if fewer than 500 types are registered or one of them has no holders |
| `ResourceWitnesses.DeinitLeavesHolder` | project.omx/libomxil-bellagio-0.9.3/src/omx_reference_resource_manager.c:93-103 | a run of two registrations and one request after which RM_Deinit leaves a holder |
| `ResourceManager.Manager.constructor` | project.omx/libomxil-bellagio-0.9.3/src/omx_reference_resource_manager.c:36-57 | all lists empty, no type registered, and the clock as it was before |
| `ResourceManager.Manager.RegisterComponent` | project.omx/libomxil-bellagio-0.9.3/src/omx_reference_resource_manager.c:62-83 | the tables in memory take the registration step, for names that fit the table: a first registration is appended with the next index, a later one of the name changes nothing |
| `ResourceManager.Manager.Preempt` | project.omx/libomxil-bellagio-0.9.3/src/omx_reference_resource_manager.c:312-336 | an idle component is told that it lost its resources and commanded to Loaded, one in another state is told nothing; the failure of that command is the only error |
| `ResourceManager.Manager.FindVictim` | project.omx/libomxil-bellagio-0.9.3/src/omx_reference_resource_manager.c:367-370 | the search returns the oldest holder of strictly lower priority, or none exactly when there is none |
| `ResourceManager.Manager.GetResource` | project.omx/libomxil-bellagio-0.9.3/src/omx_reference_resource_manager.c:344-393 | the lists, the clock, the messages and the result are those of the policy step: a free place is given, else the oldest holder of lower priority is preempted and replaced, else the request is refused |
| `ResourceManager.Manager.ReleaseResource` | project.omx/libomxil-bellagio-0.9.3/src/omx_reference_resource_manager.c:399-443 | the holder is removed and the first waiting component, if any, is taken off its queue and commanded to Idle; not holding is an error that changes nothing |
| `ResourceManager.Manager.WaitForResource` | project.omx/libomxil-bellagio-0.9.3/src/omx_reference_resource_manager.c:451-478 | the component goes to the end of the waiting list of its type |
| `ResourceManager.Manager.Call` | project.omx/libomxil-bellagio-0.9.3/src/omx_reference_resource_manager.c:62-478 | after any sequence of calls the lists in memory are the state that the same sequence of policy steps leads to |
| `ResourceManager.Manager.Deinit` | project.omx/libomxil-bellagio-0.9.3/src/omx_reference_resource_manager.c:93-103 | the lists up to the first type without holders are cleared, and no other |
| `ResourceRuns.SearchExactOverRuns` | project.omx/libomxil-bellagio-0.9.3/src/omx_reference_resource_manager.c:277-306 | in every reachable state the entry the search offers is the oldest of exactly the holders of lower priority |
| `ResourceAnswers.RefusedExactly` | project.omx/libomxil-bellagio-0.9.3/src/omx_reference_resource_manager.c:344-393 | a request is refused if and only if the name of the component is registered, that type is full, and no holder has a larger number than the one compared with or the command to the victim fails; a refusal changes no list |
| `ResourceAnswers.UnregisteredUntouched` | project.omx/libomxil-bellagio-0.9.3/src/omx_reference_resource_manager.c:362-366 | a request, release or wait for a name that was never registered succeeds and changes no list, clock or message |
| `ResourceAnswers.OtherAnswersExact` | project.omx/libomxil-bellagio-0.9.3/src/omx_reference_resource_manager.c:62-478 | a release fails if and only if the type is registered and the component does not hold it, and then changes nothing; a wait never fails; a registration never does either, appends a new name with its bound and ignores a known one |
| `ResourceAnswers.RequestMessages` | project.omx/libomxil-bellagio-0.9.3/src/omx_reference_resource_manager.c:312-387 | a request on a full type with a holder of lower priority sends, if the oldest such holder is in Idle, exactly the event that it lost its resource and the command to Loaded, and is granted if and only if that command is accepted; every other request sends nothing |
| `ResourceAnswers.OtherMessages` | project.omx/libomxil-bellagio-0.9.3/src/omx_reference_resource_manager.c:427-442 | a release sends the command to Idle to the first component waiting, if it succeeds and there is one, and no other call but a request sends anything |
| `ResourceAnswers.PreemptedAreTold` | project.omx/libomxil-bellagio-0.9.3/src/omx_reference_resource_manager.c:312-387 | over every run the messages other than those commands to Idle are, in order, the event and the command to Loaded for each component found in Idle and preempted |
| `ResourceAnswers.StepFrame` | project.omx/libomxil-bellagio-0.9.3/src/omx_reference_resource_manager.c:62-478 | a call changes only the lists of its own type, a request no waiting list, a wait no list of holders, and the clock advances by one for each entry added |
| `ResourceRuns.WidePriorityDepartsIff` | project.omx/libomxil-bellagio-0.9.3/src/omx_reference_resource_manager.c:277-289 | with 64-bit unsigned longs a priority from 2^31 to 2^32 is refused on every full type with a bound of at least one; the answer differs from that of a comparison with the priority itself if and only if some holder has a larger number and the command would not have failed |
| `ResourceWitnesses.WidePriorityRefused` | project.omx/libomxil-bellagio-0.9.3/src/omx_reference_resource_manager.c:277-289 | a run after which such a request is refused with 64-bit unsigned longs and granted with 32-bit ones |
| `ResourceRuns.RegistrationsOnlyGrow` | project.omx/libomxil-bellagio-0.9.3/src/omx_reference_resource_manager.c:62-83 | over any run registrations are only added |
| `ResourceRuns.HoldersWithinFirstBound` | project.omx/libomxil-bellagio-0.9.3/src/omx_reference_resource_manager.c:62-83 | over every run a type has at most as many holders as its first registration said, whatever later registrations of the name say |
| `ResourceRuns.GrantLowersSumIff` | project.omx/libomxil-bellagio-0.9.3/src/omx_reference_resource_manager.c:371-377 | a granted request on a full type removes the first entry of the victim's component; the sum of the stored numbers goes down if and only if that entry has strictly lower priority than the request |
| `ResourceRuns.GrantOnFullType` | project.omx/libomxil-bellagio-0.9.3/src/omx_reference_resource_manager.c:367-387 | if no component holds a type twice, one holder of strictly lower priority is replaced by the requester, the sum goes down and no other type changes |
| `ResourceWitnesses.TwiceHeldMisleads` | project.omx/libomxil-bellagio-0.9.3/src/omx_reference_resource_manager.c:376-377 | a run in which one component holds a type twice, the removal takes the wrong entry and the sum rises |
| `ResourceRuns.SingleHoldersKept` | project.omx/libomxil-bellagio-0.9.3/src/omx_reference_resource_manager.c:344-443 | no component comes to hold a type twice while those that ask are not holders |
| `ResourceRuns.GrantsBounded` | project.omx/libomxil-bellagio-0.9.3/src/omx_reference_resource_manager.c:344-393 | if no component asks for a type it holds, a run without releases of the type grants at most free places times 2^32 plus the sum of the numbers |
| `ResourceBounds.GrantsAlwaysBounded` | project.omx/libomxil-bellagio-0.9.3/src/omx_reference_resource_manager.c:344-393 | whoever asks and however often, a run without releases of a type grants only boundedly many requests for it, as long as no priority is compared as a smaller one |
| `ResourceBounds.GrantLowersBound` | project.omx/libomxil-bellagio-0.9.3/src/omx_reference_resource_manager.c:344-393 | each request granted lowers that bound, also when the displaced component holds twice |
| `ResourceBounds.UnfairDisplacementIff` | project.omx/libomxil-bellagio-0.9.3/src/omx_reference_resource_manager.c:277-302 | a request granted on a full type displaces a holder of equal or higher priority if and only if the first entry above the number compared with has a number not above the caller's own, which needs a priority that is compared as a smaller one |
| `ResourceBounds.UnfairGrantsUnbounded` | project.omx/libomxil-bellagio-0.9.3/src/omx_reference_resource_manager.c:277-289 | two components with a priority that is compared as a smaller one take one place from each other any number of times |
| `ResourceWitnesses.WidePrioritiesTakeTurns` | project.omx/libomxil-bellagio-0.9.3/src/omx_reference_resource_manager.c:277-289 | two components of priority 2^32 do so on the first type of a new manager |
| `ResourceRuns.QueueStep` | project.omx/libomxil-bellagio-0.9.3/src/omx_reference_resource_manager.c:399-478 | one call of any kind takes components off the queue only from its front and adds only behind, without loss, repetition or overtaking |
| `ResourceRuns.WaitingIsFifo` | project.omx/libomxil-bellagio-0.9.3/src/omx_reference_resource_manager.c:399-478 | the same over every run: those taken off and those in the queue are, in order, those that came |
| `ResourceRuns.WokenInOrder` | project.omx/libomxil-bellagio-0.9.3/src/omx_reference_resource_manager.c:427-478 | from RM_Init on, those that called RM_waitForResource are in order those taken off and those in the queue; each one taken off was woken or, because it refused the command, dropped; none was dropped if and only if every command was accepted |
| `ResourceRuns.ReleaseWakesFirstIff` | project.omx/libomxil-bellagio-0.9.3/src/omx_reference_resource_manager.c:399-443 | a successful release frees one place and takes exactly the first waiting component off the queue, which is woken if and only if it accepts the command |
| `ResourceWitnesses.RefusedWakeLosesWaiter` | project.omx/libomxil-bellagio-0.9.3/src/omx_reference_resource_manager.c:432-438 | a run after which a release succeeds and the first waiting component is neither waiting nor woken nor a holder |
| `ResourceRuns.PlaceKeptForWokenIff` | project.omx/libomxil-bellagio-0.9.3/src/omx_reference_resource_manager.c:427-442 | on a type that was full, after a release and further calls without a release, a request of the woken component gets a free place if and only if no call in between asked for the type |
| `ResourceClients.MoveKeepsInv` | project.omx/libomxil-bellagio-0.9.3/src/base/omx_base_component.c:371-707 | every step of a state change (asking, arriving or failing to, queueing, waking, releasing, settling or failing to free a buffer, running, going to Invalid) keeps: the manager lists each component as often as it has a place of its own or has kept one |
| `ResourceClients.EngagedHoldsIff` | project.omx/libomxil-bellagio-0.9.3/src/base/omx_base_component.c:371-707 | in every run of such steps a component that needs its resource holds it if and only if it was not woken from the queue, not displaced and not left in Idle after its release, or has kept a place from before; one that does not need it holds it if and only if its arrival failed with the place or it went to Invalid with it |
| `ResourceClients.AskerHoldsIff` | project.omx/libomxil-bellagio-0.9.3/src/base/omx_base_component.c:380-385 | a component that asks holds its type already if and only if it has kept a place |
| `ResourceStories.TwoOnOnePlace` | project.omx/libomxil-bellagio-0.9.3/src/base/omx_base_component.c:489-495 | a run after which a woken component and a later requester are both in Idle on a type with one place |
| `ResourceStories.RunsAfterRelease` | project.omx/libomxil-bellagio-0.9.3/src/base/omx_base_component.c:386-421 | a run after which a component is in Executing without a place, which it released before a buffer could not be freed, and another one holds the place |
| `ResourceStories.InvalidKeepsPlace` | project.omx/libomxil-bellagio-0.9.3/src/base/omx_base_component.c:682-688 | a component that is in Invalid holds the one place, and another one is refused |
| `ResourceStories.FailedArrivalBlocksItself` | project.omx/libomxil-bellagio-0.9.3/src/base/omx_base_component.c:380-508 | a component whose buffers could not be allocated holds the one place in Loaded, and is itself refused |
| `ResourceRace.OneInsideKeepsBound` | project.omx/libomxil-bellagio-0.9.3/src/omx_reference_resource_manager.c:344-443 | every interleaving of counts, searches, removals, additions and releases in which one thread at a time is in RM_getResource keeps the holders within the bound |
| `ResourceRace.AlwaysWithinBoundIff` | project.omx/libomxil-bellagio-0.9.3/src/omx_reference_resource_manager.c:344-443 | without such exclusion, which the code does not provide, every interleaving does so if and only if there is at most one thread |
| `ResourceRace.PlacesConserved` | project.omx/libomxil-bellagio-0.9.3/src/omx_reference_resource_manager.c:344-443 | in every interleaving each thread holds as many places as it was added, less those it released or was preempted from |
| `ResourceClients.DisplacedIsTold` | project.omx/libomxil-bellagio-0.9.3/src/omx_reference_resource_manager.c:312-324 | a component displaced while it is in Idle is told and commanded to Loaded, one displaced in another state is not told |
| `ResourceRuns.SlotsConserved` | project.omx/libomxil-bellagio-0.9.3/src/omx_reference_resource_manager.c:344-443 | over every run, counted with multiplicities: whoever was granted a type still holds it, released it or was preempted |
| `RingQueue.TestsExact` | project.omx/libomxil-bellagio-0.9.3/src/queue.c:103-126 | the two tests tell exactly a full and an empty FIFO |
| `RingQueue.PutNeedsNonNull` | project.omx/libomxil-bellagio-0.9.3/src/queue.c:103-113 | writing keeps the ring a FIFO if and only if the data pointer is not null |
| `RingQueue.NullIsLost` | project.omx/libomxil-bellagio-0.9.3/src/queue.c:103-126 | a null element put into an empty ring counts, and the ring looks empty |
| `RingQueue.TakeRemoves` | project.omx/libomxil-bellagio-0.9.3/src/queue.c:127-134 | taking yields the oldest element and leaves the ring of the rest |
| `RingQueue.CallRefines` | project.omx/libomxil-bellagio-0.9.3/src/queue.c:103-135 | one call on the ring and on a bounded FIFO gives the same result and keeps them equal: the occupied nodes run from first onward, and last is that many steps further |
| `RingQueue.RingRefinesFifo` | project.omx/libomxil-bellagio-0.9.3/src/queue.c:103-135 | any history of calls with data that is not null returns what a bounded FIFO returns |
| `RingQueue.HistoryExact` | project.omx/libomxil-bellagio-0.9.3/src/queue.c:103-135 | for any such history what the ring held and what queue() accepted is, in order, what dequeue() returned and what is left; queue() fails exactly when all nodes are occupied, dequeue() returns null exactly when none is |
| `RingQueue.WritesKeepFifoIff` | project.omx/libomxil-bellagio-0.9.3/src/queue.c:103-113 | after any number of producers have passed the test before the lock, their writes keep the ring a FIFO if and only if there were free nodes for all of them |
| `RingQueue.TwoProducersLoseAnElement` | project.omx/libomxil-bellagio-0.9.3/src/queue.c:103-113 | two producers at one free node: the oldest element is overwritten |
| `RingQueue.ReadsKeepFifoIff` | project.omx/libomxil-bellagio-0.9.3/src/queue.c:122-135 | after any number of consumers have passed the test, their reads keep the ring a FIFO if and only if there were elements for all of them |
| `RingQueue.TwoConsumersReadNull` | project.omx/libomxil-bellagio-0.9.3/src/queue.c:122-135 | two consumers at one element: the second is handed null and the count is below zero |
| `RingQueue.Queue.Enqueue` | project.omx/libomxil-bellagio-0.9.3/src/queue.c:103-113 | on the ring in memory: -1 exactly when all nodes are occupied, else the data is appended |
| `RingQueue.Queue.DequeueOne` | project.omx/libomxil-bellagio-0.9.3/src/queue.c:122-135 | null exactly when the FIFO is empty, else the oldest element, which is removed |
| `RingQueue.Queue.GetNelem` | project.omx/libomxil-bellagio-0.9.3/src/queue.c:143-149 | the number of elements |
| `RingQueue.Queue.Init` | project.omx/libomxil-bellagio-0.9.3/src/queue.c:38-70 | with memory for all nodes an empty closed ring, otherwise -1 with exactly the nodes allocated so far given back |
| `RingQueue.Queue.Deinit` | project.omx/libomxil-bellagio-0.9.3/src/queue.c:77-93 | from any rotation every node of the ring is freed once and nothing else |
| `RingProtocol.StepKeepsInv` | project.omx/libomxil-bellagio-0.9.3/src/queue.c:103-135 | every single test, lock, write and unlock of one producer and one consumer keeps the invariant that places each undelivered element in its node |
| `RingProtocol.RunKeepsInv` | project.omx/libomxil-bellagio-0.9.3/src/queue.c:103-135 | the same over every interleaving |
| `RingProtocol.TestsStayTrue` | project.omx/libomxil-bellagio-0.9.3/src/queue.c:104-108 | the slot found free before the lock is free when it is written, and the slot found full is still full, with the oldest element, when it is read |
| `RingProtocol.DeliveredInOrder` | project.omx/libomxil-bellagio-0.9.3/src/queue.c:103-135 | in every interleaving what dequeue() has returned is a prefix of the data passed to queue() by the calls that found room |
| `RingProtocol.FailuresExact` | project.omx/libomxil-bellagio-0.9.3/src/queue.c:104-126 | queue() refuses its data exactly when as many elements as nodes are in the ring, and otherwise goes on with it; dequeue() returns null at once exactly when all written elements are delivered |
| `RingProtocol.QuietRingHoldsRest` | project.omx/libomxil-bellagio-0.9.3/src/queue.c:103-149 | whenever both threads are outside, the ring is the FIFO of what was written and not delivered, and nelem is its length |
| `RingProtocol.MutexIsGivenBack` | project.omx/libomxil-bellagio-0.9.3/src/queue.c:107-132 | the thread with the mutex can always go on and gives it back within five of its steps, whatever the other does |
| `RingCrowd.AlwaysIntactIff` | project.omx/libomxil-bellagio-0.9.3/src/queue.c:103-135 | with any number of nodes, producers and consumers: every run keeps the ring a FIFO if and only if there is at most one producer, and at most one consumer unless there is no producer |
| `RingCrowd.BreaksWithTooMany` | project.omx/libomxil-bellagio-0.9.3/src/queue.c:103-135 | with more, there is a run of tests and locked updates that breaks it |
| `RingCrowd.FewDeliverInOrder` | project.omx/libomxil-bellagio-0.9.3/src/queue.c:103-135 | with few enough threads, in every run what dequeue() returned, what the ring holds and what is about to be written is, in order, what queue() accepted |
| `Semaphore.StepKeepsInv` | project.omx/libomxil-bellagio-0.9.3/src/tsemaphore.c:69-145 | every step of downs, timed downs, ups, resets, signals and spurious wake-ups keeps the invariant |
| `Semaphore.RunKeepsInv` | project.omx/libomxil-bellagio-0.9.3/src/tsemaphore.c:69-145 | the same over every interleaving |
| `Semaphore.NoLostWakeup` | project.omx/libomxil-bellagio-0.9.3/src/tsemaphore.c:69-115 | while a thread sleeps in a down, and no wait has timed out at zero, semval is at most the number of woken threads that have yet to test it |
| `Semaphore.TimeoutAtZeroLosesWakeupIff` | project.omx/libomxil-bellagio-0.9.3/src/tsemaphore.c:81-87 | a wait that times out at zero breaks this if and only if a thread sleeps and fewer than 2^32 - 1 are on their way |
| `Semaphore.TimeoutLosesWakeup` | project.omx/libomxil-bellagio-0.9.3/src/tsemaphore.c:81-87 | a run of two threads after which one sleeps at a counter of 2^32 - 2 |
| `Semaphore.UnitsConserved` | project.omx/libomxil-bellagio-0.9.3/src/tsemaphore.c:69-125 | over every run semval is the initial value plus one for each tsem_up, minus one for each down that has returned, one for each wait that timed out and what each tsem_reset found, plus 2^32 for each decrement at zero; the downs called and not returned are the threads asleep or about to test |
| `Semaphore.AsManyAsIdeal` | project.omx/libomxil-bellagio-0.9.3/src/tsemaphore.c:69-115 | when no woken thread is left to test and no wait has timed out at zero, as many downs have returned as the calls of tsem_up and the initial value allow, less what timeouts and resets took, or all that were called |
| `Semaphore.WokenThreadsSettle` | project.omx/libomxil-bellagio-0.9.3/src/tsemaphore.c:99-102 | the woken threads, in any order, take the units there are, and the others sleep again |
| `Semaphore.TSem.Down` | project.omx/libomxil-bellagio-0.9.3/src/tsemaphore.c:80-104 | the first critical section of tsem_down and tsem_timed_down: above zero the counter goes down by one and the call returns, at zero the thread sleeps |
| `Semaphore.TSem.Retry` | project.omx/libomxil-bellagio-0.9.3/src/tsemaphore.c:99-104 | the part of tsem_down after a return from the wait: the same test, by a thread that is no longer woken |
| `Semaphore.TSem.TimedRetry` | project.omx/libomxil-bellagio-0.9.3/src/tsemaphore.c:81-89 | that of tsem_timed_down: a wait that timed out takes one first, which at zero leaves 2^32 - 1, and then the same test |
| `Semaphore.TSem.Up` | project.omx/libomxil-bellagio-0.9.3/src/tsemaphore.c:110-115 | tsem_up adds one to the counter and wakes sleeping threads |
| `Semaphore.TSem.Signal` | project.omx/libomxil-bellagio-0.9.3/src/tsemaphore.c:141-145 | tsem_signal wakes sleeping threads and leaves the counter |
| `Semaphore.TSem.Reset` | project.omx/libomxil-bellagio-0.9.3/src/tsemaphore.c:121-125 | tsem_reset sets the counter to zero and wakes nobody |
| `Semaphore.TimedDownTakesOneIff` | project.omx/libomxil-bellagio-0.9.3/src/tsemaphore.c:80-89 | over the whole call tsem_timed_down takes one unit and one more for each of its waits that timed out, so one unit if and only if none did |
| `Semaphore.EarlierTimeoutTakesToo` | project.omx/libomxil-bellagio-0.9.3/src/tsemaphore.c:81-87 | two units, although the last wait was woken and the call reports success |
| `Semaphore.TimeoutAtZeroOverflows` | project.omx/libomxil-bellagio-0.9.3/src/tsemaphore.c:81-87 | a timeout at zero leaves the counter at 2^32 - 2 |
| `RegistryText.Int2StrLen` | project.omx/libomxil-bellagio-0.9.3/src/omxregister.c:56-64 | the number of digits of a positive value, 0 for zero and -1 below |
| `RegistryText.DigitCountExact` | project.omx/libomxil-bellagio-0.9.3/src/omxregister.c:56-64 | that is the length of what printf writes if and only if the value is positive |
| `RegistryText.QualityExact` | project.omx/libomxil-bellagio-0.9.3/src/omxregister.c:295-309 | the string built at the running index is the count and the pairs separated by single spaces, without a trailing one, if and only if all values are positive |
| `RegistryText.ZeroGarblesQuality` | project.omx/libomxil-bellagio-0.9.3/src/omxregister.c:295-309 | for one level with CPU 0 and memory 5 the string built is "1 0," and not "1 0,5" |
| `RegistryText.BuildQuality` | project.omx/libomxil-bellagio-0.9.3/src/omxregister.c:295-309 | the cursor loop on the buffer builds that string for every list of levels |
| `RegistryText.PrintComponentLine` | project.omx/libomxil-bellagio-0.9.3/src/omxregister.c:311-330 | the copies and concatenations give the arrow, the name, the roles each with a colon, and the quality string |
| `RegistryText.IsRegistered` | project.omx/libomxil-bellagio-0.9.3/src/omxregister.c:260-272 | whether the name has been written before |
| `RegistryText.WriteComponents` | project.omx/libomxil-bellagio-0.9.3/src/omxregister.c:259-336 | the lines of the components of one library whose names are new, in order |
| `RegistryText.WriteRegistry` | project.omx/libomxil-bellagio-0.9.3/src/omxregister.c:219-362 | the file is each library path followed by its new components |
| `RegistryText.RegisteredOnce` | project.omx/libomxil-bellagio-0.9.3/src/omxregister.c:259-283 | every component name is registered once, by the first component that has it in any library |
| `RegistryReadback.RegistryInOrder` | project.omx/libomxil-bellagio-0.9.3/src/omxregister.c:219-362 | the components of the file are those found, in the order of the libraries and within each, with some left out |
| `RegistryReadback.UnderItsLibrary` | project.omx/libomxil-bellagio-0.9.3/src/omxregister.c:219-362 | every component line stands under the path of a library that has the component |
| `RegistryReadback.DecimalReadsBack` | project.omx/libomxil-bellagio-0.9.3/src/omxregister.c:295-309 | the digits printed for a number read back as that number, without a leading zero |
| `RegistryReadback.QualityReadsBack` | project.omx/libomxil-bellagio-0.9.3/src/omxregister.c:295-309 | the quality string, as it is when all values are positive, reads back as the number of levels and then each level, CPU before memory |
| `RegistryReadback.QualityIsLast` | project.omx/libomxil-bellagio-0.9.3/src/omxregister.c:311-330 | the quality string is what stands behind the last arrow of its line, and the rest is the line without it |
| `RegistryReadback.SampleLine` | project.omx/libomxil-bellagio-0.9.3/src/omxregister.c:311-330 | one line, character by character |
| `RegistryScan.ReadLine` | project.omx/libomxil-bellagio-0.9.3/src/st_static_component_loader.c:107-115 | one line without its end, or MAX_LINE_LENGTH if it is too long or the file ends first |
| `RegistryScan.ReadLibraries` | project.omx/libomxil-bellagio-0.9.3/src/st_static_component_loader.c:106-150 | the reading loop ends on every file whose library names fit the name buffer, and visits the lines that do not look like component lines, up to the first that is empty, too long or unterminated |
| `RegistryScan.VisitsEndedLines` | project.omx/libomxil-bellagio-0.9.3/src/st_static_component_loader.c:106-150 | on any text it visits the lines that are ended by a newline or a null, and not a last one without an end |
| `RegistryScan.VisitsLines` | project.omx/libomxil-bellagio-0.9.3/src/st_static_component_loader.c:106-150 | on a file written line by line, it visits those lines |
| `RegistryScan.LibrariesRoundTrip` | project.omx/libomxil-bellagio-0.9.3/src/st_static_component_loader.c:98-150 | the loader stays within its buffers and visits exactly the written library paths, in order, if and only if no line before the last path is empty or too long and every path is shorter than 256 and does not look like a component line |
| `RegistryScan.CutRules` | project.omx/libomxil-bellagio-0.9.3/src/omxregister.c:126-138 | the loop over the rules cuts at each colon that is not the first character |
| `RegistryScan.ScanLine` | project.omx/libomxil-bellagio-0.9.3/src/omxregister.c:105-139 | the name and the roles scanned from a line |
| `RegistryScan.TokensOfRoles` | project.omx/libomxil-bellagio-0.9.3/src/omxregister.c:126-138 | cutting what the writer wrote recovers the roles if and only if none is empty |
| `RegistryScan.ComponentRoundTrip` | project.omx/libomxil-bellagio-0.9.3/src/omxregister.c:99-139 | scanning a printed component line recovers exactly the name and the roles in order if and only if no role is empty and there are roles or a quality string |
| `RegistryScan.BareNameKeepsNewline` | project.omx/libomxil-bellagio-0.9.3/src/omxregister.c:105-112 | a component with neither is listed with the newline in its name |
| `RegistryScan.ShowComponents` | project.omx/libomxil-bellagio-0.9.3/src/omxregister.c:88-141 | on every file whose lines fit the line buffer, the listing loop ends and scans each terminated line that does not begin with a slash |
| `RegistryScan.ListingRoundTrip` | project.omx/libomxil-bellagio-0.9.3/src/omxregister.c:88-141 | the listing of a written registry whose lines fit the line buffer, with or without an unended line behind it, is its components with their roles if and only if each of them can be recovered |
| `ComponentDirectory.LoaderNameEnum` | project.omx/libomxil-bellagio-0.9.3/src/st_static_component_loader.c:342-384 | index by index the names of the loader, cut to the length of the buffer, then no more |
| `ComponentDirectory.NamesInPlace` | project.omx/libomxil-bellagio-0.9.3/src/st_static_component_loader.c:342-384 | these are, each at its index, the general name of every template followed by its specific names in order |
| `ComponentDirectory.ComponentNameEnum` | project.omx/libomxil-bellagio-0.9.3/src/omxcore.c:216-248 | the same over all loaders, with one index |
| `ComponentDirectory.CoreNamesInPlace` | project.omx/libomxil-bellagio-0.9.3/src/omxcore.c:216-248 | each name of each loader at its index |
| `ComponentDirectory.LoaderGetRoles` | project.omx/libomxil-bellagio-0.9.3/src/st_static_component_loader.c:392-449 | whether the name is known, the number of its roles, and the roles in the array as far as the capacity, cut to an unsigned int, reaches; the rest of the array untouched |
| `ComponentDirectory.RolesOfExact` | project.omx/libomxil-bellagio-0.9.3/src/st_static_component_loader.c:392-449 | the name is not found if and only if no template has it; otherwise the first template that has it answers, with all its roles in order for its general name and with the role of the last entry of that name for a specific one |
| `ComponentDirectory.GetRolesOfComponent` | project.omx/libomxil-bellagio-0.9.3/src/omxcore.c:326-346 | the answer of the first loader that knows the name, and how many roles reach the caller |
| `ComponentDirectory.CoreRolesExact` | project.omx/libomxil-bellagio-0.9.3/src/omxcore.c:326-346 | the same over the templates of all loaders |
| `ComponentDirectory.RolesDeliveredIff` | project.omx/libomxil-bellagio-0.9.3/src/omxcore.c:334-343 | the caller gets the first min(capacity, number) roles if and only if there is nothing to write, or the first loader knows the name and what an unsigned int keeps of the capacity suffices |
| `ComponentDirectory.SecondLoaderWritesNothing` | project.omx/libomxil-bellagio-0.9.3/src/omxcore.c:334-343 | two loaders, of which the second knows the name: its role is not written |
| `ComponentDirectory.LoaderGetComponents` | project.omx/libomxil-bellagio-0.9.3/src/st_static_component_loader.c:457-489 | the number of all matches within a loader, and the names of those below the capacity, cut to an int; the rest of the array untouched |
| `ComponentDirectory.GetComponentsOfRole` | project.omx/libomxil-bellagio-0.9.3/src/omxcore.c:358-411 | the number of all matches over all loaders, and in the caller's array, unchanged, as many of their names as it has room for, the rest untouched; names fit the buffer they are passed on in |
| `ComponentDirectory.CountThenFetch` | project.omx/libomxil-bellagio-0.9.3/src/omxcore.c:358-411 | a count call followed by a call with that capacity returns exactly every match, when the names fit that buffer |
| `ComponentDirectory.InverseIff` | project.omx/libomxil-bellagio-0.9.3/src/st_static_component_loader.c:392-489 | within a loader, for a name first met as a general name, the role query and the component query are inverse, with multiplicities, if and only if no later template of that name has specific entries |
| `ComponentDirectory.InverseWhenDistinct` | project.omx/libomxil-bellagio-0.9.3/src/st_static_component_loader.c:392-489 | within a loader they are inverse for every general name when names are distinct |
| `ComponentDirectory.CoreInverseIff` | project.omx/libomxil-bellagio-0.9.3/src/omxcore.c:326-411 | the same equivalence for the two queries of the core over several loaders |
| `ComponentDirectory.CoreInverseWhenDistinct` | project.omx/libomxil-bellagio-0.9.3/src/omxcore.c:326-411 | over several loaders with distinct names the queries of the core are inverse for every general name |
| `OsalEvent.ThreadEvent.constructor` | project.omx/openmax_il/source/OSAL.c:853-890 | a new event is not set and its pipe is empty |
| `OsalEvent.EventSet` | project.omx/openmax_il/source/OSAL.c:965-997 | the event is set and its pipe holds one byte; a null handle is an error |
| `OsalEvent.EventReset` | project.omx/openmax_il/source/OSAL.c:927-960 | the event is not set and its pipe is empty; the read finds a byte |
| `OsalEvent.EventWaitMultiple` | project.omx/openmax_il/source/OSAL.c:1012-1087 | event i is reported exactly when the last pass of select finds data in its pipe; the timeout flag is raised exactly when none is, and otherwise left; a null handle is an error without effect |
| `OsalEvent.EventWait` | project.omx/openmax_il/source/OSAL.c:1002-1007 | a wait for one event times out exactly when its pipe is empty |
| `OsalEvent.StepKeepsInv` | project.omx/openmax_il/source/OSAL.c:927-997 | every step of concurrent sets, resets and waits on any number of events keeps the invariant |
| `OsalEvent.PipeMatchesFlag` | project.omx/openmax_il/source/OSAL.c:927-997 | in every reachable state an event whose mutex is free has one byte in its pipe if its flag is set and none otherwise |
| `OsalEvent.MutexIsGivenBack` | project.omx/openmax_il/source/OSAL.c:942-956 | a thread that holds a mutex can always go on, so a reset never blocks on an empty pipe, and at most three of its own steps give the mutex back |
| `OsalEvent.OneInside` | project.omx/openmax_il/source/OSAL.c:927-997 | no two threads are in the critical section of one event |
| `OsalEvent.UndisturbedCall` | project.omx/openmax_il/source/OSAL.c:927-997 | run undisturbed on an event whose mutex is free, the steps of a set or reset are always possible and do to that event what the call of one thread does, and nothing to others |
| `OsalEvent.CallsTakeEffectAtomically` | project.omx/openmax_il/source/OSAL.c:927-1087 | every interleaving is equivalent to a log in which each call takes effect at once and in the order in which its thread made them, every wait reports each event as it was at a moment between its call and its return and consumes nothing, and a wait without limit reports at least one |
| `OsalEvent.WaitsAtomicIff` | project.omx/openmax_il/source/OSAL.c:1012-1087 | in every run every wait on given handles reports all of them as they were at one moment, if and only if there is one thread or the handles are all the same event, as in OSAL_EventWait |
| `OsalEvent.SplitWait` | project.omx/openmax_il/source/OSAL.c:1012-1087 | the schedule in which a wait reports the event that was set second and not the one set first |
| `OsalEvent.WaitCanReturn` | project.omx/openmax_il/source/OSAL.c:1012-1087 | while the pipe of one of its events has data, a wait can go on by itself and return with an event reported, whatever it has seen before, and changes nothing else |
| `OsalMemory.DecodeEncode` | project.omx/openmax_il/source/OSAL.c:125-126 | a word copied to memory and read back is the same word |
| `OsalMemory.EncodeDecode` | project.omx/openmax_il/source/OSAL.c:125-140 | the bytes of a word determine it and are determined by it |
| `OsalMemory.EmptyBlock` | project.omx/openmax_il/source/OSAL.c:112-130 | the block for no bytes on a 32-bit target, byte by byte |
| `OsalMemory.BlockLargeEnoughIff` | project.omx/openmax_il/source/OSAL.c:116-117 | the block asked for has room for the size and both guards if and only if their sum is representable |
| `OsalMemory.WrappedRequest` | project.omx/openmax_il/source/OSAL.c:116-117 | for 2^32 - 4 bytes on a 32-bit target four bytes are asked for |
| `OsalMemory.Malloc` | project.omx/openmax_il/source/OSAL.c:112-130 | a fresh block with the size in front and the sentinel behind the caller's bytes, or null exactly when there is no memory |
| `OsalMemory.Free` | project.omx/openmax_il/source/OSAL.c:135-149 | the size from the header, and whether the word behind that many bytes is the sentinel |
| `OsalMemory.FreeVerdictExact` | project.omx/openmax_il/source/OSAL.c:139-145 | whatever is written behind the header, the size is recovered, and the check passes if and only if the last word is as it was |
| `OsalMemory.FreeAfterWrites` | project.omx/openmax_il/source/OSAL.c:112-149 | after any writes confined to the bytes asked for, the size is recovered and the check passes |

## Left out

- RM_removeFromWaitForResource: as written it indexes the holder lists with -1, so there is no waiting-list behaviour to model.
- Preemption of executing or paused components: an unfinished branch in the source; the victim is replaced without a message, as the code does.
- Commands and events are recorded as messages; components that call the manager back from an event handler are not modelled.
- ResourceManager.Manager.Call: each call is one step, as if the manager had a mutex; `ResourceRace` shows that the bound of a type needs that. Races within one list operation are not modelled.
- ResourceClients.EngagedHoldsIff: the way back from WaitForResources to Loaded, which calls RM_removeFromWaitForResource, is left out, and so is the memory of a destroyed component, which the lists go on pointing to; types are registered, with a bound of at least one, before components use them.
- ResourceManager.Manager.RegisterComponent: a registered name is shorter than OMX_MAX_STRINGNAME_SIZE, the room the table has for it; once 500 types are registered the table has no terminating null name, and only calls for registered names are modelled.
- ResourceManager.Manager.Deinit: some list of holders is empty, as it always is while fewer than 500 types are registered; otherwise the loop leaves the table (`ResourcePolicy.SomeTypeFreeIff`).
- ResourceManager.Manager.GetResource: types registered with a bound below one are excluded, because on them the search leaves its result unset (`ResourcePolicy.EmptyFullIffBoundBelowOne` says exactly when).
- ResourceRuns.GrantOnFullType: supposes that no component holds the type twice; without that `ResourceRuns.GrantLowersSumIff` gives the exact condition.
- ResourceRuns.GrantsBounded: supposes that no component asks for a type it holds, for a bound that is easy to read; `ResourceBounds.GrantsAlwaysBounded` does not.
- Clocks and counters (timestamps, semval upwards, nelem) are unbounded, so their overflow is not modelled.
- Failures of allocation other than in queue_init and OSAL_Malloc, of system calls, and of mutex and condition initialisation.
- Semaphore.TSem.TimedRetry: whether a wait times out is a parameter; the clock that decides it is not modelled.
- RingCrowd.AlwaysIntactIff: the update under the mutex is one step; `RingProtocol` takes it apart for one producer and one consumer.
- tsem_wait, which takes signals without testing a counter.
- RingQueue.RingRefinesFifo: data is not null, because null marks a free node (`RingQueue.PutNeedsNonNull` says exactly what happens).
- The writer's two text buffers (quality string and line) are taken to be large enough.
- The quality string of the first component, uninitialised in the source when it has no levels, is modelled as empty.
- RegistryScan.ComponentRoundTrip: names and roles have no character that the file format uses, and the line fits the scanner's buffer of DEFAULT_LINE_LENGHT.
- RegistryScan.ListingRoundTrip: library paths begin with a slash, because the listing tells library lines by it, and lines fit the buffer they are read to.
- Directory scanning, dlopen, the registry's file name, and the loading of templates by libraries.
- ComponentDirectory.GetComponentsOfRole: fewer than 2^31 matches in all, because the code counts them in an int; matching names are shorter than OMX_MAX_STRINGNAME_SIZE, the size of the buffers they pass through; the padding of strncpy is left out. The caller's own buffers, here and for roles, are taken to be large enough.
- Tunnels, handles, content pipes and the message queue.
- OsalEvent.EventWaitMultiple: how long select waits, descriptors too large for an fd_set, and interruption are not modelled.
- OSAL_EventDestroy, threads, mutex wrappers, timers and the hardware allocators.
- OsalMemory.Malloc: the size with both guards is representable, the case in which `OsalMemory.BlockLargeEnoughIff` shows the block to be large enough; alignment is not modelled.
