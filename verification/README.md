# Playground server: a verified model

The server hands out short-lived virtual machines ("playgrounds") and lets browsers
attach to their consoles. This project models its stateful parts in Dafny and proves
what they keep over whole runs. Code between two `await`s is one atomic step; every
call in flight has a program counter, and the theorems about runs hold for every
sequence of steps, so for every interleaving.

| part | files |
|---|---|
| Simulated shell: line editor, cursor keys, history, UTF-8 reassembly, what its output does to a terminal | `Decimal`, `Utf8`, `Terminal`, `LineDisplay`, `QuietOutput`, `ShellSpec`, `MockShell` |
| Console hub: query stripping, scrollback ring, bounded queues, attaching clients, the closing mark | `Queries`, `HubSpec`, `ClosingMark`, `ConsoleHub` |
| From the shell through the hub to a browser's terminal | `EndToEnd` |
| Registry: slots, create with rollback, suspend, resume, destroy, expiry sweep | `RegistrySpec`, `SlotSafety`, `RunningSlots`, `SlotExamples`, `Lifecycle`, `Lifetimes`, `Orphans`, `Manager` |
| Warm pool of containers | `PoolSpec`, `PoolHistory`, `WarmPool` |
| Addresses, device names, firewall rules and the packets they let through | `NetIdentity`, `Firewall`, `FirewallRuns`, `Packets`, `PacketRuns`, `Host` |
| Reporting terminal sizes from a ttyd bridge | `Resize` |
| Optional values and concatenation | `Basics` |

Objects that the program changes in place are classes (`MockVM`, `Hub`, `Manager`,
`WarmPool`, `Host`, `Bridge`). Each of their methods is one atomic stretch, and its
contract ties the object's new value to the model the theorems about runs are about: to
the key presses of `ShellSpec` for `MockVM`, the functions on hub values that
`HubSpec.Step` is made of for `Hub`, the stretch of the matching call (`BeginSuspend`,
`Resumed` and the like, in any world whose registry is this one) for `Manager`, the pool
functions and steps of `PoolSpec` for `WarmPool`, the command-by-command `Finish` for
`Host`, and `Resize.Step` for `Bridge`. In a run, an action that is not enabled changes
nothing, which makes every sequence of actions a run.

Where a promise does not hold on all inputs, the exact condition is proved together
with an input that breaks it:

* The slots in use are those of the records that have not given theirs back, no two of
  which share one, if and only if no record gives its slot back a second time while
  somebody else holds it. Destroying a playground whose create failed, two overlapping
  destroys, and a destroy during a create that later fails all do that
  (`SlotSafety.ExclusiveIff`, `SlotExamples`).
* Every running record still has its slot if and only if no start or resume ends well on a
  record that has given its slot back, and no rollback or destroy gives back the slot of a
  record that has been set running. With this and the condition before, no two running
  playgrounds share a slot; without this one they can, although slots are exclusive in the
  sense above: a failed create whose disk could not be removed is resumed
  (`RunningSlots.HoldsIff`, `RunningSlots.RunningNeverShare`,
  `SlotExamples.ResumedFailureSharesRunning`).
* Everything that runs is registered if and only if no start or resume ends well after its
  record was unregistered and no destroy ends on a record set running since it began; a
  destroy during a create that succeeds leaks a running playground (`Orphans.NoOrphanIff`,
  `SlotExamples.DestroyDuringCreateLeaks`).
* A create that failed gives its slot back, once its rollback is over, if and only if that
  rollback is not cancelled first (`Lifecycle.GivesBackIff`).
* A create whose rollback removed the disk can run again if and only if a resume that
  had already found the disk overlapped it (`Lifecycle.RevivedIffResumeOverlapped`).
* A replay is free of terminal queries, and stripping idempotent, if and only if the
  stream has no ESC [ parameters final that is torn apart by queries
  (`Queries.ReplayQueryFreeIff`). The comment at server/console.py:15 says queries must
  never be replayed; the code replays such a left-over one (`Queries.NestedQueryLeftOver`).
* A client is told that the console was closed if and only if the close found it
  subscribed and with room in its queue, unless its sends fail or it leaves first; one
  dropped for slowness never is
  (`ClosingMark.MarkIff`, `ClosingMark.SlowNeverTold`).
* Chunked UTF-8 accounts for every byte if and only if no write finds more than eight
  undecodable bytes; two-byte deliveries can do that with valid input
  (`Utf8.AccountsForEveryByte`, `Utf8.TwoByteChunksCanDrop`).
* The writes of a session are read as the same keys as their whole text in one write if
  and only if no cut falls inside a cursor key; one that is cut types text
  (`MockShell.CuttingInvisibleIff`, `ShellSpec.CutArrowTypesText`). This is about the keys
  read; different keys can have the same effect.
* The screen after a boot shows a line kept from before a suspend if and only if that
  line is blank and the cursor at its start (`MockShell.MockVM.Boot`).
* An operation on a slot's rules leaves the right number of copies of a rule if and only if
  at most four were there, and a teardown removes the rules of a slot if and only if the
  egress MTU still gives the segment size used at setup (`Host.AloneExactIff`,
  `Firewall.TeardownCleansIffSameMss`).
* What the playground was last told is what the bridge believes it was told, throughout a
  run, if and only if no send fails; at rest that is exactly when the playground knows the
  terminal's size, and a send that fails is not repeated while the terminal keeps its size
  (`Resize.SyncedIff`, `Resize.ToldIff`, `Resize.ReportedStaysSilent`).

## Model

| member | source | states |
|---|---|---|
| LineDisplay.EchoRefinesRepaint | server/mock.py:180-228 | on any screen showing prompt and line, each cheap echo (character at the end, rub-out at the end, cursor right, cursor left) leaves the whole screen looking as the full repaint of the edited line would |
| LineDisplay.EchoKeepsShown | server/mock.py:180-228 | a cheap echo turns a row showing the old line and cursor into one showing the edited line and cursor, and touches no other row |
| LineDisplay.EchoStaysInRow | server/mock.py:180-228 | even on a screen that does not show the line, an echo stays in its row and leaves nothing below it |
| LineDisplay.RepaintShows | server/mock.py:128-137 | from any settled screen the repaint leaves exactly prompt and line on the row, cursor at prompt length plus position, all other rows untouched |
| LineDisplay.PromptShows | server/mock.py:123-126 | on a fresh row a bare prompt shows a kept line if and only if that line is all blanks with the cursor at its start |
| LineDisplay.InterruptFreshens | server/mock.py:205-208 | the "^C" echo moves to a fresh row just below and keeps every row above |
| Terminal.RenderStaysFresh | server/mock.py:120-121 | any number of whole lines or screen clears lead from a fresh row to a fresh row |
| ShellSpec.InputKeepsHistory | server/mock.py:164-228 | any input keeps the history index in range and every entry printable, and never changes an existing entry |
| ShellSpec.UpsRecallNewest | server/mock.py:165-170 | from the bottom the k-th "up" shows the k-th newest entry, further ones the oldest |
| ShellSpec.DownsReturn | server/mock.py:171-179 | j "downs" after k "ups" show the entry k-j from the bottom, and k of them the empty line |
| ShellSpec.StripIsMiddle | server/mock.py:190 | what Enter takes from a line is the part between its first and last non-blank character, and nothing of an all-blank line |
| ShellSpec.MiddleOrBlank | server/mock.py:190 | every line has such a part or is all blank |
| ShellSpec.TextGoesIn | server/mock.py:221-228 | any printable text typed goes in left of the cursor and changes nothing else |
| ShellSpec.RubOutUndoes | server/mock.py:196-204 | backspace and delete take back the character typed last |
| ShellSpec.WhereTextGoes | server/mock.py:205-220 | after ^A text goes in front of the line, after ^E behind it, after ^U and ^C it is the whole line |
| ShellSpec.StepsUndo | server/mock.py:180-185 | cursor left and right move by one, undo each other and leave the line alone |
| ShellSpec.WritesConcat | server/mock.py:154-162 | two writes act as their concatenation when the cut splits no cursor key |
| ShellSpec.KeysConcatIff | server/mock.py:154-162 | two writes are read as the keys of their concatenation if and only if the cut splits no cursor key or nothing follows |
| ShellSpec.CutArrowTypesText | server/mock.py:157-160 | an arrow key cut after ESC types two characters instead of moving |
| MockShell.MockVM.constructor | server/mock.py:65-90 | a new shell: empty line and history, /root, nothing held, input not accepted yet |
| MockShell.MockVM.Boot | server/mock.py:101-117 | prints exactly the lines and a prompt, starts accepting input; the kept line is shown exactly when it is blank with the cursor at its start |
| MockShell.MockVM.Suspend | server/mock.py:477-485 | stops input and keeps line, cursor, history and held bytes; the next console is empty |
| MockShell.MockVM.Rename | server/manager.py:307-317 | a right screen stays right after a rename exactly when the name is the same |
| MockShell.MockVM.Redraw | server/mock.py:128-137 | puts any screen right without touching another row |
| MockShell.MockVM.Exec | server/mock.py:231-248 | prints the command's lines and then the prompt, and takes over its directory; the screen shows the empty line |
| MockShell.MockVM.Enter | server/mock.py:188-195 | leaves the row and prompts; the part of the line between its blank ends is appended to the history and run, an all-blank line adds and runs nothing |
| MockShell.MockVM.Backspace | server/mock.py:196-204 | removes the character left of the cursor, by rub-out at the end and repaint elsewhere; a right screen stays right |
| MockShell.MockVM.Insert | server/mock.py:221-228 | puts the character left of the cursor, by echo at the end and repaint elsewhere; a right screen stays right |
| MockShell.MockVM.Key | server/mock.py:187-228 | the line and history change as the zipper says; a right screen stays right, repainting keys put a stale one right, and only Enter, interrupt and clear leave the row |
| MockShell.MockVM.Csi | server/mock.py:164-185 | the same for cursor keys: history walks and cursor steps, in one row |
| MockShell.MockVM.EnterText | server/mock.py:154-162 | the index loop enters the text key by key, three-character groups starting ESC [ as one key |
| MockShell.MockVM.Write | server/mock.py:142-162 | ignored before the prompt; after it, joins the held bytes, enters what decodes, and drops an undecodable buffer of more than eight bytes |
| MockShell.Session | server/mock.py:101-162 | one power-on session: after boot and any writes, cut anywhere, the terminal shows exactly prompt and line with the cursor in place |
| MockShell.CuttingInvisible | server/mock.py:142-162 | and then the shell ends as if the whole decoded text had come in one write |
| MockShell.CuttingInvisibleIff | server/mock.py:142-162 | the writes of a session are read as the keys of the whole decoded text if and only if no cut falls inside a cursor key |
| MockShell.TextArrives | server/mock.py:142-162 | any text without ESC sent byte by byte is entered whole |
| Utf8.DecodeIffEncode | server/mock.py:146-149 | decoding accepts exactly the encodings (shortest form, no surrogates, at most U+10FFFF: section 4 of RFC 3629) and inverts encoding |
| Utf8.EncodedPrefix | server/mock.py:146-149 | when an encoded text is the front of an encoding, the text is a prefix of the other and the rest encodes the rest |
| Utf8.AccountsForEveryByte | server/mock.py:145-153 | decoded texts plus held bytes make up all bytes received if and only if no write dropped |
| Utf8.HeldStartsOnBoundary | server/mock.py:145-153 | for a valid stream without drops the decoded text is a prefix of the text sent and the held bytes start on a character boundary |
| Utf8.WholeStreamDecoded | server/mock.py:145-153 | once a valid stream has arrived without drops, all of it has been decoded and nothing is held |
| Utf8.BytewiseNeverDrops | server/mock.py:150-153 | delivered byte by byte, a valid stream never fills the buffer beyond a proper part of one character |
| Utf8.BytewiseDecodesAll | server/mock.py:145-153 | and arrives whole |
| Utf8.TwoByteChunksCanDrop | server/mock.py:150-153 | a valid stream in two-byte chunks that the shell throws away |
| Queries.QueryClassIsParam | server/console.py:21-23 | the parameter class is exactly bytes 0x30 to 0x3F, the parameter bytes of section 5.4 of ECMA-48 |
| Queries.MatchIsQuery | server/console.py:23-27 | the scanner matches at a position exactly when a query starts there, and ends where it ends |
| Queries.QueriesDisjoint | server/console.py:23-27 | two queries that share a byte are one and the same, so each start has one end |
| Queries.StripKeepsUncovered | server/console.py:26-27 | the leftmost scan deletes exactly the bytes covered by queries and keeps the others in order |
| Queries.StripDistributesIff | server/console.py:26-27 | strip(a+b) equals strip(a)+strip(b) if and only if no query runs across the cut |
| Queries.StraddlingCosts | server/console.py:26-27 | a query across the cut makes the separate results strictly longer |
| Queries.StripFixedIff | server/console.py:26-27 | stripping changes nothing if and only if there is no query |
| Queries.QueryShift | server/console.py:41-43 | cutting the front of the ring neither makes nor unmakes a query among what is left |
| Queries.LeftoverQuerySplits | server/console.py:61-63 | if a query is left in a replay, the stream holds an ESC [ parameters final torn apart by queries, one of them directly after its unfinished beginning |
| Queries.TornByQuery | server/console.py:26-27 | what tears such a sequence apart: a query inside it that directly follows its unfinished beginning |
| Queries.ReplayQueryFreeIff | server/console.py:12-20 | a replay holds no query if and only if the stream holds no uncovered ESC followed, passing over covered bytes, by bracket, parameters and an uncovered final |
| Queries.ReplayQueryFree | server/console.py:12-20 | a replay holds no query, and stripping again changes nothing, when no query directly follows an unfinished ESC or ESC [ parameters |
| Queries.StripIdempotentIff | server/console.py:26-27 | stripping is idempotent on a stream under the same exact condition |
| Queries.NestedQueryLeftOver | server/console.py:26-27 | ESC [ ESC [ 6 n 6 n strips to a query |
| Queries.QueriesGo | server/console.py:23-27 | ESC [ parameters n and ESC [ parameters c, with any parameters, are stripped entirely; the same with another final stays |
| HubSpec.RingIsSuffix | server/console.py:41-43 | trimming after every chunk is trimming once at the end |
| HubSpec.RingHoldsLatest | server/console.py:38-43 | after any run the ring has min(limit, total) bytes and they are the last ones published |
| HubSpec.RoomDecides | server/console.py:44-49 | a publish reaches a subscriber with fewer than 1024 items queued, who stays; a fuller one gets nothing and is dropped |
| HubSpec.AttachedAsAsked | server/main.py:171-180 | a client replays, for as long as it is there, if and only if it asked to when it attached |
| HubSpec.GapFreeAttach | server/main.py:171-190 | in every run what a client was sent is the stripped ring at the moment it attached (if it replays), then the chunks published since, in order, none lost or repeated |
| HubSpec.SubscribedMissesNothing | server/console.py:44-49 | while a client is subscribed, what it was sent, is being sent or was lost in sending, and has queued is every chunk published since it attached, also when a failed send leaves it subscribed |
| HubSpec.StalledGetsNothing | server/main.py:182-213 | a client whose send failed is sent nothing more, though its queue may stay subscribed |
| ClosingMark.MarkIff | server/console.py:51-58 | in every run the closing mark is on its way to a client still there, or was sent to it, if and only if a close found it subscribed with room in its queue |
| ClosingMark.SlowNeverTold | server/console.py:47-49 | a client whose queue was full at a publish is never told of the close |
| ClosingMark.DroppedNeverTold | server/console.py:51-58 | nor is any client once unsubscribed |
| EndToEnd.QuietFree | server/mock.py:120-137 | output made of complete control sequences other than queries, as the shell's is, holds no query in its bytes |
| EndToEnd.ReceivedEverything | server/main.py:171-190 | a replaying client that attached before the ring overflowed and is up to date has received every byte of query-free output |
| EndToEnd.BrowserShowsLine | server/mock.py:120-137 | its terminal then shows exactly the prompt and the line being edited in the shell |
| EndToEnd.WatchedSession | server/mock.py:101-162 | after any power-on session, cut anywhere, every client that replayed before the ring overflowed and is up to date sees exactly prompt and line, however the output was split and whatever other clients did |
| ConsoleHub.Hub.FanOut | server/console.py:44-49 | every subscriber with room gets the chunk, and exactly those without are dropped |
| ConsoleHub.Hub.Publish | server/console.py:38-49 | ring trimmed to its limit, then the fan-out; empty data changes nothing |
| ConsoleHub.Hub.Close | server/console.py:51-58 | the end mark goes to every subscriber with room, and nobody stays subscribed |
| ConsoleHub.Hub.Subscribe | server/console.py:65-68 | a new empty queue joins the subscribers |
| ConsoleHub.Hub.Unsubscribe | server/console.py:70-71 | the queue is subscribed no more |
| ConsoleHub.Attach | server/main.py:171-179 | subscribing and reading the history happen in one step, the one the model takes |
| ConsoleHub.PumpNext | server/main.py:182-190 | the pump takes the oldest item of its own queue |
| RegistrySpec.LowestFree | server/manager.py:250-255 | the result is free, in range and everything below it is in use; none means all are in use |
| SlotSafety.RunWellFormed | server/manager.py:275-304 | in every run slots in use lie in 1..limit and belong to registered records, and no more than the limit are registered |
| SlotSafety.AllocationCannotFail | server/manager.py:255 | below the limit there is always a free slot, so "no free slots" is never raised |
| SlotSafety.RefusedIffAtLimit | server/manager.py:277-279 | a create is refused if and only if the limit is reached |
| SlotSafety.StepExclusiveIff | server/manager.py:303-371 | with exclusive slots, a step breaks exclusivity if and only if it gives back a slot its record had given back before and that is in use |
| SlotSafety.ExclusiveIff | server/manager.py:303-371 | over a whole run the slots in use are those of unreleased records, no two sharing, if and only if no step is such a release |
| SlotSafety.SingleReleasesExclusive | server/manager.py:303-371 | if no record gave its slot back twice, slots were exclusive throughout |
| SlotSafety.DisciplinedExclusive | server/manager.py:275-403 | so they are when a destroy is begun only on a record whose create returned unfailed and that no other call is destroying; this is about records that have not given their slot back |
| RunningSlots.StepHoldsIff | server/manager.py:291-371 | a step leaves the first running record without its slot if and only if it is a start or resume ending well on a record that gave its slot back, or gives back the slot of a running one |
| RunningSlots.HoldsIff | server/manager.py:291-371 | over a whole run every running record has its slot if and only if no step is one of these |
| RunningSlots.RunningNeverShare | server/manager.py:275-403 | in a run with no such step and no stale release no two running playgrounds share a slot |
| SlotExamples.DestroyOfFailedCreateShares | server/manager.py:303-371 | a reachable state in which two playgrounds hold slot 1, after destroying a failed create |
| SlotExamples.OverlappingDestroysShare | server/manager.py:359-372 | and one after two overlapping destroys |
| SlotExamples.DestroyDuringFailedCreateShares | server/manager.py:297-371 | and one after a destroy during a create that later fails |
| SlotExamples.DestroyDuringCreateLeaks | server/manager.py:291-371 | a reachable state in which a playground runs, has its disk, is registered nowhere and holds no slot |
| SlotExamples.ResumedFailureSharesRunning | server/manager.py:300-350 | a reachable state, without any destroy, in which slots are exclusive in the sense of SlotSafety and yet two registered playgrounds run on slot 1 |
| Orphans.StepOrphansIff | server/manager.py:291-371 | a step leaves the first unregistered running record if and only if it is a start or resume ending well on an unregistered record, or a destroy ending on a running one |
| Orphans.NoOrphanIff | server/manager.py:291-371 | over a whole run everything shown running is registered if and only if no step is one of these |
| Lifecycle.SweepLeavesNothingOverdue | server/manager.py:395-403 | a completed sweep leaves nothing registered that was overdue when it read the clock |
| Lifecycle.SweepDestroysOnlyOverdue | server/manager.py:399-403 | what a sweep destroys was overdue when it read the clock |
| Lifecycle.SuspendedHasNoDeadline | server/manager.py:325-327 | only playgrounds without a deadline are ever being suspended, and no sweep has found one of them |
| Lifecycle.DeadlineAsAsked | server/manager.py:283-285 | a playground created with time to live ttl has, in every run after, the deadline creation time plus ttl, or none when ttl is 0 |
| Lifecycle.SweepClock | server/manager.py:399 | a sweep goes by the time that had passed when it began |
| Lifecycle.SweepEndsTheOverdue | server/manager.py:399-403 | a finished sweep that read the clock at or after creation plus ttl has left the playground unregistered |
| Lifecycle.SweepSparesOthers | server/manager.py:399-403 | no sweep that read it earlier destroys the playground, nor any one created to stay |
| Lifecycle.OnlyStayingSuspended | server/manager.py:325-327 | only playgrounds created with ttl 0 are ever suspended |
| Lifecycle.GivesBackIff | server/manager.py:297-303 | over a whole run every create that failed has given its slot back once its rollback is over, if and only if no rollback is cancelled first |
| Lifetimes.CreateRuns | server/manager.py:275-296 | undisturbed, a create that goes well ends running, with its disk, on the lowest free slot |
| Lifetimes.CreateFails | server/manager.py:297-303 | one whose start fails ends with an error and the slots as before |
| Lifetimes.SuspendStops | server/manager.py:319-338 | a suspend ends with the playground stopped and nothing else changed |
| Lifetimes.ResumeBringsBackIff | server/manager.py:340-356 | a resume ends running if the disk is there and with an error if not, whichever way the backend finds out |
| Lifetimes.DestroyGoes | server/manager.py:359-372 | a destroy ends with the record unregistered, its slot free, and its disk gone if the stop removed it |
| Lifetimes.SweepRemoves | server/manager.py:395-403 | a sweep that finds one playground expired destroys it |
| Lifecycle.StaysDown | server/manager.py:297-356 | a failed create whose disk is gone, with nothing in flight for it, never shows running again |
| Lifecycle.RevivedIffResumeOverlapped | server/manager.py:297-356 | after the rollback it can show running if and only if an overlapping resume had found the disk or had already set it running |
| Manager.Manager.AllocSlot | server/manager.py:250-255 | the loop finds the lowest free slot and marks it |
| Manager.Manager.Reserve | server/manager.py:276-279 | refuses at the limit, else allocates, with nothing else changed |
| Manager.Manager.CreateBegin | server/manager.py:275-291 | refused at the limit; else registered under a free slot with deadline now + ttl, or none for ttl 0, and failed and released at once without a VM object; exactly what the model's create does |
| Manager.Manager.CreateStarted | server/manager.py:291-299 | the record becomes running, or failed with its slot still held; nothing else in the registry changes |
| Manager.Manager.CreateServed | server/manager.py:296-299 | a terminal server that did not start turns a record that already runs into a failed one; nothing else changes |
| Manager.Manager.CreateRolledBack | server/manager.py:300-303 | the slot is given back whatever the stop did, as in the model's rollback |
| Manager.Manager.SuspendBegin | server/manager.py:319-328 | goes on if and only if the playground exists, runs and has no deadline, and then does what the model's suspend does |
| Manager.Manager.SuspendEnd | server/manager.py:332-337 | the record becomes stopped, or error, and nothing else changes |
| Manager.Manager.ResumeBegin | server/manager.py:340-349 | goes on if and only if it exists, does not run and, on backends that look first, its disk is there; does what the model's resume does |
| Manager.Manager.ResumeEnd | server/manager.py:349-355 | the record becomes running, or error, and nothing else changes |
| Manager.Manager.ResumeServed | server/manager.py:351-355 | a terminal server that did not start turns a resumed playground into one with an error |
| Manager.Manager.DestroyBegin | server/manager.py:359-363 | goes on if and only if the playground is registered, and then does what the model's destroy does |
| Manager.Manager.DestroyEnd | server/manager.py:367-372 | unregisters the record and gives its slot back, even a second time, as in the model |
| Manager.Manager.MarkExited | server/manager.py:377-380 | exactly the registered running playgrounds whose VM has exited become stopped |
| Manager.Manager.FindExpired | server/manager.py:399-401 | exactly the registered records whose deadline has passed |
| PoolSpec.PoolSafe | server/container.py:114-146 | in every run each container made is in exactly one place, one refill task at most is unfinished, and the pool never exceeds its size |
| PoolSpec.HandedOnce | server/container.py:116-124 | no container goes to two callers, and none handed out is still in the pool |
| PoolHistory.StepHands | server/container.py:117-124 | a container is handed over exactly by its probe finding it alive or by the call that made it, which is then over |
| PoolHistory.StepDrops | server/container.py:117-122 | one is dropped exactly by its probe finding it dead; the same call then probes the newest of the rest or, if there is none, makes its own |
| PoolHistory.LockTakesNewest | server/container.py:116-118 | a call that gets the lock probes the newest ready container and makes its own only if there is none |
| PoolHistory.HandedIff | server/container.py:114-124 | over every run the containers handed out are those found alive by the probe of the call they went to and those a call made for itself |
| PoolHistory.DroppedIff | server/container.py:117-122 | and the dropped ones are those a probe found dead |
| PoolHistory.DeadNotHanded | server/container.py:117-124 | none is both |
| PoolHistory.NewestAliveTaken | server/container.py:117-121 | undisturbed probes hand the newest living container to the call and drop exactly the newer dead ones |
| PoolHistory.NoneAliveMakesOwn | server/container.py:117-122 | with none alive all are dropped and the call makes its own |
| PoolSpec.DrainTakesAll | server/container.py:141-143 | a drain moves exactly what is ready to the drained containers and leaves each container in one place |
| PoolSpec.StepCoveredIff | server/container.py:114-146 | a step leaves a deficit without refill task or acquire in flight if and only if it is a failure or drain taking the last of these away |
| PoolSpec.CoveredIff | server/container.py:114-146 | over a whole run, deficits are covered throughout if and only if no such step occurs |
| PoolSpec.FullAtRest | server/container.py:131-139 | without failures and drains, the pool is full whenever no acquire and no refill task is in flight |
| WarmPool.WarmPool.RefillSoon | server/container.py:131-133 | a new task unless the last one is unfinished |
| WarmPool.WarmPool.RefillCheck | server/container.py:137 | the task goes on below the bound and is done otherwise |
| WarmPool.WarmPool.RefillAdd | server/container.py:138-139 | the container joins the pool and the test is repeated |
| WarmPool.WarmPool.ProbeEnds | server/container.py:118-121 | after a live probe the container is the caller's, after a dead one the newest of the rest is next; as the model's step |
| WarmPool.WarmPool.TakeAlive | server/container.py:117-121 | the loop takes the newest live container and drops the dead ones before it, no others |
| WarmPool.WarmPool.TakeAll | server/container.py:142-143 | nothing is left ready, and in any world where each container is in one place the ids taken become the drained ones and it stays so |
| NetIdentity.SlotsDistinct | server/net.py:37-61 | distinct slots have distinct taps, networks, host and guest addresses |
| NetIdentity.OwnNetwork | server/net.py:37-42 | read as dotted numbers, host and guest address of a slot lie strictly between first and last address of the slot's own /30, as that is read |
| NetIdentity.NetworksDisjointIff | server/net.py:37-42 | the networks of two slots, as read, share an address if and only if the slots are the same |
| NetIdentity.MacsDistinct | server/net.py:64-65 | two slots below 65536 have one MAC if and only if they are the same |
| NetIdentity.MacReads | server/net.py:64-65 | a MAC is read as 02:FC:00:00 and the slot in two octets |
| NetIdentity.Mss | server/net.py:78-79 | at least 536 (section 3.7.1 of RFC 9293), and 40 bytes short of any MTU from 576 |
| NetIdentity.BootArgRoundTrip | setup.sh:323-327 | the guest's field split gives back both addresses if and only if neither contains a colon |
| NetIdentity.BootArgRest | server/net.py:151 | its other fields are read as the netmask of a /30, eth0 and off |
| NetIdentity.GuestLearnsAddresses | server/net.py:148-151 | so every guest learns its own address and its host's |
| Firewall.OwnRulesDistinct | server/net.py:74-100 | the six rules of a slot differ, whatever the configured names |
| Firewall.SlotRulesDistinct | server/net.py:77 | no two slots share a rule, even under different settings |
| Firewall.TurnFinal | server/net.py:123-144 | each command keeps the number of copies there will be at the end |
| Firewall.FinishCounts | server/net.py:123-144 | an undisturbed operation removes up to four copies of each rule and a setup adds one |
| Firewall.SetupIsTeardownFirst | server/net.py:114-128 | a setup's commands are a teardown's followed by the installations |
| Firewall.TeardownCleansIffSameMss | server/net.py:139-144 | a teardown under another MTU removes the rules if and only if it gives the same segment size |
| FirewallRuns.EndCounts | server/net.py:108-145 | in every interleaving of slots' commands, a finished operation leaves max(0, n-4) copies of each of its rules, plus one for a setup, where n were there when it began |
| FirewallRuns.ExactAtRest | server/net.py:139-144 | with at most four stale copies: exactly one copy of each rule of a slot set up, none of one torn down |
| FirewallRuns.OthersKeepOrder | server/net.py:71-72 | every other rule survives every run, in the same order |
| FirewallRuns.SetUpJumpsQueue | server/net.py:124-128 | the forwarding rules of a slot set up come before every rule of others |
| FirewallRuns.SetUpGoesLast | server/net.py:128 | the masquerading and segment size rules come after every rule of others |
| Packets.MasqueradeRule | server/net.py:81 | the rule masquerades exactly what leaves by the egress interface from the slot's network |
| Packets.OutboundRule | server/net.py:82 | the rule accepts exactly what goes from the slot's tap to the egress interface |
| Packets.ReplyRule | server/net.py:83-84 | the rule accepts exactly related and established packets from egress to the tap |
| Packets.PingRule | server/net.py:88-89 | the rule accepts exactly ICMP from egress to the tap |
| Packets.SizeOutRule | server/net.py:94-96 | the rule sets the segment size on exactly the connection-opening TCP segments from the slot's network to egress |
| Packets.SizeInRule | server/net.py:97-99 | and on those to the slot's network by its tap |
| Packets.NewFromOutsideUnmatched | server/net.py:82-89 | a new, non-ICMP packet from egress to the tap matches none of the slot's forwarding rules |
| Packets.OthersUnmatched | server/net.py:74-100 | a packet that touches neither the slot's tap nor its network matches none of its rules |
| Packets.OtherSlotUnmatched | server/net.py:74-100 | in particular not another slot's traffic with the outside |
| Packets.InstalledLists | server/net.py:123-128 | installing puts the forwarding rules at the head of their chain and the others at the end of theirs, and touches nothing else |
| Packets.SetupServes | server/net.py:108-129 | after an undisturbed setup the guest's traffic out is accepted and masqueraded, answers and ICMP are accepted, and opening segments get their size |
| PacketRuns.SetUpServed | server/net.py:124-128 | the same in every interleaving with other slots' commands, decided by slots' rules before anybody else's |
| PacketRuns.AskedIsDone | server/net.py:108-145 | a setup or teardown begun, and not begun anew or broken off, ends with one copy or none of each rule, and a setup with its guest served |
| Host.Host.Teardown | server/net.py:132-144 | the nested loops change the tables exactly as the command-by-command model of a teardown does, so its counts and order hold of them |
| Host.Host.Setup | server/net.py:108-129 | a teardown and then six installations, as in the model; afterwards the slot's guest is served |
| Host.AloneExactIff | server/net.py:139-144 | alone, an operation leaves the right number of copies of a rule if and only if at most four were there |
| Resize.NoResizeLost | tools/attach.py:26-88 | in every interleaving: at rest the last message carries the terminal's own rows and columns, or 24 x 80 if either is 0, and no message repeats the one before it |
| Resize.ChangeIsReported | tools/attach.py:59-88 | a terminal that takes a known size and keeps it has that size reported at rest, by a new message unless it was the last reported |
| Resize.BurstToldOnce | tools/attach.py:82-88 | whatever resizes and signals arrive during a sleep, at most one message comes of them, with the last size, and their callbacks do not wake the watcher again |
| Resize.SendDecides | tools/attach.py:61-70 | a send that goes through makes playground and bridge agree whatever was before, a failed one only if the playground had been told that same size, and no other step makes a difference |
| Resize.StepSyncedIff | tools/attach.py:65-70 | a step puts the playground at odds with the bridge if and only if it has a size to send and the send fails |
| Resize.SyncedIff | tools/attach.py:65-70 | over a whole run they agree throughout if and only if no send fails |
| Resize.Settles | tools/attach.py:80-88 | from any state eight steps without a further change reach rest |
| Resize.ToldIff | tools/attach.py:65-70 | at rest the playground knows the current size if and only if it was last told what the bridge last reported, so after every run without a failed send |
| Resize.OneFailureMisleads | tools/attach.py:65-70 | at rest after a failed send that follows one that went through, the playground keeps a wrong size |
| Resize.ReportedStaysSilent | tools/attach.py:61-70 | once the size was reported, delivered or not, nothing is sent before the next change of size |
| Resize.FailedSendForgotten | tools/attach.py:65-70 | after a failed first send the playground is never told, whatever happens short of a change of size |
| Resize.Bridge.SendSize | tools/attach.py:26-70 | the last size becomes the terminal's own, or 24 x 80 if it does not know it; a message, if any, carries it and differs from the one before |

## Left out

- Terminal glyphs of two cells, combining and right-to-left characters, line wrapping and colours: rows are unbounded and cells hold one character.
- The individual commands of the simulated shell: a command prints whole lines or clears the screen, and may change the directory, as a parameter says; `Env` also carries the table of printable characters, of which only "no control characters" is assumed.
- MockShell.MockVM.Boot: the boot's pauses are not modelled; lines and prompt are one stretch, in which input is refused anyway.
- MockShell.MockVM.Key: a history entry recalled after a directory or name change is shown under the current prompt only; no claim is made about rows already left behind by Enter.
- EndToEnd.BrowserShowsLine: a browser that attached after the ring overflowed, or without replay, is not covered, since what it is missing can be anything.
- ConsoleHub.Attach: one hub; the new hub that a resume creates is a new model instance, and a client of the old one stays with it. Delivery by the websocket itself is taken as "the send ended" or "the client is gone".
- Manager.Manager.CreateBegin: ids are taken to be fresh; names, labels, image choice and error texts are not modelled.
- Resuming on the simulated backend, which keeps no disk: the rollback theorems are about container, qemu and firecracker backends, and take a stop that ends well to have removed the disk.
- NetIdentity.OwnNetwork: the configured subnet base is two numbers below 256 with a dot between; for another base the strings are no addresses.
- Packets.Served: packets are matched by interface, address, protocol, connection state and TCP flags; what other chains and rules of the host do, and that a packet is routed between these interfaces at all, are not modelled.
- Host.Host.Setup: the tap device, its addresses and forwarding are not modelled; a failing device or install command is the action BreakOff of the interleaved model. Detecting the egress interface, and skipping the deletions when that fails, are not modelled.
- FirewallRuns.EndCounts: a slot has one operation at a time and the settings are fixed; a deletion fails only when there is no match, and nobody outside the model changes the tables during the run.
- PoolSpec.PoolSafe: cancelled acquires are not modelled; removing drained containers is the drain's last, unmodelled step.
- WarmPool.WarmPool.TakeAlive: the probes are a fixed predicate and nothing interleaves; the interleaved claims are those of PoolSpec.
- Resize.NoResizeLost: a terminal whose size cannot be read, and event loops without signal handlers, are not modelled.
- The docker, qemu, firecracker, ttyd and iptables processes: steps that succeed or fail.
- HTTP routes, the ttyd proxy, the web pages, catalogue, labels, readiness probing and image baking: little state, and claims about them would be easy.
- Real time, beyond a clock that never goes back and sleeps that end.
