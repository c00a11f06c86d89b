# SteamShine verification project

Dafny models of the stateful cores of SteamShine, with proofs about all their runs. Each
component is a specification (functions on values), the imperative code in the original's own
shape proved equal to it, and theorems about whole histories that refer only to what goes in and
what comes out.

| component | files |
|---|---|
| bounded input queue | `Packets`, `QueueSpec`, `PacketQueue` (class), `QueueViews`, `CursorTrack`, `QueueTrace`, `QueueRuns`, `QueueTheorems`, `QueueOutcomes`, `QueueTimes` |
| ownership of the queue by its worker | `WorkerProtocol` |
| keyboard press tracking | `KeyboardSpec`, `Keyboard` (class), `KeyboardTheorems`, `KeyboardMirror`, `KeyboardLog` |
| configuration text | `ConfigSpec`, `ConfigParser` (loops, class), `ConfigLaws`, `ConfigRoundTrip`, `ConfigAppend`, `ConfigLayout` |
| frame pacer | `FramePacing` (class), `PacingBursts` |
| adaptive bitrate | `AdaptiveBitrate` (class), `BitrateHistory`, `BitrateTargets` |
| latency ring | `LatencyRing` (class, in-place sort), `LockFreeMaximum` |
| Steam library files | `KeyValuesSpec`, `KeyValues` (class), `KeyValuesTheorems`, `KeyValuesText` |
| display save and restore | `DisplayState` (class) |
| sliding-window rate limiter | `RateLimiter` (class) |
| shared facts | `Lists`, `Arithmetic`, `Options` |

`dafny verify dfyconfig.toml` checks the project.

## How to read the queue results

What clients can observe is defined on plain packet lists, without the queue (`QueueViews`):
the edges in order, the motion and scroll sums between consecutive edges, the changes of the set
of connected pads, and for every channel (absolute mouse, one pad, one finger, the pen, one
sensor, ...) its packets with every block of mutually continuing packets reduced to the last one,
with the edges kept between them, and the cursor: its position at every edge and at the end, where
absolute motion sets it and relative motion adds to it. `SameViews` is equality of all of these. The invariant keeps a
*trace* of everything accepted since the last stop in which only stale motion is marked dropped;
the theorems follow from it.

## Where the code does not do what one would expect

Each of these is a lemma with a concrete run or input, next to the exact condition under which the
expected behaviour holds.

- A worker that finds the queue empty ignores whether `worker_finished` reports new work
  (`src/input.cpp:2511-2514`). If `resume` overtakes a worker scheduled before `stop`, the queue
  stays marked as scheduled with no worker, for ever: `ResumeOvertakingLosesTheWorker`,
  `AbandonedForever`. The ownership invariant is left exactly by that call (`OnlyIgnoredWorkIsLost`),
  and a resume makes the loss possible exactly when a worker is left that is not injecting
  (`ResumeLosesExactly`).
- `src/input.h:46-53` promises backpressure only when the queue holds nothing but edges. The code
  also waits behind controller states, scrolls or pen moves that cannot be combined:
  `WaitsBehindScroll` is such a run, `WaitsExactlyWhenNothingCanGive` says when a producer waits,
  and `WaitsBehindEdgesExactly` when it waits behind edges only.
- Resetting the keyboard clears the key table but not the modifier bookkeeping; the two agree
  afterwards exactly when no modifier was down: `ResetDesynchronizes`. Between resets they agree in
  every run exactly when none of the nine modifier keys is sent with two flags bytes:
  `SynchronizedExactly`, with the failing run in `TwoFlagsBytesDesynchronize`.
- The host keyboard shows exactly what the client holds, in every run, if and only if the keys in
  use share no host key and none is bound to a foreign modifier where synthetic modifiers occur
  (`MirrorsExactly`). The default bindings send a side-less modifier as its left key, so using both
  lifts one under the other: `DefaultBindings`.
- A configuration survives being printed and parsed exactly when all its values are single lines or
  closed lists without `#`; a value of blanks grows by one blank per save: `RoundTripExactly`,
  `SavingKeepsConfig`, `BlankValueGrows`. Appending an option works exactly when the old text leaves
  no list open: `AppendExactly`.
- The next frame deadline is not always strictly later than the poll that produced it. Polls at one
  instant yield at most `most` outputs exactly when the numerator is at most `most - 1` times the
  ticks of a period plus their greatest common divisor: `BurstsExactly`. So one output exactly for
  periods of whole nanoseconds (`OneAtOnceExactly`), two exactly up to
  `numerator <= ticks + gcd` (`TwoAtOnceExactly`), which includes some rates above one frame per
  nanosecond and excludes others (`SubNanosecondBurst`).
- A cut of the bitrate takes its full percentage exactly while the 32-bit product does not wrap
  (`FullCutExactly`), and the envelope stays ordered in every history exactly for maxima up to
  4090445044 kbit/s, where no raise wraps (`OrderedExactly`, with the run in `RaiseWrapsToZero`).
- The display is restored with its scale printed to six digits; it is restored exactly when that
  scale survives the printing: `RoundTripExactly` in `DisplayState`, `SurvivesSixDigits`,
  `FractionalScaleIsRounded`.
- Clearing an address makes room for its whole allowance at once: `ClearForgets`. The bound of the
  window is stated for addresses that are not cleared.

## Model

| member | source | states |
|---|---|---|
| Packets.EdgesNeverCombine | src/input.cpp:1978-2240 | a packet is an edge exactly when the rules combine it with no packet, on either side |
| Packets.BatchExactly | src/input.cpp:1978-2240 | all three answers of the rules by packet fields: what continues replaces, amounts that fit are added exactly, what is about another pad, pointer or sensor is passed over, everything else is a barrier |
| Packets.BatchedShape | src/input.cpp:1978-2200 | combining keeps the channel and droppability, never involves an edge, takes the latest packet outside motion sums, and never changes a connected-pad mask |
| Packets.ContinuesCongruence | src/input.cpp:2058-2200 | of two packets that continue each other, any third continues both or neither: latest-wins rules are an equivalence |
| Packets.NotBatchableIsPassable | src/input.cpp:2058-2200 | whatever a forward merge skips cannot be observed by the channel being merged, nor by the cursor |
| Packets.SkippedByScanIsPassable | src/input.cpp:2381-2391 | whatever the backward scan skips, judged against the new packet, is passable for the queued partner too |
| QueueSpec.OldestDroppable | src/input.cpp:2416-2424 | the first droppable motion, and no droppable motion before it |
| QueueSpec.MakeRoom | src/input.cpp:2393-2424 | a round of the overflow loop that makes room removes exactly one entry and counts it once, as coalesced or dropped |
| QueueOutcomes.BackwardMatchExactly | src/input.cpp:2381-2391 | the backward scan answers an entry if and only if it combines with the packet and only bypassed entries stand behind it, and answers none if and only if there is no such entry |
| QueueOutcomes.ForwardMatchExactly | src/input.cpp:2398-2411 | the forward scan answers a later entry if and only if the two combine and only bypassed entries stand between |
| QueueOutcomes.OldestPairExactly | src/input.cpp:2395-2413 | the overflow loop combines the oldest entry that reaches a later one, whenever some entry does |
| QueueOutcomes.PushRejects | src/input.cpp:2374-2379 | a stopped queue rejects and changes nothing |
| QueueOutcomes.PushCoalesces | src/input.cpp:2381-2387 | a packet with a partner anywhere in the queue takes no room: exactly one coalesced, that entry combined at its receipt time, no other changed |
| QueueOutcomes.PushAppends | src/input.cpp:2436-2445 | without a partner and with room the packet goes last, and a worker is requested exactly if none was scheduled |
| QueueOutcomes.PushCompacts | src/input.cpp:2393-2413 | in a full queue the oldest reaching entry is combined into the one it reaches, at the later place with the earlier time, before anything is dropped |
| QueueOutcomes.PushDrops | src/input.cpp:2415-2424 | in a full queue with nothing to combine the oldest droppable motion goes |
| QueueOutcomes.WaitEnds | src/input.cpp:2426-2445 | a producer whose wait is over gets in last unless the queue was stopped |
| QueueOutcomes.PopKeepsTheRest | src/input.cpp:2458-2468 | what a pop leaves is a subsequence of the queue, and the rest is the coalesced count |
| QueueTimes.PushKeepsTimes | src/input.cpp:2381-2445 | a push keeps every channel's entries in the order of their receipt times |
| QueueTimes.PopCarriesEarliest | src/input.cpp:2453-2475 | the delivered packet carries its entry's receipt time, and nothing of its channel in the queue is older |
| QueueTimes.RunKeepsTimes | src/input.cpp:2374-2497 | that order holds in every run under a clock that never goes back |
| QueueViews.MergeAtEarlier | src/input.cpp:2381-2391 | merging a packet into an earlier one past passable packets changes no edge, no sum between edges, no mask change, no channel's view and no cursor position at an edge |
| QueueViews.MergeAtLater | src/input.cpp:2395-2413 | the same when the merged packet stays at the later place |
| CursorTrack.MergeCursor | src/input.cpp:2381-2413 | a merge at either place moves the cursor at no edge and not at the end |
| QueueViews.SameViewSameMarks | src/input.cpp:2058-2200 | equal views of a channel imply the same changes of what its packets say (pad buttons; pen event, buttons and tool; touch events; sizes) and the same last packet |
| QueueViews.AppendKeepsViews | src/input.cpp:2436-2440 | indistinguishable streams stay so when both get the same new packet |
| PacketQueue.BoundedPacketQueue.constructor | src/input.cpp:2356-2370 | an accepting, empty queue with capacity at least 1 |
| PacketQueue.BoundedPacketQueue.Coalesce | src/input.cpp:2381-2391 | the scan from the back merges into the last partner or leaves the list alone |
| PacketQueue.BoundedPacketQueue.Compact | src/input.cpp:2394-2413 | the two nested loops merge the oldest pair at its later place, or leave the list alone when there is none |
| PacketQueue.BoundedPacketQueue.DropStaleMotion | src/input.cpp:2415-2424 | the oldest droppable motion is removed, if there is one |
| PacketQueue.BoundedPacketQueue.Push | src/input.cpp:2374-2446 | the whole new state and result of `push`, or waiting with nothing changed |
| PacketQueue.BoundedPacketQueue.FinishPush | src/input.cpp:2426-2446 | a producer whose wait is over appends, or is rejected after a stop, without scanning again |
| PacketQueue.BoundedPacketQueue.PushBack | src/input.cpp:2436-2445 | the packet goes last; a worker is requested exactly when none was scheduled |
| PacketQueue.BoundedPacketQueue.Pop | src/input.cpp:2448-2476 | the front packet with every compatible later one merged into it, up to the first barrier |
| PacketQueue.BoundedPacketQueue.WorkerFinished | src/input.cpp:2478-2485 | ownership is kept exactly while there is accepted work |
| PacketQueue.BoundedPacketQueue.Stop | src/input.cpp:2487-2492 | nothing queued, nothing accepted, the scheduled flag untouched |
| PacketQueue.BoundedPacketQueue.Resume | src/input.cpp:2494-2497 | only acceptance changes |
| QueueTrace.MergeLive | src/input.cpp:2381-2413 | either merge of `push` has a trace with the same history, the same drops and the new queue as its live packets |
| QueueTrace.DropLive | src/input.cpp:2415-2424 | dropping keeps everything accepted in its place in the trace and records exactly that packet as lost |
| QueueTrace.DrainLive | src/input.cpp:2458-2468 | the merge loop of `pop` changes no view of the history |
| QueueTrace.DeliverFront | src/input.cpp:2453-2475 | the delivered packet moves from the queued to the delivered part with the drops before it |
| QueueRuns.StepPreserves | src/input.cpp:2374-2497 | every operation, in any order and with any number of waiting producers, keeps the invariant that delivered and queued packets plus recorded drops explain everything accepted |
| QueueRuns.ReachableInv | src/input.cpp:2374-2497 | that invariant holds after every run |
| QueueTheorems.OnlyStaleMotionIsMissing | src/input.h:46-53 | after any run there is a way to put the recorded dropped motion back into the output that gives every view of the accepted stream: edges, sums, masks, channels and cursor |
| QueueTheorems.BoundedAndBalanced | src/input.cpp:2356-2446 | the queue never exceeds max(capacity, 1); accepted = delivered + queued + coalesced + dropped since the last stop |
| QueueTheorems.EdgesAreExact | src/input.h:46-53 | keys, buttons, text, arrivals, batteries and touch or pen transitions come out exactly as accepted: none lost, duplicated or reordered |
| QueueTheorems.PadsAreExact | src/input.cpp:2058-2144 | per pad the button changes, for the pen the changes of event, buttons and tool, for both the last state and the state before each edge, and the mask changes over all pads, are exactly those accepted |
| QueueTheorems.NothingDroppedNothingChanged | src/input.h:46-53 | while nothing had to be dropped the output has every view of the input: edges, sums, masks, channels and cursor |
| QueueTheorems.EveryChannelIsExact | src/input.cpp:2002-2200 | while nothing had to be dropped every finger, pen, pad, sensor and pointer shows the same changes and the same last packet |
| QueueTheorems.ClicksLandWhereAccepted | src/input.cpp:2211-2240 | unless mouse motion had to be dropped, every edge finds the cursor where it was accepted: relative and absolute motion keep their order |
| QueueTheorems.MotionIsConserved | src/input.cpp:1978-2050 | between consecutive edges accepted motion = motion out + motion dropped there; both scroll sums are conserved exactly; every packet stays in the signed 16-bit range by its type |
| QueueOutcomes.WaitsExactlyWhenNothingCanGive | src/input.cpp:2393-2434 | a producer waits if and only if the queue is full, no entry is the packet's partner, no entry reaches another and none is droppable, all said by positions and packet fields; waiting changes nothing |
| QueueOutcomes.WaitsBehindEdgesExactly | src/input.h:50-53 | the queue before a waiting producer is all edges if and only if it holds no controller state, scroll or pen move |
| QueueOutcomes.WaitsBehindScroll | src/input.cpp:2426-2434 | a run from the start after which a discrete packet waits although only a scroll is queued and nothing was dropped |
| QueueOutcomes.PopLeavesNoPartner | src/input.cpp:2458-2468 | after a pop a queued packet that combines with the delivered one stands behind a barrier |
| WorkerProtocol.AtMostOneWorker | src/input.cpp:2436-2485 | in every interleaving of producers, pool, worker, stop and resume at most one worker task is owed, pending or running |
| WorkerProtocol.OnlyIgnoredWorkIsLost | src/input.cpp:2508-2579 | from an owned queue a step loses ownership if and only if it is the finishing call whose result is ignored while work waits |
| WorkerProtocol.NoLostWakeup | src/input.cpp:2436-2485 | if resume never overtakes a worker from before the stop, except one that is injecting, accepted queued input always has its worker |
| WorkerProtocol.BlockedProducerHasWorker | src/input.cpp:2426-2434 | under that condition a full accepting queue always has an enabled worker step |
| WorkerProtocol.ResumeOvertakingLosesTheWorker | src/input.cpp:2511-2514 | a concrete run, for any two packets, after which accepted input has no worker |
| WorkerProtocol.AbandonedForever | src/input.cpp:2442-2445 | such a queue never gets a worker again, whatever happens next |
| WorkerProtocol.ResumeLosesExactly | src/input.cpp:2494-2514 | after a resume some continuation without another stop loses the worker if and only if a worker that is not injecting is owed, pending or running |
| KeyboardSpec.KpidRoundTrip | src/input.cpp:198-220 | code and flags byte are recovered from the packed identifier |
| Keyboard.KeyboardTracker.SendKeyAndModifiers | src/input.cpp:1209-1237 | the exact host events: synthetic modifiers down, the mapped key, synthetic modifiers up; only the key on release |
| Keyboard.KeyboardTracker.Passthrough | src/input.cpp:1264-1328 | the whole state after one key packet, with every early return and the repeat task it cancels and schedules |
| Keyboard.KeyboardTracker.RepeatKey | src/input.cpp:1246-1256 | a firing re-emits and reschedules itself exactly when the key is still pressed |
| Keyboard.KeyboardTracker.ResetKeyboardKeys | src/input.cpp:2626-2636 | every pressed key is released on the host through the current mapping, in table order |
| KeyboardTheorems.ReleaseOnHost | src/input.cpp:1223-1237 | a release removes exactly the image of the client key from the host's held keys |
| KeyboardTheorems.HeldKeysAreJustified | src/input.cpp:1246-1328 | in every interleaving of packets, repeats of any kind, cancellations and resets each key held on the host is the image of a client key marked pressed |
| KeyboardTheorems.NoStuckKeys | src/input.cpp:2626-2636 | after any run a reset leaves no key held on the host |
| KeyboardTheorems.SendingKey | src/input.cpp:1209-1237 | the host's held keys after sending: a press adds the mapped key and leaves the synthetic modifiers up, a release removes the mapped key |
| KeyboardLog.ModifierKeyCodes | src/input.cpp:138-146 | the nine modifier keys and their codes |
| KeyboardLog.PacketSends | src/input.cpp:1264-1328 | a press of a key that is up sends exactly one press of its image with its flags byte inside exactly the modifiers it wants, marks the key and schedules its repeat; a release of a key that is down sends exactly one release; every other packet, shortcuts included, sends and marks nothing |
| KeyboardLog.ReportedModifiersAreDown | src/input.cpp:1274-1293 | each modifier a client reports and that counts is either believed down or wanted, never both |
| KeyboardLog.RepeatSends | src/input.cpp:1246-1256 | a repeat of a key that is down sends exactly one more wrapped press and stays scheduled; a repeat of a key that is up sends nothing and is gone |
| KeyboardLog.ResetSends | src/input.cpp:2626-2636 | a reset sends exactly one release for each key that is down, with its image and flags byte, and leaves none down |
| KeyboardLog.PressesAreCounted | src/input.cpp:1246-1328 | over every run a host key is pressed exactly as often as keys with that image were pressed anew or repeated while down |
| KeyboardMirror.SyntheticLiftsNothing | src/input.cpp:1280-1293 | a synthetic modifier that is needed never lifts a host key that the client holds |
| KeyboardMirror.PacketKeepsRepeat | src/input.cpp:1297-1310 | the one scheduled repeat still needs its synthetic modifiers: every press of a modifier replaces it |
| KeyboardMirror.HostMirrorsClient | src/input.cpp:1246-1328 | over every interleaving of packets, scheduled repeats, cancellations and resets the keys held on the host are exactly the images of the keys the client holds, if no two used keys share a host key and none is bound to a foreign modifier where synthetic ones occur |
| KeyboardMirror.SharedKeyIsLifted | src/input.cpp:1059-1066 | of two used keys with one host key, by their bindings or as one key with two flags bytes, releasing one lifts it under the other |
| KeyboardMirror.BoundModifierIsLifted | src/input.cpp:1225-1236 | a key bound to a foreign modifier is lifted by the synthetic use of that modifier, its own included |
| KeyboardMirror.MirrorsExactly | src/input.cpp:1059-1328 | for any bindings and any used keys, the host mirrors the client in every run if and only if the keyboard is disabled or those two conditions hold |
| KeyboardMirror.DefaultBindings | src/config.cpp:862-866 | with the default bindings the conditions hold exactly when no used key has two flags bytes and no side-less modifier is used together with its left key |
| KeyboardTheorems.ModifiersStaySynchronized | src/input.cpp:1075-1157 | between resets, with at most one flags byte for each of the nine modifier keys, each shortcut bit is set exactly when one of its three side keys is pressed, in the modifier state and in the key table |
| KeyboardTheorems.SynchronizedExactly | src/input.cpp:1075-1328 | with given allowed flags bytes, every reset-free run stays synchronized if and only if the keyboard is disabled or each of the nine modifier keys has at most one |
| KeyboardTheorems.ResetDesynchronizes | src/input.cpp:2626-2636 | the records agree after a reset if and only if no modifier was down |
| KeyboardTheorems.TwoFlagsBytesDesynchronize | src/input.cpp:1295-1328 | any modifier key pressed with one flags byte and released with another leaves its bit and its table entry set with no side pressed |
| ConfigParser.CopyWithoutComments | src/config.cpp:955-968 | the copying loop drops every stretch from `#` to the line end |
| ConfigParser.SkipList | src/config.cpp:978-992 | the position behind the matching bracket, or the end |
| ConfigParser.LocateEntry | src/config.cpp:1005-1020 | where name and value of the next line lie, if it is an entry |
| ConfigParser.ReadOption | src/config.cpp:1004-1040 | the next position and the entry of one option |
| ConfigParser.ReadConfig | src/config.cpp:1045-1068 | the loop terminates on every text and keeps the first definition of each name |
| ConfigParser.PrintConfig | src/confighttp.cpp:3749-3752 | the printed lines of the entries in the order visited |
| ConfigParser.ConfigFile.PersistIfMissing | src/config.cpp:1070-1087 | the file changes exactly when the name was missing and the write succeeded, and then by the appended line |
| ConfigLaws.ListEndMoved | src/config.cpp:978-992 | scanning a bracketed stretch, then the rest, is scanning the whole |
| ConfigLaws.OptionMoved | src/config.cpp:1004-1040 | an option reads the same wherever its line reappears, unless it is an open list at the end of the text |
| ConfigLaws.ParseSuffix | src/config.cpp:1045-1068 | parsing from a position is parsing the remaining text alone |
| ConfigLaws.ParsedKeysAreGood | src/config.cpp:1010-1038 | every name ever read is non-empty, without `=`, `#`, line ends or outer blanks |
| ConfigRoundTrip.LineReadBack | src/config.cpp:1004-1040 | a printed line, whatever follows it, gives back its name, and its value if and only if the value is a single line or a closed list |
| ConfigRoundTrip.BadEntryIsLost | src/config.cpp:1045-1068 | the first entry that is not well formed loses its name or its value |
| ConfigRoundTrip.RoundTripExactly | src/confighttp.cpp:3749-3753 | for distinct names and any order, parsing the printed text returns the same map if and only if every entry is well formed |
| ConfigRoundTrip.SavingKeepsConfig | src/confighttp.cpp:3742-3753 | saving what was read keeps the configuration if and only if every value is a single line or a closed list |
| ConfigRoundTrip.BlankValueGrows | src/config.cpp:1016-1020 | a value of blanks comes back with one more blank |
| ConfigAppend.ClosedTextKept | src/config.cpp:1070-1087 | with every list closed the appended text parses to the old map plus exactly the new option, brackets in the value allowed |
| ConfigAppend.OpenTextLosesOption | src/config.cpp:1023-1033 | with a list open the new name is lost or gets another value, whatever brackets the value contains |
| ConfigAppend.AppendExactly | src/config.cpp:1070-1087 | for a fresh name without brackets and any single-line or closed-list value, appending adds exactly that option if and only if the old text closes all its lists |
| ConfigAppend.OpenListSwallows | src/config.cpp:1023-1038 | an open list takes the appended line into its own value, which is not the new one, and leaves too little text behind for the new value |
| ConfigAppend.BracketNameEscapes | src/config.cpp:978-992 | a name with a bracket can close the open list itself: a text, name and value for which appending works although a list is open |
| ConfigLayout.LineLayout | src/config.cpp:1004-1068 | indentation, blanks or tabs around `=`, a comment behind the value and either line end (a carriage return takes one more character with it) do not change what an entry defines |
| ConfigLayout.ListLayout | src/config.cpp:1022-1061 | a closed list over any lines defines its value, and parsing goes on behind the one character after its bracket |
| ConfigLayout.UnclosedListLayout | src/config.cpp:1022-1034 | a list that is never closed takes the rest of the text as its value, or defines nothing when its bracket is the last character |
| ConfigLayout.LinesPassedOver | src/config.cpp:1005-1020 | comment lines and lines without `=`, name or value define nothing |
| FramePacing.DeadlinePacer.PollNow | src/frame_pacing.cpp:42-61 | the whole result and the new index of a poll |
| FramePacing.DeadlinePacer.RecordImmediateOutput | src/frame_pacing.cpp:38-40 | the next deadline is one full period after the output |
| FramePacing.OffsetAtMost | src/frame_pacing.cpp:74-78 | a deadline is at most e nanoseconds after the epoch exactly when its exact time is below e + 1 |
| FramePacing.ProductsFit | src/frame_pacing.cpp:49-77 | the 128-bit products never overflow |
| FramePacing.PollOnSchedule | src/frame_pacing.cpp:42-68 | a poll is due exactly from the deadline on; scheduled time <= now <= next deadline afterwards; the index advances by the missed deadlines and one |
| FramePacing.EveryDeadlineAccountedFor | src/frame_pacing.cpp:33-61 | over any polls the indices strictly increase, every output is on its own deadline and not early, and outputs plus missed equal the index advance |
| FramePacing.ScheduleFromReset | src/frame_pacing.cpp:33-61 | after a reset, outputs plus missed equal the next index minus one, and every output is scheduled at its own deadline counted from the given epoch |
| FramePacing.FirstDeadline | src/frame_pacing.cpp:33-40 | after a reset the first deadline is one period after the given epoch |
| FramePacing.InvalidRateIsNeverDue | src/frame_pacing.cpp:25-46 | a rate with a zero part is never due and changes nothing |
| FramePacing.DeadlineIsClamped | src/frame_pacing.cpp:74-78 | offsets beyond 64-bit nanoseconds stay at the greatest that fits |
| FramePacing.NoDrift | src/frame_pacing.cpp:74-78 | any two deadlines m apart differ from m exact periods by less than one nanosecond |
| FramePacing.NeverFasterThanRate | src/frame_pacing.cpp:42-61 | outputs by e nanoseconds, even counting the missed ones, stay below (e + 1) times the rate |
| PacingBursts.AtMostTwoAtOnce | src/frame_pacing.cpp:42-68 | where a period and a unit last at least a nanosecond, a second output at one instant happens if and only if the next deadline is a floor tie, misses nothing, and no third follows |
| PacingBursts.NoBursts | src/frame_pacing.cpp:42-68 | any number of polls at one instant give at most `most` outputs if most - 1 periods and a unit last at least a nanosecond |
| PacingBursts.BurstRun | src/frame_pacing.cpp:42-78 | for every other rate, a run from a reset with most + 1 outputs at one instant |
| PacingBursts.BurstsExactly | src/frame_pacing.cpp:42-78 | for every rate and every most: at most that many outputs at one instant, from any state or from a reset, if and only if numerator <= (most - 1) * ticks + gcd(numerator, ticks) |
| PacingBursts.TwoAtOnceExactly | src/frame_pacing.cpp:42-78 | at most two outputs at one instant if and only if numerator <= ticks + gcd(numerator, ticks) |
| PacingBursts.OneAtOnceExactly | src/frame_pacing.cpp:42-78 | never two outputs at one instant if and only if the period is a whole number of nanoseconds |
| PacingBursts.SubNanosecondBurst | src/frame_pacing.cpp:42-61 | at four frames per nanosecond the greatest burst is four, at 1.1 frames per nanosecond still two |
| AdaptiveBitrate.BitrateController.ObserveSample | src/adaptive_bitrate.h:173-231 | the whole new state and decision of an observation, with 32-bit wrapping written out |
| AdaptiveBitrate.BitrateController.Reduce | src/adaptive_bitrate.h:250-260 | the cut envelope, and whether the target changed |
| AdaptiveBitrate.BitrateController.ClearWindow | src/adaptive_bitrate.h:265-271 | all five aggregates are zero, all else unchanged |
| BitrateHistory.MakeEnvelopeOrdered | src/adaptive_bitrate.h:65-83 | every envelope made is ordered: 1 <= minimum <= target <= peak <= maximum and 1 <= vbv <= target |
| BitrateHistory.NothingWraps | src/adaptive_bitrate.h:222-253 | up to a maximum of 2^32/20 no 32-bit product, difference or sum wraps |
| BitrateHistory.RaiseExactly | src/adaptive_bitrate.h:222-224 | a raise goes up if and only if its 32-bit sum does not wrap, which it never does up to 4090445044 |
| BitrateHistory.CutBounds | src/adaptive_bitrate.h:250-260 | a cut is at most the percentage or 1, never below the minimum, and changes the target unless it is there already |
| BitrateHistory.RaiseBounds | src/adaptive_bitrate.h:222-224 | a raise is strict, at most 5% or 1, never above the maximum |
| BitrateHistory.BoundedAndNoHunting | src/adaptive_bitrate.h:173-260 | for every sample history with a maximum up to 4090445044 the envelope stays ordered, every raise follows the required pressure-free windows, every step is small |
| BitrateHistory.RaiseWrapsToZero | src/adaptive_bitrate.h:217-225 | above that maximum two clean windows can bring the target to zero |
| BitrateHistory.OrderedExactly | src/adaptive_bitrate.h:173-260 | the envelope stays ordered in every history for a given maximum if and only if it is at most 4090445044 |
| BitrateTargets.MakeEnvelopeExactly | src/adaptive_bitrate.h:65-83 | limits in order are kept, others clamped; the stream starts at the initial target with its peak at the maximum and a buffer of one frame |
| BitrateTargets.HistoryDecides | src/adaptive_bitrate.h:173-260 | for every sample history each window's target is exactly what the windows before it call for: a fifth or a tenth down under pressure, a twentieth up after two clean windows that count, cooldowns and burst events included, and unchanged otherwise |
| BitrateTargets.CutTakesPercentage | src/adaptive_bitrate.h:250-253 | without wrapping, a cut takes exactly its percentage, at least one, not below the minimum |
| BitrateTargets.FullCutExactly | src/adaptive_bitrate.h:250-253 | the target after a cut is the full percentage below if and only if the 32-bit product does not wrap or the minimum catches both |
| BitrateTargets.DecisionTells | src/adaptive_bitrate.h:183-231 | every decision reports the state and target it leads to, whether the target changed, and the right reason |
| BitrateTargets.PeakAndBufferFollow | src/adaptive_bitrate.h:224-258 | a cut or raise takes the peak along and scales the buffer with the target; every other observation leaves the envelope alone |
| BitrateHistory.WindowsStartFresh | src/adaptive_bitrate.h:196-271 | every window starts with cleared aggregates |
| BitrateHistory.RaiseIsLate | src/adaptive_bitrate.h:198-221 | a raise comes at least three windows after any pressured one, four after persistent congestion, and never right after another raise |
| BitrateHistory.WindowJudgedBySamples | src/adaptive_bitrate.h:174-196 | a window is classified by the sum of its losses and the worst of its samples, stated on the samples themselves |
| BitrateHistory.CongestionReachesMinimum | src/adaptive_bitrate.h:173-203 | over every sample history whose windows are all persistently congested, each window lowers the target by at least one until it is the minimum |
| BitrateHistory.CleanInputReachesMaximum | src/adaptive_bitrate.h:173-231 | over every sample history whose windows are all free of pressure and that has no burst event, the target reaches the maximum within the cooldown plus two windows a step |
| LatencyRing.FixedRing.Reset | src/latency_diagnostics.h:46-53 | the ring represents the empty history |
| LatencyRing.FixedRing.Record | src/latency_diagnostics.h:60-70 | the ring represents the history with the clamped sample added |
| LatencyRing.FixedRing.Snapshot | src/latency_diagnostics.h:77-111 | count, window, average, percentiles and maximum, in milliseconds, are those of the full history and its last samples |
| LatencyRing.SortInPlace | src/latency_diagnostics.h:85-93 | the prefix is sorted in place, the rest of the array untouched |
| LatencyRing.InsertAt | src/latency_diagnostics.h:86-92 | one inner loop inserts an element into the sorted prefix |
| LatencyRing.SortFacts | src/latency_diagnostics.h:85-93 | the sorted window is sorted and a permutation of the window |
| LatencyRing.RankIsCeiling | src/latency_diagnostics.h:95-101 | the rank is the ceiling of (w - 1) * q / 100, inside the window |
| LatencyRing.PercentileIsRank | src/latency_diagnostics.h:95-101 | the percentile is a sample with at least rank + 1 samples at or below and w - rank at or above it |
| LatencyRing.PercentilesOrdered | src/latency_diagnostics.h:102-110 | p50 <= p95 <= p99 <= max for every non-empty history |
| LatencyRing.StatisticsExactly | src/latency_diagnostics.h:77-111 | field by field for every non-empty history: counts, the average times the count is the sum while it fits 64 bits, p50, p95 and p99 are samples of the last window with the matching counts at or below and above, the maximum is the greatest sample of all |
| LatencyRing.NothingReported | src/latency_diagnostics.h:95-105 | an empty ring reports zeros |
| LockFreeMaximum.StepKeepsInv | src/latency_diagnostics.h:61-70 | every atomic step, spurious failures included, keeps the invariant, and the maximum never falls |
| LockFreeMaximum.MaximumIsRecorded | src/latency_diagnostics.h:67-69 | at any moment the maximum is zero or the value of a writer that has started |
| LockFreeMaximum.QuiescentRing | src/latency_diagnostics.h:61-70 | when all writers are done the maximum is exact, the total is exact modulo 2^64, and up to Capacity writes the slots hold exactly the written values |
| KeyValuesSpec.LineLength | scripts/steamshine-steam-cache.py:22 | a comment ends at the next newline or the end |
| KeyValues.VdfParser.ReadTokens | scripts/steamshine-steam-cache.py:21-33 | the token list of the text, or failure |
| KeyValues.VdfParser.ReadBlock | scripts/steamshine-steam-cache.py:36-59 | the object at the shared position and the position behind it, or failure |
| KeyValues.VdfParser.Parse | scripts/steamshine-steam-cache.py:19-61 | the document or failure, terminating on every text |
| KeyValuesTheorems.RenderedTokensParse | scripts/steamshine-steam-cache.py:36-61 | any document's tokens parse to its entries with later duplicates replacing earlier ones, exactly up to 16 levels |
| KeyValuesTheorems.AcceptsExactlyDocuments | scripts/steamshine-steam-cache.py:36-61 | a token list is accepted if and only if it is the tokens of a document of at most 16 levels, with that document's entries |
| KeyValuesTheorems.CutInsideObjectRejected | scripts/steamshine-steam-cache.py:57-58 | any token list with more openings than closings is rejected |
| KeyValuesTheorems.UnescapeEscape | scripts/steamshine-steam-cache.py:29 | escaping then unescaping returns any string |
| KeyValuesTheorems.TokenizeRender | scripts/steamshine-steam-cache.py:21-33 | written-out tokens with any blanks and comments between them tokenize to themselves |
| KeyValuesText.TokenizesExactly | scripts/steamshine-steam-cache.py:21-33 | a text is tokenized if and only if it is written in quoted strings, braces, blanks and comments, and then to the tokens these stand for |
| KeyValuesText.UnescapeByPieces | scripts/steamshine-steam-cache.py:29 | backslash and quote lose their backslash, every other pair and character stays |
| KeyValuesText.AsciiSpaces | scripts/steamshine-steam-cache.py:22 | which ASCII characters separate tokens |
| KeyValuesText.LastDefinitionWins | scripts/steamshine-steam-cache.py:41-59 | a parsed object has every key once, in the order of first definitions, with the value it was last given |
| KeyValuesTheorems.ParseInvertsRender | scripts/steamshine-steam-cache.py:19-61 | for every tree with distinct keys, any strings and any gaps, parsing its text returns the tree if and only if it has at most 16 levels, otherwise fails |
| DisplayState.DisplayHost.RevertMode | scripts/configure-steamos-client-display.py:250-272 | display and state file after a revert that may fail or die at any step |
| DisplayState.DisplayHost.ApplyMode | scripts/configure-steamos-client-display.py:221-247 | display and state file after an apply that may fail or die at any step |
| DisplayState.RevertKeepsRecoverable | scripts/configure-steamos-client-display.py:250-272 | whatever happens during a revert, the original stays recoverable, and a normal return has restored it |
| DisplayState.SwitchKeepsRecoverable | scripts/configure-steamos-client-display.py:221-247 | whatever happens while saving and switching, the original stays recoverable |
| DisplayState.CompletedApplySwitches | scripts/configure-steamos-client-display.py:221-247 | exactly when an apply returns normally, and that then the chosen mode is on the chosen output, the others are untouched and the state file holds what that output had |
| DisplayState.AlwaysRecoverable | scripts/configure-steamos-client-display.py:221-272 | after any run with any faults: no state file means the display is the original, a state file leads back to it, a revert that returns has restored it, and one without faults returns |
| DisplayState.AlwaysRecoverableAsPrinted | scripts/configure-steamos-client-display.py:221-272 | the same for scales printed to six digits, with nothing assumed |
| DisplayState.PrintedStably | scripts/configure-steamos-client-display.py:265 | printing a printed scale changes nothing, for all scales |
| DisplayState.NearestFiveDecimals | scripts/configure-steamos-client-display.py:265 | the digits printed of a scale from 1 to below 10 are the nearest ones, ties going to the even one |
| DisplayState.ExactScalesRestoreExactly | scripts/configure-steamos-client-display.py:221-272 | if all original scales survive printing, restored means equal |
| DisplayState.RoundTripExactly | scripts/configure-steamos-client-display.py:261-271 | apply then revert restores the display if and only if that output's scale survives printing |
| DisplayState.SurvivesSixDigits | scripts/configure-steamos-client-display.py:265 | a scale from 1 to below 10 survives exactly when it has at most five digits after the point, every other positive one exactly when it does scaled by ten |
| DisplayState.FractionalScaleIsRounded | scripts/configure-steamos-client-display.py:265 | a stored 4/3 does not survive, 1.25 does |
| RateLimiter.Limiter.ConsumeRateLimit | src/confighttp.cpp:696-708 | the new table and the decision for one request |
| RateLimiter.Limiter.RateLimitExhausted | src/confighttp.cpp:722-730 | the pruned table and whether the limit is reached |
| RateLimiter.Limiter.RecordRateLimitFailure | src/confighttp.cpp:738-741 | the failure goes last in its address's entry, whatever the limits |
| RateLimiter.Limiter.ClearRateLimit | src/confighttp.cpp:749-752 | the address's entry is gone, the others untouched |
| RateLimiter.PrunedIsLater | src/confighttp.cpp:700-702 | popping from the front keeps exactly the entries inside the window |
| RateLimiter.WindowIsExact | src/confighttp.cpp:696-730 | on every run the decisions, and the entry left behind, are those of a limiter that forgets nothing |
| RateLimiter.AddressesAreIndependent | src/confighttp.cpp:699 | an address's entry after a run is that of its own calls alone |
| RateLimiter.NoIntervalHoldsMore | src/confighttp.cpp:688-695 | no interval of the window's length, wherever it starts, holds more than the maximum of requests answered true, for an address that is not cleared |
| RateLimiter.AllowedAmongHistory | src/confighttp.cpp:696-708 | the requests answered true are among the history of an uncleared address, and all of it when no failures are recorded |
| RateLimiter.ClearForgets | src/confighttp.cpp:749-752 | the maximum of requests, a clear and one more request are all allowed at one instant, for any maximum and window |
| RateLimiter.RefusedOnlyWhenFull | src/confighttp.cpp:703-707 | a request of an address that is neither cleared nor failure-recorded is refused if and only if exactly the maximum of requests answered true lie in its window |

## Left out

- Packet bytes: packets are datatype values that have passed `validate_input_packet`; sizes, endianness and struct layout are not part of this model.
- The increment of an erased list iterator (`src/input.cpp:2396-2404`): the model works on indices and leaves the loop there.
- Condition variables and mutexes: each queue call is one atomic step, and a wait is two steps with anything in between.
- Delivery of packets to the operating system after `pop` and the thread pool itself, which is a bag of pending tasks.
- `received_at` and the clock: a parameter of each push.
- The process-wide counters of coalesced and dropped packets and the queue depth statistics.
- Packet histories across a stop: `stop` discards queued packets, so the history and its theorems start again there.
- KeyboardTheorems.HeldKeysAreJustified: keybindings are fixed during a run; rebinding while keys are held is not modelled.
- Cancelling the repeat task is a step that may happen at any time and takes effect at once; the races that cancelling from another thread can have with a task that is just running are not modelled. One client: the key table is shared by clients, the modifier state is not.
- KeyboardTheorems.ModifiersStaySynchronized: needs one flags byte per modifier key and no reset in between, because it is false without either (`SynchronizedExactly`, `ResetDesynchronizes`).
- KeyboardMirror.HostMirrorsClient: needs its two conditions on the keys in use, because it is false without either (`MirrorsExactly`).
- The effects of keyboard shortcuts on display and cursor: only which keys they consume.
- Mouse button tracking, gamepads, touch and pen coordinate mapping (floating point).
- ConfigAppend.AppendExactly: the name has no brackets, since one could close a list that the old text leaves open and the option be added all the same (`BracketNameEscapes`); `ClosedTextKept` has no such restriction.
- Merging request fields into the saved configuration, and everything else in the HTTP layer: routes, authentication, sessions, cookies.
- `pos += 2` behind a final `\r` (`src/config.cpp:1057`) moves the iterator past the end; the model lets the position exceed the length and stops.
- FramePacing.PollOnSchedule: stated while the index fits 64 bits and offsets stay below the 64-bit nanosecond clamp (292 years); time points are unbounded integers, so the addition to the epoch does not overflow.
- BitrateHistory.BoundedAndNoHunting: maxima above 4090445044 kbit/s are excluded, since the ordering fails for each of them (`OrderedExactly`).
- BitrateHistory.WindowJudgedBySamples: the losses of one window sum to less than 2^32; beyond that the wrapped sum is what the code judges.
- LatencyRing.FixedRing.Record: fewer than 2^64 records since the reset.
- LatencyRing.FixedRing.Snapshot: sequential, with exact reals for the floating-point milliseconds; a snapshot racing with writers is left out.
- LockFreeMaximum.QuiescentRing: memory orders weaker than interleaving are not modelled, and neither is the wrap of the sample counter after 2^64 writes.
- Steam library lookup, caching, mounting and copying in the Python scripts, apart from the parser.
- Choosing the output and mode from the configuration, as well as sessions that stream a virtual display (both calls then do nothing): a call is given the choice, or that choosing failed.
- Changes of the display by anyone else between calls, and outputs that disappear.
- The temporary file of the atomic save: it is not read by either call, so dying before the rename is dying before the save.
- DisplayState.SurvivesSixDigits: decimal numbers are exact reals; the rounding to and from binary floating point around them is not modelled.
- RateLimiter.WindowIsExact: the clock is monotone in the order of the calls; the code reads it before taking the lock, so two requests could be recorded out of order.
- RateLimiter.NoIntervalHoldsMore: not for addresses that are cleared, because it is false for them (`ClearForgets`). Recorded failures themselves are not limited in number.
- Codec and HDR policy tables, audio, video encoding, process launching, operating system services.
