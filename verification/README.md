# go-mtec2mqtt: a verified model of the bridge's protocols and transformations

The bridge polls an energy inverter over Modbus, publishes what it reads over MQTT, announces itself to
Home Assistant and writes commands back. This project models the parts of it in which a mistake is
easiest to make and hardest to see, and proves what they promise: the concurrent protocols as step
systems (every channel operation and every atomic load or store is one event, a run is one
interleaving), the loops as methods proved against specifications, and the transformations as functions
with round trips and exact conditions.

| file | what it models |
|---|---|
| `WriteQueue.dfy` | the bounded write queue: many callers, drop-oldest, one worker with retries, reply channels |
| `WriteQueueLiveness.dfy` | what the queue promises in endless runs |
| `Discovery.dfy` | the discovery generation protocol between births, reconnects and the publisher |
| `BatteryMode.dfy` | the evcc battery mode: commands, worker, saved operation mode, watchdog |
| `LiveStore.dfy` | the live store: merging updates, coalescing wake-ups, subscribing and cancelling |
| `Registers.dfy`, `Options.dfy` | catalogue entries |
| `Clusters.dfy` | packing registers into read windows |
| `Utf8.dfy`, `Decode.dfy`, `ByteTexts.dfy` | UTF-8; from words to values; the numbers and marks in byte and date texts |
| `Reader.dfy` | reading a group in clusters; from an output key back to its register |
| `Numerals.dfy`, `Spelling.dfy` | reading numerals; what a spelled numeral means, by place value |
| `Loader.dfy`, `LoaderRules.dfy` | building the catalogue from decoded entries; which entries are kept, and why the others are not |
| `Text.dfy`, `BitField.dfy`, `Labels.dfy` | joining, splitting, trimming and letter case; bits; fault names and labels |
| `Templates.dfy` | the value templates for Home Assistant as the trees they denote, with an interpreter |
| `StatusTemplate.dfy` | rewriting catalogue templates for the status object |
| `WriteValue.dfy` | from a command's text to the word on the wire |
| `VirtualSwitch.dfy` | the synthetic charge and discharge switches |
| `Rotation.dfy` | the round robin over the secondary groups |

## What the proofs found

- A birth *can* be lost, although the comment at internal/coordinator/coordinator.go:654-657 says it
  cannot: a thread may bump the generation and clear the flag between the publisher's compare and its
  `Store(true)`. `Discovery.BirthCanBeLost` is such a run, `Discovery.LostExactlyWhenOvertaken` says on
  events alone exactly when it happens.
- The last battery mode command does not always win. A repeated command is compared with the mode last
  *applied*, not with the one last queued (`BatteryMode.CommandCanBeLost` is a run that loses it), and
  the decision is taken under the lock but queued after it, so a fallback decided earlier can be queued
  later (`BatteryMode.FallbackCanOvertake`). `BatteryMode.LastCommandWins` says exactly when a command is
  sure to win, whatever the order of the sends.
- A mode write that took effect but reported an error costs the operator's own mode if and only if the
  battery was in normal, whatever attempt it was and whatever follows short of another write lost in
  normal (`BatteryMode.LostWriteForgetsOperator`; `BatteryMode.OperatorModeCanBeForgotten` is such a
  run). In hold and charge it only puts the register at odds with the mode until the next completed
  change (`BatteryMode.LostWriteUntilNextChange`).
- Greedy clustering is optimal for overlapping registers as well, as long as no register is longer than
  a read (`Clusters.FewestReads`).
- An entry that is skipped late keeps its address claimed (`Loader.ClaimedAndLost`), and key "00" is
  stored by address although it does not count as a Modbus register (`Loader.ZeroSpelledTwice`; exactly
  when is `Loader.ZeroMustBeSpelledPlainly`).
- When the tick counter wraps, one secondary group is missed once in five ticks
  (`Rotation.FiveTicksPollAll`).

## Assumptions

- Successful Modbus reads return exactly the words asked for; one poll sees one state of the memory.
- Floating-point numbers are exact real numbers; reading a numeral stops at the range of float64. Of
  printing (`strconv.FormatFloat`) only what it makes of whole numbers and tenths is assumed.
- The discovery document builds and fits the broker (internal/coordinator/coordinator.go:932, 942 and
  1038 store true otherwise), and the generation does not wrap at 2^64.
- Outside normal nobody but the bridge changes the battery's mode register, and in normal nobody does
  between the worker's read of it and the end of its change. A mode write that reports an error had no
  effect, except where a lost write is the subject.
- The endless runs of `BatteryMode` are fair in the way their lemmas spell out: from some moment on
  commands stop, the queue has room and register accesses work; the worker and the senders move, the
  watchdog ticks and the clock does not run backwards. Before that moment mode changes may be dropped
  from a full queue or refused at any time.
- The endless runs of `WriteQueueLiveness` are fair to the worker while there is work, and to a call that
  has dropped a command and is about to tell it.
- A subscriber of the live store takes a snapshot after subscribing and after each wake-up.

## Model

| member | source | states |
|---|---|---|
| WriteQueue.HeadLeaves | internal/coordinator/coordinator.go:788-797 | the head of the channel is the oldest request nobody has removed; it was neither taken nor dropped |
| WriteQueue.PushKeepsValid | internal/coordinator/coordinator.go:784-787 | a send that finds room keeps the FIFO record: every removed request was taken or dropped, never both, taken ones in order |
| WriteQueue.DropHeadKeepsValid | internal/coordinator/coordinator.go:788-795 | receiving the head to drop it keeps the FIFO record |
| WriteQueue.TakeHeadKeepsValid | internal/coordinator/coordinator.go:1114-1115 | the worker's receive keeps the FIFO record |
| WriteQueue.FifoStep | internal/coordinator/coordinator.go:780-801 | every event of every caller and of the worker keeps the record, and a request has a place in line exactly when its call was accepted |
| WriteQueue.AnsweredStep | internal/coordinator/coordinator.go:323-331 | every event keeps: no request is answered twice, superseded answers belong to dropped requests, an unanswered dropped request is in the hand of the call that dropped it |
| WriteQueue.DispatchedStep | internal/coordinator/coordinator.go:1144-1167 | every event keeps: at most three dispatches of a command, and the outcome Success exactly when one of them worked |
| WriteQueue.ReturnedStep | internal/coordinator/web.go:170-187 | every event keeps: what a finished call returned is its own outcome |
| WriteQueue.RoundsStep | internal/coordinator/coordinator.go:780-801 | every event keeps the count of rounds against commands accepted meanwhile |
| WriteQueue.OrderStep | internal/coordinator/coordinator.go:1106-1136 | every event keeps: the worker holds what it took last, and the dispatches follow the order of acceptance |
| WriteQueue.InvStep | internal/coordinator/coordinator.go:780-801 | the conjunction of these invariants is inductive |
| WriteQueue.EveryRun | internal/coordinator/coordinator.go:1106-1136 | the invariants hold in every reachable state |
| WriteQueue.ExactlyOnePlace | internal/coordinator/coordinator.go:780-801 | in every reachable state each request is in exactly one of: pending, queued, in the worker's hand, answered by the worker, dropped, refused, served without a worker |
| WriteQueue.OneAnswerEach | internal/coordinator/coordinator.go:306-331 | at most one answer each; superseded exactly to dropped requests, Success exactly to requests a dispatch of which worked; who still owes an answer |
| WriteQueue.ReplyFindsRoom | internal/coordinator/coordinator.go:323-331 | a reply never finds the reply channel full |
| WriteQueue.WriteIsHonest | internal/coordinator/web.go:170-187 | Write returns nil only if a dispatch of that very command worked, superseded only for a dropped one, queue full only for a refused one, neither ever dispatched |
| WriteQueue.ThreeTries | internal/coordinator/coordinator.go:1144-1167 | a command reaches the inverter three times at most and never again after success |
| WriteQueue.DispatchOrder | internal/coordinator/coordinator.go:780-801 | the worker takes commands in the order of acceptance, leaving out only dropped ones, and of two dispatches of accepted commands the later one never belongs to a command accepted earlier |
| WriteQueue.RefusalNeedsSevenOthers | internal/coordinator/coordinator.go:780-801 | a call is refused only if at least seven other commands were accepted during it |
| WriteQueue.DropsPaidByOthers | internal/coordinator/coordinator.go:780-801 | an accepted call drops at most one command more than were accepted while it ran |
| WriteQueue.SoleProducerIsServed | internal/coordinator/coordinator.go:780-801 | with one producer at a time no call is refused and none drops more than one command |
| WriteQueue.SoleProducersLastSurvives | internal/coordinator/coordinator.go:767-779 | between the calls of a sole producer its last command is queued or has gone to the worker |
| WriteQueue.CommandQueue.ReplyTo | internal/coordinator/coordinator.go:323-331 | an empty reply channel then holds the reply, a full one keeps what it held |
| WriteQueue.CommandQueue.EnqueueWrite | internal/coordinator/coordinator.go:780-801 | undisturbed, the command joins the end of the queue; a full queue loses its oldest command, whose caller is told unless a reply is already waiting |
| WriteQueue.DispatchWriteRetrying | internal/coordinator/coordinator.go:1144-1186 | every attempt but the last failed transiently and its wait was not cancelled; the outcome says how the last one ended |
| WriteQueue.UndisturbedCall | internal/coordinator/coordinator.go:780-801 | the run of one call's own events in the step system leaves the queue, the replies and the caller as the sequential method does |
| WriteQueueLiveness.WorkerGetsThere | internal/coordinator/coordinator.go:1106-1136 | in every fair endless run the worker gets as far as asked or runs out of work |
| WriteQueueLiveness.DroppedIsTold | internal/coordinator/coordinator.go:788-797 | the call that dropped a command tells it |
| WriteQueueLiveness.EveryCommandIsAnswered | internal/coordinator/coordinator.go:1106-1136 | in every fair endless run every accepted command is answered, and unless it was dropped the worker has dispatched it |
| WriteQueueLiveness.EveryWriteGetsItsAnswer | internal/coordinator/web.go:170-187 | no waiting Write waits for ever: its answer comes, or it has returned by itself |
| Discovery.InvStep | internal/coordinator/coordinator.go:965-994 | what the publisher holds is not from the future, and every bump it missed has its Store(false) yet to come, event by event |
| Discovery.SentMeansFresh | internal/coordinator/coordinator.go:965-994 | in every reachable state discoverySent means the last publish sampled the current generation on the current runtime, unless a birth or reconnect is under way or one bumped and cleared between compare and store |
| Discovery.StalePassIsRepeated | internal/coordinator/coordinator.go:978-993 | a publish overtaken by a birth or reconnect before its compare leaves the flag false, and the next tick publishes again |
| Discovery.LostExactlyWhenOvertaken | internal/coordinator/coordinator.go:978-993 | for any events between compare and Store(true): afterwards the document is current if and only if no thread both bumped and cleared there |
| Discovery.BirthCanBeLost | internal/coordinator/coordinator.go:646-660 | a concrete run that loses a birth |
| Discovery.UndisturbedPass | internal/coordinator/coordinator.go:1052-1066 | an undisturbed pass over an unsent document makes it sent and fresh exactly when the publish succeeds |
| Discovery.HAPlane.OnMessage | internal/coordinator/coordinator.go:646-660 | a birth bumps and clears, every other message changes nothing; it is the two events of the step system |
| Discovery.HAPlane.ResetHAPlane | internal/coordinator/coordinator.go:1247-1257 | a reconnect swaps the runtime only when the factory gives one |
| Discovery.HAPlane.PublishOnline | internal/coordinator/coordinator.go:1296-1299 | swap, bump and clear, in this order, as in the step system |
| Discovery.HAPlane.Republish | internal/coordinator/coordinator.go:965-994 | one tick: nothing when sent, otherwise sent exactly when the publish succeeds and no birth came before the compare; births after it are overwritten |
| BatteryMode.InvStep | internal/coordinator/evcc.go:167-214 | every event keeps the link between applied mode, saved mode and register, and a completed change restores it |
| BatteryMode.BookedStep | internal/coordinator/evcc.go:167-214 | every event keeps what is remembered in step with what the worker carries, even while the register is off |
| BatteryMode.EveryChangeIsAccountedFor | internal/coordinator/evcc.go:125-265 | over every run and for each mode: what commands and fallbacks decided on is under way, finished, refused or dropped, none lost and none doubled |
| BatteryMode.EndsExactly | internal/coordinator/coordinator.go:1139-1186 | the worker lets go of a command exactly when it is applied or was already, has a final error, an error on its third try, or is cancelled |
| BatteryMode.ThreeTries | internal/coordinator/coordinator.go:1139-1167 | no run tries a command more than three times |
| BatteryMode.ModeMatchesRegister | internal/coordinator/evcc.go:167-214 | outside a change, hold means register 258 and charge 259; a saved mode exists exactly in hold and charge and is the operator's own |
| BatteryMode.AlwaysSomethingToRestore | internal/coordinator/evcc.go:189-193 | the branch with nothing to restore is unreachable |
| BatteryMode.NormalIsRestored | internal/coordinator/evcc.go:176-206 | whatever lies between, lost writes outside normal included, a return to normal restores what the register held when normal was left |
| BatteryMode.LostWriteForgetsOperator | internal/coordinator/evcc.go:176-206 | for every attempt and every run after a write that took effect but failed, lost writes outside normal included: a return to normal restores the operator's mode if and only if the battery was not in normal at that write |
| BatteryMode.LostWriteUntilNextChange | internal/coordinator/evcc.go:176-206 | in hold and charge such a write breaks the link between mode and register, and any completed change restores it |
| BatteryMode.OperatorModeCanBeForgotten | internal/coordinator/evcc.go:176-206 | a run from the start that ends in normal with hold's code in the register |
| BatteryMode.LastQueuedIsInForce | internal/coordinator/evcc.go:125-162 | whatever is queued last, command or fallback, is in force once the queue has drained |
| BatteryMode.LastCommandWins | internal/coordinator/evcc.go:149-162 | over all ways to drain the queue a command is sure to win if and only if everything decided before it and still to be queued asks for the same mode, and it is queued itself, or such a one is still to come, or the last mode on its way is the same |
| BatteryMode.CommandCanBeLost | internal/coordinator/evcc.go:149-155 | a run in which the last command is not queued and an earlier mode stays in force |
| BatteryMode.FallbackCanOvertake | internal/coordinator/evcc.go:245-263 | a run in which a queued command loses to a fallback decided before it |
| BatteryMode.FallbacksAreSpaced | internal/coordinator/evcc.go:237-265 | successive fallbacks are more than one timeout apart in every run |
| BatteryMode.WorkerGetsThere | internal/coordinator/coordinator.go:1106-1136 | in every fair endless run the worker reaches any given amount of work or runs out of it |
| BatteryMode.OthersAreFinished | internal/coordinator/evcc.go:237-265 | what was decided or queued when the commands stopped is worked off |
| BatteryMode.SendersFinish | internal/coordinator/evcc.go:149-162 | every command decided before the calm is queued some time |
| BatteryMode.FallbackArrives | internal/coordinator/evcc.go:248-263 | a decided fallback is queued before the watchdog ticks again |
| BatteryMode.UntilFallback | internal/coordinator/evcc.go:237-265 | until it falls back, the watchdog's clock and the applied mode stand still, and it does fall back |
| BatteryMode.ReturnArrives | internal/coordinator/evcc.go:189-206 | once only returns to normal are left, normal arrives |
| BatteryMode.BackToNormalForGood | internal/coordinator/evcc.go:237-265 | in every fair endless run in which commands stop, the queue has room and accesses work, the battery is in normal from some moment on, whatever was dropped, refused or failed before |
| BatteryMode.OperatorModeBackForGood | internal/coordinator/evcc.go:237-265 | and without lost writes the operator's own mode is in the register from some moment on |
| BatteryMode.Battery.OnEVCCSet | internal/coordinator/evcc.go:125-162 | a message that asks this inverter for a mode, by number or name, restarts the clock and is queued exactly when the mode is not the one applied; any other message changes nothing |
| BatteryMode.ParsesExactly | internal/evcc/evcc.go:209-224 | a text is read as normal, hold or charge if and only if it spells 1 or normal, 2 or hold, 3 or charge, in any case and with white space around it |
| BatteryMode.NameParses | internal/coordinator/evcc.go:167-171 | the mode put into the queue by name is the mode the worker reads back |
| BatteryMode.Battery.WatchdogTick | internal/coordinator/evcc.go:237-265 | a tick decides for a fallback exactly when the mode is not normal and the last command is more than the timeout ago |
| BatteryMode.UndisturbedHandlers | internal/coordinator/evcc.go:125-162 | a command and a tick of the watchdog decide in the step system what OnEVCCSet and WatchdogTick decide |
| BatteryMode.Battery.ApplyBatteryMode | internal/coordinator/evcc.go:167-214 | one dispatch on the fields and the register, with each way its accesses can end |
| BatteryMode.UndisturbedAttempt | internal/coordinator/evcc.go:167-232 | one undisturbed attempt of the worker does in the step system what ApplyBatteryMode does |
| LiveStore.InvStep | internal/state/store.go:115-146 | every event of updaters and subscribers keeps the channels and views in order |
| LiveStore.NoLostWakeup | internal/state/store.go:115-146 | a live subscriber behind the newest update has a wake-up buffered, is about to look, or will still be poked |
| LiveStore.NoSendOnClosed | internal/state/store.go:118-146 | no send meets a closed channel and no channel is closed twice |
| LiveStore.CancelIsIdempotent | internal/state/store.go:124-134 | a second cancel changes nothing |
| LiveStore.UndisturbedUpdate | internal/state/store.go:52-73 | an update with nothing in between leaves the view with it and one wake-up in every channel |
| LiveStore.UndisturbedLook | internal/state/store.go:76-134 | a woken subscriber takes its wake-up, sees the store as it is, and sleeps on an empty channel |
| LiveStore.UndisturbedFirstLook | internal/state/store.go:115-123 | a new subscriber looks first and sleeps on an empty channel |
| LiveStore.MergedHoldsLastValues | internal/state/store.go:52-61 | merging any sequence of partial updates leaves for each key the value of the last update that had it |
| LiveStore.MergedHoldsLastTime | internal/state/store.go:48-61 | a group's time is that of its last update, whatever keys it held |
| LiveStore.MergedHoldsLastIdentity | internal/state/store.go:65-73 | serial, firmware and equipment are those of the last update that set them, empty before the first |
| LiveStore.SnapshotShowsLastValues | internal/state/store.go:76-91 | a subscriber's snapshot shows exactly those values as of its version |
| LiveStore.Store.UpdateGroup | internal/state/store.go:52-63 | the group's new values replace its old ones key by key, other groups stay, every subscriber has a wake-up |
| LiveStore.Store.SetStatic | internal/state/store.go:65-73 | the three strings are replaced and every subscriber has a wake-up |
| LiveStore.Store.Notify | internal/state/store.go:137-146 | every live channel holds exactly one wake-up afterwards |
| LiveStore.Store.Snapshot | internal/state/store.go:76-91 | the copy equals the state and changes nothing |
| LiveStore.Store.Subscribe | internal/state/store.go:118-123 | a new channel, empty and open, beside the old ones |
| LiveStore.Store.Cancel | internal/state/store.go:124-134 | the channel is removed and closed once, others stay |
| Clusters.CollectEntries | internal/registers/cluster.go:45-66 | the Modbus registers, the first of each address, in catalogue order |
| Clusters.EntriesAreFirsts | internal/registers/cluster.go:50-60 | exactly the Modbus registers no earlier one shadows |
| Clusters.WordsFit | internal/registers/cluster.go:61-64 | a length that fits sixteen bits counts as it is, any other as one word |
| Clusters.ByAddressSorts | internal/registers/cluster.go:70-72 | sorting is strictly ascending and loses nothing |
| Clusters.OrderIsUnique | internal/registers/cluster.go:70-72 | there is one such order, however it is found |
| Clusters.Clusterize | internal/registers/cluster.go:45-107 | the loop with its moving end computes the greedy packing of the sorted entries |
| Clusters.PackKeepsAll | internal/registers/cluster.go:75-106 | the windows hold exactly the packed registers in order |
| Clusters.ClustersCoverGroup | internal/registers/cluster.go:45-107 | windows cover the first definitions in strictly ascending order, each tightly; for loader-valid registers every read has 1 to 125 words and ends within the address space |
| Clusters.FewestReads | internal/registers/cluster.go:75-106 | no split of the ordered registers into windows with holes of at most 10 words and at most 125 words uses fewer windows, overlapping registers included |
| Utf8.ValidExactly | internal/registers/decode.go:187-197 | bytes count as UTF-8 if and only if they encode a text, and then they read as this text and no other |
| Decode.DecodeStr | internal/registers/decode.go:169-200 | the bytes of the words without padding, as UTF-8 or else one character a byte, then without spaces and NULs at the end |
| Decode.StoredTextReadsBack | internal/registers/decode.go:166-200 | a text stored as UTF-8 in the words of a STR register reads back, whatever NULs and 0xFF the device pads it with |
| Decode.DecodesWhenTypeFits | internal/registers/decode.go:34-94 | exactly when a register decodes and with which error it does not: one word at least, as many as it declares, and a number of words its type can use |
| Decode.SignExtension | internal/registers/decode.go:99-112 | two's complement on 16 and 32 bits: congruent, and in the signed range |
| Decode.IntegersAreBigEndian | internal/registers/decode.go:34-112 | per type: an unsigned integer is the big-endian number of its words, a signed one its two's complement |
| Decode.ScalingDivides | internal/registers/decode.go:80-93 | a scaled value times the scale is the unscaled integer; nothing but integers is scaled |
| ByteTexts.DateReads | internal/registers/decode.go:161-164 | a DAT register reads as its six bytes in the layout yy-mm-dd hh:mm:ss, two digits at least each |
| ByteTexts.BytesRead | internal/registers/decode.go:120-142 | a BYTE register reads exactly with one, two or four words, as their bytes in order, in the layout of the source |
| Reader.DecodeClusterInto | internal/modbus/reader.go:94-117 | adds a cluster's values and errors to those before |
| Reader.ReadGroup | internal/modbus/reader.go:64-92 | the map and the errors of all clusters, failing reads included |
| Reader.MemberReadsAlone | internal/modbus/reader.go:94-148 | a member decoded from its cluster's words has the value it has when read alone |
| Reader.GroupReadRefinesSingleReads | internal/modbus/reader.go:64-115 | for any memory and any failing reads: exactly the registers whose cluster was read, each with the value it has when read alone, and no error if and only if no read failed |
| Reader.PublishedIsLast | internal/modbus/reader.go:94-117 | of several values for one key the map holds the last one |
| Reader.FoundHasKey | internal/coordinator/process.go:235-252 | a register found under a key has that output key, and only a key nobody has finds none |
| Reader.KeysLeadBack | internal/coordinator/process.go:235-252 | every output key leads back to its own register if and only if no two registers share one |
| Loader.Parse | internal/registers/load.go:194-372 | the loop over the entries, with its seen-sets and diagnostics |
| Loader.RefusedByEntry | internal/registers/load.go:314-319 | a file is refused if and only if some entry passes the early checks with an outdated group, and that entry is the one reported |
| Loader.EveryCatalogue | internal/registers/load.go:219-370 | every loaded catalogue is consistent, for any entries |
| Loader.CatalogueIsConsistent | internal/registers/load.go:219-370 | distinct keys, addresses and MQTT suffixes; every lookup gives back each kept register itself; groups in first-encounter order |
| Loader.GroupsOfOnce | internal/registers/load.go:360-370 | each group once, exactly the groups that occur |
| LoaderRules.KeptExactly | internal/registers/load.go:219-370 | of a file that loads, an entry is kept if and only if it is sound, no kept entry before it has its key or MQTT suffix, no sound entry before it spells its address, and its topics are safe |
| LoaderRules.EveryEntryIsAccountedFor | internal/registers/load.go:219-370 | the catalogue is the kept entries as written, with the documented defaults and in the file's order; every other entry is reported once, in order, with a reason that holds |
| LoaderRules.NotesExactly | internal/registers/load.go:241-340 | a note about an unknown field or a slash in a topic is made if and only if an entry that gets that far calls for it |
| Loader.KeptRegistersDecode | internal/registers/load.go:134-192 | a window of a kept register's declared length always decodes, and its read is legal |
| Loader.LoadedGroupsCanBeRead | internal/registers/load.go:134-192 | a loaded group meets what GroupReadRefinesSingleReads asks, up to distinct output keys |
| Loader.AddressGoesToFirstClaimant | internal/registers/load.go:296-356 | an address belongs to the first sound entry that names it; it is served exactly when this entry passes the late checks, and then by its register |
| Loader.UnnamedIsFree | internal/registers/load.go:301-308 | an address no sound entry names is claimed by nobody |
| Loader.ClaimedAndLost | internal/registers/load.go:300-356 | two concrete entries of which none is kept, although the second alone would be |
| Loader.ZeroMustBeSpelledPlainly | internal/registers/register.go:209 | exactly which numeric keys count as Modbus registers |
| Loader.ZeroSpelledTwice | internal/registers/register.go:209 | a concrete entry with key "00" that is kept and stored under address 0 but is no Modbus register |
| Text.SplitJoin | internal/hass/hamqtt.go:466-470 | splitting at ", " undoes joining when no part contains the separator |
| Text.JoinSplit | internal/hass/hamqtt.go:466-470 | joining undoes splitting for every text |
| Text.PaddedTrims | internal/modbus/reader.go:170-201 | white space around a text is all that trimming takes away |
| Text.SpellsExactly | internal/evcc/evcc.go:213-223 | trimming and lowering decide exactly which word a text spells, in any case and with white space around it |
| BitField.MeetIsAnd | internal/coordinator/process.go:190-194 | the masked field is non-zero exactly when mask and field share a bit |
| BitField.AndNotBits | internal/coordinator/process.go:192 | clearing a mask clears exactly its bits |
| BitField.FormatRoundTrip | internal/registers/decode.go:144-153 | the decoder's text, flattened and parsed in base 2, is the big-endian number of the words |
| BitField.FieldReads | internal/registers/decode.go:66-67 | a BIT register reads as a text that holds the big-endian number of all its words |
| BitField.FieldLayout | internal/registers/decode.go:144-153 | each word in its place, sixteen binary digits, one space between |
| Labels.SortInts | internal/coordinator/process.go:304-310 | the in-place insertion sort computes the sorted array |
| Labels.SortedIsOrdered | internal/coordinator/process.go:304-310 | ordered, and a permutation |
| Labels.SortedKeys | internal/coordinator/process.go:178-185 | the ascending list of the masks, whatever order the map yields them in |
| Labels.DecodeCode | internal/coordinator/process.go:154-207 | label and unmapped rest of any value |
| Labels.CodesAreLabelled | internal/coordinator/process.go:154-162 | a value that carries the integer n shows the label of n, or Unknown and n when n has none |
| Labels.AllCarry | internal/coordinator/process.go:221-233 | every value but a text carries an integer, a scaled one the integer next to it on the side of zero |
| Labels.WordShowsLabel | internal/coordinator/process.go:154-159 | from the words: a register of one unscaled word shows the label of its word |
| Labels.TruncatesTowardsZero | internal/coordinator/process.go:221-233 | a scaled value is cut towards zero before its code is looked up |
| Labels.OKIsProven | internal/coordinator/process.go:163-177 | any text reads OK if and only if it is blank or a binary number equal to zero, given no label says OK |
| Labels.FaultsAreNamed | internal/coordinator/process.go:178-207 | the label lists exactly the positive masks that meet the field, ascending; exactly the bits no mask covers are reported |
| Labels.FieldDecodes | internal/coordinator/process.go:163-177 | from the words: a BIT register decodes to OK when all its words are zero and to the faults of their number otherwise |
| Labels.OKMeansNoFault | internal/coordinator/process.go:139-153 | a BIT register reads OK if and only if all its words are zero, given no label says OK |
| Labels.UnknownMeansUnnamed | internal/coordinator/process.go:139-153 | a BIT register reads Unknown if and only if it is not zero and no mask meets the number of its words |
| Templates.ValueItemsEnum | internal/hass/hamqtt.go:336-351 | tokens in ascending order of code, each with the label of a code that has it |
| Templates.BitFieldValueTemplate | internal/hass/hamqtt.go:448-471 | the template, with or without dictionary, as a tree |
| Templates.EnumValueTemplate | internal/hass/hamqtt.go:421-436 | the template as a tree |
| Templates.LabelOfLanguage | internal/registers/register.go:185-201 | the label of a code is the German one exactly when German is asked for and the code has one that is not empty, otherwise the English one |
| Templates.BitFieldShows | internal/hass/hamqtt.go:448-471 | run on any message it never fails; both forms translate a readable message name by name, anything else shows None |
| Templates.TemplateShowsWebLabel | internal/hass/hamqtt.go:437-471 | for every value, the template applied to the English wire value shows what the web UI shows in the language, and None for Unknown |
| Templates.WireTranslates | internal/coordinator/process.go:275-278 | the wire value is never empty and reads, name by name, as the label of the language |
| Templates.EnumShows | internal/hass/hamqtt.go:421-436 | run on any message it never fails; a token shows its label, anything else None |
| Templates.EnumShowsLabel | internal/hass/hamqtt.go:406-436 | a value that carries a known code shows that code's label in the language, an unknown code None |
| Templates.AllLabelsShow | internal/hass/hamqtt.go:336-351 | every label shows if and only if no two codes share a token but not its translation |
| StatusTemplate.PiecesPartition | internal/hass/hamqtt.go:386-404 | the pieces are the text, cut into maximal runs and single other characters |
| StatusTemplate.WordCharacters | internal/hass/hamqtt.go:388-390 | the characters of an identifier, one by one |
| StatusTemplate.PiecesAreUnique | internal/hass/hamqtt.go:386-404 | there is only one such cut |
| StatusTemplate.PiecesOfRewrite | internal/hass/hamqtt.go:386-404 | the result's pieces are the text's in the same order, each run `value` replaced |
| StatusTemplate.RewriteIsIdempotent | internal/hass/hamqtt.go:376-385 | rewriting twice is rewriting once |
| StatusTemplate.NoBareIdentifierLeft | internal/hass/hamqtt.go:376-385 | no `value` stands on its own in the result |
| StatusTemplate.StatusTemplate | internal/hass/hamqtt.go:386-404 | the scan by index computes the rewriting by runs |
| Numerals.IntegerIsFloat | internal/modbus/reader.go:211-222 | the integer and the float reader agree on every integer numeral |
| Numerals.OverflowIsMidway | internal/modbus/reader.go:219-222 | a numeral is out of range from half-way between the largest float64 and the next power of two on |
| Numerals.FormatReads | internal/coordinator/virtual.go:55-64 | printing a whole number of tenths and reading it back gives the number, up to the range of float64 |
| Spelling.NumeralReads | internal/modbus/reader.go:219-222 | a numeral - sign, decimal or hexadecimal digits, point, exponent - reads as its digits by place value times its power, or is out of range |
| Spelling.ReadIsNumeral | internal/modbus/reader.go:219-222 | and nothing without underscores but such a numeral is read |
| Spelling.ReadThroughUnderscores | internal/modbus/reader.go:219-222 | underscores that separate digits change nothing, any others make the text no numeral |
| Spelling.OnlyUnderscoresGo | internal/modbus/reader.go:219-222 | removing underscores keeps every other character in its place |
| Spelling.ReadExactly | internal/modbus/reader.go:219-222 | a text is read as a number if and only if it denotes it |
| WriteValue.AcceptsExactly | internal/modbus/reader.go:207-230 | a text is written as w if and only if it denotes a number v with 0 <= v * scale <= 65535 and w is the floor of that product, whichever branch reads it; else it is refused |
| WriteValue.AdvertisedIsAccepted | internal/hass/hamqtt.go:485-494 | bounds are advertised exactly for registers not in percent, and a text is accepted if and only if it denotes a number within them |
| WriteValue.CodeForLabel | internal/registers/register.go:171-183 | some code with that English label, or failing that German one; none only if no code has it |
| WriteValue.WriteRegisterByMQTT | internal/modbus/reader.go:170-201 | what becomes of a command: the refusals in their order, the label's code, or the number |
| WriteValue.OptionIsItsCode | internal/modbus/reader.go:184-194 | given distinct labels, an option in either language is written as its own code and as no other |
| WriteValue.OptionIsWritten | internal/modbus/reader.go:170-198 | an option of a writable register, in either language and with white space around it, puts its code on the wire, or is refused when no word holds the code |
| WriteValue.NumberIsWritten | internal/modbus/reader.go:170-230 | a numeral of a writable register that is no label, with white space around it, puts the floor of its meaning times the scale on the wire, or is refused |
| VirtualSwitch.RemembersSeen | internal/coordinator/virtual.go:70-92 | after a poll a value is remembered if and only if the poll showed it above zero, or it was remembered and the poll showed nothing above zero |
| VirtualSwitch.FlagsAdded | internal/coordinator/virtual.go:70-92 | each switch whose target was shown gets its state, every other value stays |
| VirtualSwitch.OtherGroupsDoNothing | internal/coordinator/virtual.go:70-92 | a poll that shows no target of its group changes no memory and adds no state |
| VirtualSwitch.NumberShown | internal/coordinator/virtual.go:70-92 | what a poll remembers is the decoded number: times the scale it is the integer of the words |
| VirtualSwitch.NumbersAreCommands | internal/coordinator/virtual.go:97-108 | any numeral in the range of float64 is a command, on unless it is zero there |
| VirtualSwitch.PayloadsExactly | internal/coordinator/virtual.go:97-108 | a payload is a command for on if and only if it spells on, true, an infinity or NaN or denotes a number that is not zero, for off if and only if it spells off or false, is blank or denotes zero; no payload is both |
| VirtualSwitch.ZeroIsNearest | internal/coordinator/virtual.go:104-106 | a payload counts as zero when no float64 but zero is nearer to its number |
| VirtualSwitch.Coordinator.ApplyVirtualSwitches | internal/coordinator/virtual.go:70-92 | the loop that reads and writes the same map, in any order of the switches |
| VirtualSwitch.Coordinator.ActiveTargetValue | internal/coordinator/virtual.go:55-64 | the printed form of the remembered value, or of the configured one |
| VirtualSwitch.Coordinator.HandleVirtualWrite | internal/coordinator/virtual.go:40-50 | a payload that says on becomes a command for the target with the value to restore, one that says off a command for 0, any other is refused |
| VirtualSwitch.MemoryIsLastSeen | internal/coordinator/virtual.go:70-92 | over any run of polls and commands the memory is the last number above zero seen |
| VirtualSwitch.WordRoundTrip | internal/registers/decode.go:85-92 | decoding a word, printing the number, and parsing it as a command gives the word, for scales 1 and 10 |
| VirtualSwitch.NextOnRestores | internal/coordinator/virtual.go:40-92 | a non-zero word seen by a poll is written back exactly by the next payload that says on, after any commands and any polls showing zero or nothing |
| VirtualSwitch.OffWritesZero | internal/coordinator/virtual.go:40-50 | a payload that says off writes 0, whatever is remembered |
| VirtualSwitch.NothingSeenWritesConfigured | internal/coordinator/virtual.go:55-64 | with nothing remembered a payload that says on writes the configured number times the scale, or is refused when it does not fit |
| Rotation.Poller.Step | internal/coordinator/poll.go:83-88 | the n-th tick polls the group with index n modulo 2^32 modulo 5, for the counter that wraps on 32 signed bits |
| Rotation.CountsModulo | internal/coordinator/poll.go:103-110 | read as unsigned, the counter is the number of ticks modulo 2^32, wrap-around included |
| Rotation.FiveTicksPollAll | internal/coordinator/poll.go:83-88 | five consecutive ticks poll all five groups if and only if they do not span the wrap |
| Rotation.SixTicksPollAll | internal/coordinator/poll.go:83-88 | any six consecutive ticks of an endless run poll all five groups |

## Left out

- VirtualSwitch.NextOnRestores: not claimed for scale 100, where float64 arithmetic truncates (0.29 * 100 gives 28); exact numbers would hide it.
- WriteValue.AcceptsExactly: numbers are not rounded to float64, so a numeral with more digits than a float64 holds is taken at its exact value.
- Labels.DecodeCode: the register addresses 10008 and 10011, which get their own text, are not modelled; neither is the text a value outside the decoder's types would be printed as.
- Templates.TemplateShowsWebLabel: template text, quoting and the lexer of Jinja are not modelled; the trees are what the generated texts denote.
- Text.TrimSpace: white space and letter case beyond ASCII.
- Discovery.HAPlane.PublishOnline: the announcements and the replay of states after the flag is cleared.
- Discovery.SentMeansFresh: the generation's wrap at 2^64 and documents that are withheld or too large for the broker.
- go-hamqtt, go-mqtt, go-modbus and go-bridgeui: their inner workings (state deduplication, connection levels, command router, codec).
- dispatchWrite's choice between the three write paths, and setValue's normalisation of `set` payloads.
- Rounding of published floats to a precision, boolean registers, and state topics.
- Device document, entities, availability templates and identity strings.
- Configuration, YAML node handling and file search; the loader starts from decoded entries.
- Pseudo-registers, the equipment table, connect and start-up retries, evcc's derived values.
- Shutdown of the write worker while commands are still queued: they stay queued for the next worker.
