# network-scanner in Dafny

A model of the parts of the LAN scanner that carry invariants, with proofs of what they promise:

- **The ICMP stage** (`internal/icmpping`). One feeding goroutine, a pool of workers, a bounded job channel,
  one reader and the mutex-guarded `live`/`wait` table are a step relation (`IcmpModel`): every atomic action
  of a goroutine is a step, and timers, cancellation, replies, read errors and the scheduler are free choices.
  `IcmpInvariant` proves one inductive invariant, `IcmpTheorems` what it means for whole runs, `IcmpProgress`
  deadlock freedom and termination, `IcmpExact` why each goroutine stops and so how often each target is pinged,
  and `IcmpRuns` and `IcmpRetry` what a run can go on to do. The tracker is also a class with channel objects on
  the heap (`Tracker`), proved against the table the step relation uses (`TrackerTable`), and `pingOne` and
  `readReplies` are written as code over it (`IcmpWorker`). Duplicate targets are allowed: jobs are target
  positions, so two `pingOne` calls can share a wait channel.
- **The pipeline merge** (`internal/pipeline`, with `internal/device`) and what `main.go` does to the merged
  list. `Merge` has the merge step branch for branch, its left fold, and a declarative row specification that
  does not mention the fold; `MergeLaws` has its algebra; `Pipeline` the stages; `MergeHeap` the imperative
  code with arrays for Go's slices; `FinalList` the host names, `ensureSelf` and the sort.
- **The ARP send loop** (`internal/arpscan`): the burst cadence as a state machine (`Pacing`), and the injector
  with its retries, int64 backoff and the loop of `Scan` over a link that answers anything (`Injector`).
- **The interface-counter parsers** (`internal/sshprobe/ifaces.go`): cutting text into blocks and sections
  (`Blocks`), the Junos parser (`Junos`) and what a block means field by field (`JunosRows`), and the Cisco
  parser as code over counter objects (`Cisco`), proved against a table-by-table specification (`CiscoTable`),
  with what a single line does (`CiscoRows`), and shown to undo printing (`CiscoRoundTrip`). Names and numbers
  are in `IfaceText`.
- **Subnet enumeration** (`internal/iface`): `Subnet` and `Addr`, with blocks and usable addresses as in
  section 3.1 of RFC 4632, section 2.1 of RFC 3021 and section 3.2.1.3 of RFC 1122.

`Common`, `Arith` and `Text` are shared vocabulary. Check everything with `dafny verify dfyconfig.toml`.

## Findings

Places where the code does less than a reader might expect. The first four have lemmas with the exact condition.

- The repository's README says an address that replies is not retried. It can be: `RetryHappens` is a run in
  which an echo is answered and a second one is sent after the answer has been recorded, and `LateEchoHappens`
  one in which the only echo is sent after the answer. `LateEchoIff` has the exact condition, in every
  reachable state: another echo can follow the reply if and only if a worker is past its `replied` check for
  the target and has not written yet. `EchoBudget` says it is then one echo at most.
- Merging is not associative: Unknown, End, Network gives Network grouped left and Unknown grouped right
  (`TypeIsNotAssociative`). `AssociativeIff` says exactly for which rows the grouping matters.
- `injectBurstMin` is 2, but the limit can reach 1, because 3/2 is 1 (`NominalFloorIsBroken`, `BelowFloorIff`).
- The ENOBUFS backoff overflows int64 from retry 42 on: at most retries from there it is not positive, so the
  frame is retried at once (`BackoffIff` lists the retries at which it is still right). The 50 ms cap holds,
  and so does the pacing when only pauses of positive length are counted (`PacedInEarnest`).

One difference is between texts only and has no lemma: the repository's README describes the ARP sweep as a
worker pool, while the code has a single sender, and so has the model.

## Model

| member | source | states |
|---|---|---|
| IcmpModel.PreparedIsValid | internal/icmpping/icmpping.go:69-126 | when the stage starts, fails to listen or has nothing to do, exactly; a stage that starts keeps the targets, has the attempts asked for or 3, and as many workers as asked for or 64 but no more than targets |
| TrackerTable.GotReplyKeeps | internal/icmpping/icmpping.go:376-388 | recording a reply keeps the table consistent (a registered channel is closed exactly when its address is live, no channel is shared between addresses or closed twice), and every channel handed out earlier is still its address's |
| TrackerTable.WaiterKeeps | internal/icmpping/icmpping.go:390-406 | the same for asking for a wait channel; the channel returned belongs to the address, also when the reply came first |
| TrackerTable.ClosedIffLive | internal/icmpping/icmpping.go:390-406 | in a consistent table a channel handed out for an address is closed if and only if the address is live |
| Tracker.Chan.Close | internal/icmpping/icmpping.go:382-386 | closing needs an open channel, as Go panics otherwise |
| Tracker.Tracker.constructor | internal/icmpping/icmpping.go:369-374 | a new tracker is consistent and empty |
| Tracker.Tracker.GotReply | internal/icmpping/icmpping.go:376-388 | on the heap: the whole new table is the specified one, and no channel is closed a second time |
| Tracker.Tracker.Waiter | internal/icmpping/icmpping.go:390-406 | on the heap: the whole new table and the returned channel are the specified ones; the channel is closed exactly when the address is live, and stays a wait channel of its address from then on; at most one channel is made |
| Tracker.Tracker.Replied | internal/icmpping/icmpping.go:408-414 | true exactly for live addresses |
| Tracker.Tracker.LiveIPs | internal/icmpping/icmpping.go:416-425 | every live address once, in some order |
| IcmpInvariant.InitInv | internal/icmpping/icmpping.go:128-149 | the invariant holds before any goroutine has moved |
| IcmpInvariant.StepInv | internal/icmpping/icmpping.go:128-196 | every step of the feeder, a worker, the reader or the environment keeps the invariant |
| IcmpInvariant.RunInv | internal/icmpping/icmpping.go:69-197 | the invariant holds in every state of every run |
| IcmpTheorems.NoLostWakeup | internal/icmpping/icmpping.go:202-233 | in every reachable state a worker's channel is closed exactly when its address is live, whether the reply came before or after `waiter` and whoever shares the channel; so a worker in `select` can be woken by the reply exactly when there is one, by the context exactly when it is cancelled, and by its timer, and the first two end its job |
| IcmpTheorems.NoDoubleClose | internal/icmpping/icmpping.go:377-388 | over a whole run the log of close operations only grows and never names a channel twice |
| IcmpTheorems.WritesExclude | internal/icmpping/icmpping.go:218-220 | two workers are never both between Lock and Unlock of `writeMu` |
| IcmpTheorems.EchoBudget | internal/icmpping/icmpping.go:207-232 | a job never sends more than `attempts` echoes; after its address is live it sends at most one more, and that only if it was already past the `replied` check; after cancellation at most one more, and that only if it was already past the check of the context. That it does not send fewer either is `IcmpExact.EveryTargetIsPinged` |
| IcmpExact.PingExits | internal/icmpping/icmpping.go:210-232 | in every state of the invariant a step takes a job out of its loop exactly when its echoes are `attempts` or the context is cancelled at the first check, the address is live at the second, the echo cannot be encoded, or the select is left otherwise than by the timer |
| IcmpExact.PingEnds | internal/icmpping/icmpping.go:210-232 | whenever a worker's step takes a job from its loop to its end, the echoes sent for it are exactly `attempts`, or the context is cancelled, or the address is live, or the echo could not be encoded |
| IcmpExact.EndedIsExcused | internal/icmpping/icmpping.go:202-233 | the same of every job that has ended, in every state of every run, finished targets included |
| IcmpExact.EveryTargetIsPinged | internal/icmpping/icmpping.go:163-180 | when the pool has been joined without cancellation, every IPv4 target has been sent exactly `attempts` echoes unless its address answered or an echo for it could not be encoded |
| IcmpRetry.SilentTarget | internal/icmpping/icmpping.go:210-232 | whatever the settings, if the first target is IPv4: some run in which nothing is heard and nothing cancelled sends it exactly `attempts` echoes, and then its job ends |
| IcmpRuns.LateEchoIff | internal/icmpping/icmpping.go:210-220 | in every reachable state in which a target's address has answered, some continuation sends another echo for the target if and only if a worker is past the `replied` check for it and has not written yet |
| IcmpRetry.LateEchoHappens | internal/icmpping/icmpping.go:210-220 | whatever the settings, if the first target is IPv4: a run that has recorded its reply with no echo sent, and a continuation that sends one |
| IcmpRetry.RetryHappens | internal/icmpping/icmpping.go:210-232 | with two attempts or more: a run whose first echo has been answered, the answer recorded, and a continuation that sends a second echo |
| IcmpRuns.WritesOnce | internal/icmpping/icmpping.go:210-220 | a worker past its check can always go on to write exactly one echo, whoever holds `writeMu` |
| IcmpTheorems.LatePingIsSilent | internal/icmpping/icmpping.go:207-213 | a job that reaches its loop after its address is live, or after cancellation, sends nothing at all |
| IcmpTheorems.AddressBudget | internal/icmpping/icmpping.go:163-177 | an address listed m times gets at most m times `attempts` echoes on any run, so a distinct target gets at most `attempts` |
| IcmpTheorems.JobsConserved | internal/icmpping/icmpping.go:147-179 | at every moment each target is in exactly one of: not yet fed, channel buffer, one worker's hands, finished or skipped; `done` is the number finished |
| IcmpTheorems.AllDone | internal/icmpping/icmpping.go:163-179 | when the pool has been joined exactly the fed targets are finished; without cancellation `done` is the number of targets |
| IcmpTheorems.ReportsAreOneToDone | internal/icmpping/icmpping.go:155-158 | progress numbers are distinct and within 1..done; at the join they are all of 1..done |
| IcmpTheorems.ResultExact | internal/icmpping/icmpping.go:180-196 | the stage returns, without repeats, exactly the IPv4 addresses of targets from which, before the reader exited, an echo reply was read that carries the stage's own identifier or 0; stated without the functions that decide it |
| IcmpTheorems.LiveIsSound | internal/icmpping/icmpping.go:238-268 | every live address is a target from which such a reply was read; `live` never shrinks; once the reader has exited it holds every such target and never changes |
| IcmpProgress.NoDeadlock | internal/icmpping/icmpping.go:149-182 | until the stage has returned the feeder or a worker can move, except while main waits for the reader, and then the reader can |
| IcmpProgress.StepUses | internal/icmpping/icmpping.go:149-233 | every step of the feeder or a worker lowers a measure over remaining targets, buffered jobs, attempts and program counters; no other step raises it |
| IcmpProgress.StepsBounded | internal/icmpping/icmpping.go:149-233 | on any run, however scheduled, feeder and workers take at most n(7 attempts + 6) + workers + 6 steps |
| IcmpRuns.CanReturn | internal/icmpping/icmpping.go:163-196 | every run, whatever has happened in it, can be continued to one in which the stage has returned |
| IcmpRuns.BufferFills | internal/icmpping/icmpping.go:147-176 | the job channel takes two jobs a worker, in the order of the targets, before any is received, and the feeder then waits |
| IcmpProgress.ReaderExits | internal/icmpping/icmpping.go:238-254 | after cancellation or `stopReader` the reader takes at most three more steps whatever ReadFrom returns, and has then exited |
| IcmpExact.ReaderGoesOn | internal/icmpping/icmpping.go:238-254 | the reader has exited only if the context was cancelled, stopReader was called after the pool had been joined, or a read failed with an error other than a timeout; no datagram and no timeout stops it |
| IcmpWorker.PingOne | internal/icmpping/icmpping.go:202-233 | with any replies recorded, any channels asked for by other workers and cancellation between any two of its steps: it writes exactly `attempts` echoes to the target, or fewer because the context is cancelled, the address is live or one echo could not be encoded; every echo but the last is followed by its own timeout; only the last can come after the reply was recorded or the context cancelled; none if either was so before the call or the address is not IPv4 |
| IcmpWorker.ReadReplies | internal/icmpping/icmpping.go:238-268 | for any sequence of reads, timeouts, errors and cancellations: the addresses added to `live` are exactly the targets from which, before the loop stops, an echo reply is read that carries the stage's own identifier or 0 |
| IcmpInvariant.AcceptsIff | internal/icmpping/icmpping.go:255-290 | what the reader accepts, and from whom: an echo reply with the stage's own identifier or 0 from the address of a target, and nothing else |
| IcmpInvariant.AnsweredIs | internal/icmpping/icmpping.go:255-290 | an address counts as answered exactly when it is a target's and such a reply from it is among the datagrams read |
| IcmpInvariant.AnsweredAppend | internal/icmpping/icmpping.go:255-266 | one more datagram adds exactly the address that is a target's and that it is such a reply from |
| Merge.FirstIsFirst | internal/pipeline/pipeline.go:79-81 | the "first device with a filled field" of the specification: it satisfies the condition, none before it does, and there is none exactly when no device does |
| Merge.MergeAllAppend | internal/pipeline/pipeline.go:58-75 | merging the devices of two stages in turn is merging their concatenation |
| Merge.RowOfSnoc | internal/pipeline/pipeline.go:98-129 | merging one more device into a row gives the row the declarative specification assigns to the longer sequence of sightings: first MAC, hostname, vendor that is set, type raised from Unknown to Network, status up if any is, first SysInfo, neighbors and interfaces |
| Merge.FoldMeetsSpec | internal/pipeline/pipeline.go:57-131 | the left fold of the merge step over any devices equals the declarative specification, key by key: which addresses have a row, and what each row holds |
| Merge.OtherRows | internal/pipeline/pipeline.go:90-131 | a merge touches no row but the one at the device's address |
| Device.VendorUnsetIff | internal/device/device.go:68-75 | a vendor counts as unset exactly when, in any case and with any space around it, it is blank, unknown or randomized mac |
| Merge.ScalarsSetOnce | internal/pipeline/pipeline.go:118-129 | the single-valued fields of SysInfo come all from the device that first fills an empty one, with whatever part of it |
| Merge.RowFilled | internal/pipeline/pipeline.go:135-147 | of an address's merged row with its blanks filled: Status and Type are never blank; Type is Unknown exactly when it was merged so or no device there has one, and is otherwise the merged one; Status is up when no device there has one, else the merged one; nothing else differs |
| MergeLaws.Absorption | internal/pipeline/pipeline.go:79-131 | after any sequence of devices, merging one of them again leaves the whole map unchanged |
| MergeLaws.NothingIsLost | internal/pipeline/pipeline.go:79-131 | no merge removes a row or empties a filled field; Status changes only to up and Type only from Unknown to Network |
| MergeLaws.TypeIsNotAssociative | internal/pipeline/pipeline.go:104-109 | Unknown, End, Network: grouped left Network, grouped right Unknown |
| MergeLaws.AssociativeIff | internal/pipeline/pipeline.go:98-129 | merging three rows left to right equals merging them right to left if and only if they are not Unknown, another definite type, Network |
| Pipeline.OrderIrrelevant | internal/pipeline/pipeline.go:58-76 | if each stage lists the same devices, addresses distinct within a stage, in any other order, the merged map is the same |
| MergeHeap.CloneDevice | internal/pipeline/pipeline.go:152-165 | the copy has the same value, at the canonical address, and shares no array with the original |
| MergeHeap.MergeSysInPlace | internal/pipeline/pipeline.go:118-129 | the new SysInfo is the specified one, and each of its arrays is the row's old one or newly allocated |
| MergeHeap.MergeText | internal/pipeline/pipeline.go:101-117 | the string fields after the in-place tests are the specified ones, and nothing else changes |
| MergeHeap.MergeRowInPlace | internal/pipeline/pipeline.go:98-130 | the updated row is the specified one, and each of its arrays is the row's old one or newly allocated |
| MergeHeap.ClaimKeeps | internal/pipeline/pipeline.go:82-131 | storing a row whose arrays no other row owns keeps all rows' memory disjoint |
| MergeHeap.Merger.constructor | internal/pipeline/pipeline.go:57 | an empty map owns nothing |
| MergeHeap.Merger.MergeDevice | internal/pipeline/pipeline.go:82-131 | on the heap: the whole new map is the specified one, and every array the map holds it held before or allocated here, so none of the caller's |
| MergeHeap.Merger.ToSlice | internal/pipeline/pipeline.go:133-150 | in some order of the map, every row once, a blank Status made up, a blank Type made Unknown, and nothing else changed |
| MergeHeap.MergeDevices | internal/pipeline/pipeline.go:72-74 | a stage's devices are merged in the order listed, copying whatever the map keeps |
| MergeHeap.RunStages | internal/pipeline/pipeline.go:58-75 | exactly the devices of the stages that succeeded before any hard failure or cancellation are merged; the error is the first hard failure's, and exactly the soft failures before it are reported |
| MergeHeap.Run | internal/pipeline/pipeline.go:52-77 | the returned rows are those of the merged map, each once, filled as in `Merge.RowFilled` with regard to the devices considered at the address; every array in them was allocated by the run, and no two rows share one |
| MergeHeap.MutateOutside | internal/pipeline/pipeline.go:152-179 | writing into any array the map does not own changes no row |
| MergeHeap.MergeThenMutate | internal/pipeline/pipeline.go:72-74 | after a stage's devices have been merged the map owns none of their arrays, so writing into one of them leaves exactly the merged rows |
| MergeHeap.RunThenMutate | internal/pipeline/pipeline.go:52-77 | writing, after the run, into an array of a device of any stage changes nothing in the returned rows |
| FinalList.Hostnames | internal/enrich/enrich.go:18-50 | in place: every listing of a set of rows becomes a listing of the same rows with the resolved names |
| FinalList.EnsureSelf | main.go:297-326 | in place or by appending: every listing of a set of rows becomes a listing of those rows with the scanning host's own row present, its blanks filled |
| FinalList.OnlySelfChanges | main.go:297-326 | the host's own row after ensureSelf, field by field: a missing MAC is filled and brings its vendor and type, a name is filled only where there is none, a host no stage saw gets a row of its own, and no other row changes |
| FinalList.ToSliceLists | internal/pipeline/pipeline.go:135-150 | whatever order toSlice ranges over the map in, it lists the same rows |
| FinalList.Complete | main.go:254-261 | from toSlice to the sort: the list is a listing of one set of rows determined by the stages, the resolver's answers and the host |
| FinalList.FinalRowMeans | main.go:245-261 | which addresses are printed and what each row holds, in terms of the devices seen there, the resolver's answers and the host, without the functions that compute it |
| FinalList.SortedLists | main.go:263-266 | any permutation that the sort may leave, by `ipLess`, is strictly ascending in numeric address |
| FinalList.AscendingUnique | main.go:263-266 | a set of IPv4 rows has only one strictly ascending listing |
| FinalList.PrintedListUnique | main.go:254-270 | the printed IPv4 list is deterministic: any order of each stage's devices, of every map iteration and of the unstable sort gives the same rows in the same order |
| Addr.IpLess | table.go:223-235 | on IPv4 rows the byte comparison is the order of the 32-bit values, hence a strict total order |
| Addr.IntToIPOfBinary | internal/iface/iface.go:163-170 | intToIP undoes binaryIP |
| Addr.BinaryOfIntToIP | internal/iface/iface.go:163-170 | binaryIP undoes intToIP, for all 32-bit values |
| Addr.BinaryIPInjective | internal/iface/iface.go:163-166 | different addresses have different values |
| Addr.To4Iff | internal/pipeline/pipeline.go:83-86 | an address has the IPv4 form k exactly when it is the four octets k or k mapped into IPv6 |
| Pacing.StaysInBounds | internal/arpscan/arpscan.go:316-340 | after any history of successes and ENOBUFS, 0 <= burst < limit and 1 <= limit <= 32 |
| Pacing.NominalFloorIsBroken | internal/arpscan/arpscan.go:337-340 | a history from the start that leaves the limit at 1 |
| Pacing.BelowFloorIff | internal/arpscan/arpscan.go:337-340 | the limit falls below the nominal floor exactly on ENOBUFS at limit 3 (and stays below at 1) |
| Pacing.Paced | internal/arpscan/arpscan.go:322-340 | after any history, any further stretch with n successful writes contains at least floor(n/32) sleeps |
| Pacing.PacedInEarnest | internal/arpscan/arpscan.go:322-347 | the same when only pauses that take time are counted, that is, without the backoffs after retry 41 |
| Pacing.SmoothRun | internal/arpscan/arpscan.go:312-332 | without ENOBUFS the k-th pause comes right after the sum over j < k of min(8+j, 32) frames, and the limit is then min(8+k, 32) |
| Pacing.FramesBeforeClosed | internal/arpscan/arpscan.go:295-332 | that sum is 8k + k(k-1)/2 up to k = 25 and 500 + 32(k-25) beyond |
| Injector.WrappedBackoff | internal/arpscan/arpscan.go:341-344 | from retry 42 on the int64 delay is the cap at seven retries and not positive at all others |
| Injector.BackoffIff | internal/arpscan/arpscan.go:341-344 | the delay is min(4 * 2^try, 50) ms if and only if try <= 41 or try is 46, 48 to 51, 53 or 54; it never exceeds 50 ms |
| Injector.Injector.constructor | internal/arpscan/arpscan.go:312-314 | a new injector is at the start of the cadence |
| Injector.Injector.Write | internal/arpscan/arpscan.go:316-350 | the whole record after a call: n refusals, each followed by a nap of exactly that retry's backoff, and the frame at most once, followed by a nap of 1 ms when it ends a burst. No error means that the frame went out after fewer than 64 refusals; the retries are exhausted only after exactly 64; a fault is reported only if the link answered with one; otherwise the context is cancelled. The counters follow the cadence machine throughout |
| Injector.SendAll | internal/arpscan/arpscan.go:166-201 | with any mixture of ENOBUFS, other errors and cancellation the frames on the wire are, in order and once each, a prefix of the requests for the IPv4 targets, and all of them if nothing errs or cancels; an error means that the next request could not be serialized, that the link answered with a fault, or that it refused that frame 64 times in a row |
| Injector.InjectorPaced | internal/arpscan/arpscan.go:304-350 | at any moment the injector has slept, for a positive time, at least once per 32 frames sent, and its counters are within the true bounds |
| Subnet.MaskedIsBlockStart | internal/iface/iface.go:70-75 | for every prefix length masking yields the start of the block that contains the address |
| Subnet.Hosts | internal/iface/iface.go:101-137 | fails exactly on a non-IPv4 mask or when the count exceeds a positive cap, never for an empty range; otherwise returns base plus each offset, with 32-bit wrap-around |
| Subnet.OffsetsAreUsable | internal/iface/iface.go:109-118 | the offsets run through are exactly those of the usable addresses: the block, less network and broadcast for prefixes shorter than /31 |
| Subnet.HostsEnumerateBlock | internal/iface/iface.go:103-137 | for a masked base and every prefix length the sum never wraps, the hosts strictly ascend, and they are exactly the usable addresses of the block |
| Subnet.DetectThenHosts | internal/iface/iface.go:70-80 | the base Detect stores is a block start, and the interface's own address lies in that block |
| Blocks.SplitMarkedBlocks | internal/sshprobe/ifaces.go:371-395 | the index scan ends and its blocks are the ones of the recursive definition, for any non-empty mark in any case |
| Blocks.SplitCovers | internal/sshprobe/ifaces.go:371-395 | for every mark: a mark-free preamble followed by the blocks is the whole text, and each block starts with the mark |
| Blocks.SplitPartitions | internal/sshprobe/ifaces.go:371-395 | for a mark no proper prefix of which is a suffix of it, each block holds the mark exactly once |
| Blocks.PartitionUnique | internal/sshprobe/ifaces.go:371-395 | the partition is unique: any way to write the text as a mark-free part and blocks with one mark each, at the head, is what the function returns |
| Blocks.SplitAppend | internal/sshprobe/ifaces.go:371-395 | appending a text that starts with the mark appends its blocks |
| Blocks.SplitExtend | internal/sshprobe/ifaces.go:371-395 | appending a text that completes no mark only lengthens the last block |
| Blocks.CutIgnoresTail | internal/sshprobe/ifaces.go:397-403 | what follows a mark, in any case, has no influence on the cut, which keeps nothing from the mark on |
| Blocks.CutIs | internal/sshprobe/ifaces.go:397-403 | the cut is the text up to the first mark, and the whole text when there is none |
| Blocks.SectionBetween | internal/sshprobe/ifaces.go:405-424 | the loop over the end marks computes the section of the definition |
| Blocks.SectionIsIsolated | internal/sshprobe/ifaces.go:411-423 | a section is a prefix of what follows its start mark, no end mark begins before its end or is inside, and it ends right before one or with the text |
| Blocks.SectionIs | internal/sshprobe/ifaces.go:405-424 | the section is what follows the first start mark up to the first end mark, and empty when there is no start mark |
| Blocks.SectionUnique | internal/sshprobe/ifaces.go:405-424 | only one text is that |
| Blocks.SectionBetweenMarks | internal/sshprobe/ifaces.go:405-424 | with the first start mark before the first end mark the section is exactly the text between them |
| IfaceText.ParseSaturates | internal/sshprobe/ifaces.go:434-442 | a digit string is accepted exactly when its number fits in 64 bits, and otherwise counts as the largest 64-bit number |
| IfaceText.ParseUintIff | internal/sshprobe/ifaces.go:434-442 | a text is accepted exactly when, trimmed, it is a digit string of at most 64 bits, and is read as that number; with the error ignored any other text counts as 0, or as the largest number when its first digits overflow |
| IfaceText.ParsePrinted | internal/sshprobe/ifaces.go:439-442 | every 64-bit number is read back from its decimal form |
| IfaceText.UnitIsDropped | internal/sshprobe/ifaces.go:356-369 | a dot and a unit number behind any name are dropped, with any space around both |
| IfaceText.OtherNamesStay | internal/sshprobe/ifaces.go:356-369 | from any other name only the space around it is dropped |
| IfaceText.FixedNames | internal/sshprobe/ifaces.go:356-369 | a name is kept as it is if and only if it has no surrounding space and does not end in a dot and digits |
| Junos.ParseJunosIfaces | internal/sshprobe/ifaces.go:81-89 | the counters of the blocks that name an interface, in order |
| Junos.PhysicalHasNoBorder | internal/sshprobe/ifaces.go:83 | "physical interface:" cannot overlap itself, so the partition results apply to it |
| Junos.BlocksAreIndependent | internal/sshprobe/ifaces.go:81-89 | a text that starts with a physical interface parses the same alone and behind any other output |
| Junos.LogicalTextCannotLeak | internal/sshprobe/ifaces.go:81-130 | replacing everything between a "logical interface" (in any case) and the next physical interface by any text without "physical interface:" leaves the whole result unchanged |
| Junos.ErrorsStayInTheirSection | internal/sshprobe/ifaces.go:115-128 | with both error sections present, the input counters are the first error and drop counts of the text between the two marks, the output counters those of the text behind the second; the compact form counts only for a section that holds neither |
| Junos.TrafficStaysInItsSection | internal/sshprobe/ifaces.go:106-113 | with traffic statistics present, packets and octets are each read from the text behind that mark and before the first of the IPv6 and error marks |
| JunosRows.StatesRead | internal/sshprobe/ifaces.go:132-152 | when Admin and Oper are up, down or blank: by the phrases in the rest of the first line, in any case, down before up for Admin and up before down for Oper |
| JunosRows.BlockRead | internal/sshprobe/ifaces.go:91-130 | of every block: it has a row exactly when the text before its first logical interface names an interface by more than a blank; the row carries the name without its unit, those states, packets and octets from the traffic section or else from all that text, and each direction's errors from its own section or else from the compact form |
| CiscoTable.RowByRow | internal/sshprobe/ifaces.go:224-258 | applying rows one at a time and reading each counter column by column over all of an interface's rows agree; other interfaces are untouched |
| CiscoTable.SumAppend | internal/sshprobe/ifaces.go:240-249 | 64-bit accumulation is the true sum modulo 2^64, however the cells are grouped |
| CiscoTable.NamesOnce | internal/sshprobe/ifaces.go:171-180 | every interface with a row appears exactly once |
| CiscoTable.NamesInOrder | internal/sshprobe/ifaces.go:175-189 | interfaces stand in the order of their first rows |
| CiscoTable.ColumnsInForce | internal/sshprobe/ifaces.go:157-170 | the columns that apply to a line are those of the last heading, and there are none if a blank or one-word line came after it |
| CiscoText.FieldsAreWords | internal/sshprobe/ifaces.go:159 | no field is empty or holds white space |
| Cisco.Counters.constructor | internal/sshprobe/ifaces.go:177 | a new counter object is all zero |
| Cisco.StateAfterNext | internal/sshprobe/ifaces.go:230-251 | one more numeric cell changes exactly the counter its column denotes |
| Cisco.ApplyCiscoRow | internal/sshprobe/ifaces.go:224-258 | in place: octets and discards become the last parsed cell, errors gain the row's sum modulo 2^64, packets become the row's sum unless it is zero, everything else stays |
| CiscoRows.CellRead | internal/sshprobe/ifaces.go:230-234 | a cell counts exactly when it is a number of at most 64 bits, and then as that number under its column's heading |
| CiscoRows.HeadingCounts | internal/sshprobe/ifaces.go:235-257 | which counter a number under each heading, in any case, changes and how; under any other heading none |
| Cisco.CiscoHeader | internal/sshprobe/ifaces.go:193-202 | true exactly when some field is a heading word in any case |
| Cisco.CiscoPort | internal/sshprobe/ifaces.go:212-222 | true exactly for a text that starts with a letter and is none of the three words that head a name column |
| Cisco.NormalizeCiscoCols | internal/sshprobe/ifaces.go:204-210 | every heading in lower case |
| CiscoTable.NewInterface | internal/sshprobe/ifaces.go:175-180 | an interface without rows has the counters of a new object |
| Cisco.Update | internal/sshprobe/ifaces.go:171-181 | the map's objects hold the counters of all rows so far, this one included; a new name goes last; no object of another interface changes |
| Cisco.ParseLine | internal/sshprobe/ifaces.go:158-182 | one line takes the map, the order and the columns in force to those of the longer text |
| Cisco.ParseCiscoIfaces | internal/sshprobe/ifaces.go:154-191 | the mutable map and order yield the specified table: each interface once, in order of first appearance; errors are sums modulo 2^64 over all its rows, octets and discards the last cell, packets the last row sum that is not zero |
| CiscoRows.UnreadableLine | internal/sshprobe/ifaces.go:154-191 | a last line none of whose cells is a number leaves every counter of every interface as it was; at most it adds an interface with all counters zero |
| CiscoRoundTrip.FieldsOfLine | internal/sshprobe/ifaces.go:159 | splitting a printed line into fields gives back the fields, for any spacing |
| CiscoRoundTrip.LinesOfUnlines | internal/sshprobe/ifaces.go:158 | splitting printed lines at newlines gives them back |
| CiscoRoundTrip.HeadingLine | internal/sshprobe/ifaces.go:164-167 | each printed heading is recognised and sets its columns |
| CiscoRoundTrip.PortLine | internal/sshprobe/ifaces.go:168-181 | each printed row is recognised, keeps the columns and contributes its numbers |
| CiscoRoundTrip.ParseOfRender | internal/sshprobe/ifaces_test.go:68-79 | parsing three printed tables of any ports returns every port's counters in the same order, packets and received errors summed modulo 2^64, for any spacing and any 64-bit values |
| CiscoRoundTrip.RoundTrip | internal/sshprobe/ifaces.go:154-258 | printing and parsing undo each other on every list of counters with distinct valid names, no states and no received drops |

## Left out

- Sockets, pcap handles, BPF filters, SSH sessions, DNS and the environment: their answers are free choices or parameters.
- Regular expressions: functions of the text they are given; what they match is not modelled.
- Wall-clock time: a timer is a step that may happen; sleeps are counted, not measured.
- Encoding of ICMP echoes and ARP frames, and the sequence number in the echo: a datagram is what the parser says of it.
- `net.IP.String` as a map key: it is injective on canonical addresses, so the model keys by the bytes.
- A nil and an empty slice are not told apart, because the code only looks at lengths; a slice is its whole array.
- Text is ASCII, where lower-casing keeps offsets; Unicode letters, spaces and case folding are not modelled.
- IPv6 rows in the final order: their text comparison is not transitive together with the numeric one, so ordering is stated for IPv4 rows.
- sort.Slice is any permutation in which no later row is less than an earlier one, not Go's algorithm.
- Concurrency inside enrich.Hostnames: each lookup writes its own slot, so the model writes them one by one.
- The ARP reader, its result map, and the settle timer after the last request.
- The OUI table, InferType and InferVendor: finite tables; the host's own vendor and type are parameters.
- The Huawei parser, LLDP, health and system information, parseIfaces's dispatch: mostly regular expressions.
- sshprobe.Run's pool and credential loop: a simpler copy of the ICMP pool and a find-first search.
- Environment files, flags, progress drawing and table printing.
- Tracker.Tracker.Waiter: each tracker method is one atomic step, because its body runs under the mutex; the mutex itself is not modelled.
- Blocks.SplitMarkedBlocks: an empty mark, on which the scan would not end, is excluded; all callers pass a constant.
