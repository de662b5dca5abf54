# A model of the AOD monitoring tools

The repository traces file-system, SMB and NFS operations with eBPF probes: an
entry probe files a record in a map, the exit probe takes it out and may put an
event in a ring, and user space drains and decodes the ring. This project models
the probes, the ring shim, the event layout, the descriptor-path list and the
choice of programs, and proves what they promise over all runs.

| file | models |
|---|---|
| `Options.dfy` | values that may be absent |
| `BpfMap.dfy` | 64-bit time, bounded hash maps with an overwrite flag |
| `Tracker.dfy` | the start/finish machine all latency and snoop tools share: history, time, conservation |
| `TrackerRuns.dfy` | relations between runs: renamed keys, repeated completions, one key at a time |
| `CallStack.dfy` | iosnoop's key (thread, operation) against one call stack per thread |
| `CallReuse.dfy` | the same where one operation may be open several times: which exits still report their own call |
| `CallForest.dfy` | ioslower's key (thread) against forests of nested calls |
| `SplitExits.dfy`, `SplitOverlap.dfy` | exits whose lookup and removal are apart, with other probes in between; exactly when that shows |
| `VfsProbes.dfy` | the VFS probes as one machine: tracker, mount filter, mapped-address index |
| `VmaIndex.dfy` | what the packed key of that index keeps apart, and whose device a munmap sees |
| `ProbeRuns.dfy` | the promises of both tools over the probes: which call is reported with which fields, which device a munmap gets |
| `VmaRace.dfy` | a munmap whose lookup and removal are apart |
| `IosnoopBpf.dfy`, `IoslowerBpf.dfy` | the probes of the two tools step by step, proved to be that machine |
| `SlowerBpf.dfy` | the two SMB trackers step by step |
| `NfsSlots.dfy`, `NfsSlowerBpf.dfy` | the NFS tracker with the memory slots behind its map; its probes step by step |
| `Decimal.dfy`, `CommaLists.dfy`, `Formatter.dfy` | decimal texts and machine numbers; option texts split at commas; the bounded text formatter in place |
| `EventCodec.dfy` | `struct event` at byte level and its Python decoder |
| `RingShim.dfy` | bulk draining of the ring |
| `FdPaths.dfy` | the linked list of descriptor paths and the event handler |
| `SmbSelect.dfy`, `HookSelect.dfy` | which programs smbslower and iosnoop load |
| `SmbFilter.dfy` | smbslower's command filter from option text to deny list |
| `NfsErrors.dfy` | nfsiosnoop's error filter from option text to probe decision |

## Hypotheses

- A whole probe is one atomic step: a completion's lookup and removal, and a
  munmap's lookup, removal and update on two maps, happen together. Probes of all
  threads interleave freely. A step carries the time it read, whether the ring had
  room, and the verdict of the tool's filter, so every combination is covered.
  `SplitExits` drops the hypothesis for completions: lookup and removal apart
  report the same per key as long as exits of one key do not overlap, as they
  cannot where the key names the thread; `SplitOverlap` gives the exact condition,
  `NfsSlots` drops it for nfsslower's late read, and `VmaRace` for a munmap's
  lookup and removal. That a munmap's removal and the filing of its own call in
  another map are one step stays.
- Filters and minimum latencies are fixed before the probes attach. ioslower's
  loader sets its threshold only after it has attached, so exits in between meet
  threshold 0; `MinimumSetLate` says what such a run reports.
- A map update fails when the map is full or, under BPF_NOEXIST, when the key is
  there; an update that replaces a key succeeds.
- Results that need a clock that never goes back say so (`Monotone`).
- A poll of the ring offers each record once, oldest first, and a negative
  callback result still consumes its record.

## Results that say where the code falls short

- `smbslower` selects a program attached to `__release_mid` when the module does
  not know that function and its `release_mid` takes two parameters
  (`ReleaseFindsWhatAllocFiled` gives the exact condition on the kernel,
  `TwoParameterReleaseMidMissesHook` one such kernel).
- The mapped-address index confuses mappings from 2^44 up, where most are on
  x86-64: a munmap is answered for its own mapping exactly when no other site
  under its packed key was mapped or unmapped since (`MunmapSeesLatestMmap`).
  Every high site shares its key with a low one (`HighSiteHasTwin`); two related
  processes that map one address disturb each other (`RelatedProcessesCollide`).
- What ioslower files for a mapping may be another call's device or none
  (`MmapFilesOwnDeviceIff` says exactly when it is the mmap's own, another call's
  or none; `SlowIndexTakesOuterDevice` gives a run).
- An operation entered again inside a stored call of the same operation loses
  iosnoop's event for the outer call; apart from a full ring only that does
  (`StoredCallReportedIff`, `RunReportsOwnIffNoReuse`).
- An exit whose lookup and removal are apart settles something else than a
  completion at its removal, exactly when its key was removed in between or, under
  BPF_ANY, started again, and one of the two has an event to report
  (`SettlesAlikeIff`, `RunSettlesAlikeIff`, for a clock that moves on;
  `OverlapReportsTwice`).
- A restart filed between the two accesses of an exit is lost exactly when its key
  is neither removed, nor started again under BPF_ANY, nor looked up before the
  removal (`RestartIsLostIff`, `RestartDuringExitIsLost`).
- A munmap whose lookup and removal are apart takes another entry than it saw,
  exactly when the one it met was removed or filed anew in between or, where it met
  none, one filed in between is still there (`MunmapIsAtomicIff`,
  `RemapDuringMunmap`).
- BPF_ANY and BPF_NOEXIST answer the same start exactly when the key was not
  offered again since the first (`FlagsAgreeIffNoRestart`).
- An innermost call that ioslower could not store exits on the record of a call
  around it (`UnstoredInsideStored`); a thread reports too much exactly when such an
  exit reaches the threshold and finds room (`StrayExitReportsTooMuch`).
- `nfsslower` names the wrong command exactly when the slot it has freed is given
  to an entry with another command before it is read (`ReadsOwnCommandIff`,
  `FreedSlotIsReused`).
- `nfsiosnoop` reads error numbers from 2^32 on by their low 32 bits
  (`LargeNumbersAlias`), and repeats use up room in its error filter
  (`CompleteIffEarly`, `RepeatsCrowdOut`).
- `smbslower` takes an option word that is no number for command 0
  (`TokenNamesCommand`, `WordTakesCommandZero`).
- The handler of iosnoop looks for arguments that start with "fd=", which no
  enabled probe writes, so on their events it never shows a recorded path and
  never drops one (`ProbeEventsNeverUseTable`). The other results about the
  handler hold for any argument text. The repository's own description lists
  system calls for iosnoop, whose programs the loader always switches off; the
  model follows the loader.

## Model

| member | source | states |
|---|---|---|
| Tracker.StaysPending | src/bpf/iosnoop.bpf.c:353-396 | an offered start's key stays in the map until its key completes |
| Tracker.FiledIsSource | src/bpf/smbslower.bpf.c:135-154 | a start whose record goes in is at once the source its key's next completion answers |
| Tracker.PendingHasSource | src/bpf/smbslower.bpf.c:98-189 | every record in the map was filed by a source, last start (BPF_ANY) or first start (BPF_NOEXIST) since the previous completion |
| Tracker.PendingIsSource | src/bpf/smbslower.bpf.c:98-231 | a key is in the map iff it has a source, and holds that source's record |
| Tracker.SourceIsUnique | src/bpf/smbslower.bpf.c:98-231 | a completion answers at most one start |
| Tracker.CompletionReportsSource | src/bpf/smbslower.bpf.c:98-133 | a completion with a source emits exactly one event, with the source's data and time, iff the ring has room and the latency reaches the minimum; the key is free afterwards |
| Tracker.NothingElseReports | src/bpf/nfsslower.bpf.c:67-100 | starts, and completions without a source, emit nothing |
| Tracker.StartsAreInThePast | src/bpf/smbslower.bpf.c:110-112 | with a clock that never goes back no stored start is later than now, so subtraction never wraps |
| Tracker.Conservation | src/bpf/smbslower.bpf.c:52-64 | accepted starts = reported + below minimum + ring full + overwritten + in flight in every state; no overwriting under BPF_NOEXIST; the map stays within capacity |
| Tracker.AcceptedIsAdmitted | src/bpf/nfsslower.bpf.c:62-64 | a start is accepted, by history, exactly when the map update succeeds |
| Tracker.OneFate | src/bpf/smbslower.bpf.c:98-189 | each accepted start is in flight, completed once, or overwritten, and only one of these |
| TrackerRuns.RenamedRunsAgree | src/bpf/smbslower.bpf.c:98-189 | runs that differ by a renaming of keys one to one in flight emit the same events and keep the same records, even with full maps; with different overwrite flags when no key restarts in flight |
| TrackerRuns.RenamedLookup | src/bpf/smbslower.bpf.c:98-189 | under a renaming, each step meets the same record in both runs |
| TrackerRuns.FunctionNamesAgree | src/bpf/iosnoop.bpf.c:1183-1186 | renaming by a function injective on the run's keys is such a renaming |
| TrackerRuns.RestartTellsFlagsApart | src/bpf/smbslower.bpf.c:152-229 | an example: a key restarted in flight is timed from its second start under BPF_ANY and from its first under BPF_NOEXIST |
| TrackerRuns.FlagsAgreeIffNoRestart | src/bpf/smbslower.bpf.c:152-229 | for equal capacities, the start that a completion answers under BPF_NOEXIST is answered under BPF_ANY iff the key was not offered again in between |
| TrackerRuns.MinimumSetLate | src/user/ioslower.c:451-459 | a run whose minimum is set while probes run: same map throughout, output up to then as without it, what follows as with it |
| TrackerRuns.RepeatFindsNothing | src/bpf/iosnoop.bpf.c:382-396 | a completion that repeats an earlier one finds no record |
| TrackerRuns.RepeatsAreHarmless | src/bpf/iosnoop.bpf.c:1337-1357 | removing any set of repeated completions, as the second vfs_rename exit program causes, changes neither events nor map |
| TrackerRuns.KeysAreIndependent | src/bpf/ioslower.bpf.c:279-299 | in every interleaving each key behaves as a one-slot machine fed with its own steps |
| CallStack.OpenKeysDistinct | src/bpf/iosnoop.bpf.c:353-358 | calls open on one thread have different keys |
| CallStack.OpenCallsMirrored | src/bpf/iosnoop.bpf.c:353-396 | on properly nested threads the map holds, for each open call, its own record iff its entry was stored |
| CallStack.RecordIsOnStack | src/bpf/iosnoop.bpf.c:353-396 | each record in the map belongs to an open call |
| CallStack.ClosedStaysClosed | src/bpf/iosnoop.bpf.c:382-396 | a closed call never comes back to the stack |
| CallStack.EachCallExitsOnce | src/bpf/iosnoop.bpf.c:382-396 | a call is open iff it has not been closed, and no call is closed twice |
| CallStack.SameOperationTwiceLosesOuter | src/bpf/iosnoop.bpf.c:353-364 | an example: the inner record of the same operation replaces the outer, whose exit reports nothing |
| CallReuse.EarlierExitIsInner | src/bpf/iosnoop.bpf.c:382-396 | an exit of call i's operation before i's own belongs to a call entered inside i |
| CallReuse.StoredCallMeetsOwn | src/bpf/iosnoop.bpf.c:353-396 | a stored call's exit meets its own record if its operation was not entered again inside it, else no record at all |
| CallReuse.UnstoredCallMeetsStray | src/bpf/iosnoop.bpf.c:353-396 | the exit of a call not stored meets a record iff an earlier stored call of the operation left one |
| CallReuse.StoredCallReportedIff | src/bpf/iosnoop.bpf.c:353-396 | with exits that close the innermost call and no hypothesis on entries, minimum or ring, a stored call's exit settles its own record iff its operation was not entered again inside it, and otherwise reports nothing |
| CallReuse.ExitReportsOwnIff | src/bpf/iosnoop.bpf.c:353-396 | the exact condition for every exit, stored or not, with room or without |
| CallReuse.RunReportsOwnIff | src/bpf/iosnoop.bpf.c:353-396 | a whole run reports each call at its own exit and nothing else iff that condition holds of each of its exits |
| CallReuse.RunReportsOwnIffNoReuse | src/bpf/iosnoop.bpf.c:353-396 | such a run reports right if no stored call has its operation entered again inside it, and once all calls have exited into a ring with room only if |
| CallReuse.NestedIffNoReuse | src/bpf/iosnoop.bpf.c:353-396 | a run is properly nested iff its exits close the innermost call and no operation is entered inside an open call of its own |
| CallReuse.NestedRunReportsOwn | src/bpf/iosnoop.bpf.c:353-396 | so a nested run reports every call at its own exit and nothing else |
| CallReuse.ExitReportsOwnCall | src/bpf/iosnoop.bpf.c:353-396 | in every interleaving of nested threads each exit emits exactly the event of the call it closes, if that call was stored and the ring has room; entries emit nothing |
| CallForest.ForestRun | src/bpf/ioslower.bpf.c:279-299 | the probes of a forest of nested calls report what the forest's structure says and leave the slot empty |
| CallForest.FiledForestReportsLeaves | src/bpf/ioslower.bpf.c:279-299 | if all entries were stored the reports are those of the innermost calls, each from its own start |
| CallForest.ThreadReportsForest | src/bpf/ioslower.bpf.c:279-299 | in any run over any number of threads, a thread whose steps form a forest reports by that structure and leaves no record |
| CallForest.ThreadReportsItsLeaves | src/bpf/ioslower.bpf.c:243-299 | with all entries stored, a thread reports exactly its calls without a tracked call inside that reach the threshold |
| CallForest.OwnReportsOnly | src/bpf/ioslower.bpf.c:287-299 | if no innermost call exits on another's record, every event is a stored innermost call's own |
| CallForest.StrayExitReportsTooMuch | src/bpf/ioslower.bpf.c:243-299 | for any threshold and ring: a forest reports what its stored innermost calls report, no more and in order, iff no innermost call that was not stored has another's record to report; else it reports more |
| CallForest.StraysAreLoud | src/bpf/ioslower.bpf.c:287-299 | with no threshold and room that means iff no exit meets another call's record at all |
| CallForest.UnstoredInsideStored | src/bpf/ioslower.bpf.c:287-299 | a stored call around one that was not: the inner exit reports the outer call's record |
| SplitExits.SamePending | src/bpf/smbslower.bpf.c:104-112 | with lookup and removal apart the map goes through the same states as with completions at the removals |
| SplitExits.SplitExitsReportAlike | src/bpf/nfsslower.bpf.c:67-79 | if exits of one key do not overlap, each key's events are those of completions at the removals, but for an exit under way; starts that BPF_NOEXIST turns away meanwhile do no harm |
| SplitExits.OverlapReportsTwice | src/bpf/smbslower.bpf.c:104-112 | an example: two overlapping exits of one key report the one call twice |
| SplitExits.RestartDuringExitIsLost | src/bpf/smbslower.bpf.c:152-171 | an example: under BPF_ANY a restart between lookup and removal is lost |
| SplitOverlap.PendingIsFilers | src/bpf/smbslower.bpf.c:104-112 | the map holds a record for a key iff an entry filed it, and it is that entry's |
| SplitOverlap.FilerKeptIff | src/bpf/smbslower.bpf.c:104-112 | after a lookup that met a record, that record is still the one filed iff the key was not removed or, under BPF_ANY, started since |
| SplitOverlap.FilerIsIff | src/bpf/smbslower.bpf.c:152-171 | the record filed for a key is an entry's iff the entry was filed and not disturbed since |
| SplitOverlap.SameAsSeenIff | src/bpf/smbslower.bpf.c:104-112 | what is filed later is what a lookup saw, record or none, iff it was not disturbed or, where none was met, nothing filed since is still there |
| SplitOverlap.SettlesAlikeIff | src/bpf/smbslower.bpf.c:104-125 | for any minimum and ring: an exit settles what a completion at its removal reports if its record was not disturbed between its accesses or neither has an event; where the clock moves on, only if |
| SplitOverlap.RestartIsLostIff | src/bpf/smbslower.bpf.c:152-171 | a restart filed between an exit's accesses is taken away by its removal with no lookup ever meeting it, iff its key is neither disturbed nor looked up before |
| SplitOverlap.RunSettlesAlikeIff | src/bpf/smbslower.bpf.c:98-189 | once all exits have ended, under a clock that moves on, each settles what its merged completion reports iff none was disturbed but for those with nothing to report |
| SplitOverlap.UndisturbedRunReportsAlike | src/bpf/smbslower.bpf.c:98-189 | and then every key's events are, in order, those of the merged run, whatever the minimum and the ring |
| VfsProbes.MachineTracks | src/bpf/iosnoop.bpf.c:353-396 | the tracker part of every run of VFS probes is a tracker run |
| VfsProbes.StoredDevicesPass | src/bpf/iosnoop.bpf.c:1182-1187 | every device ever stored, with a call or in the index, passes the mount filter |
| VfsProbes.MunmapPassesFilter | src/bpf/ioslower.bpf.c:127-142 | iosnoop's filter lets every munmap through; ioslower's, for a nonzero device, exactly those whose start hits the index |
| VfsProbes.MountFilterMeans | src/bpf/iosnoop.bpf.c:133-143 | the filter in numbers: a device passes iff it is 2^20 times the configured major plus the configured minor, besides device zero in iosnoop |
| VfsProbes.MountFilterByParts | src/bpf/ioslower.bpf.c:134-141 | the same for every device given by major and minor number |
| VfsProbes.ErrorsAreNoLandings | src/bpf/iosnoop.bpf.c:1183-1188 | a mmap that returns an error number indexes nothing and shows that error |
| VfsProbes.AddressesLand | src/bpf/iosnoop.bpf.c:1183-1188 | one that returns a user address indexes its site and shows 0 |
| VfsProbes.SiteIsPage | src/bpf/iosnoop.bpf.c:1185 | a site is the process and the number of the 4096-byte page |
| VfsProbes.Low32IsRemainder | src/bpf/iosnoop.bpf.c:1188 | the value shown of a register is its remainder modulo 2^32 |
| VmaIndex.PackCollides | src/bpf/iosnoop.bpf.c:1185 | two (process, page) pairs share a packed key iff low page bits agree and process joined with high page bits agree |
| VmaIndex.PackIsInjective | src/bpf/iosnoop.bpf.c:1197 | for pages below 2^32 the packed key is injective |
| VmaIndex.LowPageIsLowAddress | src/bpf/iosnoop.bpf.c:1197 | a page below 2^32 is an address below 2^44 |
| VmaIndex.HighSiteHasTwin | src/bpf/iosnoop.bpf.c:1185 | every site from 2^44 on has another one below it under the same key |
| VmaIndex.IndexIsKeyHistory | src/bpf/iosnoop.bpf.c:1182-1204 | for every run and key the index holds the device of the latest mmap stored under that key since its last munmap, and nothing else |
| VmaIndex.OwnMappingIsSourceIff | src/bpf/iosnoop.bpf.c:1182-1204 | a site's own mapping is what its key holds iff no other site under the key was mapped or unmapped after it |
| VmaIndex.AnswersIffUndisturbed | src/bpf/iosnoop.bpf.c:1182-1204 | the index answers for a site with its own mapping, or nothing where it has none, iff no twin disturbed it or is left over |
| VmaIndex.MunmapSeesLatestMmap | src/bpf/iosnoop.bpf.c:1169-1212 | in every run of either tool, with no bound on addresses: the device a munmap sees by the history of its key, and the exact condition for it to be its own site's |
| VmaIndex.IndexIsHistory | src/bpf/iosnoop.bpf.c:1182-1204 | while no two sites in the index share a key it agrees with a map from sites to devices of the same capacity |
| VmaIndex.SiteNamesAgree | src/bpf/iosnoop.bpf.c:1185-1197 | that is so in every run below 2^44 |
| VmaIndex.MunmapGetsLatest | src/bpf/iosnoop.bpf.c:1182-1204 | over the probes, with no bound: a munmap gets the device of the latest mmap probe that filed one under its key with no munmap probe of that key since, else zero, and leaves nothing under the key |
| VmaIndex.LowMunmapSeesOwnMmap | src/bpf/iosnoop.bpf.c:1169-1212 | below 2^44, over the probes: a munmap gets the device of the latest mmap that landed on its own site with no munmap of that site since, else zero; and the same over the index's history |
| VmaIndex.RelatedProcessesCollide | src/bpf/iosnoop.bpf.c:1182-1204 | a run of either tool where two processes map one address above 2^44: the first munmap gets the other's device, the second none |
| VmaIndex.IndexedDeviceHasEntry | src/bpf/iosnoop.bpf.c:1182-1187 | the device a mmap's exit files is that of its thread's record: for iosnoop, of a mmap entry of that thread; for ioslower, of whatever call the thread stored last |
| VmaIndex.MmapFilesOwnDeviceIff | src/bpf/ioslower.bpf.c:738-743 | for either tool, exactly when a successful mmap files its own device, another call's, or none |
| VmaIndex.SlowMunmapStoredIff | src/bpf/ioslower.bpf.c:748-766 | ioslower filtering for a device stores a munmap iff it hits the index and the map has room |
| VmaIndex.MunmapOffersMmapsDevice | src/bpf/ioslower.bpf.c:757-758 | a munmap that hits the index carries the device of the mmap it hit |
| VmaIndex.SlowMunmapReportedIff | src/bpf/ioslower.bpf.c:243-299 | ioslower reports a munmap at its exit, if floor and ring let it, iff it hit the index, the map had room and no tracked call was entered inside it |
| VmaIndex.SlowIndexTakesOuterDevice | src/bpf/ioslower.bpf.c:738-743 | a run where ioslower files the device of the call around a mmap without a file |
| VmaRace.MunmapIsAtomicIff | src/bpf/iosnoop.bpf.c:1202-1204 | with other threads between its lookup and removal, the exact condition for a munmap to take the entry, and so have the device, of one whole step at its removal |
| VmaRace.DeviceIsAtomicIff | src/bpf/iosnoop.bpf.c:1202-1204 | where mmaps have distinct devices, the same condition for the device |
| VmaRace.RemapDuringMunmap | src/bpf/iosnoop.bpf.c:1202-1204 | a run where a remap in between is taken away by a munmap that has the old device |
| VfsProbes.SnoopExitReportsOwnCall | src/bpf/iosnoop.bpf.c:353-396 | iosnoop, on nested threads: every exit adds exactly its own call's event |
| VfsProbes.SnoopExitReportsOwnIff | src/bpf/iosnoop.bpf.c:353-396 | iosnoop where operations may be open several times: the exact condition for an exit to report its own call |
| VfsProbes.SnoopRunReportsOwnIff | src/bpf/iosnoop.bpf.c:353-396 | iosnoop's run as a whole reports right if no stored call's operation is entered again inside it; for finished runs with room, only if |
| VfsProbes.SnoopToleratesRepeats | src/bpf/iosnoop.bpf.c:1337-1357 | where an exit fires two programs, iosnoop's output is that of the run without the repeats, in which every exit reports its own call |
| VfsProbes.SlowThreadReportsItsLeaves | src/bpf/ioslower.bpf.c:243-299 | ioslower, on nested threads all stored: exactly the innermost calls that reach the threshold, and no record left |
| ProbeRuns.SnoopReportsCall | src/bpf/iosnoop.bpf.c:327-396 | over the probes: an exit whose record no other probe used since its entry was filed adds, iff the ring has room, the event of exactly that entry's operation, name and arguments with the exit's own return value, process, task and time |
| ProbeRuns.SlowReportsCall | src/bpf/ioslower.bpf.c:243-299 | the same for ioslower, iff besides the time between the two probes reaches the threshold, with exactly that latency |
| ProbeRuns.UnfiledCallIsSilent | src/bpf/ioslower.bpf.c:279-299 | a call whose entry was not filed, and met no record, is not reported |
| ProbeRuns.EntriesReportNothing | src/bpf/iosnoop.bpf.c:353-364 | entries add nothing to the ring |
| ProbeRuns.MunmapGetsMappedFile | src/bpf/iosnoop.bpf.c:1147-1212 | from the entry of a mmap of a file over its exit to the munmap: the munmap gets the device of the file |
| IosnoopBpf.Iosnoop.constructor | src/bpf/iosnoop.bpf.c:108-124 | maps and ring start empty, matching the machine's start |
| IosnoopBpf.Iosnoop.EmitEvent | src/bpf/iosnoop.bpf.c:327-351 | adds the event of the record, the calling process and the return value, or nothing without room |
| IosnoopBpf.Iosnoop.SubmitOrDrop | src/bpf/iosnoop.bpf.c:353-364 | is the tracker's start under (thread, operation) with the mount filter's verdict; the new maps and ring are written out from the arguments and the old state |
| IosnoopBpf.Iosnoop.FinishEvent | src/bpf/iosnoop.bpf.c:382-396 | is the tracker's completion; the record goes even when the ring is full; the new maps and ring are written out from the arguments and the old state |
| IosnoopBpf.Iosnoop.TraceEnter | src/bpf/iosnoop.bpf.c:1147-1167 | an entry probe is the machine's entry step, which files nothing for a null pointer; the new maps and ring are written out from the arguments and the old state |
| IosnoopBpf.Iosnoop.TraceExit | src/bpf/iosnoop.bpf.c:1140-1145 | an exit probe is the machine's exit step, with the low 32 bits of the return register; the new maps and ring are written out from the arguments and the old state |
| IosnoopBpf.Iosnoop.TraceDoMmapReturn | src/bpf/iosnoop.bpf.c:1169-1190 | is the machine's mmap exit: indexes the device for a positive address, reports 0 or the error; the new maps and ring are written out from the arguments and the old state |
| IosnoopBpf.Iosnoop.TakeVmaDev | src/bpf/iosnoop.bpf.c:1197-1204 | the device filed under the packed key, or zero, and the index without that key |
| IosnoopBpf.Iosnoop.TraceVmMunmap | src/bpf/iosnoop.bpf.c:1192-1212 | is the machine's munmap entry: looks the device up, removes it, files the call; the new maps and ring are written out from the arguments and the old state |
| IoslowerBpf.FloorTest | src/bpf/ioslower.bpf.c:255-270 | the test on whole microseconds is the test on nanoseconds; the 32-bit field is exact iff below 2^32 microseconds |
| IoslowerBpf.Ioslower.EmitEvent | src/bpf/ioslower.bpf.c:243-277 | adds the event iff the latency in microseconds reaches the threshold and the ring has room |
| IoslowerBpf.Ioslower.StartOrDrop | src/bpf/ioslower.bpf.c:279-285 | is the tracker's start under the thread alone; the new maps and ring are written out from the arguments and the old state |
| IoslowerBpf.Ioslower.FinishEvent | src/bpf/ioslower.bpf.c:287-299 | is the tracker's completion with minimum 1000 * threshold nanoseconds; the new maps and ring are written out from the arguments and the old state |
| IoslowerBpf.Ioslower.TraceEnter | src/bpf/ioslower.bpf.c:712-727 | an entry probe is the machine's entry step, stamped with its time; it files nothing for a null pointer; the new maps and ring are written out from the arguments and the old state |
| IoslowerBpf.Ioslower.TraceExit | src/bpf/ioslower.bpf.c:768-773 | an exit probe is the machine's exit step for whatever call the thread's record names; the new maps and ring are written out from the arguments and the old state |
| IoslowerBpf.Ioslower.TraceDoMmapReturn | src/bpf/ioslower.bpf.c:729-746 | is the machine's mmap exit; it uses the thread's record whatever its operation; the new maps and ring are written out from the arguments and the old state |
| IoslowerBpf.Ioslower.TakeVmaDev | src/bpf/ioslower.bpf.c:753-759 | the device filed under the packed key, or zero, and the index without that key |
| IoslowerBpf.Ioslower.TraceVmMunmap | src/bpf/ioslower.bpf.c:748-766 | is the machine's munmap entry; the new maps and ring are written out from the arguments and the old state |
| SlowerBpf.SmbTrackersAgree | src/bpf/smbslower.bpf.c:98-189 | fed the same requests under the two kinds of key, with none restarted in flight, both SMB trackers put the same events in the ring and hold as many records |
| SlowerBpf.ConsumerReadsSmbEvent | src/common/shim_consumer.py:162-178 | whatever bytes the record held, the consumer prints the latency, command, request, process and task of the tracker's event, and the record's end time is the event's |
| SlowerBpf.SmbRequestReachesConsumer | src/bpf/smbslower.bpf.c:98-189 | in every run of either tracker under a clock that never goes back: a completed request that reaches the minimum and finds room reaches the consumer as the time between its two probes, and end less latency is the start |
| SlowerBpf.SmbSlower.TraceSmb3CmdEnter | src/bpf/smbslower.bpf.c:135-154 | is the tracker's start under (tid, sesid, mid) with BPF_ANY, filtered by the deny list; the new map and ring are written out |
| SlowerBpf.SmbSlower.CompleteTraceEvent | src/bpf/smbslower.bpf.c:156-189 | is the tracker's completion; the ring gets the event as shown to user space; the new map and ring are written out |
| SlowerBpf.SmbSlower.MidAlloc | src/bpf/smbslower.bpf.c:215-231 | is the tracker's start under the pointer with BPF_NOEXIST; the new map and ring are written out |
| SlowerBpf.SmbSlower.MidAllocKretprobe | src/bpf/smbslower.bpf.c:233-298 | the same unless the pointer is null, when nothing changes; the new map and ring are written out |
| SlowerBpf.SmbSlower.ProbeExit | src/bpf/smbslower.bpf.c:98-133 | is the pointer tracker's completion; the new map and ring are written out |
| NfsSlots.SlotsRefineTracker | src/bpf/nfsslower.bpf.c:23-28 | in every run where accepted entries get free slots, the slots in use hold what the tracker's map holds |
| NfsSlots.KeepsContent | src/bpf/nfsslower.bpf.c:79-94 | a slot keeps its content, freed or not, until it is taken again |
| NfsSlots.HoldsLastTakers | src/bpf/nfsslower.bpf.c:79-94 | and then holds what the last taker wrote |
| NfsSlots.ReadsOwnCommandIff | src/bpf/nfsslower.bpf.c:72-94 | whatever enters between an exit's removal and its read, the command read is the answered start's iff the freed slot was not taken by then, or last for the same command |
| NfsSlots.ReportsLikeTrackerIff | src/bpf/nfsslower.bpf.c:67-100 | the exit reports what the tracker's completion reports iff that is so or no event is due |
| NfsSlots.FreedSlotIsReused | src/bpf/nfsslower.bpf.c:79-94 | a run where the event names the next request's command |
| NfsSlowerBpf.NfsSlower.ProbeEntry | src/bpf/nfsslower.bpf.c:52-65 | is the tracker's start under the rpc_task pointer with BPF_NOEXIST, with its record in the slot given; the new maps or ring are written out |
| NfsSlowerBpf.NfsSlower.TakeRecord | src/bpf/nfsslower.bpf.c:72-79 | looks the record up, takes its latency and removes it; the slot's content stays |
| NfsSlowerBpf.NfsSlower.EmitEvent | src/bpf/nfsslower.bpf.c:81-97 | reports with the latency taken and the command the slot holds now, iff the floor and the ring let it; the new maps or ring are written out |
| NfsSlowerBpf.NfsSlower.ProbeExit | src/bpf/nfsslower.bpf.c:67-100 | with nothing in between, the two halves are the tracker's completion |
| NfsSlowerBpf.ConsumerReadsNfsEvent | src/common/shim_consumer.py:162-178 | the consumer prints the latency, command, request, process and task of the tracker's event |
| Formatter.PlaceExtends | src/bpf/iosnoop.bpf.c:273-314 | appending to a buffer that holds a text's longest fitting prefix leaves that of the longer text |
| Formatter.S64Extends | src/bpf/iosnoop.bpf.c:316-325 | the same for a negative number, also when the minus takes the last slot and the digit writer returns early |
| Formatter.ItemExtends | src/bpf/iosnoop.bpf.c:273-325 | the same for every append call |
| Formatter.ChainHoldsPrefix | src/bpf/iosnoop.bpf.c:273-325 | any chain of appends on a zeroed buffer writes exactly a prefix of the ideal text, nothing at or past max, zeros from the returned position on |
| Formatter.TwentyDigitsSuffice | src/bpf/iosnoop.bpf.c:289-304 | twenty digits hold every unsigned 64-bit number |
| Formatter.PlaceMeans | src/bpf/iosnoop.bpf.c:273-314 | an append byte by byte: the text as far as it leaves room for a terminator, the terminator, nothing else |
| Formatter.AppendsMean | src/bpf/iosnoop.bpf.c:273-325 | a literal counts up to forty characters, a number needs room for one, a minus goes before the digits if it has room |
| Formatter.NegationIsMagnitude | src/bpf/iosnoop.bpf.c:318-324 | two's-complement negation read as unsigned is the magnitude, for the most negative number too |
| Formatter.ArgumentsFit | src/bpf/iosnoop.bpf.c:700-703 | two labelled 64-bit numbers fit 128 bytes untruncated |
| Formatter.ArgumentsRoundTrip | src/bpf/iosnoop.bpf.c:700-703 | the text in the buffer parses back to the same two numbers |
| Formatter.AppendLit | src/bpf/iosnoop.bpf.c:273-285 | writes at most 40 characters of the literal that fit, then a terminator, nothing else |
| Formatter.Peeled | src/bpf/iosnoop.bpf.c:301-304 | the digit loop ends with the whole number peeled off, last digit first |
| Formatter.CopyBack | src/bpf/iosnoop.bpf.c:306-313 | copies the digits in reverse as far as they fit, then a terminator |
| Formatter.AppendU64Dec | src/bpf/iosnoop.bpf.c:287-314 | places the decimal text, or returns at once with no room |
| Formatter.AppendS64Dec | src/bpf/iosnoop.bpf.c:316-325 | places sign and magnitude of any signed 64-bit number |
| Formatter.ReadArgs | src/bpf/iosnoop.bpf.c:700-703 | the argument text of a read parses back to its count and position |
| Formatter.FallocateArgs | src/bpf/iosnoop.bpf.c:1110-1113 | the argument text of a fallocate parses back to its offset and length |
| EventCodec.CLayout | src/common/aod_diag.h:16-29 | field offsets of the C struct under natural alignment |
| EventCodec.NumpyLayout | src/common/shim_consumer.py:44-56 | field offsets of the aligned numpy type |
| EventCodec.LayoutsAgree | src/common/shim_consumer.py:44-56 | both sides put each field at the same offset in 48 bytes |
| EventCodec.ReadBack | src/common/shim_consumer.py:44-56 | a number stored in w little-endian bytes reads back |
| EventCodec.LowBytes | src/common/aod_diag.h:16-19 | a wider read is the low number plus the scaled high bytes |
| EventCodec.MetricReadsBack | src/common/aod_diag.h:16-19 | a 64-bit latency reads back whole and a 32-bit status reads back as the low half, whatever the stale upper bytes |
| EventCodec.ConsumerRecoversEvent | src/common/shim_consumer.py:162-178 | the consumer's reading of any record a probe filled, over any stale bytes, is what the probe recorded; the pid iff below 2^31 |
| EventCodec.DecodedInRange | src/common/shim_consumer.py:162-178 | whatever bytes a record holds, every number the consumer shows is within its field |
| EventCodec.PutLE | src/bpf/smbslower.bpf.c:123-127 | a store of w bytes changes those bytes to the number and no others |
| EventCodec.FillEvent | src/bpf/smbslower.bpf.c:123-130 | filling a reserved record in place is the encoding over its stale bytes |
| RingShim.PollAccounts | src/ringbuf_shim.c:32-46 | one poll: consumed full-size records are the batch in order then at most one lost record, lost only after a full batch |
| RingShim.RunTakesAll | src/ringbuf_shim.c:82-101 | a run takes in all that producers add, in order, and has one outcome of the right capacity for each poll |
| RingShim.DrainingLosesAtMostOnePerPoll | src/ringbuf_shim.c:26-46 | over all runs of producers and polls the batches in order are the consumed full-size records, minus at most one per poll, dropped only by a poll that returned its capacity; nothing else is lost |
| RingShim.ConsumerSeesEventsInOrder | src/common/shim_consumer.py:155-178 | from probe to consumer: decoding batches and lost records recovers the produced events in order |
| RingShim.RbContext.CopyEvent | src/ringbuf_shim.c:32-46 | copies a full-size record to the next slot and nothing outside it, skips short ones, fails when full |
| RingShim.RbContext.Drain | src/ringbuf_shim.c:82-89 | the ring's loop over the callback hands over what the specification of one poll says |
| RingShim.RbContext.PollInto | src/ringbuf_shim.c:82-101 | the buffer holds the batch and keeps every byte after it; the result is the count, else -1 for a record dropped, else the poll's error, EINTR and no event read as 0 |
| FdPaths.ParseFdFromArgs | src/user/iosnoop.c:286-303 | the result is a descriptor that fits an int, or -1 |
| FdPaths.FdTextReadsBack | src/user/iosnoop.c:286-303 | every number up to INT_MAX after "fd=" is read back whatever follows; larger ones are refused |
| FdPaths.TableTracksRun | src/user/iosnoop.c:508-529 | the handler's table after any events is the tracker's record of opens not closed |
| FdPaths.ShownIsLatestOpen | src/user/iosnoop.c:508-517 | the path shown for a descriptor event is that of the latest recorded non-empty open of (pid, fd) not followed by a close, else the event's own |
| FdPaths.OpenIsShown | src/user/iosnoop.c:264-343 | an event on the descriptor of a successful open, with no other open or close of it in between, is shown with the first 255 characters of the open's path |
| FdPaths.CloseForgets | src/user/iosnoop.c:508-529 | after a close, with no open of it in between, with its own name |
| FdPaths.FormattedFromProbe | src/bpf/iosnoop.bpf.c:672-1232 | whatever a probe appends to its buffer after its first label, the text left starts with that label |
| FdPaths.ProbesNameNoDescriptor | src/bpf/iosnoop.bpf.c:672-1232 | no argument text of an enabled probe, empty or with one of the twelve first labels, names a descriptor |
| FdPaths.ProbeEventsNeverUseTable | src/user/iosnoop.c:508-529 | on such events the handler shows the event's own name and drops no entry |
| FdPaths.TableReplaced | src/user/iosnoop.c:326-332 | rewriting one entry's path updates the table at its key |
| FdPaths.TableWithout | src/user/iosnoop.c:349-357 | unlinking an entry deletes its key from the table and no other |
| FdPaths.FdList.Walk | src/user/iosnoop.c:305-316 | the walk ends on the entry of a key iff the table has it |
| FdPaths.FdList.FdPathLookup | src/user/iosnoop.c:305-316 | returns the table's path for a key, or nothing |
| FdPaths.FdList.FdPathSet | src/user/iosnoop.c:318-343 | updates the table at the key with the clipped path; nothing for an empty path, a negative descriptor, or a new key without memory |
| FdPaths.FdList.FdPathDel | src/user/iosnoop.c:345-358 | deletes the key from the table; the list stays linked, acyclic and free of repeated keys |
| FdPaths.FdList.FdPathFreeAll | src/user/iosnoop.c:360-370 | releases each entry exactly once, in list order, and empties the table |
| FdPaths.FdList.HandleEvent | src/user/iosnoop.c:484-532 | shows the table's path and takes the table to its next state |
| SmbSelect.Skeleton.SelectAlloc | src/user/smbslower.c:262-347 | leaves the tracepoint programs, or one allocation program, besides the release programs; refuses a module without type information and verified layout |
| SmbSelect.Skeleton.DisableReleases | src/user/smbslower.c:359-378 | switches all ten release programs off and nothing else |
| SmbSelect.Skeleton.SelectRelease | src/user/smbslower.c:383-428 | picks the release program for the inspected function, refuses unsupported prototypes |
| SmbSelect.Skeleton.Select | src/user/smbslower.c:262-435 | ends with exactly the three tracepoint programs, or exactly one allocation and one release program, or refuses |
| SmbSelect.SelectionIsConsistent | src/user/smbslower.c:262-435 | fixed layouts are read only on their own build, fixed programs pair with fixed and errata with errata, fentry only where it attaches |
| SmbSelect.ChoiceOf | src/user/smbslower.c:262-407 | tracepoints iff all three exist and are not skipped; refused iff the module has neither type information nor a verified build, or the first known of the three functions has an unsupported prototype |
| SmbSelect.AllocationOf | src/user/smbslower.c:262-347 | which allocation program on which kernel: fexit only where it attaches |
| SmbSelect.ReleaseOf | src/user/smbslower.c:383-428 | which release program on which kernel, by function and prototype |
| SmbSelect.FixedOffsets | src/bpf/smbslower.bpf.c:92-96 | without type information: the offsets each build's programs read at, and the function they hook |
| SmbSelect.ReleaseFindsWhatAllocFiled | src/user/smbslower.c:383-428 | wherever probes are selected the release program computes the key the allocation filed; it hooks another function than the one inspected iff the layout is not fixed, __release_mid is unknown and release_mid takes two parameters |
| SmbSelect.TwoParameterReleaseMidMissesHook | src/user/smbslower.c:391-424 | a kernel where it hooks another function than the one inspected |
| SmbFilter.AtoiExact | src/user/smbslower.c:58 | a token means the number it starts with iff that fits an int, and 0 if it starts with none |
| SmbFilter.CommandNumbers | src/user/smbslower.c:58-62 | the commands are those numbered 0 to 19 |
| SmbFilter.TokenNamesCommand | src/user/smbslower.c:58-62 | which tokens name which command, for every text |
| SmbFilter.TakenIff | src/user/smbslower.c:56-66 | a command is taken iff it is listed with fewer than the maximum of commands before it |
| SmbFilter.ShortListIsComplete | src/user/smbslower.c:56-66 | a list of up to the maximum of tokens loses no command |
| SmbFilter.OptionRoundTrip | src/user/smbslower.c:50-67 | of numbers written with commas between them exactly the commands are taken |
| SmbFilter.WordTakesCommandZero | src/user/smbslower.c:58-62 | a word that is no number takes command 0 |
| SmbFilter.CmdFilter.ParseCmdList | src/user/smbslower.c:50-67 | from the option's text: returns the number of commands taken and marks exactly those, besides the ones marked before |
| SmbFilter.CmdFilter.UpdateDenylistMap | src/user/smbslower.c:212-226 | denies a command iff it is excluded, or an include list leaves it out |
| HookSelect.VfsFentryFamilySupported | src/user/iosnoop.c:165-196 | true iff every one of the sixteen hooks attaches with its expected parameter count |
| HookSelect.FamilyOf | src/user/iosnoop.c:165-196 | the family is supported iff all hooks attach and have the sixteen parameter counts, written out |
| HookSelect.Skeleton.SelectVfsHookFamily | src/user/iosnoop.c:198-253 | which programs stay loaded, for any list of programs and any kernel |
| HookSelect.LoadedKinds | src/user/iosnoop.c:212-247 | system-call programs are never loaded, those with their own probes always, fentry programs and fallbacks never together |
| HookSelect.EntriesPairWithExits | src/user/iosnoop.c:212-247 | each hook gets one entry and one exit program, or none where the function is missing; vfs_rename keeps two exits in kprobe mode |
| NfsErrors.TableIncreases | src/common/nfs_diag.h:21-30 | the table has 113 entries and strictly increases |
| NfsErrors.TableMembers | src/common/nfs_diag.h:21-30 | its members are the 18 low codes and 10001 to 10097 but 10002 and 10073 |
| NfsErrors.ValidateErrCode | src/user/nfsiosnoop.c:65-75 | the binary search accepts exactly the members |
| NfsErrors.ParsedFilter | src/user/nfsiosnoop.c:77-100 | parsing fails iff a token is not a positive number; the filter holds only table codes, at most 113; after a parsed option the first 113 table codes listed |
| NfsErrors.CodeTokens | src/user/nfsiosnoop.c:83-91 | which tokens are codes: blanks and a plus may precede the number; a minus, zero, too large a number or any text behind it refuses |
| NfsErrors.FirstOptionRefusedIff | src/user/nfsiosnoop.c:125-136 | a first option is refused iff a token is not a positive number or none is a table code |
| NfsErrors.CodesAreListed | src/user/nfsiosnoop.c:77-100 | a code counts as listed iff it is in the table and some token reads as it |
| NfsErrors.CompleteIffEarly | src/user/nfsiosnoop.c:92-93 | every listed table code is kept iff none first appears after 113 entries, repeats included |
| NfsErrors.RepeatsCrowdOut | src/user/nfsiosnoop.c:92-93 | 113 repeats of one code crowd out the next |
| NfsErrors.LargeNumbersAlias | src/user/nfsiosnoop.c:86-93 | a number counts as a table code by its low 32 bits, which differs from being one exactly from 2^32 on with such low bits |
| NfsErrors.AliasOfFive | src/user/nfsiosnoop.c:86-93 | 4294967301 counts as error 5 |
| CommaLists.ListSplits | src/user/nfsiosnoop.c:81-97 | a comma-separated list of numbers splits into those numbers' texts |
| NfsErrors.OptionRoundTrip | src/user/nfsiosnoop.c:77-100 | up to 113 codes written with commas are accepted, and exactly the table codes among them end up in the filter |
| NfsErrors.ErrFilter.Keep | src/user/nfsiosnoop.c:92-93 | appends a table code while there is room and keeps the filter valid |
| NfsErrors.ErrFilter.ParseErrList | src/user/nfsiosnoop.c:77-100 | the array holds what parsing the tokens gives, added to what it held; -1 iff a token is unreadable, else the count |
| NfsErrors.ErrFilter.ParseErrOption | src/user/nfsiosnoop.c:125-136 | the option is refused iff a token is unreadable or the filter stays empty |
| NfsErrors.ErrFilter.UpdateAllowlistErrors | src/user/nfsiosnoop.c:181-194 | no map update fails, and the map's keys are exactly the filter's codes |
| NfsErrors.NfsIosnoop.ProbeEntry | src/bpf/nfsiosnoop.bpf.c:87-130 | adds one event with the positive error iff the status is nonzero, passes the filters and the ring has room; written out for no filter, for a command filter and for an error filter |
| NfsErrors.NfsIosnoop.EmitXdrStatus | src/bpf/nfsiosnoop.bpf.c:132-158 | the same for the reply's error, by its low 32 bits; written out for no filter, for a command filter and for an error filter |
| NfsErrors.ConsumerReadsNfsError | src/common/shim_consumer.py:162-178 | the consumer prints the magnitude of the status, or the low 32 bits of the error, with the request's command, number, process and task |
| NfsErrors.ReportedIffListed | src/bpf/nfsiosnoop.bpf.c:93-118 | for every accepted option text and no command filter: reported iff the status is not INT_MIN and its absolute value is among the first 113 table codes listed |
| NfsErrors.ReportedIffAsked | src/bpf/nfsiosnoop.bpf.c:93-118 | for numbers written on the command line: reported iff the absolute status is one of them and a known NFS error |
| NfsErrors.ProbesAgree | src/bpf/nfsiosnoop.bpf.c:87-158 | both probes decide and report alike for one error, and the consumer reads that error |
| NfsErrors.OnlyTableCodesReported | src/bpf/nfsiosnoop.bpf.c:132-140 | with a filter of table codes only table codes are reported, never INT_MIN |
| Decimal.ReadDecText | src/bpf/iosnoop.bpf.c:301-310 | the decimal text of a number reads back to it |
| Decimal.StrtolText | src/user/iosnoop.c:296-298 | scanning a decimal text gives the number and the text behind it |
| Decimal.StrtolSigned | src/user/nfsiosnoop.c:85 | blanks, an optional sign and digits scan as the signed number, up to what follows |
| Decimal.StrtolNone | src/user/nfsiosnoop.c:85 | anything else scans as no number |

## Left out

- Kernel structure walking (`dev_from_*`, `read_*_name`, CO-RE reads, registers): device, name, command and request id are inputs of the probe steps.
- The system-call programs of iosnoop, which the loader always switches off.
- libbpf, BTF, tracefs, `/proc/kallsyms`, `uname`: an environment record holds their answers. The mount device lookup of user space is an input.
- Program names and sections: `HookSelect` uses a datatype in place of the string tests that tell programs apart, and one flag in place of the autoload and autoattach pair, which the source always sets alike.
- argp, signals, time formatting, printing, wakeup flags, the Python `detach` code, endian macros, smbiosnoop: user interface, or a repeat of members that are here. The option parsing of nfsslower and the command option of nfsiosnoop repeat smbslower's.
- SmbFilter.CmdFilter.ParseCmdList: allocation failure of the copied argument, which returns -1, is not modelled. `atoi` is undefined in C for numbers out of range; the model follows the GNU C library.
- NfsSlowerBpf.NfsSlower.ProbeEntry: which free slot the map picks is an input.
- FdPaths.FdList.Walk: lookup, set and delete each have this loop in the source; the model shares one. Memory release is modelled by the list of entries released, not by the heap.
- FdPaths.FdList.HandleEvent: models what is recorded and which path is shown, not the record-size check before it nor the printed line.
- Formatter.CopyBack: the digit writer's second loop is a method of its own, as is its first.
- NfsErrors.ErrFilter.ParseErrList: allocation failure of the copied argument, which returns -1, is not modelled.
