# Verified models of the SrvrOS evidence tools

SrvrOS collects evidence about itself through host-side tools: an offline host for the ACPI interpreter, a codec
for CPU capture records, a verifier for recorded PCM, a merger and validator of application timing records, the
retention of disk checkpoints, a validator of thread-local storage in ELF files, and a budget for the saved tail of
the log. This project models the algorithms inside those tools and proves what they promise.

Code that works step by step is a method with a loop, and code that changes state in place is a class with fields
and arrays; each is proved equal to a specification function, and the theorems are about that function. Code made
of expressions is modelled by functions.

| Dafny modules | part of the repository |
|---|---|
| `OfflineHost` | allocator and ring of deferred work of the offline ACPI host |
| `FlatMemory`, `IoModels`, `PhysicalMemory` | byte windows of that host as one flat address space |
| `TableChecksum` | checksums of the synthetic ACPI tables |
| `CaptureFormat`, `CaptureLines`, `CaptureRoundTrip`, `CaptureOrder`, `CaptureTamper` | the compact CPU capture codec |
| `CaptureTail`, `TailLaws`, `WidthBudget`, `TailBudget`, `FinalLayout`, `LayoutText`, `LayoutSamples` | the 64 KiB log tail: critical records, padding, layout |
| `PcmStream`, `PcmDecomposition`, `PcmCopies`, `PcmFixture` | the streaming PCM verifier |
| `AppTiming`, `SnapshotMerge`, `MergeLaws`, `TimingEvidence` | timing records: begin/end matching, snapshot merging, and both together |
| `LifecycleReceipts`, `LifecycleLaws` | the join of ready and closed receipts |
| `CheckpointRetention`, `CheckpointCollection` | retention of disk checkpoints |
| `ElfTls`, `ElfSample` | the TLS contract of a static ELF |
| `Text`, `Sorting`, `Collections` | lines, fields and numerals; the stable sort; filtering |

`dafny verify dfyconfig.toml` checks everything.

Results that read differently from what the documentation suggests; the model follows the code in each case:

- The log tail keeps the critical records exactly under the condition of `TailLaws.TailExact`. A log without a final
  LF loses its last record when that record is critical (`UnfinishedIsLost`), because the padding is glued to it; a
  banner inside a line becomes a new record (`InsideIsLost`).
- `final_layout` says that it only moves records. The bag of critical lines loses the admission exactly when no
  `ap-owner-cpu:` line exists (`LayoutKeepsRecords`), and the text written has the records of the log exactly when such
  a line exists and the log does not end in an unfinished banner, phase or admission line (`TextKeepsRecords`);
  `AdmissionIsLost` and `UnfinishedIsGlued` are logs that fail.
- Merged snapshots keep the order of one snapshot only up to ties: two records of one process and one time come out
  in the order of the first snapshot that holds either (`TieOrder`), which can be against another (`TieMayReverse`).
- A snapshot that adds nothing new is still refused by the receipt join if it repeats a line (`RepeatedLineRefused`,
  exact in `RecoverWithSubset`).
- Intervals of one phase are in order within a lane (`LaneIntervalsDisjoint`), but can overlap across lanes
  (`LanesMayOverlap`). In an accepted log all intervals of a phase are in order exactly when every change of lane
  between them goes forward in time (`InOrderExact`). The collected evidence never shows the overlap: it is validated
  only after merging (audio_io_stress_smoke.py, line 261), merged records are in time order, and records in time order
  have their intervals in order whatever the lanes (`TimeInOrder`, `MergedInOrder`).
- Merging can change the verdict of the validator: the overlapping sample is accepted as it stands and refused once
  merged (`MergeMayRefuse`). Merging one snapshot leaves the rows of a process alone exactly when they are in time
  order (`SingleMergeExact`), and then the verdict is the same (`SingleVerdict`).
- The ELF validator does not keep zero-initialised sections clear of the initialised part. In an accepted file such a
  section is zero in the image exactly when the bytes it lies over are (`NobitsZero`), and it is zero whatever the file
  holds exactly when it starts after the initialised part (`NobitsClear`); `NobitsNotZero` is an accepted file with a
  non-zero one.
- A file that the ELF validator accepts is reported as covered by the link probe exactly when the probe can read the
  section names (`AcceptedIsCovered`); `AcceptedUnread` is an accepted file on which it fails.

## Model

| member | source | states |
|---|---|---|
| `OfflineHost.Host.Alloc` | tools/acpi_namespace_probe.c:85-92 | With `size_t` wrap-around written out: an allocation succeeds exactly when size, header and what is already charged fit in 4 MiB, so nothing wraps; a refused one changes nothing; the counter stays the sum of the live charges; each block handed out has a name of its own |
| `OfflineHost.Host.Free` | tools/acpi_namespace_probe.c:93-95 | Freeing subtracts exactly the block's own charge, without wrap-around, and keeps every invariant |
| `OfflineHost.ChargesWithout` | tools/acpi_namespace_probe.c:84-95 | The sum of charges does not depend on the order in which blocks are summed or freed |
| `OfflineHost.Host.ZeroMeansFreed` | tools/acpi_namespace_probe.c:467 | In every reachable state the counter is zero if and only if every block has been freed, so the exit test is a leak test |
| `OfflineHost.Host.CreateWorkItem` | tools/acpi_namespace_probe.c:116-118 | A new work item is a live block that is not pending, charged for its size and header |
| `OfflineHost.Host.FreeWorkItem` | tools/acpi_namespace_probe.c:119-122 | A work item can be freed exactly when it is not in the ring |
| `OfflineHost.Host.PendingIffQueued` | tools/acpi_namespace_probe.c:37-39 | In every reachable state a live work item is pending if and only if it is in the ring |
| `OfflineHost.ListsMembers` | tools/acpi_namespace_probe.c:37-39 | The ring holds exactly the pending items, each once |
| `OfflineHost.FifoPush` | tools/acpi_namespace_probe.c:127-127 | Writing the slot after the last, modulo 128, appends to the queue the ring stands for |
| `OfflineHost.FifoPop` | tools/acpi_namespace_probe.c:131-131 | Advancing the head, modulo 128, drops the front of the queue the ring stands for |
| `OfflineHost.Host.Schedule` | tools/acpi_namespace_probe.c:123-128 | Scheduling survives exactly when permitted, well-formed, not already queued, below 128 queued and below 4096 ever; then the item is last in the queue with that handler and context |
| `OfflineHost.Host.Pop` | tools/acpi_namespace_probe.c:131-132 | The call made is the oldest queued one, with the handler and context it was scheduled with, and the item may be scheduled again |
| `OfflineHost.Host.Drain` | tools/acpi_namespace_probe.c:129-135 | For arbitrary handlers, nested waits included, the drain terminates (measure 2*(4096-total)+queued) and at most 4096 calls are ever made. It ends with an empty ring, nothing pending, the calls made being exactly the calls scheduled, in order, and every handler having made exactly the calls of its script; or else the very next call in the script of a handler that was run is misuse or fails the tests of the host, and nobody did more than its script says. Either way the blocks handed out and freed, the bytes charged and the items scheduled are those that replaying the recorded calls gives |
| `OfflineHost.Host.RunNext` | tools/acpi_namespace_probe.c:130-133 | One round of the loop: the oldest call is made, with all that runs inside it, or the run stops at a call that is misuse or refused; the measure falls |
| `OfflineHost.Host.RunHandler` | tools/acpi_namespace_probe.c:116-135 | A handler makes its calls one after the other, all invariants kept, and what was scheduled is what it and the handlers run inside it asked for, in order; it stops early only at a call that is misuse or refused, when the calls before it were all made; blocks, charges and scheduled items are what replaying the calls made gives |
| `OfflineHost.Host.Perform` | tools/acpi_namespace_probe.c:84-135 | One call into the host is misuse exactly when its pointer is neither null nor live and of the right kind (a plain free takes any block that is not queued), and fatal exactly when it is sane but fails a test of the C code; otherwise it goes through and changes blocks, charges and scheduled items exactly as the call says; a call that fails changes none of them |
| `OfflineHost.TakenBack` | tools/acpi_namespace_probe.c:93-95 | Freeing the block of a name takes back exactly that name and its charge |
| `OfflineHost.HandlerDone` | tools/acpi_namespace_probe.c:130-133 | If a handler did its script and those run inside it did theirs, every handler of the round did exactly its script |
| `OfflineHost.ActionStopped` | tools/acpi_namespace_probe.c:129-135 | A run that stops inside one call of a handler stops at the next undone call of some script, nobody having done more than its script |
| `FlatMemory.FlatAt` | tools/acpi_namespace_probe.c:167-175 | Disjoint windows form one address space in which each address has the byte of the only window that covers it |
| `FlatMemory.FlatDomain` | tools/acpi_namespace_probe.c:167-170 | An address exists in the flat space if and only if some window covers it |
| `FlatMemory.LoadWindow` | tools/acpi_namespace_probe.c:172-173 | A range inside one window reads as the flat space reads there |
| `FlatMemory.StoreWindow` | tools/acpi_namespace_probe.c:175-175 | Writing inside one window changes exactly those addresses of the flat space and keeps the windows disjoint |
| `FlatMemory.ValueOfBytes` | tools/acpi_namespace_probe.c:173-175 | The little-endian value of the bytes of a value that fits is the value |
| `FlatMemory.BytesOfValue` | tools/acpi_namespace_probe.c:173-175 | The bytes of the little-endian value of some bytes are those bytes |
| `IoModels.Fetch` | tools/acpi_namespace_probe.c:172-173 | The shift-and-or loop computes the little-endian value |
| `IoModels.Put` | tools/acpi_namespace_probe.c:175-175 | The shift-and-truncate loop writes the low bytes in place and no other byte |
| `IoModels.IoSpace.AddModel` | tools/acpi_namespace_probe.c:334-355 | A model is admitted exactly when it is in bounds and overlaps no earlier one, so windows stay disjoint |
| `IoModels.IoSpace.Map` | tools/acpi_namespace_probe.c:145-161 | Mapping succeeds exactly for a non-empty range of ports that meets some model, given memory; else it is counted as denied |
| `IoModels.OneReach` | tools/acpi_namespace_probe.c:167-171 | At most one model can serve an access, so the first match is the only one |
| `IoModels.IoSpace.Access` | tools/acpi_namespace_probe.c:163-183 | An access succeeds if and only if it lies in the mapping and in one model whose guard admits it; a read is the little-endian value of the flat space and changes nothing; a write changes only those bytes; a refusal changes no byte |
| `IoModels.GuardedWrite` | kernel/src/drivers/acpi_io_rule.c:3-13 | A write admitted by the guard only sets bits of the mask |
| `IoModels.GuardsKept` | tools/acpi_namespace_probe.c:171-175 | Over every run a guarded byte differs from its loaded value only by added mask bits |
| `IoModels.ReadBack` | tools/acpi_namespace_probe.c:163-183 | After a permitted write, guard included, a read of the same width through the same mapping is permitted and yields the written value |
| `IoModels.IoSpace.WriteThenRead` | tools/acpi_namespace_probe.c:163-183 | The same for two calls of the access function: the write succeeds exactly within the budget, through a mapping, and when permitted; then, within the budget, the read succeeds and gives the written value |
| `IoModels.WriteBack` | tools/acpi_namespace_probe.c:172-175 | Writing back the value that a read of the same width gave changes no byte |
| `PhysicalMemory.Memory.AddMapping` | tools/acpi_namespace_probe.c:66-69 | A table is added to the mappable list exactly when fewer than 67 are there |
| `PhysicalMemory.Memory.AddRegion` | tools/acpi_namespace_probe.c:356-386 | A snapshot is admitted exactly when it is in bounds, aligned where it must be, and apart from all others |
| `PhysicalMemory.Memory.Map` | tools/acpi_namespace_probe.c:71-81 | A range maps to its table at its own address, else to the snapshot that holds all of it, else it is denied |
| `PhysicalMemory.Memory.AccessHeld` | tools/acpi_namespace_probe.c:214-234 | A pointer held by a snapshot reaches that snapshot's bytes and no other's; one that no snapshot holds does not survive |
| `PhysicalMemory.Memory.AccessMapped` | tools/acpi_namespace_probe.c:71-234 | A range maps exactly when a table or a snapshot holds all of it. Accessing it at an offset survives exactly when no table holds it, the budget allows it and the snapshot there admits it; then it is the access of the flat physical space at that offset |
| `PhysicalMemory.Memory.OneHolder` | tools/acpi_namespace_probe.c:217-219 | Only one snapshot can hold the bytes behind a pointer |
| `PhysicalMemory.Memory.Access` | tools/acpi_namespace_probe.c:214-234 | An access survives exactly within the budget, inside one snapshot and, for a `read32_only` one, as a 4-byte read at its offset; it is the access of one flat physical space; the bytes of `read32_only` snapshots never change |
| `TableChecksum.Checksum` | tools/acpi_namespace_probe.c:239-239 | Whatever the array held, its first `n` bytes then sum to 0 modulo 256 and only the checksum byte changed |
| `TableChecksum.ChecksumUnique` | tools/acpi_namespace_probe.c:239-239 | No other value of that byte balances the table |
| `TableChecksum.SealRsdp` | tools/acpi_namespace_probe.c:408-409 | After both calls the 20-byte prefix and the whole root pointer sum to 0 modulo 256 (section 5.2.5.3 of the ACPI Specification 6.5) |
| `TableChecksum.Accepts` | tools/acpi_namespace_probe.c:395-395 | The loader's test, with its 32-bit wrap-around, accepts exactly the tables that sum to 0 modulo 256 |
| `CaptureFormat.ExpandCapture` | tools/cpu_capture_format.py:11-37 | The two-pass loop with its counters accepts exactly the acceptable tagged texts and yields their line-by-line expansion |
| `CaptureFormat.ExpandRows` | tools/cpu_capture_format.py:24-35 | The row loop accepts exactly when every row is numbered in turn and fits its schema, and tallies rows per kind |
| `CaptureFormat.CompactLegacy` | tools/cpu_capture_format.py:49-67 | The loop, followed by its own round-trip check, computes the compact form |
| `CaptureFormat.CompactRowsOf` | tools/cpu_capture_format.py:55-63 | The line loop rewrites rows with running indices, the header before the first |
| `CaptureLines.ParseOfCompact` | tools/cpu_capture_format.py:29-31 | A printed compact row parses to its own kind, index and values |
| `CaptureLines.ParseOfLegacy` | tools/cpu_capture_format.py:58-60 | A printed legacy row parses to its own numerals |
| `CaptureRoundTrip.CompactExact` | tools/cpu_capture_format.py:11-67 | Compaction succeeds if and only if the text is canonical (schema order, single spaces, numerals below 2^64 without leading zeros, one receipt for 1 to 24 samples, matching row counts), and expansion then gives back the very text |
| `CaptureRoundTrip.CanonicalPlain` | tools/cpu_capture_format.py:58-66 | A row is canonical if and only if its own fields, printed in schema order with single spaces, are the row, and each is below 2^64 without a leading zero |
| `CaptureRoundTrip.CompactedForm` | tools/cpu_capture_format.py:55-64 | The compact text has no legacy row left, one compact row for each, the same receipts, and exactly one header when there are rows |
| `CaptureRoundTrip.LeadingZeroRefused` | tools/cpu_capture_format.py:58-66 | A row holding a numeral with a leading zero is refused, never altered |
| `CaptureRoundTrip.RowsExact` | tools/cpu_capture_format.py:64-66 | For a text with rows the run-time round-trip check passes if and only if the text is canonical |
| `CaptureOrder.NumberedInOrder` | tools/cpu_capture_format.py:31-36 | In an accepted text each row carries the number of rows of its kind before it, and each declared kind is complete |
| `CaptureOrder.RowCountFixed` | tools/cpu_capture_format.py:33-36 | No text and the same text with one compact row more can both be acceptable |
| `CaptureTamper.DeletionRefused` | tools/cpu_capture_format.py:13-37 | Deleting any compact row of an accepted text makes it refused |
| `CaptureTamper.RepetitionRefused` | tools/cpu_capture_format.py:13-37 | Repeating any compact row of an accepted text at any line boundary makes it refused, also a last row without LF, whose copy runs into the next line |
| `CaptureTamper.ExchangeRefused` | tools/cpu_capture_format.py:13-37 | Exchanging two compact rows of one kind in an accepted text makes it refused, also when one of them has no LF |
| `CaptureOrder.OthersKept` | tools/cpu_capture_format.py:25-28 | All lines that the format does not reserve are kept unchanged and in order |
| `CaptureTail.CollectCritical` | tools/check_cpu_capture_tail.py:70-82 | The loop collects the bag of critical lines |
| `CaptureTail.RecordsConcat` | tools/check_cpu_capture_tail.py:70-82 | Over a line boundary the bags add up |
| `CaptureTail.TailIsProof` | tools/check_cpu_capture_tail.py:136-138 | If the text from the banner on fits with its padding, the cut falls inside the inserted chatter |
| `TailLaws.GluedCritical` | tools/check_cpu_capture_tail.py:70-82 | An unfinished line glued to the padding is critical exactly when it already was, or lacked only the last letter of ` completed=yes` |
| `TailLaws.TailExact` | tools/check_cpu_capture_tail.py:136-140 | For every log with a banner whose proof fits: the tail keeps the critical records if and only if the banner starts a line, the log does not end in an unfinished critical line, and no critical record precedes the banner but the one gluing makes |
| `TailLaws.TailKeepsRecords` | tools/check_cpu_capture_tail.py:136-140 | For LF-terminated logs with the banner at a line start: exactly when no critical record precedes it |
| `TailLaws.UnfinishedIsLost` | tools/check_cpu_capture_tail.py:136-140 | A concrete log without final LF that fits and is not kept |
| `TailLaws.InsideIsLost` | tools/check_cpu_capture_tail.py:137-140 | A concrete log with the banner inside a line that fits and is not kept |
| `WidthBudget.WidthPadding` | tools/check_cpu_capture_tail.py:103-127 | The grouping loops compute, per group, capacity times widest row minus what is there, or refuse a row that does not fit its schema |
| `WidthBudget.ExpandedLonger` | tools/check_cpu_capture_tail.py:113-121 | Widening the fields of a line never shortens it |
| `WidthBudget.PaddingNonNegative` | tools/check_cpu_capture_tail.py:123-127 | The padding is never negative |
| `WidthBudget.PaddingSuffices` | tools/check_cpu_capture_tail.py:103-127 | Text plus padding is at least as long as any log with no more other bytes, at most each group's capacity of rows, and no row wider than the group's widest |
| `WidthBudget.PaddingCovers` | tools/check_cpu_capture_tail.py:103-127 | The same for a text that follows other lines, with the padding computed over both, when the rows of those lines are of groups without a fixed capacity |
| `TailBudget.BudgetKeepsProof` | tools/check_cpu_capture_tail.py:103-140 | A log without rows of a fixed capacity before its banner whose proof and padding fit 64 KiB vouches for every log whose proof is covered by that padding: the saved tail of that log ends in its whole proof and, when its banner starts a line, has all critical records of the proof, and of the log if none precede the banner |
| `TailBudget.VerdictUncapped` | tools/check_cpu_capture_tail.py:84-140 | If the stressed tail preserves the records, the banner starts a line and every counted row before it is of a group without a fixed capacity |
| `TailBudget.AssessmentVouches` | tools/check_cpu_capture_tail.py:130-146 | The same for every log whose records the stressed tail preserves, with no condition on what precedes its banner |
| `FinalLayout.LayOut` | tools/check_cpu_capture_tail.py:22-43 | The loop computes the layout, or refuses a log without unique banner, admission, completion and ordered phases |
| `FinalLayout.LayoutKeepsRecords` | tools/check_cpu_capture_tail.py:22-43 | The bag of critical lines is unchanged if and only if an `ap-owner-cpu:` line exists; otherwise exactly the admission record is lost |
| `LayoutText.TextKeepsRecords` | tools/check_cpu_capture_tail.py:22-43 | The text written has the critical records of the log if and only if an `ap-owner-cpu:` line exists and no line that has to move is unfinished |
| `LayoutText.GluedLoses` | tools/check_cpu_capture_tail.py:38-43 | Two critical lines run together are one record less |
| `LayoutSamples.AdmissionIsLost` | tools/check_cpu_capture_tail.py:35-41 | A concrete log without owner line that loses its admission |
| `LayoutSamples.UnfinishedIsGlued` | tools/check_cpu_capture_tail.py:38-43 | A concrete log with an owner line that loses a record because its banner has no LF |
| `FinalLayout.OthersInPlace` | tools/check_cpu_capture_tail.py:31-43 | All other lines stay unchanged and in order |
| `FinalLayout.AdmissionPlaced` | tools/check_cpu_capture_tail.py:40-41 | The admission line is written with the first owner line and not before |
| `PcmStream.AnalyzeRepeated` | tools/audio_stream_smoke.py:76-101 | The nested loop over blocks gives a verdict that depends on the frames alone, not on block boundaries |
| `PcmDecomposition.AcceptExact` | tools/audio_stream_smoke.py:76-101 | A capture is accepted if and only if it splits into exactly `repeats` ordered, disjoint windows, each a loud span within 2 frames of the expected length closed by 4800 quiet frames, all frames inside within tolerance of the expected frame at the same offset, and every frame outside at most 20; the split is unique |
| `PcmDecomposition.RunSound` | tools/audio_stream_smoke.py:83-98 | After any number of frames, what was recorded is true of the capture so far |
| `PcmDecomposition.RunFollows` | tools/audio_stream_smoke.py:83-98 | On a capture that splits, the scan follows the split frame by frame and never fails |
| `PcmDecomposition.ReportExact` | tools/audio_stream_smoke.py:86-101 | The reported frames and streams are the true ones; peak and error are the exact maxima |
| `PcmCopies.CopiesExact` | tools/audio_stream_smoke.py:76-101 | Exact copies are accepted if and only if the signal has no internal quiet gap of 4800 frames, 4800 frames after its last loud one, and a tolerance that is not negative; then the error is zero |
| `PcmCopies.SourceCopiesExact` | tools/audio_stream_smoke.py:76-101 | The same for the program with its scaling of the source |
| `PcmFixture.FixturePlayable` | tools/audio_stream_smoke.py:47-55 | The test signal of any positive length is such a signal |
| `PcmFixture.FixtureAccepted` | tools/audio_stream_smoke.py:47-101 | Any number of exact copies of the test signal is accepted without error |
| `AppTiming.MatchEdges` | tools/app_timing.py:37-55 | The record loop accepts if and only if roles and times are right, each lane's clock never goes back, and begin and end of every phase strictly alternate with exact durations and all close; it stores exactly the spans, intervals and events |
| `AppTiming.DurationsExact` | tools/app_timing.py:46-51 | Every stored duration is the length of its interval, whose begin is no later than its end even across lanes |
| `AppTiming.LaneIntervalsDisjoint` | tools/app_timing.py:39-51 | Intervals of one phase within a lane never overlap |
| `AppTiming.LanesMayOverlap` | tools/app_timing.py:39-51 | A concrete accepted log in which a later interval of a phase begins, in another lane, before the one before it ends |
| `AppTiming.InOrderExact` | tools/app_timing.py:39-51 | In an accepted log all intervals of a phase are in order if and only if every change of lane between an end and the next begin goes forward in time |
| `AppTiming.TimeInOrder` | tools/app_timing.py:39-51 | Records in time order have all intervals of a phase in order, whatever the lanes |
| `SnapshotMerge.SavedAppTiming` | tools/app_timing.py:123-145 | The loops compute the sorted union, or refuse a snapshot with a repeated record or a clock going back |
| `SnapshotMerge.CheckSnapshot` | tools/app_timing.py:133-141 | The per-snapshot loop accepts exactly distinct records with ordered clocks per process and lane |
| `MergeLaws.MergeExact` | tools/app_timing.py:130-145 | The output holds every record of every snapshot exactly once, sorted by process and time |
| `MergeLaws.MergeIdempotent` | tools/app_timing.py:123-145 | Merging the output again changes nothing |
| `MergeLaws.MergeOrderFree` | tools/app_timing.py:131-145 | When no two records share process and time, the order of the snapshots does not matter |
| `MergeLaws.SingleKeepsOrder` | tools/app_timing.py:123-145 | One snapshot keeps the order of every process and lane |
| `MergeLaws.TimeOrder` | tools/app_timing.py:144-145 | Records that differ in process or time come out in that order whatever the snapshots |
| `MergeLaws.TieOrder` | tools/app_timing.py:131-145 | Two tied records come out in an order if and only if the first snapshot holding either, taken by latest time, has it |
| `MergeLaws.TieMayReverse` | tools/app_timing.py:123-145 | Two concrete snapshots whose merge reverses the order of one of them |
| `TimingEvidence.MergedTimeOrdered` | tools/app_timing.py:107-145 | The validator sees every process of a merged log in time order |
| `TimingEvidence.MergedInOrder` | tools/app_timing.py:107-145 | So in a merged log all intervals of a phase are in order, whatever their lanes |
| `TimingEvidence.SingleMergeExact` | tools/app_timing.py:123-145 | Merging one snapshot leaves the rows of a process unchanged if and only if they are in time order |
| `TimingEvidence.SingleVerdict` | tools/test_app_timing.py:120-125 | Then the record loop accepts the merged rows exactly when it accepts the raw ones |
| `TimingEvidence.CoverRecovered` | tools/test_app_timing.py:120-125 | Snapshots that together hold the records of a log, without ties, merge to the rows of each time-ordered process as they were |
| `TimingEvidence.MergeMayRefuse` | tools/app_timing.py:27-145 | A concrete snapshot that is accepted as it stands and refused once merged |
| `LifecycleReceipts.LifecycleReceipts` | tools/app_timing.py:148-172 | The loops over snapshots and lines compute the join of consistent receipts, or refuse |
| `LifecycleReceipts.ReadSnapshot` | tools/app_timing.py:152-167 | The line loop of one snapshot refuses exactly malformed, repeated or conflicting receipts |
| `LifecycleLaws.Pigeonhole` | tools/app_timing.py:161-169 | Increasing numbers below their own count are their indices |
| `LifecycleLaws.AcceptedIsComplete` | tools/app_timing.py:161-172 | On acceptance each cycle below the count is at its own index in both lists, received as such, with one positive pid that no other cycle has |
| `LifecycleLaws.RecoverBySet` | tools/app_timing.py:148-172 | Verdict and result depend only on which receipts there are |
| `LifecycleLaws.RecoverPermuted` | tools/app_timing.py:148-172 | Permuting the snapshots changes nothing |
| `LifecycleLaws.RecoverRepeated` | tools/app_timing.py:148-172 | Giving a snapshot again changes nothing |
| `LifecycleLaws.RecoverWithSubset` | tools/app_timing.py:153-164 | A snapshot whose receipts are all known changes nothing if and only if the join was refused anyway or the snapshot does not repeat a receipt |
| `LifecycleLaws.RepeatedLineRefused` | tools/app_timing.py:162-164 | A concrete snapshot of known lines that spoils an accepted join |
| `CheckpointRetention.CheckpointCandidates` | tools/audio_io_stress_smoke.py:31-41 | The two searches and the sort yield the marks of all hits in order of their start |
| `CheckpointRetention.MatchesGenuine` | tools/audio_io_stress_smoke.py:37-40 | A search yields genuine matches that do not overlap |
| `CheckpointRetention.HitsExact` | tools/audio_io_stress_smoke.py:36-41 | The hits are exactly the matches of both searches, sorted |
| `CheckpointRetention.BarrierDiscovered` | tools/audio_io_stress_smoke.py:32-40 | Every complete barrier line of the log is a candidate, whatever happened to its pre-write line |
| `CheckpointCollection.LatestIsNewest` | tools/audio_io_stress_smoke.py:163-163 | Only the newest mark of each slot is considered, once |
| `CheckpointCollection.JustifiedSnoc` | tools/audio_io_stress_smoke.py:169-176 | Keeping one more checkpoint leaves every kept one justified and no generation kept twice |
| `CheckpointCollection.Collector.Consider` | tools/audio_io_stress_smoke.py:170-176 | A candidate is kept exactly when two equal reads hold its own receipt; otherwise nothing changes; it ends in failure exactly when a read failed or the two reads differ |
| `CheckpointCollection.Collector.RetainCheckpoint` | tools/audio_io_stress_smoke.py:149-177 | The loop terminates; every kept snapshot is what two reads of its own slot gave, holds its own receipt and was acknowledged by the serial rule or by a durable line of an earlier one; what a call adds is acknowledged against the very log it was given, for a newest mark of that log; no generation is kept twice; it fails if and only if its last read failed or differs from the read of the same slot before it; otherwise at the end every newest mark is kept, or not acknowledged by the final set, or its own slot was read twice alike without the receipt after the last checkpoint was kept |
| `CheckpointCollection.Collector.Pass` | tools/audio_io_stress_smoke.py:166-176 | One pass either keeps something new or leaves every newest mark settled by a read of this very pass; it fails if and only if its last read failed or differs from the read of the same slot before it; what it keeps was acknowledged against the log it was given |
| `CheckpointCollection.Collector.Visit` | tools/audio_io_stress_smoke.py:168-176 | One mark is kept only if it is not kept already and the log or an earlier checkpoint acknowledges it; otherwise nothing is added, and nothing more can be gained from it now |
| `ElfTls.AcceptedImage` | tools/browser_jsc_elf.py:6-50 | In an accepted file the image a loader builds (file bytes, then zeros) gives every non-empty initialised SHF_TLS section exactly its own file bytes, fits 4096 bytes, and has an alignment 2^k with k at most 12 |
| `ElfTls.PowerOfTwo` | tools/browser_jsc_elf.py:39-39 | The bit test holds exactly for powers of two |
| `ElfTls.NobitsZero` | tools/browser_jsc_elf.py:41-46 | In an accepted file a TLS section without file bytes is zero in the image if and only if the initialised bytes it lies over are |
| `ElfTls.NobitsClear` | tools/browser_jsc_elf.py:41-46 | From the headers alone: it is zero whatever the file holds if and only if it starts after the initialised part |
| `ElfSample.NobitsNotZero` | tools/browser_jsc_elf.py:6-50 | A concrete accepted file with such a section that is not zero |
| `ElfSample.HeaderBack` | tools/browser_jsc_elf.py:18-18 | A file header written field by field reads back |
| `ElfSample.ProgramBack` | tools/browser_jsc_elf.py:23-23 | A program header written field by field reads back |
| `ElfSample.SectionBack` | tools/browser_jsc_elf.py:31-31 | A section header written field by field reads back |
| `ElfTls.LinkInspect` | tools/browser_tls_link_probe.py:25-39 | The probe's loop computes the coverage flag, or fails on a bad header, name table, section name or number of TLS segments |
| `ElfTls.AcceptedIsCovered` | tools/browser_tls_link_probe.py:25-39 | Whatever the full validator accepts, the probe reports as covered if and only if it can read the section names, and fails otherwise |
| `ElfSample.AcceptedUnread` | tools/browser_tls_link_probe.py:29-31 | A concrete accepted file on which the probe fails |
| `Sorting.SortStable` | tools/app_timing.py:144-145 | The sort keeps the order of tied elements |
| `Sorting.SortSelect` | tools/app_timing.py:107-145 | Selecting from the sorted list is sorting the selection |
| `Sorting.SortedUnique` | tools/app_timing.py:168-168 | Sorting a bag without ties has only one result |
| `Text.LinesJoin` | tools/cpu_capture_format.py:12-37 | Joining lines and splitting again gives the lines back |
| `Text.JoinLines` | tools/cpu_capture_format.py:12-37 | Splitting a text into lines and joining them gives the text back |
| `Text.ValueOfDecimal` | tools/cpu_capture_format.py:31-35 | Reading a printed number gives the number |
| `Text.DecimalOfValue` | tools/cpu_capture_format.py:31-35 | Printing a numeral that was read gives it back when it has no leading zero |

## Left out

- Line boundaries other than LF, text beyond ASCII, and the digit limit of Python's `int`.
- Regular expressions in general: each pattern is modelled by a function for that pattern.
- `fixture` fade-in: its rounded values are left open, since the result does not depend on them; `format_fixture` is not modelled.
- The phase, event and order requirements of `validate_app_timing` after the record loop, and `validate_collected_app_timing`: single assertions over what the loop has stored.
- The bytes of timing and lifecycle records: the model starts from parsed records, with numerals kept as spelled where records are compared byte by byte.
- `covered` and the rest of `assess`: conjunctions over validators that are not part of this model.
- PCI snapshots, the EC model, semaphore counting, table headers, command-line parsing and file reading of the offline host; uACPI itself appears as arbitrary handlers.
- Whether `malloc` succeeds and where it places blocks are parameters, with snapshots and loaded tables apart; a fatal error ends the run; use of a freed or foreign pointer, of a block of the wrong kind, or a plain free of a queued item ends the run as misuse.
- Disk images, the exFAT reader, sockets, emulator control and `main` functions; a disk read is a parameter that may differ each time, and the announcement of the log directory is a flag.
- DeletionRefused: speaks of whole lines; a deletion that also removes the LF of another line is not covered.
- The other fields that the link probe reports (names, sizes, the place of the GOT).
- RepetitionRefused: speaks of a copy at a line boundary; text put behind an unfinished last line is not a line of its own.
- MergeOrderFree: requires that no two records share process and time; what happens to such ties is exact in `TieOrder`.
