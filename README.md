# Polyphase merge sort and Shell sort, modelled in Dafny

This project models the sorting core of a small Java repository that sorts
text files too large for memory.

**`PMSS.java`: a polyphase merge sort.** It works with F auxiliary files and
one extra working file that starts out as the merge sink.

- **Distribution.**
  - The input is cut into natural runs, its maximal non-decreasing stretches.
  - The runs are dealt to the auxiliary files against a per-file target table.
  - The table grows by a generalised Fibonacci step every time all files
    reach their targets.
  - A stretch that continues the last run of its file is not counted as a
    new run.
  - When the input is used up, the table steps back one level. Each file's
    ledger entry then turns from "natural runs written" into "dummy runs
    owed".
- **Merge.**
  - The common dummy runs are merged at once.
  - After that, every level of the table is merged onto the sink with a
    priority queue.
  - Run boundaries are found while reading: a line below the last one read
    from the same file ends that file's run. The line is cached, and the
    file is blocked until the queue runs empty.
  - Each time the queue runs empty, one merged run is complete. The cached
    heads are re-inserted and the heap is populated again.
  - After a level, the table shrinks by one step, and the sink moves to the
    next file down, wrapping around.
- **File count.** The number of auxiliary files is chosen from the input's
  size.

**`ShellSort.java`: two in-place Shell sorts with Knuth's gaps 1, 4, 13, ….**
One sorts an `int[]` by shifting elements. The other sorts an
`ArrayList<Integer>` by swapping them. A second small rule picks a split
size.

The model follows the source's form, module by module:

- **`Lexicographic`**: `String.compareTo` and the total order it induces. A
  line is a sequence of Unicode scalar values. As in Java, it is compared by
  its UTF-16 code units: a character above the Basic Multilingual Plane
  counts as its two surrogates, and a proper prefix ranks before the longer
  line by the difference of the code-unit lengths.
- **`NaturalRuns`**: natural runs of a file, and the contents of a set of
  files.
- **`Distribution`**: the target table as a value, i.e. `Grow`, `Shrink`,
  the seed and the levels, with the round-trip and shape lemmas.
- **`Scheduling`**: the static scheduler arrays of `PMSS.java` as a class
  whose methods update them in place. Each method is proved against the
  functions of `Distribution`.
- **`RunFiles`**: readers as values, the per-file state `readFileLine`
  keeps, and the priority queue as a multiset of records.
- **`PolyphaseSort`**: a `Session` class holding the input, the working
  files (as sequences of lines), the readers, the per-file arrays and the
  queue, with the distribution and merge phases as methods.
- **`Sizing`**: the file-count rule, together with the 32-bit size
  computation it is fed.
- **`ShellSorting`**: both Shell sorts. The array version works on an
  `array<int>`. The list version works on a class wrapping a sequence.

Where the code and the design intent differ, the model follows the code:

- **Silent exceptions.** The code swallows the exceptions that end a step:
  - `readFileLine` at the end of a file;
  - `writeNextStringRun` comparing with a null line;
  - a null cached head during re-insertion.

  The model keeps these consequences. It does not report I/O errors.
- **`getMinFileIndex` never lowers its minimum.** It returns the last file
  with a non-zero target, not the file with the smallest target. On every
  table the distribution reaches, the two agree
  (`Distribution.LastCandidateIsMinimum`).
- **No dummy-run flow between levels.** Between levels the code only
  recomputes `getMinDummyValue`. It does not subtract it again, so no dummy
  runs "flow through" from one level to the next.
- **Byte sizes.** Both `PMSS.java` and `ShellSort.java` compute the size in
  megabytes with a 32-bit cast that binds before the division (see
  Findings).

## Model

| member | source | states |
|---|---|---|
| Lexicographic.CompareTo | src/main/java/PMSS.java:417 | the comparison is zero exactly when the two lines are equal; a first differing pair of characters decides by its first differing code units, and otherwise the lengths in code units decide |
| Lexicographic.CompareToUnits | src/main/java/PMSS.java:417 | the character walk equals the code-unit comparison of the two UTF-16 encodings, which is what String.compareTo computes |
| Lexicographic.Width | src/main/java/PMSS.java:417 | a line has at least as many code units as characters |
| Lexicographic.WidthIsLength | src/main/java/PMSS.java:417 | the length compared at the end of a common prefix is the number of UTF-16 code units |
| Lexicographic.Utf16 | src/main/java/PMSS.java:417 | the encoding is at least as long as the line and empty only for the empty line |
| Lexicographic.UnitsInjective | src/main/java/PMSS.java:417 | distinct characters have distinct code units, so equal encodings come from equal lines |
| Lexicographic.UnitDiff | src/main/java/PMSS.java:417 | two distinct characters give a non-zero difference of their first differing code units |
| Lexicographic.DifferingUnits | src/main/java/PMSS.java:417 | two differing first characters decide the code-unit comparison whatever follows them |
| Lexicographic.CommonPrefix | src/main/java/PMSS.java:417 | a shared prefix of code units does not change the comparison |
| Lexicographic.Antisymmetric | src/main/java/PMSS.java:531 | swapping the arguments negates the comparison, so any two lines are ordered one way or the other |
| Lexicographic.Transitive | src/main/java/PMSS.java:417-428 | at-most is transitive, so a chain of lines each at or above the last stays ordered |
| Lexicographic.BelowNotAtMost | src/main/java/PMSS.java:542-553 | a line is below another exactly when the other is not at most it |
| Lexicographic.BelowAtMost | src/main/java/PMSS.java:417 | below then at-most gives below |
| Lexicographic.EmptyAtMost | src/main/java/PMSS.java:525 | the empty starting min_value is at most every line, so the first line read is always written |
| Lexicographic.AscendingSnoc | src/main/java/PMSS.java:542-548 | a line at or above the last one extends a non-decreasing stretch |
| Lexicographic.AscendingCons | src/main/java/PMSS.java:519-531 | a pending line at or below the stretch's first line extends it at the front |
| NaturalRuns.AscendingNoDescents | src/main/java/PMSS.java:540-549 | a non-decreasing non-empty file is exactly one natural run |
| NaturalRuns.AppendStretch | src/main/java/PMSS.java:573-580 | appending a non-decreasing stretch adds one natural run, unless it starts at or above the file's last line |
| NaturalRuns.ContentsAppend | src/main/java/PMSS.java:544 | appending lines to one file adds exactly those lines to the contents of all files |
| NaturalRuns.ContentsOfEmpty | src/main/java/PMSS.java:188-191 | files just opened for writing hold nothing |
| Sizing.TruncatingDiv | src/main/java/PMSS.java:79 | Java's int division by a positive divisor truncates toward zero: q·b ≤ a < q·b + b for a ≥ 0 and q·b - b < a ≤ q·b for a < 0 |
| Sizing.IntCast | src/main/java/PMSS.java:79 | Java's (int) cast keeps the value modulo 2^32 in the signed 32-bit range |
| Sizing.Megabytes | src/main/java/PMSS.java:78-80 | the intended size is the number of whole megabytes, rounded down |
| Sizing.AsWrittenAgreesBelowTwoGiB | src/main/java/PMSS.java:78-80 | below 2 GiB the size as written equals the intended size |
| Sizing.AsWrittenTwoGiB | src/main/java/PMSS.java:78-95 | a 2 GiB file is sized as written at -2048 MB and gets 2 auxiliary files, where 50 are intended |
| Sizing.AuxiliaryFiles | src/main/java/PMSS.java:84-95 | 50 files exactly above 100 MB, 2 exactly below 10 MB, otherwise 24 |
| Sizing.AuxiliaryFilesMonotone | src/main/java/PMSS.java:84-95 | a larger size never gets fewer files, and there are always at least 2 |
| Sizing.CorrectedFileCountMonotone | src/main/java/PMSS.java:78-95 | with the intended size, the file count never decreases as the byte length grows |
| Sizing.AsWrittenNotMonotone | src/main/java/PMSS.java:78-95 | with the size as written, one byte more (2^31 - 1 to 2^31) drops the count from 50 to 2 |
| Distribution.GrowSlots | src/main/java/PMSS.java:586-596 | a grow step sets each slot but the last to slot 0 plus its right neighbour and keeps the last; the new run total is the old one plus (len-2)·slot 0 plus the last slot |
| Distribution.ShrinkGrow | src/main/java/PMSS.java:586-620 | shrinking a grown table gives the table back when its last slot is 0 |
| Distribution.GrowShrink | src/main/java/PMSS.java:586-620 | growing a shrunk table gives the table back when its last slot is 0 |
| Distribution.GrowNKeepsLast | src/main/java/PMSS.java:591-593 | no number of grow steps changes the last slot |
| Distribution.ShrinkNGrowN | src/main/java/PMSS.java:586-620 | k shrink steps undo k grow steps from a table whose last slot is 0, and one shrink reaches the level below |
| Distribution.GrowKeepsShape | src/main/java/PMSS.java:586-596 | a grow step keeps slot 0 at least 1, the last slot 0 and the slots non-increasing |
| Distribution.LevelShaped | src/main/java/PMSS.java:586-596 | every level grown from the seed has that shape, so no target is negative |
| Distribution.GrowRaises | src/main/java/PMSS.java:586-596 | a grow step never lowers a target and, with two or more auxiliary files, raises one |
| Distribution.RunsIncrease | src/main/java/PMSS.java:586-596 | with two or more auxiliary files, runs_per_level strictly increases at every grow step |
| Distribution.SeedRuns | src/main/java/PMSS.java:181-182 | the seed table has the shape and holds one run |
| Distribution.LevelRuns | src/main/java/PMSS.java:137 | level k holds at least k+1 runs, and exactly one run only at the seed, so the merge loop runs exactly while the level is above the seed |
| Distribution.ShrunkLevel | src/main/java/PMSS.java:243 | one shrink below level lv is level lv-1; it holds more than one run exactly when lv ≥ 2, and one run otherwise |
| Distribution.ShrunkSeedRuns | src/main/java/PMSS.java:602-620 | the seed shrunk once, as happens for an empty input, holds one run |
| Distribution.TwoFileLevels | src/main/java/PMSS.java:586-596 | with two auxiliary files, level k is [Fib(k+1), Fib(k), 0] and holds Fib(k+2) runs |
| Distribution.LastCandidateIsMinimum | src/main/java/PMSS.java:480-494 | on a shaped table, the last non-zero slot below the cap is an auxiliary file and holds the smallest non-zero target |
| Distribution.Rotated | src/main/java/PMSS.java:357-367 | the sink index stays in range |
| Distribution.RotationPeriod | src/main/java/PMSS.java:357-367 | after k ≤ n steps the sink has moved k places down, cyclically, and after n steps it is back at its start |
| Distribution.LoweredLedger | src/main/java/PMSS.java:266-284 | with getMinDummyValue's minimum, lowering leaves no auxiliary count negative, at least one zero, and credits the sink by the same amount |
| Scheduling.ShrinkTable | src/main/java/PMSS.java:605-619 | the array becomes the shrunk table, and the accumulated total is its run count |
| Scheduling.Scheduler.constructor | src/main/java/PMSS.java:103-108 | three fresh zeroed arrays, one slot per auxiliary file plus one |
| Scheduling.Scheduler.SetNextDistributionLevel | src/main/java/PMSS.java:586-596 | the table becomes Grow of the old table, and runs_per_level its run count |
| Scheduling.Scheduler.SetPreviousRunDistributionLevel | src/main/java/PMSS.java:602-620 | the table becomes Shrink of the old table, runs_per_level its run count, and the sink index is copied to old_output_file_index |
| Scheduling.Scheduler.UpdateOutputFileIndex | src/main/java/PMSS.java:357-367 | the sink index becomes Rotated of the old one |
| Scheduling.Scheduler.ResetAllowReadArray | src/main/java/PMSS.java:445-453 | every entry is 1 except the sink's, which is 0 |
| Scheduling.Scheduler.GetMinDummyValue | src/main/java/PMSS.java:460-473 | the least dummy count over the non-sink files, attained by one of them, or Integer.MAX_VALUE |
| Scheduling.Scheduler.GetMinFileIndex | src/main/java/PMSS.java:480-494 | the last index whose target is non-zero and below Integer.MAX_VALUE, or -1 |
| Scheduling.Scheduler.SetMissingRunsArray | src/main/java/PMSS.java:625-631 | each auxiliary entry becomes the target minus its old value; the sink's entry is kept |
| Scheduling.Scheduler.InitMergeProcedure | src/main/java/PMSS.java:266-284 | the ledger becomes Lowered by minDummy, and the read permissions are reset |
| RunFiles.NextLine | src/main/java/PMSS.java:414 | readLine returns the next line and advances, or returns null and stays put at the end |
| RunFiles.ReadLine | src/main/java/PMSS.java:410-438 | a line returned becomes last_elements and is at or above the previous one; a smaller line is cached and the file blocked with null returned; the end of a file after a line blocks it and clears its cache |
| RunFiles.RecordsSnoc | src/main/java/PMSS.java:381-389 | one more file visited adds that file's record, if any |
| RunFiles.RecordsStep | src/main/java/PMSS.java:325-333 | one more cached head re-inserted adds that file's record, if any |
| RunFiles.RecordsExactly | src/main/java/PMSS.java:381-389 | the queue built holds exactly one record per line read, tagged with its file |
| RunFiles.RecordsSize | src/main/java/PMSS.java:381-389 | at most one record per file |
| RunFiles.LeastRecordExists | src/main/java/PMSS.java:309 | a non-empty queue has a record at most every other, so poll has something to return |
| RunFiles.LeastAdded | src/main/java/PMSS.java:309 | adding a record keeps the old least record least, or makes the added one least |
| RunFiles.UnreadUpdate | src/main/java/PMSS.java:313 | moving one reader changes the unread total by that reader's change alone |
| RunFiles.UnreadNonNegative | src/main/java/PMSS.java:307-346 | no reader is past its end, so the unread total is never negative |
| PolyphaseSort.FilledBelowLevel | src/main/java/PMSS.java:198-208 | the sentinels of the level below never exceed the targets, and at least one is strictly below |
| PolyphaseSort.StretchRuns | src/main/java/PMSS.java:573-580 | a stretch starting at or above the file's last line joins its last run; any other stretch adds one |
| PolyphaseSort.WriteCounts | src/main/java/PMSS.java:200-206 | the ledger entry of the file written gains one run exactly when the stretch does not join |
| PolyphaseSort.WriteEnds | src/main/java/PMSS.java:554 | after a stretch, its last line is the run end to remember |
| PolyphaseSort.LedgerWrite | src/main/java/PMSS.java:198-208 | writing one stretch keeps the ledger: runs counted, run ends, contents equal to the input written, sink empty |
| PolyphaseSort.JoinsLastRun | src/main/java/PMSS.java:573-580 | runsMerged on the pending line is true exactly when the next stretch starts at or above the file's last line |
| PolyphaseSort.WriteContents | src/main/java/PMSS.java:521-545 | after the next stretch is written, the files hold exactly the input written so far |
| PolyphaseSort.FillingFirstFile | src/main/java/PMSS.java:196-198 | filling a level starts at the first file, whose sentinel is the level below's target |
| PolyphaseSort.FillStep | src/main/java/PMSS.java:198-208 | one run dealt below the target raises the sentinel by one and keeps the filling state |
| PolyphaseSort.FillingNextFile | src/main/java/PMSS.java:196-209 | a file at its target passes the filling to the next one |
| PolyphaseSort.FillingNextLevel | src/main/java/PMSS.java:194-211 | every file at its target: after the grow step, the sentinels start the next level |
| PolyphaseSort.DummiesNonNegative | src/main/java/PMSS.java:625-631 | after the step back, no file holds more natural runs than its target |
| PolyphaseSort.ClosedLedger | src/main/java/PMSS.java:243-244 | at the end of distribution each auxiliary file owes its target minus its natural runs, never negative, and the files hold the input |
| PolyphaseSort.OwedFromCounts | src/main/java/PMSS.java:625-631 | targets minus counted runs, with no count above its target, are the dummy runs owed |
| PolyphaseSort.NothingCounted | src/main/java/PMSS.java:188-191 | files that hold nothing have no natural runs counted |
| PolyphaseSort.SlicesJoin | src/main/java/PMSS.java:521-545 | the pending line's slice and the stretch after it join into one slice of the input |
| PolyphaseSort.PendingAscends | src/main/java/PMSS.java:524-548 | the pending line before a stretch that starts at or above it keeps the slice non-decreasing |
| PolyphaseSort.StretchGrows | src/main/java/PMSS.java:542-548 | a line at or above the last one written extends the stretch, which stays a non-decreasing slice of the input |
| PolyphaseSort.PopulateNext | src/main/java/PMSS.java:383-396 | populating one more file extends the populateHeap loop by that file |
| PolyphaseSort.LastPoll | src/main/java/PMSS.java:309-321 | the queue runs empty after a poll and refill exactly when the polled record was the only one and the refill read nothing |
| PolyphaseSort.Heads | src/main/java/PMSS.java:327-332 | the heads reinjected are the files' cached next-run heads, file by file |
| PolyphaseSort.ReinjectedAll | src/main/java/PMSS.java:327-332 | every file's state after reinjection, file by file |
| PolyphaseSort.Unblocked | src/main/java/PMSS.java:445-453 | every file but the sink may be read, and nothing else about a file changes |
| PolyphaseSort.ReadInOrder | src/main/java/PMSS.java:410-438 | reading a file and queueing the line keeps the queue in step and bounded, and the line read is at or above the file's previous last element |
| PolyphaseSort.PopulatedRaises | src/main/java/PMSS.java:383-396 | populating a file never unblocks it, its last element only rises, and a line read becomes it |
| PolyphaseSort.PopulatedAll | src/main/java/PMSS.java:375-401 | populating every file keeps the queue in step, and bounded if it was |
| PolyphaseSort.RefillInOrder | src/main/java/PMSS.java:309-314 | after a poll and refill the queue is in step and nothing queued is below the polled line |
| PolyphaseSort.ReinjectedBounded | src/main/java/PMSS.java:325-333 | reinjected heads, each now its file's last element, form a bounded queue |
| PolyphaseSort.BoundedInOrder | src/main/java/PMSS.java:336 | a bounded queue is in step whatever the read permissions |
| PolyphaseSort.ForgetInOrder | src/main/java/PMSS.java:139 | forgetting the last element of a blocked file keeps the queue in step |
| PolyphaseSort.CloseRun | src/main/java/PMSS.java:321-323 | closing the current run keeps the lines written, and keeps every run non-empty and non-decreasing |
| PolyphaseSort.ExtendRun | src/main/java/PMSS.java:309-310 | a least queued record, with nothing queued below the current run's end, extends that run in order |
| PolyphaseSort.Tally | src/main/java/PMSS.java:310-323 | one line written joins the current run, and closes it when the cycle ends; the lines are kept in order and every closed run stays non-empty and non-decreasing |
| PolyphaseSort.AppendLine | src/main/java/PMSS.java:310 | appending a line to the sink extends its current run |
| PolyphaseSort.ReadOnTransitive | src/main/java/PMSS.java:307-346 | readers that moved forward twice moved forward |
| PolyphaseSort.StartsAtLevel | src/main/java/PMSS.java:137 | on entry, the level loop runs exactly when the level from distribution is at least 2 |
| PolyphaseSort.StepsDown | src/main/java/PMSS.java:142 | one more shrink after a merged level reaches the level below, with the same loop condition |
| PolyphaseSort.EndsAtSeed | src/main/java/PMSS.java:137-149 | the level loop stops at the seed table with one run on the first file |
| PolyphaseSort.Session.constructor | src/main/java/PMSS.java:99-108 | a fresh scheduler and fresh arrays at Java's defaults, nothing read, every file empty |
| PolyphaseSort.Session.ReadInputLine | src/main/java/PMSS.java:526 | the next input line and the advanced cursor, or null at the end |
| PolyphaseSort.Session.WriteNextStringRun | src/main/java/PMSS.java:509-561 | with the input used up, only one dummy credit is given back; otherwise at least one line is written, the stretch is non-decreasing, and it stops at the end or before a descent, whose line is kept pending and the last line remembered |
| PolyphaseSort.Session.WriteRun | src/main/java/PMSS.java:517-558 | some input is written to file f, all of it non-decreasing; if input remains, the next line is below the last one written, which becomes f's run end |
| PolyphaseSort.Session.WritePendingRun | src/main/java/PMSS.java:524-558 | the pending line is written first and the stretch after it follows, together a non-decreasing slice of the input ending before a descent or at the end |
| PolyphaseSort.Session.WriteAscendingStretch | src/main/java/PMSS.java:540-558 | lines are written while each is at or above the last; at the first descent that line stays pending and the run end is recorded |
| PolyphaseSort.Session.WriteJoinedRuns | src/main/java/PMSS.java:200-203 | joined stretches keep the ledger unchanged, and on return the pending line no longer joins |
| PolyphaseSort.Session.JoinedRun | src/main/java/PMSS.java:202 | a joining stretch consumes input and leaves the natural-run ledger unchanged |
| PolyphaseSort.Session.DealRun | src/main/java/PMSS.java:200-207 | the ledger still counts natural runs; file i's entry rises by at most one; the others stay put |
| PolyphaseSort.Session.CountedRun | src/main/java/PMSS.java:204-205 | the run after the joins changes only file i's ledger entry, by at most one up, and consumes input while any remains |
| PolyphaseSort.Session.FillFile | src/main/java/PMSS.java:198-208 | file i is dealt runs until its sentinel equals its target; no other sentinel changes |
| PolyphaseSort.Session.FillLevel | src/main/java/PMSS.java:196-209 | every auxiliary file reaches its target, and at least one line is written |
| PolyphaseSort.Session.OpenDistribution | src/main/java/PMSS.java:181-191 | seed table, the last file as sink, zero sentinels, empty auxiliary files |
| PolyphaseSort.Session.NextLevel | src/main/java/PMSS.java:194-211 | level k filled, then the table grown to level k+1 |
| PolyphaseSort.Session.DealLevels | src/main/java/PMSS.java:194-211 | levels are filled until all input is written; no level exactly for an empty input |
| PolyphaseSort.Session.CloseDistribution | src/main/java/PMSS.java:243-244 | the table is one shrink below the last level; each entry is the dummy runs owed; the files hold the input |
| PolyphaseSort.Session.Distribute | src/main/java/PMSS.java:175-255 | all input written to auxiliary files with the sink empty, the table one shrink below the level reached, and per file natural runs plus dummies equal to the target |
| PolyphaseSort.Values | src/main/java/PMSS.java:309-310 | the lines that polling the records writes, one per record |
| PolyphaseSort.ValuesSnoc | src/main/java/PMSS.java:309-310 | one more record polled writes its line after the others |
| PolyphaseSort.BagStep | src/main/java/PMSS.java:309-316 | one more poll keeps the equation: queue plus records polled is the starting queue plus the records added |
| PolyphaseSort.TraceStep | src/main/java/PMSS.java:303-346 | one more poll keeps the trace of merge: the lines written are those of the records polled, the bag equation holds, and every record added still holds a line of its own file |
| PolyphaseSort.ReadersOf | src/main/java/PMSS.java:140 | the readers of the files' states, file by file |
| PolyphaseSort.PassedOn | src/main/java/PMSS.java:410-438 | a line a reader passed over stays passed over as the reader moves on |
| PolyphaseSort.PassedSince | src/main/java/PMSS.java:410-438 | a line passed over from a later position was passed over from an earlier one |
| PolyphaseSort.FromFileChain | src/main/java/PMSS.java:303-346 | a line of file f over one stretch of the merge is a line of f over the whole |
| PolyphaseSort.FedOnChain | src/main/java/PMSS.java:303-346 | readers moving forward, with caches fed from their files, composes over consecutive stretches |
| PolyphaseSort.SourcedChain | src/main/java/PMSS.java:303-346 | records sourced over two consecutive stretches are, together, sourced over both |
| PolyphaseSort.SameFeedSourced | src/main/java/PMSS.java:321-336 | where lines come from depends only on the readers and cached heads, not on the last elements or read permissions |
| PolyphaseSort.ForgottenFeed | src/main/java/PMSS.java:139 | forgetting the sink's last element changes nothing about where queued lines come from |
| PolyphaseSort.ReadLineFed | src/main/java/PMSS.java:410-438 | readFileLine returns or caches only the line its reader passes over, or keeps the head it had cached |
| PolyphaseSort.RefillFed | src/main/java/PMSS.java:313-316 | the refill after a poll queues only a line the polled file's reader passed over |
| PolyphaseSort.PopulatedFed | src/main/java/PMSS.java:375-401 | populateHeap queues only lines the readers pass over, and caches only such lines or heads already cached |
| PolyphaseSort.RestartFed | src/main/java/PMSS.java:321-336 | a queue-empty event queues only heads cached before it and lines the readers pass over |
| PolyphaseSort.Session.ReadFileLine | src/main/java/PMSS.java:410-438 | file f's state moves as ReadLine says, and no other file's state, reader or the queue changes |
| PolyphaseSort.Session.PopulateFile | src/main/java/PMSS.java:383-396 | for one file: the state moves as Populated says (a dummy credit used up, or a read only when allowed), the queue gains exactly the line read, and no other file changes |
| PolyphaseSort.Session.PopulateHeap | src/main/java/PMSS.java:375-401 | every file is visited once, the records added are exactly the lines read, and a queue in step or bounded stays so |
| PolyphaseSort.Session.Refill | src/main/java/PMSS.java:313-316 | only the polled record's file is read, as Refilled says; a line queued is a line read, and the unread lines go down by the records queued |
| PolyphaseSort.Session.PollAndRefill | src/main/java/PMSS.java:309-316 | a least record is written to the sink, and only its file is refilled; unread lines plus queued records decrease; a queue in step stays in step, with nothing queued below the line written |
| PolyphaseSort.Session.Poll | src/main/java/PMSS.java:309 | a least record is removed from a non-empty queue |
| PolyphaseSort.Session.ReinjectFile | src/main/java/PMSS.java:327-332 | a cached head is queued and becomes the file's last element; an empty cache is skipped |
| PolyphaseSort.Session.Reinject | src/main/java/PMSS.java:325-333 | all cached heads are queued and become last elements; the cache is kept; started from the empty queue, the queue is bounded by the last elements |
| PolyphaseSort.Session.EndCycle | src/main/java/PMSS.java:321-336 | the queue gains the cached heads and then the lines read by populating from the reinjected states, each file moves as Populated says, every file but the sink may be read again; from the empty queue, the new queue is in step and bounded |
| PolyphaseSort.Session.ResetReads | src/main/java/PMSS.java:445-453 | only the read permissions change, to every file but the sink, and a bounded queue is then in step |
| PolyphaseSort.Session.MergeStep | src/main/java/PMSS.java:305-337 | a least record is written to the sink and only its file is refilled; the queue runs empty exactly when that record was the last and the refill read nothing, and then the cycle restarts as CycleRestart says; otherwise unread lines plus queued records decrease; a queue in step stays in step, with nothing left below the line written |
| PolyphaseSort.Session.Advance | src/main/java/PMSS.java:305-336 | the record polled is a least one of the queue and its line is appended to the lines written, extending the current run; a queue-empty event closes that run as one more non-empty run; the queue now plus the record polled is the queue before plus the records added, each of which holds a line its file's reader passed over or a head the file had cached; from a queue in step the runs and the current run stay non-decreasing |
| PolyphaseSort.Session.MergeCycles | src/main/java/PMSS.java:303-346 | exactly `passes` queue-empty cycles, or fewer exactly when a poll finds the queue empty; the sink gains exactly the lines of the records polled, in the order polled, as one non-empty run per cycle followed by what a cut-short cycle wrote; no other file changes; the queue left plus the records polled is the queue at the start plus the records added, and every record added holds a line its file's reader passed over or a head the file had cached; from a queue in step every run is non-decreasing |
| PolyphaseSort.Session.Merge | src/main/java/PMSS.java:295-352 | merge ends after exactly `passes` cycles unless a poll finds the queue empty; only the sink changes, by exactly the lines of the records polled in order, one non-empty run per cycle and then the lines of a cut-short cycle; the records polled plus the queue left are the queue at the start plus the records added by the populations and refills, each holding a line its file's reader passed over or a head the file had cached; the readers only move forward; from a queue in step every run is non-decreasing |
| PolyphaseSort.Session.StepDown | src/main/java/PMSS.java:142-148 | the table shrinks, the sink rotates, permissions reset, the new sink emptied and the old one reopened |
| PolyphaseSort.Session.ForgetSinkLast | src/main/java/PMSS.java:139 | only the sink's last element is forgotten; with the sink blocked, a queue in step stays in step |
| PolyphaseSort.Session.MergeAtMin | src/main/java/PMSS.java:139-140 | a completed merge appends one non-empty run per cycle to the sink, made of exactly the lines of the records polled, and changes no other file; the bag equation and the provenance of the records added hold from the files' states before the last element is forgotten; the runs are non-decreasing when the queue was in step with the sink blocked; an index of -1, a negative count or an early end give their own outcome |
| PolyphaseSort.Session.MergeLevel | src/main/java/PMSS.java:139-148 | a completed pass appends to the old sink exactly the lines of the records polled, as one non-empty run per cycle, empties the new sink, leaves every other file as it was, shrinks the table and rotates the sink; the readers are those that merge left, with the old sink's reopened at its start; the records polled plus the queue left are the queue before plus the records added, each holding a line its file's reader passed over or a cached head; the runs are non-decreasing when the queue was in step with the sink blocked; any other outcome keeps the sink |
| PolyphaseSort.Session.MergePass | src/main/java/PMSS.java:139-148 | a normal pass at level lv ≥ 2 leaves the table at level lv-1 |
| PolyphaseSort.Session.MergeLevels | src/main/java/PMSS.java:137-149 | the loop ends normally after one level fewer than distribution grew, with one run left and the seed table |
| PolyphaseSort.Session.OpenMerge | src/main/java/PMSS.java:128-135 | the ledger becomes Lowered by getMinDummyValue's minimum over the auxiliary files, every file but the sink may be read, the sink is emptied, a reader is opened on every auxiliary file, and the table is unchanged; with the sink last, no auxiliary entry is negative and one is zero |
| PolyphaseSort.Session.Sort | src/main/java/PMSS.java:120-149 | after distribution and merge, one run is left, after levels-1 passes |
| ShellSorting.AdjacentSorted | src/main/java/ShellSort.java:119-130 | after the gap-1 pass every element is at most its neighbour, which is being sorted |
| ShellSorting.KnuthClosedForm | src/main/java/ShellSort.java:116-118 | the k-th Knuth gap is (3^k-1)/2 |
| ShellSorting.KnuthDescent | src/main/java/ShellSort.java:129 | from a Knuth gap, (h-1)/3 visits each smaller Knuth gap in turn, ending at 1 and then 0 |
| ShellSorting.InitialGap | src/main/java/ShellSort.java:113-118 | the first Knuth gap greater than a third of the length |
| ShellSorting.Insert | src/main/java/ShellSort.java:120-127 | inserting into a sequence adds exactly the element |
| ShellSorting.SortedCons | src/main/java/ShellSort.java:131 | a sorted sequence under a head at most each of its elements is sorted |
| ShellSorting.SortedOf | src/main/java/ShellSort.java:131 | the reference sorted arrangement is a permutation of the input |
| ShellSorting.SortedOfSorted | src/main/java/ShellSort.java:131 | the reference arrangement is sorted |
| ShellSorting.SortedUnique | src/main/java/ShellSort.java:131 | two sorted sequences with the same elements are equal |
| ShellSorting.IsSortedOf | src/main/java/ShellSort.java:131 | a sorted permutation of s is the reference arrangement of s |
| ShellSorting.ShiftKeepsElements | src/main/java/ShellSort.java:123-126 | a shift with the saved element put in the hole keeps the array's elements |
| ShellSorting.ShiftStep | src/main/java/ShellSort.java:123-124 | one shift keeps the state of the shifting loop |
| ShellSorting.ShiftDone | src/main/java/ShellSort.java:126 | dropping the saved element into the hole leaves the gap chain up to i in order, with the same elements |
| ShellSorting.ShiftInsert | src/main/java/ShellSort.java:121-126 | one gapped insertion extends the ordered chain to i, as a permutation |
| ShellSorting.ShiftLoop | src/main/java/ShellSort.java:122-125 | the hole stops at the chain's start or above a smaller element; j - h is never negative |
| ShellSorting.ShiftOne | src/main/java/ShellSort.java:124 | one element moves one gap right into the hole |
| ShellSorting.ShiftPass | src/main/java/ShellSort.java:120-127 | after the pass with gap h, every element is at least the one h places left, as a permutation |
| ShellSorting.ShellSortArray | src/main/java/ShellSort.java:112-132 | returns the same array, sorted, a permutation of the input, equal to the reference arrangement |
| ShellSorting.IntList.Swap | src/main/java/ShellSort.java:145 | two elements exchanged, a permutation |
| ShellSorting.IntList.Set | src/main/java/ShellSort.java:147 | one element replaced |
| ShellSorting.SwapPass | src/main/java/ShellSort.java:141-148 | the saved element stays at position j, so set(j, temp) changes nothing; afterwards gap-h ordered, a permutation |
| ShellSorting.ShellSortList | src/main/java/ShellSort.java:133-153 | returns the same list, sorted, a permutation, the same arrangement as the array version |
| ShellSorting.MegabytesPerSplit | src/main/java/ShellSort.java:20-26 | 100 exactly above 100 MB, 1 exactly at or below 10 MB, otherwise 10; the size it is given comes from getFileSizeMegaBytes at ShellSort.java:11-13, which casts before dividing as PMSS.java:78-80 does (see Findings) |
| ShellSorting.SplitSizeMonotone | src/main/java/ShellSort.java:72-78 | a larger file never gets smaller parts, and a file of 1 MB or more never gets parts larger than itself |
| ShellSorting.SplitAsWrittenTwoGiB | src/main/java/ShellSort.java:11-13 | with the size as written, a 2 GiB file gets 1 MB parts, while one byte less gets 100 MB parts and the intended size gives 100 MB parts |
| ShellSorting.CorrectedSplitMonotone | src/main/java/ShellSort.java:11-26 | with the intended size, a larger file never gets smaller parts |

## Left out

- File plumbing. Readers, writers, `closeReaders`, `closeWriters` and
  `clearTempFiles` (PMSS.java:638-690) are left out. Files are sequences of
  lines. Opening a writer empties its file. Opening a reader takes the
  file's contents.
- The copy-and-sort block in distribute (PMSS.java:215-237) is left out. It
  only writes copies that the merge never reads, and `ShellSort.sort` is not
  part of this model. An I/O exception there (for instance a missing `tmp/`
  directory when the copies are opened at PMSS.java:230) jumps to the catch
  at PMSS.java:251 and skips the step back at PMSS.java:243-244. The model
  always takes the step back.
- Timing (`System.currentTimeMillis`) and the progress prints are left out.
- Byte-length accounting. `data_read` counts lines written, not bytes, and
  "input left" means "some line not yet written". The byte comparison at
  PMSS.java:194 and 511 is not modelled.
- Java's 32-bit wrap-around in the table, `runs_per_level` and the ledger is
  not modelled. Slot values are unbounded integers. Only the file-size cast,
  which matters for real file sizes, is explicit (Sizing).
- The error paths that only print are not modelled: the catch blocks at
  PMSS.java:251-254, 280-283, 345, 397-400 and 560. The catch at PMSS.java:348-351
  is modelled by `MergeAborted` (see MergeLevel).
- `StringRecord`'s tie-break and `PriorityQueue`'s internal order are left
  open. `poll` returns some least record.
- `getFileSizeMegaBytes` is only modelled as arithmetic on a byte length. The
  file length lookup is environment input.
- `ShellSort.shellFilesLexical` and `shellFiles` are left out, apart from the
  split-size rule. `Split_30`, `Shell.sort` and the logging are not part of
  this model.
- `Main.java` is not part of this model.
- The sink has no reader during the level loop. The model's reader for it is
  a placeholder that is never read, because `allow_read` blocks the sink.
- PolyphaseSort.Session.MergeLevel: a negative pass count returns
  `NegativePassCount` instead of calling merge. With a negative count the
  Java loop condition never stops the merge, which then ends only when a
  poll throws on an empty queue. Likewise, an index of -1 from
  `getMinFileIndex`, which throws in Java, returns `NoMinFile`.
- PolyphaseSort.Session.Merge: proves that each cycle writes one non-empty
  run, non-decreasing when the queue starts in step with the files' last
  elements. It does not prove that the queue is in step when the level
  loop calls merge, because the order is not threaded from level to level
  (see MergeLevels).
- PolyphaseSort.Session.MergeCycles: that each record polled is a least one
  of the queue at that moment is stated per poll (MergeStep, Advance), but
  the trace `polls` does not carry it.
- PolyphaseSort.Session.Merge: the bag equation and the provenance of the
  records added go one way. Every record queued holds a line its file's
  reader passed over or a head the file had cached, but it is not stated
  that every line read is written, still queued or cached. Reinjection
  keeps the cached heads (PMSS.java:327-332 never clears them), so a head
  may be queued again at a later queue-empty event, and the model does not
  rule that out.
- PolyphaseSort.Session.MergeLevel: when a poll finds the queue empty, the
  Java merge throws at PMSS.java:310, and the catch at PMSS.java:348-351
  returns without `writer.close()` (PMSS.java:340). Lines still buffered in
  the writer are lost, and the level loop goes on to shrink the table and
  read the old sink from an incomplete file. The model keeps every line
  written in the sink and stops with `MergeAborted`, leaving the table and
  the sink as they were.
- PolyphaseSort.Session.Sort: does not state that the final sink holds the
  input sorted, nor which file it is. It states the number of passes and
  that one run remains.
- PolyphaseSort.Session.MergeLevels: does not state where the sink ends up
  after the last level. It does not carry the run order from one level to
  the next: a level whose pass count is zero merges nothing, and a record
  left in the queue from an earlier level need not be in step with the
  files of the next.
- Scheduling.ShrinkTable: the running `runs_per_level` total is kept in a
  local and stored once at the end. Nothing reads the field in between.
- PolyphaseSort.Session.WriteAscendingStretch: the stretch is collected in a
  local and appended to the file once the loop stops. Nothing reads the file
  while the loop writes it.

## Findings

| source | as written | input that shows it | evidently intended | confidence | as-written member | corrected member |
|---|---|---|---|---|---|---|
| src/main/java/PMSS.java:78-80 | `(int) file.length() / (1024 * 1024)` casts the byte length to 32 bits before dividing | a file of 2^31 bytes (2 GiB): its size is taken as -2048 MB, so `main` uses 2 auxiliary files instead of 50, and one byte more than 2^31 - 1 bytes drops the count from 50 to 2 | `(int) (file.length() / (1024 * 1024))`: whole megabytes, with a file count that never decreases with size | not executed | Sizing.AsWrittenTwoGiB | Sizing.CorrectedFileCountMonotone |
| src/main/java/ShellSort.java:11-13 | the same `(int) file.length() / (1024 * 1024)` feeds the split-size rule | a file of 2^31 bytes: its size is taken as -2048 MB, so it is split in 1 MB parts, while a file one byte smaller gets 100 MB parts | `(int) (file.length() / (1024 * 1024))`: parts that never shrink as the file grows | not executed | ShellSorting.SplitAsWrittenTwoGiB | ShellSorting.CorrectedSplitMonotone |
