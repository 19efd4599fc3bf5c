/** The run handling of PMSS.java: distributing the natural runs of the
    input over the auxiliary files, then merging them level by level. Files
    are sequences of lines; a reader is the file's contents when it was
    opened plus a cursor; a writer appends to its file, and opening one
    empties the file. */
module PolyphaseSort {
  import opened Lexicographic
  import opened Distribution
  import opened NaturalRuns
  import opened Scheduling
  import opened RunFiles

  /** How the level loop of main ends: completed, with the table back at
      one run, or at one of the points where the Java code leaves the model:
      an index of -1 from getMinFileIndex (an out-of-bounds array access), a
      negative pass count for merge, or a merge that polled an empty queue
      (the exception skips writer.close(), so what reaches the sink is
      unknown). */
  datatype Outcome = Completed | NoMinFile | NegativePassCount | MergeAborted

  /** The empty-file target table before distribution: the sentinel counts
      of the level below (zeros at the seed). */
  function Filled(k: nat, n: nat): (d: seq<int>)
    requires n >= 2
    ensures |d| == n
  {
    if k == 0 then seq(n, _ => 0) else Level(k - 1, n)
  }

  /** The sentinels lag one level behind the targets: never above them, and
      strictly below for at least one auxiliary file. */
  lemma FilledBelowLevel(k: nat, n: nat)
    requires n >= 3
    ensures forall j :: 0 <= j < n - 1 ==> 0 <= Filled(k, n)[j] <= Level(k, n)[j]
    ensures exists j :: 0 <= j < n - 1 && Filled(k, n)[j] < Level(k, n)[j]
  {
    if k == 0 {
      assert Filled(k, n)[0] < Level(k, n)[0];
    } else {
      LevelShaped(k - 1, n);
      GrowRaises(Level(k - 1, n));
    }
  }

  /** The remembered end of a file's last run: its last line, if any. */
  function LastLine(s: seq<string>): Option<string> {
    if s == [] then None else Some(s[|s| - 1])
  }

  /** A written stretch starting at or above the file's last line continues
      the file's last run; any other stretch starts a new one. */
  lemma StretchRuns(a: seq<string>, w: seq<string>, joined: bool)
    requires w != [] && Ascending(w)
    requires joined <==> a != [] && AtMost(a[|a| - 1], w[0])
    ensures PhysicalRuns(a + w) == PhysicalRuns(a) + (if joined then 0 else 1)
  {
    AppendStretch(a, w);
    if a != [] {
      BelowNotAtMost(w[0], a[|a| - 1]);
    }
  }

  /** Every auxiliary file's ledger entry is the number of natural runs it
      holds. */
  ghost predicate CountsRuns(files: seq<seq<string>>, missing: seq<int>) {
    |missing| == |files| && forall j :: 0 <= j < |files| - 1 ==> missing[j] == PhysicalRuns(files[j])
  }

  /** The run end remembered for every file is its last line. */
  ghost predicate EndsKnown(files: seq<seq<string>>, runLast: seq<Option<string>>) {
    |runLast| == |files| && forall j :: 0 <= j < |files| ==> runLast[j] == LastLine(files[j])
  }

  /** The distribution ledger on values: the ledger entry of every
      auxiliary file counts the natural runs it holds; while input remains,
      the run end remembered for each file is its last line; before anything
      is written all files are empty; the files hold exactly the input
      written so far; the sink (the last file) stays empty. */
  ghost predicate LedgerOf(files: seq<seq<string>>, missing: seq<int>, runLast: seq<Option<string>>,
                           input: seq<string>, written: nat)
  {
    && |files| >= 1 && written <= |input|
    && files[|files| - 1] == []
    && CountsRuns(files, missing)
    && missing[|files| - 1] == 0
    && |runLast| == |files|
    && (written < |input| ==> EndsKnown(files, runLast))
    && (written == 0 ==> forall j :: 0 <= j < |files| ==> files[j] == [])
    && Contents(files) == multiset(input[..written])
  }

  /** What a file held before a slice of the input, extended by the next
      slice, is what it held before plus the two slices joined. */
  lemma SlicesJoin(input: seq<string>, d0: int, d1: int, d2: int, start: seq<string>, middle: seq<string>)
    requires 0 <= d0 <= d1 <= d2 <= |input|
    requires middle == start + input[d0..d1]
    ensures middle + input[d1..d2] == start + input[d0..d2]
  {
    assert input[d0..d2] == input[d0..d1] + input[d1..d2];
  }

  /** The pending line, written before an ascending stretch that starts at
      or above it, keeps the input from d0 on ascending. */
  lemma PendingAscends(input: seq<string>, d0: int, d1: int, d2: int)
    requires 0 <= d0 <= d1 <= d0 + 1 && d1 <= d2 <= |input|
    requires Ascending(input[d1..d2])
    requires d0 < d1 < d2 ==> AtMost(input[d0], input[d1])
    ensures Ascending(input[d0..d2])
  {
    if d1 > d0 {
      assert input[d0..d2] == [input[d0]] + input[d1..d2];
      AscendingCons(input[d0], input[d1..d2]);
    }
  }

  /** A line at or above the last one written extends the ascending
      stretch read from d0. */
  lemma StretchGrows(input: seq<string>, d0: int, d: int, stretch: seq<string>, last: string)
    requires 0 <= d0 <= d < |input|
    requires stretch == input[d0..d] && Ascending(stretch)
    requires d0 < d ==> last == input[d - 1]
    requires CompareTo(input[d], last) >= 0
    ensures stretch + [input[d]] == input[d0..d + 1]
    ensures Ascending(input[d0..d + 1])
  {
    assert input[d0..d + 1] == input[d0..d] + [input[d]];
    Antisymmetric(input[d], last);
    AscendingSnoc(stretch, input[d]);
  }

  /** An ascending stretch appended to auxiliary file i adds one natural
      run to its count unless it joins the file's last run. */
  lemma WriteCounts(files: seq<seq<string>>, missing: seq<int>, i: int, w: seq<string>, merged: bool,
                    files1: seq<seq<string>>, missing1: seq<int>)
    requires CountsRuns(files, missing) && 0 <= i < |files| - 1
    requires w != [] && Ascending(w)
    requires merged <==> files[i] != [] && AtMost(files[i][|files[i]| - 1], w[0])
    requires files1 == files[i := files[i] + w]
    requires missing1 == missing[i := missing[i] + (if merged then 0 else 1)]
    ensures CountsRuns(files1, missing1)
  {
    StretchRuns(files[i], w, merged);
  }

  /** After a stretch is appended to file i, its last line is the end to
      remember. */
  lemma WriteEnds(files: seq<seq<string>>, runLast: seq<Option<string>>, i: int, w: seq<string>,
                  files1: seq<seq<string>>, runLast1: seq<Option<string>>)
    requires EndsKnown(files, runLast) && 0 <= i < |files| && w != []
    requires files1 == files[i := files[i] + w] && runLast1 == runLast[i := Some(w[|w| - 1])]
    ensures EndsKnown(files1, runLast1)
  {
    assert files1[i][|files1[i]| - 1] == w[|w| - 1];
  }

  /** One stretch input[d0..d1] written to auxiliary file i keeps the ledger,
      the ledger entry gaining one run exactly when the stretch does not
      join the file's last run; runsMerged, evaluated on the pending line,
      decides which. */
  lemma LedgerWrite(files: seq<seq<string>>, missing: seq<int>, runLast: seq<Option<string>>,
                    input: seq<string>, d0: nat, d1: nat, i: int,
                    runLast1: seq<Option<string>>, next: Option<string>, merged: bool,
                    files1: seq<seq<string>>, missing1: seq<int>)
    requires LedgerOf(files, missing, runLast, input, d0)
    requires 0 <= i < |files| - 1
    requires d0 < d1 <= |input| && Ascending(input[d0..d1])
    requires next.None? ==> d0 == 0
    requires next.Some? ==> next.value == input[d0]
    requires merged <==> runLast[i].Some? && next.Some? && AtMost(runLast[i].value, next.value)
    requires d1 < |input| ==> runLast1 == runLast[i := Some(input[d1 - 1])]
    requires d1 == |input| ==> runLast1 == runLast
    requires files1 == files[i := files[i] + input[d0..d1]]
    requires missing1 == missing[i := missing[i] + (if merged then 0 else 1)]
    ensures LedgerOf(files1, missing1, runLast1, input, d1)
  {
    var w := input[d0..d1];
    JoinsLastRun(files, runLast, i, w, next, merged);
    WriteCounts(files, missing, i, w, merged, files1, missing1);
    WriteContents(files, i, input, d0, d1, files1);
    if d1 < |input| {
      assert w[|w| - 1] == input[d1 - 1];
      WriteEnds(files, runLast, i, w, files1, runLast1);
    }
    assert files1[|files| - 1] == files[|files| - 1] && missing1[|files| - 1] == missing[|files| - 1];
  }

  /** runsMerged on the pending line, with the remembered run end, says
      whether a stretch starting with that line joins the file's last run. */
  lemma JoinsLastRun(files: seq<seq<string>>, runLast: seq<Option<string>>, i: int, w: seq<string>,
                     next: Option<string>, merged: bool)
    requires 0 <= i < |files| && w != []
    requires EndsKnown(files, runLast)
    requires next.None? ==> files[i] == []
    requires next.Some? ==> next.value == w[0]
    requires merged <==> runLast[i].Some? && next.Some? && AtMost(runLast[i].value, next.value)
    ensures merged <==> files[i] != [] && AtMost(files[i][|files[i]| - 1], w[0])
  {
  }

  /** Writing the next stretch of the input keeps the files' contents equal
      to the input written so far. */
  lemma WriteContents(files: seq<seq<string>>, i: int, input: seq<string>, d0: nat, d1: nat,
                      files1: seq<seq<string>>)
    requires 0 <= i < |files| && d0 <= d1 <= |input|
    requires Contents(files) == multiset(input[..d0])
    requires files1 == files[i := files[i] + input[d0..d1]]
    ensures Contents(files1) == multiset(input[..d1])
  {
    ContentsAppend(files, i, input[d0..d1]);
    assert input[..d1] == input[..d0] + input[d0..d1];
  }

  /** Level k of the target table is being filled: the auxiliary files
      before i have reached their targets, those after i still hold the
      sentinel counts of the level below, file i is in between, and no file
      holds more natural runs than its sentinel. */
  ghost predicate FillingOf(sentinel: seq<int>, dist: seq<int>, missing: seq<int>, k: nat, i: int, n: nat)
  {
    && n >= 3 && |sentinel| == n - 1 && |missing| == n
    && dist == Level(k, n)
    && (forall j :: 0 <= j < i && j < n - 1 ==> sentinel[j] == dist[j])
    && (forall j :: 0 <= j < n - 1 && i < j ==> sentinel[j] == Filled(k, n)[j])
    && (0 <= i < n - 1 ==> Filled(k, n)[i] <= sentinel[i] <= dist[i])
    && (forall j :: 0 <= j < n - 1 ==> missing[j] <= sentinel[j])
  }

  /** Filling a level starts at the first auxiliary file. */
  lemma FillingFirstFile(sentinel: seq<int>, dist: seq<int>, missing: seq<int>, k: nat, n: nat)
    requires FillingOf(sentinel, dist, missing, k, -1, n)
    ensures FillingOf(sentinel, dist, missing, k, 0, n)
    ensures sentinel[0] == Filled(k, n)[0]
  {
    FilledBelowLevel(k, n);
  }

  /** One run dealt to file i below its target: its sentinel rises by one
      and its ledger entry by at most one, the others staying put. */
  lemma FillStep(sentinel: seq<int>, dist: seq<int>, missing: seq<int>, missing1: seq<int>,
                 k: nat, i: int, n: nat)
    requires FillingOf(sentinel, dist, missing, k, i, n)
    requires 0 <= i < n - 1 && sentinel[i] != dist[i]
    requires |missing1| == n && missing1[i] <= missing[i] + 1
    requires forall j :: 0 <= j < n && j != i ==> missing1[j] == missing[j]
    ensures FillingOf(sentinel[i := sentinel[i] + 1], dist, missing1, k, i, n)
  {
  }

  /** File i at its target: filling moves to the next file, which still
      holds its sentinel from the level below. */
  lemma FillingNextFile(sentinel: seq<int>, dist: seq<int>, missing: seq<int>, k: nat, i: int, n: nat)
    requires FillingOf(sentinel, dist, missing, k, i, n)
    requires 0 <= i < n - 1 && sentinel[i] == dist[i]
    ensures FillingOf(sentinel, dist, missing, k, i + 1, n)
    ensures i + 1 < n - 1 ==> sentinel[i + 1] == Filled(k, n)[i + 1]
  {
    FilledBelowLevel(k, n);
  }

  /** Every file at its level-k target: after the growth step the same
      sentinels are the starting point of level k + 1. */
  lemma FillingNextLevel(sentinel: seq<int>, dist: seq<int>, missing: seq<int>, k: nat, n: nat)
    requires FillingOf(sentinel, dist, missing, k, n - 1, n)
    ensures FillingOf(sentinel, Grow(dist), missing, k + 1, -1, n)
  {
  }

  /** Once the table has been stepped back, no file holds more natural runs
      than its target, so the dummy counts come out non-negative. */
  lemma DummiesNonNegative(sentinel: seq<int>, missing: seq<int>, k: nat, n: nat)
    requires n >= 3 && FillingOf(sentinel, Level(k, n), missing, k, -1, n)
    requires k == 0 ==> forall j :: 0 <= j < n - 1 ==> missing[j] == 0
    ensures forall j :: 0 <= j < n - 1 ==> missing[j] <= Shrink(Level(k, n))[j]
  {
    if k > 0 {
      ShrinkNGrowN(k, Seed(n));
    } else {
      assert forall j :: 0 <= j < n - 1 ==> Shrink(Level(k, n))[j] >= 0;
    }
  }

  /** The dummy runs owed at the end of distribution: each auxiliary file
      owes its target minus the natural runs it holds, never a negative
      number, and the sink owes none. */
  ghost predicate DummiesOwed(files: seq<seq<string>>, owed: seq<int>, targets: seq<int>) {
    && |files| >= 1 && |owed| == |files| && |targets| == |files|
    && (forall j :: 0 <= j < |files| - 1 ==> 0 <= owed[j] && owed[j] + PhysicalRuns(files[j]) == targets[j])
    && owed[|files| - 1] == 0
  }

  /** The ledger at the end of distribution, once the table has stepped
      back to the last level filled and every auxiliary file's entry has
      become its target minus the natural runs it holds: the entries are
      the dummy runs owed, none negative, and the files hold the input. */
  lemma ClosedLedger(files: seq<seq<string>>, counts: seq<int>, ends: seq<Option<string>>,
                     sent: seq<int>, targets: seq<int>, owed: seq<int>, input: seq<string>,
                     levels: nat, n: nat)
    requires n >= 3 && |files| == n
    requires LedgerOf(files, counts, ends, input, |input|)
    requires FillingOf(sent, Level(levels, n), counts, levels, -1, n)
    requires levels == 0 <==> |input| == 0
    requires targets == Shrink(Level(levels, n)) && |owed| == n
    requires forall j :: 0 <= j < n - 1 ==> owed[j] == targets[j] - counts[j]
    requires owed[n - 1] == counts[n - 1]
    ensures Contents(files) == multiset(input) && files[n - 1] == []
    ensures DummiesOwed(files, owed, targets)
  {
    assert input[..|input|] == input;
    if levels == 0 {
      NothingCounted(files, counts);
    }
    DummiesNonNegative(sent, counts, levels, n);
    OwedFromCounts(files, counts, targets, owed);
  }

  /** Empty files hold no natural runs, so their ledger entries are zero. */
  lemma NothingCounted(files: seq<seq<string>>, counts: seq<int>)
    requires CountsRuns(files, counts)
    requires forall j :: 0 <= j < |files| ==> files[j] == []
    ensures forall j :: 0 <= j < |files| - 1 ==> counts[j] == 0
  {
    forall j | 0 <= j < |files| - 1
      ensures counts[j] == 0
    {
      assert files[j] == [];
    }
  }

  /** Entries that are the targets minus the natural runs counted, with no
      count above its target, are the dummy runs owed. */
  lemma OwedFromCounts(files: seq<seq<string>>, counts: seq<int>, targets: seq<int>, owed: seq<int>)
    requires |files| >= 1 && CountsRuns(files, counts) && counts[|files| - 1] == 0
    requires |targets| == |files| && |owed| == |files|
    requires forall j :: 0 <= j < |files| - 1 ==> counts[j] <= targets[j]
    requires forall j :: 0 <= j < |files| - 1 ==> owed[j] == targets[j] - counts[j]
    requires owed[|files| - 1] == counts[|files| - 1]
    ensures DummiesOwed(files, owed, targets)
  {
  }

  /** What populateHeap (PMSS.java:375-401) does to one file: with no dummy
      run owed and reading allowed, one readFileLine (its line, if any,
      becomes a record); with no dummy owed but reading blocked, nothing;
      with a dummy owed, one dummy credit is used up and nothing is read. */
  ghost predicate Populated(before: Cursor, owed: int, after: Cursor, owedAfter: int, line: Option<string>) {
    if owed == 0 && before.allow == 1 then
      Open(before.reader) && (after, line) == ReadLine(before) && owedAfter == 0
    else
      after == before && line.None? && owedAfter == (if owed == 0 then 0 else owed - 1)
  }

  /** A reinjected head becomes its file's last element (PMSS.java:327-332);
      a file with no cached head keeps its state. */
  function Reinjected(c: Cursor): Cursor {
    if c.cached.Some? then c.(last := c.cached) else c
  }

  /** The cached heads of the files, file i's at index i. */
  function Heads(cs: seq<Cursor>): (h: seq<Option<string>>)
    ensures |h| == |cs| && forall i {:trigger h[i]} :: 0 <= i < |cs| ==> h[i] == cs[i].cached
  {
    seq(|cs|, i requires 0 <= i < |cs| => cs[i].cached)
  }

  /** Every file's state after the reinjection of PMSS.java:325-333. */
  function ReinjectedAll(cs: seq<Cursor>): (r: seq<Cursor>)
    ensures |r| == |cs| && forall i {:trigger r[i]} :: 0 <= i < |cs| ==> r[i] == Reinjected(cs[i])
  {
    seq(|cs|, i requires 0 <= i < |cs| => Reinjected(cs[i]))
  }

  /** Every file's state after resetAllowReadArray: every file but the sink
      may be read, and nothing else changes. */
  function Unblocked(cs: seq<Cursor>, sink: int): (r: seq<Cursor>)
    ensures |r| == |cs|
    ensures forall i {:trigger r[i]} :: 0 <= i < |cs| ==> r[i] == cs[i].(allow := if i == sink then 0 else 1)
  {
    seq(|cs|, i requires 0 <= i < |cs| => cs[i].(allow := if i == sink then 0 else 1))
  }

  /** populateHeap from the files' states cs0 and the dummy ledger owed0 to
      cs and owed: every file populated once, lines[i] the line file i gave. */
  ghost predicate PopulatedEach(cs0: seq<Cursor>, owed0: seq<int>, cs: seq<Cursor>, owed: seq<int>,
                                lines: seq<Option<string>>)
  {
    && |cs| == |cs0| == |owed0| == |owed| == |lines|
    && forall i {:trigger Populated(cs0[i], owed0[i], cs[i], owed[i], lines[i])} :: 0 <= i < |cs| ==>
      Populated(cs0[i], owed0[i], cs[i], owed[i], lines[i])
  }

  /** populateHeap's loop up to file i: the files below i populated, the
      others as they were. */
  ghost predicate PopulatedUpTo(cs0: seq<Cursor>, owed0: seq<int>, cs: seq<Cursor>, owed: seq<int>,
                                lines: seq<Option<string>>, i: int)
  {
    && |cs| == |cs0| == |owed0| == |owed| && 0 <= i <= |cs| && |lines| == i
    && (forall k {:trigger Populated(cs0[k], owed0[k], cs[k], owed[k], lines[k])} ::
          0 <= k < i ==> Populated(cs0[k], owed0[k], cs[k], owed[k], lines[k]))
    && (forall k :: i <= k < |cs| ==> cs[k] == cs0[k] && owed[k] == owed0[k])
  }

  /** Populating file i extends the loop by one file. */
  lemma PopulateNext(cs0: seq<Cursor>, owed0: seq<int>, cs: seq<Cursor>, owed: seq<int>,
                     lines: seq<Option<string>>, i: int, c: Cursor, o: int, line: Option<string>)
    requires PopulatedUpTo(cs0, owed0, cs, owed, lines, i) && i < |cs|
    requires Populated(cs[i], owed[i], c, o, line)
    ensures PopulatedUpTo(cs0, owed0, cs[i := c], owed[i := o], lines + [line], i + 1)
  {
  }

  /** Polling r and refilling from its file leaves the queue empty exactly
      when r was its only record and the file had nothing to give. */
  lemma LastPoll(q0: multiset<Record>, r: Record, line: Option<string>)
    requires r in q0
    ensures q0 - multiset{r} + Single(line, r.file) == multiset{} <==> q0 == multiset{r} && line.None?
  {
    if line.Some? {
      assert Record(line.value, r.file) in q0 - multiset{r} + Single(line, r.file);
    }
  }

  /** What a queue-empty event does (PMSS.java:325-336), from the queue q0,
      the files' states cs0 and the dummy ledger owed0 to q, cs and owed: the
      cached heads are queued and become their files' last elements, the heap
      is populated from those states (reaching populated, with the lines
      read), and every file but the sink may be read again. */
  ghost predicate CycleRestart(q0: multiset<Record>, cs0: seq<Cursor>, owed0: seq<int>,
                               q: multiset<Record>, cs: seq<Cursor>, owed: seq<int>, sink: int,
                               lines: seq<Option<string>>, populated: seq<Cursor>)
  {
    && q == q0 + Records(Heads(cs0)) + Records(lines)
    && PopulatedEach(ReinjectedAll(cs0), owed0, populated, owed, lines)
    && cs == Unblocked(populated, sink)
  }

  /** Record r belongs to one of the n files. */
  ghost predicate Tagged(r: Record, n: int) {
    0 <= r.file < n
  }

  /** Every record of q belongs to one of the n files. */
  ghost predicate InFiles(q: multiset<Record>, n: int) {
    forall r {:trigger Tagged(r, n)} :: r in q ==> Tagged(r, n)
  }

  /** The queue in step with the files' state: every record of a file that
      may still be read is at most that file's last element. readFileLine
      returns a line only at or above the last element, so a refill never
      falls below a record it replaces. */
  ghost predicate InOrder(q: multiset<Record>, cs: seq<Cursor>) {
    forall r {:trigger InStep(r, cs)} :: r in q ==> InStep(r, cs)
  }

  /** Every record is at most its file's last element, whatever may be
      read: what holds when a cycle starts. */
  ghost predicate Bounded(q: multiset<Record>, cs: seq<Cursor>) {
    forall r {:trigger UnderLast(r, cs)} :: r in q ==> UnderLast(r, cs)
  }

  /** Record r belongs to one of the files and is at most that file's last
      element. */
  ghost predicate UnderLast(r: Record, cs: seq<Cursor>) {
    0 <= r.file < |cs| && cs[r.file].last.Some? && AtMost(r.value, cs[r.file].last.value)
  }

  /** Record r belongs to one of the files and, if that file may still be
      read, is at most its last element. */
  ghost predicate InStep(r: Record, cs: seq<Cursor>) {
    0 <= r.file < |cs| && (cs[r.file].allow == 1 ==> UnderLast(r, cs))
  }

  /** A file's state moved by one readFileLine, or left alone. */
  ghost predicate ReadOrStays(c: Cursor, c2: Cursor, line: Option<string>) {
    (Open(c.reader) && (c2, line) == ReadLine(c)) || (c2 == c && line.None?)
  }

  /** Reading file f and queueing the line read keeps the queue in step, and
      the line read is at or above f's last element. */
  lemma ReadInOrder(q: multiset<Record>, cs: seq<Cursor>, cs2: seq<Cursor>, f: int, line: Option<string>)
    requires 0 <= f < |cs| == |cs2|
    requires ReadOrStays(cs[f], cs2[f], line)
    requires forall i :: 0 <= i < |cs| && i != f ==> cs2[i] == cs[i]
    ensures InOrder(q, cs) ==> InOrder(q + Single(line, f), cs2)
    ensures Bounded(q, cs) ==> Bounded(q + Single(line, f), cs2)
    ensures line.Some? ==> cs2[f].last == line && cs2[f].allow == cs[f].allow
    ensures line.Some? && cs[f].last.Some? ==> AtMost(cs[f].last.value, line.value)
  {
    var c, c2 := cs[f], cs2[f];
    var q2 := q + Single(line, f);
    assert Raises: c.last.Some? ==> c2.last.Some? && AtMost(c.last.value, c2.last.value) by {
      if c.last.Some? && c2.last == c.last {
        assert CompareTo(c.last.value, c.last.value) == 0;
      }
    }
    if InOrder(q, cs) {
      forall r | r in q2
        ensures InStep(r, cs2)
      {
        if r in q {
          assert InStep(r, cs);
          if r.file == f && c2.allow == 1 {
            assert c.allow == 1 && UnderLast(r, cs);
            Transitive(r.value, c.last.value, c2.last.value);
          }
        } else {
          assert r == Record(line.value, f);
          assert CompareTo(line.value, line.value) == 0;
        }
      }
    }
    if Bounded(q, cs) {
      forall r | r in q2
        ensures UnderLast(r, cs2)
      {
        if r in q {
          assert UnderLast(r, cs);
          if r.file == f {
            Transitive(r.value, c.last.value, c2.last.value);
          }
        } else {
          assert r == Record(line.value, f);
          assert CompareTo(line.value, line.value) == 0;
        }
      }
    }
  }

  /** What one file's population does to its state: a file blocked
      afterwards was blocked before, its last element only rises, and a line
      read becomes the last element. */
  lemma PopulatedRaises(c0: Cursor, owed: int, c: Cursor, owed2: int, line: Option<string>)
    requires Populated(c0, owed, c, owed2, line)
    ensures c.allow == 1 ==> c0.allow == 1
    ensures c0.last.Some? ==> c.last.Some? && AtMost(c0.last.value, c.last.value)
    ensures line.Some? ==> c.last == line
  {
    if c0.last.Some? && c.last == c0.last {
      assert CompareTo(c0.last.value, c0.last.value) == 0;
    }
  }

  /** Populating the heap, every file once, keeps the queue in step, and
      bounded if it was. */
  lemma PopulatedAll(q: multiset<Record>, cs0: seq<Cursor>, cs: seq<Cursor>, lines: seq<Option<string>>,
                     owed: seq<int>, owed2: seq<int>)
    requires PopulatedEach(cs0, owed, cs, owed2, lines)
    ensures InOrder(q, cs0) ==> InOrder(q + Records(lines), cs)
    ensures Bounded(q, cs0) ==> Bounded(q + Records(lines), cs)
  {
    RecordsExactly(lines);
    forall r | r in q + Records(lines) && (InOrder(q, cs0) || Bounded(q, cs0))
      ensures InOrder(q, cs0) ==> InStep(r, cs)
      ensures Bounded(q, cs0) ==> UnderLast(r, cs)
    {
      if r in q {
        var f := r.file;
        if InOrder(q, cs0) {
          assert InStep(r, cs0);
        } else {
          assert UnderLast(r, cs0);
        }
        PopulatedRaises(cs0[f], owed[f], cs[f], owed2[f], lines[f]);
        if InOrder(q, cs0) && cs[f].allow == 1 {
          assert UnderLast(r, cs0);
          Transitive(r.value, cs0[f].last.value, cs[f].last.value);
        }
        if Bounded(q, cs0) {
          assert UnderLast(r, cs0);
          Transitive(r.value, cs0[f].last.value, cs[f].last.value);
        }
      } else {
        assert r in Records(lines);
        PopulatedRaises(cs0[r.file], owed[r.file], cs[r.file], owed2[r.file], lines[r.file]);
        assert CompareTo(r.value, r.value) == 0;
      }
    }
  }

  /** The refill after a poll keeps the queue in step, and leaves every
      queued record at or above the polled one. */
  lemma RefillInOrder(q: multiset<Record>, polled: Record, cs: seq<Cursor>, cs2: seq<Cursor>, line: Option<string>)
    requires InOrder(q, cs) && Least(polled, q)
    requires 0 <= polled.file < |cs| == |cs2|
    requires ReadOrStays(cs[polled.file], cs2[polled.file], line)
    requires line.Some? ==> cs[polled.file].allow == 1
    requires forall i :: 0 <= i < |cs| && i != polled.file ==> cs2[i] == cs[i]
    ensures InOrder(q - multiset{polled} + Single(line, polled.file), cs2)
    ensures NoneBelow(polled.value, q - multiset{polled} + Single(line, polled.file))
  {
    var f := polled.file;
    var rest := q - multiset{polled};
    assert InOrder(rest, cs) by {
      forall r | r in rest ensures InStep(r, cs) {
        assert r in q;
      }
    }
    ReadInOrder(rest, cs, cs2, f, line);
    forall s | s in rest + Single(line, f)
      ensures AtMost(polled.value, s.value)
    {
      if s in rest {
        assert s in q;
      } else {
        assert s == Record(line.value, f);
        assert InStep(polled, cs);
        Transitive(polled.value, cs[f].last.value, line.value);
      }
    }
  }

  /** The queue after reinjection, every head now its file's last element,
      is bounded. */
  lemma ReinjectedBounded(heads: seq<Option<string>>, cs: seq<Cursor>)
    requires |heads| == |cs|
    requires forall i :: 0 <= i < |cs| && heads[i].Some? ==> cs[i].last == heads[i]
    ensures Bounded(Records(heads), cs)
  {
    RecordsExactly(heads);
    forall r | r in Records(heads)
      ensures UnderLast(r, cs)
    {
      assert CompareTo(r.value, r.value) == 0;
    }
  }

  /** A bounded queue is in step whatever the read permissions. */
  lemma BoundedInOrder(q: multiset<Record>, cs: seq<Cursor>, cs2: seq<Cursor>)
    requires Bounded(q, cs) && |cs2| == |cs|
    requires forall i :: 0 <= i < |cs| ==> cs2[i].last == cs[i].last
    ensures InOrder(q, cs2) && Bounded(q, cs2)
  {
    forall r | r in q
      ensures InStep(r, cs2) && UnderLast(r, cs2)
    {
      assert UnderLast(r, cs);
    }
  }

  /** Forgetting the last element of a file that may not be read keeps the
      queue in step. */
  lemma ForgetInOrder(q: multiset<Record>, cs: seq<Cursor>, f: int)
    requires InOrder(q, cs) && 0 <= f < |cs| && cs[f].allow != 1
    ensures InOrder(q, cs[f := cs[f].(last := None)])
  {
    forall r | r in q
      ensures InStep(r, cs[f := cs[f].(last := None)])
    {
      assert InStep(r, cs);
    }
  }

  /** The lines of the runs, one run after another. */
  function Concat(runs: seq<seq<string>>): seq<string> {
    if runs == [] then [] else Concat(runs[..|runs| - 1]) + runs[|runs| - 1]
  }

  /** Every run is in order. */
  ghost predicate AscendingRuns(runs: seq<seq<string>>) {
    forall c :: 0 <= c < |runs| ==> Ascending(runs[c])
  }

  /** Every run holds a line. */
  ghost predicate NonEmptyRuns(runs: seq<seq<string>>) {
    forall c :: 0 <= c < |runs| ==> runs[c] != []
  }

  /** Closing the current run r appends it to the runs: the lines are the
      same, a non-empty r keeps every run non-empty, and an ascending r keeps
      every run ascending. */
  lemma CloseRun(runs: seq<seq<string>>, r: seq<string>)
    ensures Concat(runs + [r]) == Concat(runs) + r
    ensures NonEmptyRuns(runs) && r != [] ==> NonEmptyRuns(runs + [r])
    ensures AscendingRuns(runs) && Ascending(r) ==> AscendingRuns(runs + [r])
  {
    assert (runs + [r])[..|runs|] == runs;
  }

  /** One line written to the sink: it joins the current run, and when the
      cycle ends there that run is closed. The lines written so far are kept,
      in order, and every closed run stays non-empty and ascending. */
  lemma Tally(runs: seq<seq<string>>, rest: seq<string>, x: string, close: bool)
    returns (runs2: seq<seq<string>>, rest2: seq<string>)
    ensures Concat(runs2) + rest2 == Concat(runs) + (rest + [x])
    ensures NonEmptyRuns(runs) ==> NonEmptyRuns(runs2)
    ensures close ==> |runs2| == |runs| + 1 && rest2 == []
    ensures !close ==> runs2 == runs && rest2 == rest + [x]
    ensures rest2 == [] || rest2[|rest2| - 1] == x
    ensures AscendingRuns(runs) && Ascending(rest + [x]) ==> AscendingRuns(runs2) && Ascending(rest2)
  {
    runs2, rest2 := runs, rest + [x];
    if close {
      CloseRun(runs, rest2);
      runs2, rest2 := runs + [rest2], [];
      assert Concat(runs2) + rest2 == Concat(runs2);
    }
  }

  /** A least record of a queue that holds nothing below the current run's
      last line extends the run in order. */
  lemma ExtendRun(rest: seq<string>, q: multiset<Record>, polled: Record)
    requires Ascending(rest) && Least(polled, q)
    requires rest != [] ==> NoneBelow(rest[|rest| - 1], q)
    ensures Ascending(rest + [polled.value])
  {
    if rest != [] {
      assert AtMost(rest[|rest| - 1], polled.value);
    }
    AscendingSnoc(rest, polled.value);
  }

  /** The readers moved forward over the files they were opened on. */
  ghost predicate ReadOn(rs0: seq<Reader>, rs: seq<Reader>) {
    |rs| == |rs0| && forall i :: 0 <= i < |rs| ==> rs[i].lines == rs0[i].lines && rs0[i].pos <= rs[i].pos
  }

  lemma ReadOnTransitive(rs0: seq<Reader>, rs1: seq<Reader>, rs: seq<Reader>)
    requires ReadOn(rs0, rs1) && ReadOn(rs1, rs)
    ensures ReadOn(rs0, rs)
  {
  }

  /** Appending a line to file f, which holds the runs done and the current
      run rest after its old contents, extends the current run. */
  lemma AppendLine(files: seq<seq<string>>, f: int, done: seq<string>, rest: seq<string>, x: string)
    requires 0 <= f < |files|
    ensures files[f := files[f] + (done + rest)][f := files[f] + (done + rest) + [x]]
         == files[f := files[f] + (done + (rest + [x]))]
  {
    assert files[f] + (done + rest) + [x] == files[f] + (done + (rest + [x]));
  }

  /** One more poll keeps the bag equation: what is queued plus what was
      polled is what was queued at the start plus what was added. */
  lemma BagStep(q: multiset<Record>, q1: multiset<Record>, p: Record, polls: seq<Record>,
                q0: multiset<Record>, added: multiset<Record>, step: multiset<Record>)
    requires q + multiset{p} == q1 + step
    requires q1 + multiset(polls) == q0 + added
    ensures q + multiset(polls + [p]) == q0 + (added + step)
  {
    assert multiset(polls + [p]) == multiset(polls) + multiset{p};
    calc {
      q + multiset(polls + [p]);
      (q + multiset{p}) + multiset(polls);
      (q1 + step) + multiset(polls);
      (q1 + multiset(polls)) + step;
    }
  }

  /** One more poll keeps the trace of merge: the lines written are those
      of the records polled, the bag equation holds, and every record added
      holds a line of its own file. */
  lemma TraceStep(q0: multiset<Record>, q1: multiset<Record>, q: multiset<Record>, p: Record,
                  polls: seq<Record>, added: multiset<Record>, step: multiset<Record>,
                  runs: seq<seq<string>>, rest: seq<string>, runs2: seq<seq<string>>, rest2: seq<string>,
                  cs0: seq<Cursor>, cs1: seq<Cursor>, cs2: seq<Cursor>)
    requires Concat(runs) + rest == Values(polls)
    requires Concat(runs2) + rest2 == Concat(runs) + (rest + [p.value])
    requires q + multiset{p} == q1 + step && q1 + multiset(polls) == q0 + added
    requires FedOn(cs0, cs1) && AllSourced(added, cs0, cs1)
    requires FedOn(cs1, cs2) && AllSourced(step, cs1, cs2)
    ensures Concat(runs2) + rest2 == Values(polls + [p])
    ensures q + multiset(polls + [p]) == q0 + (added + step)
    ensures FedOn(cs0, cs2) && AllSourced(added + step, cs0, cs2)
  {
    ValuesSnoc(polls, p);
    BagStep(q, q1, p, polls, q0, added, step);
    FedOnChain(cs0, cs1, cs2);
    SourcedChain(added, step, cs0, cs1, cs2);
  }

  /** The lines of records, in order. */
  function Values(rs: seq<Record>): (v: seq<string>)
    ensures |v| == |rs|
  {
    if rs == [] then [] else Values(rs[..|rs| - 1]) + [rs[|rs| - 1].value]
  }

  /** One more record polled writes its line after the others. */
  lemma ValuesSnoc(rs: seq<Record>, r: Record)
    ensures Values(rs + [r]) == Values(rs) + [r.value]
  {
    assert (rs + [r])[..|rs|] == rs;
  }

  /** Line x is one that reader r0 passed over on its way to r. */
  ghost predicate Passed(x: string, r0: Reader, r: Reader) {
    exists k :: r0.pos <= k < r.pos && k < |r.lines| && r.lines[k] == x
  }

  /** From the files' states cs0 to cs, x is a line of file f: the head f
      had cached at cs0, or a line f's reader passed over since. */
  ghost predicate FromFile(x: string, f: int, cs0: seq<Cursor>, cs: seq<Cursor>) {
    0 <= f < |cs0| && f < |cs| && (cs0[f].cached == Some(x) || Passed(x, cs0[f].reader, cs[f].reader))
  }

  /** Record r holds a line of its own file, from cs0 to cs. */
  ghost predicate Sourced(r: Record, cs0: seq<Cursor>, cs: seq<Cursor>) {
    FromFile(r.value, r.file, cs0, cs)
  }

  /** Every record of q holds a line of its own file, from cs0 to cs. */
  ghost predicate AllSourced(q: multiset<Record>, cs0: seq<Cursor>, cs: seq<Cursor>) {
    forall r {:trigger Sourced(r, cs0, cs)} :: r in q ==> Sourced(r, cs0, cs)
  }

  /** From cs0 to cs the readers moved forward over the same lines, and
      every cached head is one its file had cached at cs0 or a line its
      reader passed over since. */
  ghost predicate FedOn(cs0: seq<Cursor>, cs: seq<Cursor>) {
    && |cs| == |cs0|
    && (forall i :: 0 <= i < |cs| ==> cs[i].reader.lines == cs0[i].reader.lines && cs0[i].reader.pos <= cs[i].reader.pos)
    && (forall i :: 0 <= i < |cs| && cs[i].cached.Some? ==> FromFile(cs[i].cached.value, i, cs0, cs))
  }

  /** Two sequences of file states with the same readers and cached heads. */
  ghost predicate SameFeed(cs: seq<Cursor>, cs2: seq<Cursor>) {
    |cs| == |cs2| && forall i :: 0 <= i < |cs| ==> cs2[i].reader == cs[i].reader && cs2[i].cached == cs[i].cached
  }

  /** The readers of the files' states, file i's at index i. */
  function ReadersOf(cs: seq<Cursor>): (rs: seq<Reader>)
    ensures |rs| == |cs| && forall i {:trigger rs[i]} :: 0 <= i < |cs| ==> rs[i] == cs[i].reader
  {
    seq(|cs|, i requires 0 <= i < |cs| => cs[i].reader)
  }

  /** Forgetting a last element changes nothing about where lines come
      from. */
  lemma ForgottenFeed(cs: seq<Cursor>, f: int, cs1: seq<Cursor>, cs2: seq<Cursor>, q: multiset<Record>)
    requires 0 <= f < |cs| && cs1 == cs[f := cs[f].(last := None)]
    requires FedOn(cs1, cs2) && AllSourced(q, cs1, cs2)
    ensures FedOn(cs, cs2) && AllSourced(q, cs, cs2)
  {
    assert SameFeed(cs1, cs);
    assert SameFeed(cs2, cs2);
    SameFeedSourced(q, cs1, cs2, cs, cs2);
  }

  /** A line passed over by a reader stays passed over as it moves on. */
  lemma PassedOn(x: string, r0: Reader, r1: Reader, r2: Reader)
    requires r1.lines == r2.lines && r1.pos <= r2.pos
    ensures Passed(x, r0, r1) ==> Passed(x, r0, r2)
  {
    if Passed(x, r0, r1) {
      var k :| r0.pos <= k < r1.pos && k < |r1.lines| && r1.lines[k] == x;
      assert r0.pos <= k < r2.pos && k < |r2.lines| && r2.lines[k] == x;
    }
  }

  /** A line passed over from a later start was passed over from an earlier one. */
  lemma PassedSince(x: string, r0: Reader, r1: Reader, r2: Reader)
    requires r0.pos <= r1.pos
    ensures Passed(x, r1, r2) ==> Passed(x, r0, r2)
  {
    if Passed(x, r1, r2) {
      var k :| r1.pos <= k < r2.pos && k < |r2.lines| && r2.lines[k] == x;
      assert r0.pos <= k < r2.pos && k < |r2.lines| && r2.lines[k] == x;
    }
  }

  /** A line of file f from cs0 to cs1, or from cs1 to cs2, is one from cs0
      to cs2. */
  lemma FromFileChain(x: string, f: int, cs0: seq<Cursor>, cs1: seq<Cursor>, cs2: seq<Cursor>)
    requires FedOn(cs0, cs1) && FedOn(cs1, cs2) && 0 <= f < |cs0|
    ensures FromFile(x, f, cs0, cs1) ==> FromFile(x, f, cs0, cs2)
    ensures FromFile(x, f, cs1, cs2) ==> FromFile(x, f, cs0, cs2)
  {
    PassedOn(x, cs0[f].reader, cs1[f].reader, cs2[f].reader);
    PassedSince(x, cs0[f].reader, cs1[f].reader, cs2[f].reader);
    if cs1[f].cached == Some(x) {
      assert FromFile(x, f, cs0, cs1);
    }
  }

  /** FedOn composes. */
  lemma FedOnChain(cs0: seq<Cursor>, cs1: seq<Cursor>, cs2: seq<Cursor>)
    requires FedOn(cs0, cs1) && FedOn(cs1, cs2)
    ensures FedOn(cs0, cs2)
  {
    forall i | 0 <= i < |cs2| && cs2[i].cached.Some?
      ensures FromFile(cs2[i].cached.value, i, cs0, cs2)
    {
      FromFileChain(cs2[i].cached.value, i, cs0, cs1, cs2);
    }
  }

  /** Records sourced from cs0 to cs1 and from cs1 to cs2 are, together,
      sourced from cs0 to cs2. */
  lemma SourcedChain(a1: multiset<Record>, a2: multiset<Record>, cs0: seq<Cursor>, cs1: seq<Cursor>, cs2: seq<Cursor>)
    requires FedOn(cs0, cs1) && FedOn(cs1, cs2)
    requires AllSourced(a1, cs0, cs1) && AllSourced(a2, cs1, cs2)
    ensures AllSourced(a1 + a2, cs0, cs2)
  {
    forall r | r in a1 + a2
      ensures Sourced(r, cs0, cs2)
    {
      if r in a1 {
        assert Sourced(r, cs0, cs1);
      } else {
        assert Sourced(r, cs1, cs2);
      }
      FromFileChain(r.value, r.file, cs0, cs1, cs2);
    }
  }

  /** Provenance depends only on the readers and the cached heads. */
  lemma SameFeedSourced(q: multiset<Record>, cs0: seq<Cursor>, cs: seq<Cursor>, ds0: seq<Cursor>, ds: seq<Cursor>)
    requires SameFeed(cs0, ds0) && SameFeed(cs, ds)
    requires FedOn(cs0, cs) && AllSourced(q, cs0, cs)
    ensures FedOn(ds0, ds) && AllSourced(q, ds0, ds)
  {
    forall r | r in q
      ensures Sourced(r, ds0, ds)
    {
      assert Sourced(r, cs0, cs);
    }
    forall i | 0 <= i < |ds| && ds[i].cached.Some?
      ensures FromFile(ds[i].cached.value, i, ds0, ds)
    {
      assert FromFile(cs[i].cached.value, i, cs0, cs);
    }
  }

  /** readFileLine returns, or caches, only the line its reader passes over. */
  lemma ReadLineFed(c: Cursor)
    requires Open(c.reader)
    ensures ReadLine(c).1.Some? ==> Passed(ReadLine(c).1.value, c.reader, ReadLine(c).0.reader)
    ensures ReadLine(c).0.cached.Some? ==>
      ReadLine(c).0.cached == c.cached || Passed(ReadLine(c).0.cached.value, c.reader, ReadLine(c).0.reader)
  {
    var r := c.reader;
    if r.pos < |r.lines| {
      assert Passed(r.lines[r.pos], r, NextLine(r).0);
    }
  }

  /** The refill of file f after a poll: the line queued is one f's reader
      passed over, and f's cache holds its old head or such a line. */
  lemma RefillFed(cs: seq<Cursor>, f: int)
    requires 0 <= f < |cs| && Open(cs[f].reader)
    ensures FedOn(cs, cs[f := Refilled(cs[f]).0])
    ensures AllSourced(Single(Refilled(cs[f]).1, f), cs, cs[f := Refilled(cs[f]).0])
  {
    var cs2 := cs[f := Refilled(cs[f]).0];
    if cs[f].allow == 1 {
      ReadLineFed(cs[f]);
    }
    forall i | 0 <= i < |cs2| && cs2[i].cached.Some?
      ensures FromFile(cs2[i].cached.value, i, cs, cs2)
    {
    }
  }

  /** populateHeap queues only lines the readers pass over, and caches only
      such lines or the heads already cached. */
  lemma PopulatedFed(cs0: seq<Cursor>, owed0: seq<int>, cs: seq<Cursor>, owed: seq<int>, lines: seq<Option<string>>)
    requires PopulatedEach(cs0, owed0, cs, owed, lines)
    ensures FedOn(cs0, cs) && AllSourced(Records(lines), cs0, cs)
  {
    forall i | 0 <= i < |cs|
      ensures cs[i].reader.lines == cs0[i].reader.lines && cs0[i].reader.pos <= cs[i].reader.pos
      ensures lines[i].Some? ==> Passed(lines[i].value, cs0[i].reader, cs[i].reader)
      ensures cs[i].cached.Some? ==> FromFile(cs[i].cached.value, i, cs0, cs)
    {
      assert Populated(cs0[i], owed0[i], cs[i], owed[i], lines[i]);
      if owed0[i] == 0 && cs0[i].allow == 1 {
        ReadLineFed(cs0[i]);
      }
    }
    RecordsExactly(lines);
    forall r | r in Records(lines)
      ensures Sourced(r, cs0, cs)
    {
      assert lines[r.file] == Some(r.value);
    }
  }

  /** A queue-empty event queues the heads cached at mid and lines the
      readers pass over, and caches only such lines or those heads. */
  lemma RestartFed(mid: seq<Cursor>, owed0: seq<int>, q: multiset<Record>, cs: seq<Cursor>, owed: seq<int>,
                   sink: int, lines: seq<Option<string>>, populated: seq<Cursor>)
    requires CycleRestart(multiset{}, mid, owed0, q, cs, owed, sink, lines, populated)
    ensures FedOn(mid, cs) && AllSourced(q, mid, cs)
  {
    var re := ReinjectedAll(mid);
    PopulatedFed(re, owed0, populated, owed, lines);
    assert SameFeed(re, mid);
    assert SameFeed(populated, cs);
    SameFeedSourced(Records(lines), re, populated, mid, cs);
    RecordsExactly(Heads(mid));
    forall r | r in q
      ensures Sourced(r, mid, cs)
    {
      if r in Records(Heads(mid)) {
        assert Heads(mid)[r.file] == Some(r.value);
      } else {
        assert r in Records(lines);
        assert Sourced(r, mid, cs);
      }
    }
  }

  /** The level loop of main at level lv: the table is one shrink below
      level lv, and its run count exceeds one exactly while another level
      follows. */
  ghost predicate AtLevel(d: seq<int>, runs: int, lv: nat, n: nat) {
    && n >= 3
    && d == Shrink(Level(lv, n))
    && (runs > 1 <==> lv >= 2)
    && (lv <= 1 ==> runs == 1)
  }

  /** The table of the level loop on entry. */
  lemma StartsAtLevel(d: seq<int>, runs: int, lv: nat, n: nat)
    requires n >= 3 && d == Shrink(Level(lv, n)) && runs == Runs(d)
    ensures AtLevel(d, runs, lv, n)
  {
    ShrunkLevel(lv, n);
  }

  /** A level merged: shrinking the table once more reaches the level
      below. */
  lemma StepsDown(d0: seq<int>, d: seq<int>, runs: int, lv: nat, n: nat)
    requires n >= 3 && lv >= 2
    requires d0 == Shrink(Level(lv, n)) && d == Shrink(d0) && runs == Runs(d)
    ensures AtLevel(d, runs, lv - 1, n)
  {
    ShrunkLevel(lv, n);
    ShrunkLevel(lv - 1, n);
  }

  /** The loop ends at level 1 with the seed table: one run on the first
      file. */
  lemma EndsAtSeed(d: seq<int>, runs: int, n: nat)
    requires AtLevel(d, runs, 1, n)
    ensures d == Seed(n)
  {
    ShrunkLevel(1, n);
  }

  class Session {
    /** The scheduler's arrays and indices. */
    const sched: Scheduler
    /** The number of working files: the auxiliary files plus one. */
    const n: int
    /** The lines of the input file. */
    const input: seq<string>
    /** Lines of the input consumed by main_file_reader. */
    var inputPos: nat
    /** data_read, counted in lines written rather than in bytes. */
    var dataRead: nat
    var nextRunElement: Option<string>
    const runLastElements: array<Option<string>>
    const lastElements: array<Option<string>>
    /** next_run_first_elements: the record's file index is always the slot. */
    const nextRunFirst: array<Option<string>>
    var files: seq<seq<string>>
    var readers: seq<Reader>
    /** The priority queue, as a multiset of records. */
    var queue: multiset<Record>

    /** A reader and a readFileLine state for each of the n files. */
    ghost predicate Sized()
      reads this`readers
    {
      && |readers| == n && lastElements.Length == n && nextRunFirst.Length == n
      && sched.allowRead.Length == n
    }

    /** The sizes of the arrays and lists agree. */
    ghost predicate Shape()
      reads this`files, this`readers, sched
    {
      && sched.Valid()
      && n == sched.distribution.Length
      && Sized() && runLastElements.Length == n
      && runLastElements != lastElements && runLastElements != nextRunFirst
      && lastElements != nextRunFirst
      && |files| == n
    }

    ghost predicate Valid()
      reads this`files, this`readers, this`queue, this`inputPos, this`dataRead, sched
    {
      && Shape()
      && (forall i :: 0 <= i < n ==> Open(readers[i]))
      && InFiles(queue, n)
      && inputPos <= |input| && dataRead <= |input|
    }

    /** The state main starts from: nothing read or written, every array at
        Java's default. */
    ghost predicate Initial()
      reads this, sched, sched.distribution, sched.missingRuns, runLastElements
    {
      && inputPos == 0 && dataRead == 0 && nextRunElement.None? && queue == multiset{}
      && (forall i :: 0 <= i < sched.distribution.Length ==> sched.distribution[i] == 0)
      && (forall i :: 0 <= i < sched.missingRuns.Length ==> sched.missingRuns[i] == 0)
      && (forall i :: 0 <= i < runLastElements.Length ==> runLastElements[i].None?)
      && (forall i :: 0 <= i < |files| ==> files[i] == [])
    }

    constructor (fileCount: int, input: seq<string>)
      requires fileCount >= 2
      ensures Valid() && Initial()
      ensures this.input == input && n == fileCount + 1
      ensures fresh(sched) && fresh(sched.distribution) && fresh(sched.missingRuns)
      ensures fresh(sched.allowRead)
      ensures fresh(runLastElements) && fresh(lastElements) && fresh(nextRunFirst)
    {
      sched := new Scheduler(fileCount);
      n := fileCount + 1;
      this.input := input;
      inputPos := 0;
      dataRead := 0;
      nextRunElement := None;
      runLastElements := new Option<string>[fileCount + 1](_ => None);
      lastElements := new Option<string>[fileCount + 1](_ => None);
      nextRunFirst := new Option<string>[fileCount + 1](_ => None);
      files := seq(fileCount + 1, _ => []);
      readers := seq(fileCount + 1, _ => Reader([], 0));
      queue := multiset{};
    }

    // -------------------------------------------------------------------
    // Distribution

    /** Every line consumed from the input has been written, except at most
        the pending next_run_element, which is the next line to write. */
    ghost predicate DistInv()
      reads this`inputPos, this`dataRead, this`nextRunElement
    {
      && inputPos <= |input| && dataRead <= |input|
      && ((nextRunElement.None? && inputPos == 0 && dataRead == 0)
          || (nextRunElement.Some? && inputPos == dataRead + 1 && nextRunElement.value == input[dataRead])
          || (dataRead == inputPos == |input|))
    }

    /** main_file_reader.readLine() */
    method ReadInputLine() returns (line: Option<string>)
      requires inputPos <= |input|
      modifies this`inputPos
      ensures old(inputPos) < |input| ==> line == Some(input[old(inputPos)]) && inputPos == old(inputPos) + 1
      ensures old(inputPos) == |input| ==> line.None? && inputPos == old(inputPos)
    {
      if inputPos < |input| {
        line := Some(input[inputPos]);
        inputPos := inputPos + 1;
      } else {
        line := None;
      }
    }

    /** runsMerged: input remains, and the new run's first line is at or
        above the last line of the run last written to file f. */
    predicate RunsMerged(f: int, first: Option<string>)
      requires 0 <= f < runLastElements.Length
      reads this`dataRead, runLastElements
    {
      && dataRead < |input|
      && runLastElements[f].Some? && first.Some?
      && AtMost(runLastElements[f].value, first.value)
    }

    /** writeNextStringRun: once the input is used up it only gives back one
        dummy credit of file f. Otherwise it writes the pending line and then
        the input up to the next descent, so at least one line goes to file
        f, the stretch written is non-decreasing, and it ends either with the
        input or where the next line is below the last one written, that
        next line being kept pending and the last one written remembered as
        the end of f's run. */
    method WriteNextStringRun(f: int)
      requires Shape() && DistInv() && 0 <= f < n
      modifies this`inputPos, this`dataRead, this`nextRunElement, this`files
      modifies runLastElements, sched.missingRuns
      ensures Shape() && DistInv()
      ensures old(dataRead) >= |input| ==>
        && sched.missingRuns[..] == old(sched.missingRuns[..])[f := old(sched.missingRuns[f]) - 1]
        && files == old(files) && dataRead == old(dataRead) && inputPos == old(inputPos)
        && nextRunElement == old(nextRunElement)
        && runLastElements[..] == old(runLastElements[..])
      ensures old(dataRead) < |input| ==>
        && old(dataRead) < dataRead
        && files == old(files)[f := old(files[f]) + input[old(dataRead)..dataRead]]
        && Ascending(input[old(dataRead)..dataRead])
        && unchanged(sched.missingRuns)
        && (dataRead < |input| ==>
              && Below(input[dataRead], input[dataRead - 1])
              && runLastElements[..] == old(runLastElements[..])[f := Some(input[dataRead - 1])])
        && (dataRead == |input| ==> runLastElements[..] == old(runLastElements[..]))
    {
      if dataRead >= |input| {
        sched.missingRuns[f] := sched.missingRuns[f] - 1;
        return;
      }
      WriteRun(f);
    }

    /** writeNextStringRun once input remains (PMSS.java:517-558). */
    method WriteRun(f: int)
      requires Shape() && DistInv() && 0 <= f < n && dataRead < |input|
      modifies this`inputPos, this`dataRead, this`nextRunElement, this`files, runLastElements
      ensures Shape() && DistInv()
      ensures old(dataRead) < dataRead
      ensures files == old(files)[f := old(files[f]) + input[old(dataRead)..dataRead]]
      ensures Ascending(input[old(dataRead)..dataRead])
      ensures dataRead < |input| ==>
        && Below(input[dataRead], input[dataRead - 1])
        && runLastElements[..] == old(runLastElements[..])[f := Some(input[dataRead - 1])]
      ensures dataRead == |input| ==> runLastElements[..] == old(runLastElements[..])
    {
      if nextRunElement.Some? {
        WritePendingRun(f);
      } else {
        var current := ReadInputLine();
        WriteAscendingStretch(f, current);
      }
    }

    /** writeNextStringRun with a pending line (PMSS.java:524-558): that line
        is written first; the run stops right after it when the input ends or
        the next line is below it, and otherwise goes on as the stretch from
        the next line. */
    method WritePendingRun(f: int)
      requires Shape() && DistInv() && 0 <= f < n && dataRead < |input| && nextRunElement.Some?
      modifies this`inputPos, this`dataRead, this`nextRunElement, this`files, runLastElements
      ensures Shape() && DistInv()
      ensures old(dataRead) < dataRead
      ensures files == old(files)[f := old(files[f]) + input[old(dataRead)..dataRead]]
      ensures Ascending(input[old(dataRead)..dataRead])
      ensures dataRead < |input| ==>
        && Below(input[dataRead], input[dataRead - 1])
        && runLastElements[..] == old(runLastElements[..])[f := Some(input[dataRead - 1])]
      ensures dataRead == |input| ==> runLastElements[..] == old(runLastElements[..])
    {
      ghost var d0 := dataRead;
      ghost var start := files[f];
      files := files[f := files[f] + [nextRunElement.value]];
      dataRead := dataRead + 1;
      var current := ReadInputLine();
      if current.None? {
        // comparing with the null line throws, and the exception is dropped
        assert dataRead == d0 + 1 && nextRunElement.value == input[d0];
        assert input[d0..dataRead] == [nextRunElement.value];
        return;
      }
      if CompareTo(nextRunElement.value, current.value) > 0 {
        Antisymmetric(nextRunElement.value, current.value);
        assert Below(input[dataRead], input[dataRead - 1]);
        assert input[d0..dataRead] == [nextRunElement.value];
        runLastElements[f] := nextRunElement;
        nextRunElement := current;
        return;
      }
      ghost var middle := files[f];
      assert runLastElements[..] == old(runLastElements[..]);
      WriteAscendingStretch(f, current);
      SlicesJoin(input, d0, d0 + 1, dataRead, start, middle);
      PendingAscends(input, d0, d0 + 1, dataRead);
    }

    /** The loop of writeNextStringRun (PMSS.java:540-558): from the line
        just read, write the lines while each is at or above the last one
        written (the first always is, being compared with the empty line),
        and stop at the first descent, keeping that line pending and
        remembering the last line written as the end of f's run. */
    method WriteAscendingStretch(f: int, first: Option<string>)
      requires Shape() && 0 <= f < n
      requires first.Some? ==> inputPos == dataRead + 1 <= |input| && first.value == input[dataRead]
      requires first.None? ==> inputPos == dataRead == |input|
      modifies this`inputPos, this`dataRead, this`nextRunElement, this`files, runLastElements
      ensures Shape()
      ensures old(dataRead) <= dataRead <= |input| && inputPos <= |input|
      ensures first.Some? ==> old(dataRead) < dataRead
      ensures files == old(files)[f := old(files[f]) + input[old(dataRead)..dataRead]]
      ensures Ascending(input[old(dataRead)..dataRead])
      ensures dataRead < |input| ==>
        && inputPos == dataRead + 1 && nextRunElement == Some(input[dataRead])
        && Below(input[dataRead], input[dataRead - 1])
        && runLastElements[..] == old(runLastElements[..])[f := Some(input[dataRead - 1])]
      ensures dataRead == |input| ==>
        && inputPos == |input| && nextRunElement == old(nextRunElement)
        && runLastElements[..] == old(runLastElements[..])
    {
      ghost var d0 := dataRead;
      var minValue := "";
      var current := first;
      var stretch: seq<string> := [];
      while current.Some?
        invariant inputPos <= |input| && d0 <= dataRead <= |input|
        invariant current.Some? ==> inputPos == dataRead + 1 && current.value == input[dataRead]
        invariant current.None? ==> inputPos == dataRead == |input|
        invariant first.Some? && dataRead == d0 ==> current == first
        invariant dataRead == d0 ==> minValue == ""
        invariant d0 < dataRead ==> minValue == input[dataRead - 1]
        invariant stretch == input[d0..dataRead] && Ascending(stretch)
        invariant files == old(files) && nextRunElement == old(nextRunElement)
        invariant unchanged(runLastElements)
        decreases |input| - dataRead
      {
        if CompareTo(current.value, minValue) >= 0 {
          StretchGrows(input, d0, dataRead, stretch, minValue);
          stretch := stretch + [current.value];
          dataRead := dataRead + 1;
          minValue := current.value;
          current := ReadInputLine();
        } else {
          nextRunElement := current;
          runLastElements[f] := Some(minValue);
          files := files[f := files[f] + stretch];
          return;
        }
      }
      files := files[f := files[f] + stretch];
    }

    /** The distribution ledger: missing_runs[j] counts the natural runs
        auxiliary file j holds; while input remains, the run end remembered
        for a file is its last line; the files hold exactly the input written
        so far; the sink stays empty. */
    ghost predicate Ledger()
      reads this`files, this`dataRead, sched.missingRuns, runLastElements
    {
      LedgerOf(files, sched.missingRuns[..], runLastElements[..], input, dataRead)
    }

    /** The runs-merged loop (PMSS.java:200-203): while the pending line
        joins the last run of file i, the next stretch goes there too. Joined
        stretches add no natural run, so the ledger is kept unchanged, and on
        return the pending line does not join. */
    method WriteJoinedRuns(i: int)
      requires Shape() && DistInv() && Ledger() && 0 <= i < n - 1
      modifies this`inputPos, this`dataRead, this`nextRunElement, this`files
      modifies runLastElements, sched.missingRuns
      ensures Shape() && DistInv() && Ledger()
      ensures old(dataRead) <= dataRead
      ensures unchanged(sched.missingRuns)
      ensures !RunsMerged(i, nextRunElement)
    {
      while RunsMerged(i, nextRunElement)
        invariant Shape() && DistInv() && Ledger()
        invariant old(dataRead) <= dataRead
        invariant unchanged(sched.missingRuns)
        decreases |input| - dataRead
      {
        JoinedRun(i);
      }
    }

    /** One joining stretch (PMSS.java:202): the pending line continues the
        last run of file i, so the stretch goes there without adding a
        natural run, and some input is consumed. */
    method JoinedRun(i: int)
      requires Shape() && DistInv() && Ledger() && 0 <= i < n - 1
      requires RunsMerged(i, nextRunElement)
      modifies this`inputPos, this`dataRead, this`nextRunElement, this`files
      modifies runLastElements, sched.missingRuns
      ensures Shape() && DistInv() && Ledger()
      ensures old(dataRead) < dataRead
      ensures unchanged(sched.missingRuns)
    {
      ghost var d0 := dataRead;
      ghost var written := files;
      ghost var counts := sched.missingRuns[..];
      ghost var ends := runLastElements[..];
      ghost var next := nextRunElement;
      WriteNextStringRun(i);
      assert sched.missingRuns[..] == counts[i := counts[i] + 0];
      LedgerWrite(written, counts, ends, input, d0, dataRead, i, runLastElements[..], next, true,
                  files, sched.missingRuns[..]);
    }

    /** The body of the sentinel loop (PMSS.java:200-206): the joining
        stretches, then one more run, counted. The ledger still counts each
        auxiliary file's natural runs: that run adds one unless the input
        was already used up, in which case its dummy credit is given back. */
    method DealRun(i: int)
      requires Shape() && DistInv() && Ledger() && 0 <= i < n - 1
      modifies this`inputPos, this`dataRead, this`nextRunElement, this`files
      modifies runLastElements, sched.missingRuns
      ensures Shape() && DistInv() && Ledger()
      ensures old(dataRead) <= dataRead
      ensures old(dataRead) < |input| ==> old(dataRead) < dataRead
      ensures forall j :: 0 <= j < n && j != i ==> sched.missingRuns[j] == old(sched.missingRuns[j])
      ensures sched.missingRuns[i] <= old(sched.missingRuns[i]) + 1
    {
      WriteJoinedRuns(i);
      CountedRun(i);
    }

    /** The counted run after the joining stretches (PMSS.java:204-205): one
        more stretch goes to file i, which adds one natural run to its count
        unless the input was already used up, in which case its dummy credit
        is given back. */
    method CountedRun(i: int)
      requires Shape() && DistInv() && Ledger() && 0 <= i < n - 1
      requires !RunsMerged(i, nextRunElement)
      modifies this`inputPos, this`dataRead, this`nextRunElement, this`files
      modifies runLastElements, sched.missingRuns
      ensures Shape() && DistInv() && Ledger()
      ensures old(dataRead) <= dataRead
      ensures old(dataRead) < |input| ==> old(dataRead) < dataRead
      ensures sched.missingRuns[..] == old(sched.missingRuns[..])[i := sched.missingRuns[i]]
      ensures sched.missingRuns[i] <= old(sched.missingRuns[i]) + 1
    {
      ghost var d0 := dataRead;
      ghost var written := files;
      ghost var counts := sched.missingRuns[..];
      ghost var ends := runLastElements[..];
      ghost var next := nextRunElement;
      WriteNextStringRun(i);
      sched.missingRuns[i] := sched.missingRuns[i] + 1;
      if d0 < |input| {
        assert sched.missingRuns[..] == counts[i := counts[i] + 1];
        LedgerWrite(written, counts, ends, input, d0, dataRead, i, runLastElements[..], next, false,
                    files, sched.missingRuns[..]);
      } else {
        assert sched.missingRuns[..] == counts;
      }
    }

    /** The sentinel loop of file i (PMSS.java:198-208): runs are dealt to
        the file until its sentinel reaches its target. Only that sentinel
        changes, and a line is written whenever it started below the target
        while input remained. */
    method FillFile(i: int, sentinel: array<int>, ghost k: nat)
      requires Shape() && DistInv() && Ledger() && 0 <= i < n - 1
      requires sentinel != sched.distribution && sentinel != sched.missingRuns
      requires FillingOf(sentinel[..], sched.distribution[..], sched.missingRuns[..], k, i, n)
      modifies this`inputPos, this`dataRead, this`nextRunElement, this`files
      modifies runLastElements, sched.missingRuns, sentinel
      ensures Shape() && DistInv() && Ledger()
      ensures FillingOf(sentinel[..], sched.distribution[..], sched.missingRuns[..], k, i, n)
      ensures sentinel[i] == sched.distribution[i]
      ensures forall j :: 0 <= j < sentinel.Length && j != i ==> sentinel[j] == old(sentinel[j])
      ensures old(dataRead) <= dataRead
      ensures old(sentinel[i]) < sched.distribution[i] && old(dataRead) < |input| ==> old(dataRead) < dataRead
    {
      while sentinel[i] != sched.distribution[i]
        invariant Shape() && DistInv() && Ledger()
        invariant FillingOf(sentinel[..], sched.distribution[..], sched.missingRuns[..], k, i, n)
        invariant forall j :: 0 <= j < sentinel.Length && j != i ==> sentinel[j] == old(sentinel[j])
        invariant old(sentinel[i]) <= sentinel[i]
        invariant old(dataRead) <= dataRead
        invariant old(sentinel[i]) < sentinel[i] && old(dataRead) < |input| ==> old(dataRead) < dataRead
        decreases sched.distribution[i] - sentinel[i]
      {
        ghost var counts := sched.missingRuns[..];
        DealRun(i);
        ghost var before := sentinel[..];
        sentinel[i] := sentinel[i] + 1;
        FillStep(before, sched.distribution[..], counts, sched.missingRuns[..], k, i, n);
      }
    }

    /** One level of the table (PMSS.java:196-209): every auxiliary file is
        dealt runs until it reaches its target. Some target rose with the
        level, so at least one line is written. */
    method FillLevel(sentinel: array<int>, ghost k: nat)
      requires Shape() && DistInv() && Ledger() && dataRead < |input|
      requires sentinel != sched.distribution && sentinel != sched.missingRuns
      requires FillingOf(sentinel[..], sched.distribution[..], sched.missingRuns[..], k, -1, n)
      modifies this`inputPos, this`dataRead, this`nextRunElement, this`files
      modifies runLastElements, sched.missingRuns, sentinel
      ensures Shape() && DistInv() && Ledger()
      ensures FillingOf(sentinel[..], sched.distribution[..], sched.missingRuns[..], k, n - 1, n)
      ensures old(dataRead) < dataRead
    {
      FillingFirstFile(sentinel[..], sched.distribution[..], sched.missingRuns[..], k, n);
      FilledBelowLevel(k, n);
      for i := 0 to n - 1
        invariant Shape() && DistInv() && Ledger()
        invariant FillingOf(sentinel[..], sched.distribution[..], sched.missingRuns[..], k, i, n)
        invariant i < n - 1 ==> sentinel[i] == Filled(k, n)[i]
        invariant old(dataRead) <= dataRead
        invariant old(dataRead) < dataRead || exists j :: i <= j < n - 1 && Filled(k, n)[j] < Level(k, n)[j]
      {
        FillFile(i, sentinel, k);
        FillingNextFile(sentinel[..], sched.distribution[..], sched.missingRuns[..], k, i, n);
      }
    }

    /** The start of distribute (PMSS.java:181-191): the target table is
        seeded with one run on the first file, the last file is the sink,
        the sentinels start at zero and opening the writers empties the
        auxiliary files. */
    method OpenDistribution() returns (sentinel: array<int>)
      requires Valid() && Initial()
      modifies this`files, sched`runsPerLevel, sched`outputFileIndex, sched.distribution
      ensures fresh(sentinel)
      ensures Distributing(sentinel, 0) && dataRead == 0
    {
      sched.runsPerLevel := 1;
      sched.distribution[0] := 1;
      sched.outputFileIndex := n - 1;
      var tempFiles := n - 1;
      sentinel := new int[tempFiles](_ => 0);
      var previous := files;
      files := seq(n, j requires 0 <= j < n => if j < tempFiles then [] else previous[j]);
      assert sched.distribution[..] == Seed(n);
      ContentsOfEmpty(files);
    }

    /** The state between two levels of distribute: the ledger holds, the
        last file is the sink, all sentinels stand at the previous level's
        targets while the table holds level k. */
    ghost predicate Distributing(sentinel: array<int>, k: nat)
      reads this`files, this`readers, this`inputPos, this`dataRead, this`nextRunElement
      reads sched, sched.distribution, sched.missingRuns, runLastElements, sentinel
    {
      && Shape() && DistInv() && Ledger()
      && sched.outputFileIndex == n - 1
      && sentinel != sched.distribution && sentinel != sched.missingRuns
      && FillingOf(sentinel[..], sched.distribution[..], sched.missingRuns[..], k, -1, n)
    }

    /** One pass of the level loop of distribute (PMSS.java:194-210): level k
        is filled, then the table grows to level k + 1. */
    method NextLevel(sentinel: array<int>, ghost k: nat)
      requires Distributing(sentinel, k) && dataRead < |input|
      modifies this`inputPos, this`dataRead, this`nextRunElement, this`files
      modifies sched`runsPerLevel, sched.distribution, sched.missingRuns, runLastElements, sentinel
      ensures Distributing(sentinel, k + 1)
      ensures old(dataRead) < dataRead
    {
      FillLevel(sentinel, k);
      ghost var reached := sched.distribution[..];
      sched.SetNextDistributionLevel();
      FillingNextLevel(sentinel[..], reached, sched.missingRuns[..], k, n);
    }

    /** The level loop of distribute (PMSS.java:194-210): levels are filled
        until the input is used up; the number of levels grown is returned. */
    method DealLevels(sentinel: array<int>) returns (ghost levels: nat)
      requires Distributing(sentinel, 0) && dataRead == 0
      modifies this`inputPos, this`dataRead, this`nextRunElement, this`files
      modifies sched`runsPerLevel, sched.distribution, sched.missingRuns, runLastElements, sentinel
      ensures Distributing(sentinel, levels) && dataRead == |input|
      ensures levels == 0 <==> dataRead == 0
    {
      levels := 0;
      while dataRead < |input|
        invariant Distributing(sentinel, levels)
        invariant levels == 0 <==> dataRead == 0
        decreases |input| - dataRead
      {
        NextLevel(sentinel, levels);
        levels := levels + 1;
      }
    }

    /** The end of distribute (PMSS.java:210-211): the table steps back to
        the last level filled and the ledger turns from natural runs written
        into dummy runs owed. */
    method CloseDistribution(sentinel: array<int>, ghost levels: nat)
      requires Distributing(sentinel, levels) && dataRead == |input|
      requires levels == 0 <==> dataRead == 0
      requires forall i :: 0 <= i < n ==> Open(readers[i])
      requires InFiles(queue, n)
      modifies sched`runsPerLevel, sched`oldOutputFileIndex, sched.distribution, sched.missingRuns
      ensures Valid()
      ensures dataRead == |input|
      ensures Contents(files) == multiset(input)
      ensures files[n - 1] == []
      ensures sched.outputFileIndex == n - 1
      ensures levels == 0 <==> |input| == 0
      ensures sched.distribution[..] == Shrink(Level(levels, n))
      ensures sched.runsPerLevel == Runs(sched.distribution[..])
      ensures DummiesOwed(files, sched.missingRuns[..], sched.distribution[..])
    {
      ghost var counts := sched.missingRuns[..];
      ghost var ends := runLastElements[..];
      ghost var sent := sentinel[..];
      sched.SetPreviousRunDistributionLevel();
      sched.SetMissingRunsArray();
      ClosedLedger(files, counts, ends, sent, sched.distribution[..], sched.missingRuns[..], input, levels, n);
    }

    /** distribute, without the writers and the copy-and-sort block
        (PMSS.java:181-211, 243-244): every input line is written to an
        auxiliary file, natural runs are dealt out level by level until the
        input is used up, adjacent runs that join count once, and the ledger
        ends up holding each file's dummy runs: its target at the last level
        filled minus the natural runs it really holds. */
    method Distribute() returns (ghost levels: nat)
      requires Valid() && Initial()
      modifies this`inputPos, this`dataRead, this`nextRunElement, this`files
      modifies sched`runsPerLevel, sched`outputFileIndex, sched`oldOutputFileIndex
      modifies sched.distribution, sched.missingRuns, runLastElements
      ensures Valid()
      ensures dataRead == |input|
      ensures Contents(files) == multiset(input)
      ensures files[n - 1] == []
      ensures sched.outputFileIndex == n - 1
      ensures levels == 0 <==> |input| == 0
      ensures sched.distribution[..] == Shrink(Level(levels, n))
      ensures sched.runsPerLevel == Runs(sched.distribution[..])
      ensures DummiesOwed(files, sched.missingRuns[..], sched.distribution[..])
    {
      var writeSentinel := OpenDistribution();
      levels := DealLevels(writeSentinel);
      CloseDistribution(writeSentinel, levels);
    }

    // -------------------------------------------------------------------
    // Merge

    /** The readFileLine state of every file. */
    ghost function Cursors(): (cs: seq<Cursor>)
      requires Sized()
      reads this`readers, lastElements, nextRunFirst, sched.allowRead
      ensures |cs| == n
      ensures forall i {:trigger cs[i]} :: 0 <= i < n ==>
        cs[i] == Cursor(readers[i], lastElements[i], nextRunFirst[i], sched.allowRead[i])
    {
      var rs, last, heads, allow := readers, lastElements[..], nextRunFirst[..], sched.allowRead[..];
      seq(n, i requires 0 <= i < n => Cursor(rs[i], last[i], heads[i], allow[i]))
    }

    /** The priority queue in step with the files' state (InOrder). */
    ghost predicate Ordered()
      reads this`readers, this`queue, lastElements, nextRunFirst, sched.allowRead
    {
      Sized() && InOrder(queue, Cursors())
    }

    /** readFileLine (PMSS.java:410-438): file f's state moves exactly as
        ReadLine says, and no other file's state changes. */
    method ReadFileLine(f: int) returns (line: Option<string>)
      requires Valid() && 0 <= f < n
      modifies this`readers, lastElements, nextRunFirst, sched.allowRead
      ensures Valid()
      ensures (Cursors()[f], line) == ReadLine(old(Cursors())[f])
      ensures Cursors() == old(Cursors())[f := Cursors()[f]]
      ensures readers == old(readers)[f := readers[f]] && ReadOn(old(readers), readers)
    {
      var (r, current) := NextLine(readers[f]);
      readers := readers[f := r];
      var last := lastElements[f];
      if last.Some? && current.None? {
        sched.allowRead[f] := 0;
        nextRunFirst[f] := None;
        line := None;
      } else if last.Some? && CompareTo(current.value, last.value) < 0 {
        nextRunFirst[f] := current;
        sched.allowRead[f] := 0;
        line := None;
      } else {
        lastElements[f] := current;
        line := current;
      }
      assert Cursors() == old(Cursors())[f := Cursors()[f]];
    }

    /** The body of the loop of populateHeap (PMSS.java:383-396) for file i. */
    method PopulateFile(i: int) returns (ghost line: Option<string>)
      requires Valid() && 0 <= i < n
      modifies this`readers, this`queue, lastElements, nextRunFirst, sched.allowRead, sched.missingRuns
      ensures Valid() && ReadOn(old(readers), readers)
      ensures queue == old(queue) + Single(line, i)
      ensures Populated(old(Cursors())[i], old(sched.missingRuns[i]), Cursors()[i], sched.missingRuns[i], line)
      ensures Cursors() == old(Cursors())[i := Cursors()[i]]
      ensures sched.missingRuns[..] == old(sched.missingRuns[..])[i := sched.missingRuns[i]]
    {
      line := None;
      if sched.missingRuns[i] == 0 {
        if sched.allowRead[i] == 1 {
          var read := ReadFileLine(i);
          if read.Some? {
            queue := queue + multiset{Record(read.value, i)};
          }
          line := read;
        }
      } else {
        sched.missingRuns[i] := sched.missingRuns[i] - 1;
      }
    }

    /** populateHeap (PMSS.java:375-401): every file, the sink included, is
        visited once; the records added are exactly the lines read. */
    method PopulateHeap() returns (ghost lines: seq<Option<string>>)
      requires Valid()
      modifies this`readers, this`queue, lastElements, nextRunFirst, sched.allowRead, sched.missingRuns
      ensures Valid() && ReadOn(old(readers), readers)
      ensures queue == old(queue) + Records(lines)
      ensures PopulatedEach(old(Cursors()), old(sched.missingRuns[..]), Cursors(), sched.missingRuns[..], lines)
      ensures InOrder(old(queue), old(Cursors())) ==> InOrder(queue, Cursors())
      ensures Bounded(old(queue), old(Cursors())) ==> Bounded(queue, Cursors())
    {
      ghost var rs0 := readers;
      ghost var cs0 := Cursors();
      ghost var owed0 := sched.missingRuns[..];
      lines := [];
      for i := 0 to n
        invariant Valid() && ReadOn(rs0, readers)
        invariant queue == old(queue) + Records(lines)
        invariant PopulatedUpTo(cs0, owed0, Cursors(), sched.missingRuns[..], lines, i)
      {
        ghost var rs1, cs1, owed1 := readers, Cursors(), sched.missingRuns[..];
        var line := PopulateFile(i);
        ReadOnTransitive(rs0, rs1, readers);
        RecordsSnoc(old(queue), queue, lines, line);
        PopulateNext(cs0, owed0, cs1, owed1, lines, i, Cursors()[i], sched.missingRuns[i], line);
        lines := lines + [line];
      }
      PopulatedAll(old(queue), cs0, Cursors(), lines, owed0, sched.missingRuns[..]);
    }

    /** The refill after a poll (PMSS.java:311-314): if file f may still be
        read, readFileLine is called on it and the line it returns, if any,
        is queued. No other file is touched; a line queued is a line read. */
    method Refill(f: int) returns (ghost line: Option<string>)
      requires Valid() && 0 <= f < n
      modifies this`readers, this`queue, lastElements, nextRunFirst, sched.allowRead
      ensures Valid() && ReadOn(old(readers), readers)
      ensures line == Refilled(old(Cursors())[f]).1
      ensures Cursors() == old(Cursors())[f := Refilled(old(Cursors())[f]).0]
      ensures queue == old(queue) + Single(line, f)
      ensures Unread(readers) + |Single(line, f)| <= old(Unread(readers))
    {
      line := None;
      if sched.allowRead[f] == 1 {
        ghost var before := readers;
        var read := ReadFileLine(f);
        if read.Some? {
          queue := queue + multiset{Record(read.value, f)};
        }
        line := read;
        UnreadUpdate(before, f, readers[f]);
      }
    }

    /** One poll of the merge loop (PMSS.java:305-316): a least record is
        taken from the queue, its line is appended to the sink, and the
        record's file is refilled. The lines unread plus the records queued
        go down. A queue in step stays in step, and every record left in it
        is at or above the one written. */
    method PollAndRefill() returns (polled: Record, ghost line: Option<string>)
      requires Valid() && queue != multiset{}
      modifies this`queue, this`files, this`readers, lastElements, nextRunFirst, sched.allowRead
      ensures Valid() && ReadOn(old(readers), readers)
      ensures Least(polled, old(queue)) && 0 <= polled.file < n
      ensures files == old(files)[sched.outputFileIndex := old(files[sched.outputFileIndex]) + [polled.value]]
      ensures line == Refilled(old(Cursors())[polled.file]).1
      ensures Cursors() == old(Cursors())[polled.file := Refilled(old(Cursors())[polled.file]).0]
      ensures queue == old(queue) - multiset{polled} + Single(line, polled.file)
      ensures Unread(readers) + |queue| < old(Unread(readers) + |queue|)
      ensures old(Ordered()) ==> Ordered() && NoneBelow(polled.value, queue)
    {
      ghost var cs := Cursors();
      polled := Poll();
      var sink := sched.outputFileIndex;
      files := files[sink := files[sink] + [polled.value]];
      assert Unread(readers) == old(Unread(readers));
      line := Refill(polled.file);
      if InOrder(old(queue), cs) {
        RefillInOrder(old(queue), polled, cs, Cursors(), line);
      }
    }

    /** PriorityQueue.poll on a non-empty queue: a least record, removed. */
    method Poll() returns (polled: Record)
      requires Valid() && queue != multiset{}
      modifies this`queue
      ensures Valid()
      ensures Least(polled, old(queue)) && queue == old(queue) - multiset{polled}
      ensures 0 <= polled.file < n && |queue| == |old(queue)| - 1
    {
      LeastRecordExists(queue);
      polled :| Least(polled, queue);
      assert Tagged(polled, n);
      queue := queue - multiset{polled};
    }

    /** One step of the reinjection loop (PMSS.java:327-332): file i's
        cached head, if any, goes into the queue and becomes its last element;
        an empty cache makes getValue throw, and the step is skipped. */
    method ReinjectFile(i: int)
      requires Valid() && 0 <= i < n
      modifies this`queue, lastElements
      ensures Valid()
      ensures queue == old(queue) + Single(nextRunFirst[i], i)
      ensures forall k :: 0 <= k < n ==>
        lastElements[k] == if k == i && nextRunFirst[i].Some? then nextRunFirst[i] else old(lastElements[k])
    {
      var head := nextRunFirst[i];
      if head.Some? {
        queue := queue + multiset{Record(head.value, i)};
        lastElements[i] := head;
      }
    }

    /** The reinjection of PMSS.java:325-333: every cached next-run head goes
        back into the queue and becomes its file's last element; an empty
        cache is skipped. The cache itself is left as it is. */
    method Reinject()
      requires Valid()
      modifies this`queue, lastElements
      ensures Valid()
      ensures queue == old(queue) + Records(Heads(old(Cursors())))
      ensures Cursors() == ReinjectedAll(old(Cursors()))
      ensures old(queue) == multiset{} ==> Bounded(queue, Cursors())
    {
      ghost var heads := nextRunFirst[..];
      ghost var last0 := lastElements[..];
      for i := 0 to n
        invariant Valid()
        invariant queue == old(queue) + Records(heads[..i])
        invariant forall k :: 0 <= k < n ==>
          lastElements[k] == if k < i && heads[k].Some? then heads[k] else last0[k]
      {
        ghost var before := queue;
        ReinjectFile(i);
        RecordsStep(old(queue), before, queue, heads, i);
      }
      assert heads[..n] == heads == Heads(old(Cursors()));
      assert Cursors() == ReinjectedAll(old(Cursors()));
      if old(queue) == multiset{} {
        ReinjectedBounded(heads, Cursors());
      }
    }

    /** What follows a queue-empty event in merge (PMSS.java:325-336): the
        cached heads are reinjected and become their files' last elements,
        the heap is populated again from those states, and every file but
        the sink may be read again. Started on the empty queue, as merge
        does, the new cycle's queue is in step, each record at most its
        file's last element. */
    method EndCycle() returns (ghost lines: seq<Option<string>>, ghost populated: seq<Cursor>)
      requires Valid()
      modifies this`queue, this`readers, lastElements, nextRunFirst, sched.allowRead, sched.missingRuns
      ensures Valid() && ReadOn(old(readers), readers)
      ensures CycleRestart(old(queue), old(Cursors()), old(sched.missingRuns[..]), queue, Cursors(),
                           sched.missingRuns[..], sched.outputFileIndex, lines, populated)
      ensures old(queue) == multiset{} ==> Ordered() && Bounded(queue, Cursors())
    {
      Reinject();
      lines := PopulateHeap();
      populated := Cursors();
      ResetReads();
    }

    /** resetAllowReadArray on the session: only the read permissions change,
        and a bounded queue is then in step. */
    method ResetReads()
      requires Valid()
      modifies sched.allowRead
      ensures Valid()
      ensures Cursors() == Unblocked(old(Cursors()), sched.outputFileIndex)
      ensures Bounded(queue, old(Cursors())) ==> Ordered() && Bounded(queue, Cursors())
    {
      ghost var cs := Cursors();
      sched.ResetAllowReadArray();
      assert Cursors() == Unblocked(cs, sched.outputFileIndex);
      if Bounded(queue, cs) {
        BoundedInOrder(queue, cs, Cursors());
      }
    }

    /** One pass of the loop of merge (PMSS.java:305-337): a poll, its
        write and refill from the polled record's file alone, the states the
        files are in afterwards (mid) and, if the queue is then empty, the end
        of a cycle from those states. Unless a cycle ended, the lines unread
        plus the records queued went down, and a queue in step stays in
        step with every record at or above the line written. */
    method MergeStep() returns (polled: Record, emptied: bool, ghost line: Option<string>,
                                ghost mid: seq<Cursor>, ghost lines: seq<Option<string>>,
                                ghost populated: seq<Cursor>)
      requires Valid() && queue != multiset{}
      modifies this`queue, this`files, this`readers, lastElements, nextRunFirst
      modifies sched.allowRead, sched.missingRuns
      ensures Valid() && ReadOn(old(readers), readers)
      ensures Least(polled, old(queue)) && 0 <= polled.file < n
      ensures files == old(files)[sched.outputFileIndex := old(files[sched.outputFileIndex]) + [polled.value]]
      ensures line == Refilled(old(Cursors())[polled.file]).1
      ensures mid == old(Cursors())[polled.file := Refilled(old(Cursors())[polled.file]).0]
      ensures emptied <==> old(queue) == multiset{polled} && line.None?
      ensures !emptied ==> queue == old(queue) - multiset{polled} + Single(line, polled.file)
      ensures !emptied ==> sched.missingRuns[..] == old(sched.missingRuns[..])
      ensures !emptied ==> Cursors() == mid
      ensures !emptied ==> Unread(readers) + |queue| < old(Unread(readers) + |queue|)
      ensures emptied ==> CycleRestart(multiset{}, mid, old(sched.missingRuns[..]), queue, Cursors(),
                                       sched.missingRuns[..], sched.outputFileIndex, lines, populated)
      ensures emptied ==> Ordered() && Bounded(queue, Cursors())
      ensures old(Ordered()) ==> Ordered()
      ensures old(Ordered()) && !emptied ==> NoneBelow(polled.value, queue)
    {
      ghost var missing := sched.missingRuns[..];
      polled, line := PollAndRefill();
      mid := Cursors();
      LastPoll(old(queue), polled, line);
      emptied := queue == multiset{};
      lines, populated := [], [];
      if emptied {
        lines, populated := EndCycle();
      }
    }

    /** One pass of the loop of merge on the runs it writes (PMSS.java:
        305-336): the sink holds, beyond its old contents start, the runs
        closed so far and then the current run rest. The line written extends
        rest; a queue-empty event closes rest as a run. The line written is
        that of a least record polled; every record queued meanwhile (added)
        holds a line its file's reader passed over, or a head the file had
        cached. From a queue in step, the runs and rest stay in order and
        nothing queued is below the end of rest. */
    method Advance(ghost start: seq<seq<string>>, ghost ordered: bool, ghost runs: seq<seq<string>>,
                   ghost rest: seq<string>) returns (polled: Record, emptied: bool, ghost runs2: seq<seq<string>>,
                                                     ghost rest2: seq<string>, ghost added: multiset<Record>)
      requires Valid() && queue != multiset{} && |start| == n
      requires files == start[sched.outputFileIndex := start[sched.outputFileIndex] + (Concat(runs) + rest)]
      requires NonEmptyRuns(runs)
      requires ordered ==> Ordered() && AscendingRuns(runs) && Ascending(rest)
      requires ordered && rest != [] ==> NoneBelow(rest[|rest| - 1], queue)
      modifies this`queue, this`files, this`readers, lastElements, nextRunFirst
      modifies sched.allowRead, sched.missingRuns
      ensures Valid() && ReadOn(old(readers), readers)
      ensures files == start[sched.outputFileIndex := start[sched.outputFileIndex] + (Concat(runs2) + rest2)]
      ensures NonEmptyRuns(runs2)
      ensures emptied ==> |runs2| == |runs| + 1 && rest2 == [] && Bounded(queue, Cursors())
      ensures !emptied ==> runs2 == runs && Unread(readers) + |queue| < old(Unread(readers) + |queue|)
      ensures ordered ==> Ordered() && AscendingRuns(runs2) && Ascending(rest2)
      ensures ordered && rest2 != [] ==> NoneBelow(rest2[|rest2| - 1], queue)
      ensures Least(polled, old(queue)) && 0 <= polled.file < n
      ensures Concat(runs2) + rest2 == Concat(runs) + (rest + [polled.value])
      ensures queue + multiset{polled} == old(queue) + added
      ensures FedOn(old(Cursors()), Cursors()) && AllSourced(added, old(Cursors()), Cursors())
    {
      ghost var q0 := queue;
      ghost var cs0 := Cursors();
      ghost var line, mid, lines, populated;
      polled, emptied, line, mid, lines, populated := MergeStep();
      if ordered {
        ExtendRun(rest, q0, polled);
      }
      AppendLine(start, sched.outputFileIndex, Concat(runs), rest, polled.value);
      runs2, rest2 := Tally(runs, rest, polled.value, emptied);
      RefillFed(cs0, polled.file);
      if emptied {
        added := queue;
        RestartFed(mid, old(sched.missingRuns[..]), queue, Cursors(), sched.missingRuns[..],
                   sched.outputFileIndex, lines, populated);
        FedOnChain(cs0, mid, Cursors());
        SourcedChain(multiset{}, added, cs0, mid, Cursors());
      } else {
        added := Single(line, polled.file);
      }
    }

    /** The loop of merge (PMSS.java:303-346): steps until the queue has run
        empty `passes` times, or until a poll finds it empty. The lines
        written are those of the records polled, in the order polled: the
        runs of the cycles that ended, one non-empty run per queue-empty
        event, followed by the lines of a cycle cut short (rest). Every record
        polled was queued at the start or added since, and every record added
        holds a line its file's reader passed over, or a head the file had
        cached at the start. From a queue in step every run, and rest, is in
        order. */
    method MergeCycles(passes: int) returns (cycles: int, aborted: bool, ghost runs: seq<seq<string>>,
                                             ghost rest: seq<string>, ghost polls: seq<Record>,
                                             ghost added: multiset<Record>)
      requires Valid() && passes >= 0
      modifies this`queue, this`files, this`readers, lastElements, nextRunFirst
      modifies sched.allowRead, sched.missingRuns
      ensures Valid() && ReadOn(old(readers), readers)
      ensures 0 <= cycles <= passes && (aborted <==> cycles < passes)
      ensures aborted ==> queue == multiset{}
      ensures |runs| == cycles && NonEmptyRuns(runs)
      ensures !aborted ==> rest == []
      ensures files == old(files)[sched.outputFileIndex := old(files[sched.outputFileIndex]) + (Concat(runs) + rest)]
      ensures Concat(runs) + rest == Values(polls)
      ensures queue + multiset(polls) == old(queue) + added
      ensures FedOn(old(Cursors()), Cursors()) && AllSourced(added, old(Cursors()), Cursors())
      ensures !aborted && cycles > 0 ==> Bounded(queue, Cursors())
      ensures old(Ordered()) ==> Ordered() && AscendingRuns(runs) && Ascending(rest)
    {
      ghost var start := files;
      ghost var ordered := Ordered();
      ghost var cs0 := Cursors();
      cycles := 0;
      aborted := false;
      runs, rest, polls, added := [], [], [], multiset{};
      assert start[sched.outputFileIndex] + (Concat(runs) + rest) == start[sched.outputFileIndex];
      assert FedOn(cs0, Cursors()) by {
        forall i | 0 <= i < n && cs0[i].cached.Some?
          ensures FromFile(cs0[i].cached.value, i, cs0, Cursors())
        {
        }
      }
      while cycles != passes
        invariant Valid() && ReadOn(old(readers), readers)
        invariant 0 <= cycles < passes || cycles == passes == 0
        invariant !aborted && (passes == 0 ==> rest == [])
        invariant files == start[sched.outputFileIndex := start[sched.outputFileIndex] + (Concat(runs) + rest)]
        invariant |runs| == cycles && NonEmptyRuns(runs)
        invariant Concat(runs) + rest == Values(polls)
        invariant queue + multiset(polls) == old(queue) + added
        invariant FedOn(cs0, Cursors()) && AllSourced(added, cs0, Cursors())
        invariant ordered ==> Ordered() && AscendingRuns(runs) && Ascending(rest)
        invariant ordered && rest != [] ==> NoneBelow(rest[|rest| - 1], queue)
        decreases passes - cycles, Unread(readers) + |queue|
      {
        if queue == multiset{} {
          aborted := true;
          return;
        }
        ghost var rs := readers;
        ghost var cs1 := Cursors();
        ghost var q1 := queue;
        ghost var runs0, rest0 := runs, rest;
        var polled, emptied;
        ghost var step;
        polled, emptied, runs, rest, step := Advance(start, ordered, runs, rest);
        ReadOnTransitive(old(readers), rs, readers);
        UnreadNonNegative(readers);
        TraceStep(old(queue), q1, queue, polled, polls, added, step, runs0, rest0, runs, rest,
                  cs0, cs1, Cursors());
        polls, added := polls + [polled], added + step;
        if emptied {
          cycles := cycles + 1;
          if cycles == passes {
            return;
          }
        }
      }
    }

    /** merge (PMSS.java:295-352): the heap is populated, then least records
        are polled and written to the sink until the queue has run empty
        `passes` times; each time it does, the cached heads are reinjected,
        the heap is populated again and the read permissions reset. A poll on
        an empty queue ends the merge early (record.getValue() throws). Only
        the sink changes, and only by the lines of the records polled, in
        order: one non-empty run per cycle, then what a cycle cut short
        wrote. Every record polled was queued at the start or added during
        the merge, and every record added holds a line its file's reader
        passed over, or a head the file had cached at the start. The readers
        only move forward. From a queue in step every run is in order. */
    method Merge(passes: int) returns (cycles: int, aborted: bool, ghost runs: seq<seq<string>>,
                                       ghost rest: seq<string>, ghost polls: seq<Record>,
                                       ghost added: multiset<Record>)
      requires Valid() && passes >= 0
      modifies this`queue, this`files, this`readers, lastElements, nextRunFirst
      modifies sched.allowRead, sched.missingRuns
      ensures Valid() && ReadOn(old(readers), readers)
      ensures 0 <= cycles <= passes && (aborted <==> cycles < passes)
      ensures aborted ==> queue == multiset{}
      ensures |runs| == cycles && NonEmptyRuns(runs)
      ensures !aborted ==> rest == []
      ensures files == old(files)[sched.outputFileIndex := old(files[sched.outputFileIndex]) + (Concat(runs) + rest)]
      ensures Concat(runs) + rest == Values(polls)
      ensures queue + multiset(polls) == old(queue) + added
      ensures FedOn(old(Cursors()), Cursors()) && AllSourced(added, old(Cursors()), Cursors())
      ensures !aborted && cycles > 0 ==> Bounded(queue, Cursors())
      ensures old(Ordered()) ==> Ordered() && AscendingRuns(runs) && Ascending(rest)
    {
      ghost var cs0 := Cursors();
      ghost var lines := PopulateHeap();
      ghost var cs1 := Cursors();
      PopulatedFed(cs0, old(sched.missingRuns[..]), cs1, sched.missingRuns[..], lines);
      ghost var later;
      cycles, aborted, runs, rest, polls, later := MergeCycles(passes);
      FedOnChain(cs0, cs1, Cursors());
      SourcedChain(Records(lines), later, cs0, cs1, Cursors());
      added := Records(lines) + later;
    }

    // -------------------------------------------------------------------
    // The level loop of main

    /** The end of a pass of the level loop of main (PMSS.java:143-148):
        the table steps down a level, the sink moves one file down, every
        file but the new sink may be read, the new sink's writer empties it
        and the old sink is opened for reading from its start. */
    method StepDown() returns (nextDummy: int)
      requires Valid()
      modifies this`files, this`readers
      modifies sched`runsPerLevel, sched`outputFileIndex, sched`oldOutputFileIndex
      modifies sched.distribution, sched.allowRead
      ensures Valid()
      ensures sched.distribution[..] == Shrink(old(sched.distribution[..]))
      ensures sched.runsPerLevel == Runs(sched.distribution[..])
      ensures sched.oldOutputFileIndex == old(sched.outputFileIndex)
      ensures sched.outputFileIndex == Rotated(old(sched.outputFileIndex), n)
      ensures files == old(files)[sched.outputFileIndex := []]
      ensures readers == old(readers)[sched.oldOutputFileIndex := Reader(files[sched.oldOutputFileIndex], 0)]
      ensures forall i :: 0 <= i < n ==> sched.allowRead[i] == if i == sched.outputFileIndex then 0 else 1
    {
      sched.SetPreviousRunDistributionLevel();
      sched.UpdateOutputFileIndex();
      sched.ResetAllowReadArray();
      nextDummy := sched.GetMinDummyValue();
      files := files[sched.outputFileIndex := []];
      readers := readers[sched.oldOutputFileIndex := Reader(files[sched.oldOutputFileIndex], 0)];
    }

    /** last_elements[output_file_index] = null (PMSS.java:139): only the
        sink's last element is forgotten, and with the sink blocked a queue in
        step stays in step. */
    method ForgetSinkLast()
      requires Valid()
      modifies lastElements
      ensures Valid()
      ensures Cursors() == old(Cursors())[sched.outputFileIndex := old(Cursors())[sched.outputFileIndex].(last := None)]
      ensures old(Ordered()) && sched.allowRead[sched.outputFileIndex] == 0 ==> Ordered()
    {
      ghost var cs := Cursors();
      lastElements[sched.outputFileIndex] := None;
      assert Cursors() == cs[sched.outputFileIndex := cs[sched.outputFileIndex].(last := None)];
      if InOrder(queue, cs) && sched.allowRead[sched.outputFileIndex] == 0 {
        ForgetInOrder(queue, cs, sched.outputFileIndex);
      }
    }

    /** One pass of the level loop of main (PMSS.java:139-148): the sink's
        last element is forgotten, as many cycles as the file picked by
        getMinFileIndex holds runs beyond the common dummies are merged onto
        the sink, and the level steps down. An index of -1, a negative count
        or a merge that ends early leave the model with their own outcome,
        and the table and the sink as they were. After a completed pass the
        old sink holds what it held plus one non-empty run per cycle, made
        of the lines of the records polled, the new sink is empty and no
        other file changes. The records polled were queued before or added
        during the merge, each holding a line its file's reader passed over
        or a head it had cached; merged is the files' states when merge
        returns, and the old sink's reader is then reopened at its start.
        From a queue in step with the sink blocked every one of the runs is
        in order, and the queue is again in step with the new sink blocked. */
    method MergeLevel(minDummy: int) returns (status: Outcome, nextDummy: int, ghost runs: seq<seq<string>>,
                                              ghost polls: seq<Record>, ghost added: multiset<Record>,
                                              ghost merged: seq<Cursor>)
      requires Valid()
      modifies this`queue, this`files, this`readers, lastElements, nextRunFirst
      modifies sched`runsPerLevel, sched`outputFileIndex, sched`oldOutputFileIndex
      modifies sched.distribution, sched.allowRead, sched.missingRuns
      ensures Valid()
      ensures status == Completed ==>
        && sched.distribution[..] == Shrink(old(sched.distribution[..]))
        && sched.runsPerLevel == Runs(sched.distribution[..])
        && sched.outputFileIndex == Rotated(old(sched.outputFileIndex), n)
        && sched.oldOutputFileIndex == old(sched.outputFileIndex)
        && files == old(files)[sched.oldOutputFileIndex := old(files[sched.outputFileIndex]) + Concat(runs)]
                              [sched.outputFileIndex := []]
        && NonEmptyRuns(runs)
        && sched.allowRead[sched.outputFileIndex] == 0
      ensures status == Completed ==>
        && Concat(runs) == Values(polls)
        && queue + multiset(polls) == old(queue) + added
        && FedOn(old(Cursors()), merged) && AllSourced(added, old(Cursors()), merged)
        && readers == ReadersOf(merged)[sched.oldOutputFileIndex := Reader(files[sched.oldOutputFileIndex], 0)]
      ensures status != Completed ==> sched.outputFileIndex == old(sched.outputFileIndex)
      ensures status == Completed && old(Ordered()) && old(sched.allowRead[sched.outputFileIndex]) == 0 ==>
        AscendingRuns(runs)
      ensures status == Completed && runs != [] ==> Ordered()
    {
      status, runs, polls, added := MergeAtMin(minDummy);
      nextDummy := minDummy;
      merged := [];
      if status != Completed {
        return;
      }
      merged := Cursors();
      assert ReadersOf(merged) == readers;
      nextDummy := StepDown();
      if runs != [] {
        BoundedInOrder(queue, merged, Cursors());
      }
    }

    /** The merge of one pass of the level loop (PMSS.java:139-140): the
        sink's last element is forgotten and as many cycles as the file
        picked by getMinFileIndex holds runs beyond the common dummies are
        merged onto the sink. An index of -1, a negative count or a merge
        that ends early give their own outcome. After a completed merge the
        sink holds what it held plus one non-empty run per cycle, made of the
        lines of the records polled, and no other file changes. */
    method MergeAtMin(minDummy: int) returns (status: Outcome, ghost runs: seq<seq<string>>,
                                              ghost polls: seq<Record>, ghost added: multiset<Record>)
      requires Valid()
      modifies this`queue, this`files, this`readers, lastElements, nextRunFirst
      modifies sched.allowRead, sched.missingRuns
      ensures Valid()
      ensures status == Completed ==>
        && files == old(files)[sched.outputFileIndex := old(files[sched.outputFileIndex]) + Concat(runs)]
        && NonEmptyRuns(runs)
        && Concat(runs) == Values(polls)
        && queue + multiset(polls) == old(queue) + added
        && FedOn(old(Cursors()), Cursors()) && AllSourced(added, old(Cursors()), Cursors())
        && (runs != [] ==> Bounded(queue, Cursors()))
      ensures status == Completed && old(Ordered()) && old(sched.allowRead[sched.outputFileIndex]) == 0 ==>
        AscendingRuns(runs)
    {
      ghost var ordered := Ordered() && sched.allowRead[sched.outputFileIndex] == 0;
      ghost var cs := Cursors();
      runs, polls, added := [], [], multiset{};
      ForgetSinkLast();
      var index := sched.GetMinFileIndex();
      if index < 0 {
        // distribution_array[-1] throws, and main ends
        return NoMinFile, runs, polls, added;
      }
      var count := sched.distribution[index] - minDummy;
      if count < 0 {
        return NegativePassCount, runs, polls, added;
      }
      var cycles, aborted;
      ghost var rest;
      ghost var cs1 := Cursors();
      cycles, aborted, runs, rest, polls, added := Merge(count);
      if aborted {
        // q.poll() returned null; merge returns without closing the writer
        return MergeAborted, runs, polls, added;
      }
      ForgottenFeed(cs, sched.outputFileIndex, cs1, Cursors(), added);
      assert Concat(runs) + rest == Concat(runs);
      status := Completed;
    }

    /** The level loop of main (PMSS.java:137-149), from the table one shrink
        below the level distribution grew: while the table holds more than one
        run, a level is merged and the table steps down. When it ends
        normally, it has merged one level fewer than distribution grew (none
        for an empty input) and the table is back at the seed with one run. */
    method MergeLevels(minDummy: int, ghost levels: nat) returns (status: Outcome, ghost passes: nat)
      requires Valid()
      requires sched.distribution[..] == Shrink(Level(levels, n))
      requires sched.runsPerLevel == Runs(sched.distribution[..])
      modifies this`queue, this`files, this`readers, lastElements, nextRunFirst
      modifies sched`runsPerLevel, sched`outputFileIndex, sched`oldOutputFileIndex
      modifies sched.distribution, sched.allowRead, sched.missingRuns
      ensures Valid()
      ensures status == Completed ==> passes == (if levels == 0 then 0 else levels - 1)
      ensures status == Completed ==> sched.runsPerLevel == 1
      ensures status == Completed && levels >= 1 ==> sched.distribution[..] == Seed(n)
    {
      ghost var lv: nat := levels;
      StartsAtLevel(sched.distribution[..], sched.runsPerLevel, lv, n);
      passes := 0;
      var dummies := minDummy;
      status := Completed;
      while sched.runsPerLevel > 1
        invariant Valid()
        invariant AtLevel(sched.distribution[..], sched.runsPerLevel, lv, n)
        invariant lv + passes == levels && (levels >= 1 ==> lv >= 1)
        decreases lv
      {
        status, dummies := MergePass(dummies, lv);
        if status != Completed {
          return;
        }
        lv := lv - 1;
        passes := passes + 1;
      }
      if levels >= 1 {
        EndsAtSeed(sched.distribution[..], sched.runsPerLevel, n);
      }
    }

    /** One iteration of the level loop, at a level above the seed: after a
        normal pass the table is one level further down. */
    method MergePass(minDummy: int, ghost lv: nat) returns (status: Outcome, nextDummy: int)
      requires Valid() && lv >= 2
      requires AtLevel(sched.distribution[..], sched.runsPerLevel, lv, n)
      modifies this`queue, this`files, this`readers, lastElements, nextRunFirst
      modifies sched`runsPerLevel, sched`outputFileIndex, sched`oldOutputFileIndex
      modifies sched.distribution, sched.allowRead, sched.missingRuns
      ensures Valid()
      ensures status == Completed ==> AtLevel(sched.distribution[..], sched.runsPerLevel, lv - 1, n)
    {
      ghost var d0 := sched.distribution[..];
      ghost var runs, polls, added, merged;
      status, nextDummy, runs, polls, added, merged := MergeLevel(minDummy);
      if status == Completed {
        StepsDown(d0, sched.distribution[..], sched.runsPerLevel, lv, n);
      }
    }

    /** main from distribution to the end of the merge phase (PMSS.java:
        120-149): the runs are distributed, the common dummy runs of the
        auxiliary files are merged at once, the sink's writer empties it, the
        auxiliary files are opened for reading, and the levels are merged. */
    method Sort() returns (status: Outcome, ghost levels: nat, ghost passes: nat)
      requires Valid() && Initial()
      modifies this, sched, sched.distribution, sched.missingRuns, sched.allowRead
      modifies runLastElements, lastElements, nextRunFirst
      ensures Valid()
      ensures levels == 0 <==> |input| == 0
      ensures status == Completed ==> passes == (if levels == 0 then 0 else levels - 1)
      ensures status == Completed ==> sched.runsPerLevel == 1
    {
      levels := Distribute();
      var minDummy := OpenMerge();
      status, passes := MergeLevels(minDummy, levels);
    }

    /** Between distribution and the level loop (PMSS.java:120-135): the
        common dummy runs are merged at once, the sink's writer empties it,
        and a reader is opened on every auxiliary file. The table is left as
        it is. With the sink last, as distribution leaves it, no auxiliary
        file owes a negative number of dummy runs afterwards, and one that
        held the fewest owes none. */
    method OpenMerge() returns (minDummy: int)
      requires Valid()
      modifies this`files, this`readers, sched.missingRuns, sched.allowRead
      ensures Valid()
      ensures sched.distribution[..] == old(sched.distribution[..])
      ensures sched.runsPerLevel == old(sched.runsPerLevel)
      ensures minDummy <= IntMax
      ensures forall i :: 0 <= i < n && i != sched.outputFileIndex ==> minDummy <= old(sched.missingRuns[i])
      ensures minDummy == IntMax
        || exists i :: 0 <= i < n && i != sched.outputFileIndex && old(sched.missingRuns[i]) == minDummy
      ensures sched.missingRuns[..] == Lowered(old(sched.missingRuns[..]), sched.outputFileIndex, minDummy)
      ensures forall i :: 0 <= i < n ==> sched.allowRead[i] == if i == sched.outputFileIndex then 0 else 1
      ensures sched.outputFileIndex == n - 1 ==> forall i :: 0 <= i < n - 1 ==> sched.missingRuns[i] >= 0
      ensures sched.outputFileIndex == n - 1 && minDummy < IntMax ==>
        exists j :: 0 <= j < n - 1 && sched.missingRuns[j] == 0
      ensures files == old(files)[sched.outputFileIndex := []]
      ensures forall i :: 0 <= i < n - 1 ==> readers[i] == Reader(files[i], 0)
    {
      minDummy := sched.GetMinDummyValue();
      ghost var owed := sched.missingRuns[..];
      sched.InitMergeProcedure(minDummy);
      if sched.outputFileIndex == n - 1 {
        if minDummy < IntMax {
          ghost var j :| 0 <= j < n && j != n - 1 && owed[j] == minDummy;
          LoweredLedger(owed, minDummy, j);
        } else {
          forall i | 0 <= i < n - 1 ensures sched.missingRuns[i] >= 0 {
            assert sched.missingRuns[i] == owed[i] - minDummy;
          }
        }
      }
      files := files[sched.outputFileIndex := []];
      var reopened := files;
      var previous := readers;
      readers := seq(n, i requires 0 <= i < n => if i < n - 1 then Reader(reopened[i], 0) else previous[i]);
    }
  }
}
