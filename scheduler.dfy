/** The run-count scheduler of PMSS.java: the target table, the dummy-run
    ledger, the read permissions and the index of the merge sink, all updated
    in place. Each method is proved against the value-level functions of
    Distribution. */
module Scheduling {
  import opened Distribution

  /** Integer.MAX_VALUE, the starting point of both minimum searches. */
  const IntMax := 2147483647

  /** The body of setPreviousRunDistributionLevel that rewrites the table:
      slot 0 takes the old second-to-last slot, slots n-2 down to 1 take the
      slot to their left minus it, and the sum of the new slots but the last
      is accumulated on the way (runs_per_level). */
  method ShrinkTable(a: array<int>) returns (runs: int)
    requires a.Length >= 2
    modifies a
    ensures a[..] == Shrink(old(a[..]))
    ensures runs == Runs(a[..])
  {
    var current := a[..];
    var n := a.Length;
    var last := current[n - 2];
    ghost var p := ShrunkSlots(current);
    runs := 0;
    runs := runs + last;
    a[0] := last;
    for i := n - 2 downto 0
      invariant a[0] == last
      invariant forall k {:trigger a[k]} :: 1 <= k <= i ==> a[k] == current[k]
      invariant forall k {:trigger a[k]} :: i + 1 <= k < n - 1 ==> a[k] == p[k]
      invariant a[n - 1] == current[n - 1]
      invariant runs + Sum(p[..i + 1]) == last + Sum(p[..n - 1])
    {
      var diff := current[i] - last;
      a[i + 1] := diff;
      SumPrefix(p, i + 1);
      runs := runs + diff;
    }
    assert runs == Sum(p[..n - 1]) by {
      SumPrefix(p, 0);
      assert p[..0] == [];
    }
    assert a[..] == p;
    ShrunkFromIsShrink(current, p);
  }

  class Scheduler {
    /** distribution_array: the run target of every working file. */
    const distribution: array<int>
    /** missing_runs: the dummy-run ledger, one count per working file. */
    const missingRuns: array<int>
    /** allow_read: 1 where a file may be read during the current pass. */
    const allowRead: array<int>
    var outputFileIndex: int
    var oldOutputFileIndex: int
    var runsPerLevel: int

    ghost predicate Valid()
      reads this
    {
      && distribution.Length >= 3
      && missingRuns.Length == distribution.Length
      && allowRead.Length == distribution.Length
      && distribution != missingRuns && distribution != allowRead && missingRuns != allowRead
      && 0 <= outputFileIndex < distribution.Length
      && 0 <= oldOutputFileIndex < distribution.Length
    }

    /** The freshly allocated arrays of main (PMSS.java:103-108), one slot per
        auxiliary file plus one, with Java's zero defaults. */
    constructor (fileCount: int)
      requires fileCount >= 2
      ensures Valid()
      ensures distribution.Length == fileCount + 1
      ensures fresh(distribution) && fresh(missingRuns) && fresh(allowRead)
      ensures forall i :: 0 <= i < distribution.Length ==>
        distribution[i] == 0 && missingRuns[i] == 0 && allowRead[i] == 0
      ensures outputFileIndex == 0 && oldOutputFileIndex == 0 && runsPerLevel == 0
    {
      distribution := new int[fileCount + 1](_ => 0);
      missingRuns := new int[fileCount + 1](_ => 0);
      allowRead := new int[fileCount + 1](_ => 0);
      outputFileIndex := 0;
      oldOutputFileIndex := 0;
      runsPerLevel := 0;
    }

    /** setNextDistributionLevel: one growth step of the target table, and
        runs_per_level becomes the new total of the auxiliary files. */
    method SetNextDistributionLevel()
      requires Valid()
      modifies this`runsPerLevel, distribution
      ensures Valid()
      ensures distribution[..] == Grow(old(distribution[..]))
      ensures runsPerLevel == Runs(distribution[..])
    {
      runsPerLevel := 0;
      var current := distribution[..];
      var n := distribution.Length;
      GrowSlots(current);
      ghost var g := Grow(current);
      for i := 0 to n - 1
        invariant forall k :: 0 <= k < i ==> distribution[k] == g[k]
        invariant forall k :: i <= k < n ==> distribution[k] == current[k]
        invariant runsPerLevel == Sum(g[..i])
      {
        distribution[i] := current[0] + current[i + 1];
        SumPrefix(g, i);
        runsPerLevel := runsPerLevel + distribution[i];
      }
      assert distribution[..] == g;
    }

    /** setPreviousRunDistributionLevel: one shrink step of the target table,
        the new runs_per_level, and the sink index remembered as the old one. */
    method SetPreviousRunDistributionLevel()
      requires Valid()
      modifies this`runsPerLevel, this`oldOutputFileIndex, distribution
      ensures Valid()
      ensures distribution[..] == Shrink(old(distribution[..]))
      ensures runsPerLevel == Runs(distribution[..])
      ensures oldOutputFileIndex == outputFileIndex
    {
      oldOutputFileIndex := outputFileIndex;
      runsPerLevel := ShrinkTable(distribution);
    }

    /** updateOutputFileIndex: the sink moves one file down, wrapping. */
    method UpdateOutputFileIndex()
      requires Valid()
      modifies this`outputFileIndex
      ensures Valid()
      ensures outputFileIndex == Rotated(old(outputFileIndex), distribution.Length)
    {
      if outputFileIndex > 0 {
        outputFileIndex := outputFileIndex - 1;
      } else {
        outputFileIndex := distribution.Length - 1;
      }
    }

    /** resetAllowReadArray: every file readable except the sink. */
    method ResetAllowReadArray()
      requires Valid()
      modifies allowRead
      ensures forall i :: 0 <= i < allowRead.Length ==>
        allowRead[i] == if i == outputFileIndex then 0 else 1
    {
      for i := 0 to allowRead.Length
        invariant forall k :: 0 <= k < i ==> allowRead[k] == 1
      {
        allowRead[i] := 1;
      }
      allowRead[outputFileIndex] := 0;
    }

    /** getMinDummyValue: the least dummy count among the files other than
        the sink, or Integer.MAX_VALUE if all of them are at least that. */
    method GetMinDummyValue() returns (min: int)
      requires Valid()
      ensures min <= IntMax
      ensures forall i :: 0 <= i < missingRuns.Length && i != outputFileIndex ==> min <= missingRuns[i]
      ensures min == IntMax
        || exists i :: 0 <= i < missingRuns.Length && i != outputFileIndex && missingRuns[i] == min
    {
      min := IntMax;
      for i := 0 to missingRuns.Length
        invariant min <= IntMax
        invariant forall k :: 0 <= k < i && k != outputFileIndex ==> min <= missingRuns[k]
        invariant min == IntMax
          || exists k :: 0 <= k < i && k != outputFileIndex && missingRuns[k] == min
      {
        if i != outputFileIndex && missingRuns[i] < min {
          min := missingRuns[i];
        }
      }
    }

    /** getMinFileIndex as written: its running minimum is never lowered, so
        it yields the last file whose target is non-zero and below
        Integer.MAX_VALUE, or -1 when there is none. */
    method GetMinFileIndex() returns (index: int)
      requires Valid()
      ensures -1 <= index < distribution.Length
      ensures index >= 0 ==> distribution[index] != 0 && distribution[index] < IntMax
      ensures forall j :: index < j < distribution.Length ==>
        distribution[j] == 0 || distribution[j] >= IntMax
    {
      index := -1;
      var min := IntMax;
      for i := 0 to distribution.Length
        invariant -1 <= index < i
        invariant index >= 0 ==> distribution[index] != 0 && distribution[index] < min
        invariant forall j :: index < j < i ==> distribution[j] == 0 || distribution[j] >= min
      {
        if distribution[i] != 0 && distribution[i] < min {
          index := i;
        }
      }
    }

    /** setMissingRunsArray: each auxiliary file's ledger entry, holding the
        runs written to it, becomes its target minus those runs. */
    method SetMissingRunsArray()
      requires Valid()
      modifies missingRuns
      ensures forall i :: 0 <= i < missingRuns.Length - 1 ==>
        missingRuns[i] == distribution[i] - old(missingRuns[i])
      ensures missingRuns[missingRuns.Length - 1] == old(missingRuns[missingRuns.Length - 1])
    {
      for i := 0 to missingRuns.Length - 1
        invariant forall k :: 0 <= k < i ==> missingRuns[k] == distribution[k] - old(missingRuns[k])
        invariant forall k :: i <= k < missingRuns.Length ==> missingRuns[k] == old(missingRuns[k])
      {
        missingRuns[i] := distribution[i] - missingRuns[i];
      }
    }

    /** initMergeProcedure: the first minDummy dummy runs of every auxiliary
        file are merged at once, which only moves counts in the ledger; the
        read permissions are then reset. */
    method InitMergeProcedure(minDummy: int)
      requires Valid()
      modifies missingRuns, allowRead
      ensures missingRuns[..] == Lowered(old(missingRuns[..]), outputFileIndex, minDummy)
      ensures forall i :: 0 <= i < allowRead.Length ==>
        allowRead[i] == if i == outputFileIndex then 0 else 1
    {
      var n := missingRuns.Length;
      for i := 0 to n - 1
        invariant forall k :: 0 <= k < i ==> missingRuns[k] == old(missingRuns[k]) - minDummy
        invariant forall k :: i <= k < n ==> missingRuns[k] == old(missingRuns[k])
      {
        missingRuns[i] := missingRuns[i] - minDummy;
      }
      missingRuns[outputFileIndex] := missingRuns[outputFileIndex] + minDummy;
      ResetAllowReadArray();
      assert missingRuns[..] == Lowered(old(missingRuns[..]), outputFileIndex, minDummy);
    }
  }
}
