/** The run-target table of the polyphase sorter (PMSS.java): one slot per
    working file, the last slot reserved for the initial merge sink. A level
    grows by a generalised Fibonacci step and shrinks by its inverse; the runs
    of a level are the sum of all slots but the last. */
module Distribution {

  function Sum(s: seq<int>): int {
    if s == [] then 0 else Sum(s[..|s| - 1]) + s[|s| - 1]
  }

  lemma {:induction false} SumCons(x: int, s: seq<int>)
    ensures Sum([x] + s) == x + Sum(s)
  {
    if s != [] {
      assert ([x] + s)[..|s|] == [x] + s[..|s| - 1];
      SumCons(x, s[..|s| - 1]);
    }
  }

  /** Extending a prefix by one slot adds that slot to the sum. */
  lemma SumPrefix(s: seq<int>, i: int)
    requires 0 <= i < |s|
    ensures Sum(s[..i + 1]) == Sum(s[..i]) + s[i]
  {
    assert s[..i + 1][..i] == s[..i];
  }

  /** Adding c to each of m slots adds m * c to their sum. */
  lemma {:induction false} SumShifted(a: seq<int>, c: int, b: seq<int>)
    requires |a| == |b|
    requires forall i :: 0 <= i < |a| ==> b[i] == c + a[i]
    ensures Sum(b) == |a| * c + Sum(a)
  {
    if a != [] {
      var n := |a| - 1;
      SumShifted(a[..n], c, b[..n]);
      assert |a| * c == n * c + c;
    }
  }

  /** runs_per_level for a table: the sum of every slot except the last. */
  function Runs(d: seq<int>): int
    requires |d| >= 1
  {
    Sum(d[..|d| - 1])
  }

  /** setNextDistributionLevel (PMSS.java:586-596) on the table's value:
      every slot but the last becomes slot 0 plus its right neighbour. */
  function Grow(d: seq<int>): (g: seq<int>)
    requires |d| >= 2
    ensures |g| == |d|
  {
    seq(|d|, i requires 0 <= i < |d| => if i < |d| - 1 then d[0] + d[i + 1] else d[i])
  }

  /** setPreviousRunDistributionLevel (PMSS.java:602-620) on the table's
      value: slot 0 takes the second-to-last slot, which is subtracted from
      every other slot moving one place right; the last slot is kept. */
  function Shrink(d: seq<int>): (p: seq<int>)
    requires |d| >= 2
    ensures |p| == |d|
  {
    var last := d[|d| - 2];
    seq(|d|, i requires 0 <= i < |d| =>
      if i == 0 then last else if i < |d| - 1 then d[i - 1] - last else d[i])
  }

  /** The table at the start of distribution (PMSS.java:181-182, with the
      rest of the freshly allocated array zero). */
  function Seed(n: nat): (d: seq<int>)
    requires n >= 2
    ensures |d| == n
  {
    seq(n, i requires 0 <= i < n => if i == 0 then 1 else 0)
  }

  function GrowN(k: nat, d: seq<int>): (g: seq<int>)
    requires |d| >= 2
    ensures |g| == |d|
  {
    if k == 0 then d else Grow(GrowN(k - 1, d))
  }

  function ShrinkN(k: nat, d: seq<int>): (p: seq<int>)
    requires |d| >= 2
    ensures |p| == |d|
  {
    if k == 0 then d else ShrinkN(k - 1, Shrink(d))
  }

  /** The table after k growth steps from the seed. */
  function Level(k: nat, n: nat): (d: seq<int>)
    requires n >= 2
    ensures |d| == n
  {
    GrowN(k, Seed(n))
  }

  // ---------------------------------------------------------------------
  // Grow and Shrink are inverse on tables whose last slot is zero

  /** The grow step's effect slot by slot, and the runs it leaves. */
  lemma GrowSlots(d: seq<int>)
    requires |d| >= 2
    ensures forall i :: 0 <= i < |d| - 1 ==> Grow(d)[i] == d[0] + d[i + 1]
    ensures Grow(d)[|d| - 1] == d[|d| - 1]
    ensures Runs(Grow(d)) == Runs(d) + (|d| - 2) * d[0] + d[|d| - 1]
  {
    var n := |d|;
    var g := Grow(d);
    assert Sum(g[..n - 1]) == (n - 1) * d[0] + Sum(d[1..]) by {
      SumShifted(d[1..], d[0], g[..n - 1]);
    }
    assert Sum(d) == d[0] + Sum(d[1..]) by {
      SumCons(d[0], d[1..]);
      assert [d[0]] + d[1..] == d;
    }
  }

  /** p is d shrunk by one step, slot by slot. */
  ghost predicate ShrunkFrom(d: seq<int>, p: seq<int>) {
    && |d| >= 2 && |p| == |d|
    && p[0] == d[|d| - 2]
    && (forall i {:trigger p[i]} :: 1 <= i < |d| - 1 ==> p[i] == d[i - 1] - d[|d| - 2])
    && p[|d| - 1] == d[|d| - 1]
  }

  /** The shrink step's slots, as a value with nothing else known about it. */
  lemma ShrunkSlots(d: seq<int>) returns (p: seq<int>)
    requires |d| >= 2
    ensures ShrunkFrom(d, p)
  {
    p := Shrink(d);
  }

  /** The slots determine the shrunk table. */
  lemma ShrunkFromIsShrink(d: seq<int>, p: seq<int>)
    requires ShrunkFrom(d, p)
    ensures p == Shrink(d)
  {
  }

  /** Shrinking a grown table gives back the table, when its last slot is 0. */
  lemma ShrinkGrow(d: seq<int>)
    requires |d| >= 2 && d[|d| - 1] == 0
    ensures Shrink(Grow(d)) == d
  {
    var n := |d|;
    forall i | 0 <= i < n ensures Shrink(Grow(d))[i] == d[i] {
    }
  }

  /** Growing a shrunk table gives back the table, when its last slot is 0. */
  lemma GrowShrink(d: seq<int>)
    requires |d| >= 2 && d[|d| - 1] == 0
    ensures Grow(Shrink(d)) == d
  {
    var n := |d|;
    forall i | 0 <= i < n ensures Grow(Shrink(d))[i] == d[i] {
    }
  }

  lemma {:induction false} GrowNKeepsLast(k: nat, d: seq<int>)
    requires |d| >= 2
    ensures GrowN(k, d)[|d| - 1] == d[|d| - 1]
  {
    if k > 0 {
      GrowNKeepsLast(k - 1, d);
    }
  }

  /** k shrink steps undo k grow steps. */
  lemma {:induction false} ShrinkNGrowN(k: nat, d: seq<int>)
    requires |d| >= 2 && d[|d| - 1] == 0
    ensures ShrinkN(k, GrowN(k, d)) == d
    ensures k > 0 ==> Shrink(GrowN(k, d)) == GrowN(k - 1, d)
  {
    if k > 0 {
      GrowNKeepsLast(k - 1, d);
      ShrinkGrow(GrowN(k - 1, d));
      ShrinkNGrowN(k - 1, d);
      ShrinkNShift(k - 1, GrowN(k, d));
    }
  }

  /** ShrinkN(k + 1, d) == ShrinkN(k, Shrink(d)) unfolds the other way too. */
  lemma {:induction false} ShrinkNShift(k: nat, d: seq<int>)
    requires |d| >= 2
    ensures ShrinkN(k + 1, d) == ShrinkN(k, Shrink(d))
  {
  }

  // ---------------------------------------------------------------------
  // The shape of the levels reached from the seed

  /** Slot 0 is at least 1, the last slot is 0, and the slots do not increase
      from left to right (so none is negative). */
  ghost predicate Shaped(d: seq<int>) {
    && |d| >= 2
    && d[0] >= 1
    && d[|d| - 1] == 0
    && forall i, j :: 0 <= i <= j < |d| ==> d[i] >= d[j]
  }

  lemma GrowKeepsShape(d: seq<int>)
    requires Shaped(d)
    ensures Shaped(Grow(d))
  {
    GrowSlots(d);
    var g := Grow(d);
    forall i, j | 0 <= i <= j < |d| ensures g[i] >= g[j] {
      if i < j == |d| - 1 {
        assert d[i + 1] >= d[|d| - 1];
      }
    }
  }

  /** Every level grown from the seed has the shape. */
  lemma {:induction false} LevelShaped(k: nat, n: nat)
    requires n >= 2
    ensures Shaped(Level(k, n))
  {
    if k > 0 {
      LevelShaped(k - 1, n);
      GrowKeepsShape(Level(k - 1, n));
    }
  }

  /** A grow step never lowers a file's target, and with at least two
      auxiliary files it raises at least one. */
  lemma GrowRaises(d: seq<int>)
    requires Shaped(d)
    ensures forall i :: 0 <= i < |d| - 1 ==> Grow(d)[i] >= d[i]
    ensures |d| >= 3 ==> exists i :: 0 <= i < |d| - 1 && Grow(d)[i] > d[i]
  {
    GrowSlots(d);
    if |d| >= 3 {
      if d[1] > 0 {
        assert Grow(d)[0] > d[0];
      } else {
        assert Grow(d)[1] > d[1];
      }
    }
  }

  /** With at least two auxiliary files runs_per_level strictly increases. */
  lemma RunsIncrease(d: seq<int>)
    requires Shaped(d) && |d| >= 3
    ensures Runs(Grow(d)) > Runs(d)
  {
    GrowSlots(d);
    assert (|d| - 2) * d[0] >= d[0];
  }

  lemma SeedRuns(n: nat)
    requires n >= 2
    ensures Shaped(Seed(n)) && Runs(Seed(n)) == 1
  {
    var s := Seed(n);
    assert s[..n - 1] == [1] + s[1..n - 1];
    SumCons(1, s[1..n - 1]);
    ZeroSum(s[1..n - 1]);
  }

  lemma {:induction false} ZeroSum(s: seq<int>)
    requires forall i :: 0 <= i < |s| ==> s[i] == 0
    ensures Sum(s) == 0
  {
    if s != [] {
      ZeroSum(s[..|s| - 1]);
    }
  }

  /** The level k steps above the seed holds at least k + 1 runs with two or
      more auxiliary files, and exactly 1 at the seed; so the merge loop
      `while (runs_per_level > 1)` (PMSS.java:137) runs exactly while the
      level is above the seed. */
  lemma {:induction false} LevelRuns(k: nat, n: nat)
    requires n >= 3
    ensures Runs(Level(k, n)) >= k + 1
    ensures k == 0 <==> Runs(Level(k, n)) == 1
  {
    if k == 0 {
      SeedRuns(n);
    } else {
      LevelRuns(k - 1, n);
      LevelShaped(k - 1, n);
      RunsIncrease(Level(k - 1, n));
    }
  }

  /** The table the merge phase starts from, one shrink below level lv:
      it is level lv - 1, it holds more than one run exactly when lv is at
      least 2, and exactly one run otherwise. Below the seed (an empty input)
      the shrunk seed still holds one run, on the second file. */
  lemma ShrunkLevel(lv: nat, n: nat)
    requires n >= 3
    ensures lv >= 1 ==> Shrink(Level(lv, n)) == Level(lv - 1, n)
    ensures Runs(Shrink(Level(lv, n))) > 1 <==> lv >= 2
    ensures lv <= 1 ==> Runs(Shrink(Level(lv, n))) == 1
  {
    if lv >= 1 {
      ShrinkNGrowN(lv, Seed(n));
      LevelRuns(lv - 1, n);
    } else {
      ShrunkSeedRuns(n);
    }
  }

  /** Below the seed the table still holds one run. */
  lemma ShrunkSeedRuns(n: nat)
    requires n >= 3
    ensures Runs(Shrink(Seed(n))) == 1
  {
    var p := Shrink(Seed(n));
    assert p[..n - 1] == [0] + ([1] + p[2..n - 1]);
    SumCons(0, [1] + p[2..n - 1]);
    SumCons(1, p[2..n - 1]);
    ZeroSum(p[2..n - 1]);
  }

  // ---------------------------------------------------------------------
  // Two auxiliary files: the levels are consecutive Fibonacci numbers

  function Fib(k: nat): nat {
    if k == 0 then 0 else if k == 1 then 1 else Fib(k - 1) + Fib(k - 2)
  }

  lemma {:induction false} TwoFileLevels(k: nat)
    ensures Level(k, 3) == [Fib(k + 1), Fib(k), 0]
    ensures Runs(Level(k, 3)) == Fib(k + 2)
  {
    if k > 0 {
      TwoFileLevels(k - 1);
    }
    var d := Level(k, 3);
    assert d[..2] == [d[0]] + [d[1]];
    SumCons(d[0], [d[1]]);
    assert Sum([d[1]]) == Sum([]) + d[1];
  }

  // ---------------------------------------------------------------------
  // getMinFileIndex on the levels reached

  /** getMinFileIndex (PMSS.java:480-494) never lowers its running minimum,
      so it finds the last slot whose target is non-zero and below the cap
      Integer.MAX_VALUE. On a shaped table below the cap such a slot exists,
      it is an auxiliary file, and it holds the smallest non-zero target. */
  lemma LastCandidateIsMinimum(d: seq<int>, r: int, cap: int)
    requires Shaped(d) && d[0] < cap
    requires -1 <= r < |d|
    requires r >= 0 ==> d[r] != 0 && d[r] < cap
    requires forall j :: r < j < |d| ==> d[j] == 0 || d[j] >= cap
    ensures 0 <= r < |d| - 1
    ensures forall j :: 0 <= j < |d| && d[j] != 0 ==> d[r] <= d[j]
  {
    assert d[0] != 0 && d[0] < cap;
    forall j | r < j < |d|
      ensures d[j] == 0
    {
      assert d[0] >= d[j];
    }
  }

  // ---------------------------------------------------------------------
  // Rotation of the merge sink (updateOutputFileIndex, PMSS.java:357-367)

  /** The sink index after one level: one lower, wrapping from 0 to n - 1. */
  function Rotated(x: int, n: nat): (y: int)
    requires 0 <= x < n
    ensures 0 <= y < n
  {
    if x > 0 then x - 1 else n - 1
  }

  function RotatedN(k: nat, x: int, n: nat): (y: int)
    requires 0 <= x < n
    ensures 0 <= y < n
  {
    if k == 0 then x else Rotated(RotatedN(k - 1, x, n), n)
  }

  /** After k <= n levels the sink has moved k places down, cyclically; after
      n levels it is back where it started. */
  lemma {:induction false} RotationPeriod(k: nat, x: int, n: nat)
    requires 0 <= x < n && k <= n
    ensures RotatedN(k, x, n) == if k <= x then x - k else x - k + n
    ensures k == n ==> RotatedN(k, x, n) == x
  {
    if k > 0 {
      RotationPeriod(k - 1, x, n);
    }
  }

  // ---------------------------------------------------------------------
  // The dummy-run ledger before the first merge (PMSS.java:128-129, 266-284)

  /** initMergeProcedure(m) on the ledger's value: every slot but the last
      loses m dummy runs and the sink slot gains m. */
  function Lowered(s: seq<int>, sink: int, m: int): (t: seq<int>)
    ensures |t| == |s|
  {
    seq(|s|, i requires 0 <= i < |s| =>
      s[i] - (if i < |s| - 1 then m else 0) + (if i == sink then m else 0))
  }

  /** With the sink in the last slot and m the least dummy count of the other
      slots (getMinDummyValue), lowering leaves no count negative, at least
      one of them zero, and credits the m dummy runs to the sink. */
  lemma LoweredLedger(s: seq<int>, m: int, j: int)
    requires |s| >= 2
    requires forall i :: 0 <= i < |s| - 1 ==> m <= s[i]
    requires 0 <= j < |s| - 1 && s[j] == m
    ensures var t := Lowered(s, |s| - 1, m);
      && (forall i :: 0 <= i < |s| - 1 ==> t[i] >= 0)
      && t[j] == 0
      && t[|s| - 1] == s[|s| - 1] + m
  {
  }
}
