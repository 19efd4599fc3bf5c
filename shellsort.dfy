/** In-place Shell sort with Knuth's gap sequence 1, 4, 13, 40, ...
    (ShellSort.java), in its two versions: over an int array, where each
    pass shifts larger elements right and drops the saved element into the
    hole, and over an ArrayList, where each pass swaps neighbours a gap
    apart; and the rule choosing the split size of the input file. */
module ShellSorting {

  import Sizing

  // ---------------------------------------------------------------------
  // Orders on integer sequences

  /** Every pair of positions h apart, up to position upto, is in order. */
  ghost predicate ChainSorted(s: seq<int>, h: nat, upto: int) {
    forall k :: h <= k <= upto && k < |s| ==> s[k - h] <= s[k]
  }

  /** Every pair of positions h apart is in order. */
  ghost predicate GapSorted(s: seq<int>, h: nat) {
    forall k :: h <= k < |s| ==> s[k - h] <= s[k]
  }

  ghost predicate Sorted(s: seq<int>) {
    forall i, j :: 0 <= i <= j < |s| ==> s[i] <= s[j]
  }

  /** Being 1-sorted (each element at most its right neighbour) is being sorted. */
  lemma {:induction false} AdjacentSorted(s: seq<int>)
    requires GapSorted(s, 1)
    ensures Sorted(s)
  {
    if |s| > 1 {
      var t := s[..|s| - 1];
      assert GapSorted(t, 1) by {
        forall k | 1 <= k < |t| ensures t[k - 1] <= t[k] {
          assert t[k - 1] == s[k - 1] && t[k] == s[k];
        }
      }
      AdjacentSorted(t);
      forall i, j | 0 <= i <= j < |s| ensures s[i] <= s[j] {
        if j < |s| - 1 {
          assert s[i] == t[i] && s[j] == t[j];
        } else if i < j {
          assert s[i] == t[i] && s[j - 1] == t[j - 1];
        }
      }
    }
  }

  // ---------------------------------------------------------------------
  // Knuth's gap sequence

  /** The k-th Knuth gap: 0, 1, 4, 13, 40, ... */
  function Knuth(k: nat): nat {
    if k == 0 then 0 else 3 * Knuth(k - 1) + 1
  }

  function Pow3(k: nat): nat {
    if k == 0 then 1 else 3 * Pow3(k - 1)
  }

  /** The k-th Knuth gap is (3^k - 1) / 2. */
  lemma {:induction false} KnuthClosedForm(k: nat)
    ensures 2 * Knuth(k) + 1 == Pow3(k)
  {
    if k > 0 {
      KnuthClosedForm(k - 1);
    }
  }

  /** The values taken by the interval of the outer loop from h on: h, then
      (h - 1) / 3, and so on while it is positive. */
  function Descent(h: nat): seq<nat> {
    if h == 0 then [] else [h] + Descent((h - 1) / 3)
  }

  /** From the k-th Knuth gap, `(h - 1) / 3` visits exactly the smaller Knuth
      gaps in decreasing order, the last of them 1, and then stops at 0. */
  lemma {:induction false} KnuthDescent(k: nat)
    ensures |Descent(Knuth(k))| == k
    ensures forall i :: 0 <= i < k ==> Descent(Knuth(k))[i] == Knuth(k - i)
    ensures k >= 1 ==> Descent(Knuth(k))[k - 1] == 1
  {
    if k > 0 {
      assert (Knuth(k) - 1) / 3 == Knuth(k - 1);
      KnuthDescent(k - 1);
      var d := Descent(Knuth(k));
      assert d == [Knuth(k)] + Descent(Knuth(k - 1));
      forall i | 0 <= i < k ensures d[i] == Knuth(k - i) {
        if i > 0 {
          assert d[i] == Descent(Knuth(k - 1))[i - 1];
        }
      }
    }
  }

  /** The loop at ShellSort.java:116-118: the first Knuth gap greater than a
      third of the length. */
  method InitialGap(n: nat) returns (interval: nat)
    ensures exists k :: 1 <= k && interval == Knuth(k)
    ensures interval > n / 3
    ensures interval == 1 || (interval - 1) / 3 <= n / 3
  {
    interval := 1;
    ghost var k: nat := 1;
    while interval <= n / 3
      invariant 1 <= k && interval == Knuth(k)
      invariant interval == 1 || (interval - 1) / 3 <= n / 3
      decreases n / 3 - interval
    {
      interval := interval * 3 + 1;
      k := k + 1;
    }
  }

  // ---------------------------------------------------------------------
  // A reference sort: insertion into a sorted sequence

  function Insert(x: int, s: seq<int>): (r: seq<int>)
    ensures multiset(r) == multiset(s) + multiset{x}
    ensures |r| == |s| + 1
  {
    if s == [] || x <= s[0] then [x] + s
    else
      assert s == [s[0]] + s[1..];
      [s[0]] + Insert(x, s[1..])
  }

  /** The sorted arrangement of a sequence of integers. */
  function SortedOf(s: seq<int>): (r: seq<int>)
    ensures multiset(r) == multiset(s)
  {
    if s == [] then []
    else
      assert s == [s[0]] + s[1..];
      Insert(s[0], SortedOf(s[1..]))
  }

  /** A sorted sequence stays sorted under a head at most each element. */
  lemma SortedCons(h: int, r: seq<int>)
    requires Sorted(r) && forall i :: 0 <= i < |r| ==> h <= r[i]
    ensures Sorted([h] + r)
  {
    var t := [h] + r;
    forall i, j | 0 <= i <= j < |t| ensures t[i] <= t[j] {
      if 0 < i {
        assert t[i] == r[i - 1] && t[j] == r[j - 1];
      } else if 0 < j {
        assert t[j] == r[j - 1];
      }
    }
  }

  lemma {:induction false} InsertSorted(x: int, s: seq<int>)
    requires Sorted(s)
    ensures Sorted(Insert(x, s))
  {
    if s != [] && x > s[0] {
      var t := s[1..];
      InsertSorted(x, t);
      var r := Insert(x, t);
      forall i | 0 <= i < |r| ensures s[0] <= r[i] {
        var y := r[i];
        assert y in multiset(r);
        if y != x {
          assert y in multiset(t);
          var m :| 0 <= m < |t| && t[m] == y;
          assert s[m + 1] == y;
        }
      }
      SortedCons(s[0], r);
    }
  }

  lemma {:induction false} SortedOfSorted(s: seq<int>)
    ensures Sorted(SortedOf(s))
  {
    if s != [] {
      SortedOfSorted(s[1..]);
      InsertSorted(s[0], SortedOf(s[1..]));
    }
  }

  /** The head of a sorted sequence is at most each of its elements. */
  lemma HeadIsLeast(s: seq<int>, x: int)
    requires Sorted(s) && x in multiset(s)
    ensures s != [] && s[0] <= x
  {
    var i :| 0 <= i < |s| && s[i] == x;
  }

  lemma SortedTail(s: seq<int>)
    requires Sorted(s) && s != []
    ensures Sorted(s[1..])
  {
    forall i, j | 0 <= i <= j < |s| - 1 ensures s[1..][i] <= s[1..][j] {
      assert s[1..][i] == s[i + 1] && s[1..][j] == s[j + 1];
    }
  }

  /** A sorted sequence is determined by its multiset of elements. */
  lemma {:induction false} SortedUnique(a: seq<int>, b: seq<int>)
    requires Sorted(a) && Sorted(b) && multiset(a) == multiset(b)
    ensures a == b
  {
    if a == [] {
      assert |multiset(b)| == 0;
    } else {
      HeadIsLeast(b, a[0]);
      HeadIsLeast(a, b[0]);
      assert a == [a[0]] + a[1..] && b == [b[0]] + b[1..];
      assert multiset(a) == multiset{a[0]} + multiset(a[1..]);
      assert multiset(b) == multiset{b[0]} + multiset(b[1..]);
      assert a[0] == b[0];
      assert multiset(a[1..]) == multiset(a) - multiset{a[0]};
      assert multiset(b[1..]) == multiset(b) - multiset{b[0]};
      SortedTail(a);
      SortedTail(b);
      SortedUnique(a[1..], b[1..]);
    }
  }

  /** A sorted permutation of s is SortedOf(s). */
  lemma IsSortedOf(s: seq<int>, r: seq<int>)
    requires Sorted(r) && multiset(r) == multiset(s)
    ensures r == SortedOf(s)
  {
    SortedOfSorted(s);
    SortedUnique(r, SortedOf(s));
  }

  // ---------------------------------------------------------------------
  // shellSort(int[]): ShellSort.java:112-132

  /** Moving the hole of a gapped shift one gap to the left keeps the
      multiset that the array would hold with the saved element in the hole. */
  lemma ShiftKeepsElements(s: seq<int>, j: int, h: int, temp: int)
    requires 0 <= j - h < j < |s|
    ensures multiset(s[j := s[j - h]][j - h := temp]) == multiset(s[j := temp])
  {
    var u := s[j := s[j - h]];
    assert u[j - h] == s[j - h];
    calc {
      multiset(u[j - h := temp]);
      multiset(u) - multiset{s[j - h]} + multiset{temp};
      multiset(s) - multiset{s[j]} + multiset{s[j - h]} - multiset{s[j - h]} + multiset{temp};
      multiset(s[j := temp]);
    }
  }

  /** The state of the shifting loop at ShellSort.java:123-125 with the hole
      at j: the chain pairs not ending in the hole are in order, the element
      right of the hole is at least the saved one and at least the one left of
      the hole, and filling the hole with the saved element gives back the
      original elements. */
  ghost predicate Shifting(s: seq<int>, h: nat, i: nat, j: nat, temp: int, m: multiset<int>) {
    && 1 <= h && j <= i < |s|
    && (j == i || j + h <= i)
    && (forall k :: h <= k <= i && k != j ==> s[k - h] <= s[k])
    && (j < i ==> temp <= s[j + h])
    && (j < i && j >= h ==> s[j - h] <= s[j + h])
    && multiset(s[j := temp]) == m
  }

  /** One step of the shifting loop keeps its state. */
  lemma ShiftStep(s: seq<int>, h: nat, i: nat, j: nat, temp: int, m: multiset<int>)
    requires Shifting(s, h, i, j, temp, m) && j >= h && s[j - h] >= temp
    ensures Shifting(s[j := s[j - h]], h, i, j - h, temp, m)
  {
    ShiftKeepsElements(s, j, h, temp);
  }

  /** Dropping the saved element into the hole when the loop stops leaves
      the chain up to i in order. */
  lemma ShiftDone(s: seq<int>, h: nat, i: nat, j: nat, temp: int, m: multiset<int>)
    requires Shifting(s, h, i, j, temp, m) && (j < h || s[j - h] < temp)
    ensures ChainSorted(s[j := temp], h, i)
    ensures multiset(s[j := temp]) == m
  {
  }

  /** The body of the for loop at ShellSort.java:120-127 for one i: saves
      arr[i], shifts the larger elements of its gap chain h places right and
      drops the saved element into the hole. */
  method ShiftInsert(arr: array<int>, h: nat, i: nat)
    requires 1 <= h <= i < arr.Length
    requires ChainSorted(arr[..], h, i - 1)
    modifies arr
    ensures ChainSorted(arr[..], h, i)
    ensures multiset(arr[..]) == multiset(old(arr[..]))
  {
    var temp := arr[i];
    ghost var m := multiset(arr[..]);
    assert arr[..][i := temp] == arr[..];
    var j := ShiftLoop(arr, h, i, temp, m);
    ghost var s := arr[..];
    ShiftDone(s, h, i, j, temp, m);
    arr[j] := temp;
    assert arr[..] == s[j := temp];
  }

  /** The shifting loop (ShellSort.java:122-126): the hole moves left one
      gap at a time while the element to its left is at least the saved one. */
  method ShiftLoop(arr: array<int>, h: nat, i: nat, temp: int, ghost m: multiset<int>) returns (j: nat)
    requires Shifting(arr[..], h, i, i, temp, m)
    modifies arr
    ensures Shifting(arr[..], h, i, j, temp, m)
    ensures j < h || arr[j - h] < temp
  {
    j := i;
    while j >= h && arr[j - h] >= temp
      invariant Shifting(arr[..], h, i, j, temp, m)
      decreases j
    {
      ShiftOne(arr, h, i, j, temp, m);
      j := j - h;
    }
  }

  /** One step of the shifting loop (ShellSort.java:123-124): the element h
      places left of the hole moves into it. */
  method ShiftOne(arr: array<int>, h: nat, i: nat, j: nat, temp: int, ghost m: multiset<int>)
    requires Shifting(arr[..], h, i, j, temp, m) && j >= h && arr[j - h] >= temp
    modifies arr
    ensures Shifting(arr[..], h, i, j - h, temp, m)
  {
    ghost var s := arr[..];
    ShiftStep(s, h, i, j, temp, m);
    arr[j] := arr[j - h];
    assert arr[..] == s[j := s[j - h]];
  }

  /** One pass with gap h (ShellSort.java:120-127): a gapped insertion sort.
      Afterwards every element is at least the one h places to its left. */
  method ShiftPass(arr: array<int>, h: nat)
    requires h >= 1
    modifies arr
    ensures GapSorted(arr[..], h)
    ensures multiset(arr[..]) == multiset(old(arr[..]))
  {
    var i := h;
    while i < arr.Length
      invariant h <= i
      invariant ChainSorted(arr[..], h, i - 1)
      invariant multiset(arr[..]) == multiset(old(arr[..]))
    {
      ShiftInsert(arr, h, i);
      i := i + 1;
    }
  }

  /** shellSort(int[]): sorts the array in place and returns the same array. */
  method ShellSortArray(arr: array<int>) returns (r: array<int>)
    modifies arr
    ensures r == arr
    ensures Sorted(arr[..])
    ensures multiset(arr[..]) == multiset(old(arr[..]))
    ensures arr[..] == SortedOf(old(arr[..]))
  {
    var interval := InitialGap(arr.Length);
    ghost var k: nat :| 1 <= k && interval == Knuth(k);
    while interval > 0
      invariant interval == Knuth(k)
      invariant multiset(arr[..]) == multiset(old(arr[..]))
      invariant interval == 0 ==> GapSorted(arr[..], 1)
      decreases interval
    {
      ShiftPass(arr, interval);
      interval := (interval - 1) / 3;
      k := k - 1;
    }
    AdjacentSorted(arr[..]);
    IsSortedOf(old(arr[..]), arr[..]);
    r := arr;
  }

  // ---------------------------------------------------------------------
  // shellSort(ArrayList<Integer>): ShellSort.java:133-153

  /** An ArrayList<Integer>, with the operations the sort uses. */
  class IntList {
    var elements: seq<int>

    constructor (elements: seq<int>)
      ensures this.elements == elements
    {
      this.elements := elements;
    }

    /** Collections.swap(list, i, j) */
    method Swap(i: nat, j: nat)
      requires i < |elements| && j < |elements|
      modifies this
      ensures elements == old(elements)[i := old(elements)[j]][j := old(elements)[i]]
      ensures multiset(elements) == multiset(old(elements))
    {
      elements := elements[i := elements[j]][j := elements[i]];
    }

    /** list.set(i, x) */
    method Set(i: nat, x: int)
      requires i < |elements|
      modifies this
      ensures elements == old(elements)[i := x]
    {
      elements := elements[i := x];
    }
  }

  /** One pass with gap h (ShellSort.java:141-148): the saved element is
      swapped leftwards h places at a time; it always sits at position j, so
      the closing set(j, temp) changes nothing. */
  method SwapPass(arr: IntList, h: nat)
    requires h >= 1
    modifies arr
    ensures GapSorted(arr.elements, h)
    ensures multiset(arr.elements) == multiset(old(arr.elements))
  {
    var i := h;
    while i < |arr.elements|
      invariant h <= i
      invariant |arr.elements| == |old(arr.elements)|
      decreases |arr.elements| - i
      invariant forall k :: h <= k < i && k < |arr.elements| ==> arr.elements[k - h] <= arr.elements[k]
      invariant multiset(arr.elements) == multiset(old(arr.elements))
    {
      var temp := arr.elements[i];
      var j := i;
      while j > h - 1 && arr.elements[j - h] >= temp
        invariant 0 <= j <= i < |arr.elements| == |old(arr.elements)|
        invariant j == i || j + h <= i
        invariant arr.elements[j] == temp
        invariant forall k :: h <= k <= i && k != j ==> arr.elements[k - h] <= arr.elements[k]
        invariant j < i ==> temp <= arr.elements[j + h]
        invariant j < i && j >= h ==> arr.elements[j - h] <= arr.elements[j + h]
        invariant multiset(arr.elements) == multiset(old(arr.elements))
        decreases j
      {
        arr.Swap(j, j - h);
        j := j - h;
      }
      assert arr.elements[j := temp] == arr.elements;
      arr.Set(j, temp);
      i := i + 1;
    }
  }

  /** shellSort(ArrayList<Integer>): sorts the list in place and returns it;
      the result is the same sorted permutation the array version produces. */
  method ShellSortList(arr: IntList) returns (r: IntList)
    modifies arr
    ensures r == arr
    ensures Sorted(arr.elements)
    ensures multiset(arr.elements) == multiset(old(arr.elements))
    ensures arr.elements == SortedOf(old(arr.elements))
  {
    var interval := InitialGap(|arr.elements|);
    ghost var k: nat :| 1 <= k && interval == Knuth(k);
    while interval > 0
      invariant interval == Knuth(k)
      invariant multiset(arr.elements) == multiset(old(arr.elements))
      invariant interval == 0 ==> GapSorted(arr.elements, 1)
      decreases interval
    {
      SwapPass(arr, interval);
      interval := (interval - 1) / 3;
      k := k - 1;
    }
    AdjacentSorted(arr.elements);
    IsSortedOf(old(arr.elements), arr.elements);
    r := arr;
  }

  // ---------------------------------------------------------------------
  // The split size of shellFiles / shellFilesLexical (ShellSort.java:20-26, 72-78)

  /** Megabytes per split part for a file of the given size in megabytes. */
  function MegabytesPerSplit(fileSize: int): (split: int)
    ensures split == 1 || split == 10 || split == 100
    ensures split == 100 <==> fileSize > 100
    ensures split == 1 <==> fileSize <= 10
  {
    if fileSize > 100 then 100
    else if fileSize > 10 then 10
    else 1
  }

  /** A larger file never gets smaller parts, and a file of at least one
      megabyte is never split into parts larger than itself. */
  lemma SplitSizeMonotone(a: int, b: int)
    requires a <= b
    ensures MegabytesPerSplit(a) <= MegabytesPerSplit(b)
    ensures a >= 1 ==> MegabytesPerSplit(a) <= a
  {
  }

  /** getFileSizeMegaBytes in ShellSort.java:11-13 has the same cast
      before the division as its PMSS.java twin: a file of exactly 2 GiB is
      split in 1 MB parts instead of 100 MB ones. */
  lemma SplitAsWrittenTwoGiB()
    ensures MegabytesPerSplit(Sizing.MegabytesAsWritten(0x8000_0000)) == 1
    ensures MegabytesPerSplit(Sizing.MegabytesAsWritten(0x7FFF_FFFF)) == 100
    ensures MegabytesPerSplit(Sizing.Megabytes(0x8000_0000)) == 100
  {
    Sizing.AsWrittenTwoGiB();
  }

  /** With the intended size the parts never shrink as the file grows. */
  lemma CorrectedSplitMonotone(a: int, b: int)
    requires 0 <= a <= b
    ensures MegabytesPerSplit(Sizing.Megabytes(a)) <= MegabytesPerSplit(Sizing.Megabytes(b))
  {
    SplitSizeMonotone(Sizing.Megabytes(a), Sizing.Megabytes(b));
  }
}
