/** Natural runs of a working file: its maximal non-decreasing stretches,
    which is what a merge pass of PMSS.java treats as one run. */
module NaturalRuns {
  import opened Lexicographic

  /** The number of lines below the line before them. */
  function Descents(s: seq<string>): nat {
    if |s| <= 1 then 0
    else Descents(s[..|s| - 1]) + (if Below(s[|s| - 1], s[|s| - 2]) then 1 else 0)
  }

  function PhysicalRuns(s: seq<string>): nat {
    if s == [] then 0 else 1 + Descents(s)
  }

  lemma {:induction false} AscendingNoDescents(s: seq<string>)
    requires Ascending(s)
    ensures Descents(s) == 0 && (s != [] ==> PhysicalRuns(s) == 1)
  {
    if |s| > 1 {
      assert Ascending(s[..|s| - 1]);
      AscendingNoDescents(s[..|s| - 1]);
      BelowNotAtMost(s[|s| - 1], s[|s| - 2]);
    }
  }

  /** Appending a non-empty ascending stretch w to a file adds one run,
      unless the file is non-empty and w starts at or above its last line,
      in which case the stretch continues the file's last run (the join
      runsMerged looks for, PMSS.java:573-580). */
  lemma {:induction false} AppendStretch(a: seq<string>, w: seq<string>)
    requires w != [] && Ascending(w)
    ensures PhysicalRuns(a + w) ==
      PhysicalRuns(a) + (if a == [] || Below(w[0], a[|a| - 1]) then 1 else 0)
  {
    var m := |w| - 1;
    if m == 0 {
      if a == [] {
        assert a + w == w;
      } else {
        assert (a + w)[..|a|] == a;
      }
    } else {
      assert Ascending(w[..m]);
      AppendStretch(a, w[..m]);
      assert (a + w)[..|a + w| - 1] == a + w[..m];
      BelowNotAtMost(w[m], w[m - 1]);
    }
  }

  /** Everything held in a list of files, as a multiset of lines. */
  function Contents(files: seq<seq<string>>): multiset<string> {
    if files == [] then multiset{} else Contents(files[..|files| - 1]) + multiset(files[|files| - 1])
  }

  /** Appending w to one file adds exactly w to the contents. */
  lemma {:induction false} ContentsAppend(files: seq<seq<string>>, f: int, w: seq<string>)
    requires 0 <= f < |files|
    ensures Contents(files[f := files[f] + w]) == Contents(files) + multiset(w)
  {
    var m := |files| - 1;
    var g := files[f := files[f] + w];
    if f == m {
      assert g[..m] == files[..m];
    } else {
      assert g[..m] == files[..m][f := files[f] + w];
      ContentsAppend(files[..m], f, w);
    }
  }

  lemma {:induction false} ContentsOfEmpty(files: seq<seq<string>>)
    requires forall i :: 0 <= i < |files| ==> files[i] == []
    ensures Contents(files) == multiset{}
  {
    if files != [] {
      ContentsOfEmpty(files[..|files| - 1]);
    }
  }
}
