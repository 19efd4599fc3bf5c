/** The working files of the polyphase sorter as values: readers over the
    files' lines, the per-file state that readFileLine keeps (PMSS.java:
    410-438), and the records of the priority queue. */
module RunFiles {
  import opened Lexicographic

  /** Java's null, for the string-valued fields. */
  datatype Option<T> = None | Some(value: T)

  /** An open BufferedReader: the lines of the file when it was opened and
      the index of the next line to read. */
  datatype Reader = Reader(lines: seq<string>, pos: nat)

  predicate Open(r: Reader) {
    r.pos <= |r.lines|
  }

  /** BufferedReader.readLine: the next line and the advanced reader, or
      null (and no move) at the end of the file. */
  function NextLine(r: Reader): (res: (Reader, Option<string>))
    requires Open(r)
    ensures res.0.lines == r.lines && Open(res.0)
    ensures r.pos < |r.lines| ==> res.0.pos == r.pos + 1 && res.1 == Some(r.lines[r.pos])
    ensures r.pos == |r.lines| ==> res.0 == r && res.1.None?
  {
    if r.pos < |r.lines| then (Reader(r.lines, r.pos + 1), Some(r.lines[r.pos])) else (r, None)
  }

  /** What readFileLine reads and writes for one file: its reader, its
      last_elements entry, its next_run_first_elements entry (the record's
      file index is always the file's own) and its allow_read flag. */
  datatype Cursor = Cursor(reader: Reader, last: Option<string>, cached: Option<string>, allow: int)

  /** readFileLine on values. A line below the last one returned ends the
      run: it is cached as the next run's head, the file is blocked and null
      is returned. The end of the file after a line makes the comparison
      throw: the file is blocked and its cache cleared. Any other line (or
      the end of a file from which nothing was returned yet) becomes the
      last element and is returned. */
  function ReadLine(c: Cursor): (res: (Cursor, Option<string>))
    requires Open(c.reader)
    ensures Open(res.0.reader) && res.0.reader.lines == c.reader.lines
    ensures res.0.reader == NextLine(c.reader).0
    ensures res.1.Some? ==>
      && res.1 == NextLine(c.reader).1
      && res.0.last == res.1 && res.0.cached == c.cached && res.0.allow == c.allow
      && (c.last.Some? ==> AtMost(c.last.value, res.1.value))
    ensures c.last.Some? && NextLine(c.reader).1.Some? && Below(NextLine(c.reader).1.value, c.last.value) ==>
      && res.1.None? && res.0.cached == NextLine(c.reader).1 && res.0.allow == 0 && res.0.last == c.last
    ensures c.last.Some? && NextLine(c.reader).1.None? ==>
      && res.1.None? && res.0.cached.None? && res.0.allow == 0 && res.0.last == c.last
    ensures c.last.None? ==> res.0 == c.(reader := res.0.reader, last := res.1) && res.1 == NextLine(c.reader).1
  {
    var (r, current) := NextLine(c.reader);
    if c.last.Some? && current.None? then
      (c.(reader := r, cached := None, allow := 0), None)
    else if c.last.Some? && Below(current.value, c.last.value) then
      (c.(reader := r, cached := current, allow := 0), None)
    else if c.last.Some? then
      BelowNotAtMost(current.value, c.last.value);
      (c.(reader := r, last := current), current)
    else
      (c.(reader := r, last := current), current)
  }

  /** The refill of a polled record's file (PMSS.java:311): readFileLine
      when the file may still be read, nothing otherwise. */
  function Refilled(c: Cursor): (res: (Cursor, Option<string>))
    requires Open(c.reader)
  {
    if c.allow == 1 then ReadLine(c) else (c, None)
  }

  /** StringRecord: a line and the index of the file it was read from. */
  datatype Record = Record(value: string, file: int)

  /** The record for a line read from file f, if one was read. */
  function Single(line: Option<string>, f: int): multiset<Record> {
    if line.Some? then multiset{Record(line.value, f)} else multiset{}
  }

  /** The records for one optional line per file, file i's at index i. */
  function Records(lines: seq<Option<string>>): multiset<Record> {
    if lines == [] then multiset{}
    else Records(lines[..|lines| - 1]) + Single(lines[|lines| - 1], |lines| - 1)
  }

  /** A queue holding the records of some lines, given the record of one
      more line, holds the records of the longer sequence. */
  lemma RecordsSnoc(q0: multiset<Record>, q: multiset<Record>, lines: seq<Option<string>>, line: Option<string>)
    requires q == q0 + Records(lines) + Single(line, |lines|)
    ensures q == q0 + Records(lines + [line])
  {
    assert (lines + [line])[..|lines|] == lines;
  }

  /** The records of the first i + 1 lines, from those of the first i. */
  lemma RecordsStep(q0: multiset<Record>, q1: multiset<Record>, q: multiset<Record>,
                    lines: seq<Option<string>>, i: int)
    requires 0 <= i < |lines|
    requires q1 == q0 + Records(lines[..i]) && q == q1 + Single(lines[i], i)
    ensures q == q0 + Records(lines[..i + 1])
  {
    assert lines[..i + 1][..i] == lines[..i];
  }

  /** Records holds exactly one record per line present, tagged with the
      line's file, and nothing else. */
  lemma {:induction false} RecordsExactly(lines: seq<Option<string>>)
    ensures forall r :: r in Records(lines) <==> 0 <= r.file < |lines| && lines[r.file] == Some(r.value)
    ensures forall r :: r in Records(lines) ==> Records(lines)[r] == 1
  {
    if lines != [] {
      var m := |lines| - 1;
      RecordsExactly(lines[..m]);
    }
  }

  /** Every value in q is at or above x. */
  predicate NoneBelow(x: string, q: multiset<Record>) {
    forall s {:trigger AtMost(x, s.value)} :: s in q ==> AtMost(x, s.value)
  }

  /** r is a record of q whose value is at most every value in q. */
  predicate Least(r: Record, q: multiset<Record>) {
    r in q && NoneBelow(r.value, q)
  }

  /** A non-empty queue holds a least record: what PriorityQueue.poll hands
      out under the value order, with ties left open. */
  lemma {:induction false} LeastRecordExists(q: multiset<Record>)
    requires q != multiset{}
    ensures exists r :: Least(r, q)
    decreases |q|
  {
    var x :| x in q;
    var rest := q - multiset{x};
    assert q == rest + multiset{x};
    if rest == multiset{} {
      assert q == multiset{x};
      assert Least(x, q);
    } else {
      LeastRecordExists(rest);
      var m :| Least(m, rest);
      LeastAdded(q, rest, x, m);
    }
  }

  /** Adding a record to a queue leaves its least record least, or makes
      the added one least. */
  lemma LeastAdded(q: multiset<Record>, rest: multiset<Record>, x: Record, m: Record)
    requires q == rest + multiset{x} && Least(m, rest)
    ensures Least(m, q) || Least(x, q)
  {
    Antisymmetric(m.value, x.value);
    if AtMost(m.value, x.value) {
      forall s | s in q
        ensures AtMost(m.value, s.value)
      {
        if s != x {
          assert s in rest;
        }
      }
    } else {
      forall s | s in q
        ensures AtMost(x.value, s.value)
      {
        if s != x {
          assert s in rest;
          Transitive(x.value, m.value, s.value);
        }
      }
    }
  }

  /** At most one record per file. */
  lemma {:induction false} RecordsSize(lines: seq<Option<string>>)
    ensures |Records(lines)| <= |lines|
  {
    if lines != [] {
      RecordsSize(lines[..|lines| - 1]);
    }
  }

  /** Lines still to be read, over all readers. */
  function Unread(rs: seq<Reader>): int {
    if rs == [] then 0 else Unread(rs[..|rs| - 1]) + (|rs[|rs| - 1].lines| - rs[|rs| - 1].pos)
  }

  /** Moving one reader changes the count by that reader's change alone. */
  lemma {:induction false} UnreadUpdate(rs: seq<Reader>, i: int, r: Reader)
    requires 0 <= i < |rs|
    ensures Unread(rs[i := r]) == Unread(rs) - (|rs[i].lines| - rs[i].pos) + (|r.lines| - r.pos)
  {
    var m := |rs| - 1;
    if i < m {
      assert rs[i := r][..m] == rs[..m][i := r];
      UnreadUpdate(rs[..m], i, r);
    } else {
      assert rs[i := r][..m] == rs[..m];
    }
  }

  /** No reader reads past its end, so nothing is owed below zero. */
  lemma {:induction false} UnreadNonNegative(rs: seq<Reader>)
    requires forall i :: 0 <= i < |rs| ==> Open(rs[i])
    ensures Unread(rs) >= 0
  {
    if rs != [] {
      UnreadNonNegative(rs[..|rs| - 1]);
    }
  }
}
