/** Reading blocks of the segment files into the rows of the primary view. */
module SegmentReads {
  import opened Basics
  import opened SegmentFiles

  /** One block to read and the row it goes to. */
  datatype Read = Read(at: Location, block: nat)

  predicate CanRead(files: Files, rows: nat, rs: seq<Read>) {
    forall r :: r in rs ==> Readable(files, r.at) && r.block < rows
  }

  /** The plain form of a load: each block on its own, in the given order. */
  function ReadEach(files: Files, rows: seq<Bytes>, rs: seq<Read>): (result: seq<Bytes>)
    requires CanRead(files, |rows|, rs)
    ensures |result| == |rows|
    decreases |rs|
  {
    if rs == [] then rows
    else ReadEach(files, rows[rs[0].block := BytesAt(files, rs[0].at)], rs[1..])
  }

  predicate DistinctBlocks(rs: seq<Read>) {
    forall i, j :: 0 <= i < j < |rs| ==> rs[i].block != rs[j].block
  }

  lemma {:induction false} ReadEachAppend(files: Files, rows: seq<Bytes>, a: seq<Read>, b: seq<Read>)
    requires CanRead(files, |rows|, a) && CanRead(files, |rows|, b)
    ensures CanRead(files, |rows|, a + b)
    ensures ReadEach(files, rows, a + b) == ReadEach(files, ReadEach(files, rows, a), b)
    decreases |a|
  {
    if a == [] {
      assert a + b == b;
    } else {
      assert (a + b)[1..] == a[1..] + b;
      ReadEachAppend(files, rows[a[0].block := BytesAt(files, a[0].at)], a[1..], b);
    }
  }

  /** Rows that no read names keep their bytes. */
  lemma {:induction false} ReadEachKeeps(files: Files, rows: seq<Bytes>, rs: seq<Read>, block: nat)
    requires CanRead(files, |rows|, rs) && block < |rows|
    requires forall r :: r in rs ==> r.block != block
    ensures ReadEach(files, rows, rs)[block] == rows[block]
    decreases |rs|
  {
    if rs != [] {
      ReadEachKeeps(files, rows[rs[0].block := BytesAt(files, rs[0].at)], rs[1..], block);
    }
  }

  lemma {:induction false} ReadEachSizes(files: Files, rows: seq<Bytes>, rs: seq<Read>, size: nat)
    requires CanRead(files, |rows|, rs) && forall r :: r in rs ==> r.at.length == size
    requires forall b :: 0 <= b < |rows| ==> |rows[b]| == size
    ensures forall b :: 0 <= b < |rows| ==> |ReadEach(files, rows, rs)[b]| == size
    decreases |rs|
  {
    if rs != [] {
      ReadEachSizes(files, rows[rs[0].block := BytesAt(files, rs[0].at)], rs[1..], size);
    }
  }

  /** With distinct rows, every read's row holds the bytes of its location. */
  lemma {:induction false} ReadEachRow(files: Files, rows: seq<Bytes>, rs: seq<Read>, k: nat)
    requires CanRead(files, |rows|, rs) && DistinctBlocks(rs) && k < |rs|
    ensures ReadEach(files, rows, rs)[rs[k].block] == BytesAt(files, rs[k].at)
    decreases k
  {
    var next := rows[rs[0].block := BytesAt(files, rs[0].at)];
    if k == 0 {
      ReadEachKeeps(files, next, rs[1..], rs[0].block);
    } else {
      ReadEachRow(files, next, rs[1..], k - 1);
    }
  }

  /** The order of the reads does not matter when their rows are distinct. */
  lemma ReadOrderIrrelevant(files: Files, rows: seq<Bytes>, a: seq<Read>, b: seq<Read>)
    requires CanRead(files, |rows|, a) && CanRead(files, |rows|, b)
    requires DistinctBlocks(a) && DistinctBlocks(b)
    requires forall r :: r in a <==> r in b
    ensures ReadEach(files, rows, a) == ReadEach(files, rows, b)
  {
    forall block: nat | block < |rows|
      ensures ReadEach(files, rows, a)[block] == ReadEach(files, rows, b)[block]
    {
      if k :| 0 <= k < |a| && a[k].block == block {
        assert a[k] in b;
        var m :| 0 <= m < |b| && b[m] == a[k];
        ReadEachRow(files, rows, a, k);
        ReadEachRow(files, rows, b, m);
      } else {
        forall r | r in b ensures r.block != block {
          assert r in a;
        }
        ReadEachKeeps(files, rows, a, block);
        ReadEachKeeps(files, rows, b, block);
      }
    }
  }

  /* ---- the load order: by segment, then by offset ---- */

  predicate Before(a: Location, b: Location) {
    a.segment < b.segment || (a.segment == b.segment && a.offset <= b.offset)
  }

  predicate Sorted(rs: seq<Read>) {
    forall i, j :: 0 <= i < j < |rs| ==> Before(rs[i].at, rs[j].at)
  }

  /** Puts a read before the first one that does not come before it, so equal ones keep their order. */
  function Insert(r: Read, rs: seq<Read>): seq<Read> {
    if rs == [] then [r]
    else if Before(r.at, rs[0].at) then [r] + rs
    else [rs[0]] + Insert(r, rs[1..])
  }

  lemma {:induction false} InsertMembers(r: Read, rs: seq<Read>)
    ensures multiset(Insert(r, rs)) == multiset{r} + multiset(rs)
    ensures |Insert(r, rs)| == |rs| + 1
    ensures forall x :: x in Insert(r, rs) <==> x == r || x in rs
  {
    if rs != [] && !Before(r.at, rs[0].at) {
      InsertMembers(r, rs[1..]);
      assert rs == [rs[0]] + rs[1..];
    }
  }

  lemma {:induction false} InsertSorted(r: Read, rs: seq<Read>)
    requires Sorted(rs)
    ensures Sorted(Insert(r, rs))
  {
    if rs != [] && !Before(r.at, rs[0].at) {
      InsertSorted(r, rs[1..]);
      InsertMembers(r, rs[1..]);
      forall x | x in Insert(r, rs[1..]) ensures Before(rs[0].at, x.at) {
        if x != r {
          assert x in rs[1..];
        }
      }
    }
  }

  function SortReads(rs: seq<Read>): seq<Read> {
    if rs == [] then [] else Insert(rs[0], SortReads(rs[1..]))
  }

  lemma {:induction false} SortIsSorted(rs: seq<Read>)
    ensures Sorted(SortReads(rs))
    ensures multiset(SortReads(rs)) == multiset(rs)
  {
    if rs != [] {
      SortIsSorted(rs[1..]);
      InsertSorted(rs[0], SortReads(rs[1..]));
      InsertMembers(rs[0], SortReads(rs[1..]));
      assert rs == [rs[0]] + rs[1..];
    }
  }

  lemma {:induction false} SortMembers(rs: seq<Read>)
    ensures |SortReads(rs)| == |rs|
    ensures forall r :: r in SortReads(rs) <==> r in rs
  {
    if rs != [] {
      SortMembers(rs[1..]);
      InsertMembers(rs[0], SortReads(rs[1..]));
    }
  }

  lemma {:induction false} InsertDistinct(r: Read, rs: seq<Read>)
    requires DistinctBlocks(rs) && forall x :: x in rs ==> x.block != r.block
    ensures DistinctBlocks(Insert(r, rs))
  {
    if rs != [] && !Before(r.at, rs[0].at) {
      var tail := Insert(r, rs[1..]);
      InsertDistinct(r, rs[1..]);
      InsertMembers(r, rs[1..]);
      forall x | x in tail ensures x.block != rs[0].block {
        if x != r {
          assert x in rs[1..];
        }
      }
    }
  }

  lemma {:induction false} SortDistinct(rs: seq<Read>)
    requires DistinctBlocks(rs)
    ensures DistinctBlocks(SortReads(rs))
  {
    if rs != [] {
      SortDistinct(rs[1..]);
      SortMembers(rs[1..]);
      InsertDistinct(rs[0], SortReads(rs[1..]));
    }
  }

  /* ---- runs: blocks that continue each other in one segment ---- */

  /** What one scattered read of consecutive blocks stands for. */
  function Scatter(segment: nat, offset: nat, blocks: seq<nat>, size: nat): (rs: seq<Read>)
    ensures |rs| == |blocks|
  {
    seq(|blocks|, i requires 0 <= i < |blocks| => Read(Location(segment, offset + i * size, size), blocks[i]))
  }

  lemma ScatterAppend(segment: nat, offset: nat, a: seq<nat>, b: seq<nat>, size: nat)
    ensures Scatter(segment, offset, a + b, size)
         == Scatter(segment, offset, a, size) + Scatter(segment, offset + |a| * size, b, size)
  {
    forall i | |a| <= i < |a| + |b|
      ensures offset + i * size == offset + |a| * size + (i - |a|) * size
    {
      assert i * size == |a| * size + (i - |a|) * size;
    }
  }
}
