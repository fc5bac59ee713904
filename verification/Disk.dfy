/** The vectored system calls on the segment files, with every outcome the kernel may choose. */
module Disks {
  import opened Basics
  import opened SegmentFiles
  import opened SegmentReads

  function Concat(buffers: seq<Bytes>): Bytes {
    if buffers == [] then [] else buffers[0] + Concat(buffers[1..])
  }

  lemma {:induction false} ConcatFlat(buffers: seq<Bytes>, ws: seq<Write>)
    requires |buffers| == |ws| && forall i :: 0 <= i < |ws| ==> buffers[i] == ws[i].data
    ensures Concat(buffers) == Flat(ws)
  {
    if ws != [] {
      ConcatFlat(buffers[1..], ws[1..]);
    }
  }

  class Disk {
    var files: Files
    /** The segments on which a call may fail or fall short. */
    var faulty: set<nat>

    constructor (files: Files, faulty: set<nat>)
      ensures this.files == files && this.faulty == faulty
    {
      this.files, this.faulty := files, faulty;
    }

    /** Gathers the buffers into one write. On a faulty segment it may write any prefix, or fail with -1. */
    method Pwritev(segment: nat, buffers: seq<Bytes>, offset: nat) returns (written: int)
      modifies this`files
      ensures -1 <= written <= |Concat(buffers)|
      ensures segment !in faulty ==> written == |Concat(buffers)|
      ensures files == WriteOne(old(files), Write(segment, offset,
                         if written < 0 then [] else Concat(buffers)[..written]))
    {
      var data := Concat(buffers);
      written :| -1 <= written <= |data| && (segment !in faulty ==> written == |data|);
      if 0 < written {
        files := files[segment := Pwrite(File(files, segment), offset, data[..written])];
      }
    }

    /** Scatters consecutive blocks of a file over rows of the view. A read that returns all the
        requested bytes has filled every row; any other result promises the rows' lengths only, and comes
        of a faulty segment, or of bytes that are not there. */
    method Preadv(segment: nat, offset: nat, view: array<Bytes>, blocks: seq<nat>, size: nat) returns (bytesRead: int)
      requires 0 < size
      requires forall b :: b in blocks ==> b < view.Length
      requires RowsSized(view[..], size)
      modifies view
      ensures bytesRead == |blocks| * size ==>
                ScatterDone(files, old(view[..]), view[..], Scatter(segment, offset, blocks, size))
      ensures OtherRowsKept(old(view[..]), view[..], blocks) && RowsSized(view[..], size)
      ensures segment !in faulty && CanRead(files, view.Length, Scatter(segment, offset, blocks, size)) ==> bytesRead == |blocks| * size
    {
      ghost var rows := view[..];
      bytesRead := 0;
      for j := 0 to |blocks|
        invariant bytesRead == j * size
        invariant ScatterDone(files, rows, view[..], Scatter(segment, offset, blocks[..j], size))
        invariant OtherRowsKept(rows, view[..], blocks) && RowsSized(view[..], size)
      {
        var at := Location(segment, offset + bytesRead, size);
        var fails := *;
        fails := fails && segment in faulty;
        if fails || !Readable(files, at) {
          Multiples(j, |blocks|, size);
          if CanRead(files, view.Length, Scatter(segment, offset, blocks, size)) {
            BlockReadable(files, view.Length, segment, offset, blocks, j, size);
          }
          bytesRead := if fails then -1 else bytesRead;
          return;
        }
        assert blocks[j] in blocks;
        ScatterNext(files, rows, view[..], segment, offset, blocks, j, size);
        view[blocks[j]] := BytesAt(files, at);
        bytesRead := bytesRead + size;
      }
      assert blocks[..|blocks|] == blocks;
    }
  }

  predicate RowsSized(rows: seq<Bytes>, size: nat) {
    forall b :: 0 <= b < |rows| ==> |rows[b]| == size
  }

  predicate OtherRowsKept(before: seq<Bytes>, after: seq<Bytes>, blocks: seq<nat>) {
    |before| == |after| && forall b: nat :: b < |before| && b !in blocks ==> after[b] == before[b]
  }

  predicate ScatterDone(files: Files, before: seq<Bytes>, after: seq<Bytes>, rs: seq<Read>) {
    CanRead(files, |before|, rs) && after == ReadEach(files, before, rs)
  }

  lemma ScatterNext(files: Files, before: seq<Bytes>, now: seq<Bytes>, segment: nat, offset: nat, blocks: seq<nat>, j: nat, size: nat)
    requires j < |blocks| && blocks[j] < |before|
    requires ScatterDone(files, before, now, Scatter(segment, offset, blocks[..j], size))
    requires Readable(files, Location(segment, offset + j * size, size))
    ensures ScatterDone(files, before,
              now[blocks[j] := BytesAt(files, Location(segment, offset + j * size, size))],
              Scatter(segment, offset, blocks[..j + 1], size))
  {
    var done, next := Scatter(segment, offset, blocks[..j], size), Read(Location(segment, offset + j * size, size), blocks[j]);
    assert Scatter(segment, offset, blocks[..j + 1], size) == done + [next];
    assert CanRead(files, |before|, [next]);
    ReadEachAppend(files, before, done, [next]);
  }

  lemma BlockReadable(files: Files, rows: nat, segment: nat, offset: nat, blocks: seq<nat>, j: nat, size: nat)
    requires j < |blocks| && CanRead(files, rows, Scatter(segment, offset, blocks, size))
    ensures Readable(files, Location(segment, offset + j * size, size))
  {
    var r := Scatter(segment, offset, blocks, size)[j];
    assert r in Scatter(segment, offset, blocks, size);
  }

  lemma Multiples(j: nat, n: nat, size: nat)
    requires j < n
    ensures j * size + size <= n * size
  {
    assert (n - j - 1) * size >= 0;
    assert n * size == j * size + size + (n - j - 1) * size;
  }
}
