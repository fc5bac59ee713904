/** Coalesced, batched vectored I/O over the segment files. */
module SegmentIo {
  import opened Basics
  import Divisions
  import opened SegmentFiles
  import opened SegmentReads
  import opened Disks

  /** Writes that follow each other in one segment, each of `size` bytes. */
  predicate EvenRun(ws: seq<Write>, segment: nat, offset: nat, size: nat) {
    ws == [] || (
      && ws[0].segment == segment && ws[0].offset == offset && |ws[0].data| == size
      && EvenRun(ws[1..], segment, offset + size, size))
  }

  lemma {:induction false} EvenRunIsRun(ws: seq<Write>, segment: nat, offset: nat, size: nat)
    requires EvenRun(ws, segment, offset, size)
    ensures Run(ws) && forall w :: w in ws ==> |w.data| == size
  {
    if ws != [] {
      EvenRunIsRun(ws[1..], segment, offset + size, size);
    }
  }

  lemma {:induction false} EvenRunAt(ws: seq<Write>, segment: nat, offset: nat, size: nat, i: nat)
    requires EvenRun(ws, segment, offset, size) && i < |ws|
    ensures ws[i].segment == segment
  {
    if i > 0 {
      EvenRunAt(ws[1..], segment, offset + size, size, i - 1);
    }
  }

  lemma {:induction false} EvenRunTake(ws: seq<Write>, segment: nat, offset: nat, size: nat, n: nat)
    requires EvenRun(ws, segment, offset, size) && n <= |ws|
    ensures EvenRun(ws[..n], segment, offset, size)
  {
    if n > 0 {
      EvenRunTake(ws[1..], segment, offset + size, size, n - 1);
      assert ws[..n][1..] == ws[1..][..n - 1];
    }
  }

  lemma {:induction false} EvenRunDrop(ws: seq<Write>, segment: nat, offset: nat, size: nat, n: nat)
    requires EvenRun(ws, segment, offset, size) && n <= |ws|
    ensures EvenRun(ws[n..], segment, offset + n * size, size)
  {
    if n == 0 {
      assert ws[0..] == ws;
    } else {
      EvenRunDrop(ws[1..], segment, offset + size, size, n - 1);
      assert ws[1..][n - 1..] == ws[n..];
      assert n * size == size + (n - 1) * size;
    }
  }

  lemma {:induction false} EvenRunNext(ws: seq<Write>, segment: nat, offset: nat, size: nat, w: Write)
    requires EvenRun(ws, segment, offset, size)
    requires w.segment == segment && w.offset == offset + |ws| * size && |w.data| == size
    ensures EvenRun(ws + [w], segment, offset, size)
  {
    if ws != [] {
      assert |ws| * size == size + |ws[1..]| * size;
      EvenRunNext(ws[1..], segment, offset + size, size, w);
      assert (ws + [w])[1..] == ws[1..] + [w];
    } else {
      assert ([w])[1..] == [];
    }
  }

  function Datas(ws: seq<Write>): seq<Bytes> {
    seq(|ws|, i requires 0 <= i < |ws| => ws[i].data)
  }

  lemma DatasSlice(ws: seq<Write>, a: nat, b: nat)
    requires a <= b <= |ws|
    ensures Datas(ws)[a..b] == Datas(ws[a..b])
  {
  }

  /** One gathered write of the next chunk writes its pieces, and the rest follows on. */
  lemma ChunkWritten(was: Files, files: Files, ws: seq<Write>, segment: nat, at: nat, size: nat, a: nat, b: nat)
    requires 0 < size && a < b <= |ws| && EvenRun(ws[a..], segment, at, size)
    requires files == WriteAll(was, ws[..a])
    ensures var data := Concat(Datas(ws[a..b]));
      && 0 < |data|
      && WriteOne(files, Write(segment, at, data)) == WriteAll(was, ws[..b])
      && EvenRun(ws[b..], segment, at + |data|, size)
  {
    var chunk := ws[a..b];
    ChunkOf(ws, segment, at, size, a, b);
    GatherRun(files, chunk);
    WriteAllAppend(was, ws[..a], chunk);
    assert ws[..b] == ws[..a] + chunk;
  }

  lemma ChunkOf(ws: seq<Write>, segment: nat, at: nat, size: nat, a: nat, b: nat)
    requires 0 < size && a < b <= |ws| && EvenRun(ws[a..], segment, at, size)
    ensures var chunk := ws[a..b]; var data := Concat(Datas(chunk));
      && Run(chunk) && chunk[0].segment == segment && chunk[0].offset == at
      && data == Flat(chunk) && 0 < |data|
      && EvenRun(ws[b..], segment, at + |data|, size)
  {
    var chunk := ws[a..b];
    assert ws[a..][..b - a] == chunk && ws[a..][b - a..] == ws[b..];
    EvenRunTake(ws[a..], segment, at, size, b - a);
    EvenRunIsRun(chunk, segment, at, size);
    EvenRunDrop(ws[a..], segment, at, size, b - a);
    ConcatFlat(Datas(chunk), chunk);
    FlatLength(chunk, size);
    assert |Flat(chunk)| >= |chunk[0].data|;
  }

  /** A chunk cut short leaves the first entries and part of the next. */
  lemma ChunkCut(was: Files, files: Files, ws: seq<Write>, segment: nat, at: nat, size: nat, a: nat, b: nat, n: nat)
    returns (done: nat, rest: nat)
    requires 0 < size && a < b <= |ws| && EvenRun(ws[a..], segment, at, size)
    requires files == WriteAll(was, ws[..a]) && n < |Concat(Datas(ws[a..b]))|
    ensures done < |ws| && rest < |ws[done].data|
    ensures WriteOne(files, Write(segment, at, Concat(Datas(ws[a..b]))[..n])) == WriteCut(was, ws, done, rest)
  {
    var chunk := ws[a..b];
    ChunkOf(ws, segment, at, size, a, b);
    var d, r := GatherCut(files, chunk, n);
    done, rest := a + d, r;
    CutFurther(was, ws, a, b, d, r);
  }

  lemma CutFurther(was: Files, ws: seq<Write>, a: nat, b: nat, d: nat, r: nat)
    requires a < b <= |ws| && d < b - a && r <= |ws[a + d].data|
    ensures WriteCut(WriteAll(was, ws[..a]), ws[a..b], d, r) == WriteCut(was, ws, a + d, r)
  {
    WriteAllAppend(was, ws[..a], ws[a..b][..d]);
    assert ws[..a + d] == ws[..a] + ws[a..b][..d];
  }

  /** One gathered write of the buffers `a` to `b`. */
  method WriteChunk(disk: Disk, segment: nat, chunk: seq<Bytes>, at: nat, ghost was: Files, ghost ws: seq<Write>,
                    ghost size: nat, ghost a: nat, ghost b: nat)
    returns (ok: bool, ghost done: nat, ghost rest: nat)
    requires 0 < size && a < b <= |ws| && EvenRun(ws[a..], segment, at, size)
    requires chunk == Datas(ws[a..b]) && disk.files == WriteAll(was, ws[..a])
    modifies disk`files
    ensures ok ==> disk.files == WriteAll(was, ws[..b]) && EvenRun(ws[b..], segment, at + |Concat(chunk)|, size)
    ensures !ok ==> segment in disk.faulty && done < |ws| && rest < |ws[done].data| && disk.files == WriteCut(was, ws, done, rest)
  {
    ghost var before := disk.files;
    ChunkWritten(was, before, ws, segment, at, size, a, b);
    var data := Concat(chunk);
    var written := disk.Pwritev(segment, chunk, at);
    ok := written == |data|;
    done, rest := Written(was, before, ws, segment, at, size, a, b, data, written);
  }

  /** What a gathered write that took `n` bytes, or failed, has written. */
  lemma Written(was: Files, files: Files, ws: seq<Write>, segment: nat, at: nat, size: nat, a: nat, b: nat, data: Bytes, n: int)
    returns (done: nat, rest: nat)
    requires 0 < size && a < b <= |ws| && EvenRun(ws[a..], segment, at, size)
    requires files == WriteAll(was, ws[..a]) && data == Concat(Datas(ws[a..b])) && n <= |data|
    ensures n == |data| ==> data[..n] == data
    ensures n < |data| ==>
              && done < |ws| && rest < |ws[done].data|
              && WriteOne(files, Write(segment, at, data[..if n < 0 then 0 else n])) == WriteCut(was, ws, done, rest)
  {
    done, rest := 0, 0;
    if n < |data| {
      done, rest := ChunkCut(was, files, ws, segment, at, size, a, b, if n < 0 then 0 else n);
    }
  }

  /** Writes the buffers in chunks of at most `iovMax`; a short or failed write stops it. */
  method PwritevAll(disk: Disk, segment: nat, buffers: seq<Bytes>, offset: nat, iovMax: nat, ghost size: nat, ghost ws: seq<Write>)
    returns (ok: bool, ghost done: nat, ghost rest: nat)
    requires 0 < iovMax && 0 < size && EvenRun(ws, segment, offset, size) && buffers == Datas(ws)
    modifies disk`files
    ensures ok ==> disk.files == WriteAll(old(disk.files), ws)
    ensures !ok ==>
              && segment in disk.faulty
              && done < |ws| && rest < |ws[done].data| && disk.files == WriteCut(old(disk.files), ws, done, rest)
  {
    var start, at: nat := 0, offset;
    ok, done, rest := true, 0, 0;
    assert ws[0..] == ws;
    while start < |buffers|
      invariant start <= |buffers| && EvenRun(ws[start..], segment, at, size)
      invariant ok && disk.files == WriteAll(old(disk.files), ws[..start])
    {
      var end := if start + iovMax < |buffers| then start + iovMax else |buffers|;
      var chunk := buffers[start..end];
      DatasSlice(ws, start, end);
      ok, done, rest := WriteChunk(disk, segment, chunk, at, old(disk.files), ws, size, start, end);
      if !ok {
        return;
      }
      start, at := end, at + |Concat(chunk)|;
    }
    assert ws[..start] == ws;
  }

  /* ---- reading ---- */

  lemma ScatterTwice(files: Files, before: seq<Bytes>, now: seq<Bytes>, after: seq<Bytes>,
                     segment: nat, offset: nat, blocks: seq<nat>, a: nat, b: nat, size: nat)
    requires a <= b <= |blocks|
    requires ScatterDone(files, before, now, Scatter(segment, offset, blocks[..a], size))
    requires ScatterDone(files, now, after, Scatter(segment, offset + a * size, blocks[a..b], size))
    ensures ScatterDone(files, before, after, Scatter(segment, offset, blocks[..b], size))
  {
    var x, y := Scatter(segment, offset, blocks[..a], size), Scatter(segment, offset + a * size, blocks[a..b], size);
    ScatterSlices(segment, offset, blocks, a, b, size);
    ScatterBoth(files, before, now, after, x, y);
  }

  lemma ScatterSlices(segment: nat, offset: nat, blocks: seq<nat>, a: nat, b: nat, size: nat)
    requires a <= b <= |blocks|
    ensures Scatter(segment, offset, blocks[..b], size)
         == Scatter(segment, offset, blocks[..a], size) + Scatter(segment, offset + a * size, blocks[a..b], size)
  {
    ScatterAppend(segment, offset, blocks[..a], blocks[a..b], size);
    assert blocks[..b] == blocks[..a] + blocks[a..b];
  }

  /** Where all blocks can be read, those of a chunk can. */
  lemma ChunkReadable(files: Files, rows: nat, segment: nat, offset: nat, blocks: seq<nat>, a: nat, b: nat, size: nat)
    requires a <= b <= |blocks|
    ensures CanRead(files, rows, Scatter(segment, offset, blocks, size)) ==>
              CanRead(files, rows, Scatter(segment, offset + a * size, blocks[a..b], size))
  {
    ScatterSlices(segment, offset, blocks, a, b, size);
    ScatterSlices(segment, offset, blocks, b, |blocks|, size);
    assert blocks[..|blocks|] == blocks;
  }

  lemma ScatterBoth(files: Files, before: seq<Bytes>, now: seq<Bytes>, after: seq<Bytes>, x: seq<Read>, y: seq<Read>)
    requires ScatterDone(files, before, now, x) && ScatterDone(files, now, after, y)
    ensures ScatterDone(files, before, after, x + y)
  {
    ReadEachAppend(files, before, x, y);
  }

  lemma KeptTwice(was: seq<Bytes>, now: seq<Bytes>, later: seq<Bytes>, chunk: seq<nat>, blocks: seq<nat>)
    requires OtherRowsKept(was, now, blocks) && OtherRowsKept(now, later, chunk) && forall b :: b in chunk ==> b in blocks
    ensures OtherRowsKept(was, later, blocks)
  {
  }

  /** Reads consecutive blocks into the rows in chunks of at most `iovMax`; a short or failed read stops it. */
  method PreadvAll(disk: Disk, segment: nat, view: array<Bytes>, blocks: seq<nat>, offset: nat, iovMax: nat, size: nat)
    returns (ok: bool)
    requires 0 < iovMax && 0 < size
    requires (forall b :: b in blocks ==> b < view.Length) && RowsSized(view[..], size)
    modifies view
    ensures ok ==> ScatterDone(disk.files, old(view[..]), view[..], Scatter(segment, offset, blocks, size))
    ensures OtherRowsKept(old(view[..]), view[..], blocks) && RowsSized(view[..], size)
    ensures !ok ==> segment in disk.faulty || !CanRead(disk.files, view.Length, Scatter(segment, offset, blocks, size))
  {
    var start, at := 0, offset;
    while start < |blocks|
      invariant start <= |blocks| && at == offset + start * size
      invariant ScatterDone(disk.files, old(view[..]), view[..], Scatter(segment, offset, blocks[..start], size))
      invariant OtherRowsKept(old(view[..]), view[..], blocks) && RowsSized(view[..], size)
    {
      var end := if start + iovMax < |blocks| then start + iovMax else |blocks|;
      var chunk := blocks[start..end];
      ghost var now := view[..];
      assert forall b :: b in chunk ==> b in blocks;
      var bytesRead := disk.Preadv(segment, at, view, chunk, size);
      KeptTwice(old(view[..]), now, view[..], chunk, blocks);
      ChunkReadable(disk.files, view.Length, segment, offset, blocks, start, end, size);
      if bytesRead != |chunk| * size {
        return false;
      }
      ScatterTwice(disk.files, old(view[..]), now, view[..], segment, offset, blocks, start, end, size);
      at := at + bytesRead;
      Divisions.Distribute(size, start, end - start);
      start := end;
    }
    assert blocks[..start] == blocks;
    ok := true;
  }
}
