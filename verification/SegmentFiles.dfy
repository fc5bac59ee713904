/** The bytes of the segment files, and the vectored system calls that touch them.
    A segment without a file and a segment with an empty file read the same way
    (both fail), so a file is in the map only once it holds a byte. */
module SegmentFiles {
  import opened Basics

  type Files = map<nat, Bytes>

  /** A byte range of one segment file. */
  datatype Location = Location(segment: nat, offset: nat, length: nat) {
    predicate Disjoint(other: Location) {
      || segment != other.segment
      || offset + length <= other.offset
      || other.offset + other.length <= offset
    }
  }

  /** Bytes bound for one place of one segment file. */
  datatype Write = Write(segment: nat, offset: nat, data: Bytes) {
    function Target(): Location { Location(segment, offset, |data|) }
  }

  function File(files: Files, segment: nat): Bytes {
    if segment in files then files[segment] else []
  }

  function PwriteByte(file: Bytes, offset: nat, data: Bytes, i: nat): Byte {
    if offset <= i < offset + |data| then data[i - offset] else if i < |file| then file[i] else 0
  }

  function PwriteLength(file: Bytes, end: nat): nat {
    if |file| < end then end else |file|
  }

  /** One positioned write: a gap before it reads as zeros, and writing nothing changes nothing. */
  function Pwrite(file: Bytes, offset: nat, data: Bytes): Bytes {
    if data == [] then file
    else seq(PwriteLength(file, offset + |data|), i requires 0 <= i => PwriteByte(file, offset, data, i))
  }

  lemma PwriteFacts(file: Bytes, offset: nat, data: Bytes)
    requires data != []
    ensures |Pwrite(file, offset, data)| == PwriteLength(file, offset + |data|)
    ensures forall i: nat :: i < |Pwrite(file, offset, data)| ==> Pwrite(file, offset, data)[i] == PwriteByte(file, offset, data, i)
  {
  }

  lemma PwriteByteTwice(file: Bytes, first: Bytes, offset: nat, a: Bytes, b: Bytes, i: nat)
    requires |first| == PwriteLength(file, offset + |a|)
    requires i < |first| ==> first[i] == PwriteByte(file, offset, a, i)
    ensures PwriteByte(first, offset + |a|, b, i) == PwriteByte(file, offset, a + b, i)
  {
    if offset <= i < offset + |a| {
      assert (a + b)[i - offset] == a[i - offset];
    } else if offset + |a| <= i < offset + |a| + |b| {
      assert (a + b)[i - offset] == b[i - offset - |a|];
    }
  }

  lemma PwriteTwice(file: Bytes, offset: nat, a: Bytes, b: Bytes)
    ensures Pwrite(Pwrite(file, offset, a), offset + |a|, b) == Pwrite(file, offset, a + b)
  {
    if a == [] {
      assert a + b == b;
    } else if b == [] {
      assert a + b == a;
    } else {
      PwriteBoth(file, Pwrite(file, offset, a), offset, a, b);
    }
  }

  lemma PwriteBoth(file: Bytes, first: Bytes, offset: nat, a: Bytes, b: Bytes)
    requires a != [] && b != [] && first == Pwrite(file, offset, a)
    ensures Pwrite(first, offset + |a|, b) == Pwrite(file, offset, a + b)
  {
    PwriteFacts(file, offset, a);
    PwriteFacts(first, offset + |a|, b);
    PwriteFacts(file, offset, a + b);
    forall i: nat | i < |Pwrite(file, offset, a + b)|
      ensures Pwrite(first, offset + |a|, b)[i] == Pwrite(file, offset, a + b)[i]
    {
      PwriteByteTwice(file, first, offset, a, b, i);
    }
  }

  predicate Readable(files: Files, at: Location) {
    at.segment in files && at.offset + at.length <= |files[at.segment]|
  }

  function BytesAt(files: Files, at: Location): Bytes
    requires Readable(files, at)
  {
    files[at.segment][at.offset..at.offset + at.length]
  }

  /* ---- writing ---- */

  function WriteOne(files: Files, w: Write): Files {
    if w.data == [] then files
    else files[w.segment := Pwrite(File(files, w.segment), w.offset, w.data)]
  }

  /** The plain form of a store: one positioned write after the other. */
  function WriteAll(files: Files, ws: seq<Write>): Files
    decreases |ws|
  {
    if ws == [] then files else WriteAll(WriteOne(files, ws[0]), ws[1..])
  }

  /** What an interrupted store leaves: the first `done` writes and `rest` bytes of the next. */
  function WriteCut(files: Files, ws: seq<Write>, done: nat, rest: nat): Files
    requires done < |ws| && rest <= |ws[done].data|
  {
    WriteOne(WriteAll(files, ws[..done]), ws[done].(data := ws[done].data[..rest]))
  }

  lemma {:induction false} WriteAllAppend(files: Files, a: seq<Write>, b: seq<Write>)
    ensures WriteAll(files, a + b) == WriteAll(WriteAll(files, a), b)
    decreases |a|
  {
    if a == [] {
      assert a + b == b;
    } else {
      assert (a + b)[1..] == a[1..] + b;
      WriteAllAppend(WriteOne(files, a[0]), a[1..], b);
    }
  }

  /** A write leaves its own bytes behind. */
  lemma WriteOneReads(files: Files, w: Write)
    requires w.data != []
    ensures Readable(WriteOne(files, w), w.Target())
    ensures BytesAt(WriteOne(files, w), w.Target()) == w.data
  {
  }

  /** A write keeps every byte range that it does not overlap. */
  lemma WriteOneKeeps(files: Files, w: Write, at: Location)
    requires Readable(files, at) && at.Disjoint(w.Target())
    ensures Readable(WriteOne(files, w), at)
    ensures BytesAt(WriteOne(files, w), at) == BytesAt(files, at)
  {
  }

  predicate PairwiseDisjoint(ats: seq<Location>) {
    forall i, j :: 0 <= i < j < |ats| ==> ats[i].Disjoint(ats[j])
  }

  lemma {:induction false} WriteAllKeeps(files: Files, ws: seq<Write>, at: Location)
    requires Readable(files, at)
    requires forall w :: w in ws ==> at.Disjoint(w.Target())
    ensures Readable(WriteAll(files, ws), at)
    ensures BytesAt(WriteAll(files, ws), at) == BytesAt(files, at)
    decreases |ws|
  {
    if ws != [] {
      WriteOneKeeps(files, ws[0], at);
      WriteAllKeeps(WriteOne(files, ws[0]), ws[1..], at);
    }
  }

  /** After disjoint writes, every target holds its data. */
  lemma {:induction false} WriteAllReads(files: Files, ws: seq<Write>, k: nat)
    requires k < |ws| && ws[k].data != []
    requires forall i, j :: 0 <= i < j < |ws| ==> ws[i].Target().Disjoint(ws[j].Target())
    ensures Readable(WriteAll(files, ws), ws[k].Target())
    ensures BytesAt(WriteAll(files, ws), ws[k].Target()) == ws[k].data
    decreases k
  {
    var next := WriteOne(files, ws[0]);
    if k == 0 {
      WriteOneReads(files, ws[0]);
      WriteAllKeeps(next, ws[1..], ws[0].Target());
    } else {
      WriteAllReads(next, ws[1..], k - 1);
    }
  }

  function OfSegment(ws: seq<Write>, segment: nat): seq<Write> {
    if ws == [] then []
    else (if ws[0].segment == segment then [ws[0]] else []) + OfSegment(ws[1..], segment)
  }

  lemma {:induction false} WriteAllSegment(files: Files, ws: seq<Write>, segment: nat)
    ensures File(WriteAll(files, ws), segment) == File(WriteAll(files, OfSegment(ws, segment)), segment)
    ensures (segment in WriteAll(files, ws)) == (segment in WriteAll(files, OfSegment(ws, segment)))
    decreases |ws|
  {
    if ws != [] {
      var next := WriteOne(files, ws[0]);
      var rest := OfSegment(ws[1..], segment);
      WriteAllSegment(next, ws[1..], segment);
      if ws[0].segment == segment {
        assert OfSegment(ws, segment)[1..] == rest;
      } else {
        OfSegmentOnly(ws[1..], segment);
        assert OfSegment(ws, segment) == rest;
        SameFile(files, next, rest, segment);
      }
    }
  }

  lemma {:induction false} OfSegmentOnly(ws: seq<Write>, segment: nat)
    ensures forall w :: w in OfSegment(ws, segment) ==> w.segment == segment && w in ws
  {
    if ws != [] {
      OfSegmentOnly(ws[1..], segment);
    }
  }

  lemma {:induction false} SameFile(f: Files, g: Files, ws: seq<Write>, segment: nat)
    requires (segment in f) == (segment in g) && File(f, segment) == File(g, segment)
    requires forall w :: w in ws ==> w.segment == segment
    ensures File(WriteAll(f, ws), segment) == File(WriteAll(g, ws), segment)
    ensures (segment in WriteAll(f, ws)) == (segment in WriteAll(g, ws))
    decreases |ws|
  {
    if ws != [] {
      SameFile(WriteOne(f, ws[0]), WriteOne(g, ws[0]), ws[1..], segment);
    }
  }

  /** Writes to different segments commute: whatever the interleaving of two runs of writes,
      the files only depend on the order of the writes within each segment. */
  lemma InterleavingIrrelevant(files: Files, a: seq<Write>, b: seq<Write>)
    requires forall segment: nat :: OfSegment(a, segment) == OfSegment(b, segment)
    ensures WriteAll(files, a) == WriteAll(files, b)
  {
    forall segment: nat
      ensures (segment in WriteAll(files, a)) == (segment in WriteAll(files, b))
      ensures File(WriteAll(files, a), segment) == File(WriteAll(files, b), segment)
    {
      WriteAllSegment(files, a, segment);
      WriteAllSegment(files, b, segment);
      assert OfSegment(a, segment) == OfSegment(b, segment);
    }
    assert WriteAll(files, a).Keys == WriteAll(files, b).Keys;
    forall segment | segment in WriteAll(files, a)
      ensures WriteAll(files, a)[segment] == WriteAll(files, b)[segment]
    {
      assert File(WriteAll(files, a), segment) == File(WriteAll(files, b), segment);
    }
  }

  /* ---- runs: writes that continue each other in one segment ---- */

  predicate Run(ws: seq<Write>) {
    |ws| <= 1 || (
      && ws[1].segment == ws[0].segment && ws[1].offset == ws[0].offset + |ws[0].data|
      && Run(ws[1..]))
  }

  function Flat(ws: seq<Write>): Bytes {
    if ws == [] then [] else ws[0].data + Flat(ws[1..])
  }

  lemma {:induction false} FlatAppend(a: seq<Write>, b: seq<Write>)
    ensures Flat(a + b) == Flat(a) + Flat(b)
  {
    if a == [] {
      assert a + b == b;
    } else {
      assert (a + b)[1..] == a[1..] + b;
      FlatAppend(a[1..], b);
    }
  }

  lemma {:induction false} FlatLength(ws: seq<Write>, size: nat)
    requires forall w :: w in ws ==> |w.data| == size
    ensures |Flat(ws)| == |ws| * size
  {
    if ws != [] {
      FlatLength(ws[1..], size);
      assert |ws[0].data| == size;
      assert |ws| * size == size + (|ws| - 1) * size;
    }
  }

  /** Gathering a whole run into one write is writing it piece by piece. */
  lemma {:induction false} GatherRun(files: Files, ws: seq<Write>)
    requires ws != [] && Run(ws)
    ensures WriteOne(files, Write(ws[0].segment, ws[0].offset, Flat(ws))) == WriteAll(files, ws)
    decreases |ws|
  {
    var w := ws[0];
    if |ws| == 1 {
      assert Flat(ws) == w.data;
    } else {
      GatherRun(WriteOne(files, w), ws[1..]);
      GatherTwo(files, w, Flat(ws[1..]));
    }
  }

  lemma GatherTwo(files: Files, w: Write, more: Bytes)
    ensures WriteOne(WriteOne(files, w), Write(w.segment, w.offset + |w.data|, more))
         == WriteOne(files, w.(data := w.data + more))
  {
    PwriteTwice(File(files, w.segment), w.offset, w.data, more);
    if w.data == [] {
      assert w.data + more == more;
    } else if more == [] {
      assert w.data + more == w.data;
    } else {
      var f, g := WriteOne(WriteOne(files, w), Write(w.segment, w.offset + |w.data|, more)), WriteOne(files, w.(data := w.data + more));
      assert f[w.segment] == g[w.segment];
    }
  }

  lemma CutStep(files: Files, ws: seq<Write>, done: nat, rest: nat)
    requires 0 < done < |ws| && rest <= |ws[done].data|
    ensures WriteCut(WriteOne(files, ws[0]), ws[1..], done - 1, rest) == WriteCut(files, ws, done, rest)
  {
    assert ws[..done][1..] == ws[1..][..done - 1];
    assert ws[..done][0] == ws[0];
  }

  /** A gathered write cut short after `n` bytes leaves the first pieces and part of the next one. */
  lemma {:induction false} GatherCut(files: Files, ws: seq<Write>, n: nat) returns (done: nat, rest: nat)
    requires ws != [] && Run(ws) && n < |Flat(ws)|
    ensures done < |ws| && rest < |ws[done].data|
    ensures WriteOne(files, Write(ws[0].segment, ws[0].offset, Flat(ws)[..n])) == WriteCut(files, ws, done, rest)
    decreases |ws|
  {
    if n < |ws[0].data| {
      done, rest := 0, n;
      CutFirst(files, ws, n);
    } else {
      var m := n - |ws[0].data|;
      LongerThanFirst(ws, n);
      var d, r := GatherCut(WriteOne(files, ws[0]), ws[1..], m);
      done, rest := d + 1, r;
      CutLater(files, ws, m, done, rest);
    }
  }

  lemma LongerThanFirst(ws: seq<Write>, n: nat)
    requires ws != [] && |ws[0].data| <= n < |Flat(ws)|
    ensures |ws| > 1 && ws[1..][0] == ws[1] && n - |ws[0].data| < |Flat(ws[1..])|
  {
    assert Flat(ws) == ws[0].data + Flat(ws[1..]);
  }

  lemma CutFirst(files: Files, ws: seq<Write>, n: nat)
    requires ws != [] && n < |ws[0].data|
    ensures n < |Flat(ws)| && WriteOne(files, ws[0].(data := Flat(ws)[..n])) == WriteCut(files, ws, 0, n)
  {
    assert Flat(ws)[..n] == ws[0].data[..n];
    assert ws[..0] == [];
  }

  lemma CutLater(files: Files, ws: seq<Write>, m: nat, done: nat, rest: nat)
    requires |ws| > 1 && m < |Flat(ws[1..])| && ws[1].segment == ws[0].segment && ws[1].offset == ws[0].offset + |ws[0].data|
    requires 0 < done < |ws| && rest <= |ws[done].data|
    requires WriteOne(WriteOne(files, ws[0]), ws[1].(data := Flat(ws[1..])[..m])) == WriteCut(WriteOne(files, ws[0]), ws[1..], done - 1, rest)
    ensures |ws[0].data| + m < |Flat(ws)|
    ensures WriteOne(files, ws[0].(data := Flat(ws)[..|ws[0].data| + m])) == WriteCut(files, ws, done, rest)
  {
    CutStep(files, ws, done, rest);
    CutOfFlat(files, ws[0], ws[1], Flat(ws[1..]), m);
    assert Flat(ws) == ws[0].data + Flat(ws[1..]);
  }

  lemma CutOfFlat(files: Files, w: Write, next: Write, more: Bytes, m: nat)
    requires m < |more| && next.segment == w.segment && next.offset == w.offset + |w.data|
    ensures WriteOne(WriteOne(files, w), next.(data := more[..m])) == WriteOne(files, w.(data := (w.data + more)[..|w.data| + m]))
  {
    PrefixOfBoth(w.data, more, m);
    GatherTwo(files, w, more[..m]);
  }

  lemma PrefixOfBoth(a: Bytes, b: Bytes, m: nat)
    requires m <= |b|
    ensures (a + b)[..|a| + m] == a + b[..m]
  {
  }
}
