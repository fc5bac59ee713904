/** How a load job is split into tasks: one for each key in a file of its own, one for each segment. */
module LoadTasks {
  import opened Basics
  import opened Wrappers
  import opened SegmentFiles
  import opened SegmentAllocation

  datatype Place = InFile | InSegment(at: Location)

  datatype LoadEntry = LoadEntry(key: Key, block: nat, place: Place)

  function EntryOf(key: Key, block: nat, found: Option<Location>): LoadEntry {
    LoadEntry(key, block, match found case None => InFile case Some(at) => InSegment(at))
  }

  predicate SameSegment(group: seq<LoadEntry>, segment: nat) {
    group != [] && group[0].place.InSegment? && group[0].place.at.segment == segment
  }

  /** Appends an entry to the group of its segment, or starts a new group at the end. */
  function AddEntry(groups: seq<seq<LoadEntry>>, e: LoadEntry, segment: nat): seq<seq<LoadEntry>> {
    if groups == [] then [[e]]
    else if SameSegment(groups[0], segment) then [groups[0] + [e]] + groups[1..]
    else [groups[0]] + AddEntry(groups[1..], e, segment)
  }

  /** The file tasks and the segment tasks of a job. */
  function Split(keys: seq<Key>, blocks: seq<nat>, found: seq<Option<Location>>): (seq<seq<LoadEntry>>, seq<seq<LoadEntry>>)
    requires |keys| == |blocks| == |found|
  {
    if keys == [] then ([], [])
    else
      var n := |keys| - 1;
      var (files, groups) := Split(keys[..n], blocks[..n], found[..n]);
      var e := EntryOf(keys[n], blocks[n], found[n]);
      match found[n]
      case None => (files + [[e]], groups)
      case Some(at) => (files, AddEntry(groups, e, at.segment))
  }

  function TasksFor(keys: seq<Key>, blocks: seq<nat>, found: seq<Option<Location>>): seq<seq<LoadEntry>>
    requires |keys| == |blocks| == |found|
  {
    Split(keys, blocks, found).0 + Split(keys, blocks, found).1
  }

  /** A load pairs its keys and blocks up to the shorter list. */
  function Pairs(keys: seq<Key>, blocks: seq<nat>): nat {
    if |keys| < |blocks| then |keys| else |blocks|
  }

  predicate InSome(tasks: seq<seq<LoadEntry>>, e: LoadEntry) {
    exists i: nat :: i < |tasks| && e in tasks[i]
  }

  lemma InSomeCons(task: seq<LoadEntry>, tasks: seq<seq<LoadEntry>>, e: LoadEntry)
    ensures InSome([task] + tasks, e) <==> e in task || InSome(tasks, e)
  {
    var all := [task] + tasks;
    if e in task {
      assert e in all[0];
    }
    if i: nat :| i < |tasks| && e in tasks[i] {
      assert e in all[i + 1];
    }
    if i: nat :| i < |all| && e in all[i] {
      assert i > 0 ==> e in tasks[i - 1];
    }
  }

  lemma InSomeAppend(a: seq<seq<LoadEntry>>, b: seq<seq<LoadEntry>>, e: LoadEntry)
    ensures InSome(a + b, e) <==> InSome(a, e) || InSome(b, e)
  {
    var all := a + b;
    if i: nat :| i < |a| && e in a[i] {
      assert e in all[i];
    }
    if i: nat :| i < |b| && e in b[i] {
      assert e in all[|a| + i];
    }
    if i: nat :| i < |all| && e in all[i] {
      assert i >= |a| ==> e in b[i - |a|];
    }
  }

  lemma {:induction false} AddEntryMembers(groups: seq<seq<LoadEntry>>, e: LoadEntry, segment: nat, x: LoadEntry)
    ensures InSome(AddEntry(groups, e, segment), x) <==> InSome(groups, x) || x == e
  {
    if groups == [] {
      InSomeCons([e], [], x);
    } else {
      assert groups == [groups[0]] + groups[1..];
      InSomeCons(groups[0], groups[1..], x);
      if SameSegment(groups[0], segment) {
        InSomeCons(groups[0] + [e], groups[1..], x);
      } else {
        InSomeCons(groups[0], AddEntry(groups[1..], e, segment), x);
        AddEntryMembers(groups[1..], e, segment, x);
      }
    }
  }

  predicate Asked(keys: seq<Key>, blocks: seq<nat>, found: seq<Option<Location>>, e: LoadEntry)
    requires |keys| == |blocks| == |found|
  {
    exists i: nat :: i < |keys| && e == EntryOf(keys[i], blocks[i], found[i])
  }

  lemma AskedNext(keys: seq<Key>, blocks: seq<nat>, found: seq<Option<Location>>, e: LoadEntry)
    requires |keys| == |blocks| == |found| && keys != []
    ensures var n := |keys| - 1;
      Asked(keys, blocks, found, e)
      <==> Asked(keys[..n], blocks[..n], found[..n], e) || e == EntryOf(keys[n], blocks[n], found[n])
  {
    var n := |keys| - 1;
    if i: nat :| i < |keys| && e == EntryOf(keys[i], blocks[i], found[i]) {
      assert i < n ==> e == EntryOf(keys[..n][i], blocks[..n][i], found[..n][i]);
    }
    if i: nat :| i < n && e == EntryOf(keys[..n][i], blocks[..n][i], found[..n][i]) {
      assert e == EntryOf(keys[i], blocks[i], found[i]);
    }
  }

  /** The tasks of a load cover its keys, each with its block and where it was found, and nothing else. */
  lemma {:induction false} TasksCoverJob(keys: seq<Key>, blocks: seq<nat>, found: seq<Option<Location>>, e: LoadEntry)
    requires |keys| == |blocks| == |found|
    ensures InSome(TasksFor(keys, blocks, found), e) <==> Asked(keys, blocks, found, e)
  {
    if keys != [] {
      var n := |keys| - 1;
      var (files, groups) := Split(keys[..n], blocks[..n], found[..n]);
      var last := EntryOf(keys[n], blocks[n], found[n]);
      TasksCoverJob(keys[..n], blocks[..n], found[..n], e);
      InSomeAppend(files, groups, e);
      AskedNext(keys, blocks, found, e);
      match found[n] {
        case None =>
          InSomeAppend(files + [[last]], groups, e);
          InSomeAppend(files, [[last]], e);
          InSomeCons([last], [], e);
        case Some(at) =>
          InSomeAppend(files, AddEntry(groups, last, at.segment), e);
          AddEntryMembers(groups, last, at.segment, e);
      }
    }
  }

  /* ---- one task for each segment ---- */

  predicate OfOneSegment(group: seq<LoadEntry>, segment: nat) {
    group != [] && forall e :: e in group ==> e.place.InSegment? && e.place.at.segment == segment
  }

  function SegmentOf(group: seq<LoadEntry>): nat {
    if group != [] && group[0].place.InSegment? then group[0].place.at.segment else 0
  }

  /** Every group is one segment's, and no two groups are the same segment's. */
  predicate BySegment(groups: seq<seq<LoadEntry>>) {
    && (forall i :: 0 <= i < |groups| ==> OfOneSegment(groups[i], SegmentOf(groups[i])))
    && (forall i, j :: 0 <= i < j < |groups| ==> SegmentOf(groups[i]) != SegmentOf(groups[j]))
  }

  lemma {:induction false} AddEntryBySegment(groups: seq<seq<LoadEntry>>, e: LoadEntry, segment: nat)
    requires BySegment(groups) && e.place.InSegment? && e.place.at.segment == segment
    ensures BySegment(AddEntry(groups, e, segment))
    ensures forall group: seq<LoadEntry> :: group in AddEntry(groups, e, segment) ==>
              SegmentOf(group) == segment || exists was :: was in groups && SegmentOf(was) == SegmentOf(group)
  {
    if groups != [] && !SameSegment(groups[0], segment) {
      var rest := AddEntry(groups[1..], e, segment);
      AddEntryBySegment(groups[1..], e, segment);
      assert SegmentOf(groups[0]) != segment by {
        assert OfOneSegment(groups[0], SegmentOf(groups[0]));
        assert groups[0][0] in groups[0];
      }
      forall j | 0 <= j < |rest| ensures SegmentOf(groups[0]) != SegmentOf(rest[j]) {
        assert rest[j] in rest;
        if SegmentOf(rest[j]) != segment {
          var g :| g in groups[1..] && SegmentOf(g) == SegmentOf(rest[j]);
          var i :| 0 <= i < |groups[1..]| && groups[1..][i] == g;
          assert groups[i + 1] == g;
        }
      }
    }
  }

  /** A load reads each segment in one task. */
  lemma {:induction false} SegmentsReadOnce(keys: seq<Key>, blocks: seq<nat>, found: seq<Option<Location>>)
    requires |keys| == |blocks| == |found|
    ensures BySegment(Split(keys, blocks, found).1)
    ensures forall task: seq<LoadEntry> :: task in Split(keys, blocks, found).0 ==> |task| == 1 && task[0].place.InFile?
  {
    if keys != [] {
      var n := |keys| - 1;
      SegmentsReadOnce(keys[..n], blocks[..n], found[..n]);
      match found[n]
      case None =>
      case Some(at) =>
        AddEntryBySegment(Split(keys[..n], blocks[..n], found[..n]).1, EntryOf(keys[n], blocks[n], found[n]), at.segment);
    }
  }

  /* ---- one task for each row ---- */

  predicate SelfApart(task: seq<LoadEntry>) {
    forall x, y :: x in task && y in task && x.block == y.block ==> x == y
  }

  ghost predicate NoneShared(task: seq<LoadEntry>, tasks: seq<seq<LoadEntry>>) {
    forall x, y :: x in task && InSome(tasks, y) ==> x.block != y.block
  }

  /** No two entries, of one task or of two, have the same row. */
  ghost predicate RowsApart(tasks: seq<seq<LoadEntry>>) {
    tasks == [] || (SelfApart(tasks[0]) && NoneShared(tasks[0], tasks[1..]) && RowsApart(tasks[1..]))
  }

  ghost predicate NewRow(tasks: seq<seq<LoadEntry>>, e: LoadEntry) {
    forall x :: InSome(tasks, x) ==> x.block != e.block
  }

  lemma {:induction false} AddEntryApart(groups: seq<seq<LoadEntry>>, e: LoadEntry, segment: nat)
    requires RowsApart(groups) && NewRow(groups, e)
    ensures RowsApart(AddEntry(groups, e, segment))
  {
    if groups == [] {
      assert forall x :: !InSome([], x);
    } else {
      assert groups == [groups[0]] + groups[1..];
      forall x ensures InSome(groups, x) <==> x in groups[0] || InSome(groups[1..], x) {
        InSomeCons(groups[0], groups[1..], x);
      }
      if !SameSegment(groups[0], segment) {
        AddEntryApart(groups[1..], e, segment);
        forall x ensures InSome(AddEntry(groups[1..], e, segment), x) <==> InSome(groups[1..], x) || x == e {
          AddEntryMembers(groups[1..], e, segment, x);
        }
      }
    }
  }

  ghost predicate NoneInBoth(a: seq<seq<LoadEntry>>, b: seq<seq<LoadEntry>>) {
    forall x, y :: InSome(a, x) && InSome(b, y) ==> x.block != y.block
  }

  lemma {:induction false} AppendApart(a: seq<seq<LoadEntry>>, b: seq<seq<LoadEntry>>)
    requires RowsApart(a) && RowsApart(b) && NoneInBoth(a, b)
    ensures RowsApart(a + b)
  {
    if a == [] {
      assert a + b == b;
    } else {
      assert a == [a[0]] + a[1..];
      forall x ensures InSome(a, x) <==> x in a[0] || InSome(a[1..], x) {
        InSomeCons(a[0], a[1..], x);
      }
      AppendApart(a[1..], b);
      assert (a + b)[1..] == a[1..] + b;
      forall x ensures InSome(a[1..] + b, x) <==> InSome(a[1..], x) || InSome(b, x) {
        InSomeAppend(a[1..], b, x);
      }
    }
  }

  lemma {:induction false} AppendedApart(a: seq<seq<LoadEntry>>, b: seq<seq<LoadEntry>>)
    requires RowsApart(a + b)
    ensures RowsApart(a) && RowsApart(b) && NoneInBoth(a, b)
  {
    if a == [] {
      assert a + b == b;
      assert forall x :: !InSome(a, x);
    } else {
      assert a == [a[0]] + a[1..];
      forall x ensures InSome(a, x) <==> x in a[0] || InSome(a[1..], x) {
        InSomeCons(a[0], a[1..], x);
      }
      assert (a + b)[1..] == a[1..] + b;
      AppendedApart(a[1..], b);
      forall x ensures InSome(a[1..] + b, x) <==> InSome(a[1..], x) || InSome(b, x) {
        InSomeAppend(a[1..], b, x);
      }
    }
  }

  predicate Distinct(blocks: seq<nat>) {
    forall i, j :: 0 <= i < j < |blocks| ==> blocks[i] != blocks[j]
  }

  lemma NewRowOfJob(keys: seq<Key>, blocks: seq<nat>, found: seq<Option<Location>>)
    requires |keys| == |blocks| == |found| && keys != [] && Distinct(blocks)
    ensures var n := |keys| - 1;
      NewRow(TasksFor(keys[..n], blocks[..n], found[..n]), EntryOf(keys[n], blocks[n], found[n]))
  {
    var n := |keys| - 1;
    forall x | InSome(TasksFor(keys[..n], blocks[..n], found[..n]), x) ensures x.block != blocks[n] {
      TasksCoverJob(keys[..n], blocks[..n], found[..n], x);
      var i: nat :| i < n && x == EntryOf(keys[..n][i], blocks[..n][i], found[..n][i]);
    }
  }

  /** When the rows of a load are distinct, each row is in one task, for one entry. */
  lemma {:induction false} TasksApart(keys: seq<Key>, blocks: seq<nat>, found: seq<Option<Location>>)
    requires |keys| == |blocks| == |found| && Distinct(blocks)
    ensures RowsApart(TasksFor(keys, blocks, found))
  {
    if keys != [] {
      var n := |keys| - 1;
      var (files, groups) := Split(keys[..n], blocks[..n], found[..n]);
      var last := EntryOf(keys[n], blocks[n], found[n]);
      TasksApart(keys[..n], blocks[..n], found[..n]);
      NewRowOfJob(keys, blocks, found);
      match found[n]
      case None => InsertApart(files, groups, last);
      case Some(at) => AddApart(files, groups, last, at.segment);
    }
  }

  lemma InsertApart(files: seq<seq<LoadEntry>>, groups: seq<seq<LoadEntry>>, e: LoadEntry)
    requires RowsApart(files + groups) && NewRow(files + groups, e)
    ensures RowsApart(files + [[e]] + groups)
  {
    AppendedApart(files, groups);
    forall x ensures InSome(files + groups, x) <==> InSome(files, x) || InSome(groups, x) {
      InSomeAppend(files, groups, x);
    }
    forall x ensures InSome([[e]], x) <==> x == e {
      InSomeCons([e], [], x);
    }
    assert forall x :: !InSome([], x);
    assert RowsApart([[e]]);
    AppendApart(files, [[e]]);
    forall x ensures InSome(files + [[e]], x) <==> InSome(files, x) || x == e {
      InSomeAppend(files, [[e]], x);
    }
    AppendApart(files + [[e]], groups);
  }

  lemma AddApart(files: seq<seq<LoadEntry>>, groups: seq<seq<LoadEntry>>, e: LoadEntry, segment: nat)
    requires RowsApart(files + groups) && NewRow(files + groups, e)
    ensures RowsApart(files + AddEntry(groups, e, segment))
  {
    AppendedApart(files, groups);
    forall x ensures InSome(files + groups, x) <==> InSome(files, x) || InSome(groups, x) {
      InSomeAppend(files, groups, x);
    }
    AddEntryApart(groups, e, segment);
    forall x ensures InSome(AddEntry(groups, e, segment), x) <==> InSome(groups, x) || x == e {
      AddEntryMembers(groups, e, segment, x);
    }
    AppendApart(files, AddEntry(groups, e, segment));
  }

  lemma {:induction false} ApartFacts(tasks: seq<seq<LoadEntry>>, i: nat, j: nat, x: LoadEntry, y: LoadEntry)
    requires RowsApart(tasks) && i <= j < |tasks| && x in tasks[i] && y in tasks[j] && x.block == y.block
    ensures i == j && x == y
  {
    if i > 0 {
      ApartFacts(tasks[1..], i - 1, j - 1, x, y);
    } else if j > 0 {
      assert y in tasks[1..][j - 1];
      assert InSome(tasks[1..], y);
    }
  }
}
