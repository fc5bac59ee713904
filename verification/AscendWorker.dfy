/** The transfer worker: plans and checks a transfer, copies along its spans, and reports it once. */
module AscendWorkers {
  import opened Wrappers
  import opened CopyPlans
  import opened CopySpans
  import opened CopyTransfers

  type JobId = nat

  /** A transfer under way, with its number of bytes. */
  datatype Entry = Entry(job: JobId, size: nat)

  /** What asking for the event of a transfer gives: it may also raise. */
  datatype Event = NotDone | Done | Failed

  datatype TransferResult = TransferResult(job: JobId, success: bool, size: nat)

  datatype SubmitError = AlreadyPending | NoPlan(plan: PlanError) | NoSpans(span: SpanError)

  /** Lists which device block goes with which sub-block of which CPU block, for every layer. */
  method CopyPlan(spec: DeviceSpec, cpu: seq<int>, refs: seq<seq<Ref>>, factor: int) returns (r: Result<seq<Item>, PlanError>)
    ensures r.Ok? <==> Plannable(spec, cpu, refs, factor)
    ensures r.Ok? ==> r.value == Plan(spec, cpu, refs, factor)
  {
    if factor < 1 || |spec.sizes| != |refs| || |spec.logical| != |refs| {
      return Err(BadFactorOrGroups);
    }
    var deviceOffset: int, cpuOffset: int := 0, 0;
    var plan: seq<Item> := [];
    for g := 0 to |refs|
      invariant Counted(spec, g) && deviceOffset == DeviceOffset(spec, g) && cpuOffset == CpuOffset(spec, g, factor)
      invariant 0 <= deviceOffset <= |spec.blocks| && cpuOffset <= |cpu|
      invariant forall h: nat :: h < g ==> Fits(spec, cpu, h, factor)
      invariant plan == PlanItems(spec, cpu, refs, g, factor)
    {
      var size, logical := spec.sizes[g], spec.logical[g];
      if size < 0 || logical < 0 {
        return Err(NegativeSize);
      }
      assert Counted(spec, g + 1);
      var skip := logical % factor;
      var count := if size == 0 then 0 else (size + skip + factor - 1) / factor;
      assert count == ChunksOf(spec, g, factor);
      if deviceOffset + size > |spec.blocks| || cpuOffset + count > |cpu| {
        TooShort(spec, cpu, refs, factor, g);
        return Err(ListTooShort);
      }
      assert Fits(spec, cpu, g, factor);
      var items := PlanGroup(spec, cpu, refs[g], g, factor, deviceOffset, cpuOffset);
      plan := plan + items;
      deviceOffset := deviceOffset + size;
      cpuOffset := cpuOffset + count;
    }
    if deviceOffset != |spec.blocks| || cpuOffset != |cpu| {
      return Err(UnusedBlocks);
    }
    r := Ok(plan);
  }

  lemma TooShort(spec: DeviceSpec, cpu: seq<int>, refs: seq<seq<Ref>>, factor: int, g: nat)
    requires g < |refs| && 0 < factor && Counted(spec, g + 1)
    requires DeviceOffset(spec, g + 1) > |spec.blocks| || CpuOffset(spec, g + 1, factor) > |cpu|
    ensures !Plannable(spec, cpu, refs, factor)
  {
    if Plannable(spec, cpu, refs, factor) {
      PlannableFits(spec, cpu, refs, factor, g);
    }
  }

  method PlanGroup(spec: DeviceSpec, cpu: seq<int>, refs: seq<Ref>, g: nat, factor: nat, deviceOffset: nat, cpuOffset: nat)
    returns (items: seq<Item>)
    requires Fits(spec, cpu, g, factor) && deviceOffset == DeviceOffset(spec, g) && cpuOffset == CpuOffset(spec, g, factor)
    ensures items == GroupItems(spec, cpu, refs, g, factor)
  {
    items := [];
    var skip := spec.logical[g] % factor;
    for k := 0 to |refs|
      invariant items == GroupItems(spec, cpu, refs[..k], g, factor)
    {
      assert refs[..k + 1][..k] == refs[..k];
      ghost var before := items;
      for i := 0 to spec.sizes[g]
        invariant items == before + RefItems(spec, cpu, refs[k], g, i, factor)
      {
        var chunk := ChunkAt(spec.sizes[g], skip, factor, i);
        items := items + [Item(refs[k].layer, spec.blocks[deviceOffset + i], cpu[cpuOffset + chunk], SubAt(skip, factor, i), refs[k].size)];
      }
    }
    assert refs[..|refs|] == refs;
  }

  class AscendLayoutWorker {
    const layout: Layout
    const factor: nat
    const shapes: seq<nat>
    var device: Device
    var cpu: Cpu
    var inflight: seq<Entry>
    var pending: set<JobId>
    var completed: seq<TransferResult>
    /** All accepted transfers, and all results handed over, in order. */
    ghost var submitted: seq<Entry>
    ghost var reported: seq<TransferResult>

    ghost predicate Valid()
      reads this
    {
      && CopySpans.Valid(layout) && 0 < factor
      && Shaped(layout, shapes, factor, device, cpu)
      && pending == Jobs(inflight) && DistinctJobs(inflight)
      && multiset(submitted) == multiset(inflight) + multiset(Entries(completed)) + multiset(Entries(reported))
    }

    constructor (layout: Layout, factor: nat, shapes: seq<nat>, device: Device, cpu: Cpu)
      requires CopySpans.Valid(layout) && 0 < factor && Shaped(layout, shapes, factor, device, cpu)
      ensures Valid() && this.layout == layout && this.factor == factor && this.shapes == shapes
      ensures this.device == device && this.cpu == cpu && submitted == [] && reported == []
    {
      this.layout, this.factor, this.shapes, this.device, this.cpu := layout, factor, shapes, device, cpu;
      inflight, pending, completed, submitted, reported := [], {}, [], [], [];
    }

    /** Checks every item before anything is copied. */
    method SpansFor(items: seq<Item>) returns (r: Result<seq<Span>, SpanError>)
      requires CopySpans.Valid(layout) && |shapes| == |layout.pages| && forall item :: item in items ==> item.sub < factor
      requires forall item :: item in items ==> item.layer < |layout.layers|
      ensures r.Ok? <==> AllFit(layout, shapes, factor, items)
      ensures r.Ok? ==> r.value == Spans(layout, shapes, factor, items)
    {
      var spans: seq<Span> := [];
      for i := 0 to |items|
        invariant AllFit(layout, shapes, factor, items[..i])
        invariant spans == Spans(layout, shapes, factor, items[..i])
      {
        assert items[..i + 1][..i] == items[..i];
        var item := items[i];
        assert item in items;
        var layer := layout.layers[item.layer];
        assert LayerValid(layout, layer);
        if !(0 <= item.cpu < shapes[layer.allocation]) {
          return Err(CpuOutside);
        }
        if item.size != Sum(layer.widths) {
          return Err(SizeChanged);
        }
        if layer.widths != [] && !(0 <= item.device < layout.count) {
          return Err(DeviceOutside);
        }
        var mine := SpansForItem(item);
        spans := spans + mine;
      }
      assert items[..|items|] == items;
      r := Ok(spans);
    }

    method SpansForItem(item: Item) returns (spans: seq<Span>)
      requires ItemFits(layout, shapes, factor, item)
      ensures spans == ItemSpans(layout, item, Views(layout, item))
    {
      var layer := layout.layers[item.layer];
      var offset := item.sub * layout.pages[layer.allocation];
      spans := [];
      assert layer.widths[..0] == [];
      for view := 0 to |layer.widths|
        invariant spans == ItemSpans(layout, item, view)
        invariant offset == item.sub * layout.pages[layer.allocation] + Sum(layer.widths[..view])
      {
        SumNext(layer.widths, view);
        spans := spans + [Span(Row(item.layer, view, item.device), CpuBlock(layer.allocation, item.cpu), offset, layer.widths[view])];
        offset := offset + layer.widths[view];
      }
    }

    /** Plans a transfer and finds its spans. */
    method Check(spec: DeviceSpec, blocks: seq<int>) returns (r: Result<seq<Span>, SubmitError>)
      requires CopySpans.Valid(layout) && Shaped(layout, shapes, factor, device, cpu)
      ensures r != Err(AlreadyPending)
      ensures r.Ok? <==> Accepted(layout, shapes, factor, spec, blocks)
      ensures r.Ok? ==> r.value == SpansOf(layout, shapes, factor, spec, blocks) && SpansFit(device, cpu, r.value)
    {
      var planned := CopyPlan(spec, blocks, layout.refs, factor);
      if planned.Err? {
        return Err(NoPlan(planned.error));
      }
      PlanInLayout(layout, spec, blocks, factor);
      var found := SpansFor(planned.value);
      if found.Err? {
        return Err(NoSpans(found.error));
      }
      AcceptedFit(layout, shapes, factor, spec, blocks, device, cpu);
      r := Ok(found.value);
    }

    /** Starts a transfer, out to the CPU or back. A transfer that is refused has touched nothing. */
    method Submit(job: JobId, spec: DeviceSpec, blocks: seq<int>, store: bool) returns (r: Result<nat, SubmitError>)
      requires Valid()
      modifies this
      ensures Valid() && completed == old(completed) && reported == old(reported)
      ensures r == Err(AlreadyPending) <==> job in old(pending)
      ensures r.Ok? <==> job !in old(pending) && Accepted(layout, shapes, factor, spec, blocks)
      ensures r.Err? ==> device == old(device) && cpu == old(cpu) && inflight == old(inflight) && pending == old(pending)
      ensures r.Err? ==> submitted == old(submitted)
      ensures r.Ok? ==>
                && r.value == TotalBytes(spec, layout.refs, |layout.refs|)
                && inflight == old(inflight) + [Entry(job, r.value)] && pending == old(pending) + {job}
                && submitted == old(submitted) + [Entry(job, r.value)]
                && var spans := SpansOf(layout, shapes, factor, spec, blocks);
                && SpansFit(old(device), old(cpu), spans)
                && cpu == (if store then Store(old(device), old(cpu), spans) else old(cpu))
                && device == (if store then old(device) else Load(old(device), old(cpu), spans))
    {
      if job in pending {
        return Err(AlreadyPending);
      }
      var checked := Check(spec, blocks);
      if checked.Err? {
        return Err(checked.error);
      }
      var spans := checked.value;
      Copy(spans, store);
      ShapedStays(layout, shapes, factor, old(device), old(cpu), device, cpu);
      var size := CountBytes(spans);
      TransferSize(layout, shapes, factor, spec, blocks);
      Record(job, size);
      r := Ok(size);
    }

    method Record(job: JobId, size: nat)
      requires Valid() && job !in pending
      modifies this`inflight, this`pending, this`submitted
      ensures Valid() && pending == old(pending) + {job}
      ensures inflight == old(inflight) + [Entry(job, size)] && submitted == old(submitted) + [Entry(job, size)]
    {
      Started(inflight, Entry(job, size));
      inflight := inflight + [Entry(job, size)];
      pending := pending + {job};
      submitted := submitted + [Entry(job, size)];
    }

    method Copy(spans: seq<Span>, store: bool)
      requires SpansFit(device, cpu, spans)
      modifies this`device, this`cpu
      ensures Copied(old(device), old(cpu), device, cpu, spans, store)
      ensures SameShape(old(cpu), cpu) && SameRows(old(device), device)
    {
      for i := 0 to |spans|
        invariant SpansFit(old(device), old(cpu), spans[..i])
        invariant Copied(old(device), old(cpu), device, cpu, spans[..i], store)
      {
        CopiedNext(old(device), old(cpu), device, cpu, spans, i, store);
        CopyOne(spans[i], store);
      }
      assert spans[..|spans|] == spans;
    }

    method CopyOne(span: Span, store: bool)
      requires SpanFits(device, cpu, span)
      modifies this`device, this`cpu
      ensures cpu == if store then StoreOne(old(device), old(cpu), span) else old(cpu)
      ensures device == if store then old(device) else LoadOne(old(device), old(cpu), span)
    {
      if store {
        var was := cpu[span.cpu];
        cpu := cpu[span.cpu := was[..span.offset] + device[span.row] + was[span.offset + span.width..]];
      } else {
        device := device[span.row := cpu[span.cpu][span.offset..span.offset + span.width]];
      }
    }

    method CountBytes(spans: seq<Span>) returns (size: nat)
      ensures size == SpanBytes(spans)
    {
      size := 0;
      for i := 0 to |spans|
        invariant size == SpanBytes(spans[..i])
      {
        assert spans[..i + 1][..i] == spans[..i];
        size := size + spans[i].width;
      }
      assert spans[..|spans|] == spans;
    }

    /** Looks at every transfer under way: its event is not done yet, or done, or failed. */
    method Poll(events: JobId -> Event) returns (finished: seq<TransferResult>)
      requires pending == Jobs(inflight) && DistinctJobs(inflight)
      modifies this`inflight, this`pending
      ensures pending == Jobs(inflight) && DistinctJobs(inflight)
      ensures multiset(old(inflight)) == multiset(inflight) + multiset(Entries(finished))
      ensures forall e :: e in inflight ==> events(e.job).NotDone?
      ensures forall r :: r in finished ==> !events(r.job).NotDone? && (r.success <==> events(r.job).Done?)
    {
      var all := inflight;
      var left: seq<Entry> := [];
      finished := [];
      for i := 0 to |all|
        invariant Polled(all, i, left, finished, pending)
        invariant forall e :: e in left ==> events(e.job).NotDone?
        invariant forall r :: r in finished ==> !events(r.job).NotDone? && (r.success <==> events(r.job).Done?)
      {
        var event := events(all[i].job);
        var done, success := event.Done? || event.Failed?, !event.Failed?;
        PolledNext(all, i, left, finished, pending, TransferResult(all[i].job, success, all[i].size));
        if done {
          pending := pending - {all[i].job};
          finished := finished + [TransferResult(all[i].job, success, all[i].size)];
        } else {
          left := left + [all[i]];
        }
      }
      assert all[..|all|] == all;
      assert left + all[|all|..] == left;
      inflight := left;
    }

    /** Hands over what is complete: results kept from waiting, and exactly the transfers whose event is done
        or raises now, as successes and failures. Together with the class invariant: each transfer once. */
    method GetFinished(events: JobId -> Event) returns (results: seq<TransferResult>)
      requires Valid()
      modifies this`inflight, this`pending, this`completed, this`reported
      ensures Valid() && completed == [] && reported == old(reported) + results && submitted == old(submitted)
      ensures |results| >= |old(completed)| && results[..|old(completed)|] == old(completed)
      ensures multiset(old(inflight)) == multiset(inflight) + multiset(Entries(results[|old(completed)|..]))
      ensures forall e :: e in old(inflight) ==> (e in inflight <==> events(e.job).NotDone?)
      ensures forall r :: r in results[|old(completed)|..] ==> (r.success <==> events(r.job).Done?)
    {
      var finished := Poll(events);
      StillUnderWay(old(inflight), inflight, finished, events);
      EntriesAppend(completed, finished);
      EntriesAppend(reported, completed + finished);
      results := completed + finished;
      assert results[|completed|..] == finished;
      completed := [];
      reported := reported + results;
    }

    /** Waits for some jobs, and keeps their results for the next reader: failures for those whose event raises.
        Jobs that are not under way are ignored. */
    method Wait(jobs: set<JobId>, raises: set<JobId>) returns (ghost added: seq<TransferResult>)
      requires Valid()
      modifies this`inflight, this`pending, this`completed
      ensures Valid() && pending == old(pending) - jobs && completed == old(completed) + added
      ensures multiset(old(inflight)) == multiset(inflight) + multiset(Entries(added))
      ensures forall r :: r in added ==> r.job in jobs && (r.success <==> r.job !in raises)
    {
      added := [];
      var left := jobs;
      while left != {}
        invariant left <= jobs && pending == old(pending) - (jobs - left)
        invariant Waited(old(completed), completed, added, old(inflight), inflight) && Valid()
        invariant forall r :: r in added ==> r.job in jobs && (r.success <==> r.job !in raises)
        decreases left
      {
        var job :| job in left;
        ghost var more := WaitOne(job, job in raises);
        WaitedNext(old(completed), added, more);
        assert jobs - left + {job} == jobs - (left - {job});
        left := left - {job};
        added := added + more;
      }
    }

    method WaitOne(job: JobId, raises: bool) returns (ghost added: seq<TransferResult>)
      requires Valid()
      modifies this`inflight, this`pending, this`completed
      ensures Valid() && pending == old(pending) - {job} && completed == old(completed) + added
      ensures multiset(old(inflight)) == multiset(inflight) + multiset(Entries(added))
      ensures forall r :: r in added ==> r.job == job && (r.success <==> !raises)
    {
      added := [];
      var i := 0;
      while i < |inflight| && inflight[i].job != job
        invariant i <= |inflight| && forall j :: 0 <= j < i ==> inflight[j].job != job
      {
        i := i + 1;
      }
      if i == |inflight| {
        return;
      }
      var entry := inflight[i];
      Removed(inflight, i);
      added := [TransferResult(job, !raises, entry.size)];
      EntriesAppend(completed, added);
      assert Entries(added) == [entry];
      inflight := inflight[..i] + inflight[i + 1..];
      pending := pending - {job};
      completed := completed + [TransferResult(job, !raises, entry.size)];
    }
  }

  /* ---- copying ---- */

  ghost predicate Copied(device: Device, cpu: Cpu, device': Device, cpu': Cpu, spans: seq<Span>, store: bool)
    requires SpansFit(device, cpu, spans)
  {
    && cpu' == (if store then Store(device, cpu, spans) else cpu)
    && device' == (if store then device else Load(device, cpu, spans))
  }

  lemma CopiedNext(device: Device, cpu: Cpu, device': Device, cpu': Cpu, spans: seq<Span>, i: nat, store: bool)
    requires SpansFit(device, cpu, spans) && i < |spans|
    requires Copied(device, cpu, device', cpu', spans[..i], store)
    ensures SpanFits(device', cpu', spans[i])
    ensures store ==> Store(device, cpu, spans[..i + 1]) == StoreOne(device', cpu', spans[i])
    ensures !store ==> Load(device, cpu, spans[..i + 1]) == LoadOne(device', cpu', spans[i])
  {
    assert spans[i] in spans;
    assert spans[..i + 1][..i] == spans[..i];
  }

  lemma ShapedStays(layout: Layout, shapes: seq<nat>, factor: nat, device: Device, cpu: Cpu, device': Device, cpu': Cpu)
    requires Shaped(layout, shapes, factor, device, cpu) && SameShape(cpu, cpu') && SameRows(device, device')
    ensures Shaped(layout, shapes, factor, device', cpu')
  {
  }

  /* ---- entries ---- */

  function Jobs(entries: seq<Entry>): set<JobId> {
    set e | e in entries :: e.job
  }

  predicate DistinctJobs(entries: seq<Entry>) {
    forall i, j :: 0 <= i < j < |entries| ==> entries[i].job != entries[j].job
  }

  /** The transfers that results are about. */
  function Entries(results: seq<TransferResult>): seq<Entry> {
    seq(|results|, i requires 0 <= i < |results| => Entry(results[i].job, results[i].size))
  }

  lemma EntriesAppend(a: seq<TransferResult>, b: seq<TransferResult>)
    ensures Entries(a + b) == Entries(a) + Entries(b)
  {
  }

  /** After looking at the first `i` transfers. */
  ghost predicate Polled(all: seq<Entry>, i: nat, left: seq<Entry>, finished: seq<TransferResult>, pending: set<JobId>) {
    && i <= |all| && DistinctJobs(all) && DistinctJobs(left)
    && multiset(all[..i]) == multiset(left) + multiset(Entries(finished))
    && pending == Jobs(left + all[i..])
    && forall e :: e in left ==> e in all[..i]
  }

  lemma PolledNext(all: seq<Entry>, i: nat, left: seq<Entry>, finished: seq<TransferResult>, pending: set<JobId>, r: TransferResult)
    requires i < |all| && Polled(all, i, left, finished, pending) && Entry(r.job, r.size) == all[i]
    ensures Polled(all, i + 1, left, finished + [r], pending - {all[i].job})
    ensures Polled(all, i + 1, left + [all[i]], finished, pending)
  {
    assert all[..i + 1] == all[..i] + [all[i]];
    Dropped(left, all, i);
    EntriesNext(finished, r);
    Kept(left, all, i);
  }

  /** What was under way still is, if and only if its event is not done. */
  lemma StillUnderWay(before: seq<Entry>, left: seq<Entry>, finished: seq<TransferResult>, events: JobId -> Event)
    requires multiset(before) == multiset(left) + multiset(Entries(finished))
    requires forall e :: e in left ==> events(e.job).NotDone?
    requires forall r :: r in finished ==> !events(r.job).NotDone?
    ensures forall e :: e in before ==> (e in left <==> events(e.job).NotDone?)
  {
    forall e | e in before && e !in left ensures !events(e.job).NotDone? {
      assert e in multiset(before) && e !in multiset(left);
      assert e in multiset(Entries(finished));
      var i :| 0 <= i < |finished| && Entries(finished)[i] == e;
      assert finished[i] in finished;
    }
  }

  ghost predicate Waited(kept: seq<TransferResult>, completed: seq<TransferResult>, added: seq<TransferResult>,
                         before: seq<Entry>, inflight: seq<Entry>) {
    completed == kept + added && multiset(before) == multiset(inflight) + multiset(Entries(added))
  }

  lemma WaitedNext(kept: seq<TransferResult>, added: seq<TransferResult>, more: seq<TransferResult>)
    ensures kept + added + more == kept + (added + more)
    ensures multiset(Entries(added + more)) == multiset(Entries(added)) + multiset(Entries(more))
  {
    EntriesAppend(added, more);
  }

  lemma EntriesNext(a: seq<TransferResult>, r: TransferResult)
    ensures Entries(a + [r]) == Entries(a) + [Entry(r.job, r.size)]
  {
  }

  lemma Started(entries: seq<Entry>, e: Entry)
    requires DistinctJobs(entries) && e.job !in Jobs(entries)
    ensures DistinctJobs(entries + [e]) && Jobs(entries + [e]) == Jobs(entries) + {e.job}
  {
    forall i | 0 <= i < |entries| ensures entries[i].job != e.job {
      assert entries[i] in entries;
    }
  }

  lemma Removed(entries: seq<Entry>, i: nat)
    requires DistinctJobs(entries) && i < |entries|
    ensures var rest := entries[..i] + entries[i + 1..];
      && DistinctJobs(rest) && Jobs(rest) == Jobs(entries) - {entries[i].job}
      && multiset(entries) == multiset(rest) + multiset{entries[i]}
  {
    var rest := entries[..i] + entries[i + 1..];
    assert entries == entries[..i] + [entries[i]] + entries[i + 1..];
    forall e | e in rest ensures e in entries && e.job != entries[i].job {
      var j :| 0 <= j < |rest| && rest[j] == e;
      assert j < i ==> entries[j] == e;
      assert j >= i ==> entries[j + 1] == e;
    }
    forall e | e in entries && e != entries[i] ensures e in rest {
    }
  }

  lemma Dropped(left: seq<Entry>, all: seq<Entry>, i: nat)
    requires i < |all| && DistinctJobs(all) && forall e :: e in left ==> e in all[..i]
    ensures Jobs(left + all[i + 1..]) == Jobs(left + all[i..]) - {all[i].job}
  {
    assert all[i..] == [all[i]] + all[i + 1..];
    forall e | e in left + all[i + 1..] ensures e.job != all[i].job {
      if e in left {
        var j :| 0 <= j < i && all[..i][j] == e;
        assert all[j].job != all[i].job;
      } else {
        var j :| 0 <= j < |all[i + 1..]| && all[i + 1..][j] == e;
        assert all[i + 1 + j] == e;
      }
    }
    forall e | e in left + all[i..] && e.job != all[i].job ensures e in left + all[i + 1..] {
    }
  }

  lemma Kept(left: seq<Entry>, all: seq<Entry>, i: nat)
    requires i < |all| && DistinctJobs(all) && DistinctJobs(left) && forall e :: e in left ==> e in all[..i]
    ensures DistinctJobs(left + [all[i]]) && left + [all[i]] + all[i + 1..] == left + all[i..]
  {
    forall k | 0 <= k < |left| ensures left[k].job != all[i].job {
      assert left[k] in left;
      var j :| 0 <= j < i && all[..i][j] == left[k];
      assert all[j].job != all[i].job;
    }
  }

  /** The items of a plan name layers of the layout, and sub-blocks below the factor. */
  lemma PlanInLayout(layout: Layout, spec: DeviceSpec, cpu: seq<int>, factor: nat)
    requires CopySpans.Valid(layout) && Plannable(spec, cpu, layout.refs, factor)
    ensures forall item :: item in Plan(spec, cpu, layout.refs, factor) ==> item.layer < |layout.layers| && item.sub < factor
  {
    forall item | item in Plan(spec, cpu, layout.refs, factor) ensures item.layer < |layout.layers| && item.sub < factor {
      forall h: nat | h < |layout.refs| ensures Fits(spec, cpu, h, factor) {
        PlannableFits(spec, cpu, layout.refs, factor, h);
      }
      PlanMembers(spec, cpu, layout.refs, |layout.refs|, factor, item);
      var g: nat :| g < |layout.refs| && InGroup(spec, cpu, layout.refs[g], g, factor, item);
      assert GroupValid(layout, layout.refs[g]);
      var ref :| ref in layout.refs[g] && InRef(spec, cpu, ref, g, spec.sizes[g], factor, item);
    }
  }
}
