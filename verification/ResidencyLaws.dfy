/** What each field of a tracked block means: read off the calls that were made, and nothing else. */
module ResidencyLaws {
  import opened Basics
  import opened Wrappers
  import opened ResidencyModel
  import opened ResidencyRuns

  const START := Account(Empty(), multiset{}, multiset{})

  /** The tracker after a run from an empty one. */
  ghost function After(calls: seq<Call>): Tracker
    requires Run(START, calls).Some?
  {
    Run(START, calls).value.tracker
  }

  lemma RunBefore(calls: seq<Call>)
    requires calls != [] && Run(START, calls).Some?
    ensures var n := |calls| - 1;
      && Run(START, calls[..n]).Some? && Inv(Run(START, calls[..n]).value)
      && Enabled(Run(START, calls[..n]).value, calls[n])
      && After(calls) == Apply(Run(START, calls[..n]).value, calls[n]).tracker
  {
    RunKeeps(START, calls[..|calls| - 1]);
  }

  /* ---- calls that go key by key ---- */

  lemma {:induction false} KeySetHolds(keys: seq<Key>, key: Key)
    ensures key in KeySet(keys) <==> key in keys
  {
    if keys != [] {
      var n := |keys| - 1;
      KeySetHolds(keys[..n], key);
      assert key in keys <==> key in keys[..n] || key == keys[n];
    }
  }

  lemma {:induction false} MarkCpuOne(t: Tracker, keys: seq<Key>, resident: bool, now: Time, key: Key)
    ensures var blocks := MarkCpu(t, keys, resident, now).blocks;
      && (key in blocks <==> key in keys || key in t.blocks)
      && (key in keys ==> blocks[key] == GetOrCreate(t, key, now).(cpu := resident))
      && (key in t.blocks && key !in keys ==> blocks[key] == t.blocks[key])
  {
    if keys != [] {
      var n := |keys| - 1;
      MarkCpuOne(t, keys[..n], resident, now, key);
      assert key in keys <==> key in keys[..n] || key == keys[n];
    }
  }

  lemma {:induction false} MarkSecondaryOne(t: Tracker, keys: seq<Key>, tier: Tier, resident: bool, now: Time, key: Key)
    ensures var blocks := MarkSecondary(t, keys, tier, resident, now).blocks;
      && (key in blocks <==> key in keys || key in t.blocks)
      && (key in blocks ==>
            var b := GetOrCreate(t, key, now);
            && blocks[key].(secondary := b.secondary) == b
            && forall x :: x in blocks[key].secondary <==> if key in keys && x == tier then resident else x in b.secondary)
  {
    if keys != [] {
      var n := |keys| - 1;
      MarkSecondaryOne(t, keys[..n], tier, resident, now, key);
      assert key in keys <==> key in keys[..n] || key == keys[n];
    }
  }

  lemma {:induction false} StartOne(t: Tracker, keys: seq<Key>, tr: Transfer, now: Time, key: Key)
    ensures var blocks := Start(t, keys, tr, now).blocks;
      && (key in blocks <==> key in keys || key in t.blocks)
      && (key in blocks ==> var b := GetOrCreate(t, key, now); blocks[key].(inflight := b.inflight) == b)
  {
    if keys != [] {
      var n := |keys| - 1;
      StartOne(t, keys[..n], tr, now, key);
      assert key in keys <==> key in keys[..n] || key == keys[n];
    }
  }

  lemma {:induction false} FinishOne(t: Tracker, keys: seq<Key>, tr: Transfer, key: Key)
    ensures var blocks := Finish(t, keys, tr).blocks;
      && (key in blocks <==> key in t.blocks)
      && (key in blocks ==> blocks[key].(inflight := t.blocks[key].inflight) == t.blocks[key])
  {
    if keys != [] {
      FinishOne(t, keys[..|keys| - 1], tr, key);
    }
  }

  function Times(keys: seq<Key>, key: Key): nat {
    if keys == [] then 0 else Times(keys[..|keys| - 1], key) + (if keys[|keys| - 1] == key then 1 else 0)
  }

  lemma {:induction false} TimesHolds(keys: seq<Key>, key: Key)
    ensures Times(keys, key) > 0 <==> key in keys
  {
    if keys != [] {
      var n := |keys| - 1;
      TimesHolds(keys[..n], key);
      assert key in keys <==> key in keys[..n] || key == keys[n];
    }
  }

  lemma {:induction false} AccessOne(t: Tracker, s: Session, keys: seq<Key>, now: Time, key: Key)
    ensures var t' := Access(t, s, keys, now);
      && t'.active == t.active
      && (key in t'.blocks <==> key in keys || key in t.blocks)
      && (key in t'.blocks && key !in keys ==> t'.blocks[key] == t.blocks[key])
      && (key in keys ==>
            var b := GetOrCreate(t, key, now);
            t'.blocks[key] == b.(sessions := b.sessions + {s}, lastAccess := now, accesses := b.accesses + Times(keys, key),
                                 idleSince := if s in t.active then None else b.idleSince))
  {
    if keys != [] {
      var n := |keys| - 1;
      AccessOne(t, s, keys[..n], now, key);
      TimesHolds(keys[..n], key);
      assert key in keys <==> key in keys[..n] || key == keys[n];
    }
  }

  /* ---- tracked ---- */

  /** The key was named, and not pruned since. */
  function Tracked(calls: seq<Call>, key: Key): bool {
    calls != [] &&
    var before := Tracked(calls[..|calls| - 1], key);
    match calls[|calls| - 1]
    case RecordAccess(_, keys, _) => before || key in keys
    case CpuResident(keys, _, _) => before || key in keys
    case SecondaryResident(keys, _, _, _) => before || key in keys
    case StartTransfer(keys, _, _) => before || key in keys
    case Prune(_, gone) => before && key !in gone
    case _ => before
  }

  lemma {:induction false} TrackedWhenNamed(calls: seq<Call>, key: Key)
    requires Run(START, calls).Some?
    ensures key in After(calls).blocks <==> Tracked(calls, key)
    decreases |calls|
  {
    if calls != [] {
      var n := |calls| - 1;
      RunBefore(calls);
      TrackedWhenNamed(calls[..n], key);
      NamedBy(After(calls[..n]), calls[n], key, Run(START, calls[..n]).value);
    }
  }

  lemma NamedBy(t: Tracker, call: Call, key: Key, a: Account)
    requires t == a.tracker
    ensures key in Apply(a, call).tracker.blocks <==>
      match call
      case RecordAccess(_, keys, _) => key in t.blocks || key in keys
      case CpuResident(keys, _, _) => key in t.blocks || key in keys
      case SecondaryResident(keys, _, _, _) => key in t.blocks || key in keys
      case StartTransfer(keys, _, _) => key in t.blocks || key in keys
      case Prune(_, gone) => key in t.blocks && key !in gone
      case _ => key in t.blocks
  {
    match call
    case RecordAccess(s, keys, now) => AccessOne(t, s, keys, now, key);
    case CpuResident(keys, resident, now) => MarkCpuOne(t, keys, resident, now, key);
    case SecondaryResident(keys, tier, resident, now) => MarkSecondaryOne(t, keys, tier, resident, now, key);
    case StartTransfer(keys, tr, now) => StartOne(t, keys, tr, now, key);
    case FinishTransfer(keys, tr) => FinishOne(t, keys, tr, key);
    case _ =>
  }

  /* ---- on the CPU ---- */

  /** The last that was said of the key's residency on the CPU. */
  function SaidOnCpu(calls: seq<Call>, key: Key): bool {
    calls != [] &&
    match calls[|calls| - 1]
    case CpuResident(keys, resident, _) => if key in keys then resident else SaidOnCpu(calls[..|calls| - 1], key)
    case _ => SaidOnCpu(calls[..|calls| - 1], key)
  }

  /** A block is tracked as resident on the CPU exactly if that is the last that was said of it: no call in
      between changes it, and pruning never forgets such a block. */
  lemma {:induction false} OnCpuAsSaid(calls: seq<Call>, key: Key)
    requires Run(START, calls).Some?
    ensures key in After(calls).blocks && After(calls).blocks[key].cpu <==> SaidOnCpu(calls, key)
    decreases |calls|
  {
    if calls != [] {
      var n := |calls| - 1;
      RunBefore(calls);
      OnCpuAsSaid(calls[..n], key);
      CpuAfter(Run(START, calls[..n]).value, calls[n], key);
    }
  }

  ghost predicate OnCpu(t: Tracker, key: Key) {
    key in t.blocks && t.blocks[key].cpu
  }

  lemma CpuAfter(a: Account, call: Call, key: Key)
    requires Enabled(a, call)
    ensures OnCpu(Apply(a, call).tracker, key) <==>
              if call.CpuResident? && key in call.keys then call.resident else OnCpu(a.tracker, key)
  {
    var t := a.tracker;
    match call
    case RecordAccess(s, keys, now) => AccessOne(t, s, keys, now, key);
    case CpuResident(keys, resident, now) => MarkCpuOne(t, keys, resident, now, key);
    case SecondaryResident(keys, tier, resident, now) => MarkSecondaryOne(t, keys, tier, resident, now, key);
    case StartTransfer(keys, tr, now) => StartOne(t, keys, tr, now, key);
    case FinishTransfer(keys, tr) => FinishOne(t, keys, tr, key);
    case _ =>
  }

  /* ---- in secondary tiers ---- */

  /** The last that was said of the key's residency in the tier, since it was last forgotten. */
  function SaidInTier(calls: seq<Call>, key: Key, tier: Tier): bool {
    calls != [] &&
    var before := SaidInTier(calls[..|calls| - 1], key, tier);
    match calls[|calls| - 1]
    case SecondaryResident(keys, x, resident, _) => if key in keys && x == tier then resident else before
    case Prune(_, gone) => before && key !in gone
    case _ => before
  }

  ghost predicate InTier(t: Tracker, key: Key, tier: Tier) {
    key in t.blocks && tier in t.blocks[key].secondary
  }

  lemma {:induction false} InTierAsSaid(calls: seq<Call>, key: Key, tier: Tier)
    requires Run(START, calls).Some?
    ensures key in After(calls).blocks && tier in After(calls).blocks[key].secondary <==> SaidInTier(calls, key, tier)
    decreases |calls|
  {
    if calls != [] {
      var n := |calls| - 1;
      RunBefore(calls);
      InTierAsSaid(calls[..n], key, tier);
      TierAfter(Run(START, calls[..n]).value, calls[n], key, tier);
    }
  }

  lemma TierAfter(a: Account, call: Call, key: Key, tier: Tier)
    requires Enabled(a, call)
    ensures InTier(Apply(a, call).tracker, key, tier) <==>
      match call
      case SecondaryResident(keys, x, resident, _) => if key in keys && x == tier then resident else InTier(a.tracker, key, tier)
      case Prune(_, gone) => InTier(a.tracker, key, tier) && key !in gone
      case _ => InTier(a.tracker, key, tier)
  {
    var t := a.tracker;
    match call
    case RecordAccess(s, keys, now) => AccessOne(t, s, keys, now, key);
    case CpuResident(keys, resident, now) => MarkCpuOne(t, keys, resident, now, key);
    case SecondaryResident(keys, x, resident, now) => MarkSecondaryOne(t, keys, x, resident, now, key);
    case StartTransfer(keys, tr, now) => StartOne(t, keys, tr, now, key);
    case FinishTransfer(keys, tr) => FinishOne(t, keys, tr, key);
    case _ =>
  }

  /* ---- owned ---- */

  /** The session accessed the key, and was not released since. */
  function HasAccessed(calls: seq<Call>, s: Session, key: Key): bool {
    calls != [] &&
    var before := HasAccessed(calls[..|calls| - 1], s, key);
    match calls[|calls| - 1]
    case RecordAccess(x, keys, _) => before || (x == s && key in keys)
    case ReleaseSession(x, _) => before && x != s
    case _ => before
  }

  ghost predicate Owns(t: Tracker, s: Session, key: Key) {
    key in t.blocks && s in t.blocks[key].sessions
  }

  lemma {:induction false} OwnedWhenAccessed(calls: seq<Call>, s: Session, key: Key)
    requires Run(START, calls).Some?
    ensures key in After(calls).blocks && s in After(calls).blocks[key].sessions <==> HasAccessed(calls, s, key)
    decreases |calls|
  {
    if calls != [] {
      var n := |calls| - 1;
      RunBefore(calls);
      OwnedWhenAccessed(calls[..n], s, key);
      OwnsAfter(Run(START, calls[..n]).value, calls[n], s, key);
    }
  }

  lemma OwnsAfter(a: Account, call: Call, s: Session, key: Key)
    requires Enabled(a, call)
    ensures Owns(Apply(a, call).tracker, s, key) <==>
      match call
      case RecordAccess(x, keys, _) => Owns(a.tracker, s, key) || (x == s && key in keys)
      case ReleaseSession(x, _) => Owns(a.tracker, s, key) && x != s
      case _ => Owns(a.tracker, s, key)
  {
    var t := a.tracker;
    match call
    case RecordAccess(x, keys, now) => AccessOne(t, x, keys, now, key);
    case CpuResident(keys, resident, now) => MarkCpuOne(t, keys, resident, now, key);
    case SecondaryResident(keys, tier, resident, now) => MarkSecondaryOne(t, keys, tier, resident, now, key);
    case StartTransfer(keys, tr, now) => StartOne(t, keys, tr, now, key);
    case FinishTransfer(keys, tr) => FinishOne(t, keys, tr, key);
    case _ =>
  }

  /** The last that was said of the session. */
  function IsActive(calls: seq<Call>, s: Session): bool {
    calls != [] &&
    var before := IsActive(calls[..|calls| - 1], s);
    match calls[|calls| - 1]
    case SessionActive(x, _) => before || x == s
    case SessionIdle(x, _) => before && x != s
    case ReleaseSession(x, _) => before && x != s
    case _ => before
  }

  lemma {:induction false} ActiveAsSaid(calls: seq<Call>, s: Session)
    requires Run(START, calls).Some?
    ensures s in After(calls).active <==> IsActive(calls, s)
    decreases |calls|
  {
    if calls != [] {
      var n := |calls| - 1;
      RunBefore(calls);
      ActiveAsSaid(calls[..n], s);
      var t := After(calls[..n]);
      match calls[n]
      case RecordAccess(x, keys, now) => AccessOne(t, x, keys, now, Key(0));
      case CpuResident(keys, resident, now) => MarkCpuSame(t, keys, resident, now);
      case SecondaryResident(keys, tier, resident, now) => MarkSecondarySame(t, keys, tier, resident, now);
      case StartTransfer(keys, tr, now) => StartSame(t, keys, tr, now);
      case FinishTransfer(keys, tr) => FinishSame(t, keys, tr);
      case _ =>
    }
  }

  /* ---- touched ---- */

  /** When the key was last accessed, or its session became active, or it was named first. */
  function LastTouched(calls: seq<Call>, key: Key): Option<Time> {
    if calls == [] then None
    else
      var before := LastTouched(calls[..|calls| - 1], key);
      match calls[|calls| - 1]
      case RecordAccess(_, keys, now) => if key in keys then Some(now) else before
      case SessionActive(s, now) => if HasAccessed(calls[..|calls| - 1], s, key) then Some(now) else before
      case CpuResident(keys, _, now) => if key in keys && before == None then Some(now) else before
      case SecondaryResident(keys, _, _, now) => if key in keys && before == None then Some(now) else before
      case StartTransfer(keys, _, now) => if key in keys && before == None then Some(now) else before
      case Prune(_, gone) => if key in gone then None else before
      case _ => before
  }

  ghost function TouchedAt(t: Tracker, key: Key): Option<Time> {
    if key in t.blocks then Some(t.blocks[key].lastAccess) else None
  }

  lemma {:induction false} AccessTimeIsLast(calls: seq<Call>, key: Key)
    requires Run(START, calls).Some?
    ensures LastTouched(calls, key) ==
              if key in After(calls).blocks then Some(After(calls).blocks[key].lastAccess) else None
    decreases |calls|
  {
    if calls != [] {
      var n := |calls| - 1;
      RunBefore(calls);
      AccessTimeIsLast(calls[..n], key);
      if calls[n].SessionActive? {
        OwnedWhenAccessed(calls[..n], calls[n].s, key);
      }
      TimeAfter(Run(START, calls[..n]).value, calls[n], key);
    }
  }

  lemma TimeAfter(a: Account, call: Call, key: Key)
    requires Inv(a) && Enabled(a, call)
    ensures var before, after := TouchedAt(a.tracker, key), TouchedAt(Apply(a, call).tracker, key);
      after == match call
      case RecordAccess(_, keys, now) => if key in keys then Some(now) else before
      case SessionActive(s, now) => if Owns(a.tracker, s, key) then Some(now) else before
      case CpuResident(keys, _, now) => if key in keys && before == None then Some(now) else before
      case SecondaryResident(keys, _, _, now) => if key in keys && before == None then Some(now) else before
      case StartTransfer(keys, _, now) => if key in keys && before == None then Some(now) else before
      case Prune(_, gone) => if key in gone then None else before
      case _ => before
  {
    var t := a.tracker;
    match call
    case RecordAccess(x, keys, now) => AccessOne(t, x, keys, now, key);
    case SessionActive(s, _) => OwnedIsIndexed(t, s, key);
    case CpuResident(keys, resident, now) => MarkCpuOne(t, keys, resident, now, key);
    case SecondaryResident(keys, tier, resident, now) => MarkSecondaryOne(t, keys, tier, resident, now, key);
    case StartTransfer(keys, tr, now) => StartOne(t, keys, tr, now, key);
    case FinishTransfer(keys, tr) => FinishOne(t, keys, tr, key);
    case _ =>
  }

  lemma OwnedIsIndexed(t: Tracker, s: Session, key: Key)
    requires Valid(t)
    ensures Owns(t, s, key) <==> key in KeysOf(t, s)
  {
    assert key in t.blocks && s in t.blocks[key].sessions <==> s in t.sessionKeys && key in t.sessionKeys[s];
  }

  /** How often the key was accessed since it was last forgotten. */
  function Accesses(calls: seq<Call>, key: Key): nat {
    if calls == [] then 0
    else
      var before, last := Accesses(calls[..|calls| - 1], key), calls[|calls| - 1];
      if last.RecordAccess? then before + Times(last.keys, key)
      else if last.Prune? && key in last.gone then 0
      else before
  }

  function AccessesOf(t: Tracker, key: Key): nat {
    if key in t.blocks then t.blocks[key].accesses else 0
  }

  lemma {:induction false} AccessesAreCounted(calls: seq<Call>, key: Key)
    requires Run(START, calls).Some?
    ensures Accesses(calls, key) == if key in After(calls).blocks then After(calls).blocks[key].accesses else 0
    decreases |calls|
  {
    if calls != [] {
      var n := |calls| - 1;
      RunBefore(calls);
      AccessesAreCounted(calls[..n], key);
      CountAfter(Run(START, calls[..n]).value, calls[n], key);
    }
  }

  lemma CountAfter(a: Account, call: Call, key: Key)
    requires Enabled(a, call)
    ensures var before, after := AccessesOf(a.tracker, key), AccessesOf(Apply(a, call).tracker, key);
      after ==
        if call.RecordAccess? then before + Times(call.keys, key)
        else if call.Prune? && key in call.gone then 0
        else before
  {
    var t := a.tracker;
    match call
    case RecordAccess(x, keys, now) => AccessOne(t, x, keys, now, key); TimesHolds(keys, key);
    case CpuResident(keys, resident, now) => MarkCpuOne(t, keys, resident, now, key);
    case SecondaryResident(keys, tier, resident, now) => MarkSecondaryOne(t, keys, tier, resident, now, key);
    case StartTransfer(keys, tr, now) => StartOne(t, keys, tr, now, key);
    case FinishTransfer(keys, tr) => FinishOne(t, keys, tr, key);
    case _ =>
  }

  /* ---- idle ---- */

  /** Another session that is active owns the key. */
  ghost predicate OwnedElsewhere(calls: seq<Call>, s: Session, key: Key) {
    exists x :: x != s && HasAccessed(calls, x, key) && IsActive(calls, x)
  }

  /** Since when no active session has owned the key. A block that no session has left yet is not idle. */
  ghost function IdleFrom(calls: seq<Call>, key: Key): Option<Time> {
    if calls == [] then None
    else
      var rest, before := calls[..|calls| - 1], IdleFrom(calls[..|calls| - 1], key);
      match calls[|calls| - 1]
      case RecordAccess(s, keys, _) => if key in keys && IsActive(rest, s) then None else before
      case SessionActive(s, _) => if HasAccessed(rest, s, key) then None else before
      case SessionIdle(s, now) =>
        if HasAccessed(rest, s, key) && !OwnedElsewhere(rest, s, key) then Some(now) else before
      case ReleaseSession(s, now) =>
        if !HasAccessed(rest, s, key) || OwnedElsewhere(rest, s, key) then before
        else if before == None || before == Some(0.0) then Some(now) else before
      case Prune(_, gone) => if key in gone then None else before
      case _ => before
  }

  ghost function IdleAt(t: Tracker, key: Key): Option<Time> {
    if key in t.blocks then t.blocks[key].idleSince else None
  }

  ghost predicate ActiveElsewhere(t: Tracker, s: Session, key: Key) {
    exists x :: x != s && Owns(t, x, key) && x in t.active
  }

  lemma IdleAfter(a: Account, call: Call, key: Key)
    requires Inv(a) && Enabled(a, call)
    ensures var t := a.tracker; var before, after := IdleAt(t, key), IdleAt(Apply(a, call).tracker, key);
      after == match call
      case RecordAccess(s, keys, _) => if key in keys && s in t.active then None else before
      case SessionActive(s, _) => if Owns(t, s, key) then None else before
      case SessionIdle(s, now) => if Owns(t, s, key) && !ActiveElsewhere(t, s, key) then Some(now) else before
      case ReleaseSession(s, now) =>
        if !Owns(t, s, key) || ActiveElsewhere(t, s, key) then before
        else if before == None || before == Some(0.0) then Some(now) else before
      case Prune(_, gone) => if key in gone then None else before
      case _ => before
  {
    var t := a.tracker;
    match call
    case RecordAccess(x, keys, now) => AccessOne(t, x, keys, now, key);
    case SessionActive(s, _) => OwnedIsIndexed(t, s, key);
    case SessionIdle(s, _) => OwnedIsIndexed(t, s, key); Elsewhere(t, s, key);
    case ReleaseSession(s, now) => Elsewhere(t, s, key); LeftBy(t, s, now, key);
    case CpuResident(keys, resident, now) => MarkCpuOne(t, keys, resident, now, key);
    case SecondaryResident(keys, tier, resident, now) => MarkSecondaryOne(t, keys, tier, resident, now, key);
    case StartTransfer(keys, tr, now) => StartOne(t, keys, tr, now, key);
    case FinishTransfer(keys, tr) => FinishOne(t, keys, tr, key);
    case _ =>
  }

  lemma Elsewhere(t: Tracker, s: Session, key: Key)
    ensures key in t.blocks ==> (HasActive(t.blocks[key], t.active - {s}) <==> ActiveElsewhere(t, s, key))
  {
    if key in t.blocks {
      if x :| x != s && Owns(t, x, key) && x in t.active {
        assert x in t.blocks[key].sessions * (t.active - {s});
      }
      if HasActive(t.blocks[key], t.active - {s}) {
        var x :| x in t.blocks[key].sessions * (t.active - {s});
        assert x != s && Owns(t, x, key) && x in t.active;
      }
    }
  }

  lemma LeftBy(t: Tracker, s: Session, now: Time, key: Key)
    ensures key in t.blocks ==>
      var b := t.blocks[key];
      Release(t, {s}, now).blocks[key].idleSince == (
        if s !in b.sessions || HasActive(b, t.active - {s}) then b.idleSince
        else if b.idleSince == None || b.idleSince == Some(0.0) then Some(now) else b.idleSince)
  {
    if key in t.blocks {
      var b := t.blocks[key];
      assert s in b.sessions <==> b.sessions * {s} != {} by {
        assert s in b.sessions ==> s in b.sessions * {s};
      }
      assert (b.sessions - {s}) * (t.active - {s}) == b.sessions * (t.active - {s});
    }
  }

  lemma {:induction false} IdleTimeIsSince(calls: seq<Call>, key: Key)
    requires Run(START, calls).Some?
    ensures IdleFrom(calls, key) == if key in After(calls).blocks then After(calls).blocks[key].idleSince else None
    decreases |calls|
  {
    if calls != [] {
      var n := |calls| - 1;
      RunBefore(calls);
      IdleTimeIsSince(calls[..n], key);
      OwnersAsSaid(calls[..n], key);
      IdleAfter(Run(START, calls[..n]).value, calls[n], key);
    }
  }

  lemma OwnersAsSaid(calls: seq<Call>, key: Key)
    requires Run(START, calls).Some?
    ensures forall s :: Owns(After(calls), s, key) <==> HasAccessed(calls, s, key)
    ensures forall s :: s in After(calls).active <==> IsActive(calls, s)
    ensures forall s :: ActiveElsewhere(After(calls), s, key) <==> OwnedElsewhere(calls, s, key)
  {
    forall s ensures Owns(After(calls), s, key) <==> HasAccessed(calls, s, key) {
      OwnedWhenAccessed(calls, s, key);
    }
    forall s ensures s in After(calls).active <==> IsActive(calls, s) {
      ActiveAsSaid(calls, s);
    }
    forall s ensures ActiveElsewhere(After(calls), s, key) <==> OwnedElsewhere(calls, s, key) {
      if x :| x != s && Owns(After(calls), x, key) && x in After(calls).active {
        assert HasAccessed(calls, x, key) && IsActive(calls, x);
      }
      if x :| x != s && HasAccessed(calls, x, key) && IsActive(calls, x) {
        assert Owns(After(calls), x, key) && x in After(calls).active;
      }
    }
  }

  /* ---- pruned ---- */

  /** Pruning forgets no block that a session owns, that moves, or that is on the CPU; if too many are left,
      then these are all that is left; and none that goes was touched after one that could have gone. */
  lemma PruneSparesTheNeeded(t: Tracker, most: nat, gone: set<Key>)
    requires PrunedSet(t, most, gone)
    ensures var t' := Pruned(t, gone);
      && (forall key :: key in t.blocks && (t.blocks[key].cpu || t.blocks[key].sessions != {} || t.blocks[key].inflight != map[]) ==>
            key in t'.blocks && t'.blocks[key] == t.blocks[key])
      && (forall key :: key in t'.blocks ==> key in t.blocks && t'.blocks[key] == t.blocks[key])
      && (|t'.blocks| > most ==> forall key :: key in t'.blocks ==>
            t.blocks[key].cpu || t.blocks[key].sessions != {} || t.blocks[key].inflight != map[])
      && (|t.blocks| <= most ==> t' == t)
      && (|t.blocks| > most ==> |t'.blocks| >= most)
      && (forall k, k' :: k in gone && k' in t'.blocks ==>
            || t.blocks[k'].cpu || t.blocks[k'].sessions != {} || t.blocks[k'].inflight != map[]
            || t.blocks[k].lastAccess <= t.blocks[k'].lastAccess)
  {
    PruneBounds(t, most, gone);
    var t' := Pruned(t, gone);
    forall key | key in t'.blocks && |t'.blocks| > most
      ensures t.blocks[key].cpu || t.blocks[key].sessions != {} || t.blocks[key].inflight != map[]
    {
      assert key !in PrunableKeys(t');
    }
    forall k, k' | k in gone && k' in t'.blocks
      ensures t.blocks[k'].cpu || t.blocks[k'].sessions != {} || t.blocks[k'].inflight != map[]
              || t.blocks[k].lastAccess <= t.blocks[k'].lastAccess
    {
      assert k' in PrunableKeys(t) - gone || !Prunable(t.blocks[k']);
    }
  }
}
