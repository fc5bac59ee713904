/** Whole runs of the residency tracker: its indexes, and the account of transfers under way. */
module ResidencyRuns {
  import opened Basics
  import opened Wrappers
  import opened ResidencyModel

  /** One block moving in one direction. */
  datatype Move = Move(key: Key, transfer: Transfer)

  datatype Call =
    | SessionActive(s: Session, now: Time)
    | SessionIdle(s: Session, now: Time)
    | RecordAccess(s: Session, keys: seq<Key>, now: Time)
    | ReleaseSession(s: Session, now: Time)
    | CpuResident(keys: seq<Key>, resident: bool, now: Time)
    | SecondaryResident(keys: seq<Key>, tier: Tier, resident: bool, now: Time)
    | StartTransfer(keys: seq<Key>, transfer: Transfer, now: Time)
    | FinishTransfer(keys: seq<Key>, transfer: Transfer)
    | Prune(most: nat, gone: set<Key>)

  /** The tracker, and every move that was started and finished. */
  datatype Account = Account(tracker: Tracker, started: multiset<Move>, finished: multiset<Move>)

  function Moves(keys: seq<Key>, tr: Transfer): multiset<Move> {
    if keys == [] then multiset{} else Moves(keys[..|keys| - 1], tr) + multiset{Move(keys[|keys| - 1], tr)}
  }

  /** Runs are well matched when no move is finished more often than it was started. */
  ghost predicate Enabled(a: Account, call: Call) {
    match call
    case FinishTransfer(keys, tr) => a.finished + Moves(keys, tr) <= a.started
    case Prune(most, gone) => PrunedSet(a.tracker, most, gone)
    case _ => true
  }

  function Apply(a: Account, call: Call): Account {
    var t := a.tracker;
    match call
    case SessionActive(s, now) => a.(tracker := Activate(t, s, now))
    case SessionIdle(s, now) => a.(tracker := Deactivate(t, s, now))
    case RecordAccess(s, keys, now) => a.(tracker := Access(t, s, keys, now))
    case ReleaseSession(s, now) => a.(tracker := Release(t, {s}, now))
    case CpuResident(keys, resident, now) => a.(tracker := MarkCpu(t, keys, resident, now))
    case SecondaryResident(keys, tier, resident, now) => a.(tracker := MarkSecondary(t, keys, tier, resident, now))
    case StartTransfer(keys, tr, now) => a.(tracker := Start(t, keys, tr, now), started := a.started + Moves(keys, tr))
    case FinishTransfer(keys, tr) => a.(tracker := Finish(t, keys, tr), finished := a.finished + Moves(keys, tr))
    case Prune(_, gone) => a.(tracker := Pruned(t, gone))
  }

  function UnderWay(t: Tracker, m: Move): nat {
    if m.key in t.blocks then Count(t.blocks[m.key].inflight, m.transfer) else 0
  }

  /** A block counts, for each direction, the moves that were started and not finished. */
  ghost predicate Accounted(a: Account) {
    && a.finished <= a.started
    && forall m :: UnderWay(a.tracker, m) == a.started[m] - a.finished[m]
  }

  ghost predicate Inv(a: Account) {
    Valid(a.tracker) && Accounted(a)
  }

  lemma {:induction false} StartCounts(t: Tracker, keys: seq<Key>, tr: Transfer, now: Time, m: Move)
    ensures UnderWay(Start(t, keys, tr, now), m) == UnderWay(t, m) + Moves(keys, tr)[m]
  {
    if keys != [] {
      StartCounts(t, keys[..|keys| - 1], tr, now, m);
    }
  }

  /** Finishing takes moves off the count, and never below zero. */
  lemma {:induction false} FinishCounts(t: Tracker, keys: seq<Key>, tr: Transfer, m: Move)
    ensures var left := UnderWay(t, m) - Moves(keys, tr)[m];
      UnderWay(Finish(t, keys, tr), m) == if left >= 0 then left else 0
  {
    if keys != [] {
      FinishCounts(t, keys[..|keys| - 1], tr, m);
    }
  }

  lemma {:induction false} AccessCounts(t: Tracker, s: Session, keys: seq<Key>, now: Time, m: Move)
    ensures UnderWay(Access(t, s, keys, now), m) == UnderWay(t, m)
  {
    if keys != [] {
      AccessCounts(t, s, keys[..|keys| - 1], now, m);
    }
  }

  lemma {:induction false} MarkCpuCounts(t: Tracker, keys: seq<Key>, resident: bool, now: Time, m: Move)
    ensures UnderWay(MarkCpu(t, keys, resident, now), m) == UnderWay(t, m)
  {
    if keys != [] {
      MarkCpuCounts(t, keys[..|keys| - 1], resident, now, m);
    }
  }

  lemma {:induction false} MarkSecondaryCounts(t: Tracker, keys: seq<Key>, tier: Tier, resident: bool, now: Time, m: Move)
    ensures UnderWay(MarkSecondary(t, keys, tier, resident, now), m) == UnderWay(t, m)
  {
    if keys != [] {
      MarkSecondaryCounts(t, keys[..|keys| - 1], tier, resident, now, m);
    }
  }

  lemma CallCounts(a: Account, call: Call, m: Move)
    requires Inv(a) && Enabled(a, call)
    ensures var a' := Apply(a, call); UnderWay(a'.tracker, m) == a'.started[m] - a'.finished[m]
  {
    assert UnderWay(a.tracker, m) == a.started[m] - a.finished[m];
    match call
    case RecordAccess(s, keys, now) => AccessCounts(a.tracker, s, keys, now, m);
    case CpuResident(keys, resident, now) => MarkCpuCounts(a.tracker, keys, resident, now, m);
    case SecondaryResident(keys, tier, resident, now) => MarkSecondaryCounts(a.tracker, keys, tier, resident, now, m);
    case StartTransfer(keys, tr, now) => StartCounts(a.tracker, keys, tr, now, m);
    case FinishTransfer(keys, tr) =>
      FinishCounts(a.tracker, keys, tr, m);
      assert (a.finished + Moves(keys, tr))[m] <= a.started[m];
    case _ =>
  }

  lemma CallKeepsValid(t: Tracker, a: Account, call: Call)
    requires t == a.tracker && Valid(t) && Enabled(a, call)
    ensures Valid(Apply(a, call).tracker)
  {
    match call
    case SessionActive(s, now) => ActivateKeeps(t, s, now);
    case SessionIdle(s, now) => DeactivateKeeps(t, s, now);
    case RecordAccess(s, keys, now) => AccessKeeps(t, s, keys, now);
    case ReleaseSession(s, now) => ReleaseKeeps(t, {s}, now);
    case CpuResident(keys, resident, now) => MarkCpuSame(t, keys, resident, now);
    case SecondaryResident(keys, tier, resident, now) => MarkSecondarySame(t, keys, tier, resident, now);
    case StartTransfer(keys, tr, now) => StartSame(t, keys, tr, now);
    case FinishTransfer(keys, tr) => FinishSame(t, keys, tr);
    case Prune(_, gone) => PruneKeeps(t, gone);
  }

  lemma CallKeeps(a: Account, call: Call)
    requires Inv(a) && Enabled(a, call)
    ensures Inv(Apply(a, call))
  {
    CallKeepsValid(a.tracker, a, call);
    forall m ensures UnderWay(Apply(a, call).tracker, m) == Apply(a, call).started[m] - Apply(a, call).finished[m] {
      CallCounts(a, call, m);
    }
    if call.StartTransfer? {
      assert a.started <= Apply(a, call).started;
    }
  }

  ghost function Run(a: Account, calls: seq<Call>): Option<Account>
    decreases |calls|
  {
    if calls == [] then Some(a)
    else
      match Run(a, calls[..|calls| - 1])
      case None => None
      case Some(b) =>
        if Enabled(b, calls[|calls| - 1]) then Some(Apply(b, calls[|calls| - 1])) else None
  }

  lemma {:induction false} RunKeeps(a: Account, calls: seq<Call>)
    requires Inv(a) && Run(a, calls).Some?
    ensures Inv(Run(a, calls).value)
    decreases |calls|
  {
    if calls != [] {
      RunKeeps(a, calls[..|calls| - 1]);
      CallKeeps(Run(a, calls[..|calls| - 1]).value, calls[|calls| - 1]);
    }
  }

  /** Over any well-matched run from an empty tracker: a block's count for a direction is what was
      started minus what was finished; a block has an entry exactly for the directions in which it
      moves; and a block that moves is tracked, so it was never pruned. */
  lemma TransfersAreAccounted(calls: seq<Call>, m: Move)
    requires Run(Account(Empty(), multiset{}, multiset{}), calls).Some?
    ensures var a := Run(Account(Empty(), multiset{}, multiset{}), calls).value;
      && a.finished[m] <= a.started[m]
      && UnderWay(a.tracker, m) == a.started[m] - a.finished[m]
      && (m.key in a.tracker.blocks && m.transfer in a.tracker.blocks[m.key].inflight <==> a.finished[m] < a.started[m])
  {
    var empty := Account(Empty(), multiset{}, multiset{});
    RunKeeps(empty, calls);
    var a := Run(empty, calls).value;
    assert UnderWay(a.tracker, m) == a.started[m] - a.finished[m];
  }

  /** Over any run the indexes of sessions and blocks are each other's inverse, and a block that an
      active session owns is not idle. */
  lemma IndexesAgree(calls: seq<Call>)
    requires Run(Account(Empty(), multiset{}, multiset{}), calls).Some?
    ensures Valid(Run(Account(Empty(), multiset{}, multiset{}), calls).value.tracker)
  {
    RunKeeps(Account(Empty(), multiset{}, multiset{}), calls);
  }
}
