/** Expiring and pruning sessions, over whole runs of the lifecycle manager. */
module LifecycleRuns {
  import opened Basics
  import opened Wrappers
  import opened ResidencyModel
  import opened LifecycleModel

  /* ---- expiring ---- */

  /** While the gate is shut, nothing is due. */
  lemma GateHidesNothing(m: Manager, now: Time)
    requires Inv(m) && GateShut(m, now)
    ensures forall s :: s in m.sessions ==> !Due(m.sessions[s], now)
  {
    forall s | s in m.sessions ensures !Due(m.sessions[s], now) {
      assert StateValid(m.sessions[s], m.config);
    }
  }

  /** Expiring removes exactly the sessions that are due and touch nothing protected: also when the gate
      keeps it from looking. The other sessions stay as they are. */
  lemma ExpiresExactlyTheDue(m: Manager, keys: set<Key>, requests: set<Request>, now: Time)
    requires Inv(m)
    ensures var m' := Expire(m, keys, requests, now).0;
      && m'.sessions == m.sessions - ToExpire(m, keys, requests, now)
      && forall s :: s in m'.sessions && Due(m'.sessions[s], now) ==> !Unprotected(m'.sessions[s], keys, requests)
  {
    if GateShut(m, now) {
      GateHidesNothing(m, now);
    } else {
      assert m.config.enabled;
    }
    if !m.config.enabled || GateShut(m, now) {
      assert m.sessions - ToExpire(m, keys, requests, now) == m.sessions;
    }
  }

  predicate OwnedBySome(sessions: map<Session, SessionState>, gone: set<Session>, key: Key) {
    exists s :: s in gone && s in sessions && key in sessions[s].keys
  }

  /** The orphans of some sessions are the keys that one of them owns and no other session does. */
  lemma OrphansAreUnowned(m: Manager, gone: set<Session>, key: Key)
    requires Inv(m) && gone <= m.sessions.Keys
    ensures key in Orphans(m.tracker, gone) <==>
              OwnedBySome(m.sessions, gone, key) && !OwnedBySome(m.sessions, m.sessions.Keys - gone, key)
  {
    OrphansAre(m.tracker, gone, key);
    forall s ensures key in KeysOf(m.tracker, s) <==> s in m.sessions && key in m.sessions[s].keys {
      if s in m.sessions {
        assert m.sessions[s].keys == KeysOf(m.tracker, s);
      }
    }
    if key in Orphans(m.tracker, gone) {
      var s :| s in gone && key in KeysOf(m.tracker, s);
      assert OwnedBySome(m.sessions, gone, key);
    }
  }

  /** Expiring returns the keys that an expired session owned and no surviving one does, and none that
      is protected. */
  lemma ExpiredKeys(m: Manager, keys: set<Key>, requests: set<Request>, now: Time, key: Key)
    requires Inv(m)
    ensures var (m', returned) := Expire(m, keys, requests, now);
      && (key in returned <==>
            OwnedBySome(m.sessions, m.sessions.Keys - m'.sessions.Keys, key)
            && !OwnedBySome(m'.sessions, m'.sessions.Keys, key))
      && (key in returned ==> key !in keys)
  {
    var gone := ToExpire(m, keys, requests, now);
    var (m', returned) := Expire(m, keys, requests, now);
    ExpiresExactlyTheDue(m, keys, requests, now);
    assert m.sessions.Keys - m'.sessions.Keys == gone;
    SameOwned(m.sessions, gone, key);
    OrphansAreUnowned(m, gone, key);
    if !m.config.enabled || GateShut(m, now) {
      if GateShut(m, now) {
        GateHidesNothing(m, now);
      }
      NothingGone(m, gone, key);
    } else if key in returned {
      Unowned(m, keys, requests, now, key);
    }
  }

  lemma NothingGone(m: Manager, gone: set<Session>, key: Key)
    requires gone == {}
    ensures !OwnedBySome(m.sessions, gone, key)
  {
  }

  lemma SameOwned(sessions: map<Session, SessionState>, gone: set<Session>, key: Key)
    requires gone <= sessions.Keys
    ensures var rest := sessions - gone;
      OwnedBySome(rest, rest.Keys, key) <==> OwnedBySome(sessions, sessions.Keys - gone, key)
  {
    var rest := sessions - gone;
    if s :| s in rest && key in rest[s].keys {
      assert s in sessions.Keys - gone && key in sessions[s].keys;
    }
    if s :| s in sessions.Keys - gone && key in sessions[s].keys {
      assert s in rest && key in rest[s].keys;
    }
  }

  lemma Unowned(m: Manager, keys: set<Key>, requests: set<Request>, now: Time, key: Key)
    requires OwnedBySome(m.sessions, ToExpire(m, keys, requests, now), key)
    ensures key !in keys
  {
    var s :| s in ToExpire(m, keys, requests, now) && key in m.sessions[s].keys;
    assert key !in m.sessions[s].keys * keys;
  }

  /* ---- pruning ---- */

  /** Pruning ends with few enough sessions, or with no finished one left; a session that serves or
      retains a request is never removed. */
  lemma PruneSessionsBounds(m: Manager, gone: set<Session>, now: Time)
    requires PrunedSessions(m, gone)
    ensures var m' := DeleteSessions(m, gone, now);
      && (|m'.sessions| <= m.config.maxSessions || FinishedSessions(m') == {})
      && (|m.sessions| <= m.config.maxSessions ==> m'.sessions == m.sessions)
      && (forall s :: s in gone ==> m.sessions[s].serving == {} && m.sessions[s].retained == {})
  {
    FewEnough(m.sessions.Keys, FinishedSessions(m), gone, m.config.maxSessions);
    SessionsLeft(m, DeleteSessions(m, gone, now), gone);
  }

  lemma SessionsLeft(m: Manager, m': Manager, gone: set<Session>)
    requires m'.sessions == m.sessions - gone
    ensures m'.sessions.Keys == m.sessions.Keys - gone
    ensures FinishedSessions(m') == FinishedSessions(m) - gone
    ensures gone == {} ==> m'.sessions == m.sessions
  {
  }

  /** ... and what it returns are the keys of the removed sessions that no other session owns. */
  lemma PrunedKeys(m: Manager, gone: set<Session>, now: Time, key: Key)
    requires Inv(m) && PrunedSessions(m, gone)
    ensures key in Orphans(m.tracker, gone) <==>
              && OwnedBySome(m.sessions, gone, key)
              && !OwnedBySome(DeleteSessions(m, gone, now).sessions, DeleteSessions(m, gone, now).sessions.Keys, key)
  {
    SameOwned(m.sessions, gone, key);
    OrphansAreUnowned(m, gone, key);
  }

  /* ---- runs ---- */

  datatype Call =
    | OnNewRequest(ctx: Context, heat: bool, now: Time)
    | OnKeys(ctx: Context, accessed: seq<Key>, now: Time)
    | OnFinished(ctx: Context, heat: bool, now: Time)
    | OnFinalized(ctx: Context, now: Time)
    | ExpireIdle(protected: set<Key>, requests: set<Request>, now: Time)
    | PruneIdle(gone: set<Session>, now: Time)
    | CpuResident(blocks: seq<Key>, resident: bool, now: Time)
    | SecondaryResident(blocks: seq<Key>, tier: Tier, resident: bool, now: Time)
    | StartTransfer(blocks: seq<Key>, transfer: Transfer, now: Time)
    | FinishTransfer(blocks: seq<Key>, transfer: Transfer)
    | PruneBlocks(most: nat, pruned: set<Key>)

  ghost predicate Enabled(m: Manager, call: Call) {
    match call
    case PruneIdle(gone, _) => PrunedSessions(m, gone)
    case PruneBlocks(most, gone) => PrunedSet(m.tracker, most, gone)
    case _ => true
  }

  ghost function Apply(m: Manager, call: Call): Manager {
    match call
    case OnNewRequest(ctx, heat, now) => NewRequest(m, ctx, heat, now)
    case OnKeys(ctx, keys, now) => RecordKeys(m, ctx, keys, now)
    case OnFinished(ctx, heat, now) => FinishRequest(m, ctx, heat, now)
    case OnFinalized(ctx, now) => FinalizeRequest(m, ctx, now)
    case ExpireIdle(keys, requests, now) => Expire(m, keys, requests, now).0
    case PruneIdle(gone, now) => DeleteSessions(m, gone, now)
    case CpuResident(blocks, resident, now) => m.(tracker := MarkCpu(m.tracker, blocks, resident, now))
    case SecondaryResident(blocks, tier, resident, now) => m.(tracker := MarkSecondary(m.tracker, blocks, tier, resident, now))
    case StartTransfer(blocks, transfer, now) => m.(tracker := Start(m.tracker, blocks, transfer, now))
    case FinishTransfer(blocks, transfer) => m.(tracker := Finish(m.tracker, blocks, transfer))
    case PruneBlocks(_, gone) => m.(tracker := Pruned(m.tracker, gone))
  }

  lemma BlockCallKeeps(m: Manager, call: Call)
    requires Inv(m) && Enabled(m, call)
    requires call.CpuResident? || call.SecondaryResident? || call.StartTransfer? || call.FinishTransfer? || call.PruneBlocks?
    ensures Inv(Apply(m, call))
  {
    match call {
      case CpuResident(blocks, resident, now) => MarkCpuSame(m.tracker, blocks, resident, now);
      case SecondaryResident(blocks, tier, resident, now) => MarkSecondarySame(m.tracker, blocks, tier, resident, now);
      case StartTransfer(blocks, transfer, now) => StartSame(m.tracker, blocks, transfer, now);
      case FinishTransfer(blocks, transfer) => FinishSame(m.tracker, blocks, transfer);
      case PruneBlocks(_, gone) => PruneKeeps(m.tracker, gone);
    }
    BlocksKeep(m, Apply(m, call).tracker);
  }

  lemma CallKeeps(m: Manager, call: Call)
    requires Inv(m) && Enabled(m, call)
    ensures Inv(Apply(m, call))
  {
    match call
    case OnNewRequest(ctx, heat, now) => NewRequestKeeps(m, ctx, heat, now);
    case OnKeys(ctx, keys, now) => RecordKeysKeeps(m, ctx, keys, now);
    case OnFinished(ctx, heat, now) => FinishRequestKeeps(m, ctx, heat, now);
    case OnFinalized(ctx, now) => FinalizeKeeps(m, ctx, now);
    case ExpireIdle(keys, requests, now) => ExpireKeeps(m, keys, requests, now);
    case PruneIdle(gone, now) => DeleteKeeps(m, gone, now);
    case _ => BlockCallKeeps(m, call);
  }

  ghost function Run(m: Manager, calls: seq<Call>): Option<Manager>
    decreases |calls|
  {
    if calls == [] then Some(m)
    else
      match Run(m, calls[..|calls| - 1])
      case None => None
      case Some(b) =>
        if Enabled(b, calls[|calls| - 1]) then Some(Apply(b, calls[|calls| - 1])) else None
  }

  lemma {:induction false} RunKeeps(m: Manager, calls: seq<Call>)
    requires Inv(m) && Run(m, calls).Some?
    ensures Inv(Run(m, calls).value)
    decreases |calls|
  {
    if calls != [] {
      RunKeeps(m, calls[..|calls| - 1]);
      CallKeeps(Run(m, calls[..|calls| - 1]).value, calls[|calls| - 1]);
    }
  }

  /** Over any run of calls: a session is active exactly when it serves a request, which is exactly when
      the tracker lists it (if the manager is enabled); it owns exactly the blocks that the tracker says
      it owns, whose records list it; a block of an active session is not idle; and the gate opens no
      later than the earliest deadline. */
  lemma SessionsAndBlocksAgree(config: Config, calls: seq<Call>, s: Session, key: Key)
    requires ConfigValid(config) && Run(Initial(config), calls).Some?
    ensures var m := Run(Initial(config), calls).value; var t := m.tracker;
      && (s in m.sessions ==> (m.sessions[s].status.Active? <==> m.sessions[s].serving != {}))
      && (m.config.enabled ==> (s in t.active <==> s in m.sessions && m.sessions[s].serving != {}))
      && (s in m.sessions && key in m.sessions[s].keys <==> key in t.blocks && s in t.blocks[key].sessions)
      && (s in t.active && key in t.blocks && s in t.blocks[key].sessions ==> t.blocks[key].idleSince == None)
      && (s in m.sessions && m.sessions[s].status.Idle? && m.sessions[s].deadline.Some? ==>
            m.next.Some? && m.next.value <= m.sessions[s].deadline.value)
  {
    RunKeeps(Initial(config), calls);
    var m := Run(Initial(config), calls).value;
    if s in m.sessions {
      assert StateValid(m.sessions[s], m.config);
    }
    OwnersAgree(m, s, key);
  }

  lemma OwnersAgree(m: Manager, s: Session, key: Key)
    requires Inv(m)
    ensures s in m.sessions && key in m.sessions[s].keys <==> key in m.tracker.blocks && s in m.tracker.blocks[key].sessions
    ensures s in m.tracker.active && key in m.tracker.blocks && s in m.tracker.blocks[key].sessions ==>
              m.tracker.blocks[key].idleSince == None
  {
    var t := m.tracker;
    assert key in t.blocks && s in t.blocks[key].sessions <==> s in t.sessionKeys && key in t.sessionKeys[s];
    if s in t.active && key in t.blocks && s in t.blocks[key].sessions {
      assert s in t.blocks[key].sessions * t.active;
    }
  }

  /* ---- the gate is a lower bound only ---- */

  /** The gate is at the earliest deadline. */
  ghost predicate GateExact(m: Manager) {
    m.next == NextDeadline(m.config, m.sessions)
  }

  /** A session whose deadline is where the gate is. */
  predicate HoldsGate(m: Manager, s: Session) {
    s in m.sessions && m.sessions[s].status.Idle? && m.sessions[s].deadline.Some? && m.next == m.sessions[s].deadline
  }

  lemma ExactIffHeld(m: Manager)
    requires Inv(m)
    ensures GateExact(m) <==> m.next.None? || exists s :: HoldsGate(m, s)
  {
    LeastIs(Deadlines(m.sessions));
    forall s | s in m.sessions && m.sessions[s].status.Idle? && m.sessions[s].deadline.Some?
      ensures m.sessions[s].deadline.value in Deadlines(m.sessions) && 0.0 < m.config.ttl
    {
      assert StateValid(m.sessions[s], m.config);
    }
    if m.next.Some? && GateExact(m) {
      var d := m.next.value;
      assert d in Deadlines(m.sessions);
      var s :| s in m.sessions && m.sessions[s].status.Idle? && m.sessions[s].deadline == Some(d);
      assert HoldsGate(m, s);
    }
  }

  /** The sessions that a call deletes, or whose deadline it puts off, without looking at the gate again:
      finalizing the last request of a session without a conversation, pruning, and finishing a request
      of a session that is idle already. */
  function Unholds(m: Manager, call: Call): set<Session> {
    match call
    case OnFinalized(ctx, _) =>
      var s := LifecycleModel.Find(m, ctx);
      if s.Some? && s.value in m.sessions && !m.sessions[s.value].stable
         && m.sessions[s.value].serving == {} && m.sessions[s.value].retained <= {ctx.request}
      then {s.value} else {}
    case PruneIdle(gone, _) => gone
    case OnFinished(ctx, _, now) =>
      var s := LifecycleModel.Find(m, ctx);
      if s.Some? && s.value in m.sessions && m.sessions[s.value].status.Idle?
         && m.next.Some? && m.next.value < now + m.config.ttl
      then {s.value} else {}
    case _ => {}
  }

  ghost predicate LosesEarliest(m: Manager, call: Call) {
    m.next.Some? && forall s :: HoldsGate(m, s) ==> s in Unholds(m, call)
  }

  lemma NewRequestExact(m: Manager, ctx: Context, heat: bool, now: Time)
    requires Inv(m) && GateExact(m)
    ensures GateExact(NewRequest(m, ctx, heat, now))
  {
    var m', s := NewRequest(m, ctx, heat, now), SessionOf(ctx);
    NewRequestKeeps(m, ctx, heat, now);
    ExactIffHeld(m);
    ExactIffHeld(m');
    if s !in m.sessions && m.next.Some? {
      var x :| HoldsGate(m, x);
      assert HoldsGate(m', x);
    }
  }

  lemma RecordKeysExact(m: Manager, ctx: Context, keys: seq<Key>, now: Time)
    requires Inv(m) && GateExact(m)
    ensures GateExact(RecordKeys(m, ctx, keys, now))
  {
    var m' := RecordKeys(m, ctx, keys, now);
    RecordKeysKeeps(m, ctx, keys, now);
    if m.config.enabled {
      NewRequestKeeps(m, ctx, false, now);
      NewRequestExact(m, ctx, false, now);
      KnownIsFound(m, ctx, false, now);
      var m1 := Known(m, ctx, false, now);
      ExactIffHeld(m1);
      ExactIffHeld(m');
      if m1.next.Some? {
        var x :| HoldsGate(m1, x);
        assert HoldsGate(m', x);
      }
    }
  }

  /** A session that still serves a request after it, and so was active and has no deadline. */
  lemma ServingExact(m: Manager, m': Manager, s: Session, st: SessionState)
    requires Inv(m) && Inv(m') && GateExact(m) && s in m.sessions
    requires m'.sessions == m.sessions[s := st] && m'.next == m.next
    requires m.sessions[s].status.Active? && st.status.Active?
    ensures GateExact(m')
  {
    ExactIffHeld(m);
    ExactIffHeld(m');
    if m.next.Some? {
      var x :| HoldsGate(m, x);
      assert HoldsGate(m', x);
    }
  }

  /** A session that becomes idle, or is idle already and gets a later deadline. */
  lemma IdleExact(m: Manager, m': Manager, s: Session, st: SessionState)
    requires Inv(m) && Inv(m') && GateExact(m) && s in m.sessions && st.status.Idle?
    requires m'.config == m.config && m'.sessions == m.sessions[s := st] && m'.next == Sooner(m.next, st.deadline)
    ensures var late := m.sessions[s].status.Idle? && m.next.Some? && st.deadline.Some? && m.next.value < st.deadline.value;
      GateExact(m') <==> !(m.next.Some? && forall x :: HoldsGate(m, x) ==> late && x == s)
  {
    ExactIffHeld(m);
    ExactIffHeld(m');
    assert StateValid(m.sessions[s], m.config) && StateValid(m'.sessions[s], m'.config);
    if m.next.Some? {
      var h :| HoldsGate(m, h);
      assert StateValid(m.sessions[h], m.config);
      if m'.next != m.next || m.next == st.deadline {
        assert HoldsGate(m', s);
      } else {
        forall x | x != s ensures HoldsGate(m', x) <==> HoldsGate(m, x) {
        }
      }
    } else if m'.next.Some? {
      assert HoldsGate(m', s);
    }
  }

  /** Finishing a request of session `s` in a state that knows it. */
  lemma FinishedExact(m: Manager, m': Manager, s: Session, r: Request, now: Time)
    requires Inv(m) && Inv(m') && GateExact(m) && s in m.sessions
    requires var st := Retain(m.sessions[s], r, now);
      if st.serving != {} then m'.sessions == m.sessions[s := st] && m'.next == m.next
      else && m'.sessions == m.sessions[s := st.(status := Idle, deadline := Expiry(m.config, now))]
           && m'.next == Sooner(m.next, Expiry(m.config, now))
    requires m'.config == m.config
    ensures var late := m.sessions[s].status.Idle? && m.next.Some? && m.next.value < now + m.config.ttl;
      GateExact(m') <==> !(m.next.Some? && forall x :: HoldsGate(m, x) ==> late && x == s)
  {
    var st := Retain(m.sessions[s], r, now);
    assert StateValid(m.sessions[s], m.config);
    if st.serving != {} {
      ServingExact(m, m', s, st);
      ExactIffHeld(m);
    } else {
      IdleExact(m, m', s, st.(status := Idle, deadline := Expiry(m.config, now)));
      TimeToLive(m);
    }
  }

  /** Without a time to live the gate, when it is exact, is not set. */
  lemma TimeToLive(m: Manager)
    requires GateExact(m)
    ensures m.config.ttl <= 0.0 ==> m.next.None?
  {
  }

  lemma FinishExact(m: Manager, ctx: Context, heat: bool, now: Time)
    requires Inv(m) && GateExact(m)
    ensures GateExact(FinishRequest(m, ctx, heat, now)) <==> !LosesEarliest(m, OnFinished(ctx, heat, now))
  {
    TimeToLive(m);
    if m.config.enabled || heat {
      FinishRequestKeeps(m, ctx, heat, now);
      KnownIsFound(m, ctx, heat, now);
      if LifecycleModel.Find(m, ctx).None? {
        FinishNewExact(m, ctx, heat, now);
        NewHolds(m, ctx, heat, now);
      } else {
        FinishedExact(m, FinishRequest(m, ctx, heat, now), LifecycleModel.Find(m, ctx).value, ctx.request, now);
      }
    }
  }

  lemma FinishNewExact(m: Manager, ctx: Context, heat: bool, now: Time)
    requires Inv(m) && GateExact(m) && (m.config.enabled || heat) && LifecycleModel.Find(m, ctx).None?
    requires Inv(FinishRequest(m, ctx, heat, now))
    ensures GateExact(FinishRequest(m, ctx, heat, now))
  {
    var m1, s := NewRequest(m, ctx, heat, now), SessionOf(ctx);
    NewRequestKeeps(m, ctx, heat, now);
    NewRequestExact(m, ctx, heat, now);
    FinishNewShape(m, ctx, heat, now);
    FinishedExact(m1, FinishRequest(m, ctx, heat, now), s, ctx.request, now);
    ExactIffHeld(m1);
  }

  lemma NewHolds(m: Manager, ctx: Context, heat: bool, now: Time)
    requires Inv(m) && GateExact(m) && LifecycleModel.Find(m, ctx).None?
    ensures !LosesEarliest(m, OnFinished(ctx, heat, now))
  {
    ExactIffHeld(m);
  }

  lemma FinishNewShape(m: Manager, ctx: Context, heat: bool, now: Time)
    requires (m.config.enabled || heat) && LifecycleModel.Find(m, ctx).None?
    ensures var m1, m', s := NewRequest(m, ctx, heat, now), FinishRequest(m, ctx, heat, now), SessionOf(ctx);
      && s in m1.sessions && m1.sessions[s].status.Active? && m'.config == m1.config
      && var st := Retain(m1.sessions[s], ctx.request, now);
      if st.serving != {} then m'.sessions == m1.sessions[s := st] && m'.next == m1.next
      else && m'.sessions == m1.sessions[s := st.(status := Idle, deadline := Expiry(m1.config, now))]
           && m'.next == Sooner(m1.next, Expiry(m1.config, now))
  {
    assert LifecycleModel.Find(NewRequest(m, ctx, heat, now), ctx) == Some(SessionOf(ctx));
  }

  /** Deleting sessions without looking at the gate. */
  lemma DeletedExact(m: Manager, m': Manager, gone: set<Session>)
    requires Inv(m) && Inv(m') && GateExact(m)
    requires m'.sessions == m.sessions - gone && m'.next == m.next
    ensures GateExact(m') <==> !(m.next.Some? && forall s :: HoldsGate(m, s) ==> s in gone)
  {
    ExactIffHeld(m);
    ExactIffHeld(m');
    forall s ensures HoldsGate(m', s) <==> HoldsGate(m, s) && s !in gone {
    }
  }

  lemma FinalizeExact(m: Manager, ctx: Context, now: Time)
    requires Inv(m) && GateExact(m)
    ensures GateExact(FinalizeRequest(m, ctx, now)) <==> !LosesEarliest(m, OnFinalized(ctx, now))
  {
    var m', found := FinalizeRequest(m, ctx, now), LifecycleModel.Find(m, ctx);
    FinalizeKeeps(m, ctx, now);
    if found.None? {
      DeletedExact(m, m', {});
    } else {
      FinalizedShape(m, ctx, now, found.value);
      FinalizedExact(m, m', found.value, ctx.request, Unholds(m, OnFinalized(ctx, now)));
    }
  }

  lemma FinalizedShape(m: Manager, ctx: Context, now: Time, s: Session)
    requires LifecycleModel.Find(m, ctx) == Some(s)
    ensures var m', gone := FinalizeRequest(m, ctx, now), Unholds(m, OnFinalized(ctx, now));
      var st := m.sessions[s].(retained := m.sessions[s].retained - {ctx.request});
      && m'.next == m.next && m'.sessions == m.sessions[s := st] - gone
      && gone == if st.serving != {} || st.retained != {} || st.stable then {} else {s}
  {
    var st := m.sessions[s].(retained := m.sessions[s].retained - {ctx.request});
    assert st.retained == {} <==> m.sessions[s].retained <= {ctx.request};
    assert m.sessions[s := st] - {} == m.sessions[s := st];
  }

  lemma FinalizedExact(m: Manager, m': Manager, s: Session, r: Request, gone: set<Session>)
    requires Inv(m) && Inv(m') && GateExact(m) && s in m.sessions && m'.next == m.next
    requires var st := m.sessions[s].(retained := m.sessions[s].retained - {r});
      && m'.sessions == m.sessions[s := st] - gone
      && gone == if st.serving != {} || st.retained != {} || st.stable then {} else {s}
    ensures GateExact(m') <==> !(m.next.Some? && forall x :: HoldsGate(m, x) ==> x in gone)
  {
    ExactIffHeld(m);
    ExactIffHeld(m');
    forall x ensures HoldsGate(m', x) <==> HoldsGate(m, x) && x !in gone {
    }
  }

  lemma ExpireExact(m: Manager, keys: set<Key>, requests: set<Request>, now: Time)
    requires Inv(m) && GateExact(m)
    ensures GateExact(Expire(m, keys, requests, now).0)
  {
  }

  /** A call leaves the gate at the earliest deadline if and only if it does not take away every session
      that holds the gate there without looking again. */
  lemma GateStaysExact(m: Manager, call: Call)
    requires Inv(m) && Enabled(m, call) && GateExact(m)
    ensures GateExact(Apply(m, call)) <==> !LosesEarliest(m, call)
  {
    ExactIffHeld(m);
    match call
    case OnNewRequest(ctx, heat, now) => NewRequestExact(m, ctx, heat, now);
    case OnKeys(ctx, keys, now) => RecordKeysExact(m, ctx, keys, now);
    case OnFinished(ctx, heat, now) => FinishExact(m, ctx, heat, now);
    case OnFinalized(ctx, now) => FinalizeExact(m, ctx, now);
    case ExpireIdle(keys, requests, now) => ExpireExact(m, keys, requests, now);
    case PruneIdle(gone, now) =>
      DeleteKeeps(m, gone, now);
      DeletedExact(m, DeleteSessions(m, gone, now), gone);
    case _ =>
  }

  const A := Session(0)
  const B := Session(1)
  const C := Session(2)
  const SOON := Context(A, None)
  const LATER := Context(B, Some(C))

  /** What a request leaves behind that finished at `now`, in a store with a time to live of ten. */
  function Left(stable: bool, r: Request, now: Time): SessionState {
    SessionState(stable, Idle, now, Some(now + 10.0), {}, {r}, {}, 1)
  }

  lemma FinishedFirst(m: Manager)
    requires m.config == Config(10.0, true, 1) && m.sessions == map[] && m.requestSession == map[] && m.next == None
    ensures var m' := FinishRequest(m, SOON, false, 1.0);
      && m'.config == m.config && m'.next == Some(11.0) && m'.requestSession == map[A := A]
      && m'.sessions == map[A := Left(false, A, 1.0)]
  {
    var m1 := NewRequest(m, SOON, false, 1.0);
    assert Find(m1, SOON) == Some(A);
    assert m1.sessions[A] == SessionState(false, Active, 1.0, None, {A}, {}, {}, 1);
    assert Retain(m1.sessions[A], A, 1.0).serving == {};
    assert Retain(m1.sessions[A], A, 1.0).(status := Idle, deadline := Some(11.0)) == Left(false, A, 1.0);
  }

  lemma FinishedNext(m: Manager)
    requires m.config == Config(10.0, true, 1) && m.next == Some(11.0)
    requires m.sessions == map[A := Left(false, A, 1.0)] && m.requestSession == map[A := A]
    ensures var m' := FinishRequest(m, LATER, false, 5.0);
      && m'.config == m.config && m'.next == Some(11.0) && m'.requestSession == map[A := A, B := C]
      && m'.sessions == map[A := Left(false, A, 1.0), C := Left(true, B, 5.0)]
  {
    var m1 := NewRequest(m, LATER, false, 5.0);
    assert Find(m1, LATER) == Some(C);
    assert m1.sessions[C] == SessionState(true, Active, 5.0, None, {B}, {}, {}, 1);
    assert Retain(m1.sessions[C], B, 5.0).serving == {};
    assert Retain(m1.sessions[C], B, 5.0).(status := Idle, deadline := Some(15.0)) == Left(true, B, 5.0);
  }

  lemma FinalizedFirst(m: Manager)
    requires m.next == Some(11.0) && m.requestSession == map[A := A, B := C]
    requires m.sessions == map[A := Left(false, A, 1.0), C := Left(true, B, 5.0)]
    ensures var m' := FinalizeRequest(m, SOON, 6.0); m'.next == Some(11.0) && Deadlines(m'.sessions) == {15.0}
  {
    var m' := FinalizeRequest(m, SOON, 6.0);
    assert Find(m, SOON) == Some(A);
    assert m.sessions[A].retained - {A} == {};
    assert m'.sessions.Keys == {C};
    assert m'.sessions[C] == Left(true, B, 5.0);
    assert m'.sessions[C].deadline == Some(15.0);
  }

  /** The gate need not be exact: after the session with the earliest deadline is finalized away, it
      still opens at that deadline, before any other session is due. */
  lemma GateMayOpenEarly()
    ensures var m := Initial(Config(10.0, true, 1));
      var calls := [OnFinished(SOON, false, 1.0), OnFinished(LATER, false, 5.0), OnFinalized(SOON, 6.0)];
      && Run(m, calls).Some?
      && Run(m, calls).value.next == Some(11.0)
      && Deadlines(Run(m, calls).value.sessions) == {15.0}
  {
    var m0 := Initial(Config(10.0, true, 1));
    var calls := [OnFinished(SOON, false, 1.0), OnFinished(LATER, false, 5.0), OnFinalized(SOON, 6.0)];
    FinishedFirst(m0);
    var m1 := Apply(m0, calls[0]);
    FinishedNext(m1);
    var m2 := Apply(m1, calls[1]);
    FinalizedFirst(m2);
    RunNext(m0, [], calls[0]);
    RunNext(m0, [] + [calls[0]], calls[1]);
    RunNext(m0, [] + [calls[0]] + [calls[1]], calls[2]);
    assert [] + [calls[0]] + [calls[1]] + [calls[2]] == calls;
  }

  lemma RunNext(m: Manager, calls: seq<Call>, call: Call)
    requires Run(m, calls).Some? && Enabled(Run(m, calls).value, call)
    ensures Run(m, calls + [call]) == Some(Apply(Run(m, calls).value, call))
  {
    assert (calls + [call])[..|calls|] == calls;
  }
}
