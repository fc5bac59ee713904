/** The tracker of blocks: which sessions own them, where they are, and what moves. */
module Residencies {
  import opened Basics
  import opened Wrappers
  import opened Ages
  import opened ResidencyModel

  class BlockResidencyTracker {
    const maxEntries: nat
    var blocks: map<Key, Block>
    var sessionKeys: map<Session, set<Key>>
    var active: set<Session>

    ghost function State(): Tracker
      reads this
    {
      Tracker(blocks, sessionKeys, active)
    }

    constructor (maxEntries: nat)
      requires 0 < maxEntries
      ensures State() == Empty() && this.maxEntries == maxEntries
    {
      this.maxEntries := maxEntries;
      blocks, sessionKeys, active := map[], map[], {};
    }

    method OnSessionActive(s: Session, now: Time)
      modifies this`blocks, this`active
      ensures State() == Activate(old(State()), s, now)
    {
      active := active + {s};
      var keys := if s in sessionKeys then sessionKeys[s] else {};
      var left := keys;
      while left != {}
        invariant left <= keys && active == old(active) + {s} && blocks.Keys == old(blocks).Keys
        invariant forall key :: key in blocks ==>
                    blocks[key] == if key in keys - left then old(blocks)[key].(idleSince := None, lastAccess := now) else old(blocks)[key]
        decreases left
      {
        var key :| key in left;
        left := left - {key};
        if key in blocks {
          blocks := blocks[key := blocks[key].(idleSince := None, lastAccess := now)];
        }
      }
    }

    method OnSessionIdle(s: Session, now: Time)
      modifies this`blocks, this`active
      ensures State() == Deactivate(old(State()), s, now)
    {
      active := active - {s};
      var keys := if s in sessionKeys then sessionKeys[s] else {};
      var left := keys;
      while left != {}
        invariant left <= keys && active == old(active) - {s} && blocks.Keys == old(blocks).Keys
        invariant forall key :: key in blocks ==>
                    blocks[key] == if key in keys - left && !HasActive(old(blocks)[key], active)
                                   then old(blocks)[key].(idleSince := Some(now)) else old(blocks)[key]
        decreases left
      {
        var key :| key in left;
        left := left - {key};
        if key in blocks && blocks[key].sessions * active == {} {
          blocks := blocks[key := blocks[key].(idleSince := Some(now))];
        }
      }
    }

    method RecordAccess(s: Session, keys: seq<Key>, now: Time)
      modifies this`blocks, this`sessionKeys
      ensures State() == Access(old(State()), s, keys, now)
    {
      var mine := if s in sessionKeys then sessionKeys[s] else {};
      sessionKeys := sessionKeys[s := mine];
      for i := 0 to |keys|
        invariant State() == Access(old(State()), s, keys[..i], now)
        invariant s in sessionKeys
      {
        assert keys[..i + 1][..i] == keys[..i];
        Touch(s, keys[i], now);
      }
      assert keys[..|keys|] == keys;
    }

    method Touch(s: Session, key: Key, now: Time)
      requires s in sessionKeys
      modifies this`blocks, this`sessionKeys
      ensures State() == TouchOne(old(State()), s, key, now) && s in sessionKeys
    {
      var b := if key in blocks then blocks[key] else Created(now);
      b := b.(sessions := b.sessions + {s}, lastAccess := now, accesses := b.accesses + 1);
      if s in active {
        b := b.(idleSince := None);
      }
      blocks := blocks[key := b];
      sessionKeys := sessionKeys[s := sessionKeys[s] + {key}];
    }

    /** A session is gone; returns the blocks that it leaves without an owner. */
    method ReleaseSession(s: Session, now: Time) returns (unreferenced: set<Key>)
      requires Inverse(State())
      modifies this
      ensures State() == Release(old(State()), {s}, now)
      ensures unreferenced == Orphans(old(State()), {s})
    {
      active := active - {s};
      var keys := if s in sessionKeys then sessionKeys[s] else {};
      sessionKeys := sessionKeys - {s};
      unreferenced := {};
      OwnedBy(old(State()), s, keys);
      var left := keys;
      while left != {}
        invariant left <= keys && active == old(active) - {s} && sessionKeys == old(sessionKeys) - {s}
        invariant blocks.Keys == old(blocks).Keys
        invariant forall key :: key in blocks ==>
                    blocks[key] == if key in keys - left then Let(old(blocks)[key], {s}, active, now) else old(blocks)[key]
        invariant forall key :: key in unreferenced <==> key in keys - left && old(blocks)[key].sessions == {s}
        decreases left
      {
        var key :| key in left;
        left := left - {key};
        assert key in old(blocks) && s in old(blocks)[key].sessions;
        assert s in old(blocks)[key].sessions * {s};
        if key in blocks {
          var b := blocks[key].(sessions := blocks[key].sessions - {s});
          if b.sessions == {} {
            b := b.(idleSince := OrNow(b.idleSince, now));
            unreferenced := unreferenced + {key};
          } else if b.sessions * active == {} {
            b := b.(idleSince := OrNow(b.idleSince, now));
          }
          blocks := blocks[key := b];
        }
      }
      ReleasedAll(old(State()), blocks, s, keys, now);
    }

    method MarkCpuResident(keys: seq<Key>, resident: bool, now: Time)
      modifies this`blocks
      ensures State() == MarkCpu(old(State()), keys, resident, now)
    {
      for i := 0 to |keys|
        invariant State() == MarkCpu(old(State()), keys[..i], resident, now)
      {
        assert keys[..i + 1][..i] == keys[..i];
        var b := if keys[i] in blocks then blocks[keys[i]] else Created(now);
        blocks := blocks[keys[i] := b.(cpu := resident)];
      }
      assert keys[..|keys|] == keys;
    }

    method MarkSecondaryResident(keys: seq<Key>, tier: Tier, resident: bool, now: Time)
      modifies this`blocks
      ensures State() == MarkSecondary(old(State()), keys, tier, resident, now)
    {
      for i := 0 to |keys|
        invariant State() == MarkSecondary(old(State()), keys[..i], tier, resident, now)
      {
        assert keys[..i + 1][..i] == keys[..i];
        var b := if keys[i] in blocks then blocks[keys[i]] else Created(now);
        if resident {
          b := b.(secondary := b.secondary + {tier});
        } else {
          b := b.(secondary := b.secondary - {tier});
        }
        blocks := blocks[keys[i] := b];
      }
      assert keys[..|keys|] == keys;
    }

    method StartTransfer(keys: seq<Key>, source: Tier, target: Tier, now: Time)
      modifies this`blocks
      ensures State() == Start(old(State()), keys, Transfer(source, target), now)
    {
      var transfer := Transfer(source, target);
      for i := 0 to |keys|
        invariant State() == Start(old(State()), keys[..i], transfer, now)
      {
        assert keys[..i + 1][..i] == keys[..i];
        var b := if keys[i] in blocks then blocks[keys[i]] else Created(now);
        var count := if transfer in b.inflight then b.inflight[transfer] else 0;
        blocks := blocks[keys[i] := b.(inflight := b.inflight[transfer := count + 1])];
      }
      assert keys[..|keys|] == keys;
    }

    method FinishTransfer(keys: seq<Key>, source: Tier, target: Tier)
      modifies this`blocks
      ensures State() == Finish(old(State()), keys, Transfer(source, target))
    {
      var transfer := Transfer(source, target);
      for i := 0 to |keys|
        invariant State() == Finish(old(State()), keys[..i], transfer)
      {
        assert keys[..i + 1][..i] == keys[..i];
        if keys[i] in blocks {
          var b := blocks[keys[i]];
          var count: nat := if transfer in b.inflight then b.inflight[transfer] else 0;
          if count <= 1 {
            b := b.(inflight := b.inflight - {transfer});
          } else {
            b := b.(inflight := b.inflight[transfer := count - 1]);
          }
          blocks := blocks[keys[i] := b];
        }
      }
      assert keys[..|keys|] == keys;
    }

    /** Blocks that could leave the CPU tier, the longest idle first: on the CPU and elsewhere, not
        moving, of one idle session at most. */
    method GetIdleCpuCandidates(limit: nat, before: Option<Time>) returns (chosen: seq<Key>)
      ensures OldestOf(IdleCandidates(State(), before), IdleAges(State(), before), limit, First(chosen, |chosen|))
      ensures Distinct(chosen) && (forall key :: key in chosen ==> key in IdleAges(State(), before))
      ensures Ordered(chosen, IdleAges(State(), before))
    {
      var candidates := set key | key in blocks && IdleCandidate(blocks[key], active, before);
      var ages := map key | key in candidates :: IdleAge(blocks[key]);
      assert candidates == IdleCandidates(State(), before) && ages == IdleAges(State(), before);
      chosen := TakeOldest(candidates, ages, limit);
    }

    /** Forgets the oldest blocks that nobody needs, until few enough are tracked. */
    method Prune() returns (removed: nat, ghost gone: set<Key>)
      modifies this`blocks
      ensures PrunedSet(old(State()), maxEntries, gone) && State() == Pruned(old(State()), gone)
      ensures removed == |gone| == |old(blocks)| - |blocks|
    {
      gone := {};
      var excess := |blocks| - maxEntries;
      if excess <= 0 {
        assert blocks - {} == blocks;
        return 0, gone;
      }
      var candidates := set key | key in blocks && Prunable(blocks[key]);
      var ages := map key | key in candidates :: Age(blocks[key].lastAccess, 0.0);
      var chosen := TakeOldest(candidates, ages, excess);
      OldestArePruned(State(), maxEntries, candidates, ages, First(chosen, |chosen|));
      Remove(chosen);
      gone := First(chosen, |chosen|);
      removed := |chosen|;
      PruneBounds(old(State()), maxEntries, gone);
    }

    method Remove(chosen: seq<Key>)
      modifies this`blocks
      ensures State() == Pruned(old(State()), First(chosen, |chosen|))
    {
      assert blocks - {} == blocks;
      for i := 0 to |chosen|
        invariant blocks == old(blocks) - First(chosen, i)
      {
        blocks := blocks - {chosen[i]};
      }
    }
  }

  lemma OldestArePruned(t: Tracker, most: nat, candidates: set<Key>, ages: map<Key, Age>, gone: set<Key>)
    requires candidates == PrunableKeys(t) && ages == map key | key in candidates :: Age(t.blocks[key].lastAccess, 0.0)
    requires most < |t.blocks| && OldestOf(candidates, ages, |t.blocks| - most, gone)
    ensures PrunedSet(t, most, gone)
  {
    forall k, k' | k in gone && k' in candidates - gone ensures t.blocks[k].lastAccess <= t.blocks[k'].lastAccess {
      assert NotAfter(ages[k], ages[k']);
    }
  }

  predicate IdleCandidate(b: Block, active: set<Session>, before: Option<Time>) {
    && b.cpu && b.secondary != {} && b.inflight == map[] && !HasActive(b, active) && |b.sessions| <= 1
    && b.idleSince.Some? && (before.Some? ==> b.idleSince.value <= before.value)
  }

  function IdleCandidates(t: Tracker, before: Option<Time>): set<Key> {
    set key | key in t.blocks && IdleCandidate(t.blocks[key], t.active, before)
  }

  function IdleAge(b: Block): Age {
    Age(if b.idleSince.Some? then b.idleSince.value else 0.0, b.lastAccess)
  }

  function IdleAges(t: Tracker, before: Option<Time>): map<Key, Age> {
    map key | key in IdleCandidates(t, before) :: IdleAge(t.blocks[key])
  }

  /** What the choice of candidates means: each is on the CPU and elsewhere, does not move, and is idle for
      long enough, with no active owner and one owner at most; they come the longest idle first. */
  lemma CandidatesAreIdle(t: Tracker, before: Option<Time>, chosen: seq<Key>, i: nat)
    requires (forall key :: key in chosen ==> key in IdleAges(t, before)) && Ordered(chosen, IdleAges(t, before))
    requires i < |chosen|
    ensures chosen[i] in t.blocks
    ensures var b := t.blocks[chosen[i]];
      && b.cpu && (exists tier :: tier in b.secondary) && b.inflight == map[]
      && (forall s :: s in b.sessions ==> s !in t.active) && |b.sessions| <= 1
      && b.idleSince.Some? && (before.Some? ==> b.idleSince.value <= before.value)
    ensures forall j :: i < j < |chosen| ==> chosen[j] in t.blocks && IdleNoLater(t.blocks[chosen[i]], t.blocks[chosen[j]])
  {
    assert chosen[i] in chosen;
    forall j | i < j < |chosen| ensures chosen[j] in t.blocks && IdleNoLater(t.blocks[chosen[i]], t.blocks[chosen[j]]) {
      assert chosen[j] in chosen;
    }
    forall s | s in t.blocks[chosen[i]].sessions ensures s !in t.active {
      assert s !in t.blocks[chosen[i]].sessions * t.active;
    }
    var tier :| tier in t.blocks[chosen[i]].secondary;
  }

  /** ... and a block like that is left out only if there is no room, for blocks that are idle as long. */
  lemma NoCandidateLeftOut(t: Tracker, before: Option<Time>, limit: nat, chosen: seq<Key>, key: Key)
    requires OldestOf(IdleCandidates(t, before), IdleAges(t, before), limit, First(chosen, |chosen|)) && Distinct(chosen)
    requires key in t.blocks && key !in chosen
    requires var b := t.blocks[key];
      && b.cpu && (exists tier :: tier in b.secondary) && b.inflight == map[]
      && (forall s :: s in b.sessions ==> s !in t.active) && |b.sessions| <= 1
      && b.idleSince.Some? && (before.Some? ==> b.idleSince.value <= before.value)
    ensures |chosen| == limit
    ensures forall k :: k in chosen ==> k in t.blocks && IdleNoLater(t.blocks[k], t.blocks[key])
  {
    var b := t.blocks[key];
    assert b.sessions * t.active == {};
    assert key in IdleCandidates(t, before);
    FirstFacts(chosen, |chosen|);
    assert key !in First(chosen, |chosen|);
    forall k | k in chosen ensures k in t.blocks && IdleNoLater(t.blocks[k], t.blocks[key]) {
      assert k in First(chosen, |chosen|);
      assert NotAfter(IdleAges(t, before)[k], IdleAges(t, before)[key]);
    }
    if |chosen| < limit {
      Chosen(IdleCandidates(t, before), First(chosen, |chosen|));
    }
  }

  lemma Chosen<T>(all: set<T>, some: set<T>)
    requires some <= all && |some| == |all|
    ensures some == all
  {
    assert all == some + (all - some);
  }

  predicate IdleNoLater(a: Block, b: Block) {
    a.idleSince.Some? && b.idleSince.Some? &&
    (a.idleSince.value < b.idleSince.value || (a.idleSince == b.idleSince && a.lastAccess <= b.lastAccess))
  }

  lemma OwnedBy(t: Tracker, s: Session, keys: set<Key>)
    requires Inverse(t) && keys == KeysOf(t, s)
    ensures forall key :: key in keys <==> key in t.blocks && s in t.blocks[key].sessions
  {
    forall key ensures key in keys <==> key in t.blocks && s in t.blocks[key].sessions {
      assert key in t.blocks && s in t.blocks[key].sessions <==> s in t.sessionKeys && key in t.sessionKeys[s];
    }
  }

  lemma ReleasedAll(t: Tracker, blocks: map<Key, Block>, s: Session, keys: set<Key>, now: Time)
    requires forall key :: key in keys <==> key in t.blocks && s in t.blocks[key].sessions
    requires blocks.Keys == t.blocks.Keys
    requires forall key :: key in blocks ==>
               blocks[key] == if key in keys then Let(t.blocks[key], {s}, t.active - {s}, now) else t.blocks[key]
    ensures blocks == Release(t, {s}, now).blocks
    ensures forall key :: key in Orphans(t, {s}) <==> key in keys && t.blocks[key].sessions == {s}
  {
    forall key | key in blocks && key !in keys ensures Let(t.blocks[key], {s}, t.active - {s}, now) == t.blocks[key] {
      assert t.blocks[key].sessions - {s} == t.blocks[key].sessions;
      assert t.blocks[key].sessions * {s} == {};
    }
    forall key | key in Orphans(t, {s}) ensures t.blocks[key].sessions == {s} {
      var x :| x in t.blocks[key].sessions;
    }
  }
}
