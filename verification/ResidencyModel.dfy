/** Which sessions own which blocks, where blocks are, and which transfers are under way. */
module ResidencyModel {
  import opened Basics
  import opened Wrappers

  datatype Session = Session(id: nat)
  datatype Tier = Tier(id: nat)
  type Time = real

  datatype Transfer = Transfer(source: Tier, target: Tier)

  datatype Block = Block(
    cpu: bool, secondary: set<Tier>, sessions: set<Session>, inflight: map<Transfer, nat>,
    lastAccess: Time, idleSince: Option<Time>, accesses: nat)

  datatype Tracker = Tracker(blocks: map<Key, Block>, sessionKeys: map<Session, set<Key>>, active: set<Session>)

  function Empty(): Tracker {
    Tracker(map[], map[], {})
  }

  function KeysOf(t: Tracker, s: Session): set<Key> {
    if s in t.sessionKeys then t.sessionKeys[s] else {}
  }

  predicate HasActive(b: Block, active: set<Session>) {
    b.sessions * active != {}
  }

  function Created(now: Time): Block {
    Block(false, {}, {}, map[], now, None, 0)
  }

  function GetOrCreate(t: Tracker, key: Key, now: Time): Block {
    if key in t.blocks then t.blocks[key] else Created(now)
  }

  /** An idle time that is not set, or set to zero, becomes `now`. */
  function OrNow(idle: Option<Time>, now: Time): Option<Time> {
    if idle == None || idle == Some(0.0) then Some(now) else idle
  }

  /* ---- sessions ---- */

  function Activate(t: Tracker, s: Session, now: Time): Tracker {
    t.(active := t.active + {s},
       blocks := map key | key in t.blocks ::
         if key in KeysOf(t, s) then t.blocks[key].(idleSince := None, lastAccess := now) else t.blocks[key])
  }

  function Deactivate(t: Tracker, s: Session, now: Time): Tracker {
    var active := t.active - {s};
    t.(active := active,
       blocks := map key | key in t.blocks ::
         if key in KeysOf(t, s) && !HasActive(t.blocks[key], active) then t.blocks[key].(idleSince := Some(now))
         else t.blocks[key])
  }

  function Touched(b: Block, s: Session, active: bool, now: Time): Block {
    b.(sessions := b.sessions + {s}, lastAccess := now, accesses := b.accesses + 1,
       idleSince := if active then None else b.idleSince)
  }

  function TouchOne(t: Tracker, s: Session, key: Key, now: Time): Tracker {
    t.(blocks := t.blocks[key := Touched(GetOrCreate(t, key, now), s, s in t.active, now)],
       sessionKeys := t.sessionKeys[s := KeysOf(t, s) + {key}])
  }

  /** A session accesses keys, one after the other; each time counts. */
  function Access(t: Tracker, s: Session, keys: seq<Key>, now: Time): Tracker {
    if keys == [] then t.(sessionKeys := t.sessionKeys[s := KeysOf(t, s)])
    else TouchOne(Access(t, s, keys[..|keys| - 1], now), s, keys[|keys| - 1], now)
  }

  function Let(b: Block, gone: set<Session>, active: set<Session>, now: Time): Block {
    var left := b.(sessions := b.sessions - gone);
    if b.sessions * gone == {} || HasActive(left, active) then left
    else left.(idleSince := OrNow(b.idleSince, now))
  }

  /** Some sessions are gone: their blocks are no longer theirs. */
  function Release(t: Tracker, gone: set<Session>, now: Time): Tracker {
    var active := t.active - gone;
    Tracker(map key | key in t.blocks :: Let(t.blocks[key], gone, active, now), t.sessionKeys - gone, active)
  }

  /** The blocks that only sessions in `gone` own. */
  function Orphans(t: Tracker, gone: set<Session>): set<Key> {
    set key | key in t.blocks && t.blocks[key].sessions != {} && t.blocks[key].sessions <= gone
  }

  /* ---- residency and transfers ---- */

  function MarkCpu(t: Tracker, keys: seq<Key>, resident: bool, now: Time): Tracker {
    if keys == [] then t
    else
      var before, key := MarkCpu(t, keys[..|keys| - 1], resident, now), keys[|keys| - 1];
      before.(blocks := before.blocks[key := GetOrCreate(before, key, now).(cpu := resident)])
  }

  function Placed(b: Block, tier: Tier, resident: bool): Block {
    b.(secondary := if resident then b.secondary + {tier} else b.secondary - {tier})
  }

  function MarkSecondary(t: Tracker, keys: seq<Key>, tier: Tier, resident: bool, now: Time): Tracker {
    if keys == [] then t
    else
      var before, key := MarkSecondary(t, keys[..|keys| - 1], tier, resident, now), keys[|keys| - 1];
      before.(blocks := before.blocks[key := Placed(GetOrCreate(before, key, now), tier, resident)])
  }

  function Count(inflight: map<Transfer, nat>, tr: Transfer): nat {
    if tr in inflight then inflight[tr] else 0
  }

  function Started(b: Block, tr: Transfer): Block {
    b.(inflight := b.inflight[tr := Count(b.inflight, tr) + 1])
  }

  function Finished(b: Block, tr: Transfer): Block {
    b.(inflight := if Count(b.inflight, tr) <= 1 then b.inflight - {tr} else b.inflight[tr := Count(b.inflight, tr) - 1])
  }

  function Start(t: Tracker, keys: seq<Key>, tr: Transfer, now: Time): Tracker {
    if keys == [] then t
    else
      var before, key := Start(t, keys[..|keys| - 1], tr, now), keys[|keys| - 1];
      before.(blocks := before.blocks[key := Started(GetOrCreate(before, key, now), tr)])
  }

  /** A finished transfer of a block that is not tracked is ignored. */
  function Finish(t: Tracker, keys: seq<Key>, tr: Transfer): Tracker {
    if keys == [] then t
    else
      var before, key := Finish(t, keys[..|keys| - 1], tr), keys[|keys| - 1];
      if key in before.blocks then before.(blocks := before.blocks[key := Finished(before.blocks[key], tr)]) else before
  }

  /* ---- pruning ---- */

  predicate Prunable(b: Block) {
    b.sessions == {} && !b.cpu && b.inflight == map[]
  }

  function PrunableKeys(t: Tracker): set<Key> {
    set key | key in t.blocks && Prunable(t.blocks[key])
  }

  function Min(a: int, b: int): int {
    if a <= b then a else b
  }

  /** What pruning may remove: as many blocks as are too many, prunable ones only, the oldest first. */
  ghost predicate PrunedSet(t: Tracker, most: nat, gone: set<Key>) {
    && gone <= PrunableKeys(t)
    && |gone| == (if |t.blocks| <= most then 0 else Min(|t.blocks| - most, |PrunableKeys(t)|))
    && forall k, k' :: k in gone && k' in PrunableKeys(t) - gone ==> t.blocks[k].lastAccess <= t.blocks[k'].lastAccess
  }

  function Pruned(t: Tracker, gone: set<Key>): Tracker {
    t.(blocks := t.blocks - gone)
  }

  /* ---- the invariant ---- */

  /** Sessions own the blocks that list them, and no others. */
  ghost predicate Inverse(t: Tracker) {
    forall key, s :: key in t.blocks && s in t.blocks[key].sessions <==> s in t.sessionKeys && key in t.sessionKeys[s]
  }

  /** A block of an active session is not idle. */
  ghost predicate ActiveNotIdle(t: Tracker) {
    forall key :: key in t.blocks && HasActive(t.blocks[key], t.active) ==> t.blocks[key].idleSince == None
  }

  ghost predicate NoZeroCounts(t: Tracker) {
    forall key, tr :: key in t.blocks && tr in t.blocks[key].inflight ==> t.blocks[key].inflight[tr] > 0
  }

  ghost predicate Valid(t: Tracker) {
    Inverse(t) && ActiveNotIdle(t) && NoZeroCounts(t)
  }

  lemma ActivateKeeps(t: Tracker, s: Session, now: Time)
    requires Valid(t)
    ensures Valid(Activate(t, s, now))
  {
    var t' := Activate(t, s, now);
    forall key | key in t'.blocks && HasActive(t'.blocks[key], t'.active) ensures t'.blocks[key].idleSince == None {
      if key !in KeysOf(t, s) {
        assert s !in t.blocks[key].sessions;
        assert t.blocks[key].sessions * t'.active == t.blocks[key].sessions * t.active;
      }
    }
  }

  lemma DeactivateKeeps(t: Tracker, s: Session, now: Time)
    requires Valid(t)
    ensures Valid(Deactivate(t, s, now))
  {
    var t' := Deactivate(t, s, now);
    forall key | key in t'.blocks && HasActive(t'.blocks[key], t'.active) ensures t'.blocks[key].idleSince == None {
      assert HasActive(t.blocks[key], t.active) by {
        var x :| x in t.blocks[key].sessions * t'.active;
        assert x in t.blocks[key].sessions * t.active;
      }
    }
  }

  lemma TouchInverse(t: Tracker, s: Session, key: Key, now: Time)
    requires Inverse(t)
    ensures Inverse(TouchOne(t, s, key, now))
  {
    var t' := TouchOne(t, s, key, now);
    forall k, x
      ensures k in t'.blocks && x in t'.blocks[k].sessions <==> x in t'.sessionKeys && k in t'.sessionKeys[x]
    {
      assert k in t.blocks && x in t.blocks[k].sessions <==> x in t.sessionKeys && k in t.sessionKeys[x];
    }
  }

  lemma TouchKeeps(t: Tracker, s: Session, key: Key, now: Time)
    requires Valid(t)
    ensures Valid(TouchOne(t, s, key, now)) && TouchOne(t, s, key, now).active == t.active
  {
    var t', b := TouchOne(t, s, key, now), GetOrCreate(t, key, now);
    TouchInverse(t, s, key, now);
    if HasActive(t'.blocks[key], t'.active) && s !in t.active {
      assert t'.blocks[key].sessions * t.active == b.sessions * t.active;
      assert HasActive(b, t.active);
    }
  }

  function KeySet(keys: seq<Key>): set<Key> {
    if keys == [] then {} else KeySet(keys[..|keys| - 1]) + {keys[|keys| - 1]}
  }

  /** What an access does to the sessions. */
  ghost predicate Accessed(t: Tracker, s: Session, keys: set<Key>, t': Tracker) {
    && t'.active == t.active
    && t'.sessionKeys == t.sessionKeys[s := KeysOf(t, s) + keys]
  }

  lemma {:induction false} AccessOwns(t: Tracker, s: Session, keys: seq<Key>, now: Time)
    ensures Accessed(t, s, KeySet(keys), Access(t, s, keys, now))
  {
    if keys != [] {
      var n := |keys| - 1;
      AccessOwns(t, s, keys[..n], now);
      assert KeysOf(t, s) + KeySet(keys[..n]) + {keys[n]} == KeysOf(t, s) + KeySet(keys);
    } else {
      assert KeysOf(t, s) + {} == KeysOf(t, s);
    }
  }

  lemma {:induction false} AccessKeeps(t: Tracker, s: Session, keys: seq<Key>, now: Time)
    requires Valid(t)
    ensures Valid(Access(t, s, keys, now))
  {
    if keys != [] {
      AccessKeeps(t, s, keys[..|keys| - 1], now);
      TouchKeeps(Access(t, s, keys[..|keys| - 1], now), s, keys[|keys| - 1], now);
    }
  }

  lemma ReleaseKeeps(t: Tracker, gone: set<Session>, now: Time)
    requires Valid(t)
    ensures Valid(Release(t, gone, now))
  {
    var t' := Release(t, gone, now);
    forall key, s ensures key in t'.blocks && s in t'.blocks[key].sessions <==> s in t'.sessionKeys && key in t'.sessionKeys[s] {
      assert key in t.blocks && s in t.blocks[key].sessions <==> s in t.sessionKeys && key in t.sessionKeys[s];
    }
    forall key | key in t'.blocks && HasActive(t'.blocks[key], t'.active) ensures t'.blocks[key].idleSince == None {
      assert HasActive(t.blocks[key], t.active) by {
        var x :| x in t'.blocks[key].sessions * t'.active;
        assert x in t.blocks[key].sessions * t.active;
      }
    }
  }

  lemma LetTwice(b: Block, gone: set<Session>, s: Session, active: set<Session>, now: Time)
    ensures Let(Let(b, gone, active - gone, now), {s}, active - gone - {s}, now) == Let(b, gone + {s}, active - (gone + {s}), now)
  {
    assert active - gone - {s} == active - (gone + {s});
    var one := Let(b, gone, active - gone, now);
    var two := b.(sessions := b.sessions - (gone + {s}));
    assert b.sessions - gone - {s} == two.sessions;
    assert one.sessions == b.sessions - gone;
    if HasActive(two, active - (gone + {s})) {
      var x :| x in two.sessions * (active - (gone + {s}));
      assert x in one.sessions * (active - gone);
    } else if s !in b.sessions {
      assert one.sessions * (active - gone) == two.sessions * (active - (gone + {s}));
      assert b.sessions * gone == b.sessions * (gone + {s});
      assert one.sessions * {s} == {};
    } else {
      assert s in b.sessions * (gone + {s});
      if s in gone {
        assert gone + {s} == gone;
        assert one.sessions * {s} == {};
      } else {
        assert s in one.sessions * {s};
      }
    }
  }

  /** Releasing sessions one by one, in any order, is releasing them together. */
  lemma ReleaseOneMore(t: Tracker, gone: set<Session>, s: Session, now: Time)
    ensures Release(Release(t, gone, now), {s}, now) == Release(t, gone + {s}, now)
  {
    var one, two := Release(Release(t, gone, now), {s}, now), Release(t, gone + {s}, now);
    assert t.active - gone - {s} == t.active - (gone + {s});
    assert t.sessionKeys - gone - {s} == t.sessionKeys - (gone + {s});
    forall key | key in t.blocks ensures one.blocks[key] == two.blocks[key] {
      LetTwice(t.blocks[key], gone, s, t.active, now);
    }
    assert one.blocks == two.blocks;
  }

  /** ... and the blocks that each of them leaves without an owner are, together, the orphans. */
  lemma OrphansOneMore(t: Tracker, gone: set<Session>, s: Session, now: Time)
    ensures Orphans(t, gone + {s}) == Orphans(t, gone) + Orphans(Release(t, gone, now), {s})
  {
    var after := Release(t, gone, now);
    forall key ensures key in Orphans(t, gone + {s}) <==> key in Orphans(t, gone) || key in Orphans(after, {s}) {
      if key in t.blocks {
        assert after.blocks[key].sessions == t.blocks[key].sessions - gone;
        if key in Orphans(t, gone + {s}) && key !in Orphans(t, gone) {
          assert after.blocks[key].sessions != {};
        }
      }
    }
  }

  /** With exact indexes, a session's orphans are the keys that no other session has. */
  lemma OrphansAre(t: Tracker, gone: set<Session>, key: Key)
    requires Inverse(t)
    ensures key in Orphans(t, gone) <==>
              && (exists s :: s in gone && key in KeysOf(t, s))
              && (forall s :: key in KeysOf(t, s) ==> s in gone)
  {
    forall s ensures key in KeysOf(t, s) <==> key in t.blocks && s in t.blocks[key].sessions {
      assert key in t.blocks && s in t.blocks[key].sessions <==> s in t.sessionKeys && key in t.sessionKeys[s];
    }
    if key in Orphans(t, gone) {
      var s :| s in t.blocks[key].sessions;
      assert s in gone && key in KeysOf(t, s);
    }
  }

  /* ---- blocks that change without their owners ---- */

  /** The same owners and idle times; new blocks have neither. */
  ghost predicate SameOwners(t: Tracker, t': Tracker) {
    && t'.sessionKeys == t.sessionKeys && t'.active == t.active
    && (forall key :: key in t.blocks ==>
          key in t'.blocks && t'.blocks[key].sessions == t.blocks[key].sessions && t'.blocks[key].idleSince == t.blocks[key].idleSince)
    && (forall key :: key in t'.blocks && key !in t.blocks ==> t'.blocks[key].sessions == {})
    && (NoZeroCounts(t) ==> NoZeroCounts(t'))
  }

  lemma {:induction false} MarkCpuSame(t: Tracker, keys: seq<Key>, resident: bool, now: Time)
    ensures SameOwners(t, MarkCpu(t, keys, resident, now))
  {
    if keys != [] {
      MarkCpuSame(t, keys[..|keys| - 1], resident, now);
    }
  }

  lemma {:induction false} MarkSecondarySame(t: Tracker, keys: seq<Key>, tier: Tier, resident: bool, now: Time)
    ensures SameOwners(t, MarkSecondary(t, keys, tier, resident, now))
  {
    if keys != [] {
      MarkSecondarySame(t, keys[..|keys| - 1], tier, resident, now);
    }
  }

  lemma {:induction false} StartSame(t: Tracker, keys: seq<Key>, tr: Transfer, now: Time)
    ensures SameOwners(t, Start(t, keys, tr, now))
  {
    if keys != [] {
      StartSame(t, keys[..|keys| - 1], tr, now);
    }
  }

  lemma {:induction false} FinishSame(t: Tracker, keys: seq<Key>, tr: Transfer)
    ensures SameOwners(t, Finish(t, keys, tr))
  {
    if keys != [] {
      FinishSame(t, keys[..|keys| - 1], tr);
    }
  }

  lemma PruneKeeps(t: Tracker, gone: set<Key>)
    requires Valid(t) && gone <= PrunableKeys(t)
    ensures Valid(Pruned(t, gone))
  {
    var t' := Pruned(t, gone);
    forall key, s ensures key in t'.blocks && s in t'.blocks[key].sessions <==> s in t'.sessionKeys && key in t'.sessionKeys[s] {
      assert key in t.blocks && s in t.blocks[key].sessions <==> s in t.sessionKeys && key in t.sessionKeys[s];
    }
  }

  /** Pruning ends within the bound, or with no prunable block left. */
  lemma PruneBounds(t: Tracker, most: nat, gone: set<Key>)
    requires PrunedSet(t, most, gone)
    ensures |Pruned(t, gone).blocks| <= most || PrunableKeys(Pruned(t, gone)) == {}
    ensures |t.blocks| <= most ==> Pruned(t, gone) == t
    ensures |Pruned(t, gone).blocks| + |gone| == |t.blocks|
  {
    Minus(t.blocks.Keys, gone);
    FewEnough(t.blocks.Keys, PrunableKeys(t), gone, most);
    BlocksLeft(t, Pruned(t, gone), gone);
  }

  lemma BlocksLeft(t: Tracker, t': Tracker, gone: set<Key>)
    requires t' == Pruned(t, gone)
    ensures t'.blocks.Keys == t.blocks.Keys - gone
    ensures PrunableKeys(t') == PrunableKeys(t) - gone
    ensures gone == {} ==> t' == t
  {
    assert t.blocks - {} == t.blocks;
  }

  /** Taking away as many as are too many, out of some, leaves few enough or none of those. */
  lemma FewEnough<T>(all: set<T>, some: set<T>, gone: set<T>, most: nat)
    requires gone <= some <= all
    requires |gone| == if |all| <= most then 0 else Min(|all| - most, |some|)
    ensures |all - gone| <= most || some - gone == {}
    ensures |all| <= most ==> gone == {}
  {
    Minus(all, gone);
    Minus(some, gone);
    assert |some - gone| == 0 ==> some - gone == {};
  }

  lemma Minus<T>(a: set<T>, b: set<T>)
    requires b <= a
    ensures |a - b| + |b| == |a|
  {
    assert a == (a - b) + b;
  }
}
