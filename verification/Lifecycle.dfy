/** The lifecycle manager: sessions, their deadlines, and the blocks they own. */
module Lifecycles {
  import opened Basics
  import opened Wrappers
  import opened Ages
  import opened ResidencyModel
  import opened LifecycleModel
  import opened Residencies

  class SessionLifecycleManager {
    const config: Config
    const residency: BlockResidencyTracker
    var sessions: map<Session, SessionState>
    var requestSession: map<Request, Session>
    var next: Option<Time>

    ghost function State(): Manager
      reads this, residency
    {
      Manager(config, sessions, requestSession, next, residency.State())
    }

    constructor (config: Config, maxEntries: nat)
      requires 0 < maxEntries
      ensures State() == Initial(config) && fresh(residency)
    {
      this.config := config;
      residency := new BlockResidencyTracker(maxEntries);
      sessions, requestSession, next := map[], map[], None;
    }

    method Find(ctx: Context) returns (s: Option<Session>)
      ensures s == LifecycleModel.Find(State(), ctx)
    {
      var named := if ctx.request in requestSession then requestSession[ctx.request] else SessionOf(ctx);
      s := if named in sessions then Some(named) else None;
    }

    /** The earliest deadline of the idle sessions. */
    method RefreshNextExpiration()
      modifies this`next
      ensures State() == Refresh(old(State()))
    {
      if config.ttl <= 0.0 {
        next := None;
        return;
      }
      var left := sessions.Keys;
      var least: Option<Time> := None;
      while left != {}
        invariant left <= sessions.Keys
        invariant LeastSoFar(sessions, sessions.Keys - left, least)
        decreases left
      {
        var s :| s in left;
        LeastNext(sessions, sessions.Keys - left, least, s);
        if sessions[s].status.Idle? && sessions[s].deadline.Some? {
          least := Sooner(least, sessions[s].deadline);
        }
        assert sessions.Keys - left + {s} == sessions.Keys - (left - {s});
        left := left - {s};
      }
      assert sessions.Keys - left == sessions.Keys;
      LeastDone(sessions, least);
      next := least;
    }

    method OnNewRequest(ctx: Context, heat: bool, now: Time) returns (s: Session)
      modifies this, residency
      ensures s == SessionOf(ctx) && State() == NewRequest(old(State()), ctx, heat, now)
    {
      s := SessionOf(ctx);
      if !config.enabled && !heat {
        return;
      }
      ghost var served := Served(State(), ctx, now);
      if s in sessions {
        sessions := sessions[s := sessions[s].(status := Active, lastAccess := now, deadline := None)];
        ghost var resumed := sessions;
        RefreshNextExpiration();
        SameDeadlines(resumed, resumed[s := served], s);
        assert resumed[s := served] == old(sessions)[s := served];
      } else {
        sessions := sessions[s := NewState(ctx, now)];
      }
      var st := sessions[s];
      assert served == st.(serving := st.serving + {ctx.request}, retained := st.retained - {ctx.request}, requests := st.requests + 1);
      sessions := sessions[s := st.(serving := st.serving + {ctx.request}, retained := st.retained - {ctx.request},
                                    requests := st.requests + 1)];
      assert sessions == old(sessions)[s := served];
      requestSession := requestSession[ctx.request := s];
      if config.enabled {
        residency.OnSessionActive(s, now);
      }
    }

    method RecordRequestKeys(ctx: Context, keys: seq<Key>, now: Time)
      modifies this, residency
      ensures State() == RecordKeys(old(State()), ctx, keys, now)
    {
      if !config.enabled {
        return;
      }
      var s := Find(ctx);
      KnownIsFound(State(), ctx, false, now);
      if s.None? {
        var _ := OnNewRequest(ctx, false, now);
        s := Find(ctx);
      }
      var named := s.value;
      sessions := sessions[named := sessions[named].(keys := sessions[named].keys + KeySet(keys), lastAccess := now)];
      residency.RecordAccess(named, keys, now);
    }

    method OnRequestFinished(ctx: Context, heat: bool, now: Time)
      modifies this, residency
      ensures State() == FinishRequest(old(State()), ctx, heat, now)
    {
      if !config.enabled && !heat {
        return;
      }
      var s := Find(ctx);
      KnownIsFound(State(), ctx, heat, now);
      if s.None? {
        var _ := OnNewRequest(ctx, heat, now);
        s := Find(ctx);
      }
      var named := s.value;
      var st := sessions[named];
      st := st.(serving := st.serving - {ctx.request}, retained := st.retained + {ctx.request}, lastAccess := now);
      if st.serving == {} {
        var deadline := if config.ttl > 0.0 then Some(now + config.ttl) else None;
        st := st.(status := Idle, deadline := deadline);
        if deadline.Some? && (next.None? || deadline.value < next.value) {
          next := deadline;
        }
        if config.enabled {
          residency.OnSessionIdle(named, now);
        }
      }
      sessions := sessions[named := st];
    }

    /** Deletes one session, with the requests that lead to it. */
    method DeleteSession(s: Session, now: Time) returns (unreferenced: set<Key>)
      requires s in sessions && Inverse(residency.State())
      modifies this`sessions, this`requestSession, residency
      ensures State() == DeleteSessions(old(State()), {s}, now)
      ensures unreferenced == Orphans(old(residency.State()), {s})
    {
      unreferenced := residency.ReleaseSession(s, now);
      var st := sessions[s];
      sessions := sessions - {s};
      requestSession := requestSession - (st.serving + st.retained);
      RequestsOfOne(old(sessions), s);
    }

    method OnRequestFinalized(ctx: Context, now: Time)
      requires Valid(residency.State())
      modifies this`sessions, this`requestSession, residency
      ensures State() == FinalizeRequest(old(State()), ctx, now)
    {
      var s := Find(ctx);
      requestSession := requestSession - {ctx.request};
      if s.None? {
        return;
      }
      var named := s.value;
      var st := sessions[named].(retained := sessions[named].retained - {ctx.request});
      sessions := sessions[named := st];
      if st.serving != {} || st.retained != {} || st.stable {
        return;
      }
      var _ := DeleteSession(named, now);
    }

    /** Deletes one more session, of several that go together. */
    method DeleteAnother(s: Session, now: Time, unreferenced: set<Key>, ghost before: Manager, ghost gone: set<Session>)
      returns (all: set<Key>)
      requires s in before.sessions && s !in gone && Valid(before.tracker)
      requires DeletedSoFar(before, gone, now, State(), unreferenced)
      modifies this`sessions, this`requestSession, residency
      ensures DeletedSoFar(before, gone + {s}, now, State(), all)
    {
      DeleteOneMore(before, gone, s, now);
      OrphansOneMore(before.tracker, gone, s, now);
      ReleaseKeeps(before.tracker, gone, now);
      var orphans := DeleteSession(s, now);
      all := unreferenced + orphans;
    }

    /** Looks at one session, and deletes it if it is due and touches nothing protected. */
    method Visit(s: Session, st: SessionState, keys: set<Key>, requests: set<Request>, now: Time,
                 expired: nat, unreferenced: set<Key>, ghost before: Manager, ghost gone: seq<Session>)
      returns (count: nat, all: set<Key>, ghost gone': seq<Session>)
      requires s in before.sessions && before.sessions[s] == st && Valid(before.tracker)
      requires Distinct(gone) && s !in First(gone, |gone|) && expired == |gone|
      requires DeletedSoFar(before, First(gone, |gone|), now, State(), unreferenced)
      modifies this`sessions, this`requestSession, residency
      ensures Distinct(gone') && count == |gone'|
      ensures First(gone', |gone'|) == First(gone, |gone|) + (if s in ToExpire(before, keys, requests, now) then {s} else {})
      ensures DeletedSoFar(before, First(gone', |gone'|), now, State(), all)
    {
      count, all, gone' := expired, unreferenced, gone;
      if Due(st, now) && st.keys * keys == {} && st.retained * requests == {} {
        all := DeleteAnother(s, now, unreferenced, before, First(gone, |gone|));
        AppendFirst(gone, s);
        count, gone' := expired + 1, gone + [s];
      }
    }

    /** Deletes every session that is due and touches nothing protected. */
    method DeleteDue(keys: set<Key>, requests: set<Request>, now: Time) returns (expired: nat, unreferenced: set<Key>)
      requires Valid(residency.State())
      modifies this`sessions, this`requestSession, residency
      ensures DeletedSoFar(old(State()), ToExpire(old(State()), keys, requests, now), now, State(), unreferenced)
      ensures expired == |ToExpire(old(State()), keys, requests, now)|
    {
      expired, unreferenced := 0, {};
      ghost var before, gone: seq<Session> := State(), [];
      ghost var due := ToExpire(before, keys, requests, now);
      var all := sessions;
      var left := all.Keys;
      DeleteNone(before, now);
      while left != {}
        invariant left <= all.Keys && First(gone, |gone|) == due - left
        invariant Distinct(gone) && expired == |gone|
        invariant DeletedSoFar(before, First(gone, |gone|), now, State(), unreferenced)
        decreases left
      {
        var s :| s in left;
        OneLess(due, left, s);
        left := left - {s};
        expired, unreferenced, gone := Visit(s, all[s], keys, requests, now, expired, unreferenced, before, gone);
      }
      assert due - left == due;
      FirstFacts(gone, |gone|);
    }

    /** Deletes the idle sessions whose deadline has come and that touch nothing protected. */
    method ExpireIdleSessions(keys: set<Key>, requests: set<Request>, now: Time) returns (expired: nat, unreferenced: set<Key>)
      requires Valid(residency.State())
      modifies this, residency
      ensures (State(), unreferenced) == Expire(old(State()), keys, requests, now)
      ensures expired == if !config.enabled || GateShut(old(State()), now) then 0 else |ToExpire(old(State()), keys, requests, now)|
      ensures expired == |old(sessions)| - |sessions|
    {
      if !config.enabled || config.ttl <= 0.0 {
        return 0, {};
      }
      if next.None? || next.value > now {
        return 0, {};
      }
      expired, unreferenced := DeleteDue(keys, requests, now);
      FewerSessions(old(sessions), sessions, ToExpire(old(State()), keys, requests, now));
      RefreshNextExpiration();
    }

    method DeleteEach(chosen: seq<Session>, now: Time) returns (unreferenced: set<Key>)
      requires Valid(residency.State()) && Distinct(chosen) && forall s :: s in chosen ==> s in sessions
      modifies this`sessions, this`requestSession, residency
      ensures DeletedSoFar(old(State()), First(chosen, |chosen|), now, State(), unreferenced)
    {
      unreferenced := {};
      ghost var before := State();
      DeleteNone(before, now);
      for i := 0 to |chosen|
        invariant DeletedSoFar(before, First(chosen, i), now, State(), unreferenced)
      {
        FirstFacts(chosen, i);
        assert chosen[i] in chosen;
        unreferenced := DeleteAnother(chosen[i], now, unreferenced, before, First(chosen, i));
      }
    }

    /** Deletes the oldest finished sessions, when there are too many sessions. */
    method PruneIdleSessions(now: Time) returns (pruned: nat, unreferenced: set<Key>, ghost gone: set<Session>)
      requires Valid(residency.State())
      modifies this`sessions, this`requestSession, residency
      ensures PrunedSessions(old(State()), gone) && pruned == |gone| == |old(sessions)| - |sessions|
      ensures DeletedSoFar(old(State()), gone, now, State(), unreferenced)
    {
      var excess := |sessions| - config.maxSessions;
      if excess <= 0 {
        DeleteNone(State(), now);
        return 0, {}, {};
      }
      var candidates := set s | s in sessions && LifecycleModel.Finished(sessions[s]);
      var ages := map s | s in candidates :: Age(sessions[s].lastAccess, 0.0);
      var chosen := TakeOldest(candidates, ages, excess);
      gone := First(chosen, |chosen|);
      OldestSessionsPruned(State(), candidates, ages, gone);
      pruned := |chosen|;
      unreferenced := DeleteEach(chosen, now);
      FewerSessions(old(sessions), sessions, gone);
    }
  }

  lemma FewerSessions(sessions: map<Session, SessionState>, left: map<Session, SessionState>, gone: set<Session>)
    requires left == sessions - gone && gone <= sessions.Keys
    ensures |left| == |sessions| - |gone|
  {
    Minus(sessions.Keys, gone);
    assert left.Keys == sessions.Keys - gone;
  }

  lemma OldestSessionsPruned(m: Manager, candidates: set<Session>, ages: map<Session, Age>, gone: set<Session>)
    requires candidates == FinishedSessions(m) && ages == map s | s in candidates :: Age(m.sessions[s].lastAccess, 0.0)
    requires m.config.maxSessions < |m.sessions| && OldestOf(candidates, ages, |m.sessions| - m.config.maxSessions, gone)
    ensures PrunedSessions(m, gone)
  {
    forall s, s' | s in gone && s' in candidates - gone ensures m.sessions[s].lastAccess <= m.sessions[s'].lastAccess {
      assert NotAfter(ages[s], ages[s']);
    }
  }

  lemma OneLess<T>(a: set<T>, left: set<T>, x: T)
    requires x in left
    ensures a - (left - {x}) == (a - left) + (if x in a then {x} else {})
    ensures x !in a - left
  {
  }

  lemma AppendFirst(order: seq<Session>, s: Session)
    requires Distinct(order) && s !in First(order, |order|)
    ensures Distinct(order + [s])
    ensures First(order + [s], |order| + 1) == First(order, |order|) + {s}
  {
    FirstOfPrefix(order + [s], |order|, |order|);
    assert (order + [s])[..|order|] == order;
    NotListed(order, s);
  }

  lemma NotListed(order: seq<Session>, s: Session)
    requires Distinct(order) && s !in First(order, |order|)
    ensures s !in order
  {
    FirstFacts(order, |order|);
  }

  ghost predicate DeletedSoFar(before: Manager, gone: set<Session>, now: Time, m: Manager, unreferenced: set<Key>) {
    m == DeleteSessions(before, gone, now) && unreferenced == Orphans(before.tracker, gone)
  }

  lemma DeleteNone(m: Manager, now: Time)
    ensures DeleteSessions(m, {}, now) == m && Orphans(m.tracker, {}) == {}
  {
    assert m.sessions - {} == m.sessions;
    assert RequestsOf(m.sessions, {}) == {};
    assert m.requestSession - {} == m.requestSession;
    var t := Release(m.tracker, {}, now);
    forall key | key in m.tracker.blocks ensures t.blocks[key] == m.tracker.blocks[key] {
      assert m.tracker.blocks[key].sessions - {} == m.tracker.blocks[key].sessions;
    }
    assert t.blocks == m.tracker.blocks;
    assert m.tracker.sessionKeys - {} == m.tracker.sessionKeys;
    assert m.tracker.active - {} == m.tracker.active;
  }

  lemma RequestsOfOne(sessions: map<Session, SessionState>, s: Session)
    requires s in sessions
    ensures RequestsOf(sessions, {s}) == sessions[s].serving + sessions[s].retained
  {
    forall r | r in sessions[s].serving + sessions[s].retained ensures r in RequestsOf(sessions, {s}) {
      assert s in {s};
    }
  }

  lemma RequestsOfMore(sessions: map<Session, SessionState>, gone: set<Session>, s: Session)
    requires s in sessions
    ensures RequestsOf(sessions, gone + {s}) == RequestsOf(sessions, gone) + (sessions[s].serving + sessions[s].retained)
  {
    forall r | r in sessions[s].serving + sessions[s].retained ensures r in RequestsOf(sessions, gone + {s}) {
      assert s in gone + {s};
    }
    forall r | r in RequestsOf(sessions, gone) ensures r in RequestsOf(sessions, gone + {s}) {
      var x :| x in gone && x in sessions && r in sessions[x].serving + sessions[x].retained;
      assert x in gone + {s};
    }
  }

  /** Deleting sessions one by one is deleting them together. */
  lemma DeleteOneMore(m: Manager, gone: set<Session>, s: Session, now: Time)
    requires s in m.sessions && s !in gone
    ensures DeleteSessions(DeleteSessions(m, gone, now), {s}, now) == DeleteSessions(m, gone + {s}, now)
  {
    var one := DeleteSessions(m, gone, now);
    ReleaseOneMore(m.tracker, gone, s, now);
    assert m.sessions - gone - {s} == m.sessions - (gone + {s});
    RequestsOfOne(one.sessions, s);
    RequestsOfMore(m.sessions, gone, s);
    assert one.requestSession - RequestsOf(one.sessions, {s}) == m.requestSession - RequestsOf(m.sessions, gone + {s});
  }

  /* ---- the earliest deadline ---- */

  function DeadlinesOf(sessions: map<Session, SessionState>, seen: set<Session>): set<Time> {
    set s | s in sessions && s in seen && sessions[s].status.Idle? && sessions[s].deadline.Some? :: sessions[s].deadline.value
  }

  ghost predicate LeastSoFar(sessions: map<Session, SessionState>, seen: set<Session>, least: Option<Time>) {
    var ds := DeadlinesOf(sessions, seen);
    if least.None? then ds == {} else IsLeast(ds, least.value)
  }

  lemma LeastNext(sessions: map<Session, SessionState>, seen: set<Session>, least: Option<Time>, s: Session)
    requires s in sessions && LeastSoFar(sessions, seen, least)
    ensures LeastSoFar(sessions, seen + {s},
              if sessions[s].status.Idle? && sessions[s].deadline.Some? then Sooner(least, sessions[s].deadline) else least)
  {
    var before, after := DeadlinesOf(sessions, seen), DeadlinesOf(sessions, seen + {s});
    if sessions[s].status.Idle? && sessions[s].deadline.Some? {
      assert after == before + {sessions[s].deadline.value};
    } else {
      assert after == before;
    }
  }

  lemma LeastDone(sessions: map<Session, SessionState>, least: Option<Time>)
    requires LeastSoFar(sessions, sessions.Keys, least)
    ensures least == Least(Deadlines(sessions))
  {
    assert DeadlinesOf(sessions, sessions.Keys) == Deadlines(sessions);
    LeastIs(Deadlines(sessions));
  }

  lemma SameDeadlines(sessions: map<Session, SessionState>, sessions': map<Session, SessionState>, s: Session)
    requires s in sessions && s in sessions' && sessions' == sessions[s := sessions'[s]]
    requires sessions[s].deadline.None? && sessions'[s].deadline.None?
    ensures Deadlines(sessions') == Deadlines(sessions)
  {
    forall d ensures d in Deadlines(sessions') <==> d in Deadlines(sessions) {
      if d in Deadlines(sessions) {
        var x :| x in sessions && sessions[x].status.Idle? && sessions[x].deadline == Some(d);
        assert sessions'[x] == sessions[x];
      }
      if d in Deadlines(sessions') {
        var x :| x in sessions' && sessions'[x].status.Idle? && sessions'[x].deadline == Some(d);
        assert sessions[x] == sessions'[x];
      }
    }
  }
}
