/** Sessions: which requests they serve, when they expire, and the blocks they own. */
module LifecycleModel {
  import opened Basics
  import opened Wrappers
  import opened ResidencyModel

  /** A request without a conversation is its own session, so the two share their names. */
  type Request = Session

  /** A request, and the conversation that it names, if any. */
  datatype Context = Context(request: Request, conversation: Option<Session>)

  datatype Status = Active | Idle

  datatype SessionState = SessionState(
    stable: bool, status: Status, lastAccess: Time, deadline: Option<Time>,
    serving: set<Request>, retained: set<Request>, keys: set<Key>, requests: nat)

  datatype Config = Config(ttl: Time, enabled: bool, maxSessions: nat)

  datatype Manager = Manager(
    config: Config, sessions: map<Session, SessionState>, requestSession: map<Request, Session>,
    next: Option<Time>, tracker: Tracker)

  /** A positive time to live enables the manager. */
  predicate ConfigValid(c: Config) {
    0.0 <= c.ttl && 0 < c.maxSessions && (0.0 < c.ttl ==> c.enabled)
  }

  /** The conversation, or else the request itself. */
  function SessionOf(ctx: Context): Session {
    if ctx.conversation.Some? then ctx.conversation.value else ctx.request
  }

  function Find(m: Manager, ctx: Context): Option<Session> {
    var s := if ctx.request in m.requestSession then m.requestSession[ctx.request] else SessionOf(ctx);
    if s in m.sessions then Some(s) else None
  }

  /* ---- deadlines ---- */

  function Deadlines(sessions: map<Session, SessionState>): set<Time> {
    set s | s in sessions && sessions[s].status.Idle? && sessions[s].deadline.Some? :: sessions[s].deadline.value
  }

  ghost predicate IsLeast(ds: set<Time>, d: Time) {
    d in ds && forall e :: e in ds ==> d <= e
  }

  lemma {:induction false} LeastExists(ds: set<Time>)
    requires |ds| > 0
    ensures exists d :: IsLeast(ds, d)
    decreases |ds|
  {
    assert exists x :: x in ds by {
      assert (forall x :: x !in ds) ==> ds == {};
    }
    var x :| x in ds;
    var rest := ds - {x};
    if |rest| == 0 {
      assert ds == {x};
      assert IsLeast(ds, x);
    } else {
      LeastExists(rest);
      var d :| IsLeast(rest, d);
      assert forall e :: e in ds <==> e in rest || e == x;
      assert IsLeast(ds, if d <= x then d else x);
    }
  }

  ghost function Least(ds: set<Time>): Option<Time> {
    if |ds| == 0 then None
    else
      LeastExists(ds);
      var d :| IsLeast(ds, d);
      Some(d)
  }

  ghost function NextDeadline(config: Config, sessions: map<Session, SessionState>): Option<Time> {
    if config.ttl <= 0.0 then None else Least(Deadlines(sessions))
  }

  ghost function Refresh(m: Manager): Manager {
    m.(next := NextDeadline(m.config, m.sessions))
  }

  /* ---- requests ---- */

  function NewState(ctx: Context, now: Time): SessionState {
    SessionState(ctx.conversation.Some?, Active, now, None, {}, {}, {}, 0)
  }

  function Serve(st: SessionState, request: Request): SessionState {
    st.(serving := st.serving + {request}, retained := st.retained - {request}, requests := st.requests + 1)
  }

  function Resumed(st: SessionState, now: Time): SessionState {
    st.(status := Active, lastAccess := now, deadline := None)
  }

  function Served(m: Manager, ctx: Context, now: Time): SessionState {
    var s := SessionOf(ctx);
    Serve(if s in m.sessions then Resumed(m.sessions[s], now) else NewState(ctx, now), ctx.request)
  }

  ghost function NewRequest(m: Manager, ctx: Context, heat: bool, now: Time): Manager {
    var s := SessionOf(ctx);
    if !m.config.enabled && !heat then m
    else
      var sessions := m.sessions[s := Served(m, ctx, now)];
      m.(sessions := sessions,
         next := if s in m.sessions then NextDeadline(m.config, sessions) else m.next,
         requestSession := m.requestSession[ctx.request := s],
         tracker := if m.config.enabled then Activate(m.tracker, s, now) else m.tracker)
  }

  /** The session of a request, which is tracked from now on if it was not. */
  ghost function Known(m: Manager, ctx: Context, heat: bool, now: Time): Manager {
    if Find(m, ctx).None? then NewRequest(m, ctx, heat, now) else m
  }

  lemma KnownIsFound(m: Manager, ctx: Context, heat: bool, now: Time)
    requires m.config.enabled || heat
    ensures Find(Known(m, ctx, heat, now), ctx).Some?
    ensures Known(m, ctx, heat, now).config == m.config
  {
  }

  ghost function RecordKeys(m: Manager, ctx: Context, keys: seq<Key>, now: Time): Manager {
    if !m.config.enabled then m
    else
      KnownIsFound(m, ctx, false, now);
      var m1 := Known(m, ctx, false, now);
      var s := Find(m1, ctx).value;
      m1.(sessions := m1.sessions[s := m1.sessions[s].(keys := m1.sessions[s].keys + KeySet(keys), lastAccess := now)],
          tracker := Access(m1.tracker, s, keys, now))
  }

  function Retain(st: SessionState, request: Request, now: Time): SessionState {
    st.(serving := st.serving - {request}, retained := st.retained + {request}, lastAccess := now)
  }

  function Expiry(config: Config, now: Time): Option<Time> {
    if config.ttl > 0.0 then Some(now + config.ttl) else None
  }

  function Sooner(next: Option<Time>, deadline: Option<Time>): Option<Time> {
    if deadline.Some? && (next.None? || deadline.value < next.value) then deadline else next
  }

  ghost function FinishRequest(m: Manager, ctx: Context, heat: bool, now: Time): Manager {
    if !m.config.enabled && !heat then m
    else
      KnownIsFound(m, ctx, heat, now);
      var m1 := Known(m, ctx, heat, now);
      var s := Find(m1, ctx).value;
      var st := Retain(m1.sessions[s], ctx.request, now);
      if st.serving != {} then m1.(sessions := m1.sessions[s := st])
      else
        var deadline := Expiry(m.config, now);
        m1.(sessions := m1.sessions[s := st.(status := Idle, deadline := deadline)],
            next := Sooner(m1.next, deadline),
            tracker := if m.config.enabled then Deactivate(m1.tracker, s, now) else m1.tracker)
  }

  /* ---- deleting sessions ---- */

  function RequestsOf(sessions: map<Session, SessionState>, gone: set<Session>): set<Request> {
    set s, r | s in gone && s in sessions && r in sessions[s].serving + sessions[s].retained :: r
  }

  /** Some sessions are deleted, with what leads to them; their blocks lose them as owners. */
  function DeleteSessions(m: Manager, gone: set<Session>, now: Time): Manager {
    m.(sessions := m.sessions - gone,
       requestSession := m.requestSession - RequestsOf(m.sessions, gone),
       tracker := Release(m.tracker, gone, now))
  }

  /** All of a request's stores are done: a session without a conversation goes with its last request. */
  function FinalizeRequest(m: Manager, ctx: Context, now: Time): Manager {
    var found := Find(m, ctx);
    var m1 := m.(requestSession := m.requestSession - {ctx.request});
    if found.None? then m1
    else
      var s := found.value;
      var st := m.sessions[s].(retained := m.sessions[s].retained - {ctx.request});
      var m2 := m1.(sessions := m.sessions[s := st]);
      if st.serving != {} || st.retained != {} || st.stable then m2 else DeleteSessions(m2, {s}, now)
  }

  predicate Due(st: SessionState, now: Time) {
    st.status.Idle? && st.deadline.Some? && st.deadline.value <= now
  }

  predicate Unprotected(st: SessionState, keys: set<Key>, requests: set<Request>) {
    st.keys * keys == {} && st.retained * requests == {}
  }

  function ToExpire(m: Manager, keys: set<Key>, requests: set<Request>, now: Time): set<Session> {
    set s | s in m.sessions && Due(m.sessions[s], now) && Unprotected(m.sessions[s], keys, requests)
  }

  /** Nothing is looked at until the earliest deadline is reached. */
  predicate GateShut(m: Manager, now: Time) {
    m.config.ttl <= 0.0 || m.next.None? || now < m.next.value
  }

  ghost function Expire(m: Manager, keys: set<Key>, requests: set<Request>, now: Time): (Manager, set<Key>) {
    if !m.config.enabled || GateShut(m, now) then (m, {})
    else
      var gone := ToExpire(m, keys, requests, now);
      (Refresh(DeleteSessions(m, gone, now)), Orphans(m.tracker, gone))
  }

  predicate Finished(st: SessionState) {
    st.status.Idle? && st.serving == {} && st.retained == {}
  }

  function FinishedSessions(m: Manager): set<Session> {
    set s | s in m.sessions && Finished(m.sessions[s])
  }

  /** Which sessions pruning may remove: as many as are too many, finished ones only, the oldest first. */
  ghost predicate PrunedSessions(m: Manager, gone: set<Session>) {
    && gone <= FinishedSessions(m)
    && |gone| == (if |m.sessions| <= m.config.maxSessions then 0
                  else Min(|m.sessions| - m.config.maxSessions, |FinishedSessions(m)|))
    && forall s, s' :: s in gone && s' in FinishedSessions(m) - gone ==> m.sessions[s].lastAccess <= m.sessions[s'].lastAccess
  }

  /* ---- the invariant ---- */

  ghost predicate StateValid(st: SessionState, config: Config) {
    && (st.status.Active? <==> st.serving != {})
    && (st.status.Active? ==> st.deadline.None?)
    && (st.status.Idle? ==> (st.deadline.Some? <==> 0.0 < config.ttl))
  }

  /** The gate opens no later than the earliest deadline. */
  ghost predicate GateSound(m: Manager) {
    forall s :: s in m.sessions && m.sessions[s].status.Idle? && m.sessions[s].deadline.Some? ==>
      m.next.Some? && m.next.value <= m.sessions[s].deadline.value
  }

  /** Sessions and the tracker agree on who owns what and who is active. */
  ghost predicate TrackerAgrees(m: Manager) {
    && (forall s :: s in m.sessions ==> m.sessions[s].keys == KeysOf(m.tracker, s))
    && m.tracker.sessionKeys.Keys <= m.sessions.Keys
    && (m.config.enabled ==> forall s :: s in m.tracker.active <==> s in m.sessions && m.sessions[s].status.Active?)
    && (!m.config.enabled ==> m.tracker.active == {})
  }

  /** A request leads to a session that serves or retains it. */
  ghost predicate RequestsLead(m: Manager) {
    forall r :: r in m.requestSession ==>
      && m.requestSession[r] in m.sessions
      && r in m.sessions[m.requestSession[r]].serving + m.sessions[m.requestSession[r]].retained
  }

  ghost predicate Inv(m: Manager) {
    && ConfigValid(m.config) && Valid(m.tracker)
    && (forall s :: s in m.sessions ==> StateValid(m.sessions[s], m.config))
    && GateSound(m) && TrackerAgrees(m) && RequestsLead(m)
  }

  function Initial(config: Config): Manager {
    Manager(config, map[], map[], None, Empty())
  }

  lemma LeastIs(ds: set<Time>)
    ensures Least(ds).Some? <==> ds != {}
    ensures ds != {} ==> IsLeast(ds, Least(ds).value)
  {
  }

  lemma RefreshSound(m: Manager)
    requires forall s :: s in m.sessions ==> StateValid(m.sessions[s], m.config)
    ensures GateSound(Refresh(m))
  {
    LeastIs(Deadlines(m.sessions));
    forall s | s in m.sessions && m.sessions[s].status.Idle? && m.sessions[s].deadline.Some?
      ensures m.sessions[s].deadline.value in Deadlines(m.sessions)
    {
    }
  }

  lemma ActivateOwns(t: Tracker, s: Session, now: Time)
    ensures Activate(t, s, now).sessionKeys == t.sessionKeys && Activate(t, s, now).active == t.active + {s}
  {
  }

  lemma NewRequestKeeps(m: Manager, ctx: Context, heat: bool, now: Time)
    requires Inv(m)
    ensures Inv(NewRequest(m, ctx, heat, now))
  {
    var m', s, st := NewRequest(m, ctx, heat, now), SessionOf(ctx), Served(m, ctx, now);
    if m.config.enabled || heat {
      assert forall x :: x in m'.sessions ==> StateValid(m'.sessions[x], m'.config);
      if s in m.sessions {
        RefreshSound(m');
      }
      ActivateKeeps(m.tracker, s, now);
      ActivateOwns(m.tracker, s, now);
      ServedLeads(m, m', s, st, ctx.request);
      ServedAgrees(m, m', s, st, now);
    }
  }

  ghost predicate Serves(m: Manager, m': Manager, s: Session, st: SessionState) {
    && m'.sessions == m.sessions[s := st] && st.status.Active?
    && (s in m.sessions ==> st.keys == m.sessions[s].keys && m.sessions[s].serving + m.sessions[s].retained <= st.serving + st.retained)
    && (s !in m.sessions ==> st.keys == {})
  }

  lemma ServedLeads(m: Manager, m': Manager, s: Session, st: SessionState, r: Request)
    requires RequestsLead(m) && Serves(m, m', s, st) && r in st.serving
    requires m'.requestSession == m.requestSession[r := s]
    ensures RequestsLead(m')
  {
  }

  lemma ServedAgrees(m: Manager, m': Manager, s: Session, st: SessionState, now: Time)
    requires TrackerAgrees(m) && Serves(m, m', s, st) && m'.config == m.config
    requires m'.tracker == if m.config.enabled then Activate(m.tracker, s, now) else m.tracker
    ensures TrackerAgrees(m')
  {
    ActivateOwns(m.tracker, s, now);
  }

  lemma RecordKeysKeeps(m: Manager, ctx: Context, keys: seq<Key>, now: Time)
    requires Inv(m)
    ensures Inv(RecordKeys(m, ctx, keys, now))
  {
    if m.config.enabled {
      NewRequestKeeps(m, ctx, false, now);
      KnownIsFound(m, ctx, false, now);
      var m1 := Known(m, ctx, false, now);
      KeysRecorded(m1, RecordKeys(m, ctx, keys, now), Find(m1, ctx).value, keys, now);
    }
  }

  lemma KeysRecorded(m: Manager, m': Manager, s: Session, keys: seq<Key>, now: Time)
    requires Inv(m) && s in m.sessions
    requires m' == m.(sessions := m.sessions[s := m.sessions[s].(keys := m.sessions[s].keys + KeySet(keys), lastAccess := now)],
                      tracker := Access(m.tracker, s, keys, now))
    ensures Inv(m')
  {
    AccessKeeps(m.tracker, s, keys, now);
    AccessOwns(m.tracker, s, keys, now);
    assert TrackerAgrees(m');
  }

  lemma FinishRequestKeeps(m: Manager, ctx: Context, heat: bool, now: Time)
    requires Inv(m)
    ensures Inv(FinishRequest(m, ctx, heat, now))
  {
    if m.config.enabled || heat {
      NewRequestKeeps(m, ctx, heat, now);
      KnownIsFound(m, ctx, heat, now);
      var m1 := Known(m, ctx, heat, now);
      RequestRetained(m1, FinishRequest(m, ctx, heat, now), Find(m1, ctx).value, ctx.request, now);
    }
  }

  lemma RequestRetained(m: Manager, m': Manager, s: Session, r: Request, now: Time)
    requires Inv(m) && s in m.sessions
    requires var st := Retain(m.sessions[s], r, now);
      m' == if st.serving != {} then m.(sessions := m.sessions[s := st])
            else m.(sessions := m.sessions[s := st.(status := Idle, deadline := Expiry(m.config, now))],
                    next := Sooner(m.next, Expiry(m.config, now)),
                    tracker := if m.config.enabled then Deactivate(m.tracker, s, now) else m.tracker)
    ensures Inv(m')
  {
    DeactivateKeeps(m.tracker, s, now);
    assert StateValid(m.sessions[s], m.config);
    assert forall x :: x in m'.sessions ==> StateValid(m'.sessions[x], m'.config);
    assert GateSound(m');
    assert TrackerAgrees(m');
  }

  lemma DeleteKeeps(m: Manager, gone: set<Session>, now: Time)
    requires Inv(m)
    ensures Inv(DeleteSessions(m, gone, now))
  {
    var m' := DeleteSessions(m, gone, now);
    ReleaseKeeps(m.tracker, gone, now);
    forall r | r in m'.requestSession
      ensures m'.requestSession[r] in m'.sessions
      ensures r in m'.sessions[m'.requestSession[r]].serving + m'.sessions[m'.requestSession[r]].retained
    {
      assert m.requestSession[r] in gone ==> r in RequestsOf(m.sessions, gone);
    }
    assert TrackerAgrees(m');
  }

  lemma FinalizeKeeps(m: Manager, ctx: Context, now: Time)
    requires Inv(m)
    ensures Inv(FinalizeRequest(m, ctx, now))
  {
    var found := Find(m, ctx);
    var m1 := m.(requestSession := m.requestSession - {ctx.request});
    assert Inv(m1);
    if found.Some? {
      var s := found.value;
      var st := m.sessions[s].(retained := m.sessions[s].retained - {ctx.request});
      var m2 := m1.(sessions := m.sessions[s := st]);
      assert StateValid(m.sessions[s], m.config);
      assert Inv(m2);
      DeleteKeeps(m2, {s}, now);
    }
  }

  lemma ExpireKeeps(m: Manager, keys: set<Key>, requests: set<Request>, now: Time)
    requires Inv(m)
    ensures Inv(Expire(m, keys, requests, now).0)
  {
    var m1 := DeleteSessions(m, ToExpire(m, keys, requests, now), now);
    DeleteKeeps(m, ToExpire(m, keys, requests, now), now);
    RefreshSound(m1);
  }

  /** Blocks that change without their owners leave the sessions in agreement. */
  lemma BlocksKeep(m: Manager, t: Tracker)
    requires Inv(m) && Valid(t) && t.sessionKeys == m.tracker.sessionKeys && t.active == m.tracker.active
    ensures Inv(m.(tracker := t))
  {
  }
}
