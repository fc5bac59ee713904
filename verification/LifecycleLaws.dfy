/** What each call does to each field of a session, in the terms of the call. */
module LifecycleLaws {
  import opened Basics
  import opened Wrappers
  import opened ResidencyModel
  import opened LifecycleModel
  import opened LifecycleRuns

  /** The session that a new request belongs to: the conversation that it names, or itself. */
  function Own(ctx: Context): Session {
    match ctx.conversation
    case Some(conversation) => conversation
    case None => ctx.request
  }

  /** The session that a known request leads to. */
  function Target(m: Manager, ctx: Context): Session {
    if ctx.request in m.requestSession then m.requestSession[ctx.request] else Own(ctx)
  }

  /** Calls do nothing to sessions while the manager is disabled, unless they track heat. */
  predicate Counts(m: Manager, call: Call) {
    match call
    case OnNewRequest(_, heat, _) => m.config.enabled || heat
    case OnFinished(_, heat, _) => m.config.enabled || heat
    case OnKeys(_, _, _) => m.config.enabled
    case _ => true
  }

  /** The session begins to serve the request: on a new request, or on the first word of an unknown one. */
  predicate Begins(m: Manager, call: Call, s: Session, r: Request) {
    Counts(m, call) &&
    match call
    case OnNewRequest(ctx, _, _) => s == Own(ctx) && r == ctx.request
    case OnKeys(ctx, _, _) => s == Target(m, ctx) && s !in m.sessions && r == ctx.request
    case OnFinished(ctx, _, _) => s == Target(m, ctx) && s !in m.sessions && r == ctx.request
    case _ => false
  }

  predicate Finishes(m: Manager, call: Call, s: Session, r: Request) {
    Counts(m, call) && call.OnFinished? && s == Target(m, call.ctx) && r == call.ctx.request
  }

  predicate Names(m: Manager, call: Call, s: Session) {
    Counts(m, call) && call.OnKeys? && s == Target(m, call.ctx)
  }

  predicate Finalizes(m: Manager, call: Call, s: Session, r: Request) {
    call.OnFinalized? && s in m.sessions && s == Target(m, call.ctx) && r == call.ctx.request
  }

  /* ---- which sessions there are ---- */

  /** A session is expired if and only if it is idle, its deadline has come, no key of it is protected, and
      no request that it retains is: also when the gate keeps the call from looking. */
  lemma ExpiredExactly(m: Manager, keys: set<Key>, requests: set<Request>, now: Time, s: Session)
    requires Inv(m) && s in m.sessions
    ensures var (st, m') := (m.sessions[s], Expire(m, keys, requests, now).0);
      && (s !in m'.sessions <==>
            && st.status.Idle? && st.deadline.Some? && st.deadline.value <= now
            && (forall key :: key in st.keys ==> key !in keys)
            && (forall r :: r in st.retained ==> r !in requests))
      && (s in m'.sessions ==> m'.sessions[s] == st)
  {
    var st := m.sessions[s];
    ExpiresExactlyTheDue(m, keys, requests, now);
    assert st.keys * keys == {} <==> forall key :: key in st.keys ==> key !in keys by {
      if key :| key in st.keys && key in keys {
        assert key in st.keys * keys;
      }
    }
    assert st.retained * requests == {} <==> forall r :: r in st.retained ==> r !in requests by {
      if r :| r in st.retained && r in requests {
        assert r in st.retained * requests;
      }
    }
  }

  lemma ExpireCreatesNone(m: Manager, keys: set<Key>, requests: set<Request>, now: Time)
    requires Inv(m)
    ensures Expire(m, keys, requests, now).0.sessions.Keys <= m.sessions.Keys
  {
    ExpiresExactlyTheDue(m, keys, requests, now);
  }

  predicate Used(st: SessionState) {
    st.serving != {} || st.retained != {}
  }

  lemma FreeIsFinished(m: Manager)
    requires Inv(m)
    ensures forall s :: s in m.sessions ==> (s in FinishedSessions(m) <==> !Used(m.sessions[s]))
  {
    forall s | s in m.sessions ensures s in FinishedSessions(m) <==> !Used(m.sessions[s]) {
      assert StateValid(m.sessions[s], m.config);
    }
  }

  /** Pruning leaves every session that serves or retains a request, and the others as they are. */
  lemma PruneSparesTheUsed(m: Manager, gone: set<Session>, now: Time, s: Session)
    requires Inv(m) && PrunedSessions(m, gone) && s in m.sessions
    ensures var m' := DeleteSessions(m, gone, now);
      && (m.sessions[s].serving != {} || m.sessions[s].retained != {} ==> s in m'.sessions)
      && (s in m'.sessions ==> m'.sessions[s] == m.sessions[s])
      && (s !in m'.sessions ==> m.sessions[s].status.Idle?)
  {
    FreeIsFinished(m);
    assert StateValid(m.sessions[s], m.config);
  }

  /** If more are left than allowed, then each of them serves or retains a request. */
  lemma PruneLeavesFew(m: Manager, gone: set<Session>, now: Time)
    requires Inv(m) && PrunedSessions(m, gone)
    ensures var m' := DeleteSessions(m, gone, now);
      && m'.sessions.Keys <= m.sessions.Keys
      && (|m'.sessions| > m.config.maxSessions ==>
            forall s :: s in m'.sessions ==> m'.sessions[s].serving != {} || m'.sessions[s].retained != {})
      && (|m.sessions| <= m.config.maxSessions ==> m'.sessions == m.sessions)
      && (|m.sessions| > m.config.maxSessions ==> |m'.sessions| >= m.config.maxSessions)
  {
    var m' := DeleteSessions(m, gone, now);
    PruneSessionsBounds(m, gone, now);
    LeftAreUsed(m, gone, now);
    SessionsLeft(m, m', gone);
    EnoughLeft(m.sessions, m'.sessions, gone, FinishedSessions(m), m.config.maxSessions);
  }

  lemma LeftAreUsed(m: Manager, gone: set<Session>, now: Time)
    requires Inv(m)
    ensures var m' := DeleteSessions(m, gone, now);
      FinishedSessions(m') == {} ==> forall s :: s in m'.sessions ==> Used(m'.sessions[s])
  {
    DeleteKeeps(m, gone, now);
    FreeIsFinished(DeleteSessions(m, gone, now));
  }

  lemma EnoughLeft(all: map<Session, SessionState>, left: map<Session, SessionState>, gone: set<Session>, free: set<Session>, most: nat)
    requires left == all - gone && gone <= free <= all.Keys
    requires |gone| == if |all| <= most then 0 else Min(|all| - most, |free|)
    ensures |all| > most ==> |left| >= most
  {
    Minus(all.Keys, gone);
    assert left.Keys == all.Keys - gone;
  }

  /** No session goes that was used after one that is left and could have gone. */
  lemma PruneTakesTheOldest(m: Manager, gone: set<Session>, now: Time, s: Session, s': Session)
    requires Inv(m) && PrunedSessions(m, gone) && s in gone && s' in DeleteSessions(m, gone, now).sessions
    ensures s in m.sessions && s' in m.sessions
    ensures || m.sessions[s'].serving != {} || m.sessions[s'].retained != {}
            || m.sessions[s].lastAccess <= m.sessions[s'].lastAccess
  {
    FreeIsFinished(m);
    if !Used(m.sessions[s']) {
      assert s' in FinishedSessions(m) - gone;
    }
  }

  /* ---- the fields of a session ---- */

  /** What a call does to a session that is there before and after it. */
  ghost predicate FieldsAfter(m: Manager, call: Call, s: Session, st: SessionState, st': SessionState) {
    && (forall r :: r in st'.serving <==> (Begins(m, call, s, r) || r in st.serving) && !Finishes(m, call, s, r))
    && (forall r :: r in st'.retained <==>
          Finishes(m, call, s, r) || (r in st.retained && !Begins(m, call, s, r) && !Finalizes(m, call, s, r)))
    && (forall key :: key in st'.keys <==> key in st.keys || (Names(m, call, s) && key in call.accessed))
    && st'.stable == st.stable
    && st'.requests == st.requests + if Starts(m, call, s) then 1 else 0
  }

  /** The session begins to serve some request. */
  predicate Starts(m: Manager, call: Call, s: Session) {
    (call.OnNewRequest? || call.OnKeys? || call.OnFinished?) && Begins(m, call, s, call.ctx.request)
  }

  ghost predicate TimesAfter(m: Manager, call: Call, s: Session, st: SessionState, st': SessionState) {
    && st'.lastAccess == (if Touches(m, call, s) then call.now else st.lastAccess)
    && st'.deadline == (
         if call.OnNewRequest? && Begins(m, call, s, call.ctx.request) then None
         else if call.OnFinished? && Finishes(m, call, s, call.ctx.request) && st'.serving == {} then
           if m.config.ttl > 0.0 then Some(call.now + m.config.ttl) else None
         else st.deadline)
  }

  /** A new request, the naming of keys and the end of a request count as use of the session. */
  predicate Touches(m: Manager, call: Call, s: Session) {
    Counts(m, call) &&
    match call
    case OnNewRequest(ctx, _, _) => s == Own(ctx)
    case OnKeys(ctx, _, _) => s == Target(m, ctx)
    case OnFinished(ctx, _, _) => s == Target(m, ctx)
    case _ => false
  }

  /** Over every call, from any state that satisfies the invariant, the requests, keys and times of a session
      change as the call says, and in no other way. */
  lemma SessionAfterCall(m: Manager, call: Call, s: Session)
    requires Inv(m) && Enabled(m, call) && s in m.sessions && s in Apply(m, call).sessions
    ensures FieldsAfter(m, call, s, m.sessions[s], Apply(m, call).sessions[s])
    ensures TimesAfter(m, call, s, m.sessions[s], Apply(m, call).sessions[s])
  {
    match call
    case OnNewRequest(_, _, _) => BegunAfter(m, call, s);
    case OnKeys(_, _, _) => KeysAfter(m, call, s);
    case OnFinished(_, _, _) => FinishedAfter(m, call, s);
    case OnFinalized(_, _) => FinalizedAfter(m, call, s);
    case _ =>
      SameAfter(m, call, s);
      NotNamed(m, call, s, m.sessions[s]);
  }

  /** The other calls leave the sessions that they leave as they are. */
  lemma SameAfter(m: Manager, call: Call, s: Session)
    requires Inv(m) && Enabled(m, call) && s in m.sessions && s in Apply(m, call).sessions
    requires !call.OnNewRequest? && !call.OnKeys? && !call.OnFinished? && !call.OnFinalized?
    ensures Apply(m, call).sessions[s] == m.sessions[s]
  {
    if call.ExpireIdle? {
      ExpiredExactly(m, call.protected, call.requests, call.now, s);
    }
  }

  /** The fields of a session that a call does not name. */
  lemma NotNamed(m: Manager, call: Call, s: Session, st: SessionState)
    requires forall r :: !Begins(m, call, s, r) && !Finishes(m, call, s, r) && !Finalizes(m, call, s, r)
    requires !Names(m, call, s) && !Touches(m, call, s)
    ensures FieldsAfter(m, call, s, st, st) && TimesAfter(m, call, s, st, st)
  {
  }

  lemma BegunAfter(m: Manager, call: Call, s: Session)
    requires Inv(m) && call.OnNewRequest? && s in m.sessions && s in Apply(m, call).sessions
    ensures FieldsAfter(m, call, s, m.sessions[s], Apply(m, call).sessions[s])
    ensures TimesAfter(m, call, s, m.sessions[s], Apply(m, call).sessions[s])
  {
    var ctx, heat, now := call.ctx, call.heat, call.now;
    if (m.config.enabled || heat) && s == Own(ctx) {
      OwnBegun(m, ctx, heat, now, s);
      BegunFields(m, call, s, m.sessions[s], NewRequest(m, ctx, heat, now).sessions[s]);
    } else {
      OtherBegun(m, ctx, heat, now, s);
      NotNamed(m, call, s, m.sessions[s]);
    }
  }

  ghost predicate BegunBy(r: Request, now: Time, st: SessionState, st': SessionState) {
    && st'.serving == st.serving + {r} && st'.retained == st.retained - {r}
    && st'.keys == st.keys && st'.stable == st.stable && st'.requests == st.requests + 1
    && st'.lastAccess == now && st'.deadline == None
  }

  lemma OwnBegun(m: Manager, ctx: Context, heat: bool, now: Time, s: Session)
    requires (m.config.enabled || heat) && s == Own(ctx) && s in m.sessions
    ensures s in NewRequest(m, ctx, heat, now).sessions
    ensures BegunBy(ctx.request, now, m.sessions[s], NewRequest(m, ctx, heat, now).sessions[s])
  {
  }

  lemma OtherBegun(m: Manager, ctx: Context, heat: bool, now: Time, s: Session)
    requires s != Own(ctx) || !(m.config.enabled || heat)
    requires s in m.sessions && s in NewRequest(m, ctx, heat, now).sessions
    ensures NewRequest(m, ctx, heat, now).sessions[s] == m.sessions[s]
  {
  }

  lemma BegunFields(m: Manager, call: Call, s: Session, st: SessionState, st': SessionState)
    requires call.OnNewRequest? && Counts(m, call) && s == Own(call.ctx) && BegunBy(call.ctx.request, call.now, st, st')
    ensures FieldsAfter(m, call, s, st, st') && TimesAfter(m, call, s, st, st')
  {
  }

  lemma TargetIsFound(m: Manager, ctx: Context)
    requires Inv(m)
    ensures LifecycleModel.Find(m, ctx) == if Target(m, ctx) in m.sessions then Some(Target(m, ctx)) else None
    ensures Target(m, ctx) !in m.sessions ==> Target(m, ctx) == Own(ctx)
  {
  }

  lemma {:induction false} NamedKeys(keys: seq<Key>, key: Key)
    ensures key in KeySet(keys) <==> key in keys
  {
    if keys != [] {
      var n := |keys| - 1;
      NamedKeys(keys[..n], key);
      assert key in keys <==> key in keys[..n] || key == keys[n];
    }
  }

  lemma KeysAfter(m: Manager, call: Call, s: Session)
    requires Inv(m) && call.OnKeys? && s in m.sessions && s in Apply(m, call).sessions
    ensures FieldsAfter(m, call, s, m.sessions[s], Apply(m, call).sessions[s])
    ensures TimesAfter(m, call, s, m.sessions[s], Apply(m, call).sessions[s])
  {
    var ctx, keys, now := call.ctx, call.accessed, call.now;
    TargetIsFound(m, ctx);
    if m.config.enabled && s == Target(m, ctx) {
      OwnKeyed(m, ctx, keys, now, s);
      KeyedFields(m, call, s, m.sessions[s], RecordKeys(m, ctx, keys, now).sessions[s]);
    } else {
      OtherKeyed(m, ctx, keys, now, s);
      NotNamed(m, call, s, m.sessions[s]);
    }
  }

  lemma OwnKeyed(m: Manager, ctx: Context, keys: seq<Key>, now: Time, s: Session)
    requires m.config.enabled && LifecycleModel.Find(m, ctx) == Some(s) && s in m.sessions
    ensures s in RecordKeys(m, ctx, keys, now).sessions
    ensures RecordKeys(m, ctx, keys, now).sessions[s] ==
              m.sessions[s].(keys := m.sessions[s].keys + KeySet(keys), lastAccess := now)
  {
  }

  lemma OtherKeyed(m: Manager, ctx: Context, keys: seq<Key>, now: Time, s: Session)
    requires LifecycleModel.Find(m, ctx) != Some(s) || !m.config.enabled
    requires LifecycleModel.Find(m, ctx).None? ==> s != Own(ctx)
    requires s in m.sessions && s in RecordKeys(m, ctx, keys, now).sessions
    ensures RecordKeys(m, ctx, keys, now).sessions[s] == m.sessions[s]
  {
  }

  lemma KeyedFields(m: Manager, call: Call, s: Session, st: SessionState, st': SessionState)
    requires call.OnKeys? && Counts(m, call) && s == Target(m, call.ctx) && s in m.sessions
    requires st' == st.(keys := st.keys + KeySet(call.accessed), lastAccess := call.now)
    ensures FieldsAfter(m, call, s, st, st') && TimesAfter(m, call, s, st, st')
  {
    forall key ensures key in KeySet(call.accessed) <==> key in call.accessed {
      NamedKeys(call.accessed, key);
    }
  }

  lemma FinishedAfter(m: Manager, call: Call, s: Session)
    requires Inv(m) && call.OnFinished? && s in m.sessions && s in Apply(m, call).sessions
    ensures FieldsAfter(m, call, s, m.sessions[s], Apply(m, call).sessions[s])
    ensures TimesAfter(m, call, s, m.sessions[s], Apply(m, call).sessions[s])
  {
    var ctx, heat, now := call.ctx, call.heat, call.now;
    TargetIsFound(m, ctx);
    if (m.config.enabled || heat) && s == Target(m, ctx) {
      OwnFinished(m, ctx, heat, now, s);
      FinishedFields(m, call, s, m.sessions[s], FinishRequest(m, ctx, heat, now).sessions[s]);
    } else {
      OtherFinished(m, ctx, heat, now, s);
      NotNamed(m, call, s, m.sessions[s]);
    }
  }

  ghost predicate FinishedBy(r: Request, now: Time, ttl: Time, st: SessionState, st': SessionState) {
    && st'.serving == st.serving - {r} && st'.retained == st.retained + {r}
    && st'.keys == st.keys && st'.stable == st.stable && st'.requests == st.requests
    && st'.lastAccess == now
    && st'.deadline == (if st'.serving != {} then st.deadline else if ttl > 0.0 then Some(now + ttl) else None)
  }

  lemma OwnFinished(m: Manager, ctx: Context, heat: bool, now: Time, s: Session)
    requires (m.config.enabled || heat) && LifecycleModel.Find(m, ctx) == Some(s) && s in m.sessions
    ensures s in FinishRequest(m, ctx, heat, now).sessions
    ensures FinishedBy(ctx.request, now, m.config.ttl, m.sessions[s], FinishRequest(m, ctx, heat, now).sessions[s])
  {
  }

  lemma FinishedFields(m: Manager, call: Call, s: Session, st: SessionState, st': SessionState)
    requires call.OnFinished? && Counts(m, call) && s == Target(m, call.ctx) && s in m.sessions
    requires FinishedBy(call.ctx.request, call.now, m.config.ttl, st, st')
    ensures FieldsAfter(m, call, s, st, st') && TimesAfter(m, call, s, st, st')
  {
  }

  lemma OtherFinished(m: Manager, ctx: Context, heat: bool, now: Time, s: Session)
    requires LifecycleModel.Find(m, ctx) != Some(s) || !(m.config.enabled || heat)
    requires LifecycleModel.Find(m, ctx).None? ==> s != Own(ctx)
    requires s in m.sessions && s in FinishRequest(m, ctx, heat, now).sessions
    ensures FinishRequest(m, ctx, heat, now).sessions[s] == m.sessions[s]
  {
  }

  lemma FinalizedAfter(m: Manager, call: Call, s: Session)
    requires Inv(m) && call.OnFinalized? && s in m.sessions && s in Apply(m, call).sessions
    ensures FieldsAfter(m, call, s, m.sessions[s], Apply(m, call).sessions[s])
    ensures TimesAfter(m, call, s, m.sessions[s], Apply(m, call).sessions[s])
  {
    TargetIsFound(m, call.ctx);
  }

  /* ---- sessions that come and go ---- */

  /** A session that has done nothing yet. */
  function Blank(stable: bool, now: Time): SessionState {
    SessionState(stable, Active, now, None, {}, {}, {}, 0)
  }

  /** A session that a call creates is blank but for what the call does to it. */
  lemma NewSession(m: Manager, call: Call, s: Session)
    requires Inv(m) && Enabled(m, call) && s !in m.sessions && s in Apply(m, call).sessions
    ensures call.OnNewRequest? || call.OnKeys? || call.OnFinished?
    ensures var blank := Blank(call.ctx.conversation.Some?, call.now);
      && Begins(m, call, s, call.ctx.request)
      && FieldsAfter(m, call, s, blank, Apply(m, call).sessions[s])
      && TimesAfter(m, call, s, blank, Apply(m, call).sessions[s])
  {
    match call
    case OnNewRequest(_, _, _) => NewByRequest(m, call, s);
    case OnKeys(_, _, _) => NewByKeys(m, call, s);
    case OnFinished(_, _, _) => NewByFinish(m, call, s);
    case ExpireIdle(keys, requests, now) => ExpireCreatesNone(m, keys, requests, now);
    case _ =>
  }

  lemma NewByRequest(m: Manager, call: Call, s: Session)
    requires Inv(m) && call.OnNewRequest? && s !in m.sessions && s in Apply(m, call).sessions
    ensures Begins(m, call, s, call.ctx.request)
    ensures FieldsAfter(m, call, s, Blank(call.ctx.conversation.Some?, call.now), Apply(m, call).sessions[s])
    ensures TimesAfter(m, call, s, Blank(call.ctx.conversation.Some?, call.now), Apply(m, call).sessions[s])
  {
    BegunFields(m, call, s, Blank(call.ctx.conversation.Some?, call.now), Apply(m, call).sessions[s]);
  }

  lemma NewByKeys(m: Manager, call: Call, s: Session)
    requires Inv(m) && call.OnKeys? && s !in m.sessions && s in Apply(m, call).sessions
    ensures Begins(m, call, s, call.ctx.request)
    ensures FieldsAfter(m, call, s, Blank(call.ctx.conversation.Some?, call.now), Apply(m, call).sessions[s])
    ensures TimesAfter(m, call, s, Blank(call.ctx.conversation.Some?, call.now), Apply(m, call).sessions[s])
  {
    TargetIsFound(m, call.ctx);
    forall key ensures key in KeySet(call.accessed) <==> key in call.accessed {
      NamedKeys(call.accessed, key);
    }
  }

  lemma NewByFinish(m: Manager, call: Call, s: Session)
    requires Inv(m) && call.OnFinished? && s !in m.sessions && s in Apply(m, call).sessions
    ensures Begins(m, call, s, call.ctx.request)
    ensures FieldsAfter(m, call, s, Blank(call.ctx.conversation.Some?, call.now), Apply(m, call).sessions[s])
    ensures TimesAfter(m, call, s, Blank(call.ctx.conversation.Some?, call.now), Apply(m, call).sessions[s])
  {
    TargetIsFound(m, call.ctx);
    FinishCreates(m, call.ctx, call.heat, call.now, s);
    CreatedFields(m, call, s, Apply(m, call).sessions[s]);
  }

  lemma FinishCreates(m: Manager, ctx: Context, heat: bool, now: Time, s: Session)
    requires s !in m.sessions && s in FinishRequest(m, ctx, heat, now).sessions
    ensures (m.config.enabled || heat) && LifecycleModel.Find(m, ctx).None? && s == Own(ctx)
    ensures FinishRequest(m, ctx, heat, now).sessions[s] ==
              SessionState(ctx.conversation.Some?, Idle, now, if m.config.ttl > 0.0 then Some(now + m.config.ttl) else None,
                           {}, {ctx.request}, {}, 1)
  {
  }

  lemma CreatedFields(m: Manager, call: Call, s: Session, st: SessionState)
    requires call.OnFinished? && Counts(m, call) && s == Target(m, call.ctx) && s !in m.sessions
    requires st == SessionState(call.ctx.conversation.Some?, Idle, call.now,
                     if m.config.ttl > 0.0 then Some(call.now + m.config.ttl) else None, {}, {call.ctx.request}, {}, 1)
    ensures Begins(m, call, s, call.ctx.request)
    ensures FieldsAfter(m, call, s, Blank(call.ctx.conversation.Some?, call.now), st)
    ensures TimesAfter(m, call, s, Blank(call.ctx.conversation.Some?, call.now), st)
  {
  }

  /** A session goes when it expires, is pruned, or was its request's own and the request is finalized. */
  ghost predicate Goes(m: Manager, call: Call, s: Session)
    requires s in m.sessions
  {
    var st := m.sessions[s];
    match call
    case ExpireIdle(keys, requests, now) =>
      && st.status.Idle? && st.deadline.Some? && st.deadline.value <= now
      && (forall key :: key in st.keys ==> key !in keys) && (forall r :: r in st.retained ==> r !in requests)
    case PruneIdle(gone, _) => s in gone
    case OnFinalized(ctx, _) =>
      s == Target(m, ctx) && !st.stable && st.serving == {} && forall r :: r in st.retained ==> r == ctx.request
    case _ => false
  }

  /** The sessions after a call are those that it begins, and those before it that do not go. */
  lemma SessionsAfterCall(m: Manager, call: Call, s: Session)
    requires Inv(m) && Enabled(m, call)
    ensures s in Apply(m, call).sessions <==>
              if s in m.sessions then !Goes(m, call, s) else exists r :: Begins(m, call, s, r)
  {
    match call
    case OnNewRequest(ctx, _, _) => assert Begins(m, call, s, ctx.request) || !Counts(m, call) || s != Own(ctx);
    case OnKeys(ctx, _, _) => KeysBegin(m, call, s);
    case OnFinished(ctx, _, _) => FinishBegins(m, call, s);
    case OnFinalized(ctx, _) => FinalizedGoes(m, call, s);
    case ExpireIdle(keys, requests, now) =>
      if s in m.sessions {
        ExpiredExactly(m, keys, requests, now, s);
      }
      ExpireCreatesNone(m, keys, requests, now);
    case _ =>
  }

  lemma KeysBegin(m: Manager, call: Call, s: Session)
    requires Inv(m) && call.OnKeys?
    ensures s in Apply(m, call).sessions <==> s in m.sessions || Begins(m, call, s, call.ctx.request)
  {
    TargetIsFound(m, call.ctx);
  }

  lemma FinishBegins(m: Manager, call: Call, s: Session)
    requires Inv(m) && call.OnFinished?
    ensures s in Apply(m, call).sessions <==> s in m.sessions || Begins(m, call, s, call.ctx.request)
  {
    TargetIsFound(m, call.ctx);
  }

  lemma FinalizedGoes(m: Manager, call: Call, s: Session)
    requires Inv(m) && call.OnFinalized?
    ensures s in Apply(m, call).sessions <==> s in m.sessions && !Goes(m, call, s)
  {
    TargetIsFound(m, call.ctx);
    if s in m.sessions {
      assert m.sessions[s].retained - {call.ctx.request} == {} <==> forall r :: r in m.sessions[s].retained ==> r == call.ctx.request by {
        if r :| r in m.sessions[s].retained && r != call.ctx.request {
          assert r in m.sessions[s].retained - {call.ctx.request};
        }
      }
    }
  }

  /* ---- which session a request leads to ---- */

  /** A session that goes takes with it what leads to the requests that it serves or retains. */
  ghost predicate Forgotten(m: Manager, m': Manager, r: Request) {
    exists s :: s in m.sessions && s !in m'.sessions && (r in m.sessions[s].serving || r in m.sessions[s].retained)
  }

  /** A request leads to the session that began it last, until it is finalized or that knowledge goes. */
  lemma RequestAfterCall(m: Manager, call: Call, r: Request, s: Session)
    requires Inv(m) && Enabled(m, call)
    ensures var m' := Apply(m, call);
      r in m'.requestSession && m'.requestSession[r] == s <==>
        || Begins(m, call, s, r)
        || (r in m.requestSession && m.requestSession[r] == s && !(exists x :: Begins(m, call, x, r))
            && !(call.OnFinalized? && r == call.ctx.request) && !Forgotten(m, m', r))
  {
    match call
    case OnNewRequest(_, _, _) => RequestBegun(m, call, r, s);
    case OnKeys(_, _, _) => RequestBegun(m, call, r, s);
    case OnFinished(_, _, _) => RequestBegun(m, call, r, s);
    case _ => RequestGone(m, call, r, s);
  }

  lemma RequestBegun(m: Manager, call: Call, r: Request, s: Session)
    requires Inv(m) && (call.OnNewRequest? || call.OnKeys? || call.OnFinished?)
    ensures var m' := Apply(m, call);
      r in m'.requestSession && m'.requestSession[r] == s <==>
        || Begins(m, call, s, r)
        || (r in m.requestSession && m.requestSession[r] == s && !(exists x :: Begins(m, call, x, r)))
    ensures m.sessions.Keys <= Apply(m, call).sessions.Keys
  {
    BegunLeads(m, call);
    var x := if call.OnNewRequest? then Own(call.ctx) else Target(m, call.ctx);
    assert forall y, q :: Begins(m, call, y, q) ==> y == x && q == call.ctx.request;
    if Begins(m, call, x, call.ctx.request) {
      assert exists y :: Begins(m, call, y, call.ctx.request);
    }
  }

  lemma BegunLeads(m: Manager, call: Call)
    requires Inv(m) && (call.OnNewRequest? || call.OnKeys? || call.OnFinished?)
    ensures var m', r, x := Apply(m, call), call.ctx.request, if call.OnNewRequest? then Own(call.ctx) else Target(m, call.ctx);
      && m.sessions.Keys <= m'.sessions.Keys
      && m'.requestSession == if Begins(m, call, x, r) then m.requestSession[r := x] else m.requestSession
  {
    TargetIsFound(m, call.ctx);
    match call
    case OnNewRequest(ctx, heat, now) => NewRequestLeads(m, ctx, heat, now);
    case OnKeys(ctx, keys, now) => KeysLead(m, ctx, keys, now);
    case OnFinished(ctx, heat, now) => FinishLeads(m, ctx, heat, now);
  }

  ghost predicate LeadsTo(m: Manager, m': Manager, begins: bool, r: Request, x: Session) {
    && m.sessions.Keys <= m'.sessions.Keys
    && m'.requestSession == if begins then m.requestSession[r := x] else m.requestSession
  }

  lemma NewRequestLeads(m: Manager, ctx: Context, heat: bool, now: Time)
    ensures LeadsTo(m, NewRequest(m, ctx, heat, now), m.config.enabled || heat, ctx.request, Own(ctx))
  {
  }

  lemma KeysLead(m: Manager, ctx: Context, keys: seq<Key>, now: Time)
    ensures LeadsTo(m, RecordKeys(m, ctx, keys, now), m.config.enabled && LifecycleModel.Find(m, ctx).None?, ctx.request, Own(ctx))
  {
    NewRequestLeads(m, ctx, false, now);
  }

  lemma FinishLeads(m: Manager, ctx: Context, heat: bool, now: Time)
    ensures LeadsTo(m, FinishRequest(m, ctx, heat, now), (m.config.enabled || heat) && LifecycleModel.Find(m, ctx).None?, ctx.request, Own(ctx))
  {
    NewRequestLeads(m, ctx, heat, now);
  }

  lemma RequestGone(m: Manager, call: Call, r: Request, s: Session)
    requires Inv(m) && Enabled(m, call) && !call.OnNewRequest? && !call.OnKeys? && !call.OnFinished?
    ensures var m' := Apply(m, call);
      r in m'.requestSession && m'.requestSession[r] == s <==>
        && r in m.requestSession && m.requestSession[r] == s
        && !(call.OnFinalized? && r == call.ctx.request) && !Forgotten(m, m', r)
  {
    match call
    case OnFinalized(_, _) => RequestFinalized(m, call, r, s);
    case ExpireIdle(keys, requests, now) =>
      var gone := ToExpire(m, keys, requests, now);
      ExpiresExactlyTheDue(m, keys, requests, now);
      GoneRequests(m, Apply(m, call), gone, r);
      if !m.config.enabled || GateShut(m, now) {
        assert forall x :: x in m.sessions ==> x in Apply(m, call).sessions;
      }
    case PruneIdle(gone, now) => GoneRequests(m, Apply(m, call), gone, r);
    case _ =>
  }

  lemma GoneRequests(m: Manager, m': Manager, gone: set<Session>, r: Request)
    requires m'.sessions == m.sessions - gone
    ensures r in RequestsOf(m.sessions, gone) <==> Forgotten(m, m', r)
  {
    if r in RequestsOf(m.sessions, gone) {
      var x :| x in gone && x in m.sessions && r in m.sessions[x].serving + m.sessions[x].retained;
      assert x in m.sessions && x !in m'.sessions;
    }
    if x :| x in m.sessions && x !in m'.sessions && (r in m.sessions[x].serving || r in m.sessions[x].retained) {
      assert x in gone && r in m.sessions[x].serving + m.sessions[x].retained;
    }
  }

  lemma RequestFinalized(m: Manager, call: Call, r: Request, s: Session)
    requires Inv(m) && call.OnFinalized?
    ensures var m' := Apply(m, call);
      r in m'.requestSession && m'.requestSession[r] == s <==>
        r in m.requestSession && m.requestSession[r] == s && r != call.ctx.request && !Forgotten(m, m', r)
  {
    var m', r0 := Apply(m, call), call.ctx.request;
    FinalizedRequests(m, call.ctx, call.now);
    if Forgotten(m, m', r) {
      var x :| x in m.sessions && x !in m'.sessions && (r in m.sessions[x].serving || r in m.sessions[x].retained);
      FinalizedGoes(m, call, x);
      assert r == r0;
    }
  }

  lemma FinalizedRequests(m: Manager, ctx: Context, now: Time)
    ensures FinalizeRequest(m, ctx, now).requestSession == m.requestSession - {ctx.request}
  {
    var found := LifecycleModel.Find(m, ctx);
    if found.Some? {
      var s := found.value;
      var st := m.sessions[s].(retained := m.sessions[s].retained - {ctx.request});
      if st.serving == {} && st.retained == {} && !st.stable {
        assert RequestsOf(m.sessions[s := st], {s}) == {};
        assert m.requestSession - {ctx.request} - {} == m.requestSession - {ctx.request};
      }
    }
  }
}
