/** Lookups that a scheduler asks and a background worker answers, over two queues and without a lock. */
module LookupProtocol {
  import opened Basics
  import opened Wrappers

  type Request = nat

  datatype Pair = Pair(key: Key, request: Request)
  datatype Answer = Answer(key: Key, hit: bool)
  datatype Entry = Entry(result: Option<bool>, requests: set<Request>)
  datatype Group = Group(request: Request, keys: seq<Key>)

  /** What one call of the tier's lookup gave. */
  datatype Outcome = Hits(hits: seq<bool>) | Raised

  datatype Lookups = Lookups(
    state: map<Key, Entry>, requestKeys: map<Request, set<Key>>,
    batch: seq<Pair>, queue: seq<seq<Pair>>, results: seq<seq<Answer>>)

  /** With what the worker holds, and every answer that was drained, in order. */
  datatype System = System(lookups: Lookups, working: seq<Pair>, drained: seq<Answer>)

  datatype Step =
    | Look(key: Key, request: Request)
    | Flush
    | Cleanup(request: Request)
    | Drain
    | Take
    | Reply(outcomes: seq<Outcome>)

  /* ---- the scheduler ---- */

  /** An answer is kept only for a key that is still tracked. */
  function Learn(state: map<Key, Entry>, a: Answer): map<Key, Entry> {
    if a.key in state then state[a.key := state[a.key].(result := Some(a.hit))] else state
  }

  function LearnAll(state: map<Key, Entry>, answers: seq<Answer>): map<Key, Entry> {
    if answers == [] then state
    else Learn(LearnAll(state, answers[..|answers| - 1]), answers[|answers| - 1])
  }

  function Flat<T>(batches: seq<seq<T>>): seq<T> {
    if batches == [] then [] else Flat(batches[..|batches| - 1]) + batches[|batches| - 1]
  }

  function DrainAll(m: Lookups): Lookups {
    m.(state := LearnAll(m.state, Flat(m.results)), results := [])
  }

  function KeysOf(requestKeys: map<Request, set<Key>>, request: Request): set<Key> {
    if request in requestKeys then requestKeys[request] else {}
  }

  function Track(m: Lookups, key: Key, request: Request): Lookups {
    var entry := if key in m.state then m.state[key] else Entry(None, {});
    m.(state := m.state[key := entry.(requests := entry.requests + {request})],
       requestKeys := m.requestKeys[request := KeysOf(m.requestKeys, request) + {key}],
       batch := if key in m.state then m.batch else m.batch + [Pair(key, request)])
  }

  /** First takes in the answers that have arrived, then tracks the key. */
  function LookUp(m: Lookups, key: Key, request: Request): Lookups {
    Track(DrainAll(m), key, request)
  }

  function FlushBatch(m: Lookups): Lookups {
    if m.batch == [] then m else m.(queue := m.queue + [m.batch], batch := [])
  }

  function Without(entry: Entry, request: Request): Entry {
    entry.(requests := entry.requests - {request})
  }

  function Forget(state: map<Key, Entry>, keys: set<Key>, request: Request): map<Key, Entry> {
    map key | key in state && !(key in keys && state[key].requests <= {request}) ::
      if key in keys then Without(state[key], request) else state[key]
  }

  /** Keys that no other request tracks are dropped, wherever in the pipeline they are. */
  function CleanUp(m: Lookups, request: Request): Lookups {
    m.(state := Forget(m.state, KeysOf(m.requestKeys, request), request), requestKeys := m.requestKeys - {request})
  }

  /* ---- the worker ---- */

  function AddPair(groups: seq<Group>, p: Pair): seq<Group> {
    if groups == [] then [Group(p.request, [p.key])]
    else if groups[0].request == p.request then [groups[0].(keys := groups[0].keys + [p.key])] + groups[1..]
    else [groups[0]] + AddPair(groups[1..], p)
  }

  /** The pairs of one batch, grouped by request. */
  function Regroup(pending: seq<Pair>): seq<Group> {
    if pending == [] then [] else AddPair(Regroup(pending[..|pending| - 1]), pending[|pending| - 1])
  }

  /** Pairs keys and hits up to the shorter of the two; a lookup that raised finds nothing. */
  function AnswersOf(keys: seq<Key>, outcome: Outcome): seq<Answer> {
    match outcome
    case Raised => seq(|keys|, i requires 0 <= i < |keys| => Answer(keys[i], false))
    case Hits(hits) =>
      var n := if |hits| < |keys| then |hits| else |keys|;
      seq(n, i requires 0 <= i < n => Answer(keys[i], hits[i]))
  }

  function AllAnswers(groups: seq<Group>, outcomes: seq<Outcome>): seq<Answer>
    requires |groups| == |outcomes|
  {
    if groups == [] then []
    else
      var n := |groups| - 1;
      AllAnswers(groups[..n], outcomes[..n]) + AnswersOf(groups[n].keys, outcomes[n])
  }

  function Post(m: Lookups, answers: seq<Answer>): Lookups {
    if answers == [] then m else m.(results := m.results + [answers])
  }

  /* ---- steps ---- */

  predicate Complete(group: Group, outcome: Outcome) {
    outcome.Hits? ==> |group.keys| <= |outcome.hits|
  }

  predicate AllComplete(groups: seq<Group>, outcomes: seq<Outcome>)
    requires |groups| == |outcomes|
  {
    groups == [] || (
      && Complete(groups[|groups| - 1], outcomes[|groups| - 1])
      && AllComplete(groups[..|groups| - 1], outcomes[..|groups| - 1]))
  }

  predicate Enabled(s: System, step: Step) {
    match step
    case Take => s.working == [] && s.lookups.queue != []
    case Reply(outcomes) => s.working != [] && |outcomes| == |Regroup(s.working)|
    case _ => true
  }

  function Apply(s: System, step: Step): System
    requires Enabled(s, step)
  {
    match step
    case Look(key, request) =>
      s.(lookups := LookUp(s.lookups, key, request), drained := s.drained + Flat(s.lookups.results))
    case Flush => s.(lookups := FlushBatch(s.lookups))
    case Cleanup(request) => s.(lookups := CleanUp(s.lookups, request))
    case Drain => s.(lookups := DrainAll(s.lookups), drained := s.drained + Flat(s.lookups.results))
    case Take => s.(lookups := s.lookups.(queue := s.lookups.queue[1..]), working := s.lookups.queue[0])
    case Reply(outcomes) =>
      s.(lookups := Post(s.lookups, AllAnswers(Regroup(s.working), outcomes)), working := [])
  }

  /** A step that answers for all keys, if it answers. */
  predicate Answers(s: System, step: Step) {
    step.Reply? && Enabled(s, step) ==> AllComplete(Regroup(s.working), step.outcomes)
  }

  /* ---- the invariant ---- */

  /** The two indexes are each other's inverse, and no tracked key is without a request. */
  ghost predicate Inverse(m: Lookups) {
    && (forall key, request ::
          key in m.state && request in m.state[key].requests <==> request in m.requestKeys && key in m.requestKeys[request])
    && (forall key :: key in m.state ==> m.state[key].requests != {})
  }

  predicate AskedIn(pairs: seq<Pair>, key: Key) {
    exists p :: p in pairs && p.key == key
  }

  predicate AnsweredIn(answers: seq<Answer>, key: Key) {
    exists a :: a in answers && a.key == key
  }

  /** A key on its way: collected, queued, with the worker, or answered and not drained. */
  ghost predicate InPipeline(s: System, key: Key) {
    || AskedIn(s.lookups.batch, key)
    || (exists i: nat :: i < |s.lookups.queue| && AskedIn(s.lookups.queue[i], key))
    || AskedIn(s.working, key)
    || (exists i: nat :: i < |s.lookups.results| && AnsweredIn(s.lookups.results[i], key))
  }

  ghost predicate NoneLost(s: System) {
    forall key :: key in s.lookups.state && s.lookups.state[key].result.None? ==> InPipeline(s, key)
  }

  function Latest(drained: seq<Answer>, key: Key): Option<bool> {
    if drained == [] then None
    else if drained[|drained| - 1].key == key then Some(drained[|drained| - 1].hit)
    else Latest(drained[..|drained| - 1], key)
  }

  /** A known result is the latest that was drained. */
  ghost predicate ResultsTrue(state: map<Key, Entry>, drained: seq<Answer>) {
    forall key :: key in state && state[key].result.Some? ==> state[key].result == Latest(drained, key)
  }

  ghost predicate BatchesNonempty(s: System) {
    forall i :: 0 <= i < |s.lookups.queue| ==> s.lookups.queue[i] != []
  }

  /** What holds whatever the tier's lookup returns. */
  ghost predicate Sound(s: System) {
    Inverse(s.lookups) && ResultsTrue(s.lookups.state, s.drained) && BatchesNonempty(s)
  }

  ghost predicate Inv(s: System) {
    Sound(s) && NoneLost(s)
  }

  predicate Initial(s: System) {
    s == System(Lookups(map[], map[], [], [], []), [], [])
  }

  /* ---- answers ---- */

  lemma {:induction false} FlatHolds(batches: seq<seq<Answer>>, key: Key)
    ensures AnsweredIn(Flat(batches), key) <==> exists i: nat :: i < |batches| && AnsweredIn(batches[i], key)
  {
    if batches != [] {
      var n := |batches| - 1;
      FlatHolds(batches[..n], key);
      var last := batches[n];
      assert Flat(batches) == Flat(batches[..n]) + last;
      if AnsweredIn(last, key) {
        var a :| a in last && a.key == key;
        assert a in Flat(batches);
      }
      if AnsweredIn(Flat(batches[..n]), key) {
        var a :| a in Flat(batches[..n]) && a.key == key;
        assert a in Flat(batches);
        var i: nat :| i < n && AnsweredIn(batches[..n][i], key);
        assert AnsweredIn(batches[i], key);
      }
      if i: nat :| i < |batches| && AnsweredIn(batches[i], key) {
        assert i < n ==> AnsweredIn(batches[..n][i], key);
      }
    }
  }

  /** Taking in answers keeps what is tracked, and sets the result of every tracked key among them. */
  lemma {:induction false} LearnAllFacts(state: map<Key, Entry>, drained: seq<Answer>, answers: seq<Answer>)
    requires ResultsTrue(state, drained)
    ensures var after := LearnAll(state, answers);
      && after.Keys == state.Keys
      && (forall key :: key in state ==> after[key].requests == state[key].requests)
      && (forall key :: key in state && after[key].result.None? ==> state[key].result.None? && !AnsweredIn(answers, key))
      && ResultsTrue(after, drained + answers)
  {
    if answers == [] {
      assert drained + answers == drained;
    } else {
      var n := |answers| - 1;
      LearnAllFacts(state, drained, answers[..n]);
      var before, after := LearnAll(state, answers[..n]), LearnAll(state, answers);
      assert answers == answers[..n] + [answers[n]];
      assert (drained + answers)[..|drained + answers| - 1] == drained + answers[..n];
      forall key | key in state && after[key].result.None? ensures !AnsweredIn(answers, key) {
        assert key != answers[n].key;
        assert !AnsweredIn(answers[..n], key);
      }
    }
  }

  lemma DrainFacts(s: System)
    requires Inv(s)
    ensures Inv(Apply(s, Drain))
  {
    var s' := Apply(s, Drain);
    var all := Flat(s.lookups.results);
    LearnAllFacts(s.lookups.state, s.drained, all);
    forall key | key in s'.lookups.state && s'.lookups.state[key].result.None? ensures InPipeline(s', key) {
      FlatHolds(s.lookups.results, key);
      assert InPipeline(s, key);
    }
  }

  lemma TrackKeeps(s: System, key: Key, request: Request)
    requires Inv(s)
    ensures Inv(s.(lookups := Track(s.lookups, key, request)))
  {
    var s' := s.(lookups := Track(s.lookups, key, request));
    forall k | k in s'.lookups.state && s'.lookups.state[k].result.None? ensures InPipeline(s', k) {
      if k == key && key !in s.lookups.state {
        assert Pair(key, request) in s'.lookups.batch;
      } else {
        assert InPipeline(s, k);
        if AskedIn(s.lookups.batch, k) {
          var p :| p in s.lookups.batch && p.key == k;
          assert p in s'.lookups.batch;
        }
      }
    }
    TrackInverse(s.lookups, key, request);
  }

  lemma TrackInverse(m: Lookups, key: Key, request: Request)
    requires Inverse(m)
    ensures Inverse(Track(m, key, request))
  {
    var m' := Track(m, key, request);
    forall k, r
      ensures k in m'.state && r in m'.state[k].requests <==> r in m'.requestKeys && k in m'.requestKeys[r]
    {
      assert k in m.state && r in m.state[k].requests <==> r in m.requestKeys && k in m.requestKeys[r];
    }
  }

  lemma FlushKeeps(s: System)
    requires Inv(s)
    ensures Inv(Apply(s, Flush))
  {
    var s' := Apply(s, Flush);
    if s.lookups.batch != [] {
      var n := |s.lookups.queue|;
      forall key | key in s'.lookups.state && s'.lookups.state[key].result.None? ensures InPipeline(s', key) {
        assert InPipeline(s, key);
        if AskedIn(s.lookups.batch, key) {
          assert AskedIn(s'.lookups.queue[n], key);
        }
        if i: nat :| i < n && AskedIn(s.lookups.queue[i], key) {
          assert AskedIn(s'.lookups.queue[i], key);
        }
      }
    }
  }

  lemma CleanupInverse(m: Lookups, request: Request)
    requires Inverse(m)
    ensures Inverse(CleanUp(m, request))
  {
    var m', keys := CleanUp(m, request), KeysOf(m.requestKeys, request);
    forall k, r
      ensures k in m'.state && r in m'.state[k].requests <==> r in m'.requestKeys && k in m'.requestKeys[r]
    {
      assert k in m.state && r in m.state[k].requests <==> r in m.requestKeys && k in m.requestKeys[r];
      if r in m'.requestKeys && k in m'.requestKeys[r] {
        assert r != request && r in m.state[k].requests;
        assert k in m'.state;
      }
    }
    forall k | k in m'.state ensures m'.state[k].requests != {} {
      if k in keys {
        assert !(m.state[k].requests <= {request});
      }
    }
  }

  lemma CleanupKeeps(s: System, request: Request)
    requires Inv(s)
    ensures Inv(Apply(s, Cleanup(request)))
  {
    var s' := Apply(s, Cleanup(request));
    CleanupInverse(s.lookups, request);
    forall key | key in s'.lookups.state && s'.lookups.state[key].result.None? ensures InPipeline(s', key) {
      assert InPipeline(s, key);
    }
  }

  lemma TakeKeeps(s: System)
    requires Inv(s) && Enabled(s, Take)
    ensures Inv(Apply(s, Take))
  {
    var s' := Apply(s, Take);
    forall key | key in s'.lookups.state && s'.lookups.state[key].result.None? ensures InPipeline(s', key) {
      assert InPipeline(s, key);
      if i: nat :| i < |s.lookups.queue| && AskedIn(s.lookups.queue[i], key) {
        assert i > 0 ==> AskedIn(s'.lookups.queue[i - 1], key);
      }
    }
  }

  /* ---- regrouping ---- */

  function TimesAsked(pairs: seq<Pair>, key: Key): nat {
    if pairs == [] then 0
    else TimesAsked(pairs[..|pairs| - 1], key) + (if pairs[|pairs| - 1].key == key then 1 else 0)
  }

  function TimesIn(keys: seq<Key>, key: Key): nat {
    if keys == [] then 0
    else TimesIn(keys[..|keys| - 1], key) + (if keys[|keys| - 1] == key then 1 else 0)
  }

  function TimesAnswered(answers: seq<Answer>, key: Key): nat {
    if answers == [] then 0
    else TimesAnswered(answers[..|answers| - 1], key) + (if answers[|answers| - 1].key == key then 1 else 0)
  }

  function TimesGrouped(groups: seq<Group>, key: Key): nat {
    if groups == [] then 0 else TimesIn(groups[0].keys, key) + TimesGrouped(groups[1..], key)
  }

  function Size(groups: seq<Group>): nat {
    if groups == [] then 0 else |groups[0].keys| + Size(groups[1..])
  }

  lemma {:induction false} AddPairCounts(groups: seq<Group>, p: Pair, key: Key)
    ensures TimesGrouped(AddPair(groups, p), key) == TimesGrouped(groups, key) + (if p.key == key then 1 else 0)
    ensures Size(AddPair(groups, p)) == Size(groups) + 1
  {
    if groups == [] {
      assert [p.key][..0] == [] && AddPair(groups, p)[1..] == [];
      assert TimesIn([p.key], key) == if p.key == key then 1 else 0;
    } else if groups[0].request == p.request {
      assert (groups[0].keys + [p.key])[..|groups[0].keys|] == groups[0].keys;
    } else {
      AddPairCounts(groups[1..], p, key);
    }
  }

  /** Regrouping neither loses nor repeats a queued pair. */
  lemma {:induction false} RegroupCounts(pending: seq<Pair>, key: Key)
    ensures TimesGrouped(Regroup(pending), key) == TimesAsked(pending, key)
    ensures Size(Regroup(pending)) == |pending|
  {
    if pending != [] {
      var n := |pending| - 1;
      RegroupCounts(pending[..n], key);
      AddPairCounts(Regroup(pending[..n]), pending[n], key);
    }
  }

  function KeysFor(pending: seq<Pair>, request: Request): seq<Key> {
    if pending == [] then []
    else
      var before, last := KeysFor(pending[..|pending| - 1], request), pending[|pending| - 1];
      if last.request == request then before + [last.key] else before
  }

  function GroupFor(groups: seq<Group>, request: Request): seq<Key> {
    if groups == [] then []
    else if groups[0].request == request then groups[0].keys
    else GroupFor(groups[1..], request)
  }

  lemma {:induction false} AddPairFor(groups: seq<Group>, p: Pair, request: Request)
    ensures GroupFor(AddPair(groups, p), request)
         == GroupFor(groups, request) + (if p.request == request then [p.key] else [])
  {
    if groups != [] && groups[0].request != p.request {
      AddPairFor(groups[1..], p, request);
    }
  }

  /** A request is asked about exactly its own keys, in the order in which they were looked up. */
  lemma {:induction false} GroupsAreRequests(pending: seq<Pair>, request: Request)
    ensures GroupFor(Regroup(pending), request) == KeysFor(pending, request)
  {
    if pending != [] {
      var n := |pending| - 1;
      GroupsAreRequests(pending[..n], request);
      AddPairFor(Regroup(pending[..n]), pending[n], request);
    }
  }

  lemma {:induction false} AnsweredAppend(a: seq<Answer>, b: seq<Answer>, key: Key)
    ensures TimesAnswered(a + b, key) == TimesAnswered(a, key) + TimesAnswered(b, key)
  {
    if b == [] {
      assert a + b == a;
    } else {
      AnsweredAppend(a, b[..|b| - 1], key);
      assert (a + b)[..|a + b| - 1] == a + b[..|b| - 1];
    }
  }

  lemma {:induction false} AnswersCount(keys: seq<Key>, answers: seq<Answer>, key: Key)
    requires |answers| == |keys| && forall i :: 0 <= i < |keys| ==> answers[i].key == keys[i]
    ensures TimesAnswered(answers, key) == TimesIn(keys, key)
  {
    if keys != [] {
      AnswersCount(keys[..|keys| - 1], answers[..|keys| - 1], key);
    }
  }

  lemma {:induction false} GroupedAppend(groups: seq<Group>, g: Group, key: Key)
    ensures TimesGrouped(groups + [g], key) == TimesGrouped(groups, key) + TimesIn(g.keys, key)
    ensures Size(groups + [g]) == Size(groups) + |g.keys|
  {
    if groups == [] {
      assert groups + [g] == [g];
      assert [g][1..] == [];
    } else {
      GroupedAppend(groups[1..], g, key);
      assert (groups + [g])[1..] == groups[1..] + [g];
    }
  }

  /** When every call answers for all its keys, each key gets as many answers as it was asked. */
  lemma {:induction false} CompleteAnswers(groups: seq<Group>, outcomes: seq<Outcome>, key: Key)
    requires |groups| == |outcomes| && AllComplete(groups, outcomes)
    ensures TimesAnswered(AllAnswers(groups, outcomes), key) == TimesGrouped(groups, key)
  {
    if groups != [] {
      var n := |groups| - 1;
      var last := AnswersOf(groups[n].keys, outcomes[n]);
      CompleteAnswers(groups[..n], outcomes[..n], key);
      LastGroup(groups, key);
      AnswersCount(groups[n].keys, last, key);
      AnsweredAppend(AllAnswers(groups[..n], outcomes[..n]), last, key);
    }
  }

  lemma LastGroup(groups: seq<Group>, key: Key)
    requires groups != []
    ensures var n := |groups| - 1;
      && TimesGrouped(groups, key) == TimesGrouped(groups[..n], key) + TimesIn(groups[n].keys, key)
      && Size(groups) == Size(groups[..n]) + |groups[n].keys|
  {
    var n := |groups| - 1;
    GroupedAppend(groups[..n], groups[n], key);
    assert groups == groups[..n] + [groups[n]];
  }

  lemma {:induction false} AnswersSize(groups: seq<Group>, outcomes: seq<Outcome>)
    requires |groups| == |outcomes|
    ensures |AllAnswers(groups, outcomes)| <= Size(groups)
    ensures |AllAnswers(groups, outcomes)| == Size(groups) <==> AllComplete(groups, outcomes)
  {
    if groups != [] {
      var n := |groups| - 1;
      AnswersSize(groups[..n], outcomes[..n]);
      LastGroup(groups, Key(0));
    }
  }

  /** A batch gets exactly one answer for each of its pairs if and only if no call of the tier's lookup
      returned fewer hits than it was given keys; one that raised counts as an answer for all of them. */
  lemma OneAnswerPerPair(pending: seq<Pair>, outcomes: seq<Outcome>)
    requires |outcomes| == |Regroup(pending)|
    ensures (forall key :: TimesAnswered(AllAnswers(Regroup(pending), outcomes), key) == TimesAsked(pending, key))
            <==> AllComplete(Regroup(pending), outcomes)
    ensures |AllAnswers(Regroup(pending), outcomes)| <= |pending|
  {
    var groups := Regroup(pending);
    var answers := AllAnswers(groups, outcomes);
    RegroupCounts(pending, Key(0));
    AnswersSize(groups, outcomes);
    if AllComplete(groups, outcomes) {
      forall key ensures TimesAnswered(answers, key) == TimesAsked(pending, key) {
        RegroupCounts(pending, key);
        CompleteAnswers(groups, outcomes, key);
      }
    } else {
      var key := FewerMeansOneLess(pending, answers);
      assert TimesAnswered(answers, key) != TimesAsked(pending, key);
    }
  }

  /** Of a shorter list, some key occurs less often. */
  lemma {:induction false} FewerMeansOneLess(pending: seq<Pair>, answers: seq<Answer>) returns (key: Key)
    requires |answers| < |pending|
    ensures TimesAnswered(answers, key) < TimesAsked(pending, key)
    decreases |answers|
  {
    if answers == [] {
      key := pending[|pending| - 1].key;
    } else {
      var last := answers[|answers| - 1];
      if TimesAsked(pending, last.key) == 0 {
        key := FewerMeansOneLess(pending, answers[..|answers| - 1]);
      } else {
        var rest := RemoveOne(pending, last.key);
        key := FewerMeansOneLess(rest, answers[..|answers| - 1]);
      }
    }
  }

  lemma {:induction false} RemoveOne(pending: seq<Pair>, key: Key) returns (rest: seq<Pair>)
    requires TimesAsked(pending, key) > 0
    ensures |rest| == |pending| - 1
    ensures forall k :: TimesAsked(rest, k) == TimesAsked(pending, k) - (if k == key then 1 else 0)
  {
    var n := |pending| - 1;
    if pending[n].key == key {
      rest := pending[..n];
    } else {
      var before := RemoveOne(pending[..n], key);
      rest := before + [pending[n]];
      assert rest[..n - 1] == before;
    }
  }

  lemma {:induction false} AskedCounts(pairs: seq<Pair>, key: Key)
    ensures TimesAsked(pairs, key) > 0 <==> AskedIn(pairs, key)
  {
    if pairs != [] {
      var n := |pairs| - 1;
      AskedCounts(pairs[..n], key);
      assert forall p :: p in pairs <==> p in pairs[..n] || p == pairs[n];
    }
  }

  lemma {:induction false} AnsweredCounts(answers: seq<Answer>, key: Key)
    ensures TimesAnswered(answers, key) > 0 <==> AnsweredIn(answers, key)
  {
    if answers != [] {
      var n := |answers| - 1;
      AnsweredCounts(answers[..n], key);
      assert forall a :: a in answers <==> a in answers[..n] || a == answers[n];
    }
  }

  lemma ReplyKeeps(s: System, outcomes: seq<Outcome>)
    requires Inv(s) && Enabled(s, Reply(outcomes)) && Answers(s, Reply(outcomes))
    ensures Inv(Apply(s, Reply(outcomes)))
  {
    var s' := Apply(s, Reply(outcomes));
    forall key | key in s'.lookups.state && s'.lookups.state[key].result.None? ensures InPipeline(s', key) {
      assert InPipeline(s, key);
      ReplyKeepsKey(s, s', outcomes, key);
    }
  }

  lemma ReplyKeepsKey(s: System, s': System, outcomes: seq<Outcome>, key: Key)
    requires |outcomes| == |Regroup(s.working)| && AllComplete(Regroup(s.working), outcomes) && InPipeline(s, key)
    requires s'.lookups == Post(s.lookups, AllAnswers(Regroup(s.working), outcomes))
    ensures InPipeline(s', key)
  {
    if AskedIn(s.working, key) {
      AskedIsAnswered(s.working, outcomes, key);
      assert AnsweredIn(s'.lookups.results[|s.lookups.results|], key);
    } else if i: nat :| i < |s.lookups.results| && AnsweredIn(s.lookups.results[i], key) {
      assert AnsweredIn(s'.lookups.results[i], key);
    }
  }

  lemma AskedIsAnswered(working: seq<Pair>, outcomes: seq<Outcome>, key: Key)
    requires |outcomes| == |Regroup(working)| && AllComplete(Regroup(working), outcomes) && AskedIn(working, key)
    ensures AnsweredIn(AllAnswers(Regroup(working), outcomes), key)
  {
    OneAnswerPerPair(working, outcomes);
    AskedCounts(working, key);
    AnsweredCounts(AllAnswers(Regroup(working), outcomes), key);
  }

  /** Every step but a short reply keeps the invariant. */
  lemma StepKeeps(s: System, step: Step)
    requires Inv(s) && Enabled(s, step) && Answers(s, step)
    ensures Inv(Apply(s, step))
  {
    match step
    case Look(key, request) =>
      DrainFacts(s);
      TrackKeeps(Apply(s, Drain), key, request);
    case Flush => FlushKeeps(s);
    case Cleanup(request) => CleanupKeeps(s, request);
    case Drain => DrainFacts(s);
    case Take => TakeKeeps(s);
    case Reply(outcomes) => ReplyKeeps(s, outcomes);
  }

  /** A short reply, too, keeps the indexes inverse and the results true. */
  lemma StepKeepsSound(s: System, step: Step)
    requires Sound(s) && Enabled(s, step)
    ensures Sound(Apply(s, step))
  {
    match step
    case Look(key, request) =>
      LearnAllFacts(s.lookups.state, s.drained, Flat(s.lookups.results));
      TrackInverse(Apply(s, Drain).lookups, key, request);
    case Cleanup(request) => CleanupInverse(s.lookups, request);
    case Drain => LearnAllFacts(s.lookups.state, s.drained, Flat(s.lookups.results));
    case _ =>
  }

  /* ---- runs ---- */

  function Run(s: System, steps: seq<Step>): Option<System>
    decreases |steps|
  {
    if steps == [] then Some(s)
    else
      match Run(s, steps[..|steps| - 1])
      case None => None
      case Some(t) =>
        var last := steps[|steps| - 1];
        if Enabled(t, last) then Some(Apply(t, last)) else None
  }

  /** Every reply of a run answers for all the keys it was asked about. */
  predicate RunAnswers(s: System, steps: seq<Step>)
    requires Run(s, steps).Some?
    decreases |steps|
  {
    steps == [] || (
      var n := |steps| - 1;
      RunAnswers(s, steps[..n]) && Answers(Run(s, steps[..n]).value, steps[n]))
  }

  lemma {:induction false} RunKeeps(s: System, steps: seq<Step>)
    requires Inv(s) && Run(s, steps).Some? && RunAnswers(s, steps)
    ensures Inv(Run(s, steps).value)
    decreases |steps|
  {
    if steps != [] {
      var n := |steps| - 1;
      RunKeeps(s, steps[..n]);
      StepKeeps(Run(s, steps[..n]).value, steps[n]);
    }
  }

  lemma {:induction false} RunKeepsSound(s: System, steps: seq<Step>)
    requires Sound(s) && Run(s, steps).Some?
    ensures Sound(Run(s, steps).value)
    decreases |steps|
  {
    if steps != [] {
      var n := |steps| - 1;
      RunKeepsSound(s, steps[..n]);
      StepKeepsSound(Run(s, steps[..n]).value, steps[n]);
    }
  }

  const EMPTY := System(Lookups(map[], map[], [], [], []), [], [])

  /** In every state that complete replies lead to: a tracked key without a result is somewhere in the
      pipeline, even if it was dropped and asked again in between. */
  lemma NoLookupIsLost(steps: seq<Step>, key: Key)
    requires Run(EMPTY, steps).Some? && RunAnswers(EMPTY, steps)
    ensures var s := Run(EMPTY, steps).value;
      key in s.lookups.state && s.lookups.state[key].result.None? ==> InPipeline(s, key)
  {
    RunKeeps(EMPTY, steps);
  }

  /** In every reachable state, whatever the tier's lookup returned, a result is the latest drained answer
      for its key, and the two indexes are each other's inverse. */
  lemma ResultsAreLatest(steps: seq<Step>, key: Key)
    requires Run(EMPTY, steps).Some?
    ensures var s := Run(EMPTY, steps).value;
      && Inverse(s.lookups)
      && (key in s.lookups.state && s.lookups.state[key].result.Some? ==>
            s.lookups.state[key].result == Latest(s.drained, key))
  {
    RunKeepsSound(EMPTY, steps);
  }

  lemma RunNext(s: System, steps: seq<Step>, step: Step)
    requires Run(s, steps).Some? && Enabled(Run(s, steps).value, step)
    ensures Run(s, steps + [step]) == Some(Apply(Run(s, steps).value, step))
    ensures RunAnswers(s, steps) && Answers(Run(s, steps).value, step) ==> RunAnswers(s, steps + [step])
  {
    assert (steps + [step])[..|steps|] == steps;
  }

  /* ---- short replies ---- */

  /** The worker holds a batch of keys that are tracked, unanswered, asked once, and nowhere else. */
  ghost predicate OnlyHere(s: System) {
    && s.lookups.batch == [] && s.lookups.queue == [] && s.lookups.results == []
    && forall key :: AskedIn(s.working, key) ==>
         TimesAsked(s.working, key) == 1 && key in s.lookups.state && s.lookups.state[key].result.None?
  }

  /** Then a reply loses a key if and only if some call of the tier's lookup returned fewer hits than keys. */
  lemma ShortRepliesLose(s: System, outcomes: seq<Outcome>)
    requires Inv(s) && Enabled(s, Reply(outcomes)) && OnlyHere(s)
    ensures NoneLost(Apply(s, Reply(outcomes))) <==> AllComplete(Regroup(s.working), outcomes)
  {
    var s', groups := Apply(s, Reply(outcomes)), Regroup(s.working);
    var answers := AllAnswers(groups, outcomes);
    if AllComplete(groups, outcomes) {
      ReplyKeeps(s, outcomes);
    } else {
      RegroupCounts(s.working, Key(0));
      AnswersSize(groups, outcomes);
      var key := FewerMeansOneLess(s.working, answers);
      AskedCounts(s.working, key);
      AnsweredCounts(answers, key);
      assert !AnsweredIn(answers, key);
      assert !InPipeline(s', key);
    }
  }

  /** A key that waits for an answer that nobody will give. */
  ghost predicate Lost(s: System, key: Key) {
    key in s.lookups.state && s.lookups.state[key].result.None? && !InPipeline(s, key)
  }

  lemma StepKeepsLost(s: System, step: Step, key: Key)
    requires Sound(s) && Enabled(s, step) && !step.Cleanup? && Lost(s, key)
    ensures Lost(Apply(s, step), key)
  {
    var s' := Apply(s, step);
    match step
    case Look(k, request) =>
      FlatHolds(s.lookups.results, key);
      LearnKeepsNone(s.lookups.state, Flat(s.lookups.results), key);
      TrackKeepsLost(s, Apply(s, Drain).lookups, k, request, key);
    case Flush => FlushKeepsLost(s, key);
    case Drain =>
      FlatHolds(s.lookups.results, key);
      LearnKeepsNone(s.lookups.state, Flat(s.lookups.results), key);
    case Take =>
      assert !AskedIn(s.lookups.queue[0], key);
      forall i: nat | i < |s'.lookups.queue| ensures !AskedIn(s'.lookups.queue[i], key) {
        assert s'.lookups.queue[i] == s.lookups.queue[i + 1];
      }
    case Reply(outcomes) => ReplyKeepsLost(s, outcomes, key);
  }

  lemma {:induction false} LearnKeepsNone(state: map<Key, Entry>, answers: seq<Answer>, key: Key)
    requires key in state && state[key].result.None? && !AnsweredIn(answers, key)
    ensures key in LearnAll(state, answers) && LearnAll(state, answers)[key].result.None?
  {
    if answers != [] {
      var n := |answers| - 1;
      assert answers[n] in answers;
      assert forall a :: a in answers[..n] ==> a in answers;
      LearnKeepsNone(state, answers[..n], key);
    }
  }

  lemma TrackKeepsLost(s: System, m: Lookups, k: Key, request: Request, key: Key)
    requires Lost(s, key) && m == DrainAll(s.lookups) && key in m.state && m.state[key].result.None?
    ensures Lost(s.(lookups := Track(m, k, request), drained := s.drained + Flat(s.lookups.results)), key)
  {
    var batch := Track(m, k, request).batch;
    forall p | p in batch ensures p.key != key {
      assert p in s.lookups.batch || (p == Pair(k, request) && k !in m.state);
    }
  }

  lemma FlushKeepsLost(s: System, key: Key)
    requires Lost(s, key)
    ensures Lost(Apply(s, Flush), key)
  {
    var s' := Apply(s, Flush);
    forall i: nat | i < |s'.lookups.queue| ensures !AskedIn(s'.lookups.queue[i], key) {
      if i < |s.lookups.queue| {
        assert s'.lookups.queue[i] == s.lookups.queue[i];
      }
    }
  }

  lemma NotAnswered(working: seq<Pair>, outcomes: seq<Outcome>, key: Key)
    requires |outcomes| == |Regroup(working)| && !AskedIn(working, key)
    ensures !AnsweredIn(AllAnswers(Regroup(working), outcomes), key)
  {
    AskedCounts(working, key);
    RegroupCounts(working, key);
    AnswersAtMost(Regroup(working), outcomes, key);
    AnsweredCounts(AllAnswers(Regroup(working), outcomes), key);
  }

  lemma ReplyKeepsLost(s: System, outcomes: seq<Outcome>, key: Key)
    requires Enabled(s, Reply(outcomes)) && Lost(s, key)
    ensures Lost(Apply(s, Reply(outcomes)), key)
  {
    var s', answers := Apply(s, Reply(outcomes)), AllAnswers(Regroup(s.working), outcomes);
    NotAnswered(s.working, outcomes, key);
    forall i: nat | i < |s'.lookups.results| ensures !AnsweredIn(s'.lookups.results[i], key) {
      if i < |s.lookups.results| {
        assert s'.lookups.results[i] == s.lookups.results[i];
      }
    }
  }

  /** No key gets more answers than it was asked. */
  lemma {:induction false} AnswersAtMost(groups: seq<Group>, outcomes: seq<Outcome>, key: Key)
    requires |groups| == |outcomes|
    ensures TimesAnswered(AllAnswers(groups, outcomes), key) <= TimesGrouped(groups, key)
  {
    if groups != [] {
      var n := |groups| - 1;
      var last := AnswersOf(groups[n].keys, outcomes[n]);
      AnswersAtMost(groups[..n], outcomes[..n], key);
      LastGroup(groups, key);
      AnswersCount(groups[n].keys[..|last|], last, key);
      TimesInPrefix(groups[n].keys, |last|, key);
      AnsweredAppend(AllAnswers(groups[..n], outcomes[..n]), last, key);
    }
  }

  lemma {:induction false} TimesInPrefix(keys: seq<Key>, n: nat, key: Key)
    requires n <= |keys|
    ensures TimesIn(keys[..n], key) <= TimesIn(keys, key)
  {
    if n < |keys| {
      TimesInPrefix(keys[..|keys| - 1], n, key);
      assert keys[..|keys| - 1][..n] == keys[..n];
    } else {
      assert keys[..n] == keys;
    }
  }

  predicate NoCleanup(steps: seq<Step>) {
    forall step :: step in steps ==> !step.Cleanup?
  }

  /** A lost key is never answered: asking again does not help while some request tracks it. */
  lemma {:induction false} LostStaysLost(s: System, steps: seq<Step>, key: Key)
    requires Sound(s) && Run(s, steps).Some? && NoCleanup(steps) && Lost(s, key)
    ensures Lost(Run(s, steps).value, key)
    decreases |steps|
  {
    if steps != [] {
      var n := |steps| - 1;
      LostStaysLost(s, steps[..n], key);
      RunKeepsSound(s, steps[..n]);
      StepKeepsLost(Run(s, steps[..n]).value, steps[n], key);
    }
  }

  /** One key, asked by one request, with what is on its way. */
  function OneKey(key: Key, request: Request, batch: seq<Pair>, queue: seq<seq<Pair>>, working: seq<Pair>): System {
    System(Lookups(map[key := Entry(None, {request})], map[request := {key}], batch, queue, []), working, [])
  }

  lemma FirstLook(key: Key, request: Request)
    ensures Apply(EMPTY, Look(key, request)) == OneKey(key, request, [Pair(key, request)], [], [])
  {
    assert {} + {request} == {request} && {} + {key} == {key};
    var m := DrainAll(EMPTY.lookups);
    assert m == EMPTY.lookups;
    assert Track(m, key, request) == OneKey(key, request, [Pair(key, request)], [], []).lookups;
  }

  lemma FlushOne(key: Key, request: Request)
    ensures Apply(OneKey(key, request, [Pair(key, request)], [], []), Flush) == OneKey(key, request, [], [[Pair(key, request)]], [])
    ensures Enabled(OneKey(key, request, [], [[Pair(key, request)]], []), Take)
    ensures Apply(OneKey(key, request, [], [[Pair(key, request)]], []), Take) == OneKey(key, request, [], [], [Pair(key, request)])
  {
    assert [] + [[Pair(key, request)]] == [[Pair(key, request)]];
    assert [[Pair(key, request)]][1..] == [];
  }

  lemma NoHits(key: Key, request: Request)
    ensures |Regroup([Pair(key, request)])| == 1 && AllAnswers(Regroup([Pair(key, request)]), [Hits([])]) == []
  {
    assert [Pair(key, request)][..0] == [];
    assert Regroup([Pair(key, request)]) == [Group(request, [key])];
    assert [Group(request, [key])][..0] == [] && [Hits([])][..0] == [];
  }

  /** A run from the start in which a call that returns no hits loses the only key that was asked. */
  lemma AKeyIsLost(key: Key, request: Request)
    ensures var steps := [Look(key, request), Flush, Take, Reply([Hits([])])];
      Run(EMPTY, steps).Some? && Lost(Run(EMPTY, steps).value, key)
  {
    var p, look, reply := Pair(key, request), Look(key, request), Reply([Hits([])]);
    FirstLook(key, request);
    NoHits(key, request);
    RunNext(EMPTY, [], look);
    assert Run(EMPTY, [] + [look]) == Some(OneKey(key, request, [p], [], []));
    RunNext(EMPTY, [] + [look], Flush);
    FlushOne(key, request);
    assert Run(EMPTY, [] + [look] + [Flush]) == Some(OneKey(key, request, [], [[p]], []));
    RunNext(EMPTY, [] + [look] + [Flush], Take);
    assert Run(EMPTY, [] + [look] + [Flush] + [Take]) == Some(OneKey(key, request, [], [], [p]));
    RunNext(EMPTY, [] + [look] + [Flush] + [Take], reply);
    assert [] + [look] + [Flush] + [Take] + [reply] == [look, Flush, Take, reply];
  }

  /* ---- every lookup gets its answer ---- */

  predicate NothingPending(s: System) {
    s.lookups.batch == [] && s.lookups.queue == [] && s.working == [] && s.lookups.results == []
  }

  lemma AllAnswered(s: System)
    requires Inv(s) && NothingPending(s)
    ensures forall key :: key in s.lookups.state ==> s.lookups.state[key].result.Some?
  {
    forall key | key in s.lookups.state ensures s.lookups.state[key].result.Some? {
      assert s.lookups.state[key].result.None? ==> InPipeline(s, key);
    }
  }

  /** What the tier's lookup returns for the groups of a batch: any answers, as long as they are complete. */
  ghost predicate Tells(tier: seq<Group> -> seq<Outcome>) {
    forall groups :: |tier(groups)| == |groups| && AllComplete(groups, tier(groups))
  }

  /** Every reply of a run is what the tier's lookup returns. */
  predicate Told(s: System, steps: seq<Step>, tier: seq<Group> -> seq<Outcome>)
    requires Run(s, steps).Some?
    decreases |steps|
  {
    steps == [] || (
      var n := |steps| - 1;
      && Told(s, steps[..n], tier)
      && (steps[n].Reply? ==> steps[n].outcomes == tier(Regroup(Run(s, steps[..n]).value.working))))
  }

  lemma ToldAnswers(s: System, steps: seq<Step>, tier: seq<Group> -> seq<Outcome>)
    requires Run(s, steps).Some? && Tells(tier) && Told(s, steps, tier)
    ensures RunAnswers(s, steps)
    decreases |steps|
  {
    if steps != [] {
      ToldAnswers(s, steps[..|steps| - 1], tier);
    }
  }

  lemma ToldNext(s: System, steps: seq<Step>, step: Step, tier: seq<Group> -> seq<Outcome>)
    requires Run(s, steps).Some? && Enabled(Run(s, steps).value, step) && Told(s, steps, tier)
    requires step.Reply? ==> step.outcomes == tier(Regroup(Run(s, steps).value.working))
    ensures Run(s, steps + [step]) == Some(Apply(Run(s, steps).value, step)) && Told(s, steps + [step], tier)
  {
    assert (steps + [step])[..|steps|] == steps;
  }

  /** The worker can always answer what it holds. */
  lemma WorkerReplies(s: System, start: seq<Step>, tier: seq<Group> -> seq<Outcome>) returns (steps: seq<Step>)
    requires Run(s, start).Some? && Run(s, start).value.lookups.batch == []
    requires Tells(tier) && Told(s, start, tier)
    ensures Run(s, steps).Some? && Told(s, steps, tier)
    ensures var t, u := Run(s, start).value, Run(s, steps).value;
      u.working == [] && u.lookups.batch == [] && u.lookups.queue == t.lookups.queue
  {
    var t := Run(s, start).value;
    steps := start;
    if t.working != [] {
      var reply := Reply(tier(Regroup(t.working)));
      ToldNext(s, start, reply, tier);
      steps := start + [reply];
    }
  }

  lemma {:induction false} WorkerEmpties(s: System, start: seq<Step>, tier: seq<Group> -> seq<Outcome>) returns (steps: seq<Step>)
    requires Run(s, start).Some? && Run(s, start).value.lookups.batch == []
    requires Tells(tier) && Told(s, start, tier)
    ensures Run(s, steps).Some? && Told(s, steps, tier)
    ensures var u := Run(s, steps).value; u.working == [] && u.lookups.batch == [] && u.lookups.queue == []
    decreases |Run(s, start).value.lookups.queue|
  {
    steps := WorkerReplies(s, start, tier);
    if Run(s, steps).value.lookups.queue != [] {
      ToldNext(s, steps, Take, tier);
      steps := WorkerEmpties(s, steps + [Take], tier);
    }
  }

  /** Whatever complete answers the tier's lookup gives: from any state without a lost key, flush, let the
      worker go on with these answers, drain; then every tracked key has a result. */
  lemma EveryLookupIsAnswered(s: System, tier: seq<Group> -> seq<Outcome>) returns (steps: seq<Step>)
    requires Inv(s) && Tells(tier)
    ensures Run(s, steps).Some? && Told(s, steps, tier)
    ensures forall key :: key in Run(s, steps).value.lookups.state ==> Run(s, steps).value.lookups.state[key].result.Some?
  {
    ToldNext(s, [], Flush, tier);
    steps := WorkerEmpties(s, [] + [Flush], tier);
    ToldNext(s, steps, Drain, tier);
    steps := steps + [Drain];
    ToldAnswers(s, steps, tier);
    RunKeeps(s, steps);
    AllAnswered(Run(s, steps).value);
  }
}
