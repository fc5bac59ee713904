/** What the answers say: the value of every hit, from the tier's reply to the scheduler's result. */
module LookupAnswers {
  import opened Basics
  import opened Wrappers
  import opened LookupProtocol

  /* ---- one reply ---- */

  /** Some call was asked about the key, and this is what it said: the hit at the key's place, or no hit
      when it raised. */
  ghost predicate Said(groups: seq<Group>, outcomes: seq<Outcome>, key: Key, hit: bool)
    requires |groups| == |outcomes|
  {
    exists g: nat, i: nat :: g < |groups| && i < |groups[g].keys| && SaidAt(groups[g], outcomes[g], i, key, hit)
  }

  predicate SaidAt(group: Group, outcome: Outcome, i: nat, key: Key, hit: bool) {
    && i < |group.keys| && group.keys[i] == key
    && match outcome
       case Raised => !hit
       case Hits(hits) => i < |hits| && hit == hits[i]
  }

  lemma LastSaid(group: Group, outcome: Outcome, a: Answer)
    ensures a in AnswersOf(group.keys, outcome) <==> exists i: nat :: i < |group.keys| && SaidAt(group, outcome, i, a.key, a.hit)
  {
    var answers := AnswersOf(group.keys, outcome);
    if a in answers {
      var i :| 0 <= i < |answers| && answers[i] == a;
      assert SaidAt(group, outcome, i, a.key, a.hit);
    }
    if i: nat :| i < |group.keys| && SaidAt(group, outcome, i, a.key, a.hit) {
      assert answers[i] == a;
    }
  }

  /** The answers of a batch are exactly what its calls said. */
  lemma {:induction false} AnswersAreSaid(groups: seq<Group>, outcomes: seq<Outcome>, a: Answer)
    requires |groups| == |outcomes|
    ensures a in AllAnswers(groups, outcomes) <==> Said(groups, outcomes, a.key, a.hit)
  {
    if groups != [] {
      var n := |groups| - 1;
      AnswersAreSaid(groups[..n], outcomes[..n], a);
      LastSaid(groups[n], outcomes[n], a);
      SaidLater(groups, outcomes, a.key, a.hit);
    }
  }

  lemma SaidLater(groups: seq<Group>, outcomes: seq<Outcome>, key: Key, hit: bool)
    requires |groups| == |outcomes| && groups != []
    ensures var n := |groups| - 1;
      Said(groups, outcomes, key, hit) <==>
        Said(groups[..n], outcomes[..n], key, hit) || exists i: nat :: i < |groups[n].keys| && SaidAt(groups[n], outcomes[n], i, key, hit)
  {
    var n := |groups| - 1;
    if g: nat, i: nat :| g < n && i < |groups[..n][g].keys| && SaidAt(groups[..n][g], outcomes[..n][g], i, key, hit) {
      assert SaidAt(groups[g], outcomes[g], i, key, hit);
    }
    if g: nat, i: nat :| g < |groups| && i < |groups[g].keys| && SaidAt(groups[g], outcomes[g], i, key, hit) {
      assert g < n ==> SaidAt(groups[..n][g], outcomes[..n][g], i, key, hit);
    }
  }

  /* ---- true replies ---- */

  /** Every call answered, for each of its keys, what is true of it. */
  ghost predicate TrueReply(groups: seq<Group>, outcomes: seq<Outcome>, truth: Key -> bool) {
    && |groups| == |outcomes|
    && forall g: nat :: g < |groups| ==> TrueCall(groups[g].keys, outcomes[g], truth)
  }

  predicate TrueCall(keys: seq<Key>, outcome: Outcome, truth: Key -> bool) {
    && outcome.Hits? && |outcome.hits| == |keys|
    && forall i :: 0 <= i < |keys| ==> outcome.hits[i] == truth(keys[i])
  }

  ghost predicate AllTrue(answers: seq<Answer>, truth: Key -> bool) {
    forall a :: a in answers ==> a.hit == truth(a.key)
  }

  lemma TrueReplyTells(groups: seq<Group>, outcomes: seq<Outcome>, truth: Key -> bool)
    requires TrueReply(groups, outcomes, truth)
    ensures AllTrue(AllAnswers(groups, outcomes), truth) && AllComplete(groups, outcomes)
  {
    forall a | a in AllAnswers(groups, outcomes) ensures a.hit == truth(a.key) {
      AnswersAreSaid(groups, outcomes, a);
      var g: nat, i: nat :| g < |groups| && i < |groups[g].keys| && SaidAt(groups[g], outcomes[g], i, a.key, a.hit);
      assert TrueCall(groups[g].keys, outcomes[g], truth);
    }
    TrueIsComplete(groups, outcomes, truth);
  }

  lemma {:induction false} TrueIsComplete(groups: seq<Group>, outcomes: seq<Outcome>, truth: Key -> bool)
    requires TrueReply(groups, outcomes, truth)
    ensures AllComplete(groups, outcomes)
  {
    if groups != [] {
      var n := |groups| - 1;
      assert TrueCall(groups[n].keys, outcomes[n], truth);
      forall g: nat | g < n ensures TrueCall(groups[..n][g].keys, outcomes[..n][g], truth) {
        assert TrueCall(groups[g].keys, outcomes[g], truth);
      }
      TrueIsComplete(groups[..n], outcomes[..n], truth);
    }
  }

  lemma {:induction false} LatestIsTrue(answers: seq<Answer>, key: Key, truth: Key -> bool)
    requires AllTrue(answers, truth)
    ensures Latest(answers, key) == if AnsweredIn(answers, key) then Some(truth(key)) else None
  {
    if answers != [] {
      var n := |answers| - 1;
      assert AllTrue(answers[..n], truth);
      LatestIsTrue(answers[..n], key, truth);
      assert forall a :: a in answers <==> a in answers[..n] || a == answers[n];
    }
  }

  /** Learning answers gives a tracked key the last answer for it. */
  lemma {:induction false} LearnedIsLatest(state: map<Key, Entry>, answers: seq<Answer>, key: Key)
    requires key in state
    ensures key in LearnAll(state, answers)
    ensures LearnAll(state, answers)[key].result ==
              if Latest(answers, key).Some? then Latest(answers, key) else state[key].result
  {
    if answers != [] {
      LearnedIsLatest(state, answers[..|answers| - 1], key);
    }
  }

  lemma {:induction false} LatestOfBoth(a: seq<Answer>, b: seq<Answer>, key: Key)
    ensures Latest(a + b, key) == if Latest(b, key).Some? then Latest(b, key) else Latest(a, key)
  {
    if b == [] {
      assert a + b == a;
    } else {
      assert (a + b)[..|a + b| - 1] == a + b[..|b| - 1];
      LatestOfBoth(a, b[..|b| - 1], key);
    }
  }

  /** From the question to the result: when the worker's calls say what is true, then after the reply and a
      drain the scheduler finds, for every tracked key that the worker was asked about, the truth. */
  lemma ReplyReachesScheduler(s: System, outcomes: seq<Outcome>, truth: Key -> bool, key: Key)
    requires Enabled(s, Reply(outcomes)) && TrueReply(Regroup(s.working), outcomes, truth)
    requires AskedIn(s.working, key) && key in s.lookups.state
    ensures var u := Apply(Apply(s, Reply(outcomes)), Drain);
      key in u.lookups.state && u.lookups.state[key].result == Some(truth(key))
  {
    var m, answers := s.lookups, AllAnswers(Regroup(s.working), outcomes);
    TrueReplyTells(Regroup(s.working), outcomes, truth);
    AskedIsAnswered(s.working, outcomes, key);
    LatestIsTrue(answers, key, truth);
    assert (m.results + [answers])[..|m.results|] == m.results;
    LatestOfBoth(Flat(m.results), answers, key);
    LearnedIsLatest(m.state, Flat(m.results) + answers, key);
  }

  /* ---- over a run ---- */

  /** Every reply of a run says what is true. */
  ghost predicate TrueRun(s: System, steps: seq<Step>, truth: Key -> bool)
    requires Run(s, steps).Some?
    decreases |steps|
  {
    steps == [] || (
      var n := |steps| - 1;
      && TrueRun(s, steps[..n], truth)
      && (steps[n].Reply? ==> TrueReply(Regroup(Run(s, steps[..n]).value.working), steps[n].outcomes, truth)))
  }

  ghost predicate NothingFalse(s: System, truth: Key -> bool) {
    AllTrue(s.drained, truth) && forall i: nat :: i < |s.lookups.results| ==> AllTrue(s.lookups.results[i], truth)
  }

  lemma {:induction false} FlatIsTrue(batches: seq<seq<Answer>>, truth: Key -> bool)
    requires forall i: nat :: i < |batches| ==> AllTrue(batches[i], truth)
    ensures AllTrue(Flat(batches), truth)
  {
    if batches != [] {
      FlatIsTrue(batches[..|batches| - 1], truth);
    }
  }

  lemma StepStaysTrue(s: System, step: Step, truth: Key -> bool)
    requires Enabled(s, step) && NothingFalse(s, truth)
    requires step.Reply? ==> TrueReply(Regroup(s.working), step.outcomes, truth)
    ensures NothingFalse(Apply(s, step), truth)
  {
    match step
    case Look(_, _) => FlatIsTrue(s.lookups.results, truth);
    case Drain => FlatIsTrue(s.lookups.results, truth);
    case Reply(outcomes) => TrueReplyTells(Regroup(s.working), outcomes, truth);
    case _ =>
  }

  lemma {:induction false} RunStaysTrue(s: System, steps: seq<Step>, truth: Key -> bool)
    requires NothingFalse(s, truth) && Run(s, steps).Some? && TrueRun(s, steps, truth)
    ensures NothingFalse(Run(s, steps).value, truth)
    decreases |steps|
  {
    if steps != [] {
      var n := |steps| - 1;
      RunStaysTrue(s, steps[..n], truth);
      StepStaysTrue(Run(s, steps[..n]).value, steps[n], truth);
    }
  }

  /** In every state that true replies lead to, every result that is known is true. */
  lemma ResultsAreTrue(steps: seq<Step>, truth: Key -> bool, key: Key)
    requires Run(EMPTY, steps).Some? && TrueRun(EMPTY, steps, truth)
    ensures var m := Run(EMPTY, steps).value.lookups;
      key in m.state && m.state[key].result.Some? ==> m.state[key].result == Some(truth(key))
  {
    RunStaysTrue(EMPTY, steps, truth);
    ResultsAreLatest(steps, key);
    LatestIsTrue(Run(EMPTY, steps).value.drained, key, truth);
  }

  /* ---- what is asked ---- */

  /** A key is asked about when it is looked up and not tracked, and at no other time. */
  lemma LookAsksOnce(s: System, key: Key, request: Request)
    ensures var m, m' := s.lookups, Apply(s, Look(key, request)).lookups;
      && m'.batch == (if key in m.state then m.batch else m.batch + [Pair(key, request)])
      && m'.queue == m.queue
      && key in m'.state && request in m'.state[key].requests
      && (forall k :: k in m'.state <==> k in m.state || k == key)
      && (forall k, r :: k in m.state && r != request ==> (r in m'.state[k].requests <==> r in m.state[k].requests))
  {
    Learned(s.lookups.state, Flat(s.lookups.results));
  }

  lemma {:induction false} Learned(state: map<Key, Entry>, answers: seq<Answer>)
    ensures LearnAll(state, answers).Keys == state.Keys
    ensures forall key :: key in state ==> LearnAll(state, answers)[key].requests == state[key].requests
  {
    if answers != [] {
      Learned(state, answers[..|answers| - 1]);
    }
  }

  /** After a cleanup a key is tracked exactly if another request asked for it, and keeps its result. */
  lemma CleanupForgets(s: System, request: Request, key: Key)
    requires Inverse(s.lookups)
    ensures var m, m' := s.lookups, Apply(s, Cleanup(request)).lookups;
      && (key in m'.state <==> key in m.state && exists r :: r != request && r in m.state[key].requests)
      && (key in m'.state ==> m'.state[key].result == m.state[key].result && request !in m'.state[key].requests)
      && m'.batch == m.batch && m'.queue == m.queue && m'.results == m.results
  {
    var m := s.lookups;
    if key in m.state {
      assert request in m.state[key].requests <==> request in m.requestKeys && key in m.requestKeys[request];
      if m.state[key].requests <= {request} {
        assert forall r :: r in m.state[key].requests ==> r == request;
      } else {
        var r :| r in m.state[key].requests && r !in {request};
      }
    }
  }
}
