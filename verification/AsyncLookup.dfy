/** The lookup manager: what the scheduler's thread and the worker's thread do between the queues. */
module AsyncLookups {
  import opened Basics
  import opened Wrappers
  import opened LookupProtocol

  class AsyncLookupManager {
    var state: map<Key, Entry>
    var requestKeys: map<Request, set<Key>>
    var batch: seq<Pair>
    var queue: seq<seq<Pair>>
    var results: seq<seq<Answer>>

    ghost function State(): Lookups
      reads this
    {
      Lookups(state, requestKeys, batch, queue, results)
    }

    constructor ()
      ensures State() == Lookups(map[], map[], [], [], [])
    {
      state, requestKeys, batch, queue, results := map[], map[], [], [], [];
    }

    /** The result for a key, if it is known by now; a new key joins the batch of this step. */
    method Lookup(key: Key, request: Request) returns (result: Option<bool>)
      modifies this`state, this`requestKeys, this`batch, this`results
      ensures State() == LookUp(old(State()), key, request)
      ensures key in state && result == state[key].result
      ensures key !in old(state) ==> result == None
    {
      DrainResults();
      LearnAllKeys(old(state), Flat(old(results)));
      if key !in state {
        state := state[key := Entry(None, {})];
        batch := batch + [Pair(key, request)];
      }
      var entry := state[key];
      state := state[key := entry.(requests := entry.requests + {request})];
      requestKeys := requestKeys[request := (if request in requestKeys then requestKeys[request] else {}) + {key}];
      result := state[key].result;
    }

    method Flush()
      modifies this`batch, this`queue
      ensures State() == FlushBatch(old(State()))
    {
      if batch == [] {
        return;
      }
      queue := queue + [batch];
      batch := [];
    }

    /** Takes in every answer that has arrived. */
    method DrainResults()
      modifies this`state, this`results
      ensures State() == DrainAll(old(State()))
    {
      ghost var all, n := results, 0;
      while results != []
        invariant n <= |all| && results == all[n..]
        invariant state == LearnAll(old(state), Flat(all[..n]))
        decreases |results|
      {
        var answers := results[0];
        results := results[1..];
        LearnBatch(answers, old(state), Flat(all[..n]));
        FlatNext(all, n);
        n := n + 1;
      }
      assert all[..n] == all;
    }

    method LearnBatch(answers: seq<Answer>, ghost before: map<Key, Entry>, ghost start: seq<Answer>)
      requires state == LearnAll(before, start)
      modifies this`state
      ensures state == LearnAll(before, start + answers)
    {
      assert start + answers[..0] == start;
      for i := 0 to |answers|
        invariant state == LearnAll(before, start + answers[..i])
      {
        assert (start + answers[..i + 1])[..|start| + i] == start + answers[..i];
        if answers[i].key in state {
          state := state[answers[i].key := state[answers[i].key].(result := Some(answers[i].hit))];
        }
      }
      assert answers[..|answers|] == answers;
    }

    /** Drops a request, and the keys that no other request tracks. Every key that the reverse index
        names is tracked, so none is missing here. */
    method Cleanup(request: Request)
      requires Inverse(State())
      modifies this`state, this`requestKeys
      ensures State() == CleanUp(old(State()), request)
    {
      var keys := if request in requestKeys then requestKeys[request] else {};
      var left := keys;
      requestKeys := requestKeys - {request};
      assert forall key :: key in keys ==> key in state && request in state[key].requests by {
        assert request in old(requestKeys) ==> keys == old(requestKeys)[request];
      }
      assert Forget(state, {}, request) == state;
      while left != {}
        invariant left <= keys && requestKeys == old(requestKeys) - {request}
        invariant state == Forget(old(state), keys - left, request)
        decreases left
      {
        var key :| key in left;
        left := left - {key};
        assert key in old(state) && request in old(state)[key].requests;
        ForgetNext(old(state), keys - left - {key}, key, request);
        var entry := state[key];
        var requests := entry.requests - {request};
        if requests == {} {
          state := state - {key};
        } else {
          state := state[key := entry.(requests := requests)];
        }
        assert keys - left == keys - left - {key} + {key};
      }
      assert keys - left == keys;
    }

    /** The worker takes one batch and groups it by request. */
    method TakeBatch() returns (pending: seq<Pair>, groups: seq<Group>)
      requires queue != []
      modifies this`queue
      ensures pending == old(queue)[0] && State() == old(State()).(queue := old(queue)[1..])
      ensures groups == Regroup(pending)
    {
      pending := queue[0];
      queue := queue[1..];
      groups := [];
      for i := 0 to |pending|
        invariant groups == Regroup(pending[..i])
      {
        assert pending[..i + 1][..i] == pending[..i];
        groups := AddPair(groups, pending[i]);
      }
      assert pending[..|pending|] == pending;
    }

    /** The worker pairs keys with the outcomes of the tier's lookups, and posts them as one item. */
    method PostResults(groups: seq<Group>, outcomes: seq<Outcome>)
      requires |groups| == |outcomes|
      modifies this`results
      ensures State() == Post(old(State()), AllAnswers(groups, outcomes))
    {
      var answers: seq<Answer> := [];
      for i := 0 to |groups|
        invariant answers == AllAnswers(groups[..i], outcomes[..i])
      {
        assert groups[..i + 1][..i] == groups[..i] && outcomes[..i + 1][..i] == outcomes[..i];
        var keys, outcome := groups[i].keys, outcomes[i];
        var hits := if outcome.Hits? then outcome.hits else seq(|keys|, _ => false);
        var mine: seq<Answer> := [];
        for j := 0 to |keys|
          invariant mine == AnswersOf(keys, outcome)[..if j < |hits| then j else |AnswersOf(keys, outcome)|]
        {
          if j < |hits| {
            mine := mine + [Answer(keys[j], hits[j])];
          }
        }
        answers := answers + mine;
      }
      assert groups[..|groups|] == groups && outcomes[..|groups|] == outcomes;
      if answers != [] {
        results := results + [answers];
      }
    }
  }

  lemma FlatNext<T>(batches: seq<seq<T>>, n: nat)
    requires n < |batches|
    ensures Flat(batches[..n + 1]) == Flat(batches[..n]) + batches[n]
  {
    assert batches[..n + 1][..n] == batches[..n];
  }

  lemma LearnAllKeys(state: map<Key, Entry>, answers: seq<Answer>)
    ensures LearnAll(state, answers).Keys == state.Keys
  {
  }

  lemma ForgetNext(state: map<Key, Entry>, done: set<Key>, key: Key, request: Request)
    requires key in state && key !in done && request in state[key].requests
    ensures var before, after := Forget(state, done, request), Forget(state, done + {key}, request);
      && key in before && before[key] == state[key]
      && after == if state[key].requests - {request} == {} then before - {key}
                  else before[key := Without(state[key], request)]
  {
    assert state[key].requests - {request} == {} <==> state[key].requests <= {request};
  }
}
