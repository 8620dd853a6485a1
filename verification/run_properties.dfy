/**
 * Properties of whole runs of the Hintforge graph: how often the tutor runs,
 * that an ERROR state is absorbing and always explained, and that the
 * caller's inputs are never rewritten.
 */
module RunProperties {
  import opened GraphState
  import opened RouterFunction
  import opened Graph

  /** How many times node `n` ran. */
  function Calls(vs: seq<Visit>, n: Node): (k: nat)
    ensures k <= |vs|
  {
    if vs == [] then 0 else (if vs[0].node == n then 1 else 0) + Calls(vs[1..], n)
  }

  lemma {:induction false} CallsConcat(a: seq<Visit>, b: seq<Visit>, n: Node)
    ensures Calls(a + b, n) == Calls(a, n) + Calls(b, n)
    decreases |a|
  {
    if a == [] {
      assert a + b == b;
    } else {
      assert (a + b)[0] == a[0];
      assert (a + b)[1..] == a[1..] + b;
      CallsConcat(a[1..], b, n);
    }
  }

  /** In tutor/critic pairs, half of the visits are the tutor's and half the
      critic's. */
  lemma {:induction false} AlternatingCalls(vs: seq<Visit>)
    requires Alternates(vs)
    ensures Calls(vs, Tutor) == |vs| / 2 && Calls(vs, Critic) == |vs| / 2
    decreases |vs|
  {
    if vs != [] {
      var rest := vs[2..];
      assert Alternates(rest) by {
        forall i | 0 <= i < |rest|
          ensures rest[i].node == (if i % 2 == 0 then Tutor else Critic)
        {
          assert rest[i] == vs[i + 2];
        }
      }
      AlternatingCalls(rest);
      assert vs[1..][1..] == rest;
    }
  }

  /** The chain before the loop runs neither the tutor nor the critic. */
  lemma ChainCalls(vs: seq<Visit>)
    requires |vs| == 3 && Nodes(vs) == [Ingest, Analyze, Hacker]
    ensures Calls(vs, Tutor) == 0 && Calls(vs, Critic) == 0
  {
    assert vs[0].node == Ingest && vs[1].node == Analyze && vs[2].node == Hacker;
    var a, b := vs[1..], vs[1..][1..];
    assert a[0] == vs[1] && b[0] == vs[2] && b[1..] == [];
    assert Calls(b, Tutor) == 0 && Calls(b, Critic) == 0;
    assert Calls(a, Tutor) == 0 && Calls(a, Critic) == 0;
  }

  /** Every run terminates, and the tutor and the critic each run at least once
      and at most `max(1, budget)` times, where the budget is how far the
      initial count is below the cap. */
  lemma LoopBound(init: State, sv: Services, m: int)
    ensures var r := RunGraph(init, sv, m);
            r.Finished? ==>
              && 1 <= Calls(r.visits, Tutor) <= AtLeastOne(Budget(init, m))
              && Calls(r.visits, Critic) == Calls(r.visits, Tutor)
  {
    var r := RunGraph(init, sv, m);
    RunShape(init, sv, m);
    if r.Finished? {
      RunCalls(r.visits);
    }
  }

  lemma RunCalls(vs: seq<Visit>)
    requires |vs| >= 3 && Nodes(vs[..3]) == [Ingest, Analyze, Hacker] && Alternates(vs[3..])
    ensures Calls(vs, Tutor) == (|vs| - 3) / 2 && Calls(vs, Critic) == (|vs| - 3) / 2
  {
    assert vs == vs[..3] + vs[3..];
    CallsConcat(vs[..3], vs[3..], Tutor);
    CallsConcat(vs[..3], vs[3..], Critic);
    ChainCalls(vs[..3]);
    AlternatingCalls(vs[3..]);
  }

  /** With the shipped cap of one reflection and a count that is not a
      negative integer (an absent count counts as 0), a run with a problem URL
      visits ingest, analyze, hacker, tutor and critic exactly once each. */
  lemma DefaultRunIsOnePass(init: State, sv: Services)
    requires Truthy(Get(init, ProblemUrl, Null))
    requires !(CountValue(init).Int? && CountValue(init).n < 0)
    ensures Invoke(init, sv).Finished?
    ensures Nodes(Invoke(init, sv).visits) == [Ingest, Analyze, Hacker, Tutor, Critic]
  {
    RunShape(init, sv, MAX_REFLECTIONS);
    assert AtLeastOne(Budget(init, MAX_REFLECTIONS)) == 1;
    OnePassNodes(Invoke(init, sv).visits);
  }

  /** LangGraph stops a run after 25 steps by default. With the shipped cap and
      an initial count that is absent, not an integer, or at least -10 (both
      callers pass 0), a run visits at most 25 nodes, so it stays within that
      limit; lower counts buy more passes than the limit allows. */
  lemma WithinRecursionLimit(init: State, sv: Services)
    requires !(CountValue(init).Int? && CountValue(init).n < -10)
    ensures Invoke(init, sv).Finished? ==> |Invoke(init, sv).visits| <= 25
  {
    RunShape(init, sv, MAX_REFLECTIONS);
  }

  lemma OnePassNodes(vs: seq<Visit>)
    requires |vs| == 5 && Nodes(vs[..3]) == [Ingest, Analyze, Hacker] && Alternates(vs[3..])
    ensures Nodes(vs) == [Ingest, Analyze, Hacker, Tutor, Critic]
  {
    assert vs[..3][0] == vs[0] && vs[..3][1] == vs[1] && vs[..3][2] == vs[2];
    assert vs[3..][0] == vs[3] && vs[3..][1] == vs[4];
  }

  /** Only the entry node can come back from an ERROR state. */
  lemma {:induction false} ErrorSticks(start: State, vs: seq<Visit>, i: int, j: int)
    requires Steps(start, vs) && 0 <= i < j < |vs|
    requires forall k :: 0 < k < |vs| ==> vs[k].node != Ingest
    requires IsError(vs[i].after)
    ensures vs[j].after == vs[i].after
    decreases j
  {
    assert StepOk(Before(start, vs, j), vs[j]);
    if j - 1 > i {
      ErrorSticks(start, vs, i, j - 1);
    }
  }

  /** In a run, only the entry node is ever visited first, and only first. */
  lemma EntryOnlyFirst(init: State, sv: Services, m: int)
    ensures var r := RunGraph(init, sv, m);
            r.Finished? ==> r.visits[0].node == Ingest && forall k :: 0 < k < |r.visits| ==> r.visits[k].node != Ingest
  {
    var r := RunGraph(init, sv, m);
    RunShape(init, sv, m);
    if r.Finished? {
      EntryFirst(r.visits);
    }
  }

  lemma EntryFirst(vs: seq<Visit>)
    requires |vs| >= 3 && Nodes(vs[..3]) == [Ingest, Analyze, Hacker] && Alternates(vs[3..])
    ensures vs[0].node == Ingest && forall k :: 0 < k < |vs| ==> vs[k].node != Ingest
  {
    assert vs[..3][0] == vs[0];
    forall k | 0 < k < |vs|
      ensures vs[k].node != Ingest
    {
      if k < 3 {
        assert vs[..3][k] == vs[k];
      } else {
        assert vs[3..][k - 3] == vs[k];
      }
    }
  }

  /** ERROR is absorbing: once a node leaves the state in ERROR, every later
      node returns that state unchanged, so the run ends in it. */
  lemma ErrorAbsorbing(init: State, sv: Services, m: int)
    ensures var r := RunGraph(init, sv, m);
            r.Finished? ==>
              forall i, j :: 0 <= i < j < |r.visits| && IsError(r.visits[i].after) ==>
                r.visits[j].after == r.visits[i].after
  {
    var r := RunGraph(init, sv, m);
    RunShape(init, sv, m);
    EntryOnlyFirst(init, sv, m);
    if r.Finished? {
      forall i, j | 0 <= i < j < |r.visits| && IsError(r.visits[i].after)
        ensures r.visits[j].after == r.visits[i].after
      {
        ErrorSticks(init, r.visits, i, j);
      }
    }
  }

  /** `s` and `t` agree on key `k`: presence and value. */
  predicate SameAt(s: State, t: State, k: Key) {
    (k in s <==> k in t) && (k in s ==> s[k] == t[k])
  }

  /** `s` and `t` agree on the caller's inputs: the problem URL, the user's code
      and the language. */
  predicate SameInputs(s: State, t: State) {
    SameAt(s, t, ProblemUrl) && SameAt(s, t, UserCode) && SameAt(s, t, Language)
  }

  /** No node writes an input key. */
  lemma StepKeepsInputs(start: State, vs: seq<Visit>, i: int)
    requires Steps(start, vs) && 0 <= i < |vs|
    ensures SameInputs(Before(start, vs, i), vs[i].after)
  {
    assert StepOk(Before(start, vs, i), vs[i]);
  }

  lemma SameInputsChain(a: State, b: State, c: State)
    requires SameInputs(a, b) && SameInputs(b, c)
    ensures SameInputs(a, c)
  {
  }

  /** Every visit of `vs`, started from `start`, kept the caller's inputs. */
  predicate InputSteps(start: State, vs: seq<Visit>) {
    forall i :: 0 <= i < |vs| ==> SameInputs(Before(start, vs, i), vs[i].after)
  }

  lemma StepsKeepInputs(start: State, vs: seq<Visit>)
    requires Steps(start, vs)
    ensures InputSteps(start, vs)
  {
    forall i | 0 <= i < |vs|
      ensures SameInputs(Before(start, vs, i), vs[i].after)
    {
      StepKeepsInputs(start, vs, i);
    }
  }

  lemma {:induction false} KeptFrom(start: State, vs: seq<Visit>, i: int)
    requires InputSteps(start, vs) && 0 <= i < |vs|
    ensures SameInputs(start, vs[i].after)
    decreases i
  {
    assert SameInputs(Before(start, vs, i), vs[i].after);
    if i > 0 {
      KeptFrom(start, vs, i - 1);
      SameInputsChain(start, vs[i - 1].after, vs[i].after);
    }
  }

  /** No node rewrites the problem URL, the user's code or the language: every
      state of a run has them exactly as the caller passed them, or lacks them
      as the caller did. */
  lemma InputsKept(init: State, sv: Services, m: int)
    ensures var r := RunGraph(init, sv, m);
            r.Finished? ==> forall i :: 0 <= i < |r.visits| ==> SameInputs(init, r.visits[i].after)
  {
    var r := RunGraph(init, sv, m);
    RunShape(init, sv, m);
    if r.Finished? {
      StepsKeepInputs(init, r.visits);
      forall i | 0 <= i < |r.visits|
        ensures SameInputs(init, r.visits[i].after)
      {
        KeptFrom(init, r.visits, i);
      }
    }
  }
}
