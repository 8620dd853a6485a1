/**
 * The Hintforge graph: the entry node `ingest`, the fixed chain
 * analyze -> hacker -> tutor -> critic, and the router's conditional edge from
 * the critic back to the tutor ("regenerate") or to the end ("end").
 *
 * A run threads one state through the nodes; each node's returned dictionary
 * is merged into the state key by key. Every external call is a field of
 * `Services`; the tutor and critic calls also receive the pass number, so a
 * run can be given any sequence of answers.
 */
module Graph {
  import opened Results
  import opened GraphState
  import opened RouterFunction
  import IngestorNode
  import AnalyzerNode
  import HackerNode
  import TutorNode
  import CriticNode

  /** The five nodes of the graph. */
  datatype Node = Ingest | Analyze | Hacker | Tutor | Critic

  /** The external collaborators of a run. */
  datatype Services = Services(
    apiKey: Option<string>,
    search: Value -> Result<IngestorNode.SearchReply, string>,
    split: string -> seq<string>,
    analyst: AnalyzerNode.AnalyzerPrompt -> Result<string, string>,
    hacker: HackerNode.HackerPrompt -> Result<string, string>,
    tutor: nat -> TutorNode.TutorPrompt -> Result<Hint, string>,
    critic: nat -> CriticNode.CriticPrompt -> Result<string, string>)

  /** One executed node and the state right after its update was merged. */
  datatype Visit = Visit(node: Node, after: State)

  /** A run either reaches END or an exception escapes; either way it records
      the nodes it executed. */
  datatype Run = Finished(visits: seq<Visit>) | Raised(error: Exception, visits: seq<Visit>) {
    /** The state a finished run ends in: the state after its last node. */
    function Final(): State
      requires Finished? && |visits| > 0
    {
      visits[|visits| - 1].after
    }
  }

  /** The keys a node's update may hold (the skip rule's "return state" aside). */
  function Writes(n: Node): set<Key> {
    match n
    case Ingest => {ProblemContext, ExecutionStatus, FinalResponse}
    case Analyze => {ExecutionOutput, ExecutionStatus, FinalResponse}
    case Hacker => {GeneratedTestCase, ExecutionStatus, FinalResponse}
    case Tutor => {CurrentHint, ReflectionCount, Feedback, ExecutionStatus, FinalResponse}
    case Critic => {Feedback, FinalResponse, ExecutionStatus}
  }

  /** Runs the tutor node on `s` in pass `pass` and merges its update. */
  function TutorStep(s: State, sv: Services, pass: nat): State {
    Merge(s, TutorNode.GenerateSocraticHint(s, sv.tutor(pass)))
  }

  /** Runs the critic node on `s` in pass `pass` and merges its update. */
  function CriticStep(s: State, sv: Services, pass: nat): State {
    Merge(s, CriticNode.CritiqueHint(s, sv.critic(pass)))
  }

  /** How many more tutor passes the router allows from `s`: the distance of
      the count to the cap. */
  function Budget(s: State, maxReflections: int): nat {
    match CountValue(s)
    case Int(c) => if c < maxReflections then maxReflections - c else 0
    case _ => 0
  }

  /** Prefixes visits to a run. */
  function Prepend(vs: seq<Visit>, r: Run): Run {
    match r
    case Finished(ws) => Finished(vs + ws)
    case Raised(e, ws) => Raised(e, vs + ws)
  }

  /** The reflection loop: tutor, critic, then the router decides. Each pass
      that loops back has raised the count, so the budget shrinks. */
  function Reflect(s: State, sv: Services, maxReflections: int, pass: nat): Run
    decreases Budget(s, maxReflections)
  {
    var t := TutorStep(s, sv, pass);
    var c := CriticStep(t, sv, pass);
    var here := [Visit(Tutor, t), Visit(Critic, c)];
    match RouteToReflection(c, maxReflections)
    case Failure(e) => Raised(e, here)
    case Success(End) => Finished(here)
    case Success(Regenerate) =>
      PassFacts(s, sv, maxReflections, pass);
      Prepend(here, Reflect(c, sv, maxReflections, pass + 1))
  }

  /** Runs the analyzer on `s` and merges its update. */
  function AnalyzeStep(s: State, sv: Services): State {
    Merge(s, AnalyzerNode.AnalyzeLogic(s, sv.analyst))
  }

  /** Runs the hacker on `s` and merges its update. */
  function HackerStep(s: State, sv: Services): State {
    Merge(s, HackerNode.GenerateTestCase(s, sv.hacker))
  }

  /** The ingest node's result on `init`. */
  function IngestResult(init: State, sv: Services): Result<Update, Exception> {
    IngestorNode.IngestProblemContext(init, sv.apiKey, sv.search, sv.split)
  }

  /** A run of the graph from `init` with the given cap: the entry node, the
      fixed chain to the hacker, then the reflection loop. An exception from
      the entry node ends the run before any state is produced. */
  function RunGraph(init: State, sv: Services, maxReflections: int): Run {
    match IngestResult(init, sv)
    case Failure(e) => Raised(e, [])
    case Success(u) =>
      var s1 := Merge(init, u);
      var s2 := AnalyzeStep(s1, sv);
      var s3 := HackerStep(s2, sv);
      Prepend([Visit(Ingest, s1), Visit(Analyze, s2), Visit(Hacker, s3)],
              Reflect(s3, sv, maxReflections, 0))
  }

  /** `build_hintforge_graph().invoke(initial_state)` with the shipped cap. */
  function Invoke(init: State, sv: Services): Run {
    RunGraph(init, sv, MAX_REFLECTIONS)
  }

  // ---------------------------------------------------------------------------
  // One pass of the loop
  // ---------------------------------------------------------------------------

  /** What one tutor step does to the state. */
  lemma TutorStepFacts(s: State, sv: Services, pass: nat)
    ensures Agree(s, TutorStep(s, sv, pass), Writes(Tutor))
    ensures IsError(s) ==> TutorStep(s, sv, pass) == s
    ensures s.Keys <= TutorStep(s, sv, pass).Keys
    ensures !IsError(TutorStep(s, sv, pass)) ==>
              && !IsError(s)
              && TutorNode.Prompt(s).Success?
              && CountValue(s).Int?
              && TutorStep(s, sv, pass)[CurrentHint] == HintObj(sv.tutor(pass)(TutorNode.Prompt(s).value).value)
              && CountValue(TutorStep(s, sv, pass)) == Int(CountValue(s).n + 1)
              && TutorStep(s, sv, pass)[Feedback] == Null
  {
    var u := TutorNode.GenerateSocraticHint(s, sv.tutor(pass));
    if IsError(s) {
      MergeSelf(s);
    } else if IsErrorUpdate(u) {
      MergeFrame(s, u, Writes(Tutor));
      MergeErrorUpdate(s, u);
    } else {
      var hint := sv.tutor(pass)(TutorNode.Prompt(s).value).value;
      TutorMerge(s, u, hint);
    }
  }

  /** Merging a successful tutor update: the count moves on by one and the
      hint is the new one. */
  lemma TutorMerge(s: State, u: Update, hint: Hint)
    requires !IsError(s) && TutorNode.NextCount(s).Success?
    requires u == map[CurrentHint := HintObj(hint), ReflectionCount := Int(TutorNode.NextCount(s).value), Feedback := Null]
    ensures Agree(s, Merge(s, u), Writes(Tutor))
    ensures s.Keys <= Merge(s, u).Keys
    ensures !IsError(Merge(s, u)) && CountValue(s).Int?
    ensures Merge(s, u)[CurrentHint] == HintObj(hint) && Merge(s, u)[Feedback] == Null
    ensures CountValue(Merge(s, u)) == Int(CountValue(s).n + 1)
  {
    MergeFrame(s, u, Writes(Tutor));
  }

  /** What one critic step does to the state. */
  lemma CriticStepFacts(t: State, sv: Services, pass: nat)
    ensures Agree(t, CriticStep(t, sv, pass), Writes(Critic))
    ensures IsError(t) ==> CriticStep(t, sv, pass) == t
    ensures t.Keys <= CriticStep(t, sv, pass).Keys
    ensures !IsError(t) && Get(t, CurrentHint, Null).HintObj? && !IsError(CriticStep(t, sv, pass)) ==>
              && CriticNode.Prompt(t).Success?
              && sv.critic(pass)(CriticNode.Prompt(t).value).Success?
              && CriticStep(t, sv, pass) ==
                   Merge(t, CriticNode.VerdictUpdate(CriticNode.ParseVerdict(sv.critic(pass)(CriticNode.Prompt(t).value).value)))
  {
    var u := CriticNode.CritiqueHint(t, sv.critic(pass));
    if CriticNode.Skips(t) {
      MergeSelf(t);
    } else {
      MergeFrame(t, u, Writes(Critic));
    }
  }

  /** A pass that ends without error ran a successful tutor call, raised the
      count by one, and recorded a verdict; the next tutor call's inputs are
      all present. */
  lemma CleanPass(s: State, sv: Services, pass: nat)
    requires !IsError(CriticStep(TutorStep(s, sv, pass), sv, pass))
    ensures var t := TutorStep(s, sv, pass);
            var c := CriticStep(t, sv, pass);
            && !IsError(s) && !IsError(t)
            && CountValue(s).Int?
            && CountValue(c) == Int(CountValue(s).n + 1)
            && t[CurrentHint].HintObj? && c[CurrentHint] == t[CurrentHint]
            && (Accepted(c) || (c[FinalResponse] == Str("REGENERATE") && c[Feedback].Str?))
            && TutorNode.Prompt(c).Success?
  {
    var t := TutorStep(s, sv, pass);
    var c := CriticStep(t, sv, pass);
    TutorStepFacts(s, sv, pass);
    CriticStepFacts(t, sv, pass);
    var v := if !IsError(t) && CriticNode.Prompt(t).Success? && sv.critic(pass)(CriticNode.Prompt(t).value).Success?
             then CriticNode.ParseVerdict(sv.critic(pass)(CriticNode.Prompt(t).value).value)
             else CriticNode.Accept;
    CleanPassStates(s, t, c, v);
  }

  /** `CleanPass` over plain states: `t` is the tutor's result on `s` and `c`
      the critic's on `t`, described only by the facts the two steps give. */
  lemma CleanPassStates(s: State, t: State, c: State, v: CriticNode.Verdict)
    requires !IsError(c)
    requires IsError(t) ==> c == t
    requires !IsError(t) ==> && !IsError(s) && TutorNode.Prompt(s).Success? && CountValue(s).Int?
                             && CurrentHint in t && t[CurrentHint].HintObj?
                             && CountValue(t) == Int(CountValue(s).n + 1)
                             && c == Merge(t, CriticNode.VerdictUpdate(v))
    requires s.Keys <= t.Keys <= c.Keys
    ensures && !IsError(s) && !IsError(t)
            && CountValue(s).Int?
            && CountValue(c) == Int(CountValue(s).n + 1)
            && t[CurrentHint].HintObj? && c[CurrentHint] == t[CurrentHint]
            && (Accepted(c) || (c[FinalResponse] == Str("REGENERATE") && c[Feedback].Str?))
            && TutorNode.Prompt(c).Success?
  {
    assert !IsError(t);
    var u := CriticNode.VerdictUpdate(v);
    assert CurrentHint !in u && ReflectionCount !in u;
    assert c[CurrentHint] == t[CurrentHint];
    assert CountValue(c) == CountValue(t);
    VerdictRecorded(t, v);
    TutorInputsKept(s, c);
  }

  /** Merging a verdict records either acceptance or a reason to regenerate. */
  lemma VerdictRecorded(t: State, v: CriticNode.Verdict)
    ensures var c := Merge(t, CriticNode.VerdictUpdate(v));
            Accepted(c) || (c[FinalResponse] == Str("REGENERATE") && c[Feedback].Str?)
  {
  }

  /** The tutor's inputs stay available once present, since merging never
      removes a key. */
  lemma TutorInputsKept(s: State, c: State)
    requires TutorNode.Prompt(s).Success? && s.Keys <= c.Keys
    ensures TutorNode.Prompt(c).Success?
  {
    assert forall k :: k in TutorNode.Required ==> k in s;
  }

  /** One pass of the loop. An ERROR state passes through unchanged. The
      router never raises after a pass, and when it loops back the budget has
      dropped but is still positive. */
  lemma PassFacts(s: State, sv: Services, m: int, pass: nat)
    ensures IsError(s) ==> TutorStep(s, sv, pass) == s && CriticStep(s, sv, pass) == s
    ensures RouteToReflection(CriticStep(TutorStep(s, sv, pass), sv, pass), m).Success?
    ensures RouteToReflection(CriticStep(TutorStep(s, sv, pass), sv, pass), m) == Success(Regenerate) ==>
              1 <= Budget(CriticStep(TutorStep(s, sv, pass), sv, pass), m) < Budget(s, m)
  {
    var t := TutorStep(s, sv, pass);
    var c := CriticStep(t, sv, pass);
    TutorStepFacts(s, sv, pass);
    CriticStepFacts(t, sv, pass);
    if !IsError(c) {
      CleanPass(s, sv, pass);
    }
  }

  // ---------------------------------------------------------------------------
  // Properties of visit sequences
  // ---------------------------------------------------------------------------

  /** The node of each visit. */
  function Nodes(vs: seq<Visit>): (ns: seq<Node>)
    ensures |ns| == |vs| && forall i :: 0 <= i < |vs| ==> ns[i] == vs[i].node
  {
    seq(|vs|, i requires 0 <= i < |vs| => vs[i].node)
  }

  /** The visits come in tutor/critic pairs. */
  predicate Alternates(vs: seq<Visit>) {
    && |vs| % 2 == 0
    && forall i :: 0 <= i < |vs| ==> vs[i].node == (if i % 2 == 0 then Tutor else Critic)
  }

  /** The state a visit started from. */
  function Before(start: State, vs: seq<Visit>, i: int): State
    requires 0 <= i < |vs|
  {
    if i == 0 then start else vs[i - 1].after
  }

  /** A visit changed only the keys its node may write, and, unless it is the
      entry node (which has no skip rule), left an ERROR state exactly as it was. */
  predicate StepOk(before: State, v: Visit) {
    && Agree(before, v.after, Writes(v.node))
    && (v.node != Ingest && IsError(before) ==> v.after == before)
  }

  /** `current_hint` is absent, `None` or a Hint. */
  predicate HintTyped(s: State) {
    Get(s, CurrentHint, Null) == Null || Get(s, CurrentHint, Null).HintObj?
  }

  /** Every visit of `vs`, started from `start`, is a well-behaved step. */
  predicate Steps(start: State, vs: seq<Visit>) {
    forall i :: 0 <= i < |vs| ==> StepOk(Before(start, vs, i), vs[i])
  }

  /** `max(1, n)`. */
  function AtLeastOne(n: nat): nat {
    if n == 0 then 1 else n
  }

  lemma StepsConcat(start: State, a: seq<Visit>, b: seq<Visit>)
    requires |a| > 0 && Steps(start, a) && Steps(a[|a| - 1].after, b)
    ensures Steps(start, a + b)
  {
    forall i | 0 <= i < |a + b|
      ensures StepOk(Before(start, a + b, i), (a + b)[i])
    {
      if i < |a| {
        assert Before(start, a + b, i) == Before(start, a, i);
      } else {
        assert Before(start, a + b, i) == Before(a[|a| - 1].after, b, i - |a|);
        assert (a + b)[i] == b[i - |a|];
      }
    }
  }

  lemma AlternatesConcat(a: seq<Visit>, b: seq<Visit>)
    requires Alternates(a) && Alternates(b)
    ensures Alternates(a + b)
  {
    forall i | |a| <= i < |a + b|
      ensures (a + b)[i].node == (if i % 2 == 0 then Tutor else Critic)
    {
      assert (a + b)[i] == b[i - |a|];
      assert (i - |a|) % 2 == i % 2;
    }
  }

  /** The two visits of one pass are well-behaved steps in tutor/critic order. */
  lemma PassSteps(s: State, sv: Services, pass: nat)
    ensures var t := TutorStep(s, sv, pass);
            var here := [Visit(Tutor, t), Visit(Critic, CriticStep(t, sv, pass))];
            Steps(s, here) && Alternates(here)
  {
    var t := TutorStep(s, sv, pass);
    TutorStepOk(s, sv, pass);
    CriticStepOk(t, sv, pass);
    TwoSteps(s, Visit(Tutor, t), Visit(Critic, CriticStep(t, sv, pass)));
  }

  lemma TutorStepOk(s: State, sv: Services, pass: nat)
    ensures StepOk(s, Visit(Tutor, TutorStep(s, sv, pass)))
  {
    TutorStepFacts(s, sv, pass);
  }

  lemma CriticStepOk(t: State, sv: Services, pass: nat)
    ensures StepOk(t, Visit(Critic, CriticStep(t, sv, pass)))
  {
    CriticStepFacts(t, sv, pass);
  }

  lemma TwoSteps(s: State, a: Visit, b: Visit)
    requires StepOk(s, a) && StepOk(a.after, b)
    requires a.node == Tutor && b.node == Critic
    ensures Steps(s, [a, b]) && Alternates([a, b])
  {
    assert Before(s, [a, b], 0) == s;
    assert Before(s, [a, b], 1) == a.after;
  }

  // ---------------------------------------------------------------------------
  // The reflection loop
  // ---------------------------------------------------------------------------

  /** The loop always reaches END (the router never raises), after between one
      and `max(1, budget)` tutor/critic pairs, and every visit is a
      well-behaved step. */
  lemma {:induction false} ReflectShape(s: State, sv: Services, m: int, pass: nat)
    ensures var r := Reflect(s, sv, m, pass);
            && r.Finished?
            && 2 <= |r.visits| <= 2 * AtLeastOne(Budget(s, m))
            && Alternates(r.visits)
            && Steps(s, r.visits)
    decreases Budget(s, m)
  {
    var t := TutorStep(s, sv, pass);
    var c := CriticStep(t, sv, pass);
    var here := [Visit(Tutor, t), Visit(Critic, c)];
    PassFacts(s, sv, m, pass);
    if RouteToReflection(c, m) == Success(Regenerate) {
      ReflectShape(c, sv, m, pass + 1);
      ShapeAfterLoopBack(s, sv, m, pass);
    } else {
      ShapeAtEnd(s, sv, m, pass);
    }
  }

  /** The base case of `ReflectShape`: the router ends the loop after one pass. */
  lemma ShapeAtEnd(s: State, sv: Services, m: int, pass: nat)
    requires RouteToReflection(CriticStep(TutorStep(s, sv, pass), sv, pass), m) == Success(End)
    ensures var r := Reflect(s, sv, m, pass);
            && r.Finished?
            && |r.visits| == 2
            && Alternates(r.visits)
            && Steps(s, r.visits)
  {
    PassSteps(s, sv, pass);
    ReflectUnfold(s, sv, m, pass);
  }

  /** The inductive step of `ReflectShape`. */
  lemma ShapeAfterLoopBack(s: State, sv: Services, m: int, pass: nat)
    requires RouteToReflection(CriticStep(TutorStep(s, sv, pass), sv, pass), m) == Success(Regenerate)
    requires var c := CriticStep(TutorStep(s, sv, pass), sv, pass);
             var rest := Reflect(c, sv, m, pass + 1);
             && rest.Finished?
             && 2 <= |rest.visits| <= 2 * AtLeastOne(Budget(c, m))
             && Alternates(rest.visits)
             && Steps(c, rest.visits)
    ensures var r := Reflect(s, sv, m, pass);
            && r.Finished?
            && 2 <= |r.visits| <= 2 * AtLeastOne(Budget(s, m))
            && Alternates(r.visits)
            && Steps(s, r.visits)
  {
    var t := TutorStep(s, sv, pass);
    var c := CriticStep(t, sv, pass);
    var here := [Visit(Tutor, t), Visit(Critic, c)];
    PassFacts(s, sv, m, pass);
    PassSteps(s, sv, pass);
    ReflectUnfold(s, sv, m, pass);
    ShapeConcat(s, here, Reflect(c, sv, m, pass + 1).visits, Budget(c, m));
  }

  lemma ShapeConcat(s: State, here: seq<Visit>, rest: seq<Visit>, bound: nat)
    requires |here| == 2 && Steps(s, here) && Alternates(here)
    requires Steps(here[1].after, rest) && Alternates(rest) && 2 <= |rest| <= 2 * bound
    ensures Steps(s, here + rest) && Alternates(here + rest) && 2 <= |here + rest| <= 2 * (bound + 1)
  {
    StepsConcat(s, here, rest);
    AlternatesConcat(here, rest);
  }


  /** One unfolding of the loop, given that the router does not raise. */
  lemma ReflectUnfold(s: State, sv: Services, m: int, pass: nat)
    ensures var t := TutorStep(s, sv, pass);
            var c := CriticStep(t, sv, pass);
            var here := [Visit(Tutor, t), Visit(Critic, c)];
            && (RouteToReflection(c, m) == Success(End) ==> Reflect(s, sv, m, pass) == Finished(here))
            && (RouteToReflection(c, m) == Success(Regenerate) ==>
                  Reflect(s, sv, m, pass) == Prepend(here, Reflect(c, sv, m, pass + 1)))
  {
  }

  /** Every critic visit that the loop leaves through the back edge recorded a
      reason in "REGENERATE" state, and the tutor's next prompt carries exactly
      that reason as its feedback. */
  predicate LoopsBackWithReason(vs: seq<Visit>) {
    forall i :: 0 <= i < |vs| - 1 && vs[i].node == Critic ==>
      && !IsError(vs[i].after)
      && Get(vs[i].after, FinalResponse, Null) == Str("REGENERATE")
      && Get(vs[i].after, Feedback, Null).Str?
      && TutorNode.Prompt(vs[i].after).Success?
      && TutorNode.Prompt(vs[i].after).value.feedback == Get(vs[i].after, Feedback, Null)
  }

  /** How a loop that ends without error ends: with a hint in place, equal to
      the one the last tutor visit stored, and either accepted or still asking
      for regeneration with the count at or past the cap (the loop fails open). */
  predicate EndsOpen(vs: seq<Visit>, m: int)
    requires |vs| >= 2
  {
    var f := vs[|vs| - 1].after;
    !IsError(f) ==>
      && Get(f, CurrentHint, Null).HintObj?
      && Get(f, CurrentHint, Null) == Get(vs[|vs| - 2].after, CurrentHint, Null)
      && (Accepted(f) || (Get(f, FinalResponse, Null) == Str("REGENERATE") && CountValue(f).Int? && CountValue(f).n >= m))
  }

  /** The first pass, when it leaves through the back edge, loops back with a
      reason. */
  lemma LoopBackPass(s: State, sv: Services, m: int, pass: nat)
    requires RouteToReflection(CriticStep(TutorStep(s, sv, pass), sv, pass), m) == Success(Regenerate)
    ensures var c := CriticStep(TutorStep(s, sv, pass), sv, pass);
            && !IsError(c)
            && Get(c, FinalResponse, Null) == Str("REGENERATE")
            && Get(c, Feedback, Null).Str?
            && TutorNode.Prompt(c).Success?
            && TutorNode.Prompt(c).value.feedback == Get(c, Feedback, Null)
  {
    CleanPass(s, sv, pass);
  }

  /** A pass the router ends the loop after ends open. */
  lemma LastPass(s: State, sv: Services, m: int, pass: nat)
    requires RouteToReflection(CriticStep(TutorStep(s, sv, pass), sv, pass), m) == Success(End)
    ensures var t := TutorStep(s, sv, pass);
            EndsOpen([Visit(Tutor, t), Visit(Critic, CriticStep(t, sv, pass))], m)
  {
    var t := TutorStep(s, sv, pass);
    var c := CriticStep(t, sv, pass);
    if !IsError(c) {
      CleanPass(s, sv, pass);
    }
    EndsOpenPair(t, c, m);
  }

  /** A tutor/critic pair the router ends the loop after ends open. */
  lemma EndsOpenPair(t: State, c: State, m: int)
    requires RouteToReflection(c, m) == Success(End)
    requires !IsError(c) ==> && Get(t, CurrentHint, Null).HintObj?
                             && Get(c, CurrentHint, Null) == Get(t, CurrentHint, Null)
                             && (Accepted(c) || Get(c, FinalResponse, Null) == Str("REGENERATE"))
    ensures EndsOpen([Visit(Tutor, t), Visit(Critic, c)], m)
  {
  }

  lemma LoopsBackConcat(a: seq<Visit>, b: seq<Visit>)
    requires |a| > 0 && |b| > 0
    requires LoopsBackWithReason(a) && LoopsBackWithReason(b)
    requires a[|a| - 1].node == Critic ==> LoopsBackWithReason([a[|a| - 1], b[0]])
    ensures LoopsBackWithReason(a + b)
  {
    forall i | 0 <= i < |a + b| - 1 && (a + b)[i].node == Critic
      ensures var w := (a + b)[i].after;
              && !IsError(w)
              && Get(w, FinalResponse, Null) == Str("REGENERATE")
              && Get(w, Feedback, Null).Str?
              && TutorNode.Prompt(w).Success?
              && TutorNode.Prompt(w).value.feedback == Get(w, Feedback, Null)
    {
      if i < |a| - 1 {
        assert (a + b)[i] == a[i];
      } else if i == |a| - 1 {
        assert (a + b)[i] == [a[|a| - 1], b[0]][0];
      } else {
        assert (a + b)[i] == b[i - |a|];
      }
    }
  }

  /** How the loop ends: every pass but the last loops back with the critic's
      reason, and the last one ends open. */
  lemma {:induction false} ReflectOutcome(s: State, sv: Services, m: int, pass: nat)
    ensures var r := Reflect(s, sv, m, pass);
            && r.Finished? && |r.visits| >= 2
            && LoopsBackWithReason(r.visits)
            && EndsOpen(r.visits, m)
    decreases Budget(s, m)
  {
    var t := TutorStep(s, sv, pass);
    var c := CriticStep(t, sv, pass);
    var here := [Visit(Tutor, t), Visit(Critic, c)];
    PassFacts(s, sv, m, pass);
    ReflectUnfold(s, sv, m, pass);
    if RouteToReflection(c, m) == Success(Regenerate) {
      ReflectOutcome(c, sv, m, pass + 1);
      OutcomeAfterLoopBack(s, sv, m, pass);
    } else {
      LastPass(s, sv, m, pass);
      assert LoopsBackWithReason(here);
    }
  }

  lemma EndsOpenSuffix(a: seq<Visit>, b: seq<Visit>, m: int)
    requires |b| >= 2 && EndsOpen(b, m)
    ensures EndsOpen(a + b, m)
  {
    assert (a + b)[|a + b| - 1] == b[|b| - 1];
    assert (a + b)[|a + b| - 2] == b[|b| - 2];
  }

  /** The inductive step of `ReflectOutcome`: a pass that loops back, followed
      by a loop with the outcome, has the outcome. */
  lemma OutcomeAfterLoopBack(s: State, sv: Services, m: int, pass: nat)
    requires RouteToReflection(CriticStep(TutorStep(s, sv, pass), sv, pass), m) == Success(Regenerate)
    requires var rest := Reflect(CriticStep(TutorStep(s, sv, pass), sv, pass), sv, m, pass + 1);
             rest.Finished? && |rest.visits| >= 2 && LoopsBackWithReason(rest.visits) && EndsOpen(rest.visits, m)
    ensures var r := Reflect(s, sv, m, pass);
            r.Finished? && |r.visits| >= 2 && LoopsBackWithReason(r.visits) && EndsOpen(r.visits, m)
  {
    var t := TutorStep(s, sv, pass);
    var c := CriticStep(t, sv, pass);
    var here := [Visit(Tutor, t), Visit(Critic, c)];
    var rest := Reflect(c, sv, m, pass + 1);
    ReflectUnfold(s, sv, m, pass);
    LoopBackPass(s, sv, m, pass);
    OutcomeConcat(here, rest.visits, m);
  }

  lemma OutcomeConcat(here: seq<Visit>, rest: seq<Visit>, m: int)
    requires |here| == 2 && here[0].node == Tutor
    requires var c := here[1].after;
             && !IsError(c)
             && Get(c, FinalResponse, Null) == Str("REGENERATE")
             && Get(c, Feedback, Null).Str?
             && TutorNode.Prompt(c).Success?
             && TutorNode.Prompt(c).value.feedback == Get(c, Feedback, Null)
    requires |rest| >= 2 && LoopsBackWithReason(rest) && EndsOpen(rest, m)
    ensures LoopsBackWithReason(here + rest) && EndsOpen(here + rest, m)
  {
    assert LoopsBackWithReason([here[1], rest[0]]);
    assert LoopsBackWithReason(here);
    LoopsBackConcat(here, rest);
    EndsOpenSuffix(here, rest, m);
  }

  // ---------------------------------------------------------------------------
  // The fixed chain and whole runs
  // ---------------------------------------------------------------------------

  /** The entry node changes only its own keys (it has no skip rule, so it
      runs even on an ERROR state). */
  lemma IngestStepOk(init: State, sv: Services)
    requires IngestResult(init, sv).Success?
    ensures StepOk(init, Visit(Ingest, Merge(init, IngestResult(init, sv).value)))
  {
    MergeFrame(init, IngestResult(init, sv).value, Writes(Ingest));
  }

  lemma AnalyzeStepOk(s: State, sv: Services)
    ensures StepOk(s, Visit(Analyze, AnalyzeStep(s, sv)))
  {
    if IsError(s) {
      MergeSelf(s);
    } else {
      MergeFrame(s, AnalyzerNode.AnalyzeLogic(s, sv.analyst), Writes(Analyze));
    }
  }

  lemma HackerStepOk(s: State, sv: Services)
    ensures StepOk(s, Visit(Hacker, HackerStep(s, sv)))
  {
    if IsError(s) {
      MergeSelf(s);
    } else {
      MergeFrame(s, HackerNode.GenerateTestCase(s, sv.hacker), Writes(Hacker));
    }
  }

  /** The entry node and the fixed chain: three well-behaved steps that leave
      the count alone. */
  lemma ChainSteps(init: State, sv: Services)
    requires IngestResult(init, sv).Success?
    ensures var s1 := Merge(init, IngestResult(init, sv).value);
            var s2 := AnalyzeStep(s1, sv);
            var pre := [Visit(Ingest, s1), Visit(Analyze, s2), Visit(Hacker, HackerStep(s2, sv))];
            && Steps(init, pre)
            && Nodes(pre) == [Ingest, Analyze, Hacker]
            && CountValue(pre[2].after) == CountValue(init)
  {
    var s1 := Merge(init, IngestResult(init, sv).value);
    var s2 := AnalyzeStep(s1, sv);
    IngestStepOk(init, sv);
    AnalyzeStepOk(s1, sv);
    HackerStepOk(s2, sv);
    ThreeSteps(init, Visit(Ingest, s1), Visit(Analyze, s2), Visit(Hacker, HackerStep(s2, sv)));
  }

  lemma ThreeSteps(s: State, a: Visit, b: Visit, c: Visit)
    requires StepOk(s, a) && StepOk(a.after, b) && StepOk(b.after, c)
    requires a.node == Ingest && b.node == Analyze && c.node == Hacker
    ensures Steps(s, [a, b, c]) && Nodes([a, b, c]) == [Ingest, Analyze, Hacker]
    ensures CountValue(c.after) == CountValue(s)
  {
    assert Before(s, [a, b, c], 0) == s;
    assert Before(s, [a, b, c], 1) == a.after;
    assert Before(s, [a, b, c], 2) == b.after;
  }

  /** Which nodes a run visits. Without a truthy problem URL the entry node
      raises `ValueError` and nothing else runs. Otherwise the run reaches END
      (the router never raises) after ingest, analyze, hacker and between one
      and `max(1, budget)` tutor/critic pairs, where the budget is the
      distance of the initial count to the cap; every visit is a well-behaved
      step, every pass but the last loops back with the critic's reason, and
      the loop ends open. */
  lemma RunShape(init: State, sv: Services, m: int)
    ensures var r := RunGraph(init, sv, m);
            && (r.Raised? <==> !Truthy(Get(init, ProblemUrl, Null)))
            && (r.Raised? ==> r.error == ValueError(IngestorNode.MissingUrl) && r.visits == [])
            && (r.Finished? ==>
                  && 5 <= |r.visits| <= 3 + 2 * AtLeastOne(Budget(init, m))
                  && Nodes(r.visits[..3]) == [Ingest, Analyze, Hacker]
                  && Alternates(r.visits[3..])
                  && Steps(init, r.visits)
                  && LoopsBackWithReason(r.visits)
                  && EndsOpen(r.visits, m))
  {
    if IngestResult(init, sv).Success? {
      FinishedShape(init, sv, m);
    }
  }

  lemma FinishedShape(init: State, sv: Services, m: int)
    requires IngestResult(init, sv).Success?
    ensures var r := RunGraph(init, sv, m);
            && r.Finished?
            && 5 <= |r.visits| <= 3 + 2 * AtLeastOne(Budget(init, m))
            && Nodes(r.visits[..3]) == [Ingest, Analyze, Hacker]
            && Alternates(r.visits[3..])
            && Steps(init, r.visits)
            && LoopsBackWithReason(r.visits)
            && EndsOpen(r.visits, m)
  {
    var s1 := Merge(init, IngestResult(init, sv).value);
    var s2 := AnalyzeStep(s1, sv);
    var s3 := HackerStep(s2, sv);
    var pre := [Visit(Ingest, s1), Visit(Analyze, s2), Visit(Hacker, s3)];
    ChainSteps(init, sv);
    ReflectShape(s3, sv, m, 0);
    ReflectOutcome(s3, sv, m, 0);
    assert Budget(s3, m) == Budget(init, m);
    RunConcat(init, pre, Reflect(s3, sv, m, 0), m, AtLeastOne(Budget(init, m)));
  }

  lemma RunConcat(init: State, pre: seq<Visit>, rest: Run, m: int, bound: nat)
    requires |pre| == 3 && Nodes(pre) == [Ingest, Analyze, Hacker] && Steps(init, pre)
    requires rest.Finished? && Steps(pre[2].after, rest.visits) && Alternates(rest.visits)
    requires 2 <= |rest.visits| <= 2 * bound
    requires LoopsBackWithReason(rest.visits) && EndsOpen(rest.visits, m)
    ensures Prepend(pre, rest).Finished?
    ensures var vs := Prepend(pre, rest).visits;
            && 5 <= |vs| <= 3 + 2 * bound
            && Nodes(vs[..3]) == [Ingest, Analyze, Hacker]
            && Alternates(vs[3..])
            && Steps(init, vs)
            && LoopsBackWithReason(vs)
            && EndsOpen(vs, m)
  {
    var vs := pre + rest.visits;
    assert vs[..3] == pre;
    assert vs[3..] == rest.visits;
    StepsConcat(init, pre, rest.visits);
    assert LoopsBackWithReason(pre);
    LoopsBackConcat(pre, rest.visits);
    EndsOpenSuffix(pre, rest.visits, m);
  }

  // ---------------------------------------------------------------------------
  // Sound states
  // ---------------------------------------------------------------------------

  /** An ERROR state carries its message, and `current_hint` holds nothing but
      a Hint. */
  predicate Sound(s: State) {
    ErrorExplained(s) && HintTyped(s)
  }

  /** Every state a sequence of visits produced is sound. */
  predicate AllSound(vs: seq<Visit>) {
    forall i :: 0 <= i < |vs| ==> Sound(vs[i].after)
  }

  /** The entry node's state is sound whenever the caller's hint, if any, is
      a Hint: an error it reports carries its message. */
  lemma IngestSound(init: State, sv: Services)
    requires IngestResult(init, sv).Success? && HintTyped(init)
    ensures Sound(Merge(init, IngestResult(init, sv).value))
  {
    var u := IngestResult(init, sv).value;
    if IsErrorUpdate(u) {
      MergeErrorUpdate(init, u);
    }
  }

  lemma AnalyzeSound(s: State, sv: Services)
    requires Sound(s)
    ensures Sound(AnalyzeStep(s, sv))
  {
    var u := AnalyzerNode.AnalyzeLogic(s, sv.analyst);
    if IsError(s) {
      MergeSelf(s);
    } else if IsErrorUpdate(u) {
      MergeErrorUpdate(s, u);
    }
  }

  lemma HackerSound(s: State, sv: Services)
    requires Sound(s)
    ensures Sound(HackerStep(s, sv))
  {
    var u := HackerNode.GenerateTestCase(s, sv.hacker);
    if IsError(s) {
      MergeSelf(s);
    } else if IsErrorUpdate(u) {
      MergeErrorUpdate(s, u);
    }
  }

  lemma TutorSound(s: State, sv: Services, pass: nat)
    requires Sound(s)
    ensures Sound(TutorStep(s, sv, pass))
  {
    var u := TutorNode.GenerateSocraticHint(s, sv.tutor(pass));
    if IsError(s) {
      MergeSelf(s);
    } else if IsErrorUpdate(u) {
      MergeErrorUpdate(s, u);
    } else {
      assert ExecutionStatus !in u && u[CurrentHint].HintObj?;
    }
  }

  lemma CriticSound(t: State, sv: Services, pass: nat)
    requires Sound(t)
    ensures Sound(CriticStep(t, sv, pass))
  {
    var u := CriticNode.CritiqueHint(t, sv.critic(pass));
    if CriticNode.Skips(t) {
      MergeSelf(t);
    } else if IsErrorUpdate(u) {
      MergeErrorUpdate(t, u);
    }
  }

  lemma AllSoundConcat(a: seq<Visit>, b: seq<Visit>)
    requires AllSound(a) && AllSound(b)
    ensures AllSound(a + b)
  {
    forall i | 0 <= i < |a + b|
      ensures Sound((a + b)[i].after)
    {
      if i < |a| {
        assert (a + b)[i] == a[i];
      } else {
        assert (a + b)[i] == b[i - |a|];
      }
    }
  }

  /** The loop keeps states sound. */
  lemma {:induction false} ReflectSound(s: State, sv: Services, m: int, pass: nat)
    requires Sound(s)
    ensures Reflect(s, sv, m, pass).Finished? && AllSound(Reflect(s, sv, m, pass).visits)
    decreases Budget(s, m)
  {
    var t := TutorStep(s, sv, pass);
    var c := CriticStep(t, sv, pass);
    TutorSound(s, sv, pass);
    CriticSound(t, sv, pass);
    PassFacts(s, sv, m, pass);
    ReflectUnfold(s, sv, m, pass);
    var here := [Visit(Tutor, t), Visit(Critic, c)];
    assert AllSound(here);
    if RouteToReflection(c, m) == Success(Regenerate) {
      ReflectSound(c, sv, m, pass + 1);
      AllSoundConcat(here, Reflect(c, sv, m, pass + 1).visits);
    }
  }

  /** A run keeps states sound when the caller's hint, if any, is a Hint. */
  lemma RunSound(init: State, sv: Services, m: int)
    requires HintTyped(init)
    ensures var r := RunGraph(init, sv, m);
            r.Finished? ==> AllSound(r.visits)
  {
    if IngestResult(init, sv).Success? {
      var s1 := Merge(init, IngestResult(init, sv).value);
      var s2 := AnalyzeStep(s1, sv);
      var s3 := HackerStep(s2, sv);
      ChainSound(init, sv);
      ReflectSound(s3, sv, m, 0);
      var pre := [Visit(Ingest, s1), Visit(Analyze, s2), Visit(Hacker, s3)];
      assert RunGraph(init, sv, m) == Prepend(pre, Reflect(s3, sv, m, 0));
      AllSoundConcat(pre, Reflect(s3, sv, m, 0).visits);
    }
  }

  lemma ChainSound(init: State, sv: Services)
    requires IngestResult(init, sv).Success? && HintTyped(init)
    ensures var s1 := Merge(init, IngestResult(init, sv).value);
            var s2 := AnalyzeStep(s1, sv);
            var s3 := HackerStep(s2, sv);
            AllSound([Visit(Ingest, s1), Visit(Analyze, s2), Visit(Hacker, s3)]) && Sound(s3)
  {
    var s1 := Merge(init, IngestResult(init, sv).value);
    var s2 := AnalyzeStep(s1, sv);
    IngestSound(init, sv);
    AnalyzeSound(s1, sv);
    HackerSound(s2, sv);
    ThreeSound(s1, s2, HackerStep(s2, sv));
  }

  lemma ThreeSound(s1: State, s2: State, s3: State)
    requires Sound(s1) && Sound(s2) && Sound(s3)
    ensures AllSound([Visit(Ingest, s1), Visit(Analyze, s2), Visit(Hacker, s3)])
  {
  }
}
