/**
 * The command-line entry point's final report: which of its four messages it
 * prints for the state a run ends in, and that a run never ends without a
 * hint or an explanation.
 */
module Report {
  import opened Results
  import opened GraphState
  import opened RouterFunction
  import opened Graph
  import IngestorNode

  /** The report printed after a run. */
  datatype Shown =
    | HintShown(hint: Hint, passes: Value)  // the hint's fields and the pass count
    | ErrorShown(message: Value)            // "Process ended with an error: ..."
    | NoHint                                // "Process ended without producing a hint."
    | Fatal(reason: string)                 // "FATAL ERROR DURING EXECUTION: ..."

  const UnknownError := "Unknown Error"

  /** The report for a run's outcome: the final state, or the exception that
      escaped. A stored hint wins over an ERROR status; an ERROR report falls
      back to "Unknown Error" only when `final_response` is falsy; a stored
      value that is not a Hint makes the attribute access raise, which the
      surrounding handler reports as fatal. */
  function Show(outcome: Result<State, Exception>): (d: Shown)
    ensures outcome.Failure? ==> d == Fatal(Describe(outcome.error))
    ensures outcome.Success? ==>
              var f := outcome.value;
              var h := Get(f, CurrentHint, Null);
              && (d.HintShown? <==> h.HintObj?)
              && (d.HintShown? ==> d.hint == h.hint && d.passes == Get(f, ReflectionCount, Int(1)))
              && (d.Fatal? <==> h != Null && !h.HintObj?)
              && (d.ErrorShown? <==> h == Null && IsError(f))
              && (d.ErrorShown? && Truthy(Get(f, FinalResponse, Null)) ==> d.message == f[FinalResponse])
              && (d.ErrorShown? && !Truthy(Get(f, FinalResponse, Null)) ==> d.message == Str(UnknownError))
  {
    match outcome
    case Failure(e) => Fatal(Describe(e))
    case Success(f) =>
      var h := Get(f, CurrentHint, Null);
      if h.HintObj? then HintShown(h.hint, Get(f, ReflectionCount, Int(1)))
      else if h != Null then
        Fatal(Describe(AttributeError("'" + TypeName(h) + "' object has no attribute 'counter_example_input'")))
      else if IsError(f) then
        var msg := Get(f, FinalResponse, Null);
        ErrorShown(if Truthy(msg) then msg else Str(UnknownError))
      else NoHint
  }

  /** The outcome of `invoke` on `init`: the state after the last node, or the
      exception the entry node raised. */
  function Outcome(init: State, sv: Services): (o: Result<State, Exception>)
    ensures o.Failure? <==> !Truthy(Get(init, ProblemUrl, Null))
    ensures o.Failure? ==> o.error == ValueError(IngestorNode.MissingUrl)
    ensures o.Success? ==> Invoke(init, sv).Finished? && |Invoke(init, sv).visits| >= 5
    ensures o.Success? ==> o.value == Invoke(init, sv).Final()
  {
    var r := Invoke(init, sv);
    RunShape(init, sv, MAX_REFLECTIONS);
    if r.Raised? then Failure(r.error) else Success(r.Final())
  }

  /** A run from a state whose `current_hint`, if any, is a Hint never ends
      with "Process ended without producing a hint.": without
      a problem URL the report is fatal; otherwise a run that ends without
      error shows the last tutor's hint (even when the critic still asked for
      regeneration), and one that ends in ERROR shows either a hint stored
      before the failure or the message the failing node stored, never the
      "Unknown Error" fallback. */
  lemma NeverHintless(init: State, sv: Services)
    requires HintTyped(init)
    ensures var d := Show(Outcome(init, sv));
            && !d.NoHint?
            && (d.Fatal? <==> !Truthy(Get(init, ProblemUrl, Null)))
            && (d.Fatal? ==> d.reason == IngestorNode.MissingUrl)
            && (Outcome(init, sv).Success? && !IsError(Outcome(init, sv).value) ==> d.HintShown?)
            && (d.ErrorShown? ==> d.message == Get(Outcome(init, sv).value, FinalResponse, Null))
  {
    var o := Outcome(init, sv);
    if o.Success? {
      FinishedReport(init, sv);
    } else {
      assert Show(o) == Fatal(IngestorNode.MissingUrl);
    }
  }

  lemma FinishedReport(init: State, sv: Services)
    requires HintTyped(init) && Outcome(init, sv).Success?
    ensures var f := Outcome(init, sv).value;
            var d := Show(Success(f));
            && (d.HintShown? || d.ErrorShown?)
            && (!IsError(f) ==> d.HintShown?)
            && (d.ErrorShown? ==> d.message == Get(f, FinalResponse, Null))
  {
    var vs := Invoke(init, sv).visits;
    RunShape(init, sv, MAX_REFLECTIONS);
    RunSound(init, sv, MAX_REFLECTIONS);
    LastSound(vs, MAX_REFLECTIONS);
    ShowFinal(Outcome(init, sv).value);
  }

  lemma LastSound(vs: seq<Visit>, m: int)
    requires |vs| >= 2 && AllSound(vs) && EndsOpen(vs, m)
    ensures var f := vs[|vs| - 1].after;
            Sound(f) && (!IsError(f) ==> Get(f, CurrentHint, Null).HintObj?)
  {
  }

  /** The report for a sound final state that holds a hint unless it is in ERROR. */
  lemma ShowFinal(f: State)
    requires Sound(f) && (!IsError(f) ==> Get(f, CurrentHint, Null).HintObj?)
    ensures var d := Show(Success(f));
            && (d.HintShown? || d.ErrorShown?)
            && (!IsError(f) ==> d.HintShown?)
            && (d.ErrorShown? ==> d.message == Get(f, FinalResponse, Null))
  {
  }
}
