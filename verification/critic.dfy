/**
 * The critic: asks the language model to accept the current hint or send it
 * back with a reason, and records the verdict in `final_response` and
 * `feedback`.
 */
module CriticNode {
  import opened Results
  import opened GraphState
  import opened Text

  const ErrorPrefix := "\U{274C} Error during critique: "

  /** The word that accepts a hint, and the marker that precedes a reason. */
  const AcceptWord := "ACCEPT"
  const RegenerateMarker := "REGENERATE:"

  /** The values the critic's prompt is filled with. */
  datatype CriticPrompt = CriticPrompt(problemContext: Value, userCode: Value, analysis: string, socraticHint: string)

  /** The decision read off the model's reply. */
  datatype Verdict = Accept | Regenerate(feedback: string)

  /** The critic skips when the status is "ERROR" or there is no hint
      (`state.get("current_hint") is None`: absent or `None`). */
  predicate Skips(s: State) {
    IsError(s) || Get(s, CurrentHint, Null) == Null
  }

  /** The prompt inputs: `problem_context` and `user_code` (a missing key raises
      `KeyError`), then the hint's `analysis` and `socratic_hint` attributes,
      which raise `AttributeError` when the stored hint is not a Hint. */
  function Prompt(s: State): (r: Result<CriticPrompt, Exception>)
    ensures r.Success? <==> ProblemContext in s && UserCode in s && Get(s, CurrentHint, Null).HintObj?
    ensures r.Success? ==> r.value == CriticPrompt(s[ProblemContext], s[UserCode],
                                                   s[CurrentHint].hint.analysis, s[CurrentHint].hint.socraticHint)
    ensures ProblemContext !in s ==> r == Failure(KeyError(ProblemContext))
    ensures ProblemContext in s && UserCode !in s ==> r == Failure(KeyError(UserCode))
    ensures ProblemContext in s && UserCode in s && !Get(s, CurrentHint, Null).HintObj? ==> r.Failure? && r.error.AttributeError?
  {
    match Lookup(s, [ProblemContext, UserCode])
    case Failure(e) => Failure(e)
    case Success(vs) =>
      var h := Get(s, CurrentHint, Null);
      if h.HintObj? then Success(CriticPrompt(vs[0], vs[1], h.hint.analysis, h.hint.socraticHint))
      else Failure(AttributeError("'" + TypeName(h) + "' object has no attribute 'analysis'"))
  }

  /** Reads the verdict off a reply. The reply is stripped first; if it then
      starts with "ACCEPT" (so "ACCEPTED" counts too) the hint is accepted.
      Anything else is a regeneration whose feedback is the stripped reply with
      every "REGENERATE:" removed, stripped again: it is trimmed, never longer
      than the stripped reply, and equal to it when no marker occurs. */
  function ParseVerdict(response: string): (v: Verdict)
    ensures v.Accept? <==> StartsWith(Strip(response), AcceptWord)
    ensures v.Regenerate? ==> Trimmed(v.feedback) && |v.feedback| <= |Strip(response)|
    ensures v.Regenerate? && !Occurs(Strip(response), RegenerateMarker) ==> v.feedback == Strip(response)
    ensures v.Regenerate? && Occurs(Strip(response), RegenerateMarker) ==>
              |v.feedback| <= |Strip(response)| - |RegenerateMarker|
  {
    var reply := Strip(response);
    if StartsWith(reply, AcceptWord) then Accept
    else
      StripIdempotent(response);
      Regenerate(Strip(RemoveAll(reply, RegenerateMarker)))
  }

  /** A reply in the documented format "REGENERATE: <reason>", with a
      non-empty reason that has no surrounding whitespace and no marker of its
      own, yields exactly that reason as feedback. */
  lemma DocumentedReason(reason: string)
    requires |reason| > 0 && Trimmed(reason) && !Occurs(reason, RegenerateMarker)
    ensures ParseVerdict(RegenerateMarker + " " + reason) == Regenerate(reason)
  {
    var response := RegenerateMarker + " " + reason;
    MarkedReplyIsTrimmed(reason);
    StripTrimmed(response);
    MarkerRemoved(reason);
    SpacedReason(reason);
    assert ParseVerdict(response) == Regenerate(Strip(RemoveAll(response, RegenerateMarker)));
  }

  /** Any other reply: when the stripped reply is marker-free pieces joined by
      "REGENERATE:", the feedback is those pieces run together and stripped,
      so every marker is deleted and every other character kept in order. */
  lemma RegenerateFeedback(response: string, pieces: seq<string>)
    requires !StartsWith(Strip(response), AcceptWord)
    requires |pieces| >= 1 && Strip(response) == JoinWith(pieces, RegenerateMarker)
    requires forall i :: 0 <= i < |pieces| ==> !Occurs(pieces[i], RegenerateMarker)
    ensures ParseVerdict(response) == Regenerate(Strip(Concat(pieces)))
  {
    MarkerEndsUniquely();
    RemoveAllJoined(pieces, RegenerateMarker);
  }

  /** A reason before a single marker and one after it are run together:
      "Too vague. REGENERATE: avoid X" yields "Too vague.  avoid X" stripped. */
  lemma OneMarker(response: string, before: string, after: string)
    requires !StartsWith(Strip(response), AcceptWord)
    requires Strip(response) == before + RegenerateMarker + after
    requires !Occurs(before, RegenerateMarker) && !Occurs(after, RegenerateMarker)
    ensures ParseVerdict(response) == Regenerate(Strip(before + after))
  {
    var pieces := [before, after];
    assert JoinWith(pieces, RegenerateMarker) == before + RegenerateMarker + after by {
      assert pieces[1..] == [after];
    }
    assert Concat(pieces) == before + after by {
      assert pieces[1..] == [after];
      assert Concat([after]) == after + Concat([]);
    }
    RegenerateFeedback(response, pieces);
  }

  /** ':' occurs in "REGENERATE:" only at its end. */
  lemma MarkerEndsUniquely()
    ensures EndsUniquely(RegenerateMarker)
  {
  }

  /** "REGENERATE: <reason>" has no surrounding whitespace and does not start
      with "ACCEPT". */
  lemma MarkedReplyIsTrimmed(reason: string)
    requires |reason| > 0 && Trimmed(reason)
    ensures Trimmed(RegenerateMarker + " " + reason)
    ensures !StartsWith(RegenerateMarker + " " + reason, AcceptWord)
  {
    var response := RegenerateMarker + " " + reason;
    assert response[0] == 'R';
    assert response[|response| - 1] == reason[|reason| - 1];
    assert response[..|AcceptWord|][1] == 'E';
  }

  /** Removing the markers from "REGENERATE: <reason>" leaves " <reason>". */
  lemma MarkerRemoved(reason: string)
    requires !Occurs(reason, RegenerateMarker)
    ensures RemoveAll(RegenerateMarker + " " + reason, RegenerateMarker) == " " + reason
  {
    var response := RegenerateMarker + " " + reason;
    assert response[..|RegenerateMarker|] == RegenerateMarker;
    assert response[|RegenerateMarker|..] == " " + reason;
    var rest := " " + reason;
    assert !StartsWith(rest, RegenerateMarker) by {
      if |RegenerateMarker| <= |rest| {
        assert rest[..|RegenerateMarker|][0] == ' ';
      }
    }
    assert rest[1..] == reason;
  }

  /** Stripping " <reason>" gives back the trimmed reason. */
  lemma SpacedReason(reason: string)
    requires |reason| > 0 && Trimmed(reason)
    ensures Strip(" " + reason) == reason
  {
    var rest := " " + reason;
    assert rest[1..] == reason;
    assert LeadingSpace(reason) == 0;
    assert LeadingSpace(rest) == 1;
  }

  /** The update for a verdict: acceptance clears the feedback and sets the
      "ACCEPTED" sentinel; regeneration stores the reason and the "REGENERATE"
      sentinel. */
  function VerdictUpdate(v: Verdict): (u: Update)
    ensures u.Keys == {Feedback, FinalResponse}
    ensures v.Accept? <==> u[FinalResponse] == Str("ACCEPTED")
    ensures v.Accept? ==> u[Feedback] == Null
    ensures v.Regenerate? ==> u[FinalResponse] == Str("REGENERATE") && u[Feedback] == Str(v.feedback)
  {
    match v
    case Accept => map[Feedback := Null, FinalResponse := Str("ACCEPTED")]
    case Regenerate(reason) => map[Feedback := Str(reason), FinalResponse := Str("REGENERATE")]
  }

  /** `critique_hint`. When it skips it returns the state itself. Otherwise a
      successful call writes only `feedback` and `final_response`, never the
      hint, the count or the status; a missing input or a failed call becomes
      an ERROR update that leaves the hint in place. */
  function CritiqueHint(s: State, llm: CriticPrompt -> Result<string, string>): (u: Update)
    ensures Skips(s) ==> u == s
    ensures !Skips(s) ==> (IsErrorUpdate(u) <==> Prompt(s).Failure? || llm(Prompt(s).value).Failure?)
    ensures !Skips(s) && Prompt(s).Failure? ==> u == ErrorUpdate(ErrorPrefix, Prompt(s).error)
    ensures !Skips(s) && Prompt(s).Success? && llm(Prompt(s).value).Failure? ==>
              u == ErrorUpdate(ErrorPrefix, ServiceError(llm(Prompt(s).value).error))
    ensures !Skips(s) && !IsErrorUpdate(u) ==>
              && u.Keys == {Feedback, FinalResponse}
              && u == VerdictUpdate(ParseVerdict(llm(Prompt(s).value).value))
  {
    if Skips(s) then s
    else
      match Prompt(s)
      case Failure(e) => ErrorUpdate(ErrorPrefix, e)
      case Success(p) =>
        match llm(p)
        case Failure(m) => ErrorUpdate(ErrorPrefix, ServiceError(m))
        case Success(response) => VerdictUpdate(ParseVerdict(response))
  }
}
