/**
 * The hacker: asks the language model for one input that should break the
 * user's code and stores it as `generated_test_case`.
 */
module HackerNode {
  import opened Results
  import opened GraphState
  import opened Text

  const ErrorPrefix := "\U{274C} Error during test case generation: "

  /** The diagnosis the prompt falls back to when the analyzer left none. */
  const UndeterminedFlaw := "Undetermined flaw."

  /** The values the hacker's prompt is filled with. */
  datatype HackerPrompt = HackerPrompt(problemContext: Value, userCode: Value, language: Value, executionOutput: Value)

  /** The prompt inputs: three required keys (the first missing one raises
      `KeyError`) and the diagnosis, which defaults only when its key is absent. */
  function Prompt(s: State): (r: Result<HackerPrompt, Exception>)
    ensures r.Success? <==> ProblemContext in s && UserCode in s && Language in s
    ensures r.Success? ==> && r.value.problemContext == s[ProblemContext]
                           && r.value.userCode == s[UserCode]
                           && r.value.language == s[Language]
    ensures r.Success? && ExecutionOutput !in s ==> r.value.executionOutput == Str(UndeterminedFlaw)
    ensures r.Success? && ExecutionOutput in s ==> r.value.executionOutput == s[ExecutionOutput]
    ensures ProblemContext !in s ==> r == Failure(KeyError(ProblemContext))
    ensures ProblemContext in s && UserCode !in s ==> r == Failure(KeyError(UserCode))
    ensures ProblemContext in s && UserCode in s && Language !in s ==> r == Failure(KeyError(Language))
  {
    match Lookup(s, [ProblemContext, UserCode, Language])
    case Success(vs) =>
      Success(HackerPrompt(vs[0], vs[1], vs[2], Get(s, ExecutionOutput, Str(UndeterminedFlaw))))
    case Failure(e) => Failure(e)
  }

  /** `generate_test_case`. With status "ERROR" it returns the state itself.
      Otherwise a successful call writes exactly `generated_test_case`, the
      model's reply stripped and stored without any validation, and sets the
      status to "FAIL"; a missing input or a failed call becomes an ERROR update. */
  function GenerateTestCase(s: State, llm: HackerPrompt -> Result<string, string>): (u: Update)
    ensures IsError(s) ==> u == s
    ensures !IsError(s) ==> (IsErrorUpdate(u) <==> Prompt(s).Failure? || llm(Prompt(s).value).Failure?)
    ensures !IsError(s) && Prompt(s).Failure? ==> u == ErrorUpdate(ErrorPrefix, Prompt(s).error)
    ensures !IsError(s) && Prompt(s).Success? && llm(Prompt(s).value).Failure? ==>
              u == ErrorUpdate(ErrorPrefix, ServiceError(llm(Prompt(s).value).error))
    ensures !IsError(s) && !IsErrorUpdate(u) ==>
              && u.Keys == {GeneratedTestCase, ExecutionStatus}
              && u[ExecutionStatus] == Str("FAIL")
              && u[GeneratedTestCase].Str?
              && Trimmed(u[GeneratedTestCase].text)
              && u[GeneratedTestCase].text == Strip(llm(Prompt(s).value).value)
  {
    if IsError(s) then s
    else
      match Prompt(s)
      case Failure(e) => ErrorUpdate(ErrorPrefix, e)
      case Success(p) =>
        match llm(p)
        case Failure(m) => ErrorUpdate(ErrorPrefix, ServiceError(m))
        case Success(text) =>
          map[GeneratedTestCase := Str(Strip(text)), ExecutionStatus := Str("FAIL")]
  }
}
