/**
 * The logic analyzer: asks the language model for an internal diagnosis of the
 * user's code and stores it as `execution_output`.
 */
module AnalyzerNode {
  import opened Results
  import opened GraphState

  const ErrorPrefix := "\U{274C} Error during AI logic analysis: "

  /** The values the analyzer's prompt is filled with. */
  datatype AnalyzerPrompt = AnalyzerPrompt(problemContext: Value, userCode: Value, language: Value)

  /** The prompt inputs, read with `state[...]` in dictionary order; the first
      missing key raises `KeyError`. */
  function Prompt(s: State): (r: Result<AnalyzerPrompt, Exception>)
    ensures r.Success? <==> ProblemContext in s && UserCode in s && Language in s
    ensures r.Success? ==> r.value == AnalyzerPrompt(s[ProblemContext], s[UserCode], s[Language])
    ensures ProblemContext !in s ==> r == Failure(KeyError(ProblemContext))
    ensures ProblemContext in s && UserCode !in s ==> r == Failure(KeyError(UserCode))
    ensures ProblemContext in s && UserCode in s && Language !in s ==> r == Failure(KeyError(Language))
  {
    var keys := [ProblemContext, UserCode, Language];
    match Lookup(s, keys)
    case Success(vs) => Success(AnalyzerPrompt(vs[0], vs[1], vs[2]))
    case Failure(e) => Failure(e)
  }

  /** `analyze_logic`. With status "ERROR" it returns the state itself. Otherwise
      a successful call writes only `execution_output`, holding the model's
      reply as returned (not stripped), and leaves the status alone; a missing
      input or a failed call becomes an ERROR update. */
  function AnalyzeLogic(s: State, llm: AnalyzerPrompt -> Result<string, string>): (u: Update)
    ensures IsError(s) ==> u == s
    ensures !IsError(s) ==> (IsErrorUpdate(u) <==> Prompt(s).Failure? || llm(Prompt(s).value).Failure?)
    ensures !IsError(s) && Prompt(s).Failure? ==> u == ErrorUpdate(ErrorPrefix, Prompt(s).error)
    ensures !IsError(s) && Prompt(s).Success? && llm(Prompt(s).value).Failure? ==>
              u == ErrorUpdate(ErrorPrefix, ServiceError(llm(Prompt(s).value).error))
    ensures !IsError(s) && !IsErrorUpdate(u) ==>
              u == map[ExecutionOutput := Str(llm(Prompt(s).value).value)]
  {
    if IsError(s) then s
    else
      match Prompt(s)
      case Failure(e) => ErrorUpdate(ErrorPrefix, e)
      case Success(p) =>
        match llm(p)
        case Failure(m) => ErrorUpdate(ErrorPrefix, ServiceError(m))
        case Success(text) => map[ExecutionOutput := Str(text)]
  }
}
