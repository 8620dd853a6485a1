/**
 * The tutor: asks the language model for a structured Socratic hint, stores it
 * as `current_hint` and counts the pass in `reflection_count`.
 */
module TutorNode {
  import opened Results
  import opened GraphState

  /** The tutor's message prefix, character for character as the source file
      spells it (a mis-encoded cross mark). */
  const ErrorPrefix := "\U{201A}\U{F9}\U{E5} Error during hint generation: "

  /** The feedback the prompt falls back to when the key is absent. */
  const NoPriorFeedback := "No prior feedback."

  /** The values the tutor's prompt is filled with. */
  datatype TutorPrompt = TutorPrompt(
    problemContext: Value,
    userCode: Value,
    language: Value,
    executionOutput: Value,
    generatedTestCase: Value,
    feedback: Value)

  /** The keys the tutor reads with `state[...]`, in dictionary order. */
  const Required: seq<Key> := [ProblemContext, UserCode, Language, ExecutionOutput, GeneratedTestCase]

  /** The prompt inputs: five required keys (the first missing one raises
      `KeyError`) and the feedback, which takes the stored value whenever the
      key exists, even `None`, and the default only when it is absent. */
  function Prompt(s: State): (r: Result<TutorPrompt, Exception>)
    ensures r.Success? <==> forall k :: k in Required ==> k in s
    ensures r.Failure? ==> exists i :: 0 <= i < |Required| && r.error == KeyError(Required[i])
                                       && Required[i] !in s
                                       && forall j :: 0 <= j < i ==> Required[j] in s
    ensures r.Success? ==> && r.value.problemContext == s[ProblemContext]
                           && r.value.userCode == s[UserCode]
                           && r.value.language == s[Language]
                           && r.value.executionOutput == s[ExecutionOutput]
                           && r.value.generatedTestCase == s[GeneratedTestCase]
    ensures r.Success? && Feedback in s ==> r.value.feedback == s[Feedback]
    ensures r.Success? && Feedback !in s ==> r.value.feedback == Str(NoPriorFeedback)
  {
    match Lookup(s, Required)
    case Success(vs) =>
      assert forall k :: k in Required ==> k in s by {
        forall k | k in Required ensures k in s {
          var i :| 0 <= i < |Required| && Required[i] == k;
        }
      }
      Success(TutorPrompt(vs[0], vs[1], vs[2], vs[3], vs[4], Get(s, Feedback, Str(NoPriorFeedback))))
    case Failure(e) => Failure(e)
  }

  /** `state.get("reflection_count", 0) + 1`; anything but an integer raises
      `TypeError`. */
  function NextCount(s: State): (r: Result<int, Exception>)
    ensures ReflectionCount !in s ==> r == Success(1)
    ensures ReflectionCount in s && s[ReflectionCount].Int? ==> r == Success(s[ReflectionCount].n + 1)
    ensures r.Failure? <==> ReflectionCount in s && !s[ReflectionCount].Int?
    ensures r.Failure? ==> r.error.TypeError?
  {
    match Get(s, ReflectionCount, Int(0))
    case Int(n) => Success(n + 1)
    case Str(_) => Failure(TypeError("can only concatenate str (not \"int\") to str"))
    case v => Failure(TypeError("unsupported operand type(s) for +: '" + TypeName(v) + "' and 'int'"))
  }

  /** `generate_socratic_hint`. With status "ERROR" it returns the state itself;
      an existing hint does not make it skip. Otherwise a successful pass writes
      exactly the new hint, the count plus one (an absent count counts as 0) and
      `feedback: None`, and never touches the status or `final_response`. A
      missing input, a failed call, or a count that cannot be incremented (the
      increment runs after the call) becomes an ERROR update that leaves the
      hint and the count as they were. */
  function GenerateSocraticHint(s: State, llm: TutorPrompt -> Result<Hint, string>): (u: Update)
    ensures IsError(s) ==> u == s
    ensures !IsError(s) ==>
              (IsErrorUpdate(u) <==> Prompt(s).Failure? || llm(Prompt(s).value).Failure? || NextCount(s).Failure?)
    ensures !IsError(s) && Prompt(s).Failure? ==> u == ErrorUpdate(ErrorPrefix, Prompt(s).error)
    ensures !IsError(s) && Prompt(s).Success? && llm(Prompt(s).value).Failure? ==>
              u == ErrorUpdate(ErrorPrefix, ServiceError(llm(Prompt(s).value).error))
    ensures !IsError(s) && Prompt(s).Success? && llm(Prompt(s).value).Success? && NextCount(s).Failure? ==>
              u == ErrorUpdate(ErrorPrefix, NextCount(s).error)
    ensures !IsError(s) && !IsErrorUpdate(u) ==>
              && u.Keys == {CurrentHint, ReflectionCount, Feedback}
              && u[CurrentHint] == HintObj(llm(Prompt(s).value).value)
              && u[ReflectionCount] == Int(NextCount(s).value)
              && u[Feedback] == Null
  {
    if IsError(s) then s
    else
      match Prompt(s)
      case Failure(e) => ErrorUpdate(ErrorPrefix, e)
      case Success(p) =>
        match llm(p)
        case Failure(m) => ErrorUpdate(ErrorPrefix, ServiceError(m))
        case Success(hint) =>
          match NextCount(s)
          case Failure(e) => ErrorUpdate(ErrorPrefix, e)
          case Success(count) =>
            map[CurrentHint := HintObj(hint), ReflectionCount := Int(count), Feedback := Null]
  }
}
