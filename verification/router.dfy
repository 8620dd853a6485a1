/**
 * The conditional edge after the critic: stop, or loop back to the tutor.
 */
module RouterFunction {
  import opened Results
  import opened GraphState

  /** The cap on tutor passes the router enforces. */
  const MAX_REFLECTIONS: int := 1

  /** The two labels the router returns: "end" and "regenerate". */
  datatype Route = End | Regenerate

  /** `state.get("final_response") == "ACCEPTED"`. */
  predicate Accepted(s: State) {
    Get(s, FinalResponse, Null) == Str("ACCEPTED")
  }

  /** `state.get("reflection_count", 0)`: an absent count reads as 0. */
  function CountValue(s: State): Value {
    Get(s, ReflectionCount, Int(0))
  }

  /** The routing rule. The checks run in a fixed order: an error ends the run
      whatever else the state holds, then an accepted hint ends it, then a
      count at the cap ends it; only otherwise does the run loop back. A count
      that is not an integer makes the `>=` comparison raise `TypeError`. */
  function RouteToReflection(s: State, maxReflections: int): (r: Result<Route, Exception>)
    ensures IsError(s) ==> r == Success(End)
    ensures !IsError(s) && Accepted(s) ==> r == Success(End)
    ensures r.Failure? <==> !IsError(s) && !Accepted(s) && !CountValue(s).Int?
    ensures r.Failure? ==> r.error.TypeError?
    ensures r == Success(Regenerate) <==>
              !IsError(s) && !Accepted(s) && CountValue(s).Int? && CountValue(s).n < maxReflections
  {
    if IsError(s) then Success(End)
    else if Accepted(s) then Success(End)
    else match CountValue(s)
      case Int(c) => if c >= maxReflections then Success(End) else Success(Regenerate)
      case v => Failure(TypeError("'>=' not supported between instances of '" + TypeName(v) + "' and 'int'"))
  }
}
