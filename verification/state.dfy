/**
 * The shared graph state threaded through the Hintforge pipeline.
 *
 * The Python state is a dictionary, so it is modelled as a finite map: a key
 * that is not in the map is ABSENT, and a key holding Python's `None` maps to
 * `Null`. The two differ for `dict.get(key, default)`, which only falls back to
 * the default for an absent key.
 */
module GraphState {
  import opened Results

  /** The keys the nodes read and write. */
  datatype Key =
    | ProblemUrl | UserCode | Language | ReflectionCount | ProblemContext
    | ExecutionStatus | FinalResponse | ExecutionOutput | GeneratedTestCase
    | CurrentHint | Feedback

  /** The structured hint produced by the tutor's generation call. */
  datatype Hint = Hint(
    analysis: string,
    counterExampleInput: string,
    socraticHint: string,
    complexityAdvice: Option<string>)

  /** A Python value as stored in the state. */
  datatype Value = Null | Str(text: string) | Int(n: int) | HintObj(hint: Hint)

  type State = map<Key, Value>

  /** A node's return value, merged into the state key by key. */
  type Update = map<Key, Value>

  /** The exceptions a node can raise. `ServiceError` carries the text of an
      exception raised by an external call (language model, search client). */
  datatype Exception =
    | KeyError(key: Key)
    | TypeError(message: string)
    | AttributeError(message: string)
    | ValueError(message: string)
    | ServiceError(message: string)

  /** The key's spelling in the Python dictionary. */
  function KeyName(k: Key): string {
    match k
    case ProblemUrl => "problem_url"
    case UserCode => "user_code"
    case Language => "language"
    case ReflectionCount => "reflection_count"
    case ProblemContext => "problem_context"
    case ExecutionStatus => "execution_status"
    case FinalResponse => "final_response"
    case ExecutionOutput => "execution_output"
    case GeneratedTestCase => "generated_test_case"
    case CurrentHint => "current_hint"
    case Feedback => "feedback"
  }

  /** `str(e)`: what an f-string shows for the exception. */
  function Describe(e: Exception): string {
    match e
    case KeyError(k) => "'" + KeyName(k) + "'"
    case TypeError(m) => m
    case AttributeError(m) => m
    case ValueError(m) => m
    case ServiceError(m) => m
  }

  /** `type(v).__name__`. */
  function TypeName(v: Value): string {
    match v
    case Null => "NoneType"
    case Str(_) => "str"
    case Int(_) => "int"
    case HintObj(_) => "Hint"
  }

  /** Python truthiness of a value (a Hint object is always truthy). */
  predicate Truthy(v: Value) {
    match v
    case Null => false
    case Str(t) => t != ""
    case Int(n) => n != 0
    case HintObj(_) => true
  }

  /** `state.get(k, default)`. */
  function Get(s: State, k: Key, default: Value): Value
  {
    if k in s then s[k] else default
  }

  /** `state.get("execution_status") == "ERROR"`, the skip test of every node. */
  predicate IsError(s: State) {
    Get(s, ExecutionStatus, Null) == Str("ERROR")
  }

  /** The overwrite reducer: every key of the update replaces the state's entry,
      every other key keeps its value. */
  function Merge(s: State, u: Update): (r: State)
    ensures r.Keys == s.Keys + u.Keys
    ensures forall k :: k in u ==> r[k] == u[k]
    ensures forall k :: k in s && k !in u ==> r[k] == s[k]
  {
    s + u
  }

  /** A node that returns the state itself changes nothing. */
  lemma MergeSelf(s: State)
    ensures Merge(s, s) == s
  {
  }

  /** `s` and `t` agree on every key outside `keys`: presence and value. */
  predicate Agree(s: State, t: State, keys: set<Key>) {
    forall k :: k !in keys ==> (k in s <==> k in t) && (k in s ==> s[k] == t[k])
  }

  /** Merging an update that only holds keys of `keys` leaves every other key alone. */
  lemma MergeFrame(s: State, u: Update, keys: set<Key>)
    requires u.Keys <= keys
    ensures Agree(s, Merge(s, u), keys)
  {
  }

  /** The update every node returns from its `except` clause: status "ERROR"
      and a message that starts with the node's prefix. */
  function ErrorUpdate(prefix: string, e: Exception): (u: Update)
    ensures u.Keys == {ExecutionStatus, FinalResponse}
    ensures u[ExecutionStatus] == Str("ERROR")
    ensures u[FinalResponse].Str? && |prefix| <= |u[FinalResponse].text|
    ensures u[FinalResponse].text[..|prefix|] == prefix
    ensures prefix != "" ==> IsErrorUpdate(u)
  {
    map[ExecutionStatus := Str("ERROR"), FinalResponse := Str(prefix + Describe(e))]
  }

  /** An update of the shape every `except` clause returns: the status "ERROR"
      and a non-empty message, whatever it says. */
  predicate IsErrorUpdate(u: Update) {
    && u.Keys == {ExecutionStatus, FinalResponse}
    && u[ExecutionStatus] == Str("ERROR")
    && u[FinalResponse].Str? && u[FinalResponse].text != ""
  }

  /** An ERROR state carries a message in `final_response`. */
  predicate ErrorExplained(s: State) {
    IsError(s) ==> Get(s, FinalResponse, Null).Str? && Get(s, FinalResponse, Null).text != ""
  }

  /** Merging an error update yields an ERROR state that carries its message. */
  lemma MergeErrorUpdate(s: State, u: Update)
    requires IsErrorUpdate(u)
    ensures IsError(Merge(s, u)) && ErrorExplained(Merge(s, u))
  {
  }

  /** `[state[k] for k in keys]`, evaluated left to right: the first absent key
      raises `KeyError`. */
  function Lookup(s: State, keys: seq<Key>): (r: Result<seq<Value>, Exception>)
    ensures r.Success? <==> forall i :: 0 <= i < |keys| ==> keys[i] in s
    ensures r.Success? ==> |r.value| == |keys|
                           && forall i :: 0 <= i < |keys| ==> r.value[i] == s[keys[i]]
    ensures r.Failure? ==> exists i :: 0 <= i < |keys| && r.error == KeyError(keys[i])
                                       && keys[i] !in s
                                       && forall j :: 0 <= j < i ==> keys[j] in s
    decreases |keys|
  {
    if |keys| == 0 then Success([])
    else if keys[0] !in s then Failure(KeyError(keys[0]))
    else
      match Lookup(s, keys[1..])
      case Success(vs) => Success([s[keys[0]]] + vs)
      case Failure(e) =>
        ghost var i :| 0 <= i < |keys[1..]| && e == KeyError(keys[1..][i]) && keys[1..][i] !in s
                       && forall j :: 0 <= j < i ==> keys[1..][j] in s;
        assert e == KeyError(keys[i + 1]) && forall j :: 0 <= j < i + 1 ==> keys[j] in s;
        Failure(e)
  }
}
