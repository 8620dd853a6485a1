# Hintforge orchestration, modelled in Dafny

Hintforge is an agent that turns a failing competitive-programming submission
into a Socratic hint. A LangGraph state machine runs five nodes over one shared
dictionary state:

- **ingest** retrieves the problem statement for `problem_url`;
- **analyze** asks a language model for an internal diagnosis;
- **hacker** asks for one input that should break the user's code;
- **tutor** asks for a structured hint and counts the pass in `reflection_count`;
- **critic** accepts the hint or asks for another one, with a reason.

After the critic, a router either ends the run or loops back to the tutor. The
command-line entry point streams the graph, then invokes it a second time on
the same initial state, and prints one of four reports for the final state of
that second run.

This project models that orchestration core:

- the state as a map from keys to values, and LangGraph's overwrite merge of
  each node's returned update (`state.dfy`);
- the five node functions: their skip rules, their prompt inputs, the updates
  they return on success, and the ERROR updates their `except` clauses return
  (`ingestor.dfy`, `analyzer.dfy`, `hacker.dfy`, `tutor.dfy`, `critic.dfy`);
- the critic's verdict parsing (`critic.dfy`), built on a model of
  `str.strip`, `str.startswith`, `str.replace` and `"\n".join` (`text.dfy`);
- the router with its cap `MAX_REFLECTIONS = 1` (`router.dfy`);
- the graph's edges and the reflection loop, as a function from the initial
  state to the sequence of visited nodes and the state after each one
  (`graph.dfy`);
- whole-run properties (`run_properties.dfy`);
- the `__main__` report (`report.dfy`).

The language model, the search service, the text splitter and the environment
variable are parameters. Every proved property therefore holds for every
possible answer of those services. The tutor and critic oracles take the pass
number, so each pass may answer differently.

Python's `None` is the value `Null`. A key that a dict lacks is a key that is
not in the map. Python exceptions are the `Exception` datatype. An exception
escaping a node ends the run as `Raised`.

## Model

| member | source | states |
|---|---|---|
| GraphState.Get | router_function.py:13 | `state.get(k, default)`. It has no contract of its own; `RouterFunction.RouteToReflection`, `TutorNode.Prompt` and `Report.Show` state its use. |
| GraphState.Truthy | ingestor_node.py:22 | Python truthiness for the modelled values. `None`, "" and 0 are false, and every other string, integer and Hint is true. It has no contract of its own, and `IngestorNode.IngestProblemContext` states its use. |
| GraphState.Merge | hintforge_agent.py:22 | The merged state holds the keys of both. Every key the node returned takes the returned value. Every other key keeps its old value. |
| GraphState.Lookup | tutor_node.py:59-64 | A dict display of `state[k]` reads succeeds exactly when every key is present, and then yields the values in order. Otherwise it raises `KeyError` for the first absent key, and every key before that one is present. |
| GraphState.ErrorUpdate | critic_node.py:79-84 | An `except` clause writes exactly the status "ERROR" and a `final_response` that begins with the node's prefix. With a non-empty prefix the message is non-empty. |
| GraphState.MergeErrorUpdate | critic_node.py:79-84 | Merging an error update leaves the state in ERROR with a non-empty message, whatever the state held before. |
| Text.Strip | hacker_node.py:59 | `str.strip()` returns a slice of its input with no whitespace at either end, and every character it cuts off is whitespace. |
| Text.StripIdempotent | critic_node.py:61-72 | Stripping an already stripped reply changes nothing. |
| Text.RemoveAll | critic_node.py:72 | `replace(marker, "")` is never longer than its input. It is at least one marker shorter when the marker occurs, and it is the identity when the marker does not occur. Its full behaviour is stated by `Text.RemoveAllJoined`. |
| Text.RemoveAfterPlain | critic_node.py:72 | For a marker whose last character occurs only at its end, removing it from `a + marker + b`, with `a` marker-free, keeps `a` unchanged and continues in `b`. |
| Text.RemoveAllJoined | critic_node.py:72 | Removing the marker from marker-free pieces joined by that marker yields exactly the pieces run together in order: every marker is deleted and no other character. |
| Text.Join | ingestor_node.py:46 | `"\n".join(parts)`. It has no contract of its own, and `Text.JoinSplit` and `Text.SplitJoin` state it is undone by splitting on the separator. |
| Text.JoinIsJoinWith | ingestor_node.py:46 | The newline join is the same `sep.join` as the general join the critic's marker lemmas use, with a one-character separator. |
| Text.JoinSplit | ingestor_node.py:46 | Splitting a string on a separator and joining the pieces with it gives the string back. |
| Text.SplitJoin | ingestor_node.py:56 | Joining separator-free pieces with `"\n"` and splitting the result gives exactly those pieces back. |
| RouterFunction.RouteToReflection | router_function.py:5-30 | An ERROR status ends the run. Otherwise an "ACCEPTED" response ends it. Otherwise a count at or past the cap ends it. The router loops back exactly when none of these holds and the count is an integer below the cap. A count that is not an integer raises `TypeError`. |
| IngestorNode.UsableResults | ingestor_node.py:41-42 | A falsy reply, a reply without "results" and an empty result list are all rejected. Otherwise the result list is used as it is. |
| IngestorNode.ItemText | ingestor_node.py:45 | `r.get("raw_content") or r.get("content", "")`. It has no contract of its own; `IngestorNode.SelectedOne`, `IngestorNode.SelectedConcat` and `IngestorNode.RawContentPreferred` state what the selection does with the text. |
| IngestorNode.SelectedTexts | ingestor_node.py:45-46 | Every selected text is non-empty and comes from some result. Every result with a non-empty text contributes it. Order and multiplicity are stated by `IngestorNode.SelectedConcat` and `IngestorNode.SelectedOne`. |
| IngestorNode.SelectedConcat | ingestor_node.py:45-46 | The texts keep result order: the texts of two runs of results are the first run's texts followed by the second's. |
| IngestorNode.SelectedOne | ingestor_node.py:45-46 | A single result contributes its text exactly once when that text is non-empty, and nothing otherwise. Together with `IngestorNode.SelectedConcat` this determines the list. |
| IngestorNode.RawContentPreferred | ingestor_node.py:45-46 | When every result has a non-empty `raw_content`, the selected texts are exactly those raw contents, in order. |
| IngestorNode.Context | ingestor_node.py:45-56 | The stored context: the selected texts joined by newlines, split into chunks, and the chunks joined by newlines. It has no contract of its own, and `IngestorNode.ContextKeepsTexts` states what survives. |
| IngestorNode.IngestProblemContext | ingestor_node.py:21-70 | A falsy URL raises `ValueError` and escapes the node. A missing API key, a failed search and an unusable reply each give their own ERROR update. Otherwise the node writes exactly `problem_context` (the joined chunks) and status "FAIL". |
| IngestorNode.ContextKeepsTexts | ingestor_node.py:44-56 | With a single-chunk splitter and newline-free texts, the stored context splits back into exactly the selected texts. |
| AnalyzerNode.Prompt | analyzer_node.py:54-60 | The prompt needs `problem_context`, `user_code` and `language`, read in that order. The first missing one raises `KeyError`. |
| AnalyzerNode.AnalyzeLogic | analyzer_node.py:46-75 | An ERROR state is returned as it is. A failed prompt or call becomes an ERROR update with the analyzer's prefix. A success writes only `execution_output`, holding the reply unstripped, and leaves the status alone. |
| HackerNode.Prompt | hacker_node.py:50-57 | Three keys are required, in order. The diagnosis falls back to "Undetermined flaw." only when its key is absent. |
| HackerNode.GenerateTestCase | hacker_node.py:42-76 | An ERROR state is returned as it is. Failures become the hacker's ERROR update. A success writes exactly the stripped reply as `generated_test_case` (trimmed, never validated) and status "FAIL". |
| TutorNode.Prompt | tutor_node.py:59-66 | Five keys are required, read in dictionary order, and the first absent one raises `KeyError`. `feedback` is the stored value whenever the key exists, even `None`, and "No prior feedback." only when it is absent. |
| TutorNode.NextCount | tutor_node.py:74 | An absent count gives 1, and an integer count gives that count plus one. Any other value raises `TypeError`. |
| TutorNode.GenerateSocraticHint | tutor_node.py:51-88 | An ERROR state is returned as it is, and an existing hint does not cause a skip. The node gives an ERROR update exactly when the prompt, the call or the increment fails. A success writes exactly the new hint, the next count and `feedback: None`. |
| CriticNode.Prompt | critic_node.py:50-60 | The prompt needs `problem_context` and `user_code`, read in that order. It also needs the hint's fields, which raise `AttributeError` when the stored hint is not a Hint. |
| CriticNode.ParseVerdict | critic_node.py:61-77 | A reply is an acceptance exactly when the stripped reply starts with "ACCEPT". Otherwise the feedback is trimmed and no longer than the stripped reply. It is shorter by at least the marker's length when a marker occurs, and equals the stripped reply when none occurs. `CriticNode.RegenerateFeedback` states the feedback exactly. |
| CriticNode.RegenerateFeedback | critic_node.py:61-77 | A reply that does not start with "ACCEPT", made of marker-free pieces joined by "REGENERATE:", yields as feedback those pieces run together and stripped. |
| CriticNode.OneMarker | critic_node.py:70-72 | A reply with text before and after a single marker yields the two texts run together and stripped. |
| CriticNode.DocumentedReason | critic_node.py:27-29 | A reply in the documented format "REGENERATE: reason" yields exactly that reason. |
| CriticNode.VerdictUpdate | critic_node.py:64-77 | Acceptance writes `feedback: None` and "ACCEPTED". A regeneration writes its reason and "REGENERATE". |
| CriticNode.CritiqueHint | critic_node.py:46-84 | The critic skips when the state is in ERROR or has no hint. It gives an ERROR update exactly when the prompt or the call fails. Otherwise it writes only `feedback` and `final_response` from the parsed verdict, never the hint or the count. |
| Graph.Reflect | hintforge_agent.py:35-50 | The tutor-to-critic edge and the router's conditional edge, as a loop. It has no contract of its own, and `Graph.ReflectShape` and `Graph.ReflectOutcome` state its properties. |
| Graph.RunGraph | hintforge_agent.py:18-55 | The compiled graph: entry at ingest, the fixed edges to the hacker, then the loop. It has no contract of its own, and `Graph.RunShape` states its properties. |
| Graph.Invoke | hintforge_agent.py:113 | `invoke` with the shipped cap. It has no contract of its own, and `Report.Outcome` and `RunProperties.DefaultRunIsOnePass` state its properties. |
| Graph.TutorStepFacts | hintforge_agent.py:28 | A tutor step changes only the keys the tutor may write. It leaves an ERROR state unchanged and never removes a key. When it ends without error, the count rose by one, the hint is the model's, and the feedback is cleared. |
| Graph.CriticStepFacts | hintforge_agent.py:29 | A critic step changes only the keys the critic may write and leaves an ERROR state unchanged. When it ends without error after a hint, the state is the merged verdict. |
| Graph.CleanPass | hintforge_agent.py:35-36 | A pass that ends without error ran a successful tutor call. It raised the count by one, kept the hint, and recorded a verdict. The next tutor prompt's inputs are all present. |
| Graph.PassFacts | hintforge_agent.py:39-50 | After a tutor/critic pass the router never raises. When it loops back, the remaining budget has dropped and is still positive, so the loop terminates. |
| Graph.ReflectShape | hintforge_agent.py:35-50 | The loop always reaches END after between 1 and `max(1, budget)` tutor/critic pairs, and every visit changes only its node's keys. |
| Graph.ReflectOutcome | hintforge_agent.py:39-50 | Every pass but the last loops back in "REGENERATE" state, with the critic's reason as the next prompt's feedback. The last pass ends open: without an error it holds the last tutor's hint, either accepted or at the cap. |
| Graph.RunShape | hintforge_agent.py:25-50 | A run raises, with no state produced, exactly when the problem URL is falsy. Otherwise it visits ingest, analyze and hacker, then between 1 and `max(1, budget)` tutor/critic pairs, and every pass but the last loops back with a reason. |
| Graph.RunSound | hintforge_agent.py:25-36 | When the caller's hint, if any, is a Hint, every state of a run that is in ERROR carries a non-empty message, and `current_hint` never holds anything but a Hint. |
| RunProperties.LoopBound | hintforge_agent.py:35-50 | The tutor and the critic run equally often, at least once and at most `max(1, budget)` times. |
| RunProperties.DefaultRunIsOnePass | router_function.py:3 | With the shipped cap and a count that is absent or non-negative, a run with a URL visits ingest, analyze, hacker, tutor and critic exactly once each. |
| RunProperties.WithinRecursionLimit | hintforge_agent.py:99 | With the shipped cap and an initial count that is absent, not an integer, or at least -10, a run visits at most 25 nodes, LangGraph's default step limit. Both callers pass 0. |
| RunProperties.ErrorAbsorbing | hintforge_agent.py:32-50 | Once a node leaves the state in ERROR, every later node returns that state unchanged. |
| RunProperties.InputsKept | hintforge_agent.py:25-29 | No state of a run differs from the caller's in `problem_url`, `user_code` or `language`. |
| Report.Show | hintforge_agent.py:117-139 | A Hint wins over an ERROR status. A stored non-Hint makes the attribute access fatal. In ERROR, the report shows `final_response`, or "Unknown Error" when that is falsy. A run that raised is reported as fatal. |
| Report.Outcome | hintforge_agent.py:106-113 | `invoke` fails exactly when the URL is falsy. Otherwise it returns the state after the last of at least five visits. |
| Report.NeverHintless | hintforge_agent.py:121-136 | The report is never "without producing a hint". It is fatal exactly when the URL is falsy. A run that ends without error shows a hint. An ERROR report shows the message that the failing node stored, never the fallback. |

## Left out

- The language-model calls (`ChatOpenAI`, the prompt templates and the Pydantic `Hint` schema) are oracle parameters. An oracle's failure is `ServiceError(message)`, which stands for any exception the chain raises. A Hint is a record of its four fields and is never validated.
- The Tavily client is an oracle from the URL to a reply. The search options (`max_results=3`, `search_depth="advanced"`) are left out because they only shape what the service returns.
- `RecursiveCharacterTextSplitter` is an oracle from text to chunks. Its chunk size of 1000 and overlap of 50 are its own business.
- `load_dotenv` and `os.getenv("TAVILY_API_KEY")` become an optional string parameter.
- Every `print` and the progress output are left out: they change no state.
- `app.py`, the web front end, is not part of this model.
- `graph_state.py` is not part of this model. The key set and the value kinds (`None`, strings, integers, Hints) are taken from what the nodes read and write. Booleans, floats and other Python values a caller might place in the state are not modelled.
- The entry point streams the graph once and then invokes it again. The model runs the graph once. Because the oracles are parameters, the second run's answers can be any answers.
- LangGraph's channels and checkpointing are left out.
- Graph.RunShape: LangGraph's recursion limit (25 steps by default) is not represented. Both callers start from `reflection_count` 0 (hintforge_agent.py:99, app.py:23), and `RunProperties.WithinRecursionLimit` shows that any initial count of at least -10 keeps a run within 25 node visits. From a count of -11 or lower, with a critic that keeps asking for regeneration, the real run raises `GraphRecursionError`. The model instead finishes it, so "raises exactly when the URL is falsy" holds only for counts of at least -10.
- Report.Outcome: for the same reason, a fatal report caused by the recursion limit is not represented.
- The texts of CPython's exception messages are approximated. `KeyError` renders as the quoted key, and `TypeError` and `AttributeError` messages follow CPython's wording for the modelled value kinds.
- Report.Show: when the stored hint is not a Hint, the report's first line has already been printed before the attribute access fails. The model keeps only the fatal outcome.
- Report.NeverHintless: requires the caller's `current_hint` to be absent, `None` or a Hint. A caller that passes another value makes the report fatal rather than hint-less, which the lemma does not state.
- RunProperties.DefaultRunIsOnePass: requires a count that is not a negative integer. A negative initial count buys extra passes, which `RunProperties.LoopBound` bounds.

## Behaviour worth knowing

- The tutor adds one to `reflection_count` on every successful pass, and the router ends the run once the count reaches `MAX_REFLECTIONS = 1`. A default run therefore makes exactly one tutor/critic pass: a "REGENERATE" verdict on that pass still ends the run, and the hint is shown anyway (`RunProperties.DefaultRunIsOnePass`, `Graph.ReflectOutcome`).
- A critic failure leaves `current_hint` in place, and the report prefers a stored hint over an ERROR status. A run that fails in the critic therefore shows the tutor's hint.
- When the critic's reply has no "REGENERATE:" marker, the feedback is the whole stripped reply. A reply that starts with "ACCEPT" (for example "ACCEPTED") is an acceptance.
- A missing search key is reported inside the run as an ERROR state. Only a missing problem URL escapes the graph as an exception.
- The tutor's error prefix begins with the characters `U+201A U+00F9 U+00E5` as the source file spells them, not with the cross mark the other nodes use.
- An absent `feedback` key makes the tutor fall back to "No prior feedback.". A `feedback` of `None`, which the tutor itself writes, is passed to the prompt as `None`.
