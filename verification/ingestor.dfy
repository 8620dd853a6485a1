/**
 * The entry node: fetch the problem statement for `problem_url` through the
 * search client and store it as `problem_context`.
 *
 * The search client, the API key lookup and the text splitter are external;
 * they are parameters of the node.
 */
module IngestorNode {
  import opened Results
  import opened GraphState
  import opened Text

  const ErrorPrefix := "\U{274C} Error retrieving problem from URL: "
  const MissingUrl := "Problem URL is missing from the state."
  const MissingApiKey := "TAVILY_API_KEY is not set in the environment/.env file."
  const NoResults := "Tavily returned no results for the given problem URL."

  /** One text entry of a search result dictionary: the key is missing, holds
      `None`, or holds a string. */
  datatype Entry = Missing | NullText | Content(text: string)

  /** One search result; only its `raw_content` and `content` entries are read. */
  datatype SearchItem = SearchItem(rawContent: Entry, content: Entry)

  /** What `client.search` returns: a falsy reply (`None` or an empty
      dictionary), or a dictionary whose `"results"` entry may be missing. */
  datatype SearchReply = NoReply | Reply(results: Option<seq<SearchItem>>)

  /** The search results, or `None` when the reply is falsy, has no
      `"results"` key, or has an empty result list. */
  function UsableResults(reply: SearchReply): (r: Option<seq<SearchItem>>)
    ensures r.Some? <==> reply.Reply? && reply.results.Some? && |reply.results.value| > 0
    ensures r.Some? ==> r.value == reply.results.value
  {
    match reply
    case NoReply => None
    case Reply(None) => None
    case Reply(Some(items)) => if |items| == 0 then None else Some(items)
  }

  /** `r.get("raw_content") or r.get("content", "")`; `None` stands for
      Python's `None`. */
  function ItemText(item: SearchItem): Option<string>
  {
    if item.rawContent.Content? && item.rawContent.text != "" then Some(item.rawContent.text)
    else
      match item.content
      case Missing => Some("")
      case NullText => None
      case Content(c) => Some(c)
  }

  /** `[t for t in raw_texts if t]`: the non-empty item texts, in result order. */
  function SelectedTexts(items: seq<SearchItem>): (ts: seq<string>)
    ensures |ts| <= |items|
    ensures forall i :: 0 <= i < |ts| ==> ts[i] != ""
    ensures forall i :: 0 <= i < |ts| ==> exists j :: 0 <= j < |items| && ItemText(items[j]) == Some(ts[i])
    ensures forall j :: 0 <= j < |items| && ItemText(items[j]).Some? && ItemText(items[j]).value != "" ==>
              ItemText(items[j]).value in ts
    decreases |items|
  {
    if |items| == 0 then []
    else
      var rest := SelectedTexts(items[1..]);
      assert forall i :: 0 <= i < |rest| ==> exists j :: 0 <= j < |items| && ItemText(items[j]) == Some(rest[i]) by {
        forall i | 0 <= i < |rest|
          ensures exists j :: 0 <= j < |items| && ItemText(items[j]) == Some(rest[i])
        {
          var j :| 0 <= j < |items[1..]| && ItemText(items[1..][j]) == Some(rest[i]);
          assert items[1..][j] == items[j + 1];
        }
      }
      assert forall j :: 1 <= j < |items| ==> items[j] == items[1..][j - 1];
      var t := ItemText(items[0]);
      if t.Some? && t.value != "" then [t.value] + rest else rest
  }

  /** The texts keep result order: the texts of two runs of results are the
      first run's texts followed by the second's. */
  lemma {:induction false} SelectedConcat(a: seq<SearchItem>, b: seq<SearchItem>)
    ensures SelectedTexts(a + b) == SelectedTexts(a) + SelectedTexts(b)
    decreases |a|
  {
    if |a| == 0 {
      assert a + b == b;
    } else {
      assert (a + b)[0] == a[0];
      assert (a + b)[1..] == a[1..] + b;
      SelectedConcat(a[1..], b);
    }
  }

  /** One result contributes its text exactly when that text is non-empty. */
  lemma SelectedOne(item: SearchItem)
    ensures SelectedTexts([item]) ==
              (if ItemText(item).Some? && ItemText(item).value != "" then [ItemText(item).value] else [])
  {
    assert [item][1..] == [];
  }

  /** The `raw_content` of each result, in result order. */
  function RawContents(items: seq<SearchItem>): seq<string> {
    if |items| == 0 then []
    else [if items[0].rawContent.Content? then items[0].rawContent.text else ""] + RawContents(items[1..])
  }

  /** When every result has a non-empty `raw_content`, the texts are exactly
      those raw contents, in order: `content` is never consulted. */
  lemma {:induction false} RawContentPreferred(items: seq<SearchItem>)
    requires forall j :: 0 <= j < |items| ==> items[j].rawContent.Content? && items[j].rawContent.text != ""
    ensures SelectedTexts(items) == RawContents(items)
    decreases |items|
  {
    if |items| > 0 {
      assert forall j :: 0 <= j < |items[1..]| ==> items[1..][j] == items[j + 1];
      RawContentPreferred(items[1..]);
      assert ItemText(items[0]) == Some(items[0].rawContent.text);
    }
  }

  /** The context stored on success: the selected texts joined by newlines,
      cut into chunks by the splitter, and the chunks joined by newlines. */
  function Context(items: seq<SearchItem>, split: string -> seq<string>): string {
    Join(split(Join(SelectedTexts(items), '\n')), '\n')
  }

  /** `ingest_problem_context`. A falsy `problem_url` raises `ValueError`
      before the `try`, so it escapes the node. Inside the `try`, a missing
      API key, a failed search call and an empty reply each become an ERROR
      update. On success the node writes `problem_context` and sets the status
      to "FAIL". The node has no skip rule: it never inspects the status. */
  function IngestProblemContext(
    s: State,
    apiKey: Option<string>,
    search: Value -> Result<SearchReply, string>,
    split: string -> seq<string>): (r: Result<Update, Exception>)
    ensures r.Failure? <==> !Truthy(Get(s, ProblemUrl, Null))
    ensures r.Failure? ==> r.error == ValueError(MissingUrl)
    ensures r.Success? ==>
              || r.value == ErrorUpdate(ErrorPrefix, ValueError(MissingApiKey))
              || r.value == ErrorUpdate(ErrorPrefix, ValueError(NoResults))
              || (exists m :: r.value == ErrorUpdate(ErrorPrefix, ServiceError(m)))
              || (r.value.Keys == {ProblemContext, ExecutionStatus} && r.value[ExecutionStatus] == Str("FAIL"))
    ensures r.Success? && (apiKey.None? || apiKey.value == "") ==>
              r.value == ErrorUpdate(ErrorPrefix, ValueError(MissingApiKey))
    ensures r.Success? && apiKey.Some? && apiKey.value != "" ==>
              match search(s[ProblemUrl])
              case Failure(m) => r.value == ErrorUpdate(ErrorPrefix, ServiceError(m))
              case Success(reply) =>
                match UsableResults(reply)
                case None => r.value == ErrorUpdate(ErrorPrefix, ValueError(NoResults))
                case Some(items) =>
                  r.value == map[ProblemContext := Str(Context(items, split)), ExecutionStatus := Str("FAIL")]
  {
    var url := Get(s, ProblemUrl, Null);
    if !Truthy(url) then Failure(ValueError(MissingUrl))
    else if apiKey.None? || apiKey.value == "" then
      Success(ErrorUpdate(ErrorPrefix, ValueError(MissingApiKey)))
    else
      match search(url)
      case Failure(m) => Success(ErrorUpdate(ErrorPrefix, ServiceError(m)))
      case Success(reply) =>
        match UsableResults(reply)
        case None => Success(ErrorUpdate(ErrorPrefix, ValueError(NoResults)))
        case Some(items) =>
          Success(map[ProblemContext := Str(Context(items, split)), ExecutionStatus := Str("FAIL")])
  }

  /** With a splitter that returns the text as one chunk, and result texts free
      of newlines, the stored context splits back into exactly the selected
      texts: no text is lost, merged or reordered. */
  lemma ContextKeepsTexts(items: seq<SearchItem>, split: string -> seq<string>)
    requires split(Join(SelectedTexts(items), '\n')) == [Join(SelectedTexts(items), '\n')]
    requires |SelectedTexts(items)| > 0
    requires forall i :: 0 <= i < |SelectedTexts(items)| ==> '\n' !in SelectedTexts(items)[i]
    ensures Split(Context(items, split), '\n') == SelectedTexts(items)
  {
    SplitJoin(SelectedTexts(items), '\n');
  }
}
