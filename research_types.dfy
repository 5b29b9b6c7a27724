/**
 * Values shared by both research loops: search results and the ids the
 * orchestrator stamps on them, extracted facts, reflection outcomes, the
 * request handed to the answer writer, and the question-coverage helper.
 */
module ResearchTypes {

  datatype Option<+T> = None | Some(value: T) {
    /** `x ?? d` */
    function GetOr(default: T): T {
      if Some? then value else default
    }
  }

  /** JavaScript truthiness of an optional string: present and non-empty. */
  predicate Truthy(s: Option<string>) {
    s.Some? && s.value != ""
  }

  /** A search hit. `id` is overwritten by the orchestrator on ingestion. */
  datatype SearchResult = SearchResult(id: string, url: string, title: Option<string>, text: string)

  /** Condensed facts tied back to the search result they came from. */
  datatype ExtractedFact = ExtractedFact(sourceId: string, relevantFacts: seq<string>)

  /** What the reasoning collaborator reports after looking at one round's batch. */
  datatype Reflection = Reflection(
    isSufficient: bool,
    knowledgeGap: Option<string>,
    followUpQueries: Option<seq<string>>,
    answeredQuestions: seq<int>,
    unansweredQuestions: seq<int>,
    relevantSummaryIds: seq<string>)

  /** `{ url, title }` as put in the citation lookup map. */
  datatype SourceRef = SourceRef(url: string, title: Option<string>)

  /** `result.title || null`: a missing or empty title becomes null. */
  function TitleOrNull(title: Option<string>): (t: Option<string>)
    // models the single JavaScript operator `||` on a string
    ensures t.Some? <==> Truthy(title)
    ensures t.Some? ==> t == title
  {
    if Truthy(title) then title else None
  }

  /**
   * `new Map(results.map(r => [r.id, { url: r.url, title: r.title || null }]))`:
   * the constructor inserts left to right, so a later result with the same
   * id overwrites an earlier one.
   */
  function SourcesMap(results: seq<SearchResult>): (m: map<string, SourceRef>)
    ensures m.Keys == set r | r in results :: r.id
  {
    if results == [] then map[]
    else
      var last := results[|results| - 1];
      SourcesMap(results[..|results| - 1])[last.id := SourceRef(last.url, TitleOrNull(last.title))]
  }

  /** Every id of the accumulated results resolves to its LAST result's url and title. */
  lemma {:induction false} SourcesMapLastWins(results: seq<SearchResult>, i: nat)
    requires i < |results|
    requires forall j :: i < j < |results| ==> results[j].id != results[i].id
    ensures results[i].id in SourcesMap(results)
    ensures SourcesMap(results)[results[i].id] == SourceRef(results[i].url, TitleOrNull(results[i].title))
  {
    var n := |results|;
    if i < n - 1 {
      assert results[..n - 1][i] == results[i];
      SourcesMapLastWins(results[..n - 1], i);
    }
  }

  /** The two ways the answer writer is called. */
  datatype AnswerRequest =
    | FromFacts(facts: seq<ExtractedFact>, sources: map<string, SourceRef>)
    | FromResults(results: seq<SearchResult>)

  /**
   * The answer path: from facts (citations resolved through a map built
   * from all accumulated results) exactly when some fact was extracted,
   * otherwise from all accumulated results directly.
   */
  function AnswerFor(facts: seq<ExtractedFact>, results: seq<SearchResult>): (req: AnswerRequest)
    ensures req.FromFacts? <==> |facts| > 0
    ensures req.FromFacts? ==> req.facts == facts && req.sources.Keys == set r | r in results :: r.id
    ensures req.FromResults? ==> req.results == results
  {
    if |facts| > 0 then FromFacts(facts, SourcesMap(results)) else FromResults(results)
  }

  /**
   * `(await Promise.all(queries.map(search))).flat()`: the results of every
   * query of a round, in query order. `search(round, q)` is the search
   * provider's answer for query `q` in round `round`.
   */
  function SearchBatch(search: (int, string) -> seq<SearchResult>, round: int, queries: seq<string>): seq<SearchResult>
  {
    if queries == [] then []
    else SearchBatch(search, round, queries[..|queries| - 1]) + search(round, queries[|queries| - 1])
  }

  /** The batch after `result.id = nanoid(4)`; `nanoid(round, k)` is the id drawn for the k-th result. */
  function Stamped(batch: seq<SearchResult>, nanoid: (int, nat) -> string, round: int): (r: seq<SearchResult>)
    ensures |r| == |batch|
    ensures forall k :: 0 <= k < |r| ==> r[k] == batch[k].(id := nanoid(round, k))
  {
    seq(|batch|, k requires 0 <= k < |batch| => batch[k].(id := nanoid(round, k)))
  }

  /** `batch.filter(r => ids.includes(r.id))` */
  function Relevant(batch: seq<SearchResult>, ids: seq<string>): (r: seq<SearchResult>)
    ensures |r| <= |batch|
    ensures forall x :: x in r <==> x in batch && x.id in ids
  {
    if batch == [] then []
    else (if batch[0].id in ids then [batch[0]] else []) + Relevant(batch[1..], ids)
  }

  /** `Relevant` keeps a single result exactly when its id was reported. */
  lemma RelevantSingle(x: SearchResult, ids: seq<string>)
    ensures Relevant([x], ids) == if x.id in ids then [x] else []
  {
    assert [x][1..] == [];
  }

  /** `Relevant` is a filter that keeps batch order: a split batch is filtered part by part. */
  lemma {:induction false} RelevantSplit(a: seq<SearchResult>, b: seq<SearchResult>, ids: seq<string>)
    ensures Relevant(a + b, ids) == Relevant(a, ids) + Relevant(b, ids)
  {
    if a == [] {
      assert a + b == b;
    } else {
      assert (a + b)[0] == a[0] && (a + b)[1..] == a[1..] + b;
      RelevantSplit(a[1..], b, ids);
      var head := if a[0].id in ids then [a[0]] else [];
      assert Relevant(a + b, ids) == head + (Relevant(a[1..], ids) + Relevant(b, ids));
    }
  }

  function ToSet(s: seq<int>): set<int> {
    set x | x in s
  }

  /**
   * `plan.map((_, i) => i).filter(i => !answered.has(i))` restricted to the
   * indices from `lo`: the plan indices in `[lo, n)` not yet answered, ascending.
   */
  function UnansweredFrom(lo: int, n: int, answered: set<int>): (r: seq<int>)
    requires 0 <= lo
    decreases n - lo
    ensures forall x :: x in r <==> lo <= x < n && x !in answered
    ensures forall i, j :: 0 <= i < j < |r| ==> r[i] < r[j]
  {
    if lo >= n then []
    else if lo in answered then UnansweredFrom(lo + 1, n, answered)
    else
      var rest := UnansweredFrom(lo + 1, n, answered);
      assert forall j :: 0 <= j < |rest| ==> rest[j] in rest;
      [lo] + rest
  }

  /** The unanswered list of a plan with `n` questions. */
  function Unanswered(n: int, answered: set<int>): (r: seq<int>)
    ensures forall x :: x in r <==> 0 <= x < n && x !in answered
    ensures forall i, j :: 0 <= i < j < |r| ==> r[i] < r[j]
  {
    UnansweredFrom(0, n, answered)
  }

  /** `queryPlan.map((_, i) => i)`: every plan index, ascending. */
  lemma AllIndices(n: nat)
    ensures |Unanswered(n, {})| == n
    ensures forall i :: 0 <= i < n ==> Unanswered(n, {})[i] == i
  {
    AllIndicesFrom(0, n);
  }

  lemma {:induction false} AllIndicesFrom(lo: nat, n: nat)
    requires lo <= n
    decreases n - lo
    ensures |UnansweredFrom(lo, n, {})| == n - lo
    ensures forall i :: 0 <= i < n - lo ==> UnansweredFrom(lo, n, {})[i] == lo + i
  {
    if lo < n {
      AllIndicesFrom(lo + 1, n);
    }
  }
}
