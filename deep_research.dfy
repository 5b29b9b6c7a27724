/**
 * The ledger variant of the research loop (`deepResearch`): one session
 * searches, reflects, analyses knowledge gaps, extracts facts and either
 * answers or generates follow-up queries, round after round.
 *
 * Every collaborator (query generation, search, id generation, the
 * reasoning calls) is an oracle: a field of `Collaborators`. Each round
 * reports the calls it made, in order, so that "this collaborator was not
 * called" and "it was called with these arguments" can be stated.
 */
module DeepResearch {
  import opened ResearchTypes

  /** The event payload: `research_topic`, `current_date` and the optional round budget. */
  datatype Invocation = Invocation(researchTopic: Option<string>, currentDate: Option<string>, maxRounds: Option<int>)

  /** `data.research_topic && data.current_date` */
  function IsDeepResearchQuery(data: Invocation): (valid: bool)
    // models the single JavaScript operator `&&` over two strings' truthiness
    // both fields must be present and non-empty strings
    ensures valid <==> data.researchTopic.Some? && data.currentDate.Some?
                       && |data.researchTopic.value| > 0 && |data.currentDate.value| > 0
  {
    Truthy(data.researchTopic) && Truthy(data.currentDate)
  }

  /** `event.data.maxRounds ?? 10` */
  function MaxRoundsOf(data: Invocation): (rounds: int)
    // models the single JavaScript operator `??`
    // only a missing budget falls back to 10; any given budget, even 0 or negative, is kept
    ensures data.maxRounds.None? ==> rounds == 10
    ensures data.maxRounds.Some? ==> rounds == data.maxRounds.value
  {
    data.maxRounds.GetOr(10)
  }

  datatype SearchQueryList = SearchQueryList(query: seq<string>, rationale: string, queryPlan: seq<string>)

  /** The status a gap carries inside the ledger, as reported by gap analysis. */
  datatype ReportedGapStatus = NewGap | ActiveGap | ResolvedGap | AbandonedGap

  datatype KnowledgeGap = KnowledgeGap(
    description: string,
    status: ReportedGapStatus,
    attemptCount: int,
    previousQueries: seq<string>,
    relatedQuestionIds: seq<int>)

  /** How gap analysis relates the next gap to the current one. */
  datatype GapStatus = New | Continuing | Switching | Complete

  datatype KnowledgeGapAnalysis = KnowledgeGapAnalysis(
    updatedGapHistory: seq<KnowledgeGap>,
    shouldContinueResearch: bool,
    nextGapToResearch: Option<string>,
    gapStatus: GapStatus,
    reasoning: string)

  datatype FollowUpQueryGeneration = FollowUpQueryGeneration(queries: seq<string>, queryStrategy: string, rationale: string)

  /** Arguments of `b.Reflect` that vary (topic, date and plan are fixed per session). */
  datatype ReflectRequest = ReflectRequest(
    batch: seq<SearchResult>,
    answered: seq<int>,
    unanswered: seq<int>,
    currentGap: Option<string>,
    round: int,
    maxRounds: int)

  datatype GapAnalysisRequest = GapAnalysisRequest(gaps: seq<KnowledgeGap>, currentGapIndex: int, reflection: Reflection, round: int)

  datatype FollowUpRequest = FollowUpRequest(
    targetGap: string,
    previousQueries: seq<string>,
    reflection: Reflection,
    round: int,
    unanswered: seq<int>)

  /** One call to a collaborator. */
  datatype Call =
    | GenerateQuery(topic: string, date: string)
    | Search(query: string)
    | Reflect(reflectRequest: ReflectRequest)
    | AnalyzeKnowledgeGaps(gapRequest: GapAnalysisRequest)
    | ExtractRelevantFacts(sources: seq<SearchResult>, factReflection: Reflection)
    | GenerateFollowUpQueries(followUpRequest: FollowUpRequest)
    | CreateAnswer(answerRequest: AnswerRequest)

  /**
   * The collaborators' answers. `search` and `nanoid` also receive the round
   * number, so that they may answer differently in different rounds.
   */
  datatype Collaborators = Collaborators(
    generateQuery: (string, string) -> SearchQueryList,
    search: (int, string) -> seq<SearchResult>,
    nanoid: (int, nat) -> string,
    reflect: ReflectRequest -> Option<Reflection>,
    analyzeKnowledgeGaps: GapAnalysisRequest -> KnowledgeGapAnalysis,
    extractRelevantFacts: (seq<SearchResult>, Reflection) -> seq<ExtractedFact>,
    generateFollowUpQueries: FollowUpRequest -> FollowUpQueryGeneration)

  datatype SessionError = InvalidInvocation | ReflectionNull

  datatype SessionOutcome =
    | NoAnswer                      // the function returns undefined
    | Answered(request: AnswerRequest)
    | Failed(error: SessionError)   // NonRetriableError

  datatype RoundOutcome = Continue | Finished(result: SessionOutcome)

  /** What a whole session did: its outcome, the rounds run and every call. */
  datatype Report = Report(outcome: SessionOutcome, rounds: nat, calls: seq<Call>)

  /** The follow-up target used when gap analysis names no gap. */
  const FallbackTarget: string := "Continue research based on unanswered questions"

  /** The Search calls of a round; each loop variant has its own `Call` type, so each declares this. */
  function Searches(queries: seq<string>): (calls: seq<Call>)
    ensures |calls| == |queries|
    ensures forall j :: 0 <= j < |calls| ==> calls[j] == Search(queries[j])
  {
    seq(|queries|, j requires 0 <= j < |queries| => Search(queries[j]))
  }

  predicate NoDuplicates(s: seq<int>)
  {
    forall i, j :: 0 <= i < j < |s| ==> s[i] != s[j]
  }

  /**
   * What adding `xs` one by one to a JavaScript Set holding `present` appends
   * to its iteration order: each index not yet present, at its first occurrence.
   */
  function FreshInOrder(present: seq<int>, xs: seq<int>): (added: seq<int>)
    decreases |xs|
    ensures forall x :: x in added <==> x in xs && x !in present
  {
    if xs == [] then []
    else if xs[0] in present then FreshInOrder(present, xs[1..])
    else [xs[0]] + FreshInOrder(present + [xs[0]], xs[1..])
  }

  /** Adding to a Set never creates a duplicate: the appended indices are new and distinct. */
  lemma {:induction false} FreshNoDuplicates(present: seq<int>, xs: seq<int>)
    requires NoDuplicates(present)
    ensures NoDuplicates(present + FreshInOrder(present, xs))
    decreases |xs|
  {
    if xs != [] && xs[0] in present {
      FreshNoDuplicates(present, xs[1..]);
    } else if xs != [] {
      var grown := present + [xs[0]];
      FreshNoDuplicates(grown, xs[1..]);
      assert present + FreshInOrder(present, xs) == grown + FreshInOrder(grown, xs[1..]);
    }
  }

  /** Repeats and already-present indices add nothing; the rest keep their first-report order. */
  lemma FreshInOrderExample()
    ensures FreshInOrder([], [2, 1, 2]) == [2, 1]
    ensures FreshInOrder([1], [2, 1, 3]) == [2, 3]
  {
    assert [2, 1, 2][1..] == [1, 2] && [1, 2][1..] == [2];
    assert [2, 1, 3][1..] == [1, 3] && [1, 3][1..] == [3];
  }

  /** As a set, the Set after the additions is the union. */
  lemma FreshUnion(present: seq<int>, xs: seq<int>)
    ensures ToSet(present + FreshInOrder(present, xs)) == ToSet(present) + ToSet(xs)
  {
    var added := FreshInOrder(present, xs);
    forall x | x in ToSet(present) + ToSet(xs) ensures x in ToSet(present + added) {
      if x !in present {
        assert x in added;
      }
    }
  }

  /** Index search over the ledger from position `from`. */
  function FindGapFrom(gaps: seq<KnowledgeGap>, target: string, from: nat): (k: int)
    requires from <= |gaps|
    decreases |gaps| - from
    ensures k == -1 || from <= k < |gaps|
    ensures k == -1 <==> forall i :: from <= i < |gaps| ==> gaps[i].description != target
    ensures k != -1 ==> gaps[k].description == target && forall i :: from <= i < k ==> gaps[i].description != target
  {
    if from == |gaps| then -1
    else if gaps[from].description == target then from
    else FindGapFrom(gaps, target, from + 1)
  }

  /** `gaps.findIndex(g => g.description === target)`; a null target matches no gap. */
  function FindGapIndex(gaps: seq<KnowledgeGap>, target: Option<string>): (k: int)
    ensures -1 <= k < |gaps|
    ensures k == -1 <==> target.None? || forall i :: 0 <= i < |gaps| ==> gaps[i].description != target.value
    ensures k != -1 ==> gaps[k].description == target.value && forall i :: 0 <= i < k ==> gaps[i].description != target.value
  {
    if target.None? then -1 else FindGapFrom(gaps, target.value, 0)
  }

  /**
   * `getCurrentGapPreviousQueries`: nothing for a null or empty target or
   * when no gap matches, otherwise the first matching gap's previous queries.
   */
  function GetCurrentGapPreviousQueries(gaps: seq<KnowledgeGap>, target: Option<string>): (qs: seq<string>)
    ensures !Truthy(target) ==> qs == []
    ensures Truthy(target) && (forall i :: 0 <= i < |gaps| ==> gaps[i].description != target.value) ==> qs == []
    ensures Truthy(target) && (exists i :: 0 <= i < |gaps| && gaps[i].description == target.value) ==>
      exists k :: 0 <= k < |gaps| && gaps[k].description == target.value
        && (forall i :: 0 <= i < k ==> gaps[i].description != target.value)
        && qs == gaps[k].previousQueries
  {
    if !Truthy(target) then []
    else
      var k := FindGapIndex(gaps, target);
      if k == -1 then [] else gaps[k].previousQueries
  }

  /** The gap description handed to Reflect: null unless the index points into the ledger. */
  function CurrentGapDescription(gaps: seq<KnowledgeGap>, index: int): (d: Option<string>)
    // models one JavaScript expression: `index >= 0 ? (gaps[index]?.description ?? null) : null`
    ensures d.Some? <==> 0 <= index < |gaps|
    ensures d.Some? ==> d.value == gaps[index].description
  {
    if 0 <= index < |gaps| then Some(gaps[index].description) else None
  }

  /** A Reflect call as the loop makes it: the unanswered list complements the answered one, and the round is not the last. */
  predicate WellFormedReflect(request: ReflectRequest, planLength: int, originalMaxRounds: int)
  {
    && request.unanswered == Unanswered(planLength, ToSet(request.answered))
    && request.maxRounds == originalMaxRounds
    && 1 <= request.round < originalMaxRounds
  }

  predicate ReflectCallsWellFormed(calls: seq<Call>, planLength: int, originalMaxRounds: int)
  {
    forall k :: 0 <= k < |calls| && calls[k].Reflect? ==> WellFormedReflect(calls[k].reflectRequest, planLength, originalMaxRounds)
  }

  lemma WellFormedConcat(a: seq<Call>, b: seq<Call>, planLength: int, originalMaxRounds: int)
    requires ReflectCallsWellFormed(a, planLength, originalMaxRounds)
    requires NoReflectCall(b) || ReflectCallsWellFormed(b, planLength, originalMaxRounds)
    ensures ReflectCallsWellFormed(a + b, planLength, originalMaxRounds)
  {
    forall k | 0 <= k < |a + b| && (a + b)[k].Reflect?
      ensures WellFormedReflect((a + b)[k].reflectRequest, planLength, originalMaxRounds)
    {
      if k >= |a| {
        assert (a + b)[k] == b[k - |a|];
      }
    }
  }

  predicate NoReflectCall(calls: seq<Call>)
  {
    forall k :: 0 <= k < |calls| ==> !calls[k].Reflect?
  }

  lemma NoReflectConcat(a: seq<Call>, b: seq<Call>, last: Call)
    requires NoReflectCall(a) && NoReflectCall(b) && !last.Reflect?
    ensures NoReflectCall(a + b + [last])
  {
  }

  /** The part of the session state that one round's reflection acts on. */
  datatype Ledger = Ledger(
    answered: seq<int>,
    facts: seq<ExtractedFact>,
    gaps: seq<KnowledgeGap>,
    gapIndex: int,
    queries: seq<string>,
    round: int)

  /**
   * What happens after a non-null reflection, from `before` to `after`:
   * the reported indices not yet answered are appended, in order of first report; gap analysis runs
   * exactly when the reflection is insufficient and replaces the ledger;
   * facts are extracted exactly when relevant ids were reported, from the
   * relevant part of this batch, and appended; then the session answers,
   * or asks for follow-up queries, moves the gap pointer and starts the
   * next round.
   */
  predicate Digested(c: Collaborators, batch: seq<SearchResult>, reflection: Reflection, planLength: int,
                     before: Ledger, after: Ledger, allResults: seq<SearchResult>, outcome: RoundOutcome, calls: seq<Call>)
  {
    var gapRequest := GapAnalysisRequest(before.gaps, before.gapIndex, reflection, before.round);
    var analysis := c.analyzeKnowledgeGaps(gapRequest);
    var ids := reflection.relevantSummaryIds;
    var sources := Relevant(batch, ids);
    var stop := reflection.isSufficient || !analysis.shouldContinueResearch;
    var next := analysis.nextGapToResearch;
    var followUpRequest := FollowUpRequest(next.GetOr(FallbackTarget), GetCurrentGapPreviousQueries(after.gaps, next),
                                           reflection, before.round, Unanswered(planLength, ToSet(after.answered)));
    && after.answered == before.answered + FreshInOrder(before.answered, reflection.answeredQuestions)
    && after.facts == before.facts + (if |ids| > 0 then c.extractRelevantFacts(sources, reflection) else [])
    && after.gaps == (if reflection.isSufficient then before.gaps else analysis.updatedGapHistory)
    && calls == (if reflection.isSufficient then [] else [AnalyzeKnowledgeGaps(gapRequest)])
                + (if |ids| > 0 then [ExtractRelevantFacts(sources, reflection)] else [])
                + [if stop then CreateAnswer(AnswerFor(after.facts, allResults))
                   else GenerateFollowUpQueries(followUpRequest)]
    && (stop ==>
          && outcome == Finished(Answered(AnswerFor(after.facts, allResults)))
          && after.queries == before.queries && after.round == before.round
          && after.gapIndex == before.gapIndex)
    && (!stop ==>
          && outcome == Continue
          && after.queries == c.generateFollowUpQueries(followUpRequest).queries
          && after.round == before.round + 1
          && after.gapIndex == (if analysis.gapStatus == New || analysis.gapStatus == Switching
                                then FindGapIndex(after.gaps, next) else before.gapIndex))
  }

  /** The Reflect call a round makes: this batch, the answered list, its complement and the current gap. */
  function ReflectRequestOf(batch: seq<SearchResult>, planLength: int, originalMaxRounds: int, state: Ledger): ReflectRequest
  {
    ReflectRequest(batch, state.answered, Unanswered(planLength, ToSet(state.answered)),
                   CurrentGapDescription(state.gaps, state.gapIndex), state.round, originalMaxRounds)
  }

  /**
   * The reflect phase of a round that is not the last, from `before` to
   * `after`: Reflect is called first; a null reflection fails the session
   * and changes nothing; any other reflection is digested.
   */
  predicate Reflected(c: Collaborators, batch: seq<SearchResult>, planLength: int, originalMaxRounds: int,
                      before: Ledger, after: Ledger, allResults: seq<SearchResult>, outcome: RoundOutcome, calls: seq<Call>)
  {
    var request := ReflectRequestOf(batch, planLength, originalMaxRounds, before);
    && |calls| >= 1 && calls[0] == Reflect(request)
    && (c.reflect(request).None? ==>
          outcome == Finished(Failed(ReflectionNull)) && calls == [Reflect(request)] && after == before)
    && (c.reflect(request).Some? ==>
          Digested(c, batch, c.reflect(request).value, planLength, before, after, allResults, outcome, calls[1..]))
  }

  /** The calls of a digest: gap analysis, fact extraction, then one answer or follow-up call. */
  lemma DigestCalls(c: Collaborators, batch: seq<SearchResult>, reflection: Reflection, planLength: int,
                    before: Ledger, after: Ledger, allResults: seq<SearchResult>, outcome: RoundOutcome, calls: seq<Call>)
    requires Digested(c, batch, reflection, planLength, before, after, allResults, outcome, calls)
    ensures 1 <= |calls| <= 3
    ensures calls[|calls| - 1].CreateAnswer? <==> outcome.Finished?
    ensures calls[|calls| - 1].GenerateFollowUpQueries? <==> outcome.Continue?
    ensures forall k :: 0 <= k < |calls| - 1 ==> calls[k].AnalyzeKnowledgeGaps? || calls[k].ExtractRelevantFacts?
  {
  }

  /** Gap analysis is called exactly when the reflection is insufficient, and then first. */
  lemma {:induction false} GapAnalysisOnlyWhenInsufficient(c: Collaborators, batch: seq<SearchResult>, reflection: Reflection, planLength: int,
                    before: Ledger, after: Ledger, allResults: seq<SearchResult>, outcome: RoundOutcome, calls: seq<Call>)
    requires Digested(c, batch, reflection, planLength, before, after, allResults, outcome, calls)
    ensures (exists k :: 0 <= k < |calls| && calls[k].AnalyzeKnowledgeGaps?) <==> !reflection.isSufficient
    ensures !reflection.isSufficient ==>
      calls[0] == AnalyzeKnowledgeGaps(GapAnalysisRequest(before.gaps, before.gapIndex, reflection, before.round))
  {
    DigestCalls(c, batch, reflection, planLength, before, after, allResults, outcome, calls);
    if reflection.isSufficient {
      forall k | 0 <= k < |calls| ensures !calls[k].AnalyzeKnowledgeGaps? {
        if k < |calls| - 1 {
          assert calls[k].ExtractRelevantFacts?;
        }
      }
    } else {
      assert calls[0].AnalyzeKnowledgeGaps?;
    }
  }

  /**
   * Fact extraction is called exactly when relevant ids were reported, over
   * the results of this batch whose id is among them, and what it returns
   * is appended to the facts.
   */
  lemma {:induction false} ExtractionOnlyOverRelevant(c: Collaborators, batch: seq<SearchResult>, reflection: Reflection, planLength: int,
                    before: Ledger, after: Ledger, allResults: seq<SearchResult>, outcome: RoundOutcome, calls: seq<Call>)
    requires Digested(c, batch, reflection, planLength, before, after, allResults, outcome, calls)
    ensures (exists k :: 0 <= k < |calls| && calls[k].ExtractRelevantFacts?) <==> |reflection.relevantSummaryIds| > 0
    ensures forall k :: 0 <= k < |calls| && calls[k].ExtractRelevantFacts? ==>
      && calls[k].factReflection == reflection
      && (forall x :: x in calls[k].sources <==> x in batch && x.id in reflection.relevantSummaryIds)
      && after.facts == before.facts + c.extractRelevantFacts(calls[k].sources, reflection)
    ensures |reflection.relevantSummaryIds| == 0 ==> after.facts == before.facts
  {
    DigestCalls(c, batch, reflection, planLength, before, after, allResults, outcome, calls);
    var ids := reflection.relevantSummaryIds;
    var extract := ExtractRelevantFacts(Relevant(batch, ids), reflection);
    var gapCalls := if reflection.isSufficient then [] else
      [AnalyzeKnowledgeGaps(GapAnalysisRequest(before.gaps, before.gapIndex, reflection, before.round))];
    forall k | 0 <= k < |calls| && calls[k].ExtractRelevantFacts? ensures calls[k] == extract {
      assert k == |gapCalls|;
    }
    if |ids| > 0 {
      assert calls[|gapCalls|] == extract;
    }
  }

  /**
   * Over a round that reflected, the answered set only grows, by exactly the
   * reported indices, and so the unanswered list only loses entries.
   */
  lemma AnsweredOnlyGrows(c: Collaborators, batch: seq<SearchResult>, planLength: int, originalMaxRounds: int,
                          before: Ledger, after: Ledger, allResults: seq<SearchResult>, outcome: RoundOutcome, calls: seq<Call>)
    requires Reflected(c, batch, planLength, originalMaxRounds, before, after, allResults, outcome, calls)
    ensures ToSet(before.answered) <= ToSet(after.answered)
    ensures var request := ReflectRequestOf(batch, planLength, originalMaxRounds, before);
      c.reflect(request).Some? ==>
        ToSet(after.answered) == ToSet(before.answered) + ToSet(c.reflect(request).value.answeredQuestions)
    ensures forall x :: x in Unanswered(planLength, ToSet(after.answered)) ==> x in Unanswered(planLength, ToSet(before.answered))
  {
    var request := ReflectRequestOf(batch, planLength, originalMaxRounds, before);
    if c.reflect(request).Some? {
      FreshUnion(before.answered, c.reflect(request).value.answeredQuestions);
    }
  }

  /** A round reflects once: its Reflect call is the first call, and no other call is a Reflect. */
  lemma {:induction false} OneReflectPerRound(c: Collaborators, batch: seq<SearchResult>, planLength: int, originalMaxRounds: int,
                          before: Ledger, after: Ledger, allResults: seq<SearchResult>, outcome: RoundOutcome, calls: seq<Call>)
    requires Reflected(c, batch, planLength, originalMaxRounds, before, after, allResults, outcome, calls)
    ensures calls[0].Reflect?
    ensures forall k :: 1 <= k < |calls| ==> !calls[k].Reflect?
  {
    var request := ReflectRequestOf(batch, planLength, originalMaxRounds, before);
    if c.reflect(request).Some? {
      var rest := calls[1..];
      DigestCalls(c, batch, c.reflect(request).value, planLength, before, after, allResults, outcome, rest);
      forall k | 1 <= k < |calls| ensures !calls[k].Reflect? {
        assert calls[k] == rest[k - 1];
      }
    }
  }

  /**
   * The gap pointer moves only when gap analysis reports a new or switched
   * gap, and then to the first gap with the reported description, or to -1.
   */
  lemma GapPointerRule(c: Collaborators, batch: seq<SearchResult>, reflection: Reflection, planLength: int,
                       before: Ledger, after: Ledger, allResults: seq<SearchResult>, outcome: RoundOutcome, calls: seq<Call>)
    requires Digested(c, batch, reflection, planLength, before, after, allResults, outcome, calls)
    ensures var analysis := c.analyzeKnowledgeGaps(GapAnalysisRequest(before.gaps, before.gapIndex, reflection, before.round));
      && (after.gapIndex != before.gapIndex ==>
            outcome == Continue && !reflection.isSufficient && (analysis.gapStatus == New || analysis.gapStatus == Switching))
      && (after.gapIndex != before.gapIndex && after.gapIndex != -1 ==>
            after.gaps == analysis.updatedGapHistory && 0 <= after.gapIndex < |after.gaps|
            && Some(after.gaps[after.gapIndex].description) == analysis.nextGapToResearch)
  {
  }

  /** The session state that `deepResearch` keeps in local variables. */
  class Session {
    const queryPlan: seq<string>
    const originalMaxRounds: int
    var maxRounds: int
    var currentRound: int
    var queries: seq<string>
    var allSearchResults: seq<SearchResult>
    var extractedFacts: seq<ExtractedFact>
    /** A JavaScript Set: insertion order, no duplicates. */
    var answeredQuestions: seq<int>
    /** `knowledgeGapHistory.gaps` and `knowledgeGapHistory.currentGapIndex` */
    var gaps: seq<KnowledgeGap>
    var currentGapIndex: int

    ghost predicate Valid()
      reads this`currentRound, this`currentGapIndex, this`answeredQuestions
    {
      && currentRound >= 1
      && currentGapIndex >= -1
      && NoDuplicates(answeredQuestions)
    }

    /** The round bookkeeping at every loop head. */
    predicate AtLoopHead()
      reads this`currentRound, this`maxRounds
    {
      currentRound + maxRounds == originalMaxRounds + 1
    }

    function AnsweredSet(): set<int>
      reads this`answeredQuestions
    {
      ToSet(answeredQuestions)
    }

    /** `getUnansweredQuestions()` */
    function UnansweredQuestions(): seq<int>
      reads this`answeredQuestions
    {
      Unanswered(|queryPlan|, AnsweredSet())
    }

    /** This round's batch, ids assigned. */
    function Batch(c: Collaborators): seq<SearchResult>
      reads this`queries, this`currentRound
    {
      Stamped(SearchBatch(c.search, currentRound, queries), c.nanoid, currentRound)
    }

    function Snapshot(): Ledger
      reads this`answeredQuestions, this`extractedFacts, this`gaps, this`currentGapIndex, this`queries, this`currentRound
    {
      Ledger(answeredQuestions, extractedFacts, gaps, currentGapIndex, queries, currentRound)
    }

    /** The state right after the initial queries were generated. */
    constructor (plan: seq<string>, initialQueries: seq<string>, rounds: int)
      ensures Valid() && AtLoopHead()
      ensures queryPlan == plan && queries == initialQueries
      ensures originalMaxRounds == rounds && maxRounds == rounds && currentRound == 1
      ensures allSearchResults == [] && extractedFacts == [] && answeredQuestions == []
      ensures gaps == [] && currentGapIndex == -1
    {
      queryPlan := plan;
      originalMaxRounds := rounds;
      maxRounds := rounds;
      currentRound := 1;
      queries := initialQueries;
      allSearchResults := [];
      extractedFacts := [];
      answeredQuestions := [];
      gaps := [];
      currentGapIndex := -1;
    }

    /** Runs every query of the round and appends the results, with fresh ids, to the history. */
    method Ingest(c: Collaborators) returns (batch: seq<SearchResult>, calls: seq<Call>)
      modifies this`allSearchResults
      ensures batch == Batch(c)
      ensures calls == Searches(queries)
      ensures allSearchResults == old(allSearchResults) + batch
    {
      var found: seq<SearchResult> := [];
      calls := [];
      for j := 0 to |queries|
        invariant found == SearchBatch(c.search, currentRound, queries[..j])
        invariant calls == Searches(queries[..j])
      {
        assert queries[..j + 1][..j] == queries[..j];
        calls := calls + [Search(queries[j])];
        found := found + c.search(currentRound, queries[j]);
      }
      assert queries[..|queries|] == queries;
      batch := [];
      for k := 0 to |found|
        invariant batch == Stamped(found, c.nanoid, currentRound)[..k]
        invariant allSearchResults == old(allSearchResults) + batch
      {
        var result := found[k].(id := c.nanoid(currentRound, k));
        batch := batch + [result];
        allSearchResults := allSearchResults + [result];
      }
    }

    /** `for (const i of indices) answeredQuestions.add(i)` */
    method MarkAnswered(indices: seq<int>)
      requires NoDuplicates(answeredQuestions)
      modifies this`answeredQuestions
      ensures answeredQuestions == old(answeredQuestions) + FreshInOrder(old(answeredQuestions), indices)
      ensures NoDuplicates(answeredQuestions)
      ensures AnsweredSet() == old(AnsweredSet()) + ToSet(indices)
      ensures |answeredQuestions| >= |old(answeredQuestions)|
      ensures answeredQuestions[..|old(answeredQuestions)|] == old(answeredQuestions)
    {
      for j := 0 to |indices|
        invariant answeredQuestions + FreshInOrder(answeredQuestions, indices[j..])
               == old(answeredQuestions) + FreshInOrder(old(answeredQuestions), indices)
      {
        var rest := indices[j + 1..];
        assert indices[j..] == [indices[j]] + rest;
        if indices[j] !in answeredQuestions {
          assert answeredQuestions + FreshInOrder(answeredQuestions, indices[j..])
              == (answeredQuestions + [indices[j]]) + FreshInOrder(answeredQuestions + [indices[j]], rest);
          answeredQuestions := answeredQuestions + [indices[j]];
        }
      }
      assert indices[|indices|..] == [];
      FreshNoDuplicates(old(answeredQuestions), indices);
      FreshUnion(old(answeredQuestions), indices);
    }

    /** Everything in a round after a non-null reflection. */
    method Digest(c: Collaborators, batch: seq<SearchResult>, reflection: Reflection) returns (outcome: RoundOutcome, calls: seq<Call>)
      requires Valid()
      modifies this`answeredQuestions, this`extractedFacts, this`gaps, this`currentGapIndex, this`queries, this`currentRound
      ensures Valid()
      ensures Digested(c, batch, reflection, |queryPlan|, old(Snapshot()), Snapshot(), allSearchResults, outcome, calls)
      ensures NoReflectCall(calls)
      ensures outcome.Continue? ==> currentRound == old(currentRound) + 1
      ensures outcome.Finished? ==> currentRound == old(currentRound) && outcome.result.Answered?
    {
      MarkAnswered(reflection.answeredQuestions);

      // The fork-join: gap analysis and fact extraction, each under its own condition.
      var analysis: Option<KnowledgeGapAnalysis> := None;
      var gapCalls: seq<Call> := [];
      if !reflection.isSufficient {
        var gapRequest := GapAnalysisRequest(gaps, currentGapIndex, reflection, currentRound);
        gapCalls := [AnalyzeKnowledgeGaps(gapRequest)];
        analysis := Some(c.analyzeKnowledgeGaps(gapRequest));
      }
      var newFacts: seq<ExtractedFact> := [];
      var factCalls: seq<Call> := [];
      if |reflection.relevantSummaryIds| > 0 {
        var sources := Relevant(batch, reflection.relevantSummaryIds);
        factCalls := [ExtractRelevantFacts(sources, reflection)];
        newFacts := c.extractRelevantFacts(sources, reflection);
      }
      var facts := extractedFacts + newFacts;
      var ledger := if analysis.Some? then analysis.value.updatedGapHistory else gaps;
      extractedFacts, gaps := facts, ledger;

      if reflection.isSufficient || analysis.None? || !analysis.value.shouldContinueResearch {
        var request := AnswerFor(facts, allSearchResults);
        NoReflectConcat(gapCalls, factCalls, CreateAnswer(request));
        calls := gapCalls + factCalls + [CreateAnswer(request)];
        outcome := Finished(Answered(request));
        return;
      }

      var next := analysis.value.nextGapToResearch;
      var followUpRequest := FollowUpRequest(next.GetOr(FallbackTarget), GetCurrentGapPreviousQueries(ledger, next),
                                             reflection, currentRound, UnansweredQuestions());
      NoReflectConcat(gapCalls, factCalls, GenerateFollowUpQueries(followUpRequest));
      calls := gapCalls + factCalls + [GenerateFollowUpQueries(followUpRequest)];
      var followUps := c.generateFollowUpQueries(followUpRequest);
      var gapIndex := if analysis.value.gapStatus == New || analysis.value.gapStatus == Switching
                      then FindGapIndex(ledger, next) else currentGapIndex;
      currentGapIndex, queries, currentRound := gapIndex, followUps.queries, currentRound + 1;
      outcome := Continue;
    }

    /** Reflect on this round's batch, then digest the reflection. */
    method ReflectOnBatch(c: Collaborators, batch: seq<SearchResult>) returns (outcome: RoundOutcome, calls: seq<Call>)
      requires Valid() && currentRound < originalMaxRounds
      modifies this`answeredQuestions, this`extractedFacts, this`gaps, this`currentGapIndex, this`queries, this`currentRound
      ensures Valid()
      ensures Reflected(c, batch, |queryPlan|, originalMaxRounds, old(Snapshot()), Snapshot(), allSearchResults, outcome, calls)
      ensures ReflectCallsWellFormed(calls, |queryPlan|, originalMaxRounds)
      ensures outcome.Continue? ==> currentRound == old(currentRound) + 1
      ensures outcome.Finished? ==> currentRound == old(currentRound)
      ensures outcome.Finished? ==> outcome.result.Answered? || outcome.result == Failed(ReflectionNull)
    {
      var reflectRequest := ReflectRequest(batch, answeredQuestions, UnansweredQuestions(),
                                           CurrentGapDescription(gaps, currentGapIndex), currentRound, originalMaxRounds);
      assert reflectRequest == ReflectRequestOf(batch, |queryPlan|, originalMaxRounds, Snapshot());
      assert WellFormedReflect(reflectRequest, |queryPlan|, originalMaxRounds);
      calls := [Reflect(reflectRequest)];
      var reply := c.reflect(reflectRequest);
      if reply.None? {
        outcome := Finished(Failed(ReflectionNull));
        return;
      }
      var rest;
      outcome, rest := Digest(c, batch, reply.value);
      WellFormedConcat(calls, rest, |queryPlan|, originalMaxRounds);
      calls := calls + rest;
      assert calls[1..] == rest;
    }

    /** One iteration of the `while (maxRounds > 0)` loop. */
    method Round(c: Collaborators) returns (outcome: RoundOutcome, calls: seq<Call>)
      requires Valid() && AtLoopHead() && maxRounds > 0
      modifies this
      ensures Valid()
      ensures maxRounds == old(maxRounds) - 1
      ensures outcome.Continue? ==> AtLoopHead() && maxRounds > 0
      ensures outcome.Finished? ==> currentRound + maxRounds == originalMaxRounds
      ensures outcome.Finished? ==> outcome.result.Answered? || outcome.result == Failed(ReflectionNull)
      ensures allSearchResults == old(allSearchResults) + old(Batch(c))
      ensures ReflectCallsWellFormed(calls, |queryPlan|, originalMaxRounds)
      ensures |calls| > |old(queries)| && calls[..|old(queries)|] == Searches(old(queries))
      // Out of rounds: answer at once, without reflecting.
      ensures maxRounds == 0 ==>
        && outcome == Finished(Answered(AnswerFor(extractedFacts, allSearchResults)))
        && calls == Searches(old(queries)) + [CreateAnswer(AnswerFor(extractedFacts, allSearchResults))]
        && Snapshot() == old(Snapshot())
      // Otherwise reflect on this round's batch.
      ensures maxRounds > 0 ==>
        Reflected(c, old(Batch(c)), |queryPlan|, originalMaxRounds, old(Snapshot()), Snapshot(), allSearchResults,
                  outcome, calls[|old(queries)|..])
    {
      var batch, searches := Ingest(c);
      maxRounds := maxRounds - 1;
      if maxRounds == 0 {
        var request := AnswerFor(extractedFacts, allSearchResults);
        calls := searches + [CreateAnswer(request)];
        outcome := Finished(Answered(request));
        return;
      }
      var rest;
      outcome, rest := ReflectOnBatch(c, batch);
      WellFormedConcat(searches, rest, |queryPlan|, originalMaxRounds);
      calls := searches + rest;
      assert calls[|old(queries)|..] == rest;
    }
  }

  /**
   * `deepResearch`: reject an invalid invocation before calling anything,
   * then loop while rounds remain.
   */
  method Run(data: Invocation, c: Collaborators) returns (report: Report)
    ensures !IsDeepResearchQuery(data) ==> report == Report(Failed(InvalidInvocation), 0, [])
    ensures IsDeepResearchQuery(data) ==>
      var plan := c.generateQuery(data.researchTopic.value, data.currentDate.value).queryPlan;
      && |report.calls| > 0 && report.calls[0] == GenerateQuery(data.researchTopic.value, data.currentDate.value)
      && ReflectCallsWellFormed(report.calls, |plan|, MaxRoundsOf(data))
    // the loop body runs at most maxRounds times, and not at all when that is not positive
    ensures report.rounds <= if MaxRoundsOf(data) > 0 then MaxRoundsOf(data) else 0
    ensures IsDeepResearchQuery(data) && MaxRoundsOf(data) <= 0 ==> report.outcome == NoAnswer && report.rounds == 0
    ensures IsDeepResearchQuery(data) && MaxRoundsOf(data) > 0 ==>
      report.outcome.Answered? || report.outcome == Failed(ReflectionNull)
    // a single round answers without reflecting
    ensures IsDeepResearchQuery(data) && MaxRoundsOf(data) == 1 ==>
      report.outcome.Answered? && report.rounds == 1 && NoReflectCall(report.calls)
  {
    if !IsDeepResearchQuery(data) {
      return Report(Failed(InvalidInvocation), 0, []);
    }
    var topic, date := data.researchTopic.value, data.currentDate.value;
    var initial := c.generateQuery(topic, date);
    var s := new Session(initial.queryPlan, initial.query, MaxRoundsOf(data));
    var calls := [GenerateQuery(topic, date)];
    var rounds: nat := 0;
    while s.maxRounds > 0
      invariant s.Valid() && s.AtLoopHead() && s.queryPlan == initial.queryPlan && s.originalMaxRounds == MaxRoundsOf(data)
      invariant rounds == s.currentRound - 1
      invariant rounds > 0 ==> s.maxRounds > 0
      invariant |calls| > 0 && calls[0] == GenerateQuery(topic, date)
      invariant rounds == 0 ==> calls == [GenerateQuery(topic, date)]
      invariant ReflectCallsWellFormed(calls, |initial.queryPlan|, MaxRoundsOf(data))
      decreases s.maxRounds
    {
      var outcome, roundCalls := s.Round(c);
      rounds := rounds + 1;
      calls := calls + roundCalls;
      if outcome.Finished? {
        assert MaxRoundsOf(data) == 1 ==> NoReflectCall(calls);
        return Report(outcome.result, rounds, calls);
      }
    }
    return Report(NoAnswer, rounds, calls);
  }
}
