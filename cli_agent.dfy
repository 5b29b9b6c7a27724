/**
 * The older terminal variant of the research loop (`executeAgent`). Same
 * round shape as the ledger variant, different bookkeeping: the answered
 * and unanswered lists are overwritten by every reflection, follow-up
 * queries come straight from the reflection (a missing list is an error),
 * there is no gap ledger, and fact extraction runs before the sufficiency
 * decision.
 */
module CliAgent {
  import opened ResearchTypes

  datatype SearchQueryList = SearchQueryList(query: seq<string>, rationale: string, queryPlan: seq<string>)

  /** Arguments of `b.Reflect` that vary (topic, date and plan are fixed per session). */
  datatype ReflectRequest = ReflectRequest(
    batch: seq<SearchResult>,
    answered: seq<int>,
    unanswered: seq<int>,
    round: int,
    maxRounds: int)

  datatype Call =
    | GenerateQuery(topic: string)
    | Search(query: string)
    | Reflect(reflectRequest: ReflectRequest)
    | ExtractRelevantFacts(sources: seq<SearchResult>, factReflection: Reflection)
    | CreateAnswer(answerRequest: AnswerRequest)

  datatype Collaborators = Collaborators(
    generateQuery: string -> SearchQueryList,
    search: (int, string) -> seq<SearchResult>,
    nanoid: (int, nat) -> string,
    reflect: ReflectRequest -> Reflection,
    extractRelevantFacts: (seq<SearchResult>, Reflection) -> seq<ExtractedFact>)

  datatype AgentOutcome =
    | NoAnswer                       // the function returns undefined
    | Answered(request: AnswerRequest)
    | MissingFollowUps               // "Follow-up queries are not specified but should be!"

  datatype RoundOutcome = Continue | Finished(result: AgentOutcome)

  datatype Report = Report(outcome: AgentOutcome, rounds: nat, calls: seq<Call>)

  /** The Search calls of a round, over this variant's `Call` type. */
  function Searches(queries: seq<string>): (calls: seq<Call>)
    ensures |calls| == |queries|
    ensures forall j :: 0 <= j < |calls| ==> calls[j] == Search(queries[j])
  {
    seq(|queries|, j requires 0 <= j < |queries| => Search(queries[j]))
  }

  predicate NoReflectCall(calls: seq<Call>)
  {
    forall k :: 0 <= k < |calls| ==> !calls[k].Reflect?
  }

  /** Every Reflect call is made before the last round and carries the original budget. */
  predicate ReflectCallsBeforeLastRound(calls: seq<Call>, originalMaxRounds: int)
  {
    forall k :: 0 <= k < |calls| && calls[k].Reflect? ==>
      1 <= calls[k].reflectRequest.round < originalMaxRounds && calls[k].reflectRequest.maxRounds == originalMaxRounds
  }

  /** The part of the agent state that one round's reflection acts on. */
  datatype Progress = Progress(
    answered: seq<int>,
    unanswered: seq<int>,
    facts: seq<ExtractedFact>,
    queries: seq<string>,
    round: int)

  /**
   * The reflect phase of a round that is not the last, from `before` to
   * `after`: Reflect is called on this batch and the current lists; both
   * lists are then overwritten by the reflection's, with no union; facts
   * are extracted from the relevant part of this batch only, exactly when
   * relevant ids were reported, and appended; a sufficient reflection
   * answers, an insufficient one without follow-up queries is an error,
   * and otherwise the follow-up queries become the next round's.
   */
  predicate Absorbed(c: Collaborators, batch: seq<SearchResult>, originalMaxRounds: int,
                     before: Progress, after: Progress, allResults: seq<SearchResult>, outcome: RoundOutcome, calls: seq<Call>)
  {
    var request := ReflectRequest(batch, before.answered, before.unanswered, before.round, originalMaxRounds);
    var reflection := c.reflect(request);
    var ids := reflection.relevantSummaryIds;
    var sources := Relevant(batch, ids);
    && after.answered == reflection.answeredQuestions
    && after.unanswered == reflection.unansweredQuestions
    && after.facts == before.facts + (if |ids| > 0 then c.extractRelevantFacts(sources, reflection) else [])
    && calls == [Reflect(request)]
                + (if |ids| > 0 then [ExtractRelevantFacts(sources, reflection)] else [])
                + (if reflection.isSufficient then [CreateAnswer(AnswerFor(after.facts, allResults))] else [])
    && (reflection.isSufficient ==>
          outcome == Finished(Answered(AnswerFor(after.facts, allResults)))
          && after.queries == before.queries && after.round == before.round)
    && (!reflection.isSufficient && reflection.followUpQueries.None? ==>
          outcome == Finished(MissingFollowUps)
          && after.queries == before.queries && after.round == before.round)
    && (!reflection.isSufficient && reflection.followUpQueries.Some? ==>
          outcome == Continue
          && after.queries == reflection.followUpQueries.value && after.round == before.round + 1)
  }

  /**
   * A round that reflected called Reflect first and only once, and fact
   * extraction exactly when relevant ids were reported, over the results of
   * this batch whose id is among them.
   */
  lemma {:induction false} AbsorbedCalls(c: Collaborators, batch: seq<SearchResult>, originalMaxRounds: int,
                                         before: Progress, after: Progress, allResults: seq<SearchResult>, outcome: RoundOutcome, calls: seq<Call>)
    requires Absorbed(c, batch, originalMaxRounds, before, after, allResults, outcome, calls)
    ensures calls[0].Reflect? && forall k :: 1 <= k < |calls| ==> !calls[k].Reflect?
    ensures var reflection := c.reflect(calls[0].reflectRequest);
      && ((exists k :: 0 <= k < |calls| && calls[k].ExtractRelevantFacts?) <==> |reflection.relevantSummaryIds| > 0)
      && (forall k :: 0 <= k < |calls| && calls[k].ExtractRelevantFacts? ==>
            && calls[k].factReflection == reflection
            && (forall x :: x in calls[k].sources <==> x in batch && x.id in reflection.relevantSummaryIds)
            && after.facts == before.facts + c.extractRelevantFacts(calls[k].sources, reflection))
  {
    var request := ReflectRequest(batch, before.answered, before.unanswered, before.round, originalMaxRounds);
    var reflection := c.reflect(request);
    var extract := ExtractRelevantFacts(Relevant(batch, reflection.relevantSummaryIds), reflection);
    forall k | 1 <= k < |calls| ensures !calls[k].Reflect? && (calls[k].ExtractRelevantFacts? ==> calls[k] == extract) {
      if k == 1 && |reflection.relevantSummaryIds| > 0 {
        assert calls[k] == extract;
      } else {
        assert calls[k].CreateAnswer?;
      }
    }
    if |reflection.relevantSummaryIds| > 0 {
      assert calls[1] == extract;
    }
  }

  /** A reflection that reports nothing answered. */
  const Forgetful: Reflection := Reflection(false, None, Some(["next"]), [], [0], [])

  /** Collaborators whose reflection forgets every answered question. */
  const ForgetfulCollaborators: Collaborators :=
    Collaborators(topic => SearchQueryList([], "", []), (round, q) => [], (round, k) => "",
                  request => Forgetful, (sources, reflection) => [])

  /**
   * Unlike the ledger variant, this loop's answered list is not monotone:
   * a round can take question 0 from answered back to unanswered.
   */
  lemma AnsweredCanShrink()
    ensures var before := Progress([0], [], [], ["q"], 1);
      var after := Progress([], [0], [], ["next"], 2);
      && Absorbed(ForgetfulCollaborators, [], 3, before, after, [], Continue, [Reflect(ReflectRequest([], [0], [], 1, 3))])
      && 0 in before.answered && 0 !in after.answered
  {
  }

  /** `AgentState` plus the loop's local variables. */
  class Agent {
    const queryPlan: seq<string>
    const originalMaxRounds: int
    var roundsLeft: int
    var currentRound: int
    var queries: seq<string>
    var searchResults: seq<SearchResult>
    var extractedFacts: seq<ExtractedFact>
    var answeredQuestions: seq<int>
    var unansweredQuestions: seq<int>

    /** The round bookkeeping at every loop head. */
    predicate AtLoopHead()
      reads this`currentRound, this`roundsLeft
    {
      currentRound >= 1 && currentRound + roundsLeft == originalMaxRounds + 1
    }

    function Batch(c: Collaborators): seq<SearchResult>
      reads this`queries, this`currentRound
    {
      Stamped(SearchBatch(c.search, currentRound, queries), c.nanoid, currentRound)
    }

    function Snapshot(): Progress
      reads this`answeredQuestions, this`unansweredQuestions, this`extractedFacts, this`queries, this`currentRound
    {
      Progress(answeredQuestions, unansweredQuestions, extractedFacts, queries, currentRound)
    }

    /** Nothing answered yet, every plan index unanswered. */
    constructor (plan: seq<string>, initialQueries: seq<string>, rounds: int)
      ensures AtLoopHead()
      ensures queryPlan == plan && queries == initialQueries
      ensures originalMaxRounds == rounds && roundsLeft == rounds && currentRound == 1
      ensures searchResults == [] && extractedFacts == [] && answeredQuestions == []
      ensures |unansweredQuestions| == |plan| && forall i :: 0 <= i < |plan| ==> unansweredQuestions[i] == i
    {
      queryPlan := plan;
      originalMaxRounds := rounds;
      roundsLeft := rounds;
      currentRound := 1;
      queries := initialQueries;
      searchResults := [];
      extractedFacts := [];
      answeredQuestions := [];
      unansweredQuestions := Unanswered(|plan|, {});
      new;
      AllIndices(|plan|);
    }

    /** Runs every query of the round and appends the results, with fresh ids, to `state.searchResults`. */
    method Ingest(c: Collaborators) returns (batch: seq<SearchResult>, calls: seq<Call>)
      modifies this`searchResults
      ensures batch == Batch(c)
      ensures calls == Searches(queries)
      ensures searchResults == old(searchResults) + batch
    {
      var found: seq<SearchResult> := [];
      calls := [];
      for j := 0 to |queries|
        invariant found == SearchBatch(c.search, currentRound, queries[..j])
        invariant calls == Searches(queries[..j])
      {
        assert queries[..j + 1][..j] == queries[..j];
        calls := calls + [Search(queries[j])];
        found := found + c.search(currentRound, queries[j]);
      }
      assert queries[..|queries|] == queries;
      batch := [];
      for k := 0 to |found|
        invariant batch == Stamped(found, c.nanoid, currentRound)[..k]
        invariant searchResults == old(searchResults) + batch
      {
        var result := found[k].(id := c.nanoid(currentRound, k));
        batch := batch + [result];
        searchResults := searchResults + [result];
      }
    }

    /** Reflect on this round's batch, then act on the reflection. */
    method Absorb(c: Collaborators, batch: seq<SearchResult>) returns (outcome: RoundOutcome, calls: seq<Call>)
      requires 1 <= currentRound < originalMaxRounds
      modifies this`answeredQuestions, this`unansweredQuestions, this`extractedFacts, this`queries, this`currentRound
      ensures Absorbed(c, batch, originalMaxRounds, old(Snapshot()), Snapshot(), searchResults, outcome, calls)
      ensures ReflectCallsBeforeLastRound(calls, originalMaxRounds)
      ensures outcome.Continue? ==> currentRound == old(currentRound) + 1
      ensures outcome.Finished? ==> currentRound == old(currentRound)
    {
      var reflectRequest := ReflectRequest(batch, answeredQuestions, unansweredQuestions, currentRound, originalMaxRounds);
      var reflection := c.reflect(reflectRequest);
      answeredQuestions := reflection.answeredQuestions;
      unansweredQuestions := reflection.unansweredQuestions;

      var factCalls: seq<Call> := [];
      if |reflection.relevantSummaryIds| > 0 {
        var sources := Relevant(batch, reflection.relevantSummaryIds);
        factCalls := [ExtractRelevantFacts(sources, reflection)];
        extractedFacts := extractedFacts + c.extractRelevantFacts(sources, reflection);
      }

      if reflection.isSufficient {
        var request := AnswerFor(extractedFacts, searchResults);
        calls := [Reflect(reflectRequest)] + factCalls + [CreateAnswer(request)];
        outcome := Finished(Answered(request));
        return;
      }
      calls := [Reflect(reflectRequest)] + factCalls + [];
      if reflection.followUpQueries.None? {
        outcome := Finished(MissingFollowUps);
        return;
      }
      queries := reflection.followUpQueries.value;
      currentRound := currentRound + 1;
      outcome := Continue;
    }

    /** One iteration of the `while (state.roundsLeft > 0)` loop. */
    method Round(c: Collaborators) returns (outcome: RoundOutcome, calls: seq<Call>)
      requires AtLoopHead() && roundsLeft > 0
      modifies this
      ensures roundsLeft == old(roundsLeft) - 1
      ensures outcome.Continue? ==> AtLoopHead() && roundsLeft > 0
      ensures searchResults == old(searchResults) + old(Batch(c))
      ensures |calls| > |old(queries)| && calls[..|old(queries)|] == Searches(old(queries))
      ensures ReflectCallsBeforeLastRound(calls, originalMaxRounds)
      // Out of rounds: answer at once, without reflecting.
      ensures roundsLeft == 0 ==>
        && outcome == Finished(Answered(AnswerFor(extractedFacts, searchResults)))
        && calls == Searches(old(queries)) + [CreateAnswer(AnswerFor(extractedFacts, searchResults))]
        && Snapshot() == old(Snapshot())
      // Otherwise reflect on this round's batch.
      ensures roundsLeft > 0 ==>
        Absorbed(c, old(Batch(c)), originalMaxRounds, old(Snapshot()), Snapshot(), searchResults,
                 outcome, calls[|old(queries)|..])
    {
      var batch, searches := Ingest(c);
      roundsLeft := roundsLeft - 1;
      if roundsLeft == 0 {
        var request := AnswerFor(extractedFacts, searchResults);
        calls := searches + [CreateAnswer(request)];
        outcome := Finished(Answered(request));
        return;
      }
      var rest;
      outcome, rest := Absorb(c, batch);
      calls := searches + rest;
      assert calls[|old(queries)|..] == rest;
    }
  }

  /** `executeAgent` */
  method Run(researchTopic: string, maxRounds: Option<int>, c: Collaborators) returns (report: Report)
    ensures |report.calls| > 0 && report.calls[0] == GenerateQuery(researchTopic)
    ensures ReflectCallsBeforeLastRound(report.calls, maxRounds.GetOr(10))
    // the loop body runs at most maxRounds times, and not at all when that is not positive
    ensures report.rounds <= if maxRounds.GetOr(10) > 0 then maxRounds.GetOr(10) else 0
    ensures maxRounds.GetOr(10) <= 0 <==> report.outcome == NoAnswer
    ensures maxRounds.GetOr(10) <= 0 ==> report.rounds == 0
    // a single round answers without reflecting
    ensures maxRounds.GetOr(10) == 1 ==> report.outcome.Answered? && report.rounds == 1 && NoReflectCall(report.calls)
  {
    var rounds := maxRounds.GetOr(10);
    var initial := c.generateQuery(researchTopic);
    var a := new Agent(initial.queryPlan, initial.query, rounds);
    var calls := [GenerateQuery(researchTopic)];
    var count: nat := 0;
    while a.roundsLeft > 0
      invariant a.AtLoopHead() && a.originalMaxRounds == rounds
      invariant count == a.currentRound - 1
      invariant count > 0 ==> a.roundsLeft > 0
      invariant |calls| > 0 && calls[0] == GenerateQuery(researchTopic)
      invariant count == 0 ==> calls == [GenerateQuery(researchTopic)]
      invariant ReflectCallsBeforeLastRound(calls, rounds)
      decreases a.roundsLeft
    {
      var outcome, roundCalls := a.Round(c);
      count := count + 1;
      calls := calls + roundCalls;
      if outcome.Finished? {
        return Report(outcome.result, count, calls);
      }
    }
    return Report(NoAnswer, count, calls);
  }
}
