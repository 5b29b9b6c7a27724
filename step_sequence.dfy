/**
 * Queries over the list of UI steps the terminal front end accumulates:
 * the round a step belongs to, whether a query-generation step is a
 * follow-up, and the question-coverage percentage.
 */
module StepSequence {

  /** The kinds of step; only a reflection's sufficiency verdict is kept as payload. */
  datatype Step =
    | Input
    | QueriesGenerated
    | Searching
    | SearchResults
    | ReflectionComplete(isSufficient: bool)
    | Summarization
    | KnowledgeGapAnalysis
    | FollowUpQueryGeneration
    | MaxStepsReached
    | Answer

  /** `steps.slice(0, n)` for `n >= 0`: a prefix, clamped to the list's length. */
  function Prefix(steps: seq<Step>, n: nat): (p: seq<Step>)
    ensures |p| <= |steps| && p == steps[..|p|]
    ensures |p| == if n <= |steps| then n else |steps|
  {
    if n <= |steps| then steps[..n] else steps
  }

  /** `.filter(step => step.type === 'reflection-complete').length` */
  function CountReflections(steps: seq<Step>): nat
  {
    if steps == [] then 0
    else CountReflections(steps[..|steps| - 1]) + (if steps[|steps| - 1].ReflectionComplete? then 1 else 0)
  }

  /** `.some(step => step.type === 'reflection-complete' && !step.data.isSufficient)` */
  function AnyInsufficient(steps: seq<Step>): bool
  {
    steps != [] && (AnyInsufficient(steps[..|steps| - 1]) || steps[|steps| - 1] == ReflectionComplete(false))
  }

  /** `getRoundNumber`: one more than the reflections up to and including the step. */
  function RoundNumber(steps: seq<Step>, stepIndex: nat): (round: int)
    // the first round is 1, and each step up to the index adds at most one round
    ensures 1 <= round <= stepIndex + 2
    ensures round <= |steps| + 1
  {
    CountBound(Prefix(steps, stepIndex + 1));
    CountReflections(Prefix(steps, stepIndex + 1)) + 1
  }

  /** `isFollowUpQuery`: an insufficient reflection happened strictly before the step. */
  function IsFollowUpQuery(steps: seq<Step>, stepIndex: nat): (followUp: bool)
    ensures followUp <==>
      exists j :: 0 <= j < stepIndex && j < |steps| && steps[j] == ReflectionComplete(false)
  {
    var p := Prefix(steps, stepIndex);
    AnyInsufficientExists(p);
    assert forall j :: 0 <= j < |p| ==> p[j] == steps[j];
    AnyInsufficient(p)
  }

  lemma {:induction false} CountBound(steps: seq<Step>)
    ensures CountReflections(steps) <= |steps|
  {
    if steps != [] {
      CountBound(steps[..|steps| - 1]);
    }
  }

  /** Counting over a longer prefix never gives less. */
  lemma {:induction false} CountPrefixMonotone(steps: seq<Step>, a: nat, b: nat)
    requires a <= b <= |steps|
    ensures CountReflections(steps[..a]) <= CountReflections(steps[..b])
    decreases b - a
  {
    if a < b {
      CountPrefixMonotone(steps, a, b - 1);
      assert steps[..b][..b - 1] == steps[..b - 1];
    }
  }

  lemma {:induction false} AnyInsufficientExists(steps: seq<Step>)
    ensures AnyInsufficient(steps) <==> exists j :: 0 <= j < |steps| && steps[j] == ReflectionComplete(false)
  {
    if steps != [] {
      var init := steps[..|steps| - 1];
      AnyInsufficientExists(init);
      if AnyInsufficient(init) {
        var j :| 0 <= j < |init| && init[j] == ReflectionComplete(false);
        assert steps[j] == ReflectionComplete(false);
      }
      if exists j :: 0 <= j < |steps| && steps[j] == ReflectionComplete(false) {
        var j :| 0 <= j < |steps| && steps[j] == ReflectionComplete(false);
        if j < |init| {
          assert init[j] == ReflectionComplete(false);
        }
      }
    }
  }

  /**
   * The round number is at least 1, at most one more than the number of
   * steps up to the index, and never decreases along the list.
   */
  lemma RoundNumberBounds(steps: seq<Step>, i: nat, j: nat)
    requires i <= j
    ensures 1 <= RoundNumber(steps, i) <= |Prefix(steps, i + 1)| + 1
    ensures RoundNumber(steps, i) <= RoundNumber(steps, j)
  {
    CountBound(Prefix(steps, i + 1));
    CountPrefixMonotone(steps, |Prefix(steps, i + 1)|, |Prefix(steps, j + 1)|);
  }

  /** Once a follow-up, every later step is a follow-up too. */
  lemma FollowUpMonotone(steps: seq<Step>, i: nat, k: nat)
    requires i <= k && IsFollowUpQuery(steps, i)
    ensures IsFollowUpQuery(steps, k)
  {
  }

  /** Sufficient reflections never make a later step a follow-up. */
  lemma OnlySufficientNoFollowUp(steps: seq<Step>, i: nat)
    requires forall j :: 0 <= j < |steps| && steps[j].ReflectionComplete? ==> steps[j].isSufficient
    ensures !IsFollowUpQuery(steps, i)
  {
  }

  /** The first test's step list. */
  const FirstTestSteps: seq<Step> := [Input, QueriesGenerated, Searching, SearchResults, ReflectionComplete(false), QueriesGenerated]

  /** The second test's step list. */
  const SecondTestSteps: seq<Step> := [Input, ReflectionComplete(true)]

  /** The values the tests assert. */
  lemma TestValues()
    ensures !IsFollowUpQuery(FirstTestSteps, 1) && RoundNumber(FirstTestSteps, 1) == 1
    ensures IsFollowUpQuery(FirstTestSteps, 5) && RoundNumber(FirstTestSteps, 5) == 2
    ensures !IsFollowUpQuery(SecondTestSteps, 1)
  {
    assert FirstTestSteps[4] == ReflectionComplete(false);
    OnlySufficientNoFollowUp(SecondTestSteps, 1);
    var s1 := [Input];
    var s2 := s1 + [QueriesGenerated];
    var s3 := s2 + [Searching];
    var s4 := s3 + [SearchResults];
    var s5 := s4 + [ReflectionComplete(false)];
    var s6 := s5 + [QueriesGenerated];
    assert s1[..0] == [] && s2[..1] == s1 && s3[..2] == s2 && s4[..3] == s3 && s5[..4] == s4 && s6[..5] == s5;
    assert CountReflections(s1) == 0;
    assert CountReflections(s2) == 0;
    assert CountReflections(s4) == 0 by {
      assert CountReflections(s3) == 0;
    }
    assert CountReflections(s6) == 1;
    assert Prefix(FirstTestSteps, 2) == s2;
    assert Prefix(FirstTestSteps, 6) == s6;
  }

  /**
   * The coverage percentage: `Math.round(answered / planLength * 100)`,
   * or 0 for an empty plan, in exact integer arithmetic.
   */
  function Progress(answered: nat, planLength: nat): (p: int)
    // p is 100 * answered / planLength rounded to the nearest integer, halves up
    ensures planLength > 0 ==> 2 * p * planLength - planLength <= 200 * answered < 2 * p * planLength + planLength
    ensures planLength == 0 ==> p == 0
    ensures answered <= planLength ==> 0 <= p <= 100
  {
    if planLength > 0 then (200 * answered + planLength) / (2 * planLength) else 0
  }

  /** The third test: 2 of 4 questions answered is 50 percent. */
  lemma ProgressExample()
    ensures Progress(2, 4) == 50
  {
  }
}
