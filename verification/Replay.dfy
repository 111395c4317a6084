/**
 Scoring a rewritten rule against the example corpus (llm/bedrock.go, `ReplayAgainstExamples`,
 `ClassCounts.Balanced`; improve.go, the no-gain flag and `buildReplayFeedbackTurn`).

 Every example is classified once, and the ones whose call failed once more. The completion
 order does not matter. What is scored is accounted for exactly: counts add up, the indices
 split into passed and failed, and the margin over the current rule is what the rewrite newly
 fixes less what it newly breaks.
 */
module Replay {
  import opened Wrappers

  datatype ReplayExample = ReplayExample(want: bool, heldOut: bool, wasCorrect: bool)

  datatype Outcome = Outcome(ex: ReplayExample, got: bool, errored: bool)

  datatype ClassCounts = ClassCounts(posTotal: nat, posPassed: nat, negTotal: nat, negPassed: nat)

  datatype Failure = Failure(got: bool, index: nat)

  datatype Result = Result(total: nat, passed: nat, baseline: nat, errored: nat,
                           heldOutTotal: nat, heldOutPassed: nat, all: ClassCounts, heldOut: ClassCounts,
                           passedIndices: seq<nat>, failures: seq<Failure>)

  // ---------------------------------------------------------------- the fan-out

  /** One classify call: an answer, or an error. */
  function OutcomeOf(ex: ReplayExample, answer: Option<bool>): Outcome {
    match answer
    case None => Outcome(ex, false, true)
    case Some(got) => Outcome(ex, got, false)
  }

  /** The answer an example ends up with: the retry's when the first call failed. */
  function FinalAnswer(first: Option<bool>, retry: Option<bool>): Option<bool> {
    if first.None? then retry else first
  }

  function FinalOutcomes(examples: seq<ReplayExample>, first: seq<Option<bool>>,
                         retry: seq<Option<bool>>): (outcomes: seq<Outcome>)
    requires |first| == |retry| == |examples|
    ensures |outcomes| == |examples|
    ensures forall i | 0 <= i < |examples| :: outcomes[i] == OutcomeOf(examples[i], FinalAnswer(first[i], retry[i]))
  {
    seq(|examples|, i requires 0 <= i < |examples| => OutcomeOf(examples[i], FinalAnswer(first[i], retry[i])))
  }

  /** The calls for some indices, completing in the order given; each writes its own slot. */
  method RunFanOut(outcomes: array<Outcome>, examples: seq<ReplayExample>, order: seq<nat>, answers: seq<Option<bool>>)
    requires outcomes.Length == |examples| == |answers|
    requires forall k | 0 <= k < |order| :: order[k] < |examples|
    modifies outcomes
    ensures forall i: nat | i < |examples| ::
            outcomes[i] == if i in order then OutcomeOf(examples[i], answers[i]) else old(outcomes[i])
  {
    for k := 0 to |order|
      invariant forall i: nat | i < |examples| ::
                  outcomes[i] == if i in order[..k] then OutcomeOf(examples[i], answers[i]) else old(outcomes[i])
    {
      outcomes[order[k]] := OutcomeOf(examples[order[k]], answers[order[k]]);
      assert order[..k + 1] == order[..k] + [order[k]];
    }
    assert order[..|order|] == order;
  }

  // ---------------------------------------------------------------- counting

  predicate Errored(o: Outcome) { o.errored }
  predicate Scored(o: Outcome) { !o.errored }
  predicate Passed(o: Outcome) { !o.errored && o.got == o.ex.want }
  predicate Failed(o: Outcome) { !o.errored && o.got != o.ex.want }
  predicate WasCorrect(o: Outcome) { !o.errored && o.ex.wasCorrect }
  predicate Held(o: Outcome) { !o.errored && o.ex.heldOut }
  predicate HeldPassed(o: Outcome) { Passed(o) && o.ex.heldOut }
  predicate Pos(o: Outcome) { !o.errored && o.ex.want }
  predicate PosPassed(o: Outcome) { Passed(o) && o.ex.want }
  predicate Neg(o: Outcome) { !o.errored && !o.ex.want }
  predicate NegPassed(o: Outcome) { Passed(o) && !o.ex.want }
  predicate HeldPos(o: Outcome) { Held(o) && o.ex.want }
  predicate HeldPosPassed(o: Outcome) { HeldPassed(o) && o.ex.want }
  predicate HeldNeg(o: Outcome) { Held(o) && !o.ex.want }
  predicate HeldNegPassed(o: Outcome) { HeldPassed(o) && !o.ex.want }
  predicate NewlyFixed(o: Outcome) { Passed(o) && !o.ex.wasCorrect }
  predicate NewlyBroken(o: Outcome) { Failed(o) && o.ex.wasCorrect }
  predicate StillRight(o: Outcome) { Passed(o) && o.ex.wasCorrect }

  function Count(outcomes: seq<Outcome>, p: Outcome -> bool): nat {
    if outcomes == [] then 0
    else Count(outcomes[..|outcomes| - 1], p) + (if p(outcomes[|outcomes| - 1]) then 1 else 0)
  }

  function Indices(outcomes: seq<Outcome>, p: Outcome -> bool): seq<nat> {
    if outcomes == [] then []
    else
      var last := |outcomes| - 1;
      Indices(outcomes[..last], p) + (if p(outcomes[last]) then [last] else [])
  }

  function Failures(outcomes: seq<Outcome>): seq<Failure> {
    if outcomes == [] then []
    else
      var last := |outcomes| - 1;
      Failures(outcomes[..last]) + (if Failed(outcomes[last]) then [Failure(outcomes[last].got, last)] else [])
  }

  function TallyOf(outcomes: seq<Outcome>): Result {
    Result(Count(outcomes, Scored), Count(outcomes, Passed), Count(outcomes, WasCorrect), Count(outcomes, Errored),
           Count(outcomes, Held), Count(outcomes, HeldPassed),
           ClassCounts(Count(outcomes, Pos), Count(outcomes, PosPassed),
                       Count(outcomes, Neg), Count(outcomes, NegPassed)),
           ClassCounts(Count(outcomes, HeldPos), Count(outcomes, HeldPosPassed),
                       Count(outcomes, HeldNeg), Count(outcomes, HeldNegPassed)),
           Indices(outcomes, Passed), Failures(outcomes))
  }

  function AddClassCount(counts: ClassCounts, want: bool, passed: bool): ClassCounts {
    var one := if passed then 1 else 0;
    if want then counts.(posTotal := counts.posTotal + 1, posPassed := counts.posPassed + one)
    else counts.(negTotal := counts.negTotal + 1, negPassed := counts.negPassed + one)
  }

  /** One more outcome adds at most one to each count, and its index to one list. */
  function Added(r: Result, o: Outcome, i: nat): Result {
    if o.errored then r.(errored := r.errored + 1)
    else
      var passed := o.got == o.ex.want;
      var held := if o.ex.heldOut then 1 else 0;
      var one := if passed then 1 else 0;
      Result(r.total + 1, r.passed + one, if o.ex.wasCorrect then r.baseline + 1 else r.baseline, r.errored,
             r.heldOutTotal + held, r.heldOutPassed + held * one,
             AddClassCount(r.all, o.ex.want, passed),
             if o.ex.heldOut then AddClassCount(r.heldOut, o.ex.want, passed) else r.heldOut,
             if passed then r.passedIndices + [i] else r.passedIndices,
             if passed then r.failures else r.failures + [Failure(o.got, i)])
  }

  lemma TallyOneMore(outcomes: seq<Outcome>, i: nat)
    requires i < |outcomes|
    ensures TallyOf(outcomes[..i + 1]) == Added(TallyOf(outcomes[..i]), outcomes[i], i)
  {
    assert outcomes[..i + 1][..i] == outcomes[..i];
  }

  method Tally(outcomes: array<Outcome>) returns (r: Result)
    ensures r == TallyOf(outcomes[..])
  {
    var none := ClassCounts(0, 0, 0, 0);
    r := Result(0, 0, 0, 0, 0, 0, none, none, [], []);
    ghost var all := outcomes[..];
    for i := 0 to outcomes.Length
      invariant r == TallyOf(all[..i])
    {
      TallyOneMore(all, i);
      r := AddOutcome(r, outcomes[i], i);
    }
    assert all[..outcomes.Length] == all;
  }

  method AddOutcome(r0: Result, o: Outcome, i: nat) returns (r: Result)
    ensures r == Added(r0, o, i)
  {
    r := r0;
    if o.errored {
      r := r.(errored := r.errored + 1);
    } else {
      r := r.(total := r.total + 1);
      if o.ex.heldOut {
        r := r.(heldOutTotal := r.heldOutTotal + 1);
      }
      if o.ex.wasCorrect {
        r := r.(baseline := r.baseline + 1);
      }
      var passed := o.got == o.ex.want;
      r := r.(all := AddClassCount(r.all, o.ex.want, passed));
      if o.ex.heldOut {
        r := r.(heldOut := AddClassCount(r.heldOut, o.ex.want, passed));
      }
      if passed {
        r := r.(passed := r.passed + 1, passedIndices := r.passedIndices + [i]);
        if o.ex.heldOut {
          r := r.(heldOutPassed := r.heldOutPassed + 1);
        }
      } else {
        r := r.(failures := r.failures + [Failure(o.got, i)]);
      }
    }
  }

  /** `first` and `retry` are what the two calls for each example would answer; `order` and
      `again` the orders in which the two passes complete. None of the orders shows in the result. */
  method ReplayAgainstExamples(examples: seq<ReplayExample>, first: seq<Option<bool>>, retry: seq<Option<bool>>,
                               order: seq<nat>, again: seq<nat>)
    returns (r: Result)
    requires |first| == |retry| == |examples|
    requires forall i: nat :: i in order <==> i < |examples|
    requires forall i: nat :: i in again <==> i < |examples| && first[i].None?
    ensures r == TallyOf(FinalOutcomes(examples, first, retry))
  {
    if |examples| == 0 {
      var none := ClassCounts(0, 0, 0, 0);
      return Result(0, 0, 0, 0, 0, 0, none, none, [], []);
    }
    var outcomes := new Outcome[|examples|](i => Outcome(ReplayExample(false, false, false), false, false));
    assert forall k | 0 <= k < |order| :: order[k] in order;
    RunFanOut(outcomes, examples, order, first);
    var retried: seq<nat> := [];
    for i := 0 to outcomes.Length
      invariant forall k: nat :: k in retried <==> k < i && first[k].None?
    {
      if outcomes[i].errored {
        retried := retried + [i];
      }
    }
    assert forall k | 0 <= k < |again| :: again[k] in again;
    if |retried| > 0 {
      RunFanOut(outcomes, examples, again, retry);
    }
    assert retried == [] ==> forall k: nat :: k !in again;
    assert outcomes[..] == FinalOutcomes(examples, first, retry);
    r := Tally(outcomes);
  }

  // ---------------------------------------------------------------- accounting

  lemma {:induction false} CountSplit(outcomes: seq<Outcome>, whole: Outcome -> bool, p: Outcome -> bool,
                                      q: Outcome -> bool)
    requires forall o :: whole(o) <==> p(o) || q(o)
    requires forall o :: !(p(o) && q(o))
    ensures Count(outcomes, whole) == Count(outcomes, p) + Count(outcomes, q)
  {
    if outcomes != [] {
      CountSplit(outcomes[..|outcomes| - 1], whole, p, q);
    }
  }

  lemma {:induction false} CountFewer(outcomes: seq<Outcome>, p: Outcome -> bool, q: Outcome -> bool)
    requires forall o :: p(o) ==> q(o)
    ensures Count(outcomes, p) <= Count(outcomes, q)
  {
    if outcomes != [] {
      CountFewer(outcomes[..|outcomes| - 1], p, q);
    }
  }

  lemma {:induction false} ScoredOrErrored(outcomes: seq<Outcome>)
    ensures Count(outcomes, Scored) + Count(outcomes, Errored) == |outcomes|
  {
    if outcomes != [] {
      ScoredOrErrored(outcomes[..|outcomes| - 1]);
    }
  }

  /** Every submitted example is scored or errored, and each count splits over its buckets. */
  lemma CountsAddUp(outcomes: seq<Outcome>)
    ensures var r := TallyOf(outcomes);
            && r.total + r.errored == |outcomes|
            && r.total == r.all.posTotal + r.all.negTotal
            && r.passed == r.all.posPassed + r.all.negPassed
            && r.heldOutTotal == r.heldOut.posTotal + r.heldOut.negTotal
            && r.heldOutPassed == r.heldOut.posPassed + r.heldOut.negPassed
            && r.passed == |r.passedIndices| && r.total == |r.passedIndices| + |r.failures|
            && r.baseline <= r.total
  {
    ScoredOrErrored(outcomes);
    CountSplit(outcomes, Scored, Pos, Neg);
    CountSplit(outcomes, Passed, PosPassed, NegPassed);
    CountSplit(outcomes, Held, HeldPos, HeldNeg);
    CountSplit(outcomes, HeldPassed, HeldPosPassed, HeldNegPassed);
    CountSplit(outcomes, Scored, Passed, Failed);
    CountFewer(outcomes, WasCorrect, Scored);
    IndicesAre(outcomes, Passed);
    FailuresAre(outcomes);
  }

  predicate Within(part: ClassCounts, whole: ClassCounts) {
    && part.posTotal <= whole.posTotal && part.posPassed <= whole.posPassed
    && part.negTotal <= whole.negTotal && part.negPassed <= whole.negPassed
  }

  predicate Sound(counts: ClassCounts) {
    counts.posPassed <= counts.posTotal && counts.negPassed <= counts.negTotal
  }

  lemma CountsNest(outcomes: seq<Outcome>)
    ensures var r := TallyOf(outcomes);
            Sound(r.all) && Sound(r.heldOut) && Within(r.heldOut, r.all)
  {
    CountFewer(outcomes, PosPassed, Pos);
    CountFewer(outcomes, NegPassed, Neg);
    CountFewer(outcomes, HeldPosPassed, HeldPos);
    CountFewer(outcomes, HeldNegPassed, HeldNeg);
    CountFewer(outcomes, HeldPos, Pos);
    CountFewer(outcomes, HeldNeg, Neg);
    CountFewer(outcomes, HeldPosPassed, PosPassed);
    CountFewer(outcomes, HeldNegPassed, NegPassed);
  }

  lemma {:induction false} IndicesAre(outcomes: seq<Outcome>, p: Outcome -> bool)
    ensures |Indices(outcomes, p)| == Count(outcomes, p)
    ensures forall i: nat :: i in Indices(outcomes, p) <==> i < |outcomes| && p(outcomes[i])
  {
    if outcomes != [] {
      IndicesAre(outcomes[..|outcomes| - 1], p);
    }
  }

  /** Indices come out in ascending order, so each once. */
  lemma {:induction false} IndicesAscend(outcomes: seq<Outcome>, p: Outcome -> bool, j: nat, k: nat)
    requires j < k < |Indices(outcomes, p)|
    ensures Indices(outcomes, p)[j] < Indices(outcomes, p)[k] < |outcomes|
  {
    var before := outcomes[..|outcomes| - 1];
    IndicesAre(before, p);
    if k < |Indices(before, p)| {
      IndicesAscend(before, p, j, k);
    } else {
      assert Indices(before, p)[j] in Indices(before, p);
    }
  }

  lemma {:induction false} FailuresAre(outcomes: seq<Outcome>)
    ensures |Failures(outcomes)| == Count(outcomes, Failed)
    ensures forall f: Failure :: f in Failures(outcomes) <==>
              f.index < |outcomes| && Failed(outcomes[f.index]) && f.got == outcomes[f.index].got
  {
    if outcomes != [] {
      FailuresAre(outcomes[..|outcomes| - 1]);
    }
  }

  /** The scored indices are exactly the passed ones and the failed ones, no index is both, and an
      example goes unscored only if both of its calls failed. */
  lemma IndicesPartition(examples: seq<ReplayExample>, first: seq<Option<bool>>, retry: seq<Option<bool>>, i: nat)
    requires |first| == |retry| == |examples| && i < |examples|
    ensures var r := TallyOf(FinalOutcomes(examples, first, retry));
            var answer := FinalAnswer(first[i], retry[i]);
            && (i in r.passedIndices <==> answer == Some(examples[i].want))
            && ((exists f :: f in r.failures && f.index == i) <==> answer == Some(!examples[i].want))
            && (i !in r.passedIndices && (forall f :: f in r.failures ==> f.index != i)
               <==> first[i].None? && retry[i].None?)
  {
    var outcomes := FinalOutcomes(examples, first, retry);
    IndicesAre(outcomes, Passed);
    FailuresAre(outcomes);
    var f := Failure(outcomes[i].got, i);
    assert f in Failures(outcomes) <==> Failed(outcomes[i]);
  }

  // ---------------------------------------------------------------- gain over the current rule

  /** The margin over the current rule is what the rewrite newly gets right less what it newly
      gets wrong, among the examples scored. */
  lemma MarginIsFixedLessBroken(outcomes: seq<Outcome>)
    ensures TallyOf(outcomes).passed - TallyOf(outcomes).baseline
            == Count(outcomes, NewlyFixed) - Count(outcomes, NewlyBroken)
  {
    CountSplit(outcomes, Passed, NewlyFixed, StillRight);
    CountSplit(outcomes, WasCorrect, NewlyBroken, StillRight);
  }

  /** At least three fifths of what was submitted has been scored. */
  predicate AdequateCoverage(scored: nat, submitted: nat) {
    submitted > 0 && 5 * scored >= 3 * submitted
  }

  function NoGain(r: Result): bool {
    AdequateCoverage(r.total, r.total + r.errored) && r.passed <= r.baseline
  }

  /** With enough coverage, a suggestion that is not flagged fixes strictly more than it breaks,
      and one that is flagged does not; below three fifths nothing is flagged. */
  lemma UnflaggedGains(outcomes: seq<Outcome>)
    ensures outcomes != [] && 5 * Count(outcomes, Scored) >= 3 * |outcomes| ==>
              (!NoGain(TallyOf(outcomes)) <==> Count(outcomes, NewlyFixed) > Count(outcomes, NewlyBroken))
    ensures 5 * Count(outcomes, Scored) < 3 * |outcomes| ==> !NoGain(TallyOf(outcomes))
  {
    CountsAddUp(outcomes);
    MarginIsFixedLessBroken(outcomes);
  }

  // ---------------------------------------------------------------- balanced accuracy

  /** Mean of positive recall and negative specificity, -1 without evidence from both sides. */
  function Balanced(c: ClassCounts): real {
    if c.posTotal == 0 || c.negTotal == 0 then -1.0
    else (c.posPassed as real / c.posTotal as real + c.negPassed as real / c.negTotal as real) / 2.0
  }

  lemma Ratio(passed: nat, total: nat)
    requires passed <= total && total > 0
    ensures 0.0 <= passed as real / total as real <= 1.0
    ensures passed as real / total as real == 1.0 <==> passed == total
    ensures passed as real / total as real == 0.0 <==> passed == 0
  {
  }

  /** Balanced accuracy is a score between 0 and 1, or missing; it is 1 only when nothing scored
      failed, and a rule that matches everything, or nothing, scores one half whatever the sizes
      of the two buckets. */
  lemma BalancedMeans(outcomes: seq<Outcome>)
    ensures var c := TallyOf(outcomes).all;
            && (Balanced(c) == -1.0 <==> c.posTotal == 0 || c.negTotal == 0)
            && (c.posTotal > 0 && c.negTotal > 0 ==>
                  && 0.0 <= Balanced(c) <= 1.0
                  && (Balanced(c) == 1.0 <==> TallyOf(outcomes).passed == TallyOf(outcomes).total)
                  && ((forall o | o in outcomes :: o.got) || (forall o | o in outcomes :: !o.got)
                     ==> Balanced(c) == 0.5))
  {
    var c := TallyOf(outcomes).all;
    CountsAddUp(outcomes);
    CountsNest(outcomes);
    if c.posTotal > 0 && c.negTotal > 0 {
      Ratio(c.posPassed, c.posTotal);
      Ratio(c.negPassed, c.negTotal);
      if forall o | o in outcomes :: o.got {
        OneSided(outcomes, true);
      }
      if forall o | o in outcomes :: !o.got {
        OneSided(outcomes, false);
      }
    }
  }

  lemma {:induction false} OneSided(outcomes: seq<Outcome>, got: bool)
    requires forall o | o in outcomes :: o.got == got
    ensures Count(outcomes, PosPassed) == if got then Count(outcomes, Pos) else 0
    ensures Count(outcomes, NegPassed) == if got then 0 else Count(outcomes, Neg)
  {
    if outcomes != [] {
      var before := outcomes[..|outcomes| - 1];
      assert outcomes[|outcomes| - 1] in outcomes;
      assert forall o | o in before :: o in outcomes;
      OneSided(before, got);
    }
  }

  // ---------------------------------------------------------------- feedback for the next round

  datatype Feedback = Feedback(matched: seq<nat>, missed: seq<nat>, heldOutMatched: nat, heldOutMissed: nat)

  /** How many failures are wrong in this direction. */
  function FailuresBy(failures: seq<Failure>, got: bool): nat {
    if failures == [] then 0
    else FailuresBy(failures[..|failures| - 1], got) + (if failures[|failures| - 1].got == got then 1 else 0)
  }

  /** The failures the next rewrite is shown, by direction, and the held-out ones only counted. */
  method FeedbackGroups(examples: seq<ReplayExample>, failures: seq<Failure>) returns (fb: Feedback)
    ensures fb.matched == Shown(examples, failures, true) && fb.missed == Shown(examples, failures, false)
    ensures fb.heldOutMatched + |fb.matched| == FailuresBy(failures, true)
    ensures fb.heldOutMissed + |fb.missed| == FailuresBy(failures, false)
    ensures fb.heldOutMatched + fb.heldOutMissed + |fb.matched| + |fb.missed| == |failures|
  {
    fb := Feedback([], [], 0, 0);
    for k := 0 to |failures|
      invariant fb.matched == Shown(examples, failures[..k], true) && fb.missed == Shown(examples, failures[..k], false)
      invariant fb.heldOutMatched + |fb.matched| == FailuresBy(failures[..k], true)
      invariant fb.heldOutMissed + |fb.missed| == FailuresBy(failures[..k], false)
      invariant fb.heldOutMatched + fb.heldOutMissed + |fb.matched| + |fb.missed| == k
    {
      var f := failures[k];
      assert failures[..k + 1][..k] == failures[..k];
      if Hidden(examples, f) && f.got {
        fb := fb.(heldOutMatched := fb.heldOutMatched + 1);
      } else if Hidden(examples, f) {
        fb := fb.(heldOutMissed := fb.heldOutMissed + 1);
      } else if f.got {
        fb := fb.(matched := fb.matched + [f.index]);
      } else {
        fb := fb.(missed := fb.missed + [f.index]);
      }
    }
    assert failures[..|failures|] == failures;
  }

  predicate Hidden(examples: seq<ReplayExample>, f: Failure) {
    f.index < |examples| && examples[f.index].heldOut
  }

  function Shown(examples: seq<ReplayExample>, failures: seq<Failure>, got: bool): seq<nat> {
    if failures == [] then []
    else
      var f, before := failures[|failures| - 1], Shown(examples, failures[..|failures| - 1], got);
      if !Hidden(examples, f) && f.got == got then before + [f.index] else before
  }

  lemma {:induction false} ShownAre(examples: seq<ReplayExample>, failures: seq<Failure>, got: bool, i: nat)
    ensures i in Shown(examples, failures, got)
            <==> exists f :: f in failures && f.index == i && f.got == got && !Hidden(examples, f)
  {
    if failures != [] {
      var before, f := failures[..|failures| - 1], failures[|failures| - 1];
      ShownAre(examples, before, got, i);
      assert failures == before + [f];
    }
  }

  /** What the next round sees verbatim is every failure on an example it was shown before, on the
      side it failed, and never a held-out one. */
  lemma FeedbackNeverLeaks(examples: seq<ReplayExample>, first: seq<Option<bool>>, retry: seq<Option<bool>>,
                           got: bool, i: nat)
    requires |first| == |retry| == |examples|
    ensures i in Shown(examples, TallyOf(FinalOutcomes(examples, first, retry)).failures, got)
            <==> i < |examples| && !examples[i].heldOut
                 && examples[i].want == !got && FinalAnswer(first[i], retry[i]) == Some(got)
  {
    var outcomes := FinalOutcomes(examples, first, retry);
    FailuresAre(outcomes);
    ShownAre(examples, Failures(outcomes), got, i);
    if i < |examples| {
      var f := Failure(outcomes[i].got, i);
      assert f in Failures(outcomes) <==> Failed(outcomes[i]);
    }
  }
}
