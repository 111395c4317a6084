/**
 The corpus that all rounds of a run replay, and which rounds it allows (improve.go, the loop of
 `improveAndFinalizeSuggestion`).
 */
module RunCorpus {
  import opened Wrappers
  import opened Replay
  import opened Rounds

  /** The examples of a run, counted: fixed before its first round. */
  datatype Makeup = Makeup(posHeld: nat, negHeld: nat, posSeen: nat, negSeen: nat)

  function Members(examples: seq<ReplayExample>, want: bool, heldOut: bool): nat {
    if examples == [] then 0
    else
      var n := |examples| - 1;
      Members(examples[..n], want, heldOut)
          + (if examples[n].want == want && examples[n].heldOut == heldOut then 1 else 0)
  }

  function MakeupOf(examples: seq<ReplayExample>): Makeup {
    Makeup(Members(examples, true, true), Members(examples, false, true),
           Members(examples, true, false), Members(examples, false, false))
  }

  function HeldOutSubmitted(c: Makeup): nat {
    c.posHeld + c.negHeld
  }

  function RoundOf(candidate: string, r: Result): Round {
    Round(candidate, r.total, r.passed, r.errored, r.heldOutTotal, r.heldOutPassed, r.all, r.heldOut)
  }

  /** Some answers of the model make this round of these examples. */
  ghost predicate OfRun(r: Round, examples: seq<ReplayExample>) {
    exists first, retry | |first| == |retry| == |examples| ::
      r == RoundOf(r.candidate, TallyOf(FinalOutcomes(examples, first, retry)))
  }

  function Minus(a: ClassCounts, b: ClassCounts): (int, int, int, int) {
    (a.posTotal - b.posTotal, a.posPassed - b.posPassed, a.negTotal - b.negTotal, a.negPassed - b.negPassed)
  }

  /** The counts fit the corpus: in each half and on each side no more passed than scored and no
      more scored than there are, and the rest errored. */
  predicate Fits(r: Round, c: Makeup) {
    var (posSeen, posSeenPassed, negSeen, negSeenPassed) := Minus(r.all, r.heldOut);
    && r.heldOut.posPassed <= r.heldOut.posTotal <= c.posHeld && r.heldOut.negPassed <= r.heldOut.negTotal <= c.negHeld
    && 0 <= posSeenPassed <= posSeen <= c.posSeen && 0 <= negSeenPassed <= negSeen <= c.negSeen
    && r.total == r.all.posTotal + r.all.negTotal && r.heldOutTotal == r.heldOut.posTotal + r.heldOut.negTotal
    && Tallied(r) && r.total + r.errored == c.posHeld + c.negHeld + c.posSeen + c.negSeen
  }

  // ---------------------------------------------------------------- counts group by group

  function ScoredIn(want: bool, heldOut: bool): Outcome -> bool {
    (o: Outcome) => Scored(o) && o.ex.want == want && o.ex.heldOut == heldOut
  }

  function PassedIn(want: bool, heldOut: bool): Outcome -> bool {
    (o: Outcome) => Passed(o) && o.ex.want == want && o.ex.heldOut == heldOut
  }

  lemma {:induction false} CountSame(outcomes: seq<Outcome>, p: Outcome -> bool, q: Outcome -> bool)
    requires forall o :: p(o) == q(o)
    ensures Count(outcomes, p) == Count(outcomes, q)
  {
    if outcomes != [] {
      CountSame(outcomes[..|outcomes| - 1], p, q);
    }
  }

  lemma HeldCounts(outcomes: seq<Outcome>)
    ensures TallyOf(outcomes).heldOut == ClassCounts(
              Count(outcomes, ScoredIn(true, true)), Count(outcomes, PassedIn(true, true)),
              Count(outcomes, ScoredIn(false, true)), Count(outcomes, PassedIn(false, true)))
  {
    CountSame(outcomes, HeldPos, ScoredIn(true, true));
    CountSame(outcomes, HeldPosPassed, PassedIn(true, true));
    CountSame(outcomes, HeldNeg, ScoredIn(false, true));
    CountSame(outcomes, HeldNegPassed, PassedIn(false, true));
  }

  lemma SeenCounts(outcomes: seq<Outcome>)
    ensures Minus(TallyOf(outcomes).all, TallyOf(outcomes).heldOut) == (
              Count(outcomes, ScoredIn(true, false)), Count(outcomes, PassedIn(true, false)),
              Count(outcomes, ScoredIn(false, false)), Count(outcomes, PassedIn(false, false)))
  {
    CountSplit(outcomes, Pos, HeldPos, ScoredIn(true, false));
    CountSplit(outcomes, PosPassed, HeldPosPassed, PassedIn(true, false));
    CountSplit(outcomes, Neg, HeldNeg, ScoredIn(false, false));
    CountSplit(outcomes, NegPassed, HeldNegPassed, PassedIn(false, false));
  }

  lemma {:induction false} MembersSum(examples: seq<ReplayExample>)
    ensures Members(examples, true, true) + Members(examples, false, true)
            + Members(examples, true, false) + Members(examples, false, false) == |examples|
  {
    if examples != [] {
      MembersSum(examples[..|examples| - 1]);
    }
  }

  lemma OutcomesBefore(examples: seq<ReplayExample>, first: seq<Option<bool>>, retry: seq<Option<bool>>)
    requires |first| == |retry| == |examples| > 0
    ensures var n := |examples| - 1;
            FinalOutcomes(examples, first, retry)[..n] == FinalOutcomes(examples[..n], first[..n], retry[..n])
  {
  }

  lemma {:induction false} ScoredAreMembers(examples: seq<ReplayExample>, first: seq<Option<bool>>,
                                            retry: seq<Option<bool>>, want: bool, heldOut: bool)
    requires |first| == |retry| == |examples|
    ensures var outcomes := FinalOutcomes(examples, first, retry);
            && Count(outcomes, PassedIn(want, heldOut)) <= Count(outcomes, ScoredIn(want, heldOut))
            && Count(outcomes, ScoredIn(want, heldOut)) <= Members(examples, want, heldOut)
  {
    if examples != [] {
      var n := |examples| - 1;
      OutcomesBefore(examples, first, retry);
      ScoredAreMembers(examples[..n], first[..n], retry[..n], want, heldOut);
    }
  }

  // ---------------------------------------------------------------- answers that give the counts

  /** How many examples of a group are to be scored, and how many of these rightly. */
  datatype Share = Share(scored: nat, passed: nat)

  datatype Shares = Shares(posHeld: Share, negHeld: Share, posSeen: Share, negSeen: Share)

  function ShareOf(shares: Shares, want: bool, heldOut: bool): Share {
    if heldOut then (if want then shares.posHeld else shares.negHeld)
    else if want then shares.posSeen else shares.negSeen
  }

  /** The k-th example of a group is answered rightly, wrongly or not at all. */
  function AnswerTo(want: bool, k: nat, share: Share): Option<bool> {
    if k < share.passed then Some(want) else if k < share.scored then Some(!want) else None
  }

  function Answers(examples: seq<ReplayExample>, shares: Shares): (answers: seq<Option<bool>>)
    ensures |answers| == |examples|
  {
    if examples == [] then []
    else
      var n := |examples| - 1;
      var ex := examples[n];
      var k := Members(examples[..n], ex.want, ex.heldOut);
      Answers(examples[..n], shares) + [AnswerTo(ex.want, k, ShareOf(shares, ex.want, ex.heldOut))]
  }

  function NoAnswers(n: nat): (answers: seq<Option<bool>>)
    ensures |answers| == n && forall i | 0 <= i < n :: answers[i] == None
  {
    seq(n, _ => None)
  }

  function Outcomes(examples: seq<ReplayExample>, shares: Shares): seq<Outcome> {
    FinalOutcomes(examples, Answers(examples, shares), NoAnswers(|examples|))
  }

  function AtMost(n: nat, limit: nat): nat {
    if n <= limit then n else limit
  }

  lemma OneMoreOutcome(examples: seq<ReplayExample>, shares: Shares)
    requires examples != []
    ensures var n := |examples| - 1;
            var ex := examples[n];
            var k, share := Members(examples[..n], ex.want, ex.heldOut), ShareOf(shares, ex.want, ex.heldOut);
            var answer := AnswerTo(ex.want, k, share);
            Outcomes(examples, shares) == Outcomes(examples[..n], shares) + [OutcomeOf(ex, answer)]
  {
    var n := |examples| - 1;
    var all, before := Outcomes(examples, shares), Outcomes(examples[..n], shares);
    forall i | 0 <= i < n ensures all[i] == before[i] {
      assert Answers(examples, shares)[i] == Answers(examples[..n], shares)[i];
    }
  }

  lemma CountLast(outcomes: seq<Outcome>, o: Outcome, p: Outcome -> bool)
    ensures Count(outcomes + [o], p) == Count(outcomes, p) + (if p(o) then 1 else 0)
  {
    assert (outcomes + [o])[..|outcomes|] == outcomes;
  }

  lemma {:induction false} OutcomesCount(examples: seq<ReplayExample>, shares: Shares, want: bool, heldOut: bool)
    requires ShareOf(shares, want, heldOut).passed <= ShareOf(shares, want, heldOut).scored
    ensures var n, share := Members(examples, want, heldOut), ShareOf(shares, want, heldOut);
            && Count(Outcomes(examples, shares), ScoredIn(want, heldOut)) == AtMost(n, share.scored)
            && Count(Outcomes(examples, shares), PassedIn(want, heldOut)) == AtMost(n, share.passed)
  {
    if examples != [] {
      var n := |examples| - 1;
      var ex, before := examples[n], Outcomes(examples[..n], shares);
      var k, share := Members(examples[..n], ex.want, ex.heldOut), ShareOf(shares, ex.want, ex.heldOut);
      var answer := AnswerTo(ex.want, k, share);
      OutcomesCount(examples[..n], shares, want, heldOut);
      OneMoreOutcome(examples, shares);
      CountLast(before, OutcomeOf(ex, answer), ScoredIn(want, heldOut));
      CountLast(before, OutcomeOf(ex, answer), PassedIn(want, heldOut));
    }
  }

  function SharesOf(r: Round, c: Makeup): Shares
    requires Fits(r, c)
  {
    var (posSeen, posSeenPassed, negSeen, negSeenPassed) := Minus(r.all, r.heldOut);
    Shares(Share(r.heldOut.posTotal, r.heldOut.posPassed), Share(r.heldOut.negTotal, r.heldOut.negPassed),
           Share(posSeen, posSeenPassed), Share(negSeen, negSeenPassed))
  }

  lemma FitsIsOfRun(r: Round, examples: seq<ReplayExample>)
    requires Fits(r, MakeupOf(examples))
    ensures OfRun(r, examples)
  {
    var shares := SharesOf(r, MakeupOf(examples));
    var outcomes := Outcomes(examples, shares);
    SharesScored(r, examples, shares);
    CountsAddUp(outcomes);
    MembersSum(examples);
    SameCounts(r, RoundOf(r.candidate, TallyOf(outcomes)));
  }

  lemma SharesScored(r: Round, examples: seq<ReplayExample>, shares: Shares)
    requires Fits(r, MakeupOf(examples)) && shares == SharesOf(r, MakeupOf(examples))
    ensures var tally := TallyOf(Outcomes(examples, shares));
            tally.heldOut == r.heldOut && Minus(tally.all, tally.heldOut) == Minus(r.all, r.heldOut)
  {
    OutcomesCount(examples, shares, true, true);
    OutcomesCount(examples, shares, false, true);
    OutcomesCount(examples, shares, true, false);
    OutcomesCount(examples, shares, false, false);
    HeldCounts(Outcomes(examples, shares));
    SeenCounts(Outcomes(examples, shares));
  }

  lemma SameCounts(a: Round, b: Round)
    requires a.candidate == b.candidate && a.heldOut == b.heldOut && Minus(a.all, a.heldOut) == Minus(b.all, b.heldOut)
    requires a.total == a.all.posTotal + a.all.negTotal && b.total == b.all.posTotal + b.all.negTotal
    requires a.heldOutTotal == a.heldOut.posTotal + a.heldOut.negTotal
             && b.heldOutTotal == b.heldOut.posTotal + b.heldOut.negTotal
    requires Tallied(a) && Tallied(b) && a.total + a.errored == b.total + b.errored
    ensures a == b
  {
  }

  lemma ReplayFits(candidate: string, examples: seq<ReplayExample>, first: seq<Option<bool>>, retry: seq<Option<bool>>)
    requires |first| == |retry| == |examples|
    ensures Fits(RoundOf(candidate, TallyOf(FinalOutcomes(examples, first, retry))), MakeupOf(examples))
  {
    var outcomes := FinalOutcomes(examples, first, retry);
    HeldCounts(outcomes);
    SeenCounts(outcomes);
    CountsAddUp(outcomes);
    MembersSum(examples);
    ScoredAreMembers(examples, first, retry, true, true);
    ScoredAreMembers(examples, first, retry, false, true);
    ScoredAreMembers(examples, first, retry, true, false);
    ScoredAreMembers(examples, first, retry, false, false);
  }

  /** The rounds that replays of some examples can give are exactly those whose counts fit them. */
  lemma OfRunExactly(r: Round, examples: seq<ReplayExample>)
    ensures OfRun(r, examples) <==> Fits(r, MakeupOf(examples))
  {
    if OfRun(r, examples) {
      var first, retry :| |first| == |retry| == |examples|
          && r == RoundOf(r.candidate, TallyOf(FinalOutcomes(examples, first, retry)));
      ReplayFits(r.candidate, examples, first, retry);
    }
    if Fits(r, MakeupOf(examples)) {
      FitsIsOfRun(r, examples);
    }
  }
}
