/**
 The bounded improve and replay loop (improve.go, `improveLoopStop` and the loop of
 `improveAndFinalizeSuggestion`).

 What a round's rewrite scores, whether its model call fails, and whether time remains are
 whatever the caller supplies. Whatever they are, the loop ends within its budget, the rounds up
 to the chosen one each beat the one before, and the chosen one is the last or the one before it.
 */
module ImproveLoop {
  import opened Wrappers
  import opened Rounds

  /** One attempt: the model call fails, or a rewrite comes back and is scored. */
  datatype Attempt = Failed | Rewritten(round: Round)

  predicate Perfect(r: Round) {
    r.total > 0 && r.passed == r.total && Covered(r)
  }

  datatype Reason = Silent | PerfectScore | NoImprovement | OutOfTime

  function ImproveLoopStop(n: int, maxRounds: int, replayOn: bool, last: Round, improved: bool,
                           timeRemains: bool): (stop: Option<Reason>) {
    if !replayOn then Some(Silent)
    else if Perfect(last) then Some(PerfectScore)
    else if n >= maxRounds then Some(Silent)
    else if n > 1 && !improved then Some(NoImprovement)
    else if !timeRemains then Some(OutOfTime)
    else None
  }

  /** Whether the loop stops after its first `n` rounds. */
  predicate StopsAfter(rounds: seq<Round>, maxRounds: int, replayOn: bool, better: Ranking, timeRemains: bool)
    requires rounds != []
  {
    var last := |rounds| - 1;
    ImproveLoopStop(|rounds|, maxRounds, replayOn, rounds[last], Best(rounds, better) == last, timeRemains).Some?
  }

  /** The loop did not stop after any of these rounds. */
  predicate KeptGoing(rounds: seq<Round>, maxRounds: int, replayOn: bool, better: Ranking, timeRemains: seq<bool>)
    requires |rounds| <= |timeRemains|
  {
    rounds == []
    || (&& !StopsAfter(rounds, maxRounds, replayOn, better, timeRemains[|rounds| - 1])
        && KeptGoing(rounds[..|rounds| - 1], maxRounds, replayOn, better, timeRemains))
  }

  /** Each round beats the one before it. */
  predicate Chain(rounds: seq<Round>, better: Ranking) {
    |rounds| <= 1
    || (better(rounds[|rounds| - 1], rounds[|rounds| - 2]) && Chain(rounds[..|rounds| - 1], better))
  }

  lemma BestOfOneMore(rounds: seq<Round>, r: Round, better: Ranking)
    ensures Best(rounds + [r], better)
            == if rounds == [] || better(r, rounds[Best(rounds, better)]) then |rounds| else Best(rounds, better)
  {
    assert (rounds + [r])[..|rounds|] == rounds;
  }

  lemma ChainOfOneMore(rounds: seq<Round>, r: Round, better: Ranking)
    requires Chain(rounds, better) && (rounds == [] || better(r, rounds[|rounds| - 1]))
    ensures Chain(rounds + [r], better)
  {
    assert (rounds + [r])[..|rounds|] == rounds;
  }

  /** While every round so far was the best when it came, the next one either extends the chain
      and is the best, or leaves the one before it the best. */
  lemma ChainOrLast(rounds: seq<Round>, r: Round, better: Ranking)
    requires rounds != [] ==> Best(rounds, better) == |rounds| - 1
    requires Chain(rounds, better)
    ensures if rounds == [] || better(r, rounds[|rounds| - 1])
            then Best(rounds + [r], better) == |rounds| && Chain(rounds + [r], better)
            else Best(rounds + [r], better) == |rounds| - 1
  {
    BestOfOneMore(rounds, r, better);
    if rounds == [] || better(r, rounds[|rounds| - 1]) {
      ChainOfOneMore(rounds, r, better);
    }
  }

  /** Without a replay there is nothing to iterate on: one round. */
  function Budget(maxRounds: nat, replayOn: bool): nat {
    if replayOn then maxRounds else 1
  }

  ghost predicate From(rounds: seq<Round>, attempts: seq<Attempt>) {
    |rounds| <= |attempts| && forall k | 0 <= k < |rounds| :: attempts[k] == Rewritten(rounds[k])
  }

  /** How the loop ends: it stops after its last round and after none before, or the next model
      call fails. */
  ghost predicate Ended(rounds: seq<Round>, budget: nat, replayOn: bool, better: Ranking, attempts: seq<Attempt>,
                        timeRemains: seq<bool>)
    requires |attempts| == |timeRemains|
  {
    && From(rounds, attempts) && |rounds| <= budget
    && if rounds == [] then attempts != [] && attempts[0].Failed?
       else if StopsAfter(rounds, budget, replayOn, better, timeRemains[|rounds| - 1])
       then KeptGoing(rounds[..|rounds| - 1], budget, replayOn, better, timeRemains)
       else KeptGoing(rounds, budget, replayOn, better, timeRemains)
            && |rounds| < |attempts| && attempts[|rounds|].Failed?
  }

  /** What the loop picks: the last round or the one before it, ending a chain in which each round
      beats the one before. */
  ghost predicate Picked(rounds: seq<Round>, better: Ranking, best: int) {
    if rounds == [] then best == -1
    else
      && (best == |rounds| - 1 || (best == |rounds| - 2 && 0 <= best && !better(rounds[best + 1], rounds[best])))
      && Chain(rounds[..best + 1], better)
  }

  /** Where the loop stands between rounds: it kept going, and every round beat the one before. */
  ghost predicate Running(rounds: seq<Round>, budget: nat, replayOn: bool, better: Ranking,
                          attempts: seq<Attempt>, timeRemains: seq<bool>)
    requires |attempts| == |timeRemains|
  {
    && From(rounds, attempts) && |rounds| < budget
    && (rounds != [] ==> Best(rounds, better) == |rounds| - 1)
    && Chain(rounds, better) && KeptGoing(rounds, budget, replayOn, better, timeRemains)
  }

  lemma FailureEnds(rounds: seq<Round>, budget: nat, replayOn: bool, better: Ranking,
                    attempts: seq<Attempt>, timeRemains: seq<bool>)
    requires |attempts| == |timeRemains| && Running(rounds, budget, replayOn, better, attempts, timeRemains)
    requires |rounds| < |attempts| && attempts[|rounds|].Failed?
    ensures Ended(rounds, budget, replayOn, better, attempts, timeRemains)
    ensures Picked(rounds, better, Best(rounds, better))
  {
    assert rounds[..|rounds|] == rounds;
  }

  lemma FromOneMore(rounds: seq<Round>, r: Round, attempts: seq<Attempt>)
    requires From(rounds, attempts) && |rounds| < |attempts| && attempts[|rounds|] == Rewritten(r)
    ensures From(rounds + [r], attempts)
  {
  }

  lemma PickedLast(rounds: seq<Round>, better: Ranking)
    requires rounds != [] && Chain(rounds, better)
    ensures Picked(rounds, better, |rounds| - 1)
  {
    assert rounds[..|rounds|] == rounds;
  }

  lemma PickedBefore(rounds: seq<Round>, r: Round, better: Ranking)
    requires rounds != [] && Chain(rounds, better) && !better(r, rounds[|rounds| - 1])
    ensures Picked(rounds + [r], better, |rounds| - 1)
  {
    assert (rounds + [r])[..|rounds|] == rounds;
  }

  lemma PickedOneMore(rounds: seq<Round>, r: Round, better: Ranking)
    requires (rounds != [] ==> Best(rounds, better) == |rounds| - 1) && Chain(rounds, better)
    ensures Picked(rounds + [r], better, Best(rounds + [r], better))
  {
    ChainOrLast(rounds, r, better);
    if rounds == [] || better(r, rounds[|rounds| - 1]) {
      PickedLast(rounds + [r], better);
    } else {
      PickedBefore(rounds, r, better);
    }
  }

  lemma RoundEndsOrRuns(rounds: seq<Round>, r: Round, budget: nat, replayOn: bool, better: Ranking,
                        attempts: seq<Attempt>, timeRemains: seq<bool>)
    requires |attempts| == |timeRemains| && Running(rounds, budget, replayOn, better, attempts, timeRemains)
    requires |rounds| < |attempts| && attempts[|rounds|] == Rewritten(r)
    ensures var after := rounds + [r];
            && Picked(after, better, Best(after, better))
            && if StopsAfter(after, budget, replayOn, better, timeRemains[|rounds|])
               then Ended(after, budget, replayOn, better, attempts, timeRemains)
               else Running(after, budget, replayOn, better, attempts, timeRemains)
  {
    var after := rounds + [r];
    PickedOneMore(rounds, r, better);
    ChainOrLast(rounds, r, better);
    FromOneMore(rounds, r, attempts);
    assert after[..|after| - 1] == rounds;
  }

  /** The rounds the loop ends with, from where it stands. */
  function Rest(rounds: seq<Round>, budget: nat, replayOn: bool, better: Ranking,
                attempts: seq<Attempt>, timeRemains: seq<bool>): seq<Round>
    requires |attempts| == |timeRemains|
    decreases |attempts| - |rounds|
  {
    if |rounds| >= |attempts| || attempts[|rounds|].Failed? then rounds
    else
      var after := rounds + [attempts[|rounds|].round];
      if StopsAfter(after, budget, replayOn, better, timeRemains[|rounds|]) then after
      else Rest(after, budget, replayOn, better, attempts, timeRemains)
  }

  lemma RestOne(rounds: seq<Round>, budget: nat, replayOn: bool, better: Ranking,
                attempts: seq<Attempt>, timeRemains: seq<bool>)
    requires |attempts| == |timeRemains| && |rounds| < |attempts|
    ensures Rest(rounds, budget, replayOn, better, attempts, timeRemains)
            == match attempts[|rounds|]
               case Failed => rounds
               case Rewritten(r) =>
                 if StopsAfter(rounds + [r], budget, replayOn, better, timeRemains[|rounds|]) then rounds + [r]
                 else Rest(rounds + [r], budget, replayOn, better, attempts, timeRemains)
  {
  }

  lemma {:induction false} RestEnds(rounds: seq<Round>, budget: nat, replayOn: bool, better: Ranking,
                                    attempts: seq<Attempt>, timeRemains: seq<bool>)
    requires |attempts| == |timeRemains| && budget <= |attempts|
    requires Running(rounds, budget, replayOn, better, attempts, timeRemains)
    ensures var all := Rest(rounds, budget, replayOn, better, attempts, timeRemains);
            && Ended(all, budget, replayOn, better, attempts, timeRemains)
            && Picked(all, better, Best(all, better))
    decreases |attempts| - |rounds|
  {
    if attempts[|rounds|].Failed? {
      FailureEnds(rounds, budget, replayOn, better, attempts, timeRemains);
    } else {
      var r := attempts[|rounds|].round;
      RoundEndsOrRuns(rounds, r, budget, replayOn, better, attempts, timeRemains);
      if !StopsAfter(rounds + [r], budget, replayOn, better, timeRemains[|rounds|]) {
        RestEnds(rounds + [r], budget, replayOn, better, attempts, timeRemains);
      }
    }
  }

  /** Why the loop stops after its last round, if it does. */
  function StopOf(rounds: seq<Round>, budget: nat, replayOn: bool, better: Ranking,
                  timeRemains: seq<bool>): Option<Reason>
    requires |rounds| <= |timeRemains|
  {
    var n := |rounds|;
    if n == 0 then None
    else ImproveLoopStop(n, budget, replayOn, rounds[n - 1], Best(rounds, better) == n - 1, timeRemains[n - 1])
  }

  method RunRounds(maxRounds: nat, replayOn: bool, better: Ranking, attempts: seq<Attempt>, timeRemains: seq<bool>)
    returns (rounds: seq<Round>, best: int, why: Option<Reason>)
    requires maxRounds >= 1 && |attempts| == |timeRemains| == maxRounds
    ensures rounds == Rest([], Budget(maxRounds, replayOn), replayOn, better, attempts, timeRemains)
    ensures best == Best(rounds, better) && |rounds| <= maxRounds
    ensures why == StopOf(rounds, Budget(maxRounds, replayOn), replayOn, better, timeRemains)
  {
    var budget := if replayOn then maxRounds else 1;
    rounds, best, why := [], -1, None;
    var n := 1;
    while n <= budget
      invariant 1 <= n <= budget && |rounds| == n - 1
      invariant Rest(rounds, budget, replayOn, better, attempts, timeRemains)
                == Rest([], budget, replayOn, better, attempts, timeRemains)
      invariant best == Best(rounds, better)
      invariant why == None == StopOf(rounds, budget, replayOn, better, timeRemains)
      decreases budget - n
    {
      RestOne(rounds, budget, replayOn, better, attempts, timeRemains);
      if attempts[n - 1].Failed? {
        return;
      }
      var round := attempts[n - 1].round;
      rounds := rounds + [round];
      best := SelectBest(rounds, better);
      var improved := best == |rounds| - 1;
      why := ImproveLoopStop(n, budget, replayOn, round, improved, timeRemains[n - 1]);
      if why.Some? {
        return;
      }
      n := n + 1;
    }
  }

  /** There was every ground for another round after round k: replay is on, time is left, round k
      did not score everything right on enough examples, and it beat the round before it. */
  predicate GoesOn(rounds: seq<Round>, k: nat, replayOn: bool, better: Ranking, timeRemains: seq<bool>)
    requires 1 <= k <= |rounds| <= |timeRemains|
  {
    var r := rounds[k - 1];
    && replayOn && timeRemains[k - 1]
    && !(r.total > 0 && r.passed == r.total && 5 * r.total >= 3 * (r.total + r.errored))
    && (k == 1 || better(r, rounds[k - 2]))
  }

  /** What a note on the trace claims of the last round. */
  predicate Explains(why: Reason, rounds: seq<Round>, maxRounds: nat, replayOn: bool, better: Ranking,
                     timeRemains: seq<bool>)
    requires 1 <= |rounds| <= |timeRemains|
  {
    var n, r := |rounds|, rounds[|rounds| - 1];
    match why
    case Silent => !replayOn || n == maxRounds
    case PerfectScore => r.total > 0 && r.passed == r.total
    case NoImprovement => n > 1 && !better(r, rounds[n - 2])
    case OutOfTime => !timeRemains[n - 1]
  }

  lemma LastWasBest(rounds: seq<Round>, better: Ranking)
    requires |rounds| > 1 && Best(rounds[..|rounds| - 1], better) == |rounds| - 2
    ensures Best(rounds, better) == |rounds| - 1 <==> better(rounds[|rounds| - 1], rounds[|rounds| - 2])
  {
  }

  /** Where the rule did not stop the loop it had every ground to go on. */
  lemma {:induction false} KeptGoingHadGround(rounds: seq<Round>, maxRounds: nat, replayOn: bool, better: Ranking,
                                              timeRemains: seq<bool>, k: nat)
    requires |rounds| <= |timeRemains| && 1 <= k <= |rounds|
    requires KeptGoing(rounds, Budget(maxRounds, replayOn), replayOn, better, timeRemains)
    ensures GoesOn(rounds, k, replayOn, better, timeRemains)
    ensures Best(rounds[..k], better) == k - 1 && k < maxRounds
    decreases |rounds|
  {
    var n := |rounds|;
    if k < n {
      KeptGoingHadGround(rounds[..n - 1], maxRounds, replayOn, better, timeRemains, k);
      assert rounds[..n - 1][..k] == rounds[..k];
    } else {
      assert rounds[..n] == rounds;
      if n > 1 {
        KeptGoingHadGround(rounds[..n - 1], maxRounds, replayOn, better, timeRemains, n - 1);
        assert rounds[..n - 1][..n - 1] == rounds[..n - 1];
        LastWasBest(rounds, better);
      } else {
        assert rounds[..0] == [];
      }
    }
  }

  /** After every round but the last there was every ground to go on. After the last there was too if
      the next model call failed; otherwise the budget was spent or a ground was missing, and the
      note says which. */
  ghost predicate EndsRightly(rounds: seq<Round>, why: Option<Reason>, maxRounds: nat, replayOn: bool, better: Ranking,
                              attempts: seq<Attempt>, timeRemains: seq<bool>)
    requires |rounds| <= |attempts| == |timeRemains| == maxRounds
  {
    && (forall k | 1 <= k < |rounds| :: GoesOn(rounds, k, replayOn, better, timeRemains))
    && match why
       case None => |rounds| < maxRounds && attempts[|rounds|].Failed?
                    && (rounds != [] ==> GoesOn(rounds, |rounds|, replayOn, better, timeRemains))
       case Some(reason) => rounds != [] && Explains(reason, rounds, maxRounds, replayOn, better, timeRemains)
                            && (|rounds| == maxRounds || !GoesOn(rounds, |rounds|, replayOn, better, timeRemains))
  }

  /** The loop runs another round exactly when it has every ground to, its budget lasts and the next
      model call does not fail; and its note says which ground was missing. */
  lemma LoopEndsExactly(rounds: seq<Round>, maxRounds: nat, replayOn: bool, better: Ranking,
                        attempts: seq<Attempt>, timeRemains: seq<bool>)
    requires |attempts| == |timeRemains| == maxRounds
    requires Ended(rounds, Budget(maxRounds, replayOn), replayOn, better, attempts, timeRemains)
    ensures var why := StopOf(rounds, Budget(maxRounds, replayOn), replayOn, better, timeRemains);
            EndsRightly(rounds, why, maxRounds, replayOn, better, attempts, timeRemains)
  {
    var n, budget := |rounds|, Budget(maxRounds, replayOn);
    if n > 0 {
      var before := rounds[..n - 1];
      KeptBefore(rounds, budget, replayOn, better, timeRemains);
      forall k | 1 <= k < n ensures GoesOn(rounds, k, replayOn, better, timeRemains) {
        KeptGoingHadGround(before, maxRounds, replayOn, better, timeRemains, k);
      }
      if n > 1 {
        KeptGoingHadGround(before, maxRounds, replayOn, better, timeRemains, n - 1);
        assert before[..n - 1] == before;
        LastWasBest(rounds, better);
      }
      if StopOf(rounds, budget, replayOn, better, timeRemains).None? {
        KeptGoingHadGround(rounds, maxRounds, replayOn, better, timeRemains, n);
      }
    }
  }

  lemma KeptBefore(rounds: seq<Round>, budget: nat, replayOn: bool, better: Ranking, timeRemains: seq<bool>)
    requires 1 <= |rounds| <= |timeRemains|
    ensures KeptGoing(rounds, budget, replayOn, better, timeRemains) ==>
              KeptGoing(rounds[..|rounds| - 1], budget, replayOn, better, timeRemains)
  {
  }

  /** `attempts[n]` is what attempt n + 1 would give and `timeRemains[n]` whether there would be
      time for another after it. `why` is the note on the end, None after a failed call. */
  method ImproveAndFinalize(maxRounds: nat, replayOn: bool, heldOutSubmitted: nat,
                            attempts: seq<Attempt>, timeRemains: seq<bool>)
    returns (rounds: seq<Round>, best: int, why: Option<Reason>)
    requires maxRounds >= 1 && |attempts| == |timeRemains| == maxRounds
    ensures |rounds| <= maxRounds && forall k | 0 <= k < |rounds| :: attempts[k] == Rewritten(rounds[k])
    ensures EndsRightly(rounds, why, maxRounds, replayOn, RankingFor(heldOutSubmitted), attempts, timeRemains)
    ensures var better := RankingFor(heldOutSubmitted);
            && Ended(rounds, Budget(maxRounds, replayOn), replayOn, better, attempts, timeRemains)
            && Picked(rounds, better, best) && best == Best(rounds, better)
            && (rounds != [] && Agreeing(rounds, heldOutSubmitted) ==> EarliestUnbeaten(rounds, better, best))
  {
    var better := RankingFor(heldOutSubmitted);
    rounds, best, why := RunRounds(maxRounds, replayOn, better, attempts, timeRemains);
    RestEnds([], Budget(maxRounds, replayOn), replayOn, better, attempts, timeRemains);
    LoopEndsExactly(rounds, maxRounds, replayOn, better, attempts, timeRemains);
    if rounds != [] && Agreeing(rounds, heldOutSubmitted) {
      BestIsEarliestUnbeaten(rounds, heldOutSubmitted);
    }
  }
}
