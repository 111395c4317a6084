/**
 Ranking the rounds of the improve loop (improve.go, `roundBetter`, `scoreBetter`, `passRate`,
 `hasAdequateCoverage`, `selectBestRound`), with scores as exact rationals.

 `RoundBetter` is asymmetric on all rounds. Among rounds that agree on which scores exist it is a
 comparison of keys, so the selection returns the earliest round that no other beats.
 */
module Rounds {
  import opened Wrappers
  import opened Replay

  datatype Round = Round(candidate: string, total: nat, passed: nat, errored: nat,
                         heldOutTotal: nat, heldOutPassed: nat, all: ClassCounts, heldOut: ClassCounts)

  function PassRate(passed: nat, total: nat): real {
    if total == 0 then -1.0 else passed as real / total as real
  }

  /** Whether two scores settle a comparison, and for whom: missing scores and ties settle nothing. */
  function ScoreBetter(a: real, b: real): Option<bool> {
    if a < 0.0 || b < 0.0 || a == b then None else Some(a > b)
  }

  predicate Covered(r: Round) {
    AdequateCoverage(r.total, r.total + r.errored)
  }

  predicate HeldOutCovered(r: Round, heldOutSubmitted: nat) {
    AdequateCoverage(r.heldOutTotal, heldOutSubmitted)
  }

  function RoundBetter(a: Round, b: Round, heldOutSubmitted: nat): bool {
    var heldOut := Covered(a) && Covered(b)
        && HeldOutCovered(a, heldOutSubmitted) && HeldOutCovered(b, heldOutSubmitted);
    var heldOutBalanced := ScoreBetter(Balanced(a.heldOut), Balanced(b.heldOut));
    var heldOutRate :=
        ScoreBetter(PassRate(a.heldOutPassed, a.heldOutTotal), PassRate(b.heldOutPassed, b.heldOutTotal));
    var balanced := ScoreBetter(Balanced(a.all), Balanced(b.all));
    var rate := ScoreBetter(PassRate(a.passed, a.total), PassRate(b.passed, b.total));
    if Covered(a) != Covered(b) then Covered(a)
    else if heldOut && heldOutBalanced.Some? then heldOutBalanced.value
    else if heldOut && heldOutRate.Some? then heldOutRate.value
    else if Covered(a) && balanced.Some? then balanced.value
    else if rate.Some? then rate.value
    else |a.candidate| < |b.candidate|
  }

  /** No two rounds each beat the other, and none beats itself, whatever they scored. */
  lemma RoundBetterAsymmetric(a: Round, b: Round, h: nat)
    ensures !(RoundBetter(a, b, h) && RoundBetter(b, a, h))
    ensures !RoundBetter(a, a, h)
  {
  }

  // ---------------------------------------------------------------- a strict weak order on agreeing rounds

  predicate HasBalanced(c: ClassCounts) {
    c.posTotal > 0 && c.negTotal > 0
  }

  /** Two rounds have the same scores to compare: what is missing for one is missing for the other. */
  predicate Agree(a: Round, b: Round, h: nat) {
    && (Covered(a) && Covered(b) ==>
          && HeldOutCovered(a, h) == HeldOutCovered(b, h)
          && (HeldOutCovered(a, h) ==> HasBalanced(a.heldOut) == HasBalanced(b.heldOut))
          && HasBalanced(a.all) == HasBalanced(b.all))
    && (!Covered(a) && !Covered(b) ==> (a.total == 0 <==> b.total == 0))
  }

  ghost predicate Agreeing(rounds: seq<Round>, h: nat) {
    forall i, j | 0 <= i < |rounds| && 0 <= j < |rounds| :: Agree(rounds[i], rounds[j], h)
  }

  predicate SameExamples(a: Round, b: Round) {
    && a.total == b.total && a.errored == b.errored && a.heldOutTotal == b.heldOutTotal
    && a.all.posTotal == b.all.posTotal && a.all.negTotal == b.all.negTotal
    && a.heldOut.posTotal == b.heldOut.posTotal && a.heldOut.negTotal == b.heldOut.negTotal
  }

  /** What a round is compared on, first to last; the shorter candidate wins a full tie. */
  function Key(r: Round, h: nat): (key: seq<real>)
    ensures |key| == 6
  {
    var held := Covered(r) && HeldOutCovered(r, h);
    [if Covered(r) then 1.0 else 0.0,
     if held then Balanced(r.heldOut) else -1.0,
     if held then PassRate(r.heldOutPassed, r.heldOutTotal) else -1.0,
     if Covered(r) then Balanced(r.all) else -1.0,
     PassRate(r.passed, r.total),
     -(|r.candidate| as real)]
  }

  predicate Greater(xs: seq<real>, ys: seq<real>)
    requires |xs| == |ys|
  {
    xs != [] && (xs[0] > ys[0] || (xs[0] == ys[0] && Greater(xs[1..], ys[1..])))
  }

  lemma GreaterFirst(xs: seq<real>, ys: seq<real>)
    requires |xs| == |ys| == 6
    ensures Greater(xs, ys) <==>
            if xs[0] != ys[0] then xs[0] > ys[0]
            else if xs[1] != ys[1] then xs[1] > ys[1]
            else if xs[2] != ys[2] then xs[2] > ys[2]
            else if xs[3] != ys[3] then xs[3] > ys[3]
            else if xs[4] != ys[4] then xs[4] > ys[4]
            else xs[5] > ys[5]
  {
    assert xs[1..][1..] == xs[2..] && ys[1..][1..] == ys[2..];
    assert xs[2..][1..] == xs[3..] && ys[2..][1..] == ys[3..];
    assert xs[3..][1..] == xs[4..] && ys[3..][1..] == ys[4..];
    assert xs[4..][1..] == xs[5..] && ys[4..][1..] == ys[5..];
    assert Greater(xs[5..], ys[5..]) <==> xs[5] > ys[5];
    assert Greater(xs[4..], ys[4..]) <==> xs[4] > ys[4] || (xs[4] == ys[4] && Greater(xs[5..], ys[5..]));
    assert Greater(xs[3..], ys[3..]) <==> xs[3] > ys[3] || (xs[3] == ys[3] && Greater(xs[4..], ys[4..]));
    assert Greater(xs[2..], ys[2..]) <==> xs[2] > ys[2] || (xs[2] == ys[2] && Greater(xs[3..], ys[3..]));
    assert Greater(xs[1..], ys[1..]) <==> xs[1] > ys[1] || (xs[1] == ys[1] && Greater(xs[2..], ys[2..]));
  }

  /** On rounds that agree, the ranking compares keys. */
  lemma BetterIsGreater(a: Round, b: Round, h: nat)
    requires Agree(a, b, h)
    ensures RoundBetter(a, b, h) <==> Greater(Key(a, h), Key(b, h))
  {
    GreaterFirst(Key(a, h), Key(b, h));
  }

  lemma {:induction false} GreaterOrder(xs: seq<real>, ys: seq<real>, zs: seq<real>)
    requires |xs| == |ys| == |zs|
    ensures Greater(xs, ys) && Greater(ys, zs) ==> Greater(xs, zs)
    ensures Greater(xs, ys) || Greater(ys, xs) || xs == ys
    ensures !(Greater(xs, ys) && Greater(ys, xs))
  {
    if xs != [] {
      GreaterOrder(xs[1..], ys[1..], zs[1..]);
      assert xs == [xs[0]] + xs[1..] && ys == [ys[0]] + ys[1..];
    }
  }

  /** Transitive, and so is not being ranked either way: a strict weak order. */
  lemma StrictWeakOrder(a: Round, b: Round, c: Round, h: nat)
    requires Agree(a, b, h) && Agree(b, a, h) && Agree(b, c, h) && Agree(c, b, h) && Agree(a, c, h) && Agree(c, a, h)
    ensures RoundBetter(a, b, h) && RoundBetter(b, c, h) ==> RoundBetter(a, c, h)
    ensures !RoundBetter(a, b, h) && !RoundBetter(b, a, h) && !RoundBetter(b, c, h) && !RoundBetter(c, b, h)
            ==> !RoundBetter(a, c, h) && !RoundBetter(c, a, h)
  {
    BetterIsGreater(a, b, h);
    BetterIsGreater(b, a, h);
    BetterIsGreater(b, c, h);
    BetterIsGreater(c, b, h);
    BetterIsGreater(a, c, h);
    BetterIsGreater(c, a, h);
    GreaterOrder(Key(a, h), Key(b, h), Key(c, h));
    GreaterOrder(Key(b, h), Key(c, h), Key(a, h));
    GreaterOrder(Key(a, h), Key(c, h), Key(b, h));
  }

  /** Rounds that scored the same examples agree. */
  lemma SameExamplesAgree(rounds: seq<Round>, h: nat)
    requires forall i, j | 0 <= i < |rounds| && 0 <= j < |rounds| :: SameExamples(rounds[i], rounds[j])
    ensures Agreeing(rounds, h)
  {
    forall i, j | 0 <= i < |rounds| && 0 <= j < |rounds| ensures Agree(rounds[i], rounds[j], h) {
      assert SameExamples(rounds[i], rounds[j]);
    }
  }

  // ---------------------------------------------------------------- the ranking rewards getting more right

  lemma RatioGrows(p: nat, q: nat, total: nat)
    requires total > 0 && p <= q
    ensures p as real / total as real <= q as real / total as real
    ensures p < q ==> p as real / total as real < q as real / total as real
  {
    var t := total as real;
    assert (q - p) as real / t >= 0.0;
    assert q as real / t == p as real / t + (q - p) as real / t;
  }

  lemma BalancedGrows(a: ClassCounts, b: ClassCounts)
    requires a.posTotal == b.posTotal && a.negTotal == b.negTotal
    requires a.posPassed >= b.posPassed && a.negPassed >= b.negPassed
    ensures Balanced(a) >= Balanced(b)
    ensures HasBalanced(a) && a.posPassed + a.negPassed > b.posPassed + b.negPassed ==> Balanced(a) > Balanced(b)
  {
    if HasBalanced(a) {
      RatioGrows(b.posPassed, a.posPassed, a.posTotal);
      RatioGrows(b.negPassed, a.negPassed, a.negTotal);
    }
  }

  lemma RateGrows(p: nat, q: nat, total: nat)
    requires p <= q
    ensures PassRate(p, total) <= PassRate(q, total)
    ensures p < q && total > 0 ==> PassRate(p, total) < PassRate(q, total)
  {
    if total > 0 {
      RatioGrows(p, q, total);
    }
  }

  predicate AtLeast(a: ClassCounts, b: ClassCounts) {
    a.posPassed >= b.posPassed && a.negPassed >= b.negPassed
  }

  predicate Tallied(r: Round) {
    r.passed == r.all.posPassed + r.all.negPassed && r.heldOutPassed == r.heldOut.posPassed + r.heldOut.negPassed
  }

  /** On the same examples, a round that does at least as well in every bucket and better in one
      is ranked better, with whatever coverage and however long its text. */
  lemma DominanceWins(a: Round, b: Round, h: nat)
    requires SameExamples(a, b) && Tallied(a) && Tallied(b) && a.total > 0
    requires AtLeast(a.all, b.all) && AtLeast(a.heldOut, b.heldOut) && a.passed > b.passed
    ensures RoundBetter(a, b, h)
  {
    BalancedGrows(a.all, b.all);
    BalancedGrows(a.heldOut, b.heldOut);
    RateGrows(b.passed, a.passed, a.total);
    RateGrows(b.heldOutPassed, a.heldOutPassed, a.heldOutTotal);
  }

  /** At least three fifths of what was submitted was scored. */
  predicate ScoredEnough(scored: nat, submitted: nat) {
    submitted > 0 && 5 * scored >= 3 * submitted
  }

  /** Both have examples of both sides, and their balanced scores differ. */
  predicate BalanceDiffers(a: ClassCounts, b: ClassCounts) {
    HasBalanced(a) && HasBalanced(b) && Balanced(a) != Balanced(b)
  }

  /** Enough examples scored beats too few, whatever the scores. */
  lemma CoverageFirst(a: Round, b: Round, h: nat)
    requires ScoredEnough(a.total, a.total + a.errored) && !ScoredEnough(b.total, b.total + b.errored)
    ensures RoundBetter(a, b, h) && !RoundBetter(b, a, h)
  {
  }

  /** Then better on the held-out examples wins, whatever happens on the others: by the balance of
      the two sides, and where that ties or is missing by the pass rate. */
  lemma HeldOutFirst(a: Round, b: Round, h: nat)
    requires ScoredEnough(a.total, a.total + a.errored) && ScoredEnough(b.total, b.total + b.errored)
    requires ScoredEnough(a.heldOutTotal, h) && ScoredEnough(b.heldOutTotal, h)
    ensures HasBalanced(a.heldOut) && HasBalanced(b.heldOut) && Balanced(a.heldOut) > Balanced(b.heldOut) ==>
              RoundBetter(a, b, h)
    ensures !BalanceDiffers(a.heldOut, b.heldOut) ==>
              a.heldOutPassed * b.heldOutTotal > b.heldOutPassed * a.heldOutTotal ==> RoundBetter(a, b, h)
  {
    RateOrder(a.heldOutPassed, a.heldOutTotal, b.heldOutPassed, b.heldOutTotal);
  }

  lemma RateOrder(p: nat, n: nat, q: nat, m: nat)
    requires n > 0 && m > 0
    ensures p * m > q * n <==> PassRate(p, n) > PassRate(q, m)
  {
    var x, y, s, t := p as real, q as real, n as real, m as real;
    assert (p * m) as real == x * t && (q * n) as real == y * s;
    assert PassRate(p, n) == x / s && PassRate(q, m) == y / t;
    assert x * t > y * s <==> x / s > y / t by {
      assert x == (x / s) * s && y == (y / t) * t;
      assert x * t == (x / s) * (s * t) && y * s == (y / t) * (s * t);
      assert s * t > 0.0;
    }
  }

  /** Held-out examples do not settle it when too few were scored or the counts are the same. */
  predicate HeldOutOpen(a: Round, b: Round, h: nat) {
    || !ScoredEnough(a.heldOutTotal, h) || !ScoredEnough(b.heldOutTotal, h)
    || (a.heldOut == b.heldOut && a.heldOutTotal == b.heldOutTotal && a.heldOutPassed == b.heldOutPassed)
  }

  /** Then the same on all examples: first the balance of the two sides, then the pass rate, and on
      equal counts the shorter candidate. */
  lemma ThenOverall(a: Round, b: Round, h: nat)
    requires ScoredEnough(a.total, a.total + a.errored) && ScoredEnough(b.total, b.total + b.errored)
    requires HeldOutOpen(a, b, h)
    ensures HasBalanced(a.all) && HasBalanced(b.all) && Balanced(a.all) > Balanced(b.all) ==> RoundBetter(a, b, h)
    ensures !BalanceDiffers(a.all, b.all) && a.passed * b.total > b.passed * a.total ==> RoundBetter(a, b, h)
    ensures a.all == b.all && a.passed == b.passed && a.total == b.total ==>
              (RoundBetter(a, b, h) <==> |a.candidate| < |b.candidate|)
  {
    RateOrder(a.passed, a.total, b.passed, b.total);
  }

  /** With too few scored in both, only the pass rate counts, and the length where there is none. */
  lemma UncoveredByRate(a: Round, b: Round, h: nat)
    requires !ScoredEnough(a.total, a.total + a.errored) && !ScoredEnough(b.total, b.total + b.errored)
    ensures a.total > 0 && b.total > 0 && a.passed * b.total > b.passed * a.total ==> RoundBetter(a, b, h)
    ensures a.total == 0 || b.total == 0 || a.passed * b.total == b.passed * a.total ==>
              (RoundBetter(a, b, h) <==> |a.candidate| < |b.candidate|)
  {
    if a.total > 0 && b.total > 0 {
      RateOrder(a.passed, a.total, b.passed, b.total);
      RateOrder(b.passed, b.total, a.passed, a.total);
    }
  }

  // ---------------------------------------------------------------- selecting

  type Ranking = (Round, Round) -> bool

  function RankingFor(heldOutSubmitted: nat): Ranking {
    (a: Round, b: Round) => RoundBetter(a, b, heldOutSubmitted)
  }

  function Best(rounds: seq<Round>, better: Ranking): (best: int)
    ensures if rounds == [] then best == -1 else 0 <= best < |rounds|
  {
    if rounds == [] then -1
    else
      var last := |rounds| - 1;
      var before := Best(rounds[..last], better);
      if before == -1 || better(rounds[last], rounds[before]) then last else before
  }

  /** The ranking orders these rounds: it is asymmetric, and beating an unbeaten round is beating
      every round that does not beat that one. */
  ghost predicate Orders(better: Ranking, rounds: seq<Round>) {
    && (forall x, y | x in rounds && y in rounds && better(x, y) :: !better(y, x))
    && (forall x, y, z | x in rounds && y in rounds && z in rounds && better(x, y) && !better(z, y) :: better(x, z))
  }

  /** Beaten by none of the rounds, and beating every earlier one: the earliest unbeaten round. */
  ghost predicate EarliestUnbeaten(rounds: seq<Round>, better: Ranking, best: int) {
    && 0 <= best < |rounds|
    && (forall j | 0 <= j < |rounds| :: !better(rounds[j], rounds[best]))
    && (forall j | 0 <= j < best :: better(rounds[best], rounds[j]))
  }

  lemma {:induction false} BestWhenOrdered(rounds: seq<Round>, better: Ranking)
    requires Orders(better, rounds) && rounds != []
    ensures EarliestUnbeaten(rounds, better, Best(rounds, better))
  {
    var last := |rounds| - 1;
    var earlier := rounds[..last];
    var x := rounds[last];
    assert x in rounds && !better(x, x);
    if earlier != [] {
      assert forall r | r in earlier :: r in rounds;
      BestWhenOrdered(earlier, better);
      var y := earlier[Best(earlier, better)];
      forall j | 0 <= j < last
        ensures !better(rounds[j], y)
        ensures better(x, y) ==> better(x, rounds[j]) && !better(rounds[j], x)
      {
        assert rounds[j] == earlier[j] && rounds[j] in rounds && y in rounds;
      }
    }
  }

  /** Among rounds that agree, the round picked is the earliest one that no other beats. */
  lemma BestIsEarliestUnbeaten(rounds: seq<Round>, h: nat)
    requires Agreeing(rounds, h) && rounds != []
    ensures EarliestUnbeaten(rounds, RankingFor(h), Best(rounds, RankingFor(h)))
  {
    var better := RankingFor(h);
    forall x, y | x in rounds && y in rounds && better(x, y) ensures !better(y, x) {
      RoundBetterAsymmetric(x, y, h);
    }
    forall x, y, z | x in rounds && y in rounds && z in rounds && better(x, y) && !better(z, y) ensures better(x, z) {
      assert Agree(x, y, h) && Agree(z, y, h) && Agree(x, z, h) && Agree(y, z, h);
      BetterThanUnbeaten(x, y, z, h);
    }
    BestWhenOrdered(rounds, better);
  }

  lemma BetterThanUnbeaten(x: Round, y: Round, z: Round, h: nat)
    requires Agree(x, y, h) && Agree(z, y, h) && Agree(x, z, h)
    ensures RoundBetter(x, y, h) && !RoundBetter(z, y, h) ==> RoundBetter(x, z, h)
  {
    BetterIsGreater(x, y, h);
    BetterIsGreater(z, y, h);
    BetterIsGreater(x, z, h);
    GreaterOrder(Key(x, h), Key(y, h), Key(z, h));
    GreaterOrder(Key(y, h), Key(z, h), Key(x, h));
  }

  method SelectBest(rounds: seq<Round>, better: Ranking) returns (best: int)
    ensures best == Best(rounds, better)
    ensures best == -1 <==> rounds == []
  {
    best := -1;
    for i := 0 to |rounds|
      invariant best == Best(rounds[..i], better)
      invariant best == -1 <==> i == 0
    {
      assert rounds[..i + 1][..i] == rounds[..i];
      if best == -1 || better(rounds[i], rounds[best]) {
        best := i;
      }
    }
    assert rounds[..|rounds|] == rounds;
  }

  method SelectBestRound(rounds: seq<Round>, heldOutSubmitted: nat) returns (best: int)
    ensures best == -1 <==> rounds == []
    ensures best == Best(rounds, RankingFor(heldOutSubmitted))
    ensures rounds != [] && Agreeing(rounds, heldOutSubmitted) ==>
              EarliestUnbeaten(rounds, RankingFor(heldOutSubmitted), best)
  {
    best := SelectBest(rounds, RankingFor(heldOutSubmitted));
    if rounds != [] && Agreeing(rounds, heldOutSubmitted) {
      BestIsEarliestUnbeaten(rounds, heldOutSubmitted);
    }
  }
}
