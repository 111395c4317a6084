/**
 When the ranking of a run's rounds is transitive (improve.go, `roundBetter`).
 */
module RoundKinds {
  import opened Replay
  import opened Rounds
  import opened RunCorpus
  import RunSelection
  import PruneSelection
  import Sampling

  /** Which scores of a round enter a comparison; what its coverage leaves out is false. */
  datatype Kind = Kind(covered: bool, held: bool, heldBalanced: bool, balanced: bool, unscored: bool)

  function KindOf(r: Round, h: nat): Kind {
    var held := Covered(r) && HeldOutCovered(r, h);
    Kind(Covered(r), held, held && HasBalanced(r.heldOut),
         Covered(r) && HasBalanced(r.all), !Covered(r) && r.total == 0)
  }

  predicate Compatible(k: Kind, l: Kind) {
    k.covered != l.covered || k == l
  }

  lemma AgreeIsCompatible(a: Round, b: Round, h: nat)
    ensures Agree(a, b, h) <==> Compatible(KindOf(a, h), KindOf(b, h))
  {
  }

  ghost predicate AllCompatible(kinds: set<Kind>) {
    forall k, l | k in kinds && l in kinds :: Compatible(k, l)
  }

  function HeldOutOf(examples: seq<ReplayExample>): nat {
    HeldOutSubmitted(MakeupOf(examples))
  }

  ghost predicate OfKinds(r: Round, kinds: set<Kind>, examples: seq<ReplayExample>) {
    OfRun(r, examples) && KindOf(r, HeldOutOf(examples)) in kinds
  }

  /** The ranking is transitive on the rounds of these kinds that replays of the examples give. */
  ghost predicate TransitiveOn(kinds: set<Kind>, examples: seq<ReplayExample>) {
    forall a, b, c
      | && OfKinds(a, kinds, examples) && OfKinds(b, kinds, examples) && OfKinds(c, kinds, examples)
        && RoundBetter(a, b, HeldOutOf(examples)) && RoundBetter(b, c, HeldOutOf(examples)) ::
      RoundBetter(a, c, HeldOutOf(examples))
  }

  /** The kinds that rounds can have: those balanced on the held-out part are balanced overall. */
  predicate Possible(k: Kind) {
    if k.covered then !k.unscored && (k.heldBalanced ==> k.held && k.balanced)
    else !k.held && !k.heldBalanced && !k.balanced
  }

  lemma KindIsPossible(r: Round, examples: seq<ReplayExample>)
    requires OfRun(r, examples)
    ensures Possible(KindOf(r, HeldOutOf(examples)))
  {
    OfRunExactly(r, examples);
  }

  // ---------------------------------------------------------------- compatible kinds

  lemma CompatibleTransitive(a: Round, b: Round, c: Round, h: nat)
    requires var ka, kb, kc := KindOf(a, h), KindOf(b, h), KindOf(c, h);
             Compatible(ka, kb) && Compatible(kb, kc) && Compatible(ka, kc)
    requires RoundBetter(a, b, h) && RoundBetter(b, c, h)
    ensures RoundBetter(a, c, h)
  {
    AgreeIsCompatible(a, b, h);
    AgreeIsCompatible(b, a, h);
    AgreeIsCompatible(b, c, h);
    AgreeIsCompatible(c, b, h);
    AgreeIsCompatible(a, c, h);
    AgreeIsCompatible(c, a, h);
    StrictWeakOrder(a, b, c, h);
  }

  lemma CompatibleIsEnough(kinds: set<Kind>, examples: seq<ReplayExample>)
    requires AllCompatible(kinds)
    ensures TransitiveOn(kinds, examples)
  {
    var h := HeldOutOf(examples);
    forall a, b, c
      | && OfKinds(a, kinds, examples) && OfKinds(b, kinds, examples) && OfKinds(c, kinds, examples)
        && RoundBetter(a, b, h) && RoundBetter(b, c, h)
      ensures RoundBetter(a, c, h)
    {
      CompatibleTransitive(a, b, c, h);
    }
  }

  // ---------------------------------------------------------------- circles

  /** The ranking on kinds and keys: a score counts where both kinds have it. */
  function BetterOn(k: Kind, x: seq<real>, l: Kind, y: seq<real>): bool
    requires |x| == |y| == 6
  {
    if k.covered != l.covered then k.covered
    else if k.heldBalanced && l.heldBalanced && x[1] != y[1] then x[1] > y[1]
    else if k.held && l.held && x[2] != y[2] then x[2] > y[2]
    else if k.balanced && l.balanced && x[3] != y[3] then x[3] > y[3]
    else if !k.unscored && !l.unscored && x[4] != y[4] then x[4] > y[4]
    else x[5] > y[5]
  }

  lemma BetterIsOn(a: Round, b: Round, h: nat)
    ensures RoundBetter(a, b, h) == BetterOn(KindOf(a, h), Key(a, h), KindOf(b, h), Key(b, h))
  {
  }

  /** Three rounds of one run, each better than the next and the last better than the first. */
  ghost predicate Circle(a: Round, b: Round, c: Round, kinds: set<Kind>, examples: seq<ReplayExample>) {
    && OfKinds(a, kinds, examples) && OfKinds(b, kinds, examples) && OfKinds(c, kinds, examples)
    && RoundBetter(a, b, HeldOutOf(examples)) && RoundBetter(b, c, HeldOutOf(examples))
    && RoundBetter(c, a, HeldOutOf(examples))
  }

  /** Thirteen examples: one positive and six negatives held out, two and four shown. */
  const THIRTEEN := Makeup(1, 6, 2, 4)

  function HeldRate(held: ClassCounts): real {
    PassRate(held.posPassed + held.negPassed, held.posTotal + held.negTotal)
  }

  /** A round that scored some of the thirteen, its counts given. */
  lemma Of13(s: string, all: ClassCounts, held: ClassCounts) returns (r: Round)
    requires held.posPassed <= held.posTotal <= 1 && held.negPassed <= held.negTotal <= 6
    requires 0 <= all.posPassed - held.posPassed <= all.posTotal - held.posTotal <= 2
    requires 0 <= all.negPassed - held.negPassed <= all.negTotal - held.negTotal <= 4
    ensures Fits(r, THIRTEEN)
    ensures var covered, heldCovered := all.posTotal + all.negTotal >= 8, held.posTotal + held.negTotal >= 5;
            && KindOf(r, 7) == Kind(covered, covered && heldCovered, covered && heldCovered && HasBalanced(held),
                                    covered && HasBalanced(all), all.posTotal + all.negTotal == 0)
            && Key(r, 7) == [if covered then 1.0 else 0.0,
                             if covered && heldCovered then Balanced(held) else -1.0,
                             if covered && heldCovered then HeldRate(held) else -1.0,
                             if covered then Balanced(all) else -1.0,
                             PassRate(all.posPassed + all.negPassed, all.posTotal + all.negTotal),
                             -(|s| as real)]
  {
    r := Round(s, all.posTotal + all.negTotal, all.posPassed + all.negPassed, 13 - all.posTotal - all.negTotal,
               held.posTotal + held.negTotal, held.posPassed + held.negPassed, all, held);
  }

  /** Half of what was scored is right, on each side that has examples. */
  function Half(balanced: bool): ClassCounts {
    if balanced then ClassCounts(2, 1, 6, 3) else ClassCounts(0, 0, 8, 4)
  }

  /** Held-out examples of one side only, enough of them with half right, or too few. */
  function HalfHeld(held: bool): ClassCounts {
    if held then ClassCounts(0, 0, 6, 3) else ClassCounts(0, 0, 4, 1)
  }

  function HalfRate(has: bool): real {
    if has then 0.5 else -1.0
  }

  lemma HalfScores(balanced: bool)
    ensures var c := Half(balanced);
            Balanced(c) == HalfRate(balanced) && PassRate(c.posPassed + c.negPassed, c.posTotal + c.negTotal) == 0.5
  {
  }

  lemma HalfHeldScores(held: bool)
    ensures var c := HalfHeld(held);
            Balanced(c) == -1.0 && (held ==> PassRate(c.posPassed + c.negPassed, c.posTotal + c.negTotal) == 0.5)
  {
  }

  /** The round that ties on every score it has with the rounds below. */
  lemma Tie(s: string, k: Kind) returns (r: Round)
    requires Possible(k) && k.covered && !k.heldBalanced
    ensures Fits(r, THIRTEEN) && KindOf(r, 7) == k
    ensures Key(r, 7) == [1.0, -1.0, HalfRate(k.held), HalfRate(k.balanced), 0.5, -(|s| as real)]
  {
    HalfScores(k.balanced);
    HalfHeldScores(k.held);
    r := Of13(s, Half(k.balanced), HalfHeld(k.held));
  }

  /** The same, and balanced on the held-out part: `up` tells which side it got right there. */
  lemma HeldBalanced(s: string, k: Kind, up: bool) returns (r: Round)
    requires Possible(k) && k.heldBalanced
    ensures Fits(r, THIRTEEN) && KindOf(r, 7) == k
    ensures Key(r, 7) == [1.0, if up then 0.7 else 0.3, 0.5, 0.5, 0.5, -(|s| as real)]
  {
    var held := if up then ClassCounts(1, 1, 5, 2) else ClassCounts(1, 0, 5, 3);
    HalfScores(k.balanced);
    assert Balanced(held) == (if up then 0.7 else 0.3) && PassRate(3, 6) == 0.5;
    r := Of13(s, Half(k.balanced), held);
  }

  /** The same, but more right on the held-out part. */
  lemma HeldUp(s: string, k: Kind) returns (r: Round)
    requires Possible(k) && k.held && !k.heldBalanced
    ensures Fits(r, THIRTEEN) && KindOf(r, 7) == k
    ensures Key(r, 7) == [1.0, -1.0, 0.6, HalfRate(k.balanced), 0.5, -(|s| as real)]
  {
    var held := ClassCounts(0, 0, 5, 3);
    HalfScores(k.balanced);
    assert Balanced(held) == -1.0 && PassRate(3, 5) == 0.6;
    r := Of13(s, Half(k.balanced), held);
  }

  /** The same, but more right on the smaller side. */
  lemma BalancedUp(s: string, k: Kind) returns (r: Round)
    requires Possible(k) && k.covered && k.balanced && !k.heldBalanced
    ensures Fits(r, THIRTEEN) && KindOf(r, 7) == k
    ensures Key(r, 7) == [1.0, -1.0, HalfRate(k.held), 0.6875, 0.5, -(|s| as real)]
  {
    var all := ClassCounts(2, 2, 8, 3);
    HalfHeldScores(k.held);
    assert Balanced(all) == 0.6875 && PassRate(5, 10) == 0.5;
    r := Of13(s, all, HalfHeld(k.held));
  }

  lemma Uncovered(s: string, k: Kind, scored: nat, passed: nat) returns (r: Round)
    requires Possible(k) && !k.covered && passed <= scored <= 4 && (k.unscored <==> scored == 0)
    ensures Fits(r, THIRTEEN) && KindOf(r, 7) == k
    ensures Key(r, 7) == [0.0, -1.0, -1.0, -1.0, PassRate(passed, scored), -(|s| as real)]
  {
    var none := ClassCounts(0, 0, 0, 0);
    r := Of13(s, ClassCounts(0, 0, scored, passed), none);
  }

  lemma FitsIsOfKinds(r: Round, kinds: set<Kind>, examples: seq<ReplayExample>)
    requires MakeupOf(examples) == THIRTEEN && Fits(r, THIRTEEN) && KindOf(r, 7) in kinds
    ensures OfKinds(r, kinds, examples)
  {
    OfRunExactly(r, examples);
  }

  lemma CircleByKeys(a: Round, b: Round, c: Round, k: Kind, l: Kind, examples: seq<ReplayExample>)
    requires MakeupOf(examples) == THIRTEEN && Fits(a, THIRTEEN) && Fits(b, THIRTEEN) && Fits(c, THIRTEEN)
    requires KindOf(a, 7) in {k, l} && KindOf(b, 7) in {k, l} && KindOf(c, 7) in {k, l}
    requires BetterOn(KindOf(a, 7), Key(a, 7), KindOf(b, 7), Key(b, 7))
    requires BetterOn(KindOf(b, 7), Key(b, 7), KindOf(c, 7), Key(c, 7))
    requires BetterOn(KindOf(c, 7), Key(c, 7), KindOf(a, 7), Key(a, 7))
    ensures Circle(a, b, c, {k, l}, examples)
  {
    FitsIsOfKinds(a, {k, l}, examples);
    FitsIsOfKinds(b, {k, l}, examples);
    FitsIsOfKinds(c, {k, l}, examples);
    BetterIsOn(a, b, 7);
    BetterIsOn(b, c, 7);
    BetterIsOn(c, a, 7);
  }

  /** `a` beats `b` on a score that `c` lacks. On the scores it has, `c` ties with both, and its
      candidate is longer than `b`'s and shorter than `a`'s. */
  lemma CircleOnHeldBalanced(s: string, k: Kind, l: Kind, examples: seq<ReplayExample>)
    returns (a: Round, b: Round, c: Round)
    requires MakeupOf(examples) == THIRTEEN && Possible(k) && Possible(l)
    requires k.heldBalanced && l.covered && !l.heldBalanced
    ensures Circle(a, b, c, {k, l}, examples)
  {
    a := HeldBalanced(s + "xx", k, true);
    b := HeldBalanced(s, k, false);
    c := Tie(s + "x", l);
    CircleByKeys(a, b, c, k, l, examples);
  }

  lemma CircleOnCoverage(s: string, k: Kind, l: Kind, examples: seq<ReplayExample>)
    returns (a: Round, b: Round, c: Round)
    requires MakeupOf(examples) == THIRTEEN && Possible(k) && Possible(l)
    requires k.held && !k.heldBalanced && l.covered && !l.held
    ensures Circle(a, b, c, {k, l}, examples)
  {
    a := HeldUp(s + "xx", k);
    b := Tie(s, k);
    c := Tie(s + "x", l);
    CircleByKeys(a, b, c, k, l, examples);
  }

  lemma CircleOnBalanced(s: string, k: Kind, l: Kind, examples: seq<ReplayExample>)
    returns (a: Round, b: Round, c: Round)
    requires MakeupOf(examples) == THIRTEEN && Possible(k) && Possible(l) && k.covered && l.covered && k.held == l.held
    requires !k.heldBalanced && !l.heldBalanced && k.balanced && !l.balanced
    ensures Circle(a, b, c, {k, l}, examples)
  {
    a := BalancedUp(s + "xx", k);
    b := Tie(s, k);
    c := Tie(s + "x", l);
    CircleByKeys(a, b, c, k, l, examples);
  }

  lemma CircleOnNothing(s: string, k: Kind, l: Kind, examples: seq<ReplayExample>)
    returns (a: Round, b: Round, c: Round)
    requires MakeupOf(examples) == THIRTEEN && Possible(k) && Possible(l) && !k.covered && !l.covered
    requires !k.unscored && l.unscored
    ensures Circle(a, b, c, {k, l}, examples)
  {
    a := Uncovered(s + "xx", k, 2, 2);
    b := Uncovered(s, k, 2, 1);
    c := Uncovered(s + "x", l, 0, 0);
    assert PassRate(2, 2) == 1.0 && PassRate(1, 2) == 0.5;
    CircleByKeys(a, b, c, k, l, examples);
  }

  /** The first score on which the kinds disagree is the first kind's. */
  predicate Leads(k: Kind, l: Kind) {
    if k.unscored != l.unscored then !k.unscored
    else if k.heldBalanced != l.heldBalanced then k.heldBalanced
    else if k.held != l.held then k.held
    else k.balanced
  }

  /** Every two kinds that disagree on a score have three rounds of one run in a circle. */
  lemma KindsCircle(k: Kind, l: Kind, examples: seq<ReplayExample>) returns (a: Round, b: Round, c: Round)
    requires MakeupOf(examples) == THIRTEEN && Possible(k) && Possible(l) && !Compatible(k, l)
    ensures Circle(a, b, c, {k, l}, examples)
  {
    if !Leads(k, l) {
      assert {k, l} == {l, k};
      a, b, c := LeadingCircle(l, k, examples);
    } else {
      a, b, c := LeadingCircle(k, l, examples);
    }
  }

  lemma LeadingCircle(k: Kind, l: Kind, examples: seq<ReplayExample>) returns (a: Round, b: Round, c: Round)
    requires MakeupOf(examples) == THIRTEEN && Possible(k) && Possible(l) && !Compatible(k, l) && Leads(k, l)
    ensures Circle(a, b, c, {k, l}, examples)
  {
    if !k.covered {
      a, b, c := CircleOnNothing("", k, l, examples);
    } else if k.heldBalanced {
      a, b, c := CircleOnHeldBalanced("", k, l, examples);
    } else if k.held != l.held {
      a, b, c := CircleOnCoverage("", k, l, examples);
    } else {
      a, b, c := CircleOnBalanced("", k, l, examples);
    }
  }

  lemma CircleBreaks(kinds: set<Kind>, examples: seq<ReplayExample>)
    requires MakeupOf(examples) == THIRTEEN && (forall k | k in kinds :: Possible(k)) && !AllCompatible(kinds)
    ensures !TransitiveOn(kinds, examples)
  {
    var k, l :| k in kinds && l in kinds && !Compatible(k, l);
    var a, b, c := KindsCircle(k, l, examples);
    assert OfKinds(a, kinds, examples) && OfKinds(b, kinds, examples) && OfKinds(c, kinds, examples);
    RoundBetterAsymmetric(a, c, HeldOutOf(examples));
  }

  /** Caps within the bounds of their settings, and corrections as they are stored. */
  ghost predicate RealRun(pos: seq<Sampling.Example>, neg: seq<Sampling.Example>, improveCap: nat, replayCap: nat) {
    && PruneSelection.Listed(pos, Sampling.ConfirmedPositive) && PruneSelection.Listed(neg, Sampling.ConfirmedNegative)
    && 1 <= improveCap <= 20 && 1 <= replayCap <= 100
  }

  ghost predicate TransitiveInRuns(kinds: set<Kind>) {
    forall pos, neg, improveCap, replayCap | RealRun(pos, neg, improveCap, replayCap) ::
      TransitiveOn(kinds, RunSelection.RunExamples(pos, neg, improveCap, replayCap))
  }

  /** The ranking is transitive on the rounds of some kinds, in every run on stored corrections,
      exactly when no two of the kinds disagree on a score that both are to be compared on; and
      then it is so whatever examples are replayed. */
  lemma TransitiveExactly(kinds: set<Kind>)
    requires forall k | k in kinds :: Possible(k)
    ensures TransitiveInRuns(kinds) <==> AllCompatible(kinds)
    ensures AllCompatible(kinds) ==> forall examples :: TransitiveOn(kinds, examples)
  {
    if AllCompatible(kinds) {
      forall examples ensures TransitiveOn(kinds, examples) {
        CompatibleIsEnough(kinds, examples);
      }
    } else {
      var pos, neg := RunSelection.ThirteenExamples();
      CircleBreaks(kinds, RunSelection.RunExamples(pos, neg, 4, 15));
      assert RealRun(pos, neg, 4, 15);
    }
  }
}
