/**
 From the corrections stored for a rule to the examples its run replays (improve.go,
 `gatherRawExamples`, `sampleExamples`, `replayExamplesFor`).
 */
module RunSelection {
  import opened Wrappers
  import opened RoundRobin
  import opened Sampling
  import opened Corpus
  import opened Prune
  import opened RunCorpus
  import opened PruneSelection
  import Replay

  /** What a run replays: the corpus is gathered once and sampled at both caps. */
  function RunExamples(pos: seq<Example>, neg: seq<Example>, improveCap: nat,
                       replayCap: nat): seq<Replay.ReplayExample> {
    ReplayExamplesFor(Selected(pos, neg, replayCap), Selected(pos, neg, improveCap))
  }

  function PartSampled(pos: seq<Example>, neg: seq<Example>, verdict: Verdict, cap: nat): seq<Example> {
    SampleSpec(OfVerdict(Gather(pos, neg), verdict), cap)
  }

  // ---------------------------------------------------------------- counting the examples of a run

  lemma {:induction false} MembersConcat(xs: seq<Replay.ReplayExample>, ys: seq<Replay.ReplayExample>, want: bool,
                                         heldOut: bool)
    ensures Members(xs + ys, want, heldOut) == Members(xs, want, heldOut) + Members(ys, want, heldOut)
  {
    if ys == [] {
      assert xs + ys == xs;
    } else {
      var n := |ys| - 1;
      assert (xs + ys)[..|xs + ys| - 1] == xs + ys[..n];
      MembersConcat(xs, ys[..n], want, heldOut);
    }
  }

  lemma OneMoreMember(part: seq<Example>, shown: seq<Example>, want: bool, heldOut: bool)
    requires part != []
    ensures var n := |part| - 1;
            var counts := (part[n].verdict == ConfirmedPositive) == want
                && MessageShown(shown, part[n].messageId) != heldOut;
            Members(ReplayExamplesFor(part, shown), want, heldOut)
            == Members(ReplayExamplesFor(part[..n], shown), want, heldOut) + (if counts then 1 else 0)
  {
    assert ReplayExamplesFor(part, shown)[..|part| - 1] == ReplayExamplesFor(part[..|part| - 1], shown);
  }

  lemma {:induction false} PartMembers(part: seq<Example>, shown: seq<Example>, verdict: Verdict, want: bool)
    requires AllOf(part, verdict)
    ensures var examples := ReplayExamplesFor(part, shown);
            if want == (verdict == ConfirmedPositive)
            then Members(examples, want, true) == |HeldOut(part, shown)|
                && Members(examples, want, false) == |part| - |HeldOut(part, shown)|
            else Members(examples, want, true) == 0 == Members(examples, want, false)
  {
    if part != [] {
      var n := |part| - 1;
      PartMembers(part[..n], shown, verdict, want);
      OneMoreMember(part, shown, want, true);
      OneMoreMember(part, shown, want, false);
    }
  }

  lemma SampledRow(pos: seq<Example>, neg: seq<Example>, verdict: Verdict, cap: nat, ex: Example)
    ensures ex in PartSampled(pos, neg, verdict, cap) ==> ex in Gather(pos, neg) && ex.verdict == verdict
    ensures ex in PartSampled(pos, neg, ex.verdict, cap) <==> ex in Selected(pos, neg, cap)
  {
    OfVerdictMembers(Gather(pos, neg), verdict);
    SampleMembers(OfVerdict(Gather(pos, neg), verdict), cap, ex);
    OfVerdictMembers(Gather(pos, neg), ex.verdict);
    SampleMembers(OfVerdict(Gather(pos, neg), ex.verdict), cap, ex);
    SamplePartsMembers(Gather(pos, neg), cap, ex);
  }

  lemma SampledOfVerdict(pos: seq<Example>, neg: seq<Example>, verdict: Verdict, cap: nat)
    ensures AllOf(PartSampled(pos, neg, verdict, cap), verdict)
    ensures NoRepeat(PartSampled(pos, neg, verdict, cap))
  {
    var part := PartSampled(pos, neg, verdict, cap);
    forall i | 0 <= i < |part| ensures part[i].verdict == verdict {
      SampledRow(pos, neg, verdict, cap, part[i]);
    }
    GatherExact(pos, neg);
    assert NoRepeat(Gather(pos, neg));
    OfVerdictMembers(Gather(pos, neg), verdict);
    SampleNoRepeat(OfVerdict(Gather(pos, neg), verdict), cap);
  }

  lemma ShownInPart(pos: seq<Example>, neg: seq<Example>, verdict: Verdict, small: nat, large: nat, ex: Example)
    requires small <= large
    ensures ex in PartSampled(pos, neg, verdict, small) <==>
            ex in PartSampled(pos, neg, verdict, large) && ex in Selected(pos, neg, small)
  {
    SampledRow(pos, neg, verdict, large, ex);
    SampledRow(pos, neg, verdict, small, ex);
    if ex in PartSampled(pos, neg, verdict, small) {
      SampleGrows(OfVerdict(Gather(pos, neg), verdict), small, large, ex);
    }
  }

  /** Of one verdict, the held-out examples are those beyond what the smaller cap samples. */
  lemma PartHeldOut(pos: seq<Example>, neg: seq<Example>, verdict: Verdict, small: nat, large: nat)
    requires small <= large
    ensures var part := PartSampled(pos, neg, verdict, large);
            |HeldOut(part, Selected(pos, neg, small))| == |part| - |PartSampled(pos, neg, verdict, small)|
  {
    var rows, shown := Gather(pos, neg), Selected(pos, neg, small);
    var part, shownPart := PartSampled(pos, neg, verdict, large), PartSampled(pos, neg, verdict, small);
    GatherExact(pos, neg);
    SampledOfVerdict(pos, neg, verdict, small);
    SampledOfVerdict(pos, neg, verdict, large);
    forall ex ensures ex in shown ==> ex in rows {
      SamplePartsMembers(rows, small, ex);
    }
    forall ex ensures ex in part ==> ex in rows {
      SampledRow(pos, neg, verdict, large, ex);
    }
    HeldOutCount(part, shown, rows);
    FilterNoRepeat(part, SetOf(shown));
    FilterMembers(part, SetOf(shown));
    forall ex ensures ex in Filter(part, SetOf(shown)) <==> ex in shownPart {
      ShownInPart(pos, neg, verdict, small, large, ex);
    }
    SameElementsSameLength(Filter(part, SetOf(shown)), shownPart);
  }

  lemma ConcatMembers(xs: seq<Example>, ys: seq<Example>, shown: seq<Example>, want: bool, heldOut: bool)
    ensures Members(ReplayExamplesFor(xs + ys, shown), want, heldOut)
            == Members(ReplayExamplesFor(xs, shown), want, heldOut)
                + Members(ReplayExamplesFor(ys, shown), want, heldOut)
  {
    assert ReplayExamplesFor(xs + ys, shown) == ReplayExamplesFor(xs, shown) + ReplayExamplesFor(ys, shown);
    MembersConcat(ReplayExamplesFor(xs, shown), ReplayExamplesFor(ys, shown), want, heldOut);
  }

  lemma BothMembers(xs: seq<Example>, ys: seq<Example>, shown: seq<Example>, want: bool)
    requires AllOf(xs, ConfirmedPositive) && AllOf(ys, ConfirmedNegative)
    ensures var examples, part := ReplayExamplesFor(xs + ys, shown), if want then xs else ys;
            && Members(examples, want, true) == |HeldOut(part, shown)|
            && Members(examples, want, false) == |part| - |HeldOut(part, shown)|
  {
    ConcatMembers(xs, ys, shown, want, true);
    ConcatMembers(xs, ys, shown, want, false);
    PartMembers(xs, shown, ConfirmedPositive, want);
    PartMembers(ys, shown, ConfirmedNegative, want);
  }

  /** How many examples of each side a run shows and how many it holds out. */
  lemma RunMakeup(pos: seq<Example>, neg: seq<Example>, improveCap: nat, replayCap: nat)
    requires improveCap <= replayCap
    ensures var makeup, p, n :=
            MakeupOf(RunExamples(pos, neg, improveCap, replayCap)), ConfirmedPositive, ConfirmedNegative;
            && makeup.posSeen == |PartSampled(pos, neg, p, improveCap)|
            && makeup.negSeen == |PartSampled(pos, neg, n, improveCap)|
            && makeup.posSeen + makeup.posHeld == |PartSampled(pos, neg, p, replayCap)|
            && makeup.negSeen + makeup.negHeld == |PartSampled(pos, neg, n, replayCap)|
  {
    var shown := Selected(pos, neg, improveCap);
    var xs, ys :=
        PartSampled(pos, neg, ConfirmedPositive, replayCap), PartSampled(pos, neg, ConfirmedNegative, replayCap);
    PartHeldOut(pos, neg, ConfirmedPositive, improveCap, replayCap);
    PartHeldOut(pos, neg, ConfirmedNegative, improveCap, replayCap);
    SampledOfVerdict(pos, neg, ConfirmedPositive, replayCap);
    SampledOfVerdict(pos, neg, ConfirmedNegative, replayCap);
    BothMembers(xs, ys, shown, true);
    BothMembers(xs, ys, shown, false);
  }

  // ---------------------------------------------------------------- thirteen examples

  function Correction(id: nat, verdict: Verdict, resolvedBy: Option<int>): Example {
    Example(id, seq(id, _ => 'm'), verdict, "a", "", resolvedBy, 1, false, false, 0)
  }

  /** `n` live rows of one verdict, newest first, with ids from `from + n` down. */
  function LiveRows(n: nat, from: nat, verdict: Verdict): (rows: seq<Example>)
    ensures |rows| == n && forall i | 0 <= i < n :: rows[i] == Correction(from + n - i, verdict, None)
  {
    seq(n, i requires 0 <= i < n => Correction(from + n - i, verdict, None))
  }

  /** Three live rows and an older resolved one from the same sender. */
  function Positives(): seq<Example> {
    LiveRows(3, 1, ConfirmedPositive) + [Correction(1, ConfirmedPositive, Some(1))]
  }

  function Negatives(): seq<Example> {
    LiveRows(10, 4, ConfirmedNegative)
  }

  lemma {:induction false} AllLive(rows: seq<Example>)
    requires forall i | 0 <= i < |rows| :: !Resolved(rows[i])
    ensures Live(rows) == rows
  {
    if rows != [] {
      AllLive(rows[..|rows| - 1]);
      assert rows == rows[..|rows| - 1] + [rows[|rows| - 1]];
    }
  }

  lemma {:induction false} AllInTier(rows: seq<Example>, tier: Tier)
    requires forall i | 0 <= i < |rows| :: TierOf(rows[i]) == tier
    ensures InTier(rows, tier) == rows && forall t | t != tier :: InTier(rows, t) == []
  {
    if rows != [] {
      AllInTier(rows[..|rows| - 1], tier);
    }
  }

  /** A verdict with examples of one tier only. */
  lemma OneTierSample(rows: seq<Example>, tier: Tier, cap: nat)
    requires forall i | 0 <= i < |rows| :: TierOf(rows[i]) == tier
    ensures |SampleSpec(rows, cap)| == Clamp(if tier == RecurredTier then RecurredBudget(cap) else cap, |rows|)
  {
    AllInTier(rows, tier);
  }

  lemma PositivesRecur(pos: seq<Example>)
    requires pos == Positives()
    ensures Listed(pos, ConfirmedPositive) && Live(Marked(pos)) == MarkAll(LiveRows(3, 1, ConfirmedPositive), pos)
    ensures forall i | 0 <= i < 3 ::
            Live(Marked(pos))[i].recurred && Live(Marked(pos))[i].messageId == seq(4 - i, _ => 'm')
  {
    var live, old' := LiveRows(3, 1, ConfirmedPositive), Correction(1, ConfirmedPositive, Some(1));
    AllLive(live);
    LiveLast(live, old');
    LiveMarkAll(pos, pos);
    assert pos[3] == old';
    forall i | 0 <= i < 3 ensures MarkOne(pos, live[i]).recurred {
      VersionBySenderIs(pos, KeyOf(live[i]), live[i].verdict);
      assert ResolvedSender(old', KeyOf(live[i]), live[i].verdict);
    }
  }

  lemma NegativesPlain(neg: seq<Example>)
    requires neg == Negatives()
    ensures Listed(neg, ConfirmedNegative) && Live(Marked(neg)) == neg
  {
    forall i | 0 <= i < |neg| ensures MarkOne(neg, neg[i]) == neg[i] {
      VersionByMessageIs(neg, neg[i].messageId, neg[i].verdict);
      VersionBySenderIs(neg, KeyOf(neg[i]), neg[i].verdict);
    }
    AllLive(neg);
    assert Marked(neg) == neg;
  }

  lemma GatheredParts(pos: seq<Example>, neg: seq<Example>)
    requires pos == Positives() && neg == Negatives()
    ensures OfVerdict(Gather(pos, neg), ConfirmedPositive) == Live(Marked(pos))
    ensures OfVerdict(Gather(pos, neg), ConfirmedNegative) == neg
  {
    PositivesRecur(pos);
    NegativesPlain(neg);
    var live := Live(Marked(pos));
    var both := live + neg;
    forall i, j | 0 <= i < j < |both| ensures both[i].messageId != both[j].messageId {
      assert |both[i].messageId| == (if i < 3 then 4 - i else 17 - i)
             && |both[j].messageId| == (if j < 3 then 4 - j else 17 - j);
    }
    GatheredDirectly(pos, neg);
    LiveMarkedVerdict(pos, ConfirmedPositive);
    OfVerdictSplit(live, neg);
  }

  lemma PositiveSize(pos: seq<Example>, neg: seq<Example>, cap: nat)
    requires pos == Positives() && neg == Negatives()
    ensures |PartSampled(pos, neg, ConfirmedPositive, cap)| == Clamp(RecurredBudget(cap), 3)
  {
    PositivesRecur(pos);
    GatheredParts(pos, neg);
    OneTierSample(Live(Marked(pos)), RecurredTier, cap);
  }

  lemma NegativeSize(pos: seq<Example>, neg: seq<Example>, cap: nat)
    requires pos == Positives() && neg == Negatives()
    ensures |PartSampled(pos, neg, ConfirmedNegative, cap)| == Clamp(cap, 10)
  {
    GatheredParts(pos, neg);
    OneTierSample(neg, ConfirmedTier, cap);
  }

  lemma ThirteenSampled(pos: seq<Example>, neg: seq<Example>)
    requires pos == Positives() && neg == Negatives()
    ensures |PartSampled(pos, neg, ConfirmedPositive, 4)| == 2 && |PartSampled(pos, neg, ConfirmedPositive, 15)| == 3
    ensures |PartSampled(pos, neg, ConfirmedNegative, 4)| == 4 && |PartSampled(pos, neg, ConfirmedNegative, 15)| == 10
  {
    PositiveSize(pos, neg, 4);
    PositiveSize(pos, neg, 15);
    NegativeSize(pos, neg, 4);
    NegativeSize(pos, neg, 15);
  }

  lemma ThirteenMakeup(pos: seq<Example>, neg: seq<Example>)
    requires pos == Positives() && neg == Negatives()
    ensures MakeupOf(RunExamples(pos, neg, 4, 15)) == Makeup(1, 6, 2, 4)
  {
    ThirteenSampled(pos, neg);
    RunMakeup(pos, neg, 4, 15);
  }

  /** A rule with three positive corrections that recurred and ten negative ones: an improve cap of
      4 shows two and four of them, and the default replay cap of 15 replays them all. */
  lemma ThirteenExamples() returns (pos: seq<Example>, neg: seq<Example>)
    ensures Listed(pos, ConfirmedPositive) && Listed(neg, ConfirmedNegative)
    ensures MakeupOf(RunExamples(pos, neg, 4, 15)) == Makeup(1, 6, 2, 4)
  {
    pos, neg := Positives(), Negatives();
    PositivesRecur(pos);
    NegativesPlain(neg);
    ThirteenMakeup(pos, neg);
  }
}
