/**
 What a prune pass does to selection on any corpus (improve.go, `gatherRawExamples`,
 `sampleExamples`, `pruneKeepSet`; prune.go, `pruneVerdict`).
 */
module PruneSelection {
  import opened RoundRobin
  import opened Sampling
  import opened Corpus
  import opened Prune

  /** Rows of one verdict, newest first, as a query for them returns them. */
  ghost predicate Listed(rows: seq<Example>, verdict: Verdict) {
    AllOf(rows, verdict) && NewestFirst(rows)
  }

  lemma ListedDistinct(rows: seq<Example>, verdict: Verdict)
    requires Listed(rows, verdict)
    ensures DistinctIds(rows)
  {
  }

  // ---------------------------------------------------------------- order is kept

  lemma {:induction false} LiveNewest(rows: seq<Example>)
    requires NewestFirst(rows)
    ensures NewestFirst(Live(rows))
  {
    if rows != [] {
      var n := |rows| - 1;
      LiveNewest(rows[..n]);
      LiveMembers(rows[..n]);
      forall k | 0 <= k < |Live(rows[..n])| && Live(rows[..n])[k].verdict == rows[n].verdict
        ensures rows[n].id < Live(rows[..n])[k].id
      {
        assert Live(rows[..n])[k] in rows[..n];
      }
    }
  }

  lemma {:induction false} SurvivorsNewest(rows: seq<Example>, keep: set<int>)
    requires NewestFirst(rows)
    ensures NewestFirst(Survivors(rows, keep))
  {
    if rows != [] {
      var n := |rows| - 1;
      var before := Survivors(rows[..n], keep);
      SurvivorsNewest(rows[..n], keep);
      SurvivorsMembers(rows[..n], keep);
      forall k | 0 <= k < |before| && before[k].verdict == rows[n].verdict ensures rows[n].id < before[k].id {
        assert before[k] in rows[..n];
      }
    }
  }

  lemma ListedOneMore(rows: seq<Example>, ex: Example, verdict: Verdict)
    requires Listed(rows, verdict) && ex.verdict == verdict && forall k | 0 <= k < |rows| :: ex.id < rows[k].id
    ensures Listed(rows + [ex], verdict)
  {
  }

  lemma {:induction false} OfVerdictNewest(rows: seq<Example>, verdict: Verdict)
    requires NewestFirst(rows)
    ensures Listed(OfVerdict(rows, verdict), verdict)
  {
    if rows != [] {
      var n := |rows| - 1;
      var before := OfVerdict(rows[..n], verdict);
      OfVerdictNewest(rows[..n], verdict);
      OfVerdictMembers(rows[..n], verdict);
      if rows[n].verdict == verdict {
        forall k | 0 <= k < |before| ensures rows[n].id < before[k].id {
          assert before[k] in rows[..n];
        }
        ListedOneMore(before, rows[n], verdict);
      }
    }
  }

  lemma {:induction false} FilterListed(rows: seq<Example>, keep: set<Example>, verdict: Verdict)
    requires Listed(rows, verdict)
    ensures Listed(Filter(rows, keep), verdict)
  {
    if rows != [] {
      var n := |rows| - 1;
      var before := Filter(rows[..n], keep);
      FilterListed(rows[..n], keep, verdict);
      FilterMembers(rows[..n], keep);
      forall k | 0 <= k < |before| ensures rows[n].id < before[k].id {
        assert before[k] in rows[..n];
      }
    }
  }

  lemma GatherNewest(pos: seq<Example>, neg: seq<Example>)
    requires Listed(pos, ConfirmedPositive) && Listed(neg, ConfirmedNegative)
    ensures NewestFirst(Gather(pos, neg))
  {
    var rows := Window(pos) + Window(neg);
    assert NewestFirst(rows);
    assert NewestFirst(Marked(rows));
    LiveNewest(Marked(rows));
    GatherExact(pos, neg);
  }

  lemma PrunedListed(rows: seq<Example>, verdict: Verdict, cap: nat)
    requires Listed(rows, verdict)
    ensures Listed(Pruned(rows, cap), verdict)
  {
    PrunedShape(rows, verdict, cap);
    SurvivorsNewest(rows, KeepIds(rows, cap));
  }

  lemma LastRow(rows: seq<Example>, verdict: Verdict, ex: Example)
    requires Listed(rows, verdict) && rows != []
    ensures var n := |rows| - 1;
            && (ex in rows ==> rows[n].id <= ex.id && (ex.id == rows[n].id ==> ex == rows[n]))
            && (ex in rows[..n] <==> ex in rows && ex.id != rows[n].id)
  {
    var n := |rows| - 1;
    if ex in rows {
      var i :| 0 <= i <= n && rows[i] == ex;
      assert i < n ==> rows[..n][i] == ex && rows[n].id < rows[i].id;
    }
    if ex in rows[..n] {
      var i :| 0 <= i < n && rows[..n][i] == ex;
      assert rows[i] == ex && rows[n].id < rows[i].id;
    }
  }

  /** Rows of one verdict, newest first, are determined by which rows they are. */
  lemma {:induction false} SameRowsSameOrder(xs: seq<Example>, ys: seq<Example>, verdict: Verdict)
    requires Listed(xs, verdict) && Listed(ys, verdict) && forall x :: x in xs <==> x in ys
    ensures xs == ys
  {
    assert ys != [] ==> ys[0] in ys;
    if xs != [] {
      var m, n := |xs| - 1, |ys| - 1;
      assert xs[m] in ys;
      LastRow(xs, verdict, ys[n]);
      LastRow(ys, verdict, xs[m]);
      forall x ensures x in xs[..m] <==> x in ys[..n] {
        LastRow(xs, verdict, x);
        LastRow(ys, verdict, x);
      }
      SameRowsSameOrder(xs[..m], ys[..n], verdict);
      assert xs == xs[..m] + [xs[m]] && ys == ys[..n] + [ys[n]];
    }
  }

  // ---------------------------------------------------------------- what is left is taken whole

  lemma {:induction false} PrefixRecurred(rows: seq<Example>, n: nat, raw: seq<Example>)
    requires n <= |rows|
    ensures |Live(rows[..n])| <= |Live(rows)|
    ensures |InTier(MarkAll(Live(rows[..n]), raw), RecurredTier)| <= |InTier(MarkAll(Live(rows), raw), RecurredTier)|
  {
    if n == |rows| {
      assert rows[..n] == rows;
    } else {
      var m := |rows| - 1;
      assert rows[..m][..n] == rows[..n];
      assert rows == rows[..m] + [rows[m]];
      PrefixRecurred(rows[..m], n, raw);
      LiveLast(rows[..m], rows[m]);
      MarkAllLast(Live(rows[..m]), rows[m], raw);
      TierGrows(MarkAll(Live(rows[..m]), raw), MarkOne(raw, rows[m]));
    }
  }

  lemma TierGrows(rows: seq<Example>, ex: Example)
    ensures |InTier(rows, RecurredTier)| <= |InTier(rows + [ex], RecurredTier)|
  {
    assert (rows + [ex])[..|rows|] == rows;
  }

  /** The live rows selection reads of one verdict. */
  function LiveRead(rows: seq<Example>): seq<Example> {
    Live(Marked(Window(rows)))
  }

  lemma LeftFits(raw: seq<Example>, verdict: Verdict, cap: nat)
    requires Listed(raw, verdict)
    ensures var live := LiveRead(Pruned(raw, cap));
            |live| <= cap && |InTier(live, RecurredTier)| <= RecurredBudget(cap)
  {
    var left := Pruned(raw, cap);
    var read := Window(left);
    ListedDistinct(raw, verdict);
    KeptRecurredFit(raw, cap);
    SurvivorsMembers(raw, KeepIds(raw, cap));
    assert read == left[..|read|];
    PrefixRecurred(left, |read|, raw);
    LiveMarkAll(read, read);
    forall r | r in read ensures r in raw {
      assert r in left;
    }
    FewerRecurred(Live(read), raw, read);
  }

  lemma {:induction false} SetOfSize<T>(xs: seq<T>)
    ensures |SetOf(xs)| <= |xs|
    ensures NoRepeat(xs) ==> |SetOf(xs)| == |xs|
  {
    if xs == [] {
      assert SetOf(xs) == {};
    } else {
      var n := |xs| - 1;
      SetOfSize(xs[..n]);
      assert xs == xs[..n] + [xs[n]];
      assert SetOf(xs) == SetOf(xs[..n]) + {xs[n]};
      assert NoRepeat(xs) ==> xs[n] !in SetOf(xs[..n]);
    }
  }

  lemma FewerElements<T>(xs: seq<T>, ys: seq<T>)
    requires NoRepeat(xs) && forall x :: x in xs ==> x in ys
    ensures |xs| <= |ys|
  {
    SetOfSize(xs);
    SetOfSize(ys);
    assert SetOf(ys) == SetOf(xs) + (SetOf(ys) - SetOf(xs));
  }

  lemma GatheredPart(pos: seq<Example>, neg: seq<Example>, verdict: Verdict)
    requires AllOf(pos, ConfirmedPositive) && AllOf(neg, ConfirmedNegative)
    requires verdict == ConfirmedPositive || verdict == ConfirmedNegative
    ensures var part, rows := OfVerdict(Gather(pos, neg), verdict), if verdict == ConfirmedPositive then pos else neg;
            NoRepeat(part) && forall ex :: ex in part ==> ex in LiveRead(rows)
  {
    var out := Gather(pos, neg);
    MarkedByVerdict(Window(pos), Window(neg));
    LiveMarkedVerdict(Window(pos), ConfirmedPositive);
    LiveMarkedVerdict(Window(neg), ConfirmedNegative);
    GatherExact(pos, neg);
    OfVerdictMembers(out, verdict);
    assert NoRepeat(out);
  }

  lemma PartTakenWhole(part: seq<Example>, live: seq<Example>, cap: nat, ex: Example)
    requires NoRepeat(part) && (forall x :: x in part ==> x in live) && ex in part
    requires |live| <= cap && |InTier(live, RecurredTier)| <= RecurredBudget(cap)
    ensures ex in SampleSpec(part, cap)
  {
    FewerElements(part, live);
    InTierMembers(part, RecurredTier);
    InTierMembers(live, RecurredTier);
    FewerElements(InTier(part, RecurredTier), InTier(live, RecurredTier));
    SampleTakesAll(part, cap, ex);
  }

  lemma TakenOfVerdict(raw: seq<Example>, verdict: Verdict, cap: nat, part: seq<Example>, ex: Example)
    requires Listed(raw, verdict) && NoRepeat(part) && ex in part
    requires forall x :: x in part ==> x in LiveRead(Pruned(raw, cap))
    ensures ex in SampleSpec(part, cap)
  {
    LeftFits(raw, verdict, cap);
    PartTakenWhole(part, LiveRead(Pruned(raw, cap)), cap, ex);
  }

  lemma LeftTakenWhole(pos: seq<Example>, neg: seq<Example>, cap: nat, ex: Example)
    requires Listed(pos, ConfirmedPositive) && Listed(neg, ConfirmedNegative)
    ensures ex in Selected(Pruned(pos, cap), Pruned(neg, cap), cap)
            <==> ex in Gather(Pruned(pos, cap), Pruned(neg, cap))
  {
    var p, n := Pruned(pos, cap), Pruned(neg, cap);
    var out := Gather(p, n);
    PrunedListed(pos, ConfirmedPositive, cap);
    PrunedListed(neg, ConfirmedNegative, cap);
    SamplePartsMembers(out, cap, ex);
    if ex in out {
      OfVerdictMembers(out, ex.verdict);
      GatheredPart(p, n, ex.verdict);
      if ex.verdict == ConfirmedPositive {
        TakenOfVerdict(pos, ConfirmedPositive, cap, OfVerdict(out, ex.verdict), ex);
      } else {
        TakenOfVerdict(neg, ConfirmedNegative, cap, OfVerdict(out, ex.verdict), ex);
      }
    }
  }

  // ---------------------------------------------------------------- when selection is unchanged

  lemma SampledPart(rows: seq<Example>, verdict: Verdict, cap: nat, ex: Example)
    ensures ex in Filter(OfVerdict(rows, verdict), SetOf(SampleSpec(OfVerdict(rows, verdict), cap)))
            <==> ex.verdict == verdict && ex in SampleExamples(rows, cap)
  {
    var part := OfVerdict(rows, verdict);
    FilterMembers(part, SetOf(SampleSpec(part, cap)));
    OfVerdictMembers(rows, verdict);
    SamplePartsMembers(rows, cap, ex);
    SampleMembers(part, cap, ex);
  }

  /** Of one verdict, if the cap picks the same rows from two gathered corpora, then every smaller
      cap samples the same from both, in the same order. */
  lemma PartFromCap(before: seq<Example>, after: seq<Example>, verdict: Verdict, small: nat, cap: nat)
    requires NewestFirst(before) && NewestFirst(after)
             && DistinctMessages(before) && DistinctMessages(after) && small <= cap
    requires forall ex :: ex in SampleExamples(after, cap) <==> ex in SampleExamples(before, cap)
    ensures SampleSpec(OfVerdict(after, verdict), small) == SampleSpec(OfVerdict(before, verdict), small)
  {
    var a, b := OfVerdict(after, verdict), OfVerdict(before, verdict);
    var keptA, keptB := Filter(a, SetOf(SampleSpec(a, cap))), Filter(b, SetOf(SampleSpec(b, cap)));
    PartKept(before, verdict, small, cap);
    PartKept(after, verdict, small, cap);
    forall ex ensures ex in keptA <==> ex in keptB {
      SampledPart(before, verdict, cap, ex);
      SampledPart(after, verdict, cap, ex);
    }
    SameRowsSameOrder(keptA, keptB, verdict);
  }

  lemma PartKept(rows: seq<Example>, verdict: Verdict, small: nat, cap: nat)
    requires NewestFirst(rows) && DistinctMessages(rows) && small <= cap
    ensures var part := OfVerdict(rows, verdict);
            var kept := Filter(part, SetOf(SampleSpec(part, cap)));
            Listed(kept, verdict) && SampleSpec(kept, small) == SampleSpec(part, small)
  {
    var part := OfVerdict(rows, verdict);
    OfVerdictNewest(rows, verdict);
    FilterListed(part, SetOf(SampleSpec(part, cap)), verdict);
    OfVerdictMembers(rows, verdict);
    assert NoRepeat(rows);
    SampleStable(part, small, cap);
  }

  lemma SameBelow(pos: seq<Example>, neg: seq<Example>, pos': seq<Example>, neg': seq<Example>, cap: nat, small: nat)
    requires Listed(pos, ConfirmedPositive) && Listed(neg, ConfirmedNegative) && small <= cap
    requires Listed(pos', ConfirmedPositive) && Listed(neg', ConfirmedNegative)
    requires SetOf(Selected(pos', neg', cap)) == SetOf(Selected(pos, neg, cap))
    ensures Selected(pos', neg', small) == Selected(pos, neg, small)
  {
    var before, after := Gather(pos, neg), Gather(pos', neg');
    forall ex ensures ex in SampleExamples(after, cap) <==> ex in SampleExamples(before, cap) {
      assert ex in SetOf(SampleExamples(after, cap)) <==> ex in SetOf(SampleExamples(before, cap));
    }
    GatherNewest(pos, neg);
    GatherNewest(pos', neg');
    GatherExact(pos, neg);
    GatherExact(pos', neg');
    PartFromCap(before, after, ConfirmedPositive, small, cap);
    PartFromCap(before, after, ConfirmedNegative, small, cap);
  }

  /** Two corpora are selected from alike at every cap up to one, down to the order, exactly when
      that cap picks the same rows, with the same marks, from both. */
  lemma SameSelectionExactly(pos: seq<Example>, neg: seq<Example>, pos': seq<Example>, neg': seq<Example>, cap: nat)
    requires Listed(pos, ConfirmedPositive) && Listed(neg, ConfirmedNegative)
    requires Listed(pos', ConfirmedPositive) && Listed(neg', ConfirmedNegative)
    ensures SetOf(Selected(pos', neg', cap)) == SetOf(Selected(pos, neg, cap)) <==>
            forall small: nat | small <= cap :: Selected(pos', neg', small) == Selected(pos, neg, small)
  {
    if SetOf(Selected(pos', neg', cap)) == SetOf(Selected(pos, neg, cap)) {
      forall small: nat | small <= cap ensures Selected(pos', neg', small) == Selected(pos, neg, small) {
        SameBelow(pos, neg, pos', neg', cap, small);
      }
    }
  }

  lemma SameSet<T>(xs: seq<T>, ys: seq<T>)
    requires forall x :: x in ys <==> x in xs
    ensures SetOf(xs) == SetOf(ys)
  {
  }

  lemma WholeSelection(pos: seq<Example>, neg: seq<Example>, cap: nat)
    requires Listed(pos, ConfirmedPositive) && Listed(neg, ConfirmedNegative)
    ensures SetOf(Selected(Pruned(pos, cap), Pruned(neg, cap), cap))
            == SetOf(Gather(Pruned(pos, cap), Pruned(neg, cap)))
  {
    var picked, gathered :=
        Selected(Pruned(pos, cap), Pruned(neg, cap), cap), Gather(Pruned(pos, cap), Pruned(neg, cap));
    forall ex ensures ex in picked <==> ex in gathered {
      LeftTakenWhole(pos, neg, cap, ex);
    }
    SameSet(gathered, picked);
  }

  /** When both verdicts are pruned, that cap picks all that is gathered afterwards. So selection is
      unchanged exactly when what is gathered then is what the prune cap selected before. */
  lemma SelectionUnchangedExactly(pos: seq<Example>, neg: seq<Example>, cap: nat)
    requires Listed(pos, ConfirmedPositive) && Listed(neg, ConfirmedNegative)
    ensures SetOf(Gather(Pruned(pos, cap), Pruned(neg, cap))) == SetOf(Selected(pos, neg, cap)) <==>
            forall small: nat | small <= cap ::
                Selected(Pruned(pos, cap), Pruned(neg, cap), small) == Selected(pos, neg, small)
  {
    PrunedListed(pos, ConfirmedPositive, cap);
    PrunedListed(neg, ConfirmedNegative, cap);
    WholeSelection(pos, neg, cap);
    SameSelectionExactly(pos, neg, Pruned(pos, cap), Pruned(neg, cap), cap);
  }

  // ---------------------------------------------------------------- said of the corpus before the prune

  /** The rule of the prune for one row: a live one stays if the cap samples it, a resolved one if it
      is among the newest up to the cap. */
  predicate Stays(read: seq<Example>, cap: nat, ex: Example) {
    if Resolved(ex) then ex in KeptResolved(read, cap) else MarkOne(read, ex) in LiveSample(read, cap)
  }

  function Staying(rows: seq<Example>, read: seq<Example>, cap: nat): seq<Example> {
    if rows == [] then []
    else
      var n := |rows| - 1;
      Staying(rows[..n], read, cap) + (if Stays(read, cap, rows[n]) then [rows[n]] else [])
  }

  /** What a prune pass is to leave of a verdict: everything below the buffer, and otherwise what
      stays of the newest 2000 rows, and the rows beyond. */
  function Kept(raw: seq<Example>, cap: nat): seq<Example> {
    var n := ReadCount(raw);
    if ShouldPrune(|raw|, cap) then Staying(raw[..n], raw[..n], cap) + raw[n..] else raw
  }

  lemma InPrefix(rows: seq<Example>, n: nat, i: nat)
    requires DistinctIds(rows) && n <= |rows| && i < |rows|
    ensures rows[i] in rows[..n] <==> i < n
  {
    if rows[i] in rows[..n] {
      var j :| 0 <= j < n && rows[..n][j] == rows[i];
      assert rows[j] == rows[i];
    }
  }

  lemma StaysIsKept(read: seq<Example>, cap: nat, ex: Example)
    requires DistinctIds(read) && ex in read
    ensures Stays(read, cap, ex) <==> ex.id in KeepIds(read, cap)
  {
    if Resolved(ex) {
      ResolvedMembers(read);
      ResolvedDistinct(read);
      var i :| 0 <= i < |ResolvedOf(read)| && ResolvedOf(read)[i] == ex;
      ResolvedKept(read, cap, i);
      InPrefix(ResolvedOf(read), |KeptResolved(read, cap)|, i);
    } else {
      KeptLive(read, cap, ex);
    }
  }

  lemma {:induction false} StayingSurvive(rows: seq<Example>, read: seq<Example>, cap: nat)
    requires DistinctIds(read) && forall ex :: ex in rows ==> ex in read
    ensures Staying(rows, read, cap) == Survivors(rows, KeepIds(read, cap))
  {
    if rows != [] {
      var n := |rows| - 1;
      StayingSurvive(rows[..n], read, cap);
      assert rows[n] in rows;
      StaysIsKept(read, cap, rows[n]);
    }
  }

  /** The rule and the prune pass agree. */
  lemma KeptIsLeft(raw: seq<Example>, cap: nat)
    requires DistinctIds(raw)
    ensures Kept(raw, cap) == AfterPrune(raw, cap)
  {
    StayingSurvive(raw[..ReadCount(raw)], raw[..ReadCount(raw)], cap);
  }

  lemma AfterPruneListed(raw: seq<Example>, verdict: Verdict, cap: nat)
    requires Listed(raw, verdict)
    ensures Listed(AfterPrune(raw, cap), verdict)
  {
    var n := ReadCount(raw);
    var read, rest := raw[..n], raw[n..];
    var left := Pruned(read, cap);
    PrunedListed(read, verdict, cap);
    SurvivorsMembers(read, KeepIds(read, cap));
    forall i, j | 0 <= i < |left| && 0 <= j < |rest| ensures rest[j].id < left[i].id {
      assert left[i] in read;
    }
    ListedJoin(left, rest, verdict);
  }

  lemma ListedJoin(xs: seq<Example>, ys: seq<Example>, verdict: Verdict)
    requires Listed(xs, verdict) && Listed(ys, verdict)
    requires forall i, j | 0 <= i < |xs| && 0 <= j < |ys| :: ys[j].id < xs[i].id
    ensures Listed(xs + ys, verdict)
  {
  }

  /** For every corpus: a prune pass leaves every selection at a cap up to the prune cap unchanged,
      down to the order, exactly when the prune cap picks, from the rows that are to stay and with
      the marks these give, what it picks from all rows. */
  lemma PruneKeepsSelectionExactly(pos: seq<Example>, neg: seq<Example>, cap: nat)
    requires Listed(pos, ConfirmedPositive) && Listed(neg, ConfirmedNegative)
    ensures SetOf(Selected(Kept(pos, cap), Kept(neg, cap), cap)) == SetOf(Selected(pos, neg, cap)) <==>
            forall small: nat | small <= cap ::
              Selected(AfterPrune(pos, cap), AfterPrune(neg, cap), small) == Selected(pos, neg, small)
  {
    ListedDistinct(pos, ConfirmedPositive);
    ListedDistinct(neg, ConfirmedNegative);
    KeptIsLeft(pos, cap);
    KeptIsLeft(neg, cap);
    AfterPruneListed(pos, ConfirmedPositive, cap);
    AfterPruneListed(neg, ConfirmedNegative, cap);
    SameSelectionExactly(pos, neg, AfterPrune(pos, cap), AfterPrune(neg, cap), cap);
  }
}
