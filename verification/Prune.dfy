/**
 Pruning a rule's example corpus (improve.go, `shouldPruneVerdict` and `pruneKeepSet`;
 prune.go, `pruneVerdict`).

 The promise is that pruning deletes only what selection would never pick. On a corpus that
 selection reads in full and that has no message with two live rows, `PruneInvisibleExactly`
 says when it is kept: exactly when no row the sampler would pick owes its recurrence mark to a
 resolved row beyond the newest ones up to the cap. `PruneSelection` says it for every corpus.
 */
module Prune {
  import opened Wrappers
  import opened RoundRobin
  import opened Sampling
  import opened Corpus

  const PRUNE_BUFFER: nat := 10
  const PRUNE_READ_CEILING: nat := 2000

  predicate ShouldPrune(count: nat, verdictCap: nat) {
    count > verdictCap + PRUNE_BUFFER
  }

  function ResolvedOf(rows: seq<Example>): seq<Example> {
    if rows == [] then []
    else
      var n := |rows| - 1;
      if Resolved(rows[n]) then ResolvedOf(rows[..n]) + [rows[n]] else ResolvedOf(rows[..n])
  }

  function Ids(rows: seq<Example>): set<int> {
    set ex | ex in rows :: ex.id
  }

  function LiveSample(raw: seq<Example>, verdictCap: nat): seq<Example> {
    SampleSpec(Live(Marked(raw)), verdictCap)
  }

  /** `pruneKeepSet`: the live rows the sampler would pick at the cap, and the newest resolved
      rows up to the cap. */
  function KeepIds(raw: seq<Example>, verdictCap: nat): set<int> {
    var resolved := ResolvedOf(raw);
    Ids(LiveSample(raw, verdictCap)) + Ids(resolved[..Clamp(verdictCap, |resolved|)])
  }

  method SplitResolved(rows: seq<Example>) returns (live: seq<Example>, resolved: seq<Example>)
    ensures live == Live(rows) && resolved == ResolvedOf(rows)
  {
    live, resolved := [], [];
    for i := 0 to |rows|
      invariant live == Live(rows[..i]) && resolved == ResolvedOf(rows[..i])
    {
      assert rows[..i + 1][..i] == rows[..i];
      if rows[i].resolvedBy.Some? {
        resolved := resolved + [rows[i]];
      } else {
        live := live + [rows[i]];
      }
    }
    assert rows[..|rows|] == rows;
  }

  method AddIds(keep0: set<int>, rows: seq<Example>, limit: nat) returns (keep: set<int>)
    ensures keep == keep0 + Ids(rows[..Clamp(limit, |rows|)])
  {
    keep := keep0;
    var i := 0;
    while i < |rows|
      invariant 0 <= i <= |rows| && i <= limit
      invariant keep == keep0 + Ids(rows[..i])
    {
      if i >= limit {
        break;
      }
      keep := keep + {rows[i].id};
      i := i + 1;
    }
  }

  method PruneKeepSet(raw: seq<Example>, verdictCap: nat) returns (keep: set<int>)
    ensures keep == KeepIds(raw, verdictCap)
  {
    var rows := new Example[|raw|](i requires 0 <= i < |raw| => raw[i]);
    assert rows[..] == raw;
    MarkRecurrences(rows);
    var live, resolved := SplitResolved(rows[..]);
    ResolvedUnmarked(raw, raw);
    var sample := SampleVerdict(live, verdictCap);
    keep := AddIds({}, sample, |sample|);
    assert sample[..|sample|] == sample;
    keep := AddIds(keep, resolved, verdictCap);
  }

  lemma {:induction false} ResolvedUnmarked(rows: seq<Example>, examples: seq<Example>)
    ensures ResolvedOf(MarkAll(rows, examples)) == ResolvedOf(rows)
  {
    if rows != [] {
      var n := |rows| - 1;
      ResolvedUnmarked(rows[..n], examples);
      assert MarkAll(rows, examples)[..n] == MarkAll(rows[..n], examples);
    }
  }

  function Survivors(rows: seq<Example>, keep: set<int>): seq<Example> {
    if rows == [] then []
    else
      var n := |rows| - 1;
      if rows[n].id in keep then Survivors(rows[..n], keep) + [rows[n]] else Survivors(rows[..n], keep)
  }

  /** What one prune pass leaves of a verdict's rows. */
  function Pruned(raw: seq<Example>, verdictCap: nat): seq<Example> {
    Survivors(raw, KeepIds(raw, verdictCap))
  }

  function Removed(rows: seq<Example>, keep: set<int>): seq<Example> {
    if rows == [] then []
    else
      var n := |rows| - 1;
      if rows[n].id in keep then Removed(rows[..n], keep) else Removed(rows[..n], keep) + [rows[n]]
  }

  lemma {:induction false} RemovedMembers(rows: seq<Example>, keep: set<int>)
    ensures multiset(Survivors(rows, keep)) + multiset(Removed(rows, keep)) == multiset(rows)
    ensures forall ex :: ex in Removed(rows, keep) ==> ex.id !in keep
  {
    if rows != [] {
      var n := |rows| - 1;
      RemovedMembers(rows[..n], keep);
      assert rows == rows[..n] + [rows[n]];
    }
  }

  method DeleteOutside(raw: seq<Example>, keep: set<int>) returns (left: seq<Example>, deleted: seq<Example>)
    ensures left == Survivors(raw, keep) && deleted == Removed(raw, keep)
  {
    left, deleted := [], [];
    for i := 0 to |raw|
      invariant left == Survivors(raw[..i], keep) && deleted == Removed(raw[..i], keep)
    {
      assert raw[..i + 1][..i] == raw[..i];
      if raw[i].id !in keep {
        deleted := deleted + [raw[i]];
      } else {
        left := left + [raw[i]];
      }
    }
    assert raw[..|raw|] == raw;
  }

  lemma DeletedAndLeft(read: seq<Example>, keep: set<int>, rest: seq<Example>)
    ensures multiset(Survivors(read, keep) + rest) + multiset(Removed(read, keep)) == multiset(read + rest)
    ensures forall ex :: ex in Removed(read, keep) ==> ex.id !in keep
  {
    RemovedMembers(read, keep);
  }

  /** How many of the newest rows one prune reads. */
  function ReadCount(raw: seq<Example>): nat {
    if |raw| <= PRUNE_READ_CEILING then |raw| else PRUNE_READ_CEILING
  }

  /** A verdict's rows after one prune pass: nothing is touched below the cap plus the buffer;
      otherwise, of the rows up to the read ceiling, exactly those outside the keep set are gone. */
  function AfterPrune(raw: seq<Example>, verdictCap: nat): seq<Example> {
    var n := ReadCount(raw);
    if ShouldPrune(|raw|, verdictCap) then Pruned(raw[..n], verdictCap) + raw[n..] else raw
  }

  method PruneVerdict(raw: seq<Example>, verdictCap: nat) returns (left: seq<Example>, deleted: seq<Example>)
    ensures left == AfterPrune(raw, verdictCap)
    ensures |raw| <= verdictCap + 10 ==> left == raw
    ensures multiset(left) + multiset(deleted) == multiset(raw)
    ensures forall ex :: ex in deleted ==> ex.id !in KeepIds(raw[..ReadCount(raw)], verdictCap)
  {
    if !ShouldPrune(|raw|, verdictCap) {
      left, deleted := raw, [];
    } else {
      var read := raw[..ReadCount(raw)];
      var keep := PruneKeepSet(read, verdictCap);
      left, deleted := DeleteOutside(read, keep);
      DeletedAndLeft(read, keep, raw[ReadCount(raw)..]);
      assert raw == read + raw[ReadCount(raw)..];
      left := left + raw[ReadCount(raw)..];
    }
  }

  // ---------------------------------------------------------------- structure of a prune

  lemma {:induction false} SurvivorsMembers(rows: seq<Example>, keep: set<int>)
    ensures forall ex :: ex in Survivors(rows, keep) <==> ex in rows && ex.id in keep
    ensures DistinctIds(rows) ==> DistinctIds(Survivors(rows, keep))
  {
    if rows != [] {
      var n := |rows| - 1;
      SurvivorsMembers(rows[..n], keep);
      assert rows == rows[..n] + [rows[n]];
      forall k | 0 <= k < |Survivors(rows[..n], keep)| && DistinctIds(rows)
        ensures Survivors(rows[..n], keep)[k].id != rows[n].id
      {
        assert Survivors(rows[..n], keep)[k] in rows[..n];
      }
    }
  }

  lemma {:induction false} SurvivorsAll(rows: seq<Example>, keep: set<int>)
    requires forall ex :: ex in rows ==> ex.id in keep
    ensures Survivors(rows, keep) == rows
  {
    if rows != [] {
      var n := |rows| - 1;
      SurvivorsAll(rows[..n], keep);
      assert rows == rows[..n] + [rows[n]];
    }
  }

  lemma {:induction false} LiveMarkAll(rows: seq<Example>, examples: seq<Example>)
    ensures Live(MarkAll(rows, examples)) == MarkAll(Live(rows), examples)
  {
    if rows != [] {
      var n := |rows| - 1;
      LiveMarkAll(rows[..n], examples);
      assert MarkAll(rows, examples)[..n] == MarkAll(rows[..n], examples);
    }
  }

  lemma {:induction false} ResolvedMembers(rows: seq<Example>)
    ensures forall ex :: ex in ResolvedOf(rows) <==> ex in rows && Resolved(ex)
  {
    if rows != [] {
      var n := |rows| - 1;
      ResolvedMembers(rows[..n]);
      assert rows == rows[..n] + [rows[n]];
    }
  }

  /** Two rows of a corpus with distinct ids that agree on the id are the same row. */
  lemma SameIdSameRow(rows: seq<Example>, a: Example, b: Example)
    requires DistinctIds(rows) && a in rows && b in rows && a.id == b.id
    ensures a == b
  {
  }

  lemma DistinctRows(rows: seq<Example>, a: Example, b: Example)
    requires DistinctIds(rows) && a in rows && b in rows && a != b
    ensures a.id != b.id
  {
  }

  lemma MarkedRow(rows: seq<Example>, x: Example) returns (ex: Example)
    requires x in Marked(rows)
    ensures ex in rows && x == MarkOne(rows, ex) && x.id == ex.id && Resolved(x) == Resolved(ex)
  {
    var i :| 0 <= i < |rows| && Marked(rows)[i] == x;
    ex := rows[i];
  }

  lemma MarkedDistinct(rows: seq<Example>)
    requires DistinctIds(rows)
    ensures NoRepeat(Live(Marked(rows)))
  {
    LiveDistinct(Marked(rows));
  }

  lemma {:induction false} LiveDistinct(rows: seq<Example>)
    requires DistinctIds(rows)
    ensures NoRepeat(Live(rows)) && DistinctIds(Live(rows))
  {
    if rows != [] {
      var n := |rows| - 1;
      LiveDistinct(rows[..n]);
      LiveMembers(rows[..n]);
      forall k | 0 <= k < |Live(rows[..n])| ensures Live(rows[..n])[k].id != rows[n].id {
        assert Live(rows[..n])[k] in rows[..n];
      }
    }
  }

  /** A live row's id is kept exactly when its marked form is in the sample. */
  lemma KeptLive(raw: seq<Example>, cap: nat, ex: Example)
    requires DistinctIds(raw) && ex in raw && !Resolved(ex)
    ensures ex.id in KeepIds(raw, cap) <==> MarkOne(raw, ex) in LiveSample(raw, cap)
  {
    LiveMembers(Marked(raw));
    if ex.id in Ids(LiveSample(raw, cap)) {
      var x :| x in LiveSample(raw, cap) && x.id == ex.id;
      SampleMembers(Live(Marked(raw)), cap, x);
      var ex' := MarkedRow(raw, x);
      SameIdSameRow(raw, ex, ex');
    }
    var resolved := ResolvedOf(raw);
    if ex.id in Ids(resolved[..Clamp(cap, |resolved|)]) {
      var x :| x in resolved[..Clamp(cap, |resolved|)] && x.id == ex.id;
      assert x in resolved;
      ResolvedMembers(raw);
      SameIdSameRow(raw, ex, x);
    }
    if MarkOne(raw, ex) in LiveSample(raw, cap) {
      assert MarkOne(raw, ex).id == ex.id;
    }
  }

  lemma LiveLast(rows: seq<Example>, ex: Example)
    ensures Live(rows + [ex]) == if Resolved(ex) then Live(rows) else Live(rows) + [ex]
  {
    assert (rows + [ex])[..|rows|] == rows;
  }

  lemma MarkAllLast(rows: seq<Example>, ex: Example, examples: seq<Example>)
    ensures MarkAll(rows + [ex], examples) == MarkAll(rows, examples) + [MarkOne(examples, ex)]
  {
  }

  lemma {:induction false} LiveSurvivors(rows: seq<Example>, raw: seq<Example>, keep: set<int>, sample: set<Example>)
    requires forall ex :: ex in rows && !Resolved(ex) ==> (ex.id in keep <==> MarkOne(raw, ex) in sample)
    ensures MarkAll(Live(Survivors(rows, keep)), raw) == Filter(Live(MarkAll(rows, raw)), sample)
  {
    if rows != [] {
      var n := |rows| - 1;
      var before, ex := rows[..n], rows[n];
      assert rows == before + [ex];
      LiveSurvivors(before, raw, keep, sample);
      LiveLast(Survivors(before, keep), ex);
      MarkAllLast(Live(Survivors(before, keep)), ex, raw);
      MarkAllLast(before, ex, raw);
      LiveLast(MarkAll(before, raw), MarkOne(raw, ex));
    }
  }

  /** With the marks of the unpruned corpus, the surviving live rows are exactly the sample. */
  lemma PrunedLive(raw: seq<Example>, cap: nat)
    requires DistinctIds(raw)
    ensures MarkAll(Live(Pruned(raw, cap)), raw) == Filter(Live(Marked(raw)), SetOf(LiveSample(raw, cap)))
  {
    forall ex | ex in raw && !Resolved(ex)
      ensures ex.id in KeepIds(raw, cap) <==> MarkOne(raw, ex) in SetOf(LiveSample(raw, cap))
    {
      KeptLive(raw, cap, ex);
    }
    LiveSurvivors(raw, raw, KeepIds(raw, cap), SetOf(LiveSample(raw, cap)));
  }

  // ---------------------------------------------------------------- idempotence and size

  lemma IdsSize(rows: seq<Example>)
    ensures |Ids(rows)| <= |rows|
  {
    if rows == [] {
      assert Ids(rows) == {};
    } else {
      var n := |rows| - 1;
      IdsSize(rows[..n]);
      assert rows == rows[..n] + [rows[n]];
      assert Ids(rows) == Ids(rows[..n]) + {rows[n].id};
    }
  }

  /** A prune keeps at most twice the cap. */
  lemma KeepSize(raw: seq<Example>, cap: nat)
    ensures |KeepIds(raw, cap)| <= 2 * cap
  {
    var resolved := ResolvedOf(raw);
    IdsSize(LiveSample(raw, cap));
    IdsSize(resolved[..Clamp(cap, |resolved|)]);
    var a, b := Ids(LiveSample(raw, cap)), Ids(resolved[..Clamp(cap, |resolved|)]);
    assert |a + b| == |a| + |b| - |a * b|;
  }

  lemma {:induction false} IdsOfDistinct(rows: seq<Example>)
    requires DistinctIds(rows)
    ensures |Ids(rows)| == |rows|
  {
    if rows == [] {
      assert Ids(rows) == {};
    } else {
      var n := |rows| - 1;
      IdsOfDistinct(rows[..n]);
      assert rows == rows[..n] + [rows[n]];
      assert Ids(rows) == Ids(rows[..n]) + {rows[n].id};
      assert rows[n].id !in Ids(rows[..n]);
    }
  }

  lemma PrunedFew(raw: seq<Example>, cap: nat)
    requires DistinctIds(raw)
    ensures |Pruned(raw, cap)| <= 2 * cap
  {
    var left, keep := Pruned(raw, cap), KeepIds(raw, cap);
    SurvivorsMembers(raw, keep);
    KeepSize(raw, cap);
    IdsOfDistinct(left);
    forall id | id in Ids(left) ensures id in keep {
      var ex :| ex in left && ex.id == id;
    }
    assert keep == Ids(left) + (keep - Ids(left));
  }

  /** A pass that prunes leaves at most twice the cap of the newest 2000 rows, and all rows beyond. */
  lemma PruneLeavesFew(raw: seq<Example>, cap: nat)
    requires DistinctIds(raw) && |raw| > cap + 10
    ensures |raw| <= 2000 ==> |AfterPrune(raw, cap)| <= 2 * cap
    ensures |raw| > 2000 ==> |AfterPrune(raw, cap)| <= 2 * cap + (|raw| - 2000)
    ensures forall i | 2000 <= i < |raw| :: raw[i] in AfterPrune(raw, cap)
  {
    var n := ReadCount(raw);
    PrunedFew(raw[..n], cap);
    forall i | 2000 <= i < |raw| ensures raw[i] in AfterPrune(raw, cap) {
      assert raw[n..][i - n] == raw[i];
    }
  }

  lemma {:induction false} TierSizes(examples: seq<Example>)
    ensures |InTier(examples, RecurredTier)| + |InTier(examples, MissedTier)| + |InTier(examples, ConfirmedTier)|
            == |examples|
  {
    if examples != [] {
      TierSizes(examples[..|examples| - 1]);
    }
  }

  lemma RoundRobinTakesAll(candidates: seq<Example>, budget: int)
    requires |candidates| <= budget
    ensures forall ex :: ex in candidates ==> ex in RoundRobinSpec(candidates, budget)
  {
    DealBuckets(candidates);
    var dealt := Deal(Buckets(candidates));
    assert dealt[..|dealt|] == dealt;
  }

  /** A sample that fits its budgets is everything. */
  lemma SampleTakesAll(candidates: seq<Example>, cap: nat, ex: Example)
    requires |candidates| <= cap && |InTier(candidates, RecurredTier)| <= RecurredBudget(cap) && ex in candidates
    ensures ex in SampleSpec(candidates, cap)
  {
    var recurred, missed, confirmed :=
      InTier(candidates, RecurredTier), InTier(candidates, MissedTier), InTier(candidates, ConfirmedTier);
    TierSizes(candidates);
    InTierMembers(candidates, TierOf(ex));
    assert RecurredPart(candidates, cap) == recurred;
    RoundRobinTakesAll(missed, cap - |recurred|);
    RoundRobinTakesAll(confirmed, cap - |recurred| - |MissedPart(candidates, cap)|);
    SampleMembers(candidates, cap, ex);
  }

  /** Deleting rows can only lose marks. */
  lemma MarksOnlyLost(raw: seq<Example>, left: seq<Example>, ex: Example)
    requires forall r :: r in left ==> r in raw
    ensures MarkOne(left, ex).recurred ==> MarkOne(raw, ex).recurred
  {
    VersionByMessageIs(left, ex.messageId, ex.verdict);
    VersionByMessageIs(raw, ex.messageId, ex.verdict);
    VersionBySenderIs(left, KeyOf(ex), ex.verdict);
    VersionBySenderIs(raw, KeyOf(ex), ex.verdict);
  }

  lemma {:induction false} FewerRecurred(rows: seq<Example>, raw: seq<Example>, left: seq<Example>)
    requires forall r :: r in left ==> r in raw
    ensures |InTier(MarkAll(rows, left), RecurredTier)| <= |InTier(MarkAll(rows, raw), RecurredTier)|
  {
    if rows != [] {
      var n := |rows| - 1;
      FewerRecurred(rows[..n], raw, left);
      assert MarkAll(rows, left)[..n] == MarkAll(rows[..n], left);
      assert MarkAll(rows, raw)[..n] == MarkAll(rows[..n], raw);
      MarksOnlyLost(raw, left, rows[n]);
    }
  }

  /** Among the kept live rows, those marked before the prune fit the recurred budget. */
  lemma KeptRecurredFit(raw: seq<Example>, cap: nat)
    requires DistinctIds(raw)
    ensures var kept := MarkAll(Live(Pruned(raw, cap)), raw);
      |kept| <= cap && |InTier(kept, RecurredTier)| <= RecurredBudget(cap)
  {
    var live, sample := Live(Marked(raw)), LiveSample(raw, cap);
    var kept := Filter(live, SetOf(sample));
    PrunedLive(raw, cap);
    MarkedDistinct(raw);
    InTierFilter(live, SetOf(sample), RecurredTier);
    KeepByTier(live, cap, RecurredTier);
    PrefixStable(InTier(live, RecurredTier), SetOf(sample), |RecurredPart(live, cap)|);
    FilterNoRepeat(live, SetOf(sample));
    SampleNoRepeat(live, cap);
    FilterMembers(live, SetOf(sample));
    forall x ensures x in kept <==> x in sample {
      SampleMembers(live, cap, x);
    }
    SameElementsSameLength(kept, sample);
  }

  lemma ResolvedLast(rows: seq<Example>, ex: Example)
    ensures ResolvedOf(rows + [ex]) == if Resolved(ex) then ResolvedOf(rows) + [ex] else ResolvedOf(rows)
  {
    assert (rows + [ex])[..|rows|] == rows;
  }

  lemma SurvivorsLast(rows: seq<Example>, ex: Example, keep: set<int>)
    ensures Survivors(rows + [ex], keep)
            == if ex.id in keep then Survivors(rows, keep) + [ex] else Survivors(rows, keep)
  {
    assert (rows + [ex])[..|rows|] == rows;
  }

  lemma {:induction false} ResolvedSurvivors(rows: seq<Example>, keep: set<int>)
    ensures ResolvedOf(Survivors(rows, keep)) == Survivors(ResolvedOf(rows), keep)
  {
    if rows != [] {
      var n := |rows| - 1;
      var before, ex := rows[..n], rows[n];
      assert rows == before + [ex];
      ResolvedSurvivors(before, keep);
      ResolvedLast(Survivors(before, keep), ex);
      SurvivorsLast(ResolvedOf(before), ex, keep);
    }
  }

  lemma {:induction false} ResolvedDistinct(rows: seq<Example>)
    requires DistinctIds(rows)
    ensures DistinctIds(ResolvedOf(rows))
  {
    if rows != [] {
      var n := |rows| - 1;
      ResolvedDistinct(rows[..n]);
      ResolvedMembers(rows[..n]);
      forall k | 0 <= k < |ResolvedOf(rows[..n])| ensures ResolvedOf(rows[..n])[k].id != rows[n].id {
        assert ResolvedOf(rows[..n])[k] in rows[..n];
      }
    }
  }

  lemma {:induction false} SurvivorsPrefix(rows: seq<Example>, keep: set<int>, n: nat)
    requires n <= |rows|
    requires forall i :: 0 <= i < |rows| ==> (rows[i].id in keep <==> i < n)
    ensures Survivors(rows, keep) == rows[..n]
  {
    if rows != [] {
      var m := |rows| - 1;
      SurvivorsPrefix(rows[..m], keep, if n <= m then n else m);
    }
  }

  /** The newest resolved rows up to the cap, which a prune keeps. */
  function KeptResolved(raw: seq<Example>, cap: nat): seq<Example> {
    ResolvedOf(raw)[..Clamp(cap, |ResolvedOf(raw)|)]
  }

  lemma ResolvedKept(raw: seq<Example>, cap: nat, i: nat)
    requires DistinctIds(raw) && i < |ResolvedOf(raw)|
    ensures ResolvedOf(raw)[i].id in KeepIds(raw, cap) <==> i < |KeptResolved(raw, cap)|
  {
    var resolved, newest := ResolvedOf(raw), KeptResolved(raw, cap);
    ResolvedDistinct(raw);
    ResolvedMembers(raw);
    assert resolved[i] in raw;
    if i < |newest| {
      assert newest[i] == resolved[i];
    } else {
      forall x | x in newest ensures x.id != resolved[i].id {
        var k :| 0 <= k < |newest| && newest[k] == x;
        assert newest[k] == resolved[k];
      }
      forall x | x in LiveSample(raw, cap) ensures x.id != resolved[i].id {
        SampleMembers(Live(Marked(raw)), cap, x);
        LiveMembers(Marked(raw));
        var ex := MarkedRow(raw, x);
        DistinctRows(raw, ex, resolved[i]);
      }
    }
  }

  /** The resolved rows a prune leaves are the newest ones up to the cap. */
  lemma PrunedResolved(raw: seq<Example>, cap: nat)
    requires DistinctIds(raw)
    ensures ResolvedOf(Pruned(raw, cap)) == KeptResolved(raw, cap)
  {
    var resolved, keep := ResolvedOf(raw), KeepIds(raw, cap);
    ResolvedSurvivors(raw, keep);
    forall i | 0 <= i < |resolved| ensures resolved[i].id in keep <==> i < |KeptResolved(raw, cap)| {
      ResolvedKept(raw, cap, i);
    }
    SurvivorsPrefix(resolved, keep, |KeptResolved(raw, cap)|);
  }

  lemma ResolvedKeptAgain(raw: seq<Example>, cap: nat, ex: Example)
    requires DistinctIds(raw) && ex in Pruned(raw, cap) && Resolved(ex)
    ensures ex.id in KeepIds(Pruned(raw, cap), cap)
  {
    var left := Pruned(raw, cap);
    var resolved := ResolvedOf(left);
    PrunedResolved(raw, cap);
    assert resolved[..Clamp(cap, |resolved|)] == resolved;
    ResolvedMembers(left);
    assert ex in resolved;
  }

  /** A second prune deletes nothing, although the first may have cleared recurrence marks. */
  lemma PruneIdempotent(raw: seq<Example>, cap: nat)
    requires DistinctIds(raw)
    ensures Pruned(Pruned(raw, cap), cap) == Pruned(raw, cap)
  {
    var left := Pruned(raw, cap);
    forall ex | ex in left ensures ex.id in KeepIds(left, cap) {
      if Resolved(ex) {
        ResolvedKeptAgain(raw, cap, ex);
      } else {
        LiveMembers(left);
        var i :| 0 <= i < |Live(left)| && Live(left)[i] == ex;
        SampleTakesPruned(raw, cap, i);
        assert MarkOne(left, ex).id == ex.id;
      }
    }
    SurvivorsAll(left, KeepIds(left, cap));
  }

  // ---------------------------------------------------------------- pruning is invisible

  lemma LookupsOneMore(rows: seq<Example>, x: Example, ex: Example)
    ensures VersionByMessage(rows + [x], ex.messageId, ex.verdict)
            == FirstOf(VersionByMessage(rows, ex.messageId, ex.verdict),
                       if ResolvedMessage(x, ex.messageId, ex.verdict) then Some(x.promptVersion) else None)
    ensures VersionBySender(rows + [x], KeyOf(ex), ex.verdict)
            == FirstOf(VersionBySender(rows, KeyOf(ex), ex.verdict),
                       if ResolvedSender(x, KeyOf(ex), ex.verdict) then Some(x.promptVersion) else None)
  {
    assert (rows + [x])[..|rows|] == rows;
  }

  /** Only resolved rows are looked up. */
  lemma {:induction false} LookupsOfResolved(rows: seq<Example>, ex: Example)
    ensures VersionByMessage(ResolvedOf(rows), ex.messageId, ex.verdict)
            == VersionByMessage(rows, ex.messageId, ex.verdict)
    ensures VersionBySender(ResolvedOf(rows), KeyOf(ex), ex.verdict) == VersionBySender(rows, KeyOf(ex), ex.verdict)
  {
    if rows != [] {
      var n := |rows| - 1;
      assert rows == rows[..n] + [rows[n]];
      LookupsOfResolved(rows[..n], ex);
      LookupsOneMore(rows[..n], rows[n], ex);
      LookupsOneMore(ResolvedOf(rows[..n]), rows[n], ex);
    }
  }

  /** After a prune, marks come from the newest resolved rows up to the cap. */
  lemma MarksAfter(raw: seq<Example>, cap: nat, ex: Example)
    requires DistinctIds(raw)
    ensures MarkOne(Pruned(raw, cap), ex) == MarkOne(KeptResolved(raw, cap), ex)
  {
    PrunedResolved(raw, cap);
    LookupsOfResolved(Pruned(raw, cap), ex);
  }

  /** Said of the corpus before the prune: no live row that the sampler would pick at the cap owes
      its recurrence mark to a resolved row beyond the newest ones up to the cap. */
  predicate MarksKept(raw: seq<Example>, cap: nat) {
    forall i | 0 <= i < |raw| && !Resolved(raw[i]) && MarkOne(raw, raw[i]) in LiveSample(raw, cap) ::
      MarkOne(KeptResolved(raw, cap), raw[i]) == MarkOne(raw, raw[i])
  }

  lemma KeptRow(raw: seq<Example>, cap: nat, i: nat) returns (k: nat)
    requires DistinctIds(raw) && i < |Live(Pruned(raw, cap))|
    ensures k < |raw| && raw[k] == Live(Pruned(raw, cap))[i]
    ensures !Resolved(raw[k]) && MarkOne(raw, raw[k]) in LiveSample(raw, cap)
  {
    var ex := Live(Pruned(raw, cap))[i];
    LiveMembers(Pruned(raw, cap));
    SurvivorsMembers(raw, KeepIds(raw, cap));
    assert ex in Live(Pruned(raw, cap));
    k :| 0 <= k < |raw| && raw[k] == ex;
    KeptLive(raw, cap, ex);
  }

  /** It says that no live row left by the prune has lost or changed its mark. */
  lemma MarksKeptIsKept(raw: seq<Example>, cap: nat)
    requires DistinctIds(raw)
    ensures MarksKept(raw, cap) <==> MarksSurvive(raw, cap)
  {
    var left := Pruned(raw, cap);
    if MarksKept(raw, cap) {
      forall i: nat | i < |Live(left)| ensures SameMark(raw, cap, i) {
        var k := KeptRow(raw, cap, i);
        MarksAfter(raw, cap, raw[k]);
      }
    }
    if MarksSurvive(raw, cap) {
      forall k | 0 <= k < |raw| && !Resolved(raw[k]) && MarkOne(raw, raw[k]) in LiveSample(raw, cap)
        ensures MarkOne(KeptResolved(raw, cap), raw[k]) == MarkOne(raw, raw[k])
      {
        KeptLive(raw, cap, raw[k]);
        SurvivorsMembers(raw, KeepIds(raw, cap));
        LiveMembers(left);
        var i: nat :| i < |Live(left)| && Live(left)[i] == raw[k];
        assert SameMark(raw, cap, i);
        MarksAfter(raw, cap, raw[k]);
      }
    }
  }

  predicate SameMark(raw: seq<Example>, cap: nat, i: nat)
    requires i < |Live(Pruned(raw, cap))|
  {
    MarkOne(Pruned(raw, cap), Live(Pruned(raw, cap))[i]) == MarkOne(raw, Live(Pruned(raw, cap))[i])
  }

  /** Every live row the prune leaves is marked as before. */
  predicate MarksSurvive(raw: seq<Example>, cap: nat) {
    forall i: nat | i < |Live(Pruned(raw, cap))| :: SameMark(raw, cap, i)
  }

  lemma SampleWhenMarksKept(raw: seq<Example>, cap: nat, small: nat)
    requires DistinctIds(raw) && MarksKept(raw, cap) && small <= cap
    ensures Live(Marked(Pruned(raw, cap))) == Filter(Live(Marked(raw)), SetOf(LiveSample(raw, cap)))
    ensures LiveSample(Pruned(raw, cap), small) == LiveSample(raw, small)
  {
    var left := Pruned(raw, cap);
    MarksKeptIsKept(raw, cap);
    forall i: nat | i < |Live(left)| ensures MarkAll(Live(left), left)[i] == MarkAll(Live(left), raw)[i] {
      assert SameMark(raw, cap, i);
    }
    assert MarkAll(Live(left), left) == MarkAll(Live(left), raw);
    LiveMarkAll(left, left);
    PrunedLive(raw, cap);
    MarkedDistinct(raw);
    SampleStable(Live(Marked(raw)), small, cap);
  }

  /** The pruned rows are few enough that sampling them at the cap takes them all. */
  lemma SampleTakesPruned(raw: seq<Example>, cap: nat, i: nat)
    requires DistinctIds(raw) && i < |Live(Pruned(raw, cap))|
    ensures MarkOne(Pruned(raw, cap), Live(Pruned(raw, cap))[i]) in LiveSample(Pruned(raw, cap), cap)
  {
    var left := Pruned(raw, cap);
    var live := Live(Marked(left));
    SurvivorsMembers(raw, KeepIds(raw, cap));
    LiveMarkAll(left, left);
    KeptRecurredFit(raw, cap);
    FewerRecurred(Live(left), raw, left);
    assert live[i] == MarkOne(left, Live(left)[i]);
    SampleTakesAll(live, cap, live[i]);
  }

  lemma SampledOnce(raw: seq<Example>, cap: nat, a: Example, b: Example)
    requires DistinctIds(raw) && a in LiveSample(raw, cap) && b in LiveSample(raw, cap) && a.id == b.id
    ensures a == b
  {
    SampleMembers(Live(Marked(raw)), cap, a);
    SampleMembers(Live(Marked(raw)), cap, b);
    LiveDistinct(Marked(raw));
    SameIdSameRow(Live(Marked(raw)), a, b);
  }

  lemma KeptIsSampled(raw: seq<Example>, cap: nat, i: nat)
    requires DistinctIds(raw) && i < |Live(Pruned(raw, cap))|
    ensures MarkOne(raw, Live(Pruned(raw, cap))[i]) in LiveSample(raw, cap)
  {
    var kept := MarkAll(Live(Pruned(raw, cap)), raw);
    PrunedLive(raw, cap);
    FilterMembers(Live(Marked(raw)), SetOf(LiveSample(raw, cap)));
    assert kept[i] in kept;
  }

  /** For one verdict's rows: pruning leaves what every smaller cap samples unchanged exactly when
      no live row that the cap samples owes its recurrence mark to a resolved row beyond the newest
      ones up to the cap. */
  lemma PrunedSampleExactly(raw: seq<Example>, cap: nat)
    requires DistinctIds(raw)
    ensures MarksKept(raw, cap) <==>
            forall small: nat | small <= cap :: LiveSample(Pruned(raw, cap), small) == LiveSample(raw, small)
  {
    var left := Pruned(raw, cap);
    if MarksKept(raw, cap) {
      forall small: nat | small <= cap ensures LiveSample(left, small) == LiveSample(raw, small) {
        SampleWhenMarksKept(raw, cap, small);
      }
    }
    if LiveSample(left, cap) == LiveSample(raw, cap) {
      MarksKeptByEqualSample(raw, cap);
    }
  }

  lemma MarkByEqualSample(raw: seq<Example>, cap: nat, i: nat)
    requires DistinctIds(raw) && LiveSample(Pruned(raw, cap), cap) == LiveSample(raw, cap)
    requires i < |Live(Pruned(raw, cap))|
    ensures SameMark(raw, cap, i)
  {
    var left := Pruned(raw, cap);
    SampleTakesPruned(raw, cap, i);
    KeptIsSampled(raw, cap, i);
    SampledOnce(raw, cap, MarkOne(left, Live(left)[i]), MarkOne(raw, Live(left)[i]));
  }

  lemma MarksKeptByEqualSample(raw: seq<Example>, cap: nat)
    requires DistinctIds(raw) && LiveSample(Pruned(raw, cap), cap) == LiveSample(raw, cap)
    ensures MarksKept(raw, cap)
  {
    forall i: nat | i < |Live(Pruned(raw, cap))| ensures SameMark(raw, cap, i) {
      MarkByEqualSample(raw, cap, i);
    }
    MarksKeptIsKept(raw, cap);
  }

  /** While every resolved row fits the cap, sampling the pruned rows at any smaller cap gives
      what sampling the unpruned rows gives. */
  lemma PrunedSample(raw: seq<Example>, cap: nat, small: nat)
    requires DistinctIds(raw) && |ResolvedOf(raw)| <= cap && small <= cap
    ensures Live(Marked(Pruned(raw, cap))) == Filter(Live(Marked(raw)), SetOf(LiveSample(raw, cap)))
    ensures LiveSample(Pruned(raw, cap), small) == LiveSample(raw, small)
  {
    MarksKeptWhenFew(raw, cap);
    SampleWhenMarksKept(raw, cap, small);
  }

  lemma MarksKeptWhenFew(raw: seq<Example>, cap: nat)
    requires |ResolvedOf(raw)| <= cap
    ensures MarksKept(raw, cap)
  {
    assert KeptResolved(raw, cap) == ResolvedOf(raw);
    forall ex ensures MarkOne(KeptResolved(raw, cap), ex) == MarkOne(raw, ex) {
      LookupsOfResolved(raw, ex);
    }
  }

  /** What the improver is shown, or replay scores, at a cap. */
  function Selected(pos: seq<Example>, neg: seq<Example>, cap: nat): seq<Example> {
    SampleExamples(Gather(pos, neg), cap)
  }

  predicate AllOf(rows: seq<Example>, verdict: Verdict) {
    forall i :: 0 <= i < |rows| ==> rows[i].verdict == verdict
  }

  function FirstOf(a: Option<int>, b: Option<int>): Option<int> {
    if a.Some? then a else b
  }

  lemma {:induction false} LookupsConcat(rows: seq<Example>, more: seq<Example>, ex: Example)
    ensures VersionByMessage(rows + more, ex.messageId, ex.verdict)
            == FirstOf(VersionByMessage(rows, ex.messageId, ex.verdict),
                       VersionByMessage(more, ex.messageId, ex.verdict))
    ensures VersionBySender(rows + more, KeyOf(ex), ex.verdict)
            == FirstOf(VersionBySender(rows, KeyOf(ex), ex.verdict), VersionBySender(more, KeyOf(ex), ex.verdict))
  {
    if more == [] {
      assert rows + more == rows;
    } else {
      var n := |more| - 1;
      assert (rows + more)[..|rows + more| - 1] == rows + more[..n];
      LookupsConcat(rows, more[..n], ex);
    }
  }

  lemma NoLookups(rows: seq<Example>, verdict: Verdict, ex: Example)
    requires AllOf(rows, verdict) && ex.verdict != verdict
    ensures VersionByMessage(rows, ex.messageId, ex.verdict) == None == VersionBySender(rows, KeyOf(ex), ex.verdict)
  {
    VersionByMessageIs(rows, ex.messageId, ex.verdict);
    VersionBySenderIs(rows, KeyOf(ex), ex.verdict);
  }

  /** Marking never crosses verdicts, so the two windows are marked independently. */
  lemma MarkedByVerdict(pos: seq<Example>, neg: seq<Example>)
    requires AllOf(pos, ConfirmedPositive) && AllOf(neg, ConfirmedNegative)
    ensures LiveMarked(pos, neg) == Live(Marked(pos)) + Live(Marked(neg))
  {
    var all := pos + neg;
    forall i | 0 <= i < |all| ensures Marked(all)[i] == (Marked(pos) + Marked(neg))[i] {
      LookupsConcat(pos, neg, all[i]);
      if i < |pos| {
        NoLookups(neg, ConfirmedNegative, all[i]);
      } else {
        NoLookups(pos, ConfirmedPositive, all[i]);
      }
    }
    assert Marked(all) == Marked(pos) + Marked(neg);
    LiveConcat(Marked(pos), Marked(neg));
  }

  lemma {:induction false} OfVerdictAll(rows: seq<Example>, verdict: Verdict)
    requires AllOf(rows, verdict)
    ensures OfVerdict(rows, verdict) == rows
    ensures forall v :: v != verdict ==> OfVerdict(rows, v) == []
  {
    if rows != [] {
      OfVerdictAll(rows[..|rows| - 1], verdict);
    }
  }

  lemma {:induction false} OfVerdictConcat(xs: seq<Example>, ys: seq<Example>, verdict: Verdict)
    ensures OfVerdict(xs + ys, verdict) == OfVerdict(xs, verdict) + OfVerdict(ys, verdict)
  {
    if ys == [] {
      assert xs + ys == xs;
    } else {
      var n := |ys| - 1;
      assert (xs + ys)[..|xs + ys| - 1] == xs + ys[..n];
      OfVerdictConcat(xs, ys[..n], verdict);
    }
  }

  lemma OfVerdictSplit(pos: seq<Example>, neg: seq<Example>)
    requires AllOf(pos, ConfirmedPositive) && AllOf(neg, ConfirmedNegative)
    ensures OfVerdict(pos + neg, ConfirmedPositive) == pos
    ensures OfVerdict(pos + neg, ConfirmedNegative) == neg
  {
    OfVerdictConcat(pos, neg, ConfirmedPositive);
    OfVerdictConcat(pos, neg, ConfirmedNegative);
    OfVerdictAll(pos, ConfirmedPositive);
    OfVerdictAll(neg, ConfirmedNegative);
  }

  lemma LiveMarkedVerdict(rows: seq<Example>, verdict: Verdict)
    requires AllOf(rows, verdict)
    ensures AllOf(Live(Marked(rows)), verdict)
  {
    var live := Live(Marked(rows));
    LiveMembers(Marked(rows));
    forall i | 0 <= i < |live| ensures live[i].verdict == verdict {
      var ex := MarkedRow(rows, live[i]);
    }
  }

  lemma GatheredDirectly(pos: seq<Example>, neg: seq<Example>)
    requires AllOf(pos, ConfirmedPositive) && AllOf(neg, ConfirmedNegative)
    requires |pos| <= RAW_EXAMPLE_LIMIT && |neg| <= RAW_EXAMPLE_LIMIT
    requires DistinctMessages(Live(Marked(pos)) + Live(Marked(neg)))
    ensures Gather(pos, neg) == Live(Marked(pos)) + Live(Marked(neg))
  {
    var both := Live(Marked(pos)) + Live(Marked(neg));
    MarkedByVerdict(pos, neg);
    WinnersOfDistinct(both, |both|);
    assert both[..|both|] == both;
  }

  /** When no message has two live rows, selection samples each verdict's live rows directly. */
  lemma SelectedDirectly(pos: seq<Example>, neg: seq<Example>, cap: nat)
    requires AllOf(pos, ConfirmedPositive) && AllOf(neg, ConfirmedNegative)
    requires |pos| <= RAW_EXAMPLE_LIMIT && |neg| <= RAW_EXAMPLE_LIMIT
    requires DistinctMessages(Live(Marked(pos)) + Live(Marked(neg)))
    ensures Selected(pos, neg, cap) == LiveSample(pos, cap) + LiveSample(neg, cap)
  {
    GatheredDirectly(pos, neg);
    LiveMarkedVerdict(pos, ConfirmedPositive);
    LiveMarkedVerdict(neg, ConfirmedNegative);
    OfVerdictSplit(Live(Marked(pos)), Live(Marked(neg)));
  }

  lemma {:induction false} FilterDistinctMessages(rows: seq<Example>, keep: set<Example>)
    requires DistinctMessages(rows)
    ensures DistinctMessages(Filter(rows, keep))
  {
    if rows != [] {
      var n := |rows| - 1;
      FilterDistinctMessages(rows[..n], keep);
      FilterMembers(rows[..n], keep);
      forall k | 0 <= k < |Filter(rows[..n], keep)| ensures Filter(rows[..n], keep)[k].messageId != rows[n].messageId {
        assert Filter(rows[..n], keep)[k] in rows[..n];
      }
    }
  }

  lemma JoinDistinctMessages(a: seq<Example>, b: seq<Example>, a': seq<Example>, b': seq<Example>)
    requires DistinctMessages(a + b) && DistinctMessages(a') && DistinctMessages(b')
    requires (forall x :: x in a' ==> x in a) && (forall x :: x in b' ==> x in b)
    ensures DistinctMessages(a' + b')
  {
    forall i, j | 0 <= i < |a'| && 0 <= j < |b'| ensures a'[i].messageId != b'[j].messageId {
      assert a'[i] in a && b'[j] in b;
      var k :| 0 <= k < |a| && a[k] == a'[i];
      var l :| 0 <= l < |b| && b[l] == b'[j];
      assert (a + b)[k] == a[k] && (a + b)[|a| + l] == b[l];
    }
  }

  /** The pruned live rows carry the messages of the rows sampled before, mark by mark or not. */
  lemma PrunedPart(rows: seq<Example>, cap: nat)
    requires DistinctIds(rows) && DistinctMessages(Live(Marked(rows)))
    ensures var kept, live := MarkAll(Live(Pruned(rows, cap)), rows), Live(Marked(Pruned(rows, cap)));
      && DistinctMessages(kept) && (forall x :: x in kept ==> x in Live(Marked(rows)))
      && SameMessages(kept, live)
  {
    PrunedLive(rows, cap);
    FilterDistinctMessages(Live(Marked(rows)), SetOf(LiveSample(rows, cap)));
    FilterMembers(Live(Marked(rows)), SetOf(LiveSample(rows, cap)));
    LiveMarkAll(Pruned(rows, cap), Pruned(rows, cap));
  }

  predicate SameMessages(a: seq<Example>, b: seq<Example>) {
    |a| == |b| && forall i | 0 <= i < |a| :: b[i].messageId == a[i].messageId
  }

  lemma DistinctAsWell(a: seq<Example>, b: seq<Example>)
    requires SameMessages(a, b) && DistinctMessages(a)
    ensures DistinctMessages(b)
  {
  }

  lemma SameMessagesJoin(a: seq<Example>, b: seq<Example>, c: seq<Example>, d: seq<Example>)
    requires SameMessages(a, c) && SameMessages(b, d)
    ensures SameMessages(a + b, c + d)
  {
  }

  lemma SplitDistinctMessages(a: seq<Example>, b: seq<Example>)
    requires DistinctMessages(a + b)
    ensures DistinctMessages(a) && DistinctMessages(b)
  {
    var ab := a + b;
    assert forall i :: 0 <= i < |a| ==> ab[i] == a[i];
    assert forall i :: 0 <= i < |b| ==> ab[|a| + i] == b[i];
  }

  lemma AfterPruneOfFew(rows: seq<Example>, cap: nat)
    requires |rows| <= PRUNE_READ_CEILING
    ensures AfterPrune(rows, cap) == if ShouldPrune(|rows|, cap) then Pruned(rows, cap) else rows
  {
    assert rows[..|rows|] == rows && rows[|rows|..] == [];
  }

  /** The live rows left carry the messages of rows there were before. */
  lemma AfterPart(rows: seq<Example>, cap: nat) returns (kept: seq<Example>)
    requires DistinctIds(rows) && DistinctMessages(Live(Marked(rows))) && |rows| <= PRUNE_READ_CEILING
    ensures DistinctMessages(kept) && (forall x :: x in kept ==> x in Live(Marked(rows)))
    ensures SameMessages(kept, Live(Marked(AfterPrune(rows, cap))))
  {
    AfterPruneOfFew(rows, cap);
    kept := Live(Marked(rows));
    if ShouldPrune(|rows|, cap) {
      PrunedPart(rows, cap);
      kept := MarkAll(Live(Pruned(rows, cap)), rows);
    }
  }

  lemma AfterMessages(pos: seq<Example>, neg: seq<Example>, cap: nat)
    requires DistinctIds(pos) && DistinctIds(neg) && |pos| <= PRUNE_READ_CEILING && |neg| <= PRUNE_READ_CEILING
    requires DistinctMessages(Live(Marked(pos)) + Live(Marked(neg)))
    ensures DistinctMessages(Live(Marked(AfterPrune(pos, cap))) + Live(Marked(AfterPrune(neg, cap))))
  {
    SplitDistinctMessages(Live(Marked(pos)), Live(Marked(neg)));
    var a := AfterPart(pos, cap);
    var b := AfterPart(neg, cap);
    var c, d := Live(Marked(AfterPrune(pos, cap))), Live(Marked(AfterPrune(neg, cap)));
    JoinDistinctMessages(Live(Marked(pos)), Live(Marked(neg)), a, b);
    SameMessagesJoin(a, b, c, d);
    DistinctAsWell(a + b, c + d);
  }

  lemma PrunedShape(rows: seq<Example>, verdict: Verdict, cap: nat)
    requires AllOf(rows, verdict)
    ensures AllOf(Pruned(rows, cap), verdict) && |Pruned(rows, cap)| <= |rows|
  {
    var left := Pruned(rows, cap);
    SurvivorsMembers(rows, KeepIds(rows, cap));
    forall i | 0 <= i < |left| ensures left[i].verdict == verdict {
      assert left[i] in rows;
    }
    SurvivorsShorter(rows, KeepIds(rows, cap));
  }

  lemma {:induction false} SurvivorsShorter(rows: seq<Example>, keep: set<int>)
    ensures |Survivors(rows, keep)| <= |rows|
  {
    if rows != [] {
      SurvivorsShorter(rows[..|rows| - 1], keep);
    }
  }

  /** Selection reads the whole corpus, and no message has two live rows in it. */
  ghost predicate Plainly(pos: seq<Example>, neg: seq<Example>) {
    && |pos| <= RAW_EXAMPLE_LIMIT && |neg| <= RAW_EXAMPLE_LIMIT
    && DistinctMessages(Live(Marked(pos)) + Live(Marked(neg)))
  }

  lemma AfterShape(rows: seq<Example>, verdict: Verdict, cap: nat)
    requires AllOf(rows, verdict)
    ensures AllOf(AfterPrune(rows, cap), verdict) && |AfterPrune(rows, cap)| <= |rows|
  {
    var n := ReadCount(rows);
    PrunedShape(rows[..n], verdict, cap);
  }

  lemma SelectedAsSamples(pos: seq<Example>, neg: seq<Example>, cap: nat, small: nat)
    requires AllOf(pos, ConfirmedPositive) && AllOf(neg, ConfirmedNegative)
    requires DistinctIds(pos) && DistinctIds(neg) && Plainly(pos, neg)
    ensures Selected(pos, neg, small) == LiveSample(pos, small) + LiveSample(neg, small)
    ensures Selected(AfterPrune(pos, cap), AfterPrune(neg, cap), small)
            == LiveSample(AfterPrune(pos, cap), small) + LiveSample(AfterPrune(neg, cap), small)
  {
    AfterShape(pos, ConfirmedPositive, cap);
    AfterShape(neg, ConfirmedNegative, cap);
    AfterMessages(pos, neg, cap);
    SelectedDirectly(pos, neg, small);
    SelectedDirectly(AfterPrune(pos, cap), AfterPrune(neg, cap), small);
  }

  lemma SampleOfVerdict(rows: seq<Example>, verdict: Verdict, cap: nat)
    requires AllOf(rows, verdict)
    ensures AllOf(LiveSample(rows, cap), verdict)
  {
    var sample := LiveSample(rows, cap);
    LiveMarkedVerdict(rows, verdict);
    forall i | 0 <= i < |sample| ensures sample[i].verdict == verdict {
      SampleMembers(Live(Marked(rows)), cap, sample[i]);
    }
  }

  /** Equal selections are equal verdict by verdict. */
  lemma SamplesEqual(pos: seq<Example>, neg: seq<Example>, pos': seq<Example>, neg': seq<Example>, cap: nat)
    requires AllOf(pos, ConfirmedPositive) && AllOf(neg, ConfirmedNegative)
    requires AllOf(pos', ConfirmedPositive) && AllOf(neg', ConfirmedNegative)
    requires LiveSample(pos', cap) + LiveSample(neg', cap) == LiveSample(pos, cap) + LiveSample(neg, cap)
    ensures LiveSample(pos', cap) == LiveSample(pos, cap) && LiveSample(neg', cap) == LiveSample(neg, cap)
  {
    SampleOfVerdict(pos, ConfirmedPositive, cap);
    SampleOfVerdict(neg, ConfirmedNegative, cap);
    SampleOfVerdict(pos', ConfirmedPositive, cap);
    SampleOfVerdict(neg', ConfirmedNegative, cap);
    OfVerdictSplit(LiveSample(pos, cap), LiveSample(neg, cap));
    OfVerdictSplit(LiveSample(pos', cap), LiveSample(neg', cap));
  }

  /** If the prune runs on this verdict at all, it keeps the marks. */
  predicate LosesNoMark(raw: seq<Example>, cap: nat) {
    ShouldPrune(|raw|, cap) ==> MarksKept(raw, cap)
  }

  lemma AfterSample(rows: seq<Example>, cap: nat, small: nat)
    requires DistinctIds(rows) && |rows| <= PRUNE_READ_CEILING && small <= cap
    ensures LosesNoMark(rows, cap) ==> LiveSample(AfterPrune(rows, cap), small) == LiveSample(rows, small)
    ensures LiveSample(AfterPrune(rows, cap), cap) == LiveSample(rows, cap) ==> LosesNoMark(rows, cap)
  {
    AfterPruneOfFew(rows, cap);
    if ShouldPrune(|rows|, cap) && MarksKept(rows, cap) {
      SampleWhenMarksKept(rows, cap, small);
    }
    if ShouldPrune(|rows|, cap) && LiveSample(Pruned(rows, cap), cap) == LiveSample(rows, cap) {
      MarksKeptByEqualSample(rows, cap);
    }
  }

  lemma AfterSelection(pos: seq<Example>, neg: seq<Example>, cap: nat, small: nat)
    requires AllOf(pos, ConfirmedPositive) && AllOf(neg, ConfirmedNegative) && small <= cap
    requires DistinctIds(pos) && DistinctIds(neg) && Plainly(pos, neg)
    requires LosesNoMark(pos, cap) && LosesNoMark(neg, cap)
    ensures Selected(AfterPrune(pos, cap), AfterPrune(neg, cap), small) == Selected(pos, neg, small)
  {
    SelectedAsSamples(pos, neg, cap, small);
    AfterSample(pos, cap, small);
    AfterSample(neg, cap, small);
  }

  lemma AfterSelectionKeptMarks(pos: seq<Example>, neg: seq<Example>, cap: nat)
    requires AllOf(pos, ConfirmedPositive) && AllOf(neg, ConfirmedNegative)
    requires DistinctIds(pos) && DistinctIds(neg) && Plainly(pos, neg)
    requires Selected(AfterPrune(pos, cap), AfterPrune(neg, cap), cap) == Selected(pos, neg, cap)
    ensures LosesNoMark(pos, cap) && LosesNoMark(neg, cap)
  {
    SelectedAsSamples(pos, neg, cap, cap);
    AfterShape(pos, ConfirmedPositive, cap);
    AfterShape(neg, ConfirmedNegative, cap);
    SamplesEqual(pos, neg, AfterPrune(pos, cap), AfterPrune(neg, cap), cap);
    AfterSample(pos, cap, cap);
    AfterSample(neg, cap, cap);
  }

  /** A prune pass leaves every selection at a cap up to the prune cap unchanged, down to the
      order, exactly when, for each verdict it prunes, no live row that the cap samples owes its
      recurrence mark to a resolved row beyond the newest ones up to the cap. */
  lemma PruneInvisibleExactly(pos: seq<Example>, neg: seq<Example>, cap: nat)
    requires AllOf(pos, ConfirmedPositive) && AllOf(neg, ConfirmedNegative)
    requires DistinctIds(pos) && DistinctIds(neg) && Plainly(pos, neg)
    ensures LosesNoMark(pos, cap) && LosesNoMark(neg, cap) <==>
            forall small: nat | small <= cap ::
              Selected(AfterPrune(pos, cap), AfterPrune(neg, cap), small) == Selected(pos, neg, small)
  {
    if LosesNoMark(pos, cap) && LosesNoMark(neg, cap) {
      forall small: nat | small <= cap
        ensures Selected(AfterPrune(pos, cap), AfterPrune(neg, cap), small) == Selected(pos, neg, small)
      {
        AfterSelection(pos, neg, cap, small);
      }
    }
    if Selected(AfterPrune(pos, cap), AfterPrune(neg, cap), cap) == Selected(pos, neg, cap) {
      AfterSelectionKeptMarks(pos, neg, cap);
    }
  }

  /** In particular while every resolved row fits the prune cap. */
  lemma PruneInvisible(pos: seq<Example>, neg: seq<Example>, cap: nat, small: nat)
    requires AllOf(pos, ConfirmedPositive) && AllOf(neg, ConfirmedNegative)
    requires DistinctIds(pos) && DistinctIds(neg) && Plainly(pos, neg)
    requires |ResolvedOf(pos)| <= cap && |ResolvedOf(neg)| <= cap && small <= cap
    ensures Selected(AfterPrune(pos, cap), AfterPrune(neg, cap), small) == Selected(pos, neg, small)
  {
    MarksKeptWhenFew(pos, cap);
    MarksKeptWhenFew(neg, cap);
    AfterSelection(pos, neg, cap, small);
  }
}
