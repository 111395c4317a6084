/**
 Gathering a rule's example corpus (improve.go, `markRecurrences`, `filterResolved`,
 `gatherRawExamples`, `sampleExamples`, `replayExamplesFor`, `fixedByReplay`,
 `problemExampleKeys`).
 */
module Corpus {
  import opened Wrappers
  import opened RoundRobin
  import opened Sampling
  import opened SenderSubject
  import Replay

  predicate Resolved(ex: Example) {
    ex.resolvedBy.Some?
  }

  // ---------------------------------------------------------------- recurrences

  predicate ResolvedMessage(ex: Example, messageId: string, verdict: Verdict) {
    Resolved(ex) && ex.messageId == messageId && ex.verdict == verdict
  }

  predicate ResolvedSender(ex: Example, key: string, verdict: Verdict) {
    Resolved(ex) && KeyOf(ex) == key && ex.verdict == verdict
  }

  /** The prompt version of the first resolved row for this message and verdict. */
  function VersionByMessage(examples: seq<Example>, messageId: string, verdict: Verdict): Option<int> {
    if examples == [] then None
    else
      var n := |examples| - 1;
      var earlier := VersionByMessage(examples[..n], messageId, verdict);
      if earlier.None? && ResolvedMessage(examples[n], messageId, verdict) then Some(examples[n].promptVersion)
      else earlier
  }

  /** The prompt version of the first resolved row for this sender+subject and verdict. */
  function VersionBySender(examples: seq<Example>, key: string, verdict: Verdict): Option<int> {
    if examples == [] then None
    else
      var n := |examples| - 1;
      var earlier := VersionBySender(examples[..n], key, verdict);
      if earlier.None? && ResolvedSender(examples[n], key, verdict) then Some(examples[n].promptVersion) else earlier
  }

  function RecurredVersion(examples: seq<Example>, ex: Example): Option<int> {
    var byMessage := VersionByMessage(examples, ex.messageId, ex.verdict);
    if byMessage.Some? then byMessage else VersionBySender(examples, KeyOf(ex), ex.verdict)
  }

  function MarkOne(examples: seq<Example>, ex: Example): Example {
    if Resolved(ex) || RecurredVersion(examples, ex).None? then ex
    else ex.(recurred := true, recurredFrom := RecurredVersion(examples, ex).value)
  }

  function MarkAll(rows: seq<Example>, examples: seq<Example>): (marked: seq<Example>)
    ensures |marked| == |rows|
    ensures forall i :: 0 <= i < |rows| ==> marked[i] == MarkOne(examples, rows[i])
  {
    seq(|rows|, i requires 0 <= i < |rows| => MarkOne(examples, rows[i]))
  }

  /** The slice after `markRecurrences` has run over it. */
  function Marked(examples: seq<Example>): seq<Example> {
    MarkAll(examples, examples)
  }

  /** `markRecurrences`: one pass collects the resolved rows, a second marks the live rows in
      place. */
  method MarkRecurrences(examples: array<Example>)
    modifies examples
    ensures examples[..] == Marked(old(examples[..]))
  {
    ghost var before := examples[..];
    var resolvedByMessage: map<(string, Verdict), int> := map[];
    var resolvedBySender: map<(string, Verdict), int> := map[];
    var n := examples.Length;
    for i := 0 to n
      invariant examples[..] == before
      invariant forall m, v :: (m, v) in resolvedByMessage <==> VersionByMessage(before[..i], m, v).Some?
      invariant forall m, v :: (m, v) in resolvedByMessage ==>
                  VersionByMessage(before[..i], m, v).value == resolvedByMessage[(m, v)]
      invariant forall k, v :: (k, v) in resolvedBySender <==> VersionBySender(before[..i], k, v).Some?
      invariant forall k, v :: (k, v) in resolvedBySender ==>
                  VersionBySender(before[..i], k, v).value == resolvedBySender[(k, v)]
    {
      var ex := examples[i];
      assert ex == before[i] && before[..i + 1][..i] == before[..i];
      if ex.resolvedBy.None? {
        continue;
      }
      var mk := (ex.messageId, ex.verdict);
      if mk !in resolvedByMessage {
        resolvedByMessage := resolvedByMessage[mk := ex.promptVersion];
      }
      var sk := (KeyOf(ex), ex.verdict);
      if sk !in resolvedBySender {
        resolvedBySender := resolvedBySender[sk := ex.promptVersion];
      }
    }
    assert before[..n] == before;
    for i := 0 to n
      invariant forall j :: 0 <= j < n ==> examples[j] == if j < i then MarkOne(before, before[j]) else before[j]
    {
      var ex := examples[i];
      if ex.resolvedBy.Some? {
        continue;
      }
      var mk, sk := (ex.messageId, ex.verdict), (KeyOf(ex), ex.verdict);
      if mk in resolvedByMessage {
        examples[i] := ex.(recurred := true, recurredFrom := resolvedByMessage[mk]);
        continue;
      }
      if sk in resolvedBySender {
        examples[i] := ex.(recurred := true, recurredFrom := resolvedBySender[sk]);
      }
    }
  }

  lemma {:induction false} VersionByMessageIs(examples: seq<Example>, messageId: string, verdict: Verdict)
    ensures VersionByMessage(examples, messageId, verdict).Some?
       <==> exists ex :: ex in examples && ResolvedMessage(ex, messageId, verdict)
  {
    if examples != [] {
      var n := |examples| - 1;
      VersionByMessageIs(examples[..n], messageId, verdict);
      assert examples == examples[..n] + [examples[n]];
    }
  }

  lemma {:induction false} VersionBySenderIs(examples: seq<Example>, key: string, verdict: Verdict)
    ensures VersionBySender(examples, key, verdict).Some?
       <==> exists ex :: ex in examples && ResolvedSender(ex, key, verdict)
  {
    if examples != [] {
      var n := |examples| - 1;
      VersionBySenderIs(examples[..n], key, verdict);
      assert examples == examples[..n] + [examples[n]];
    }
  }

  lemma {:induction false} VersionByMessageFrom(examples: seq<Example>, messageId: string, verdict: Verdict)
    returns (i: nat)
    requires VersionByMessage(examples, messageId, verdict).Some?
    ensures i < |examples| && ResolvedMessage(examples[i], messageId, verdict)
    ensures VersionByMessage(examples, messageId, verdict) == Some(examples[i].promptVersion)
    ensures forall j | 0 <= j < i :: !ResolvedMessage(examples[j], messageId, verdict)
  {
    var n := |examples| - 1;
    if VersionByMessage(examples[..n], messageId, verdict).Some? {
      i := VersionByMessageFrom(examples[..n], messageId, verdict);
    } else {
      i := n;
      VersionByMessageIs(examples[..n], messageId, verdict);
      assert forall j | 0 <= j < n :: examples[j] in examples[..n];
    }
  }

  lemma {:induction false} VersionBySenderFrom(examples: seq<Example>, key: string, verdict: Verdict) returns (i: nat)
    requires VersionBySender(examples, key, verdict).Some?
    ensures i < |examples| && ResolvedSender(examples[i], key, verdict)
    ensures VersionBySender(examples, key, verdict) == Some(examples[i].promptVersion)
    ensures forall j | 0 <= j < i :: !ResolvedSender(examples[j], key, verdict)
  {
    var n := |examples| - 1;
    if VersionBySender(examples[..n], key, verdict).Some? {
      i := VersionBySenderFrom(examples[..n], key, verdict);
    } else {
      i := n;
      VersionBySenderIs(examples[..n], key, verdict);
      assert forall j | 0 <= j < n :: examples[j] in examples[..n];
    }
  }

  /** A resolved row of the same verdict for this row's message. */
  predicate FixedMessage(r: Example, ex: Example) {
    r.resolvedBy.Some? && r.verdict == ex.verdict && r.messageId == ex.messageId
  }

  /** A resolved row of the same verdict from this row's sender with its subject. */
  ghost predicate FixedSender(r: Example, ex: Example) {
    r.resolvedBy.Some? && r.verdict == ex.verdict && Alike(r, ex)
  }

  /** What the mark means: a live row recurred exactly when some resolved row of the same
      verdict, older or newer, has its message id or its sender and subject. */
  lemma MarkMeansRecurred(examples: seq<Example>, ex: Example)
    requires ex.resolvedBy.None? && !ex.recurred && NoNulSenders(examples) && NoNul(ex.sender)
    ensures MarkOne(examples, ex).recurred <==>
            exists r :: r in examples && (FixedMessage(r, ex) || FixedSender(r, ex))
  {
    VersionByMessageIs(examples, ex.messageId, ex.verdict);
    VersionBySenderIs(examples, KeyOf(ex), ex.verdict);
    forall r | r in examples ensures KeyOf(r) == KeyOf(ex) <==> Alike(r, ex) {
      AlikeIsKey(r, ex);
    }
  }

  /** And it names the rule version of the first such row in the list: by the message if there is
      one, and else by the sender and subject. Nothing else of the row changes. */
  lemma MarkNamesVersion(examples: seq<Example>, ex: Example) returns (i: nat)
    requires ex.resolvedBy.None? && !ex.recurred && NoNulSenders(examples) && NoNul(ex.sender)
    requires MarkOne(examples, ex).recurred
    ensures i < |examples| && MarkOne(examples, ex) == ex.(recurred := true, recurredFrom := examples[i].promptVersion)
    ensures if FixedMessage(examples[i], ex) then forall j | 0 <= j < i :: !FixedMessage(examples[j], ex)
            else FixedSender(examples[i], ex) && (forall j | 0 <= j < |examples| :: !FixedMessage(examples[j], ex))
                 && forall j | 0 <= j < i :: !FixedSender(examples[j], ex)
  {
    VersionByMessageIs(examples, ex.messageId, ex.verdict);
    if VersionByMessage(examples, ex.messageId, ex.verdict).Some? {
      i := VersionByMessageFrom(examples, ex.messageId, ex.verdict);
    } else {
      i := VersionBySenderFrom(examples, KeyOf(ex), ex.verdict);
      forall j | 0 <= j < |examples|
        ensures KeyOf(examples[j]) == KeyOf(ex) <==> Alike(examples[j], ex)
        ensures !FixedMessage(examples[j], ex)
      {
        AlikeIsKey(examples[j], ex);
        assert examples[j] in examples;
      }
    }
  }

  // ---------------------------------------------------------------- live rows

  function Live(examples: seq<Example>): seq<Example> {
    if examples == [] then []
    else
      var n := |examples| - 1;
      if Resolved(examples[n]) then Live(examples[..n]) else Live(examples[..n]) + [examples[n]]
  }

  method FilterResolved(examples: seq<Example>) returns (out: seq<Example>)
    ensures out == Live(examples)
  {
    out := [];
    for i := 0 to |examples|
      invariant out == Live(examples[..i])
    {
      assert examples[..i + 1][..i] == examples[..i];
      if examples[i].resolvedBy.Some? {
        continue;
      }
      out := out + [examples[i]];
    }
    assert examples[..|examples|] == examples;
  }

  lemma {:induction false} LiveMembers(examples: seq<Example>)
    ensures forall ex :: ex in Live(examples) <==> ex in examples && !Resolved(ex)
  {
    if examples != [] {
      var n := |examples| - 1;
      LiveMembers(examples[..n]);
      assert examples == examples[..n] + [examples[n]];
    }
  }

  lemma {:induction false} LiveConcat(xs: seq<Example>, ys: seq<Example>)
    ensures Live(xs + ys) == Live(xs) + Live(ys)
  {
    if ys == [] {
      assert xs + ys == xs;
    } else {
      var n := |ys| - 1;
      assert (xs + ys)[..|xs + ys| - 1] == xs + ys[..n];
      LiveConcat(xs, ys[..n]);
    }
  }

  // ---------------------------------------------------------------- one row per message

  /** Row i is the one kept for its message: nothing newer, and no earlier row equally new. */
  predicate Wins(rows: seq<Example>, i: nat)
    requires i < |rows|
  {
    && (forall j :: 0 <= j < |rows| && rows[j].messageId == rows[i].messageId ==> rows[j].id <= rows[i].id)
    && (forall j :: 0 <= j < i && rows[j].messageId == rows[i].messageId ==> rows[j].id < rows[i].id)
  }

  function Winners(rows: seq<Example>, n: nat): seq<Example>
    requires n <= |rows|
  {
    if n == 0 then []
    else if Wins(rows, n - 1) then Winners(rows, n - 1) + [rows[n - 1]] else Winners(rows, n - 1)
  }

  /** `newest` maps every message id of `rows` to its highest row id. */
  ghost predicate NewestIds(rows: seq<Example>, newest: map<string, int>) {
    && (forall j :: 0 <= j < |rows| ==> rows[j].messageId in newest && rows[j].id <= newest[rows[j].messageId])
    && (forall m :: m in newest ==> exists j :: 0 <= j < |rows| && rows[j].messageId == m && rows[j].id == newest[m])
  }

  method CollectNewest(rows: seq<Example>) returns (newest: map<string, int>)
    ensures NewestIds(rows, newest)
  {
    newest := map[];
    for i := 0 to |rows|
      invariant NewestIds(rows[..i], newest)
    {
      var ex := rows[i];
      ghost var before, after, old' := rows[..i], rows[..i + 1], newest;
      assert after == before + [ex];
      if ex.messageId !in newest || ex.id > newest[ex.messageId] {
        newest := newest[ex.messageId := ex.id];
      }
      forall m | m in newest
        ensures exists j :: 0 <= j < |after| && after[j].messageId == m && after[j].id == newest[m]
      {
        if m == ex.messageId && newest[m] == ex.id {
          assert after[i].messageId == m;
        } else {
          var j :| 0 <= j < |before| && before[j].messageId == m && before[j].id == old'[m];
          assert after[j] == before[j];
        }
      }
    }
    assert rows[..|rows|] == rows;
  }

  /** The messages whose newest row is among the first i. */
  ghost function SeenBefore(rows: seq<Example>, newest: map<string, int>, i: nat): set<string>
    requires i <= |rows|
  {
    set m | m in newest && exists j :: 0 <= j < i && rows[j].messageId == m && rows[j].id == newest[m]
  }

  lemma SeenStep(rows: seq<Example>, newest: map<string, int>, i: nat)
    requires i < |rows| && rows[i].messageId in newest
    ensures SeenBefore(rows, newest, i + 1) == SeenBefore(rows, newest, i)
      + (if rows[i].id == newest[rows[i].messageId] then {rows[i].messageId} else {})
  {
  }

  /** The newest-wins pass at the end of `gatherRawExamples`. */
  method NewestWins(rows: seq<Example>) returns (survivors: seq<Example>)
    ensures survivors == Winners(rows, |rows|)
  {
    var newest := CollectNewest(rows);
    survivors := [];
    var seen: set<string> := {};
    for i := 0 to |rows|
      invariant survivors == Winners(rows, i)
      invariant seen == SeenBefore(rows, newest, i)
    {
      var ex := rows[i];
      SeenStep(rows, newest, i);
      if newest[ex.messageId] != ex.id || ex.messageId in seen {
        continue;
      }
      seen := seen + {ex.messageId};
      survivors := survivors + [ex];
    }
  }

  ghost predicate DistinctMessages(rows: seq<Example>) {
    forall i, j :: 0 <= i < j < |rows| ==> rows[i].messageId != rows[j].messageId
  }

  ghost predicate DistinctIds(rows: seq<Example>) {
    forall i, j :: 0 <= i < j < |rows| ==> rows[i].id != rows[j].id
  }

  /** Newest first within each verdict. */
  ghost predicate NewestFirst(rows: seq<Example>) {
    forall i, j :: 0 <= i < j < |rows| && rows[i].verdict == rows[j].verdict ==> rows[j].id < rows[i].id
  }

  lemma {:induction false} WinnersAre(rows: seq<Example>, n: nat)
    requires n <= |rows|
    ensures forall ex :: ex in Winners(rows, n) <==> exists i :: 0 <= i < n && rows[i] == ex && Wins(rows, i)
    ensures DistinctMessages(Winners(rows, n))
    ensures NewestFirst(rows) ==> NewestFirst(Winners(rows, n))
  {
    if n > 0 {
      WinnersAre(rows, n - 1);
      var before := Winners(rows, n - 1);
      forall k | 0 <= k < |before| && Wins(rows, n - 1)
        ensures before[k].messageId != rows[n - 1].messageId
        ensures NewestFirst(rows) && before[k].verdict == rows[n - 1].verdict ==> rows[n - 1].id < before[k].id
      {
        assert before[k] in before;
        var i :| 0 <= i < n - 1 && rows[i] == before[k] && Wins(rows, i);
      }
    }
  }

  lemma WinnerExists(rows: seq<Example>, i: nat) returns (w: nat)
    requires i < |rows|
    ensures w < |rows| && rows[w].messageId == rows[i].messageId && Wins(rows, w) && rows[i].id <= rows[w].id
  {
    w := i;
    var j := 0;
    while j < |rows|
      invariant 0 <= j <= |rows| && w < |rows| && rows[w].messageId == rows[i].messageId && rows[i].id <= rows[w].id
      invariant forall k :: 0 <= k < j && rows[k].messageId == rows[i].messageId ==> rows[k].id <= rows[w].id
      invariant forall k :: 0 <= k < j && k < w && rows[k].messageId == rows[i].messageId ==> rows[k].id < rows[w].id
    {
      if rows[j].messageId == rows[i].messageId && (rows[j].id > rows[w].id || (rows[j].id == rows[w].id && j < w)) {
        w := j;
      }
      j := j + 1;
    }
  }

  // ---------------------------------------------------------------- gathering

  const RAW_EXAMPLE_LIMIT: nat := 120

  /** `ListExamplesByVerdict`: the newest rows of one verdict's partition, up to 120. */
  function Window(rows: seq<Example>): seq<Example> {
    if |rows| <= RAW_EXAMPLE_LIMIT then rows else rows[..RAW_EXAMPLE_LIMIT]
  }

  function LiveMarked(pos: seq<Example>, neg: seq<Example>): seq<Example> {
    Live(Marked(pos + neg))
  }

  function Gather(pos: seq<Example>, neg: seq<Example>): seq<Example> {
    var rows := LiveMarked(Window(pos), Window(neg));
    Winners(rows, |rows|)
  }

  method GatherRawExamples(pos: seq<Example>, neg: seq<Example>) returns (out: seq<Example>)
    ensures out == Gather(pos, neg)
  {
    var fetched := Window(pos) + Window(neg);
    var all := new Example[|fetched|](i requires 0 <= i < |fetched| => fetched[i]);
    assert all[..] == fetched;
    MarkRecurrences(all);
    var live := FilterResolved(all[..]);
    out := NewestWins(live);
  }

  /** The gathered corpus has exactly one row for every message with a live row in the fetched
      windows, the live row with the highest id, still newest first within each verdict. So no
      message is shown both as should-match and as should-not-match. */
  lemma GatherExact(pos: seq<Example>, neg: seq<Example>)
    ensures Window(pos) == (if |pos| <= 120 then pos else pos[..120])
    ensures Window(neg) == (if |neg| <= 120 then neg else neg[..120])
    ensures var rows, out := LiveMarked(Window(pos), Window(neg)), Gather(pos, neg);
      && DistinctMessages(out)
      && (forall ex :: ex in out ==>
            ex in rows && forall r :: r in rows && r.messageId == ex.messageId ==> r.id <= ex.id)
      && (forall r :: r in rows ==> exists ex :: ex in out && ex.messageId == r.messageId)
      && (NewestFirst(rows) ==> NewestFirst(out))
  {
    var rows, out := LiveMarked(Window(pos), Window(neg)), Gather(pos, neg);
    WinnersAre(rows, |rows|);
    forall r | r in rows ensures exists ex :: ex in out && ex.messageId == r.messageId {
      var i :| 0 <= i < |rows| && rows[i] == r;
      var w := WinnerExists(rows, i);
      assert rows[w] in out;
    }
    forall ex | ex in out
      ensures ex in rows && forall r :: r in rows && r.messageId == ex.messageId ==> r.id <= ex.id
    {
      var i :| 0 <= i < |rows| && rows[i] == ex && Wins(rows, i);
    }
  }

  /** When every message has one live row already, newest-wins changes nothing. */
  lemma {:induction false} WinnersOfDistinct(rows: seq<Example>, n: nat)
    requires DistinctMessages(rows) && n <= |rows|
    ensures Winners(rows, n) == rows[..n]
  {
    if n > 0 {
      WinnersOfDistinct(rows, n - 1);
    }
  }

  // ---------------------------------------------------------------- shown, replayed, held out

  function OfVerdict(rows: seq<Example>, verdict: Verdict): seq<Example> {
    if rows == [] then []
    else
      var n := |rows| - 1;
      if rows[n].verdict == verdict then OfVerdict(rows[..n], verdict) + [rows[n]] else OfVerdict(rows[..n], verdict)
  }

  /** `sampleExamples`: the positives' sample, then the negatives'. */
  function SampleExamples(rows: seq<Example>, perVerdictCap: nat): seq<Example> {
    SampleSpec(OfVerdict(rows, ConfirmedPositive), perVerdictCap)
    + SampleSpec(OfVerdict(rows, ConfirmedNegative), perVerdictCap)
  }

  lemma {:induction false} OfVerdictMembers(rows: seq<Example>, verdict: Verdict)
    ensures forall ex :: ex in OfVerdict(rows, verdict) <==> ex in rows && ex.verdict == verdict
    ensures NoRepeat(rows) ==> NoRepeat(OfVerdict(rows, verdict))
  {
    if rows != [] {
      var n := |rows| - 1;
      OfVerdictMembers(rows[..n], verdict);
      assert rows == rows[..n] + [rows[n]];
    }
  }

  lemma SamplePartsMembers(rows: seq<Example>, cap: nat, ex: Example)
    ensures ex in SampleExamples(rows, cap) <==> ex in rows && ex in SampleSpec(OfVerdict(rows, ex.verdict), cap)
  {
    OfVerdictMembers(rows, ConfirmedPositive);
    OfVerdictMembers(rows, ConfirmedNegative);
    SampleMembers(OfVerdict(rows, ConfirmedPositive), cap, ex);
    SampleMembers(OfVerdict(rows, ConfirmedNegative), cap, ex);
  }

  lemma RoundRobinNoRepeat(candidates: seq<Example>, budget: int)
    requires NoRepeat(candidates)
    ensures NoRepeat(RoundRobinSpec(candidates, budget))
  {
    DealBuckets(candidates);
    var dealt, n := Deal(Buckets(candidates)), Clamp(budget, |candidates|);
    assert dealt == dealt[..n] + dealt[n..];
    NoRepeatConcat(dealt[..n], dealt[n..]);
  }

  lemma JoinNoRepeat<T>(xs: seq<T>, ys: seq<T>)
    requires NoRepeat(xs) && NoRepeat(ys) && forall x :: x in xs ==> x !in ys
    ensures NoRepeat(xs + ys)
  {
    var zs := xs + ys;
    forall i, j | 0 <= i < j < |zs| ensures zs[i] != zs[j] {
      if i < |xs| <= j {
        assert zs[i] == xs[i] && zs[i] in xs && zs[j] == ys[j - |xs|];
      }
    }
  }

  lemma SamplePartsOfTier(candidates: seq<Example>, cap: nat)
    requires NoRepeat(candidates)
    ensures var r, m, c := RecurredPart(candidates, cap), MissedPart(candidates, cap), ConfirmedPart(candidates, cap);
      && NoRepeat(r) && NoRepeat(m) && NoRepeat(c)
      && (forall x :: x in r ==> TierOf(x) == RecurredTier)
      && (forall x :: x in m ==> TierOf(x) == MissedTier)
      && (forall x :: x in c ==> TierOf(x) == ConfirmedTier)
  {
    var r, m := RecurredPart(candidates, cap), MissedPart(candidates, cap);
    InTierMembers(candidates, RecurredTier);
    InTierMembers(candidates, MissedTier);
    InTierMembers(candidates, ConfirmedTier);
    RoundRobinNoRepeat(InTier(candidates, MissedTier), cap - |r|);
    RoundRobinNoRepeat(InTier(candidates, ConfirmedTier), cap - |r| - |m|);
    RoundRobinMembers(InTier(candidates, MissedTier), cap - |r|);
    RoundRobinMembers(InTier(candidates, ConfirmedTier), cap - |r| - |m|);
    assert forall x :: x in r ==> x in InTier(candidates, RecurredTier);
  }

  lemma SampleNoRepeat(candidates: seq<Example>, cap: nat)
    requires NoRepeat(candidates)
    ensures NoRepeat(SampleSpec(candidates, cap))
  {
    var r, m, c := RecurredPart(candidates, cap), MissedPart(candidates, cap), ConfirmedPart(candidates, cap);
    SamplePartsOfTier(candidates, cap);
    JoinNoRepeat(r, m);
    JoinNoRepeat(r + m, c);
  }

  lemma SampleExamplesNoRepeat(rows: seq<Example>, cap: nat)
    requires NoRepeat(rows)
    ensures NoRepeat(SampleExamples(rows, cap))
  {
    var p, n := OfVerdict(rows, ConfirmedPositive), OfVerdict(rows, ConfirmedNegative);
    OfVerdictMembers(rows, ConfirmedPositive);
    OfVerdictMembers(rows, ConfirmedNegative);
    SampleNoRepeat(p, cap);
    SampleNoRepeat(n, cap);
    forall x | x in SampleSpec(p, cap) ensures x !in SampleSpec(n, cap) {
      SampleMembers(p, cap, x);
      SampleMembers(n, cap, x);
    }
    JoinNoRepeat(SampleSpec(p, cap), SampleSpec(n, cap));
  }

  predicate MessageShown(shown: seq<Example>, messageId: string) {
    exists i :: 0 <= i < |shown| && shown[i].messageId == messageId
  }

  /** The replayed examples the improve prompt never saw (`replayExamplesFor`). */
  function HeldOut(replayed: seq<Example>, shown: seq<Example>): seq<Example> {
    if replayed == [] then []
    else
      var n := |replayed| - 1;
      if MessageShown(shown, replayed[n].messageId) then HeldOut(replayed[..n], shown)
      else HeldOut(replayed[..n], shown) + [replayed[n]]
  }

  /** Each gathered row is determined by its message id. */
  lemma ByMessage(rows: seq<Example>, a: Example, b: Example)
    requires DistinctMessages(rows) && a in rows && b in rows && a.messageId == b.messageId
    ensures a == b
  {
  }

  lemma {:induction false} HeldOutCount(replayed: seq<Example>, shown: seq<Example>, rows: seq<Example>)
    requires DistinctMessages(rows)
    requires forall x :: x in replayed ==> x in rows
    requires forall x :: x in shown ==> x in rows
    ensures |HeldOut(replayed, shown)| + |Filter(replayed, SetOf(shown))| == |replayed|
  {
    if replayed != [] {
      var n := |replayed| - 1;
      assert replayed == replayed[..n] + [replayed[n]];
      HeldOutCount(replayed[..n], shown, rows);
      if MessageShown(shown, replayed[n].messageId) {
        var i :| 0 <= i < |shown| && shown[i].messageId == replayed[n].messageId;
        ByMessage(rows, shown[i], replayed[n]);
      }
    }
  }

  lemma {:induction false} FilterNoRepeat<T>(xs: seq<T>, keep: set<T>)
    requires NoRepeat(xs)
    ensures NoRepeat(Filter(xs, keep))
  {
    if xs != [] {
      FilterNoRepeat(xs[..|xs| - 1], keep);
      FilterMembers(xs[..|xs| - 1], keep);
    }
  }

  lemma SameElementsSameLength<T>(xs: seq<T>, ys: seq<T>)
    requires NoRepeat(xs) && NoRepeat(ys) && forall x :: x in xs <==> x in ys
    ensures |xs| == |ys|
  {
    NoRepeatIsSet(xs);
    NoRepeatIsSet(ys);
    forall x ensures multiset(xs)[x] == multiset(ys)[x] {
      assert multiset(xs)[x] <= 1 && multiset(ys)[x] <= 1;
      assert multiset(xs)[x] > 0 <==> x in xs;
      assert multiset(ys)[x] > 0 <==> x in ys;
    }
    assert multiset(xs) == multiset(ys);
    SamePermutation(xs, ys);
  }

  /** With the improve cap at most the replay cap, everything the improver is shown is also
      replayed, and what is held out is exactly the rest. */
  lemma ShownIsReplayed(pos: seq<Example>, neg: seq<Example>, improveCap: nat, replayCap: nat)
    requires improveCap <= replayCap
    ensures var rows := Gather(pos, neg);
      var shown, replayed := SampleExamples(rows, improveCap), SampleExamples(rows, replayCap);
      && (forall ex :: ex in shown ==> ex in replayed)
      && |HeldOut(replayed, shown)| == |replayed| - |shown|
  {
    var rows := Gather(pos, neg);
    var shown, replayed := SampleExamples(rows, improveCap), SampleExamples(rows, replayCap);
    GatherExact(pos, neg);
    forall ex | ex in shown ensures ex in replayed && ex in rows {
      SamplePartsMembers(rows, improveCap, ex);
      SampleGrows(OfVerdict(rows, ex.verdict), improveCap, replayCap, ex);
      SamplePartsMembers(rows, replayCap, ex);
    }
    forall ex | ex in replayed ensures ex in rows {
      SamplePartsMembers(rows, replayCap, ex);
    }
    HeldOutCount(replayed, shown, rows);
    SampleExamplesNoRepeat(rows, improveCap);
    SampleExamplesNoRepeat(rows, replayCap);
    FilterNoRepeat(replayed, SetOf(shown));
    FilterMembers(replayed, SetOf(shown));
    SameElementsSameLength(Filter(replayed, SetOf(shown)), shown);
  }

  /** `problemExampleKeys`, as the examples the keys belong to. */
  function ProblemExamples(shown: seq<Example>, replayOn: bool, fixed: set<string>): seq<Example> {
    if shown == [] then []
    else
      var n := |shown| - 1;
      var before := ProblemExamples(shown[..n], replayOn, fixed);
      if !shown[n].missed || (replayOn && shown[n].messageId !in fixed) then before else before + [shown[n]]
  }

  /** `fixedByReplay`: the messages the winning round scored correctly; indices outside the
      replayed examples are skipped. */
  function FixedByReplay(passed: seq<int>, replayed: seq<Example>): set<string> {
    set i | i in passed && 0 <= i < |replayed| :: replayed[i].messageId
  }

  lemma {:induction false} ProblemMembers(shown: seq<Example>, replayOn: bool, fixed: set<string>)
    ensures forall ex :: ex in ProblemExamples(shown, replayOn, fixed)
              <==> ex in shown && ex.missed && (replayOn ==> ex.messageId in fixed)
  {
    if shown != [] {
      var n := |shown| - 1;
      ProblemMembers(shown[..n], replayOn, fixed);
      assert shown == shown[..n] + [shown[n]];
    }
  }

  lemma ResolvedByIndices(pos: seq<Example>, neg: seq<Example>, improveCap: nat, replayCap: nat, passed: seq<int>,
                          ex: Example)
    ensures var rows := Gather(pos, neg);
      var shown, replayed := SampleExamples(rows, improveCap), SampleExamples(rows, replayCap);
      (ex in ProblemExamples(shown, true, FixedByReplay(passed, replayed)) <==>
       ex in shown && ex.missed && exists i :: i in passed && 0 <= i < |replayed| && replayed[i] == ex)
  {
    var rows := Gather(pos, neg);
    var shown, replayed := SampleExamples(rows, improveCap), SampleExamples(rows, replayCap);
    ProblemMembers(shown, true, FixedByReplay(passed, replayed));
    GatherExact(pos, neg);
    if ex in shown && ex.messageId in FixedByReplay(passed, replayed) {
      var i :| i in passed && 0 <= i < |replayed| && replayed[i].messageId == ex.messageId;
      SamplePartsMembers(rows, improveCap, ex);
      SamplePartsMembers(rows, replayCap, replayed[i]);
      ByMessage(rows, ex, replayed[i]);
    }
  }

  /** `replayExamplesFor`. */
  function ReplayExamplesFor(replayed: seq<Example>, shown: seq<Example>): (examples: seq<Replay.ReplayExample>)
    ensures |examples| == |replayed|
    ensures forall i :: 0 <= i < |replayed| ==> examples[i].want == (replayed[i].verdict == ConfirmedPositive)
    ensures forall i :: 0 <= i < |replayed| ==> examples[i].wasCorrect == !replayed[i].missed
    ensures forall i :: 0 <= i < |replayed| ==>
              (examples[i].heldOut <==> forall k :: 0 <= k < |shown| ==> shown[k].messageId != replayed[i].messageId)
  {
    seq(|replayed|, i requires 0 <= i < |replayed| =>
      Replay.ReplayExample(replayed[i].verdict == ConfirmedPositive,
                           !MessageShown(shown, replayed[i].messageId), !replayed[i].missed))
  }

  lemma PassedMeansRight(replayed: seq<Example>, shown: seq<Example>, first: seq<Option<bool>>,
                         retry: seq<Option<bool>>, i: nat)
    requires |first| == |retry| == |replayed|
    ensures var outcomes := Replay.FinalOutcomes(ReplayExamplesFor(replayed, shown), first, retry);
            i in Replay.TallyOf(outcomes).passedIndices <==>
            i < |replayed| && Replay.FinalAnswer(first[i], retry[i]) == Some(replayed[i].verdict == ConfirmedPositive)
  {
    var examples := ReplayExamplesFor(replayed, shown);
    Replay.IndicesAre(Replay.FinalOutcomes(examples, first, retry), Replay.Passed);
    if i < |replayed| {
      Replay.IndicesPartition(examples, first, retry, i);
    }
  }

  /** With replay on, applying the suggestion resolves exactly the problems it was shown whose own
      replay in the winning round came back right: `first` and `retry` are what its calls answered. */
  lemma ResolvedOnlyIfReplayed(pos: seq<Example>, neg: seq<Example>, improveCap: nat, replayCap: nat,
                               first: seq<Option<bool>>, retry: seq<Option<bool>>, ex: Example)
    requires |first| == |retry| == |SampleExamples(Gather(pos, neg), replayCap)|
    ensures var rows := Gather(pos, neg);
      var shown, replayed := SampleExamples(rows, improveCap), SampleExamples(rows, replayCap);
      var outcomes := Replay.FinalOutcomes(ReplayExamplesFor(replayed, shown), first, retry);
      var passed := Replay.TallyOf(outcomes).passedIndices;
      (ex in ProblemExamples(shown, true, FixedByReplay(passed, replayed)) <==>
       ex in shown && ex.missed && exists i :: 0 <= i < |replayed| && replayed[i] == ex
                                          && Replay.FinalAnswer(first[i], retry[i]) ==
                                             Some(ex.verdict == ConfirmedPositive))
  {
    var rows := Gather(pos, neg);
    var shown, replayed := SampleExamples(rows, improveCap), SampleExamples(rows, replayCap);
    var passed := Replay.TallyOf(Replay.FinalOutcomes(ReplayExamplesFor(replayed, shown), first, retry)).passedIndices;
    ResolvedByIndices(pos, neg, improveCap, replayCap, passed, ex);
    forall i: nat ensures i in passed <==>
      i < |replayed| && Replay.FinalAnswer(first[i], retry[i]) == Some(replayed[i].verdict == ConfirmedPositive)
    {
      PassedMeansRight(replayed, shown, first, retry, i);
    }
  }
}
