/**
 Where "pruning deletes only what selection would never pick" (improve.go, the comment on
 `pruneKeepSet`) stops being true of the code. Each lemma builds a corpus, for every size in a
 range, that misses one of the three conditions of `Prune.PruneInvisibleExactly` and keeps the
 others, on which the prune runs and changes what is selected. All use the smallest prune cap
 the settings allow, 2.

 `BeyondWindow` has n rows of a newsletter and one older row from another sender: selection
 stops reading before the older row, but pruning keeps it in place of a newsletter row.
 `Recorrected` has n corrections of one message and an older row of another: selection merges
 the corrections and shows the other message, pruning spends its cap on the corrections.
 `MarkForgotten` has one live row whose mark comes from the oldest of its resolved rows.
 */
module PruneLimits {
  import opened Wrappers
  import opened RoundRobin
  import opened Sampling
  import opened SenderSubject
  import opened Corpus
  import opened Prune

  const CAP: nat := 2

  function Mail(id: int, messageId: string, sender: string): Example {
    Example(id, messageId, ConfirmedPositive, sender, "", None, 1, false, false, 0)
  }

  function Name(i: nat): string {
    seq(i, k => 'm')
  }

  lemma KeysOf(a: Example, b: Example)
    requires a.subject == b.subject == "" && |a.sender| == |b.sender| == 1
    requires 'a' <= a.sender[0] <= 'z' && 'a' <= b.sender[0] <= 'z'
    ensures KeyOf(a) == KeyOf(b) <==> a.sender == b.sender
  {
    assert Trim(a.sender) == a.sender && Trim(b.sender) == b.sender;
    assert Fold(a.sender) == a.sender && Fold(b.sender) == b.sender;
    assert KeyOf(a)[0] == a.sender[0] && KeyOf(b)[0] == b.sender[0];
  }

  predicate PlainRow(ex: Example) {
    !Resolved(ex) && TierOf(ex) == ConfirmedTier && ex.verdict == ConfirmedPositive
  }

  /** Live confirmations only. */
  predicate Plain(rows: seq<Example>) {
    forall i :: 0 <= i < |rows| ==> PlainRow(rows[i])
  }

  lemma {:induction false} AllLive(rows: seq<Example>)
    requires forall i :: 0 <= i < |rows| ==> !Resolved(rows[i])
    ensures Live(rows) == rows && ResolvedOf(rows) == []
  {
    if rows != [] {
      var n := |rows| - 1;
      var before := rows[..n];
      assert rows == before + [rows[n]];
      AllLive(before);
    }
  }

  lemma {:induction false} AllInTier(rows: seq<Example>, tier: Tier)
    requires forall i :: 0 <= i < |rows| ==> TierOf(rows[i]) == tier
    ensures InTier(rows, tier) == rows
    ensures forall t :: t != tier ==> InTier(rows, t) == []
  {
    if rows != [] {
      AllInTier(rows[..|rows| - 1], tier);
    }
  }

  /** Without resolved rows nothing is marked. */
  lemma NothingMarked(rows: seq<Example>)
    requires forall i :: 0 <= i < |rows| ==> !Resolved(rows[i])
    ensures Marked(rows) == rows
  {
    forall i | 0 <= i < |rows| ensures MarkOne(rows, rows[i]) == rows[i] {
      VersionByMessageIs(rows, rows[i].messageId, rows[i].verdict);
      VersionBySenderIs(rows, KeyOf(rows[i]), rows[i].verdict);
    }
  }

  /** Rows that are all live confirmations are sampled by round-robin alone. */
  lemma PlainRows(rows: seq<Example>, cap: nat)
    requires Plain(rows)
    ensures Marked(rows) == rows && Live(rows) == rows && ResolvedOf(rows) == []
    ensures SampleSpec(rows, cap) == RoundRobinSpec(rows, cap)
  {
    assert forall i :: 0 <= i < |rows| ==> PlainRow(rows[i]);
    AllLive(rows);
    NothingMarked(rows);
    AllInTier(rows, ConfirmedTier);
    assert RecurredPart(rows, cap) == [] && MissedPart(rows, cap) == [];
  }

  lemma {:induction false} OneBucket(rows: seq<Example>, ex: Example)
    requires rows != [] && forall i :: 0 <= i < |rows| ==> KeyOf(rows[i]) == KeyOf(ex)
    ensures Keys(rows) == [KeyOf(ex)] && Bucket(rows, KeyOf(ex)) == rows
    ensures forall k :: k != KeyOf(ex) ==> Bucket(rows, k) == []
  {
    if |rows| > 1 {
      OneBucket(rows[..|rows| - 1], ex);
    } else {
      assert rows[..0] == [];
    }
  }

  lemma DealOne<T>(q: seq<T>)
    requires |q| >= 2
    ensures |Deal([q])| >= 2 && Deal([q])[..2] == q[..2]
  {
    assert Fronts([q]) == [q[0]] && Rests([q]) == [q[1..]];
    assert Fronts([q[1..]]) == [q[1]];
    DealSplits([q]);
    DealSplits([q[1..]]);
  }

  lemma DealTwo<T>(q: seq<T>, r: seq<T>)
    requires q != [] && r != []
    ensures |Deal([q, r])| >= 2 && Deal([q, r])[..2] == [q[0], r[0]]
  {
    assert [q, r][1..] == [r] && [r][1..] == [];
    assert Fronts([r]) == [r[0]];
    assert Fronts([q, r]) == [q[0]] + Fronts([r]);
    DealSplits([q, r]);
  }

  lemma OneBucketSample(rows: seq<Example>)
    requires |rows| >= 2 && Plain(rows)
    requires forall i :: 0 <= i < |rows| ==> KeyOf(rows[i]) == KeyOf(rows[0])
    ensures LiveSample(rows, CAP) == rows[..2]
  {
    PlainRows(rows, CAP);
    OneBucket(rows, rows[0]);
    assert Buckets(rows) == [rows];
    DealOne(rows);
  }

  lemma TwoBucketSample(rows: seq<Example>, last: Example)
    requires rows != [] && Plain(rows + [last])
    requires forall i :: 0 <= i < |rows| ==> KeyOf(rows[i]) == KeyOf(rows[0])
    requires KeyOf(last) != KeyOf(rows[0])
    ensures LiveSample(rows + [last], CAP) == [rows[0], last]
  {
    var all := rows + [last];
    PlainRows(all, CAP);
    TwoBuckets(rows, last);
    DealTwo(rows, [last]);
  }

  lemma TwoBuckets(rows: seq<Example>, last: Example)
    requires rows != [] && KeyOf(last) != KeyOf(rows[0])
    requires forall i :: 0 <= i < |rows| ==> KeyOf(rows[i]) == KeyOf(rows[0])
    ensures Buckets(rows + [last]) == [rows, [last]]
  {
    OneBucket(rows, rows[0]);
    AddBucket(rows, last, KeyOf(rows[0]), KeyOf(last));
  }

  lemma KeysOneMore(rows: seq<Example>, last: Example, a: string, b: string)
    requires Keys(rows) == [a] && KeyOf(last) == b && a != b
    ensures Keys(rows + [last]) == [a, b]
  {
    assert (rows + [last])[..|rows|] == rows;
  }

  lemma BucketOneMore(rows: seq<Example>, last: Example, key: string)
    ensures Bucket(rows + [last], key) == if KeyOf(last) == key then Bucket(rows, key) + [last] else Bucket(rows, key)
  {
    assert (rows + [last])[..|rows|] == rows;
  }

  lemma AddBucket(rows: seq<Example>, last: Example, a: string, b: string)
    requires Keys(rows) == [a] && Bucket(rows, a) == rows && Bucket(rows, b) == [] && KeyOf(last) == b && a != b
    ensures Buckets(rows + [last]) == [rows, [last]]
  {
    KeysOneMore(rows, last, a, b);
    BucketOneMore(rows, last, a);
    BucketOneMore(rows, last, b);
    assert [] + [last] == [last];
    QueuesOfTwo(rows + [last], a, b);
  }

  lemma QueuesOfTwo(rows: seq<Example>, a: string, b: string)
    ensures QueuesFor([a, b], rows) == [Bucket(rows, a), Bucket(rows, b)]
  {
    QueuesForAt([a, b], rows, 0);
    QueuesForAt([a, b], rows, 1);
  }

  // ---------------------------------------------------------------- more rows than selection reads

  /** n newest rows from one sender. */
  function Newsletter(n: nat): seq<Example> {
    seq(n, i requires 0 <= i < n => Mail(n - i, Name(i), "a"))
  }

  lemma PlainDistinct(rows: seq<Example>)
    requires Plain(rows) && DistinctMessages(rows)
    ensures DistinctMessages(Live(Marked(rows)) + Live(Marked([])))
  {
    PlainRows(rows, CAP);
    assert rows + [] == rows;
  }

  lemma PlainCorpus(pos: seq<Example>)
    requires Plain(pos) && DistinctMessages(pos)
    ensures AllOf(pos, ConfirmedPositive) && |ResolvedOf(pos)| <= CAP
    ensures DistinctMessages(Live(Marked(pos)) + Live(Marked([])))
  {
    assert forall i :: 0 <= i < |pos| ==> PlainRow(pos[i]);
    PlainRows(pos, CAP);
    PlainDistinct(pos);
  }

  /** Live confirmations of different messages, all but the last from one sender. */
  ghost predicate TwoSenders(rows: seq<Example>, last: Example) {
    var pos := rows + [last];
    && Plain(pos) && DistinctIds(pos) && DistinctMessages(pos) && rows != []
    && (forall i :: 0 <= i < |rows| ==> KeyOf(rows[i]) == KeyOf(rows[0])) && KeyOf(last) != KeyOf(rows[0])
  }

  lemma NewsletterRows(n: nat) returns (rows: seq<Example>, last: Example)
    requires n >= 2
    ensures |rows| == n && TwoSenders(rows, last) && rows[1] != last
  {
    rows, last := Newsletter(n), Mail(0, Name(n), "b");
    var pos := rows + [last];
    forall i | 0 <= i < n ensures KeyOf(rows[i]) == KeyOf(rows[0]) {
      KeysOf(rows[i], rows[0]);
    }
    KeysOf(last, rows[0]);
    forall i, j | 0 <= i < j < |pos| ensures pos[i].messageId != pos[j].messageId && pos[i].id != pos[j].id {
      assert |pos[i].messageId| == i && |pos[j].messageId| == j;
    }
    assert rows[1].sender == "a";
  }

  lemma WindowSelection(pos: seq<Example>, n: nat)
    requires RAW_EXAMPLE_LIMIT <= n < |pos| && Plain(pos) && DistinctMessages(pos)
    requires forall i :: 0 <= i < n ==> KeyOf(pos[i]) == KeyOf(pos[0])
    ensures Selected(pos, [], CAP) == pos[..2]
  {
    var window := pos[..RAW_EXAMPLE_LIMIT];
    assert forall i :: 0 <= i < |window| ==> window[i] == pos[i];
    OneBucketSample(window);
    assert window[..2] == pos[..2];
    PlainSelection(window);
    SelectionReadsWindow(pos);
  }

  lemma SelectionReadsWindow(pos: seq<Example>)
    ensures Selected(pos, [], CAP) == Selected(Window(pos), [], CAP)
  {
    assert Window(Window(pos)) == Window(pos);
  }

  lemma PlainSelection(rows: seq<Example>)
    requires |rows| <= RAW_EXAMPLE_LIMIT && Plain(rows) && DistinctMessages(rows)
    ensures Selected(rows, [], CAP) == LiveSample(rows, CAP)
  {
    PlainDistinct(rows);
    assert forall i :: 0 <= i < |rows| ==> PlainRow(rows[i]);
    SelectedDirectly(rows, [], CAP);
    assert LiveSample([], CAP) == [];
  }

  lemma SelectionsDiffer(rows: seq<Example>, last: Example)
    requires TwoSenders(rows, last) && RAW_EXAMPLE_LIMIT <= |rows| < PRUNE_READ_CEILING && rows[1] != last
    ensures Selected(AfterPrune(rows + [last], CAP), [], CAP) != Selected(rows + [last], [], CAP)
  {
    var pos := rows + [last];
    assert forall i :: 0 <= i < |rows| ==> pos[i] == rows[i];
    WindowSelection(pos, |rows|);
    BeyondPruned(rows, last);
    assert pos[..2][1] == rows[1] && [rows[0], last][1] == last;
  }

  /** A corpus of n newsletter rows and one older row from another sender. Selection reads only
      the newsletter and would take two of it; the prune spreads over both senders, keeps the
      older row, and deletes the second newsletter row. One exists for every size above the
      120-row window up to the 2000 rows that one prune pass reads. */
  lemma BeyondWindow(n: nat) returns (pos: seq<Example>)
    requires RAW_EXAMPLE_LIMIT <= n < PRUNE_READ_CEILING
    ensures |pos| == n + 1 && AllOf(pos, ConfirmedPositive) && DistinctIds(pos)
    ensures |ResolvedOf(pos)| <= CAP && DistinctMessages(Live(Marked(pos)) + Live(Marked([])))
    ensures ShouldPrune(|pos|, CAP)
    ensures Selected(AfterPrune(pos, CAP), [], CAP) != Selected(pos, [], CAP)
  {
    var rows, last := NewsletterRows(n);
    pos := rows + [last];
    PlainCorpus(pos);
    SelectionsDiffer(rows, last);
  }

  lemma BeyondPruned(rows: seq<Example>, last: Example)
    requires TwoSenders(rows, last) && 12 <= |rows| < PRUNE_READ_CEILING
    ensures Selected(AfterPrune(rows + [last], CAP), [], CAP) == [rows[0], last]
  {
    TwoBucketSample(rows, last);
    PrunedSelection(rows + [last]);
    AfterPruneOfFew(rows + [last], CAP);
  }

  lemma PrunedSelection(pos: seq<Example>)
    requires Plain(pos) && DistinctIds(pos) && DistinctMessages(pos)
    ensures Selected(Pruned(pos, CAP), [], CAP) == LiveSample(pos, CAP)
  {
    var left := Pruned(pos, CAP);
    PrunedPlain(pos);
    PlainRows(pos, CAP);
    PlainRows(left, CAP);
    PrunedSample(pos, CAP, CAP);
    KeptRecurredFit(pos, CAP);
    FilterDistinctMessages(Live(Marked(pos)), SetOf(LiveSample(pos, CAP)));
    PlainSelection(left);
  }

  // ---------------------------------------------------------------- a mark that is lost

  function Settled(id: int, messageId: string, sender: string): Example {
    Mail(id, messageId, sender).(resolvedBy := Some(1))
  }

  /** n newer resolved rows from one sender and the oldest from another. */
  function Settlements(n: nat): (rows: seq<Example>)
    ensures |rows| == n + 1 && rows[n] == Settled(0, Name(n), "a")
    ensures forall i :: 0 <= i < n ==> rows[i] == Settled(n - i, Name(i), "b")
  {
    seq(n + 1, i requires 0 <= i <= n => if i < n then Settled(n - i, Name(i), "b") else Settled(0, Name(n), "a"))
  }

  lemma {:induction false} OneLive(live: Example, rows: seq<Example>)
    requires !Resolved(live) && forall i :: 0 <= i < |rows| ==> Resolved(rows[i])
    ensures Live([live] + rows) == [live] && ResolvedOf([live] + rows) == rows
  {
    var all := [live] + rows;
    if rows == [] {
      assert all == [live] && Live([]) == [] && ResolvedOf([]) == [];
    } else {
      var n := |rows| - 1;
      assert all[..|all| - 1] == [live] + rows[..n];
      OneLive(live, rows[..n]);
    }
  }

  lemma MarkFound(rows: seq<Example>, live: Example, r: Example)
    requires !Resolved(live) && r in rows && ResolvedSender(r, KeyOf(live), live.verdict)
    ensures MarkOne(rows, live).recurred
  {
    VersionBySenderIs(rows, KeyOf(live), live.verdict);
  }

  lemma NoMark(rows: seq<Example>, live: Example)
    requires forall r :: r in rows ==> r.messageId != live.messageId && KeyOf(r) != KeyOf(live)
    ensures MarkOne(rows, live) == live
  {
    VersionByMessageIs(rows, live.messageId, live.verdict);
    VersionBySenderIs(rows, KeyOf(live), live.verdict);
  }

  lemma OnlyLiveSampled(live: Example, rows: seq<Example>)
    requires !Resolved(live) && forall i :: 0 <= i < |rows| ==> Resolved(rows[i])
    ensures var all := [live] + rows;
            Live(Marked(all)) == [MarkOne(all, live)] && MarkOne(all, live) in LiveSample(all, CAP)
  {
    var all := [live] + rows;
    OneLive(live, rows);
    LiveMarkAll(all, all);
    assert Live(Marked(all)) == [MarkOne(all, live)];
    TierSizes([MarkOne(all, live)]);
    SampleTakesAll([MarkOne(all, live)], CAP, MarkOne(all, live));
  }

  function Regression(n: nat): Example {
    Mail(n + 1, "x", "a")
  }

  /** The live row of sender a is a regression of the oldest resolved row; the two newest are not
      from that sender. */
  lemma LostMark(n: nat, pos: seq<Example>)
    requires n >= 2 && pos == [Regression(n)] + Settlements(n)
    ensures MarkOne(pos, Regression(n)).recurred && MarkOne(KeptResolved(pos, CAP), Regression(n)) == Regression(n)
  {
    var live, rows := Regression(n), Settlements(n);
    assert pos[n + 1] == rows[n];
    MarkFound(pos, live, rows[n]);
    OneLive(live, rows);
    var kept := KeptResolved(pos, CAP);
    assert kept == rows[..2];
    forall r | r in kept ensures r.messageId != live.messageId && KeyOf(r) != KeyOf(live) {
      var i :| 0 <= i < 2 && kept[i] == r;
      KeysOf(r, live);
      assert |r.messageId| == i && (i == 1 ==> r.messageId[0] == 'm');
    }
    NoMark(kept, live);
  }

  lemma SettlementsRows(n: nat, pos: seq<Example>)
    requires pos == [Regression(n)] + Settlements(n)
    ensures AllOf(pos, ConfirmedPositive) && DistinctIds(pos)
  {
    assert forall i :: 0 <= i < |pos| ==> pos[i].verdict == ConfirmedPositive && pos[i].id == n + 1 - i;
  }

  lemma MarkNotKept(n: nat, pos: seq<Example>)
    requires n >= 2 && pos == [Regression(n)] + Settlements(n)
    ensures !MarksKept(pos, CAP)
  {
    OnlyLiveSampled(Regression(n), Settlements(n));
    LostMark(n, pos);
    assert pos[0] == Regression(n);
  }

  lemma OneLivePlainly(live: Example, rows: seq<Example>)
    requires !Resolved(live) && (forall i :: 0 <= i < |rows| ==> Resolved(rows[i])) && |rows| < RAW_EXAMPLE_LIMIT
    ensures Plainly([live] + rows, [])
  {
    OnlyLiveSampled(live, rows);
    assert |Live(Marked([live] + rows)) + Live(Marked([]))| == 1;
  }

  lemma SomeSelectionChanges(pos: seq<Example>)
    requires AllOf(pos, ConfirmedPositive) && DistinctIds(pos) && Plainly(pos, [])
    requires ShouldPrune(|pos|, CAP) && !MarksKept(pos, CAP)
    ensures exists small: nat | small <= CAP :: Selected(AfterPrune(pos, CAP), [], small) != Selected(pos, [], small)
  {
    PruneInvisibleExactly(pos, [], CAP);
  }

  /** One live row and n + 1 resolved ones. The live row shares its sender with the oldest of them
      only; selection reads the whole corpus and marks it, the prune deletes the row the mark
      comes from. So a corpus may meet both conditions on it and still lose a mark. */
  lemma MarkForgotten(n: nat) returns (pos: seq<Example>)
    requires 12 <= n && n + 2 <= RAW_EXAMPLE_LIMIT
    ensures |pos| == n + 2 && AllOf(pos, ConfirmedPositive) && DistinctIds(pos)
    ensures Plainly(pos, []) && ShouldPrune(|pos|, CAP)
    ensures !MarksKept(pos, CAP)
    ensures exists small: nat | small <= CAP :: Selected(AfterPrune(pos, CAP), [], small) != Selected(pos, [], small)
  {
    pos := [Regression(n)] + Settlements(n);
    SettlementsRows(n, pos);
    OneLivePlainly(Regression(n), Settlements(n));
    MarkNotKept(n, pos);
    SomeSelectionChanges(pos);
  }

  // ---------------------------------------------------------------- a message corrected twice

  /** n corrections of one message, and an older row for another. */
  function Recorrections(n: nat): (rows: seq<Example>)
    ensures |rows| == n + 1 && rows[n] == Mail(0, "y", "a")
    ensures forall i :: 0 <= i < n ==> rows[i] == Mail(n - i, "m", "a")
  {
    seq(n + 1, i requires 0 <= i <= n => if i < n then Mail(n - i, "m", "a") else Mail(0, "y", "a"))
  }

  lemma {:induction false} RecorrectionsWinner(n: nat, k: nat, rows: seq<Example>)
    requires 0 < k <= n && rows == Recorrections(n)
    ensures Winners(rows, k) == [rows[0]]
  {
    if k > 1 {
      RecorrectionsWinner(n, k - 1, rows);
      assert rows[0].messageId == rows[k - 1].messageId && rows[0].id > rows[k - 1].id;
      assert !Wins(rows, k - 1);
    } else {
      assert Wins(rows, 0);
      assert Winners(rows, 0) == [];
      assert Winners(rows, 1) == Winners(rows, 0) + [rows[0]];
    }
  }

  lemma RecorrectionsRows(n: nat)
    requires n > 0
    ensures var pos := Recorrections(n);
      && Plain(pos) && DistinctIds(pos) && forall i :: 0 <= i < |pos| ==> KeyOf(pos[i]) == KeyOf(pos[0])
  {
    var pos := Recorrections(n);
    forall i | 0 <= i < |pos| ensures KeyOf(pos[i]) == KeyOf(pos[0]) {
      KeysOf(pos[i], pos[0]);
    }
  }

  lemma RecorrectionsGathered(n: nat)
    requires 0 < n < RAW_EXAMPLE_LIMIT
    ensures var pos := Recorrections(n); Winners(pos, n + 1) == [pos[0], pos[n]]
  {
    var pos := Recorrections(n);
    RecorrectionsWinner(n, n, pos);
    forall j | 0 <= j < n ensures pos[j].messageId != pos[n].messageId {
      assert pos[j].messageId[0] == 'm' && pos[n].messageId[0] == 'y';
    }
    assert Wins(pos, n);
    assert Winners(pos, n + 1) == Winners(pos, n) + [pos[n]];
  }

  lemma RecorrectionsShown(n: nat)
    requires 0 < n < RAW_EXAMPLE_LIMIT
    ensures Recorrections(n)[n] in Selected(Recorrections(n), [], CAP)
  {
    var pos := Recorrections(n);
    assert Gather(pos, []) == [pos[0], pos[n]] by {
      assert Window(pos) + Window([]) == pos;
      RecorrectionsRows(n);
      PlainRows(pos, CAP);
      RecorrectionsGathered(n);
    }
    ShownPair(pos[0], pos[n]);
  }

  lemma RecorrectionsSampled(n: nat)
    requires n >= 2
    ensures LiveSample(Recorrections(n), CAP) == Recorrections(n)[..2]
  {
    RecorrectionsRows(n);
    OneBucketSample(Recorrections(n));
  }

  /** A live row that is not sampled at the cap does not outlive the prune. */
  lemma Dropped(pos: seq<Example>, ex: Example)
    requires Plain(pos) && DistinctIds(pos) && ex in pos && ex !in LiveSample(pos, CAP)
    ensures ex !in Pruned(pos, CAP)
  {
    PlainRows(pos, CAP);
    var i :| 0 <= i < |pos| && pos[i] == ex;
    assert Marked(pos)[i] == MarkOne(pos, ex);
    assert PlainRow(pos[i]);
    KeptLive(pos, CAP, ex);
    SurvivorsMembers(pos, KeepIds(pos, CAP));
  }

  lemma PrunedPlain(pos: seq<Example>)
    requires Plain(pos)
    ensures Plain(Pruned(pos, CAP))
  {
    var left := Pruned(pos, CAP);
    SurvivorsMembers(pos, KeepIds(pos, CAP));
    forall i | 0 <= i < |left| ensures PlainRow(left[i]) {
      assert left[i] in pos;
    }
  }

  lemma RecorrectionsHidden(n: nat)
    requires 12 <= n < RAW_EXAMPLE_LIMIT
    ensures Recorrections(n)[n] !in Selected(AfterPrune(Recorrections(n), CAP), [], CAP)
  {
    var pos := Recorrections(n);
    RecorrectionsRows(n);
    RecorrectionsSampled(n);
    Dropped(pos, pos[n]);
    PrunedPlain(pos);
    AfterPruneOfFew(pos, CAP);
    SelectedAreRows(Pruned(pos, CAP));
  }

  /** One message corrected n times and, older, another message from the same sender. Selection
      keeps one row per message before it samples, so it shows both messages; the prune does
      not, and its two picks are two corrections of the first message. */
  lemma Recorrected(n: nat) returns (pos: seq<Example>)
    requires 12 <= n < RAW_EXAMPLE_LIMIT
    ensures |pos| == n + 1 <= RAW_EXAMPLE_LIMIT && AllOf(pos, ConfirmedPositive) && DistinctIds(pos)
    ensures |ResolvedOf(pos)| <= CAP && ShouldPrune(|pos|, CAP)
    ensures Selected(AfterPrune(pos, CAP), [], CAP) != Selected(pos, [], CAP)
  {
    pos := Recorrections(n);
    RecorrectionsRows(n);
    PlainRows(pos, CAP);
    RecorrectionsShown(n);
    RecorrectionsHidden(n);
  }

  lemma ShownPair(a: Example, b: Example)
    requires Plain([a, b])
    ensures b in SampleExamples([a, b], CAP)
  {
    var rows := [a, b];
    assert AllOf(rows, ConfirmedPositive);
    OfVerdictAll(rows, ConfirmedPositive);
    assert PlainRow(a) && PlainRow(b) by { assert PlainRow(rows[0]) && PlainRow(rows[1]); }
    AllInTier(rows, ConfirmedTier);
    SampleTakesAll(rows, CAP, b);
    SamplePartsMembers(rows, CAP, b);
  }

  lemma SelectedAreRows(rows: seq<Example>)
    requires Plain(rows)
    ensures forall ex :: ex in Selected(rows, [], CAP) ==> ex in rows
  {
    var fetched := Window(rows);
    assert Window(rows) + Window([]) == fetched;
    GatherExact(rows, []);
    assert Plain(fetched);
    PlainRows(fetched, CAP);
    forall ex | ex in Selected(rows, [], CAP) ensures ex in rows {
      SamplePartsMembers(Gather(rows, []), CAP, ex);
      assert ex in fetched;
    }
  }
}
