/**
 Sampling a rule's example corpus (improve.go, `senderSubjectKey`, `roundRobinBySender`,
 `recurredBudget`, `sampleVerdict`, `sampleExamples`).

 A verdict's examples are newest first. They fall into three tiers: recurred problems, then
 other problems, then confirmations. The first tier may take half the cap; the other two are
 dealt round-robin over sender+subject buckets. `SampleStable` is the theorem pruning rests
 on: keep only what a cap of p selects, and every smaller cap selects the same examples in
 the same order as before.
 */
module Sampling {
  import opened Wrappers
  import opened RoundRobin
  import opened SenderSubject

  datatype Verdict = ConfirmedPositive | ConfirmedNegative

  datatype Example = Example(id: int, messageId: string, verdict: Verdict, sender: string, subject: string,
                             resolvedBy: Option<int>, promptVersion: int,
                             missed: bool, recurred: bool, recurredFrom: int)

  // ---------------------------------------------------------------- sender+subject buckets

  function KeyOf(ex: Example): string {
    SenderSubjectKey(ex.sender, ex.subject)
  }

  /** The same sender and subject, up to case and whitespace around them. */
  ghost predicate Alike(a: Example, b: Example) {
    SameText(a.sender, b.sender) && SameText(a.subject, b.subject)
  }

  predicate NoNulSenders(examples: seq<Example>) {
    forall i | 0 <= i < |examples| :: NoNul(examples[i].sender)
  }

  lemma AlikeIsKey(a: Example, b: Example)
    requires NoNul(a.sender) && NoNul(b.sender)
    ensures KeyOf(a) == KeyOf(b) <==> Alike(a, b)
  {
    SameKeyExactly(a.sender, a.subject, b.sender, b.subject);
  }

  /** The examples with this one's sender and subject, in order. */
  ghost function LikeIt(examples: seq<Example>, ex: Example): seq<Example> {
    if examples == [] then []
    else
      var n := |examples| - 1;
      LikeIt(examples[..n], ex) + (if Alike(examples[n], ex) then [examples[n]] else [])
  }

  lemma {:induction false} LikeItIsBucket(examples: seq<Example>, ex: Example)
    requires NoNulSenders(examples) && NoNul(ex.sender)
    ensures LikeIt(examples, ex) == Bucket(examples, KeyOf(ex))
  {
    if examples != [] {
      var n := |examples| - 1;
      LikeItIsBucket(examples[..n], ex);
      AlikeIsKey(examples[n], ex);
    }
  }

  /** The bucket keys in order of first appearance. */
  function Keys(examples: seq<Example>): seq<string> {
    if examples == [] then []
    else
      var ex, keys := examples[|examples| - 1], Keys(examples[..|examples| - 1]);
      if KeyOf(ex) in keys then keys else keys + [KeyOf(ex)]
  }

  function Bucket(examples: seq<Example>, key: string): seq<Example> {
    if examples == [] then []
    else
      var ex, bucket := examples[|examples| - 1], Bucket(examples[..|examples| - 1], key);
      if KeyOf(ex) == key then bucket + [ex] else bucket
  }

  function QueuesFor(keys: seq<string>, examples: seq<Example>): (queues: seq<seq<Example>>)
    ensures |queues| == |keys|
  {
    if keys == [] then [] else [Bucket(examples, keys[0])] + QueuesFor(keys[1..], examples)
  }

  function Buckets(examples: seq<Example>): seq<seq<Example>> {
    QueuesFor(Keys(examples), examples)
  }

  lemma {:induction false} QueuesForConcat(keys: seq<string>, more: seq<string>, examples: seq<Example>)
    ensures QueuesFor(keys + more, examples) == QueuesFor(keys, examples) + QueuesFor(more, examples)
  {
    if keys == [] {
      assert keys + more == more;
    } else {
      assert (keys + more)[1..] == keys[1..] + more;
      QueuesForConcat(keys[1..], more, examples);
    }
  }

  lemma {:induction false} QueuesForAt(keys: seq<string>, examples: seq<Example>, j: nat)
    requires j < |keys|
    ensures QueuesFor(keys, examples)[j] == Bucket(examples, keys[j])
  {
    if j > 0 {
      QueuesForAt(keys[1..], examples, j - 1);
    }
  }

  lemma {:induction false} BagConcat<T>(queues: seq<seq<T>>, more: seq<seq<T>>)
    ensures Bag(queues + more) == Bag(queues) + Bag(more)
  {
    if queues == [] {
      assert queues + more == more;
    } else {
      assert (queues + more)[1..] == queues[1..] + more;
      BagConcat(queues[1..], more);
    }
  }

  lemma {:induction false} KeysDistinct(examples: seq<Example>)
    ensures NoRepeat(Keys(examples))
    ensures forall ex :: ex in examples ==> KeyOf(ex) in Keys(examples)
  {
    if examples != [] {
      var n := |examples| - 1;
      KeysDistinct(examples[..n]);
      assert examples == examples[..n] + [examples[n]];
    }
  }

  lemma {:induction false} BucketMembers(examples: seq<Example>, key: string)
    ensures forall ex :: ex in Bucket(examples, key) <==> ex in examples && KeyOf(ex) == key
  {
    if examples != [] {
      var n := |examples| - 1;
      BucketMembers(examples[..n], key);
      assert examples == examples[..n] + [examples[n]];
    }
  }

  /** Adding an example to the corpus adds it to its own bucket and to no other. */
  lemma {:induction false} BagOneMore(keys: seq<string>, examples: seq<Example>)
    requires NoRepeat(keys) && examples != []
    ensures var ex, before := examples[|examples| - 1], examples[..|examples| - 1];
      Bag(QueuesFor(keys, examples))
        == Bag(QueuesFor(keys, before)) + (if KeyOf(ex) in keys then multiset{ex} else multiset{})
  {
    if keys != [] {
      var ex := examples[|examples| - 1];
      BagOneMore(keys[1..], examples);
      assert keys[0] !in keys[1..];
      assert KeyOf(ex) in keys <==> KeyOf(ex) == keys[0] || KeyOf(ex) in keys[1..];
    }
  }

  /** Every candidate is in exactly one bucket, exactly as often as it is a candidate. */
  lemma {:induction false} BucketsBag(examples: seq<Example>)
    ensures Bag(Buckets(examples)) == multiset(examples)
  {
    if examples != [] {
      var n := |examples| - 1;
      var ex, before := examples[n], examples[..n];
      var keys := Keys(before);
      assert examples == before + [ex];
      BucketsBag(before);
      KeysDistinct(before);
      BagOneMore(keys, examples);
      if KeyOf(ex) !in keys {
        KeyHasBucket(before, KeyOf(ex));
        QueuesForConcat(keys, [KeyOf(ex)], examples);
        BagConcat(QueuesFor(keys, examples), QueuesFor([KeyOf(ex)], examples));
      }
    }
  }

  lemma NoRepeatIsSet<T>(xs: seq<T>)
    ensures NoRepeat(xs) <==> forall x :: multiset(xs)[x] <= 1
  {
    if NoRepeat(xs) {
      CountAtMostOne(xs);
    } else {
      var i, j :| 0 <= i < j < |xs| && xs[i] == xs[j];
      assert xs == xs[..i] + [xs[i]] + xs[i + 1..j] + [xs[j]] + xs[j + 1..];
      assert multiset(xs)[xs[i]] >= 2;
    }
  }

  lemma {:induction false} CountAtMostOne<T>(xs: seq<T>)
    requires NoRepeat(xs)
    ensures forall x :: multiset(xs)[x] <= 1
  {
    if xs != [] {
      var n := |xs| - 1;
      CountAtMostOne(xs[..n]);
      assert xs == xs[..n] + [xs[n]];
      assert xs[n] !in xs[..n];
      assert xs[n] !in multiset(xs[..n]);
    }
  }

  lemma SamePermutation<T>(xs: seq<T>, ys: seq<T>)
    requires multiset(xs) == multiset(ys)
    ensures |xs| == |ys|
    ensures NoRepeat(xs) <==> NoRepeat(ys)
    ensures forall x :: x in xs <==> x in ys
  {
    assert |multiset(xs)| == |xs| && |multiset(ys)| == |ys|;
    NoRepeatIsSet(xs);
    NoRepeatIsSet(ys);
    forall x ensures x in xs <==> x in ys {
      assert x in multiset(xs) <==> x in multiset(ys);
    }
  }

  /** The deal over the buckets is a permutation of the candidates. */
  lemma DealBuckets(examples: seq<Example>)
    ensures multiset(Deal(Buckets(examples))) == multiset(examples)
    ensures |Deal(Buckets(examples))| == |examples|
    ensures NoRepeat(Deal(Buckets(examples))) <==> NoRepeat(examples)
    ensures forall ex :: ex in Deal(Buckets(examples)) <==> ex in examples
  {
    BucketsBag(examples);
    DealIsPermutation(Buckets(examples));
    SamePermutation(Deal(Buckets(examples)), examples);
  }

  function Clamp(budget: int, n: nat): nat {
    if budget <= 0 then 0 else if budget < n then budget else n
  }

  /** The first `budget` candidates in dealing order. */
  function RoundRobinSpec(candidates: seq<Example>, budget: int): (picked: seq<Example>)
    ensures |picked| == Clamp(budget, |candidates|)
  {
    DealBuckets(candidates);
    Deal(Buckets(candidates))[..Clamp(budget, |candidates|)]
  }

  lemma BucketsFair(candidates: seq<Example>, budget: int) returns (passes: nat)
    requires NoRepeat(candidates)
    ensures forall key | key in Keys(candidates) ::
      FairShare(Bucket(candidates, key), passes,
                Filter(Bucket(candidates, key), SetOf(RoundRobinSpec(candidates, budget))))
  {
    DealBuckets(candidates);
    var n := Clamp(budget, |candidates|);
    passes := DealIsFair(Buckets(candidates), n);
    forall key | key in Keys(candidates)
      ensures FairShare(Bucket(candidates, key), passes,
                        Filter(Bucket(candidates, key), SetOf(RoundRobinSpec(candidates, budget))))
    {
      var j :| 0 <= j < |Keys(candidates)| && Keys(candidates)[j] == key;
      QueuesForAt(Keys(candidates), candidates, j);
    }
  }

  /** What the dealing order guarantees: no candidate twice; of each sender and subject a
      newest-first prefix; and all of them level to within one example unless they are exhausted. */
  lemma RoundRobinFair(candidates: seq<Example>, budget: int) returns (passes: nat)
    requires NoRepeat(candidates) && NoNulSenders(candidates)
    ensures NoRepeat(RoundRobinSpec(candidates, budget))
    ensures forall ex :: ex in RoundRobinSpec(candidates, budget) ==> ex in candidates
    ensures forall ex | ex in candidates ::
      FairShare(LikeIt(candidates, ex), passes,
                Filter(LikeIt(candidates, ex), SetOf(RoundRobinSpec(candidates, budget))))
  {
    DealBuckets(candidates);
    passes := BucketsFair(candidates, budget);
    forall ex | ex in candidates
      ensures FairShare(LikeIt(candidates, ex), passes,
                        Filter(LikeIt(candidates, ex), SetOf(RoundRobinSpec(candidates, budget))))
    {
      KeysDistinct(candidates);
      LikeItIsBucket(candidates, ex);
    }
  }

  // ---------------------------------------------------------------- deleting candidates

  lemma {:induction false} BucketFilter(examples: seq<Example>, keep: set<Example>, key: string)
    ensures Bucket(Filter(examples, keep), key) == Filter(Bucket(examples, key), keep)
  {
    if examples != [] {
      var n := |examples| - 1;
      BucketFilter(examples[..n], keep, key);
      var kept, bucket := Filter(examples[..n], keep), Bucket(examples[..n], key);
      assert (kept + [examples[n]])[..|kept|] == kept;
      assert (bucket + [examples[n]])[..|bucket|] == bucket;
    }
  }

  /** The keys whose bucket keeps at least one example. */
  function KeptKeys(keys: seq<string>, examples: seq<Example>, keep: set<Example>): seq<string> {
    if keys == [] then []
    else if Filter(Bucket(examples, keys[|keys| - 1]), keep) == [] then KeptKeys(keys[..|keys| - 1], examples, keep)
    else KeptKeys(keys[..|keys| - 1], examples, keep) + [keys[|keys| - 1]]
  }

  /** A bucket that keeps anything keeps its newest example. */
  ghost predicate FrontClosed(examples: seq<Example>, keep: set<Example>) {
    forall key :: Filter(Bucket(examples, key), keep) != [] ==> Bucket(examples, key)[0] in keep
  }

  lemma FrontClosedBefore(examples: seq<Example>, keep: set<Example>)
    requires examples != [] && FrontClosed(examples, keep)
    ensures FrontClosed(examples[..|examples| - 1], keep)
    ensures var ex, before := examples[|examples| - 1], examples[..|examples| - 1];
      ex in keep && Bucket(before, KeyOf(ex)) != [] ==> Filter(Bucket(before, KeyOf(ex)), keep) != []
  {
    var n := |examples| - 1;
    var ex, before := examples[n], examples[..n];
    forall key | Filter(Bucket(before, key), keep) != [] ensures Bucket(before, key)[0] in keep {
      FilterConcat(Bucket(before, key), [ex], keep);
      assert Filter(Bucket(examples, key), keep) != [];
    }
    var bucket := Bucket(before, KeyOf(ex));
    if ex in keep && bucket != [] {
      assert Bucket(examples, KeyOf(ex)) == bucket + [ex];
      assert (bucket + [ex])[..|bucket|] == bucket;
      assert Filter(bucket + [ex], keep) != [];
      FilterMembers(bucket, keep);
      assert bucket[0] in Filter(bucket, keep);
    }
  }

  lemma {:induction false} KeptKeysBefore(keys: seq<string>, examples: seq<Example>, keep: set<Example>)
    requires examples != []
    requires forall key :: key in keys ==>
      (Filter(Bucket(examples, key), keep) == [] <==> Filter(Bucket(examples[..|examples| - 1], key), keep) == [])
    ensures KeptKeys(keys, examples, keep) == KeptKeys(keys, examples[..|examples| - 1], keep)
  {
    if keys != [] {
      KeptKeysBefore(keys[..|keys| - 1], examples, keep);
    }
  }

  lemma {:induction false} KeptKeysMembers(keys: seq<string>, examples: seq<Example>, keep: set<Example>)
    ensures forall key :: key in KeptKeys(keys, examples, keep)
                     <==> key in keys && Filter(Bucket(examples, key), keep) != []
  {
    if keys != [] {
      var n := |keys| - 1;
      KeptKeysMembers(keys[..n], examples, keep);
      assert keys == keys[..n] + [keys[n]];
    }
  }

  lemma BucketBefore(examples: seq<Example>, keep: set<Example>, key: string)
    requires examples != [] && FrontClosed(examples, keep) && Bucket(examples[..|examples| - 1], key) != []
    ensures Filter(Bucket(examples, key), keep) == [] <==> Filter(Bucket(examples[..|examples| - 1], key), keep) == []
  {
    var ex, before := examples[|examples| - 1], examples[..|examples| - 1];
    FrontClosedBefore(examples, keep);
    if KeyOf(ex) == key {
      var bucket := Bucket(before, key);
      assert (bucket + [ex])[..|bucket|] == bucket;
    }
  }

  /** Deleting examples deletes the emptied buckets and leaves the order of the others. */
  lemma {:induction false} KeysFilter(examples: seq<Example>, keep: set<Example>)
    requires FrontClosed(examples, keep)
    ensures Keys(Filter(examples, keep)) == KeptKeys(Keys(examples), examples, keep)
  {
    if examples != [] {
      var n := |examples| - 1;
      var ex, before := examples[n], examples[..n];
      var keys, key := Keys(before), KeyOf(ex);
      FrontClosedBefore(examples, keep);
      KeysFilter(before, keep);
      KeysDistinct(before);
      forall k | k in keys
        ensures Filter(Bucket(examples, k), keep) == [] <==> Filter(Bucket(before, k), keep) == []
      {
        KeyHasBucket(before, k);
        BucketBefore(examples, keep, k);
      }
      KeptKeysBefore(keys, examples, keep);
      KeptKeysMembers(keys, before, keep);
      var kept := Filter(before, keep);
      assert (kept + [ex])[..|kept|] == kept;
      NewKeyBucket(examples, keep);
    }
  }

  lemma {:induction false} KeyHasBucket(examples: seq<Example>, key: string)
    ensures key in Keys(examples) <==> Bucket(examples, key) != []
  {
    if examples != [] {
      KeyHasBucket(examples[..|examples| - 1], key);
    }
  }

  lemma NewKeyBucket(examples: seq<Example>, keep: set<Example>)
    requires examples != []
    ensures var ex, before := examples[|examples| - 1], examples[..|examples| - 1];
      KeyOf(ex) !in Keys(before) ==>
        Bucket(examples, KeyOf(ex)) == [ex] && (Filter([ex], keep) == [] <==> ex !in keep)
  {
    var ex, before := examples[|examples| - 1], examples[..|examples| - 1];
    KeyHasBucket(before, KeyOf(ex));
  }

  lemma {:induction false} QueuesFilter(keys: seq<string>, examples: seq<Example>, keep: set<Example>)
    ensures QueuesFor(KeptKeys(keys, examples, keep), Filter(examples, keep))
         == NonEmpty(FilterAll(QueuesFor(keys, examples), keep))
  {
    if keys != [] {
      var n := |keys| - 1;
      var rest, key := keys[..n], keys[n];
      QueuesFilter(rest, examples, keep);
      assert keys == rest + [key];
      QueuesForConcat(rest, [key], examples);
      FilterAllConcat(QueuesFor(rest, examples), [Bucket(examples, key)], keep);
      NonEmptyConcat(FilterAll(QueuesFor(rest, examples), keep), [Filter(Bucket(examples, key), keep)]);
      BucketFilter(examples, keep, key);
      QueuesForConcat(KeptKeys(rest, examples, keep), [key], Filter(examples, keep));
      assert QueuesFor([key], examples) == [Bucket(examples, key)];
      assert QueuesFor([key], Filter(examples, keep)) == [Filter(Bucket(examples, key), keep)];
      assert FilterAll([Bucket(examples, key)], keep) == [Filter(Bucket(examples, key), keep)];
    }
  }

  lemma {:induction false} FilterAllConcat<T>(queues: seq<seq<T>>, more: seq<seq<T>>, keep: set<T>)
    ensures FilterAll(queues + more, keep) == FilterAll(queues, keep) + FilterAll(more, keep)
  {
    if queues == [] {
      assert queues + more == more;
    } else {
      assert (queues + more)[1..] == queues[1..] + more;
      FilterAllConcat(queues[1..], more, keep);
    }
  }

  lemma {:induction false} NonEmptyConcat<T>(queues: seq<seq<T>>, more: seq<seq<T>>)
    ensures NonEmpty(queues + more) == NonEmpty(queues) + NonEmpty(more)
  {
    if queues == [] {
      assert queues + more == more;
    } else {
      assert (queues + more)[1..] == queues[1..] + more;
      NonEmptyConcat(queues[1..], more);
    }
  }

  lemma PickedFrontClosed(candidates: seq<Example>, n: nat, keep: set<Example>)
    requires NoRepeat(candidates) && n <= |Deal(Buckets(candidates))|
    requires forall ex :: ex in candidates ==> (ex in keep <==> ex in Deal(Buckets(candidates))[..n])
    ensures FrontClosed(candidates, keep)
  {
    DealBuckets(candidates);
    forall key | Filter(Bucket(candidates, key), keep) != [] ensures Bucket(candidates, key)[0] in keep {
      var bucket := Bucket(candidates, key);
      var x := Filter(bucket, keep)[0];
      FilterMembers(bucket, keep);
      BucketMembers(candidates, key);
      assert x in bucket && bucket[0] in bucket;
      KeysDistinct(candidates);
      var j :| 0 <= j < |Keys(candidates)| && Keys(candidates)[j] == key;
      QueuesForAt(Keys(candidates), candidates, j);
      FrontDealtFirst(Buckets(candidates), n, j, x);
    }
  }

  /** Round-robin stability: keep exactly the first n dealt, and they are dealt as before. */
  lemma RoundRobinStable(candidates: seq<Example>, n: nat, keep: set<Example>)
    requires NoRepeat(candidates) && n <= |Deal(Buckets(candidates))|
    requires forall ex :: ex in candidates ==> (ex in keep <==> ex in Deal(Buckets(candidates))[..n])
    ensures Deal(Buckets(Filter(candidates, keep))) == Deal(Buckets(candidates))[..n]
  {
    var queues := Buckets(candidates);
    DealBuckets(candidates);
    PickedFrontClosed(candidates, n, keep);
    KeysFilter(candidates, keep);
    QueuesFilter(Keys(candidates), candidates, keep);
    DealNonEmpty(FilterAll(queues, keep));
    forall j, x | 0 <= j < |queues| && x in queues[j] ensures x in keep <==> x in SetOf(Deal(queues)[..n]) {
      QueuesForAt(Keys(candidates), candidates, j);
      BucketMembers(candidates, Keys(candidates)[j]);
    }
    FilterAllAgrees(queues, keep, SetOf(Deal(queues)[..n]));
    DealKept(queues, n);
  }

  // ---------------------------------------------------------------- the dealing loop

  lemma {:induction false} FrontsConcat<T>(queues: seq<seq<T>>, more: seq<seq<T>>)
    ensures Fronts(queues + more) == Fronts(queues) + Fronts(more)
  {
    if queues == [] {
      assert queues + more == more;
    } else {
      assert (queues + more)[1..] == queues[1..] + more;
      FrontsConcat(queues[1..], more);
    }
  }

  /** The bucket map holds exactly `queues`, one per key of `order`. */
  ghost predicate Holds(buckets: map<string, seq<Example>>, order: seq<string>, queues: seq<seq<Example>>) {
    |queues| == |order| && forall j :: 0 <= j < |order| ==> order[j] in buckets && buckets[order[j]] == queues[j]
  }

  method GroupBySender(candidates: seq<Example>) returns (buckets: map<string, seq<Example>>, order: seq<string>)
    ensures order == Keys(candidates) && Holds(buckets, order, Buckets(candidates))
  {
    buckets, order := map[], [];
    for i := 0 to |candidates|
      invariant order == Keys(candidates[..i])
      invariant forall k :: k in buckets <==> k in order
      invariant forall k :: k in buckets ==> buckets[k] == Bucket(candidates[..i], k)
    {
      var ex := candidates[i];
      var key := KeyOf(ex);
      assert candidates[..i + 1][..i] == candidates[..i];
      KeyHasBucket(candidates[..i], key);
      if key !in buckets {
        order := order + [key];
        buckets := buckets[key := []];
      }
      buckets := buckets[key := buckets[key] + [ex]];
    }
    assert candidates[..|candidates|] == candidates;
    forall j | 0 <= j < |order| ensures order[j] in buckets && buckets[order[j]] == Buckets(candidates)[j] {
      QueuesForAt(order, candidates, j);
    }
  }

  lemma {:induction false} RestsFrom<T>(queues: seq<seq<T>>, rests: seq<seq<T>>)
    requires |rests| == |queues| && forall j :: 0 <= j < |queues| ==> rests[j] == Rest(queues[j])
    ensures rests == Rests(queues)
  {
    forall j | 0 <= j < |queues| ensures rests[j] == Rests(queues)[j] {
      RestsAt(queues, j);
    }
  }

  lemma FrontsSplit<T>(queues: seq<seq<T>>, j: nat)
    requires j <= |queues|
    ensures Fronts(queues) == Fronts(queues[..j]) + Fronts(queues[j..])
  {
    assert queues == queues[..j] + queues[j..];
    FrontsConcat(queues[..j], queues[j..]);
  }

  lemma FrontsStep<T>(queues: seq<seq<T>>, j: nat)
    requires j < |queues|
    ensures Fronts(queues[..j + 1]) == Fronts(queues[..j]) + Fronts([queues[j]])
  {
    assert queues[..j + 1] == queues[..j] + [queues[j]];
    FrontsConcat(queues[..j], [queues[j]]);
  }

  function Front<T>(q: seq<T>): seq<T> {
    if q == [] then [] else [q[0]]
  }

  lemma FrontOfOne<T>(q: seq<T>)
    ensures Fronts([q]) == Front(q)
  {
    assert [q][1..] == [];
  }

  lemma PassStep<T>(queues: seq<seq<T>>, j: nat)
    requires j < |queues|
    ensures Fronts(queues[..j + 1]) == Fronts(queues[..j]) + Front(queues[j])
    ensures Fronts(queues[..j]) <= Fronts(queues)
  {
    FrontsSplit(queues, j);
    FrontsStep(queues, j);
    FrontOfOne(queues[j]);
  }

  lemma PassRests(buckets: map<string, seq<Example>>, order: seq<string>, queues: seq<seq<Example>>)
    requires |queues| == |order|
    requires forall i :: 0 <= i < |order| ==> order[i] in buckets && buckets[order[i]] == Rest(queues[i])
    ensures Holds(buckets, order, Rests(queues))
  {
    RestsFrom(queues, seq(|order|, i requires 0 <= i < |order| => Rest(queues[i])));
  }

  lemma FrontsToEnd<T>(queues: seq<seq<T>>)
    ensures Fronts(queues[..|queues|]) == Fronts(queues)
  {
    assert queues[..|queues|] == queues;
  }

  /** One rotating pass over the buckets, cut off when the budget is reached. */
  method Pass(buckets0: map<string, seq<Example>>, order: seq<string>, out0: seq<Example>, budget: nat,
              ghost queues: seq<seq<Example>>)
    returns (buckets: map<string, seq<Example>>, out: seq<Example>, tookAny: bool)
    requires NoRepeat(order) && Holds(buckets0, order, queues) && |out0| < budget
    ensures |out| <= budget && out0 <= out <= out0 + Fronts(queues)
    ensures |out| < budget ==> out == out0 + Fronts(queues) && Holds(buckets, order, Rests(queues))
    ensures tookAny <==> |out0| < |out|
    ensures |out| < budget && !tookAny ==> Fronts(queues) == []
  {
    buckets, out, tookAny := buckets0, out0, false;
    var j := 0;
    while j < |order|
      invariant 0 <= j <= |order| && |out| <= budget
      invariant out == out0 + Fronts(queues[..j])
      invariant tookAny <==> |out0| < |out|
      invariant forall i :: 0 <= i < |order| ==>
        order[i] in buckets && buckets[order[i]] == if i < j then Rest(queues[i]) else queues[i]
    {
      PassStep(queues, j);
      if |out| >= budget {
        return;
      }
      var key := order[j];
      j := j + 1;
      if buckets[key] == [] {
        continue;
      }
      out := out + [buckets[key][0]];
      buckets := buckets[key := buckets[key][1..]];
      tookAny := true;
    }
    FrontsToEnd(queues);
    PassRests(buckets, order, queues);
  }

  /** `roundRobinBySender`: group into buckets, then take one per bucket in rotating passes. */
  method RoundRobinBySender(candidates: seq<Example>, budget: int) returns (out: seq<Example>)
    ensures out == RoundRobinSpec(candidates, budget)
  {
    out := [];
    if budget <= 0 || |candidates| == 0 {
      return;
    }
    var buckets, order := GroupBySender(candidates);
    KeysDistinct(candidates);
    ghost var queues := Buckets(candidates);
    ghost var dealt := Deal(queues);
    while |out| < budget
      invariant |out| <= budget && out <= dealt
      invariant |out| < budget ==> Holds(buckets, order, queues) && dealt == out + Deal(queues)
    {
      ghost var before := out;
      var tookAny;
      buckets, out, tookAny := Pass(buckets, order, out, budget, queues);
      OnePass(before, queues, out);
      if !tookAny {
        break;
      }
      queues := Rests(queues);
    }
    TakenUpTo(candidates, budget, out);
  }

  /** A pass takes the beginning of what is still to be dealt; a full one leaves the rests. */
  lemma OnePass(before: seq<Example>, queues: seq<seq<Example>>, out: seq<Example>)
    requires out <= before + Fronts(queues)
    ensures out <= before + Deal(queues)
    ensures out == before + Fronts(queues) ==> before + Deal(queues) == out + Deal(Rests(queues))
    ensures Fronts(queues) == [] ==> Deal(queues) == []
  {
    DealSplits(queues);
    assert before + (Fronts(queues) + Deal(Rests(queues))) == before + Fronts(queues) + Deal(Rests(queues));
  }

  lemma TakenUpTo(candidates: seq<Example>, budget: nat, out: seq<Example>)
    requires out <= Deal(Buckets(candidates)) && |out| <= budget
    requires |out| == budget || out == Deal(Buckets(candidates))
    ensures out == RoundRobinSpec(candidates, budget)
  {
    DealBuckets(candidates);
  }

  // ---------------------------------------------------------------- the three tiers

  datatype Tier = RecurredTier | MissedTier | ConfirmedTier

  function TierOf(ex: Example): Tier {
    if ex.recurred then RecurredTier else if ex.missed then MissedTier else ConfirmedTier
  }

  function InTier(examples: seq<Example>, tier: Tier): seq<Example> {
    if examples == [] then []
    else
      var ex, before := examples[|examples| - 1], InTier(examples[..|examples| - 1], tier);
      if TierOf(ex) == tier then before + [ex] else before
  }

  function RecurredBudget(verdictCap: nat): nat {
    (verdictCap + 1) / 2
  }

  function RecurredPart(candidates: seq<Example>, verdictCap: nat): seq<Example> {
    var recurred := InTier(candidates, RecurredTier);
    recurred[..Clamp(RecurredBudget(verdictCap), |recurred|)]
  }

  function MissedPart(candidates: seq<Example>, verdictCap: nat): seq<Example> {
    RoundRobinSpec(InTier(candidates, MissedTier), verdictCap - |RecurredPart(candidates, verdictCap)|)
  }

  function ConfirmedPart(candidates: seq<Example>, verdictCap: nat): seq<Example> {
    RoundRobinSpec(InTier(candidates, ConfirmedTier),
                   verdictCap - |RecurredPart(candidates, verdictCap)| - |MissedPart(candidates, verdictCap)|)
  }

  /** The examples one verdict contributes at the given cap. */
  function SampleSpec(candidates: seq<Example>, verdictCap: nat): (sample: seq<Example>)
    ensures |sample| <= verdictCap
  {
    RecurredPart(candidates, verdictCap) + MissedPart(candidates, verdictCap) + ConfirmedPart(candidates, verdictCap)
  }

  method SplitTiers(candidates: seq<Example>)
    returns (recurred: seq<Example>, missed: seq<Example>, confirmed: seq<Example>)
    ensures recurred == InTier(candidates, RecurredTier)
    ensures missed == InTier(candidates, MissedTier)
    ensures confirmed == InTier(candidates, ConfirmedTier)
  {
    recurred, missed, confirmed := [], [], [];
    for i := 0 to |candidates|
      invariant recurred == InTier(candidates[..i], RecurredTier)
      invariant missed == InTier(candidates[..i], MissedTier)
      invariant confirmed == InTier(candidates[..i], ConfirmedTier)
    {
      var ex := candidates[i];
      assert candidates[..i + 1][..i] == candidates[..i];
      if ex.recurred {
        recurred := recurred + [ex];
      } else if ex.missed {
        missed := missed + [ex];
      } else {
        confirmed := confirmed + [ex];
      }
    }
    assert candidates[..|candidates|] == candidates;
  }

  lemma RecurredTaken(candidates: seq<Example>, verdictCap: nat, i: nat)
    requires i <= |InTier(candidates, RecurredTier)| && i <= RecurredBudget(verdictCap)
    requires i == |InTier(candidates, RecurredTier)| || i >= verdictCap || i >= RecurredBudget(verdictCap)
    ensures InTier(candidates, RecurredTier)[..i] == RecurredPart(candidates, verdictCap)
  {
  }

  /** `sampleVerdict`: split into tiers, then fill the cap tier by tier. */
  method SampleVerdict(candidates: seq<Example>, verdictCap: nat) returns (out: seq<Example>)
    ensures out == SampleSpec(candidates, verdictCap)
  {
    var recurred, missed, confirmed := SplitTiers(candidates);
    out := [];
    var budget := RecurredBudget(verdictCap);
    var i := 0;
    while i < |recurred|
      invariant 0 <= i <= |recurred| && i <= budget && out == recurred[..i]
    {
      if |out| >= verdictCap || |out| >= budget {
        break;
      }
      out := out + [recurred[i]];
      i := i + 1;
    }
    RecurredTaken(candidates, verdictCap, i);
    var fromMissed := RoundRobinBySender(missed, verdictCap - |out|);
    out := out + fromMissed;
    var fromConfirmed := RoundRobinBySender(confirmed, verdictCap - |out|);
    out := out + fromConfirmed;
  }

  lemma {:induction false} InTierMembers(examples: seq<Example>, tier: Tier)
    ensures forall ex :: ex in InTier(examples, tier) <==> ex in examples && TierOf(ex) == tier
    ensures NoRepeat(examples) ==> NoRepeat(InTier(examples, tier))
  {
    if examples != [] {
      var n := |examples| - 1;
      InTierMembers(examples[..n], tier);
      assert examples == examples[..n] + [examples[n]];
    }
  }

  lemma {:induction false} InTierFilter(examples: seq<Example>, keep: set<Example>, tier: Tier)
    ensures InTier(Filter(examples, keep), tier) == Filter(InTier(examples, tier), keep)
  {
    if examples != [] {
      var n := |examples| - 1;
      InTierFilter(examples[..n], keep, tier);
      var kept, before := Filter(examples[..n], keep), InTier(examples[..n], tier);
      assert (kept + [examples[n]])[..|kept|] == kept;
      assert (before + [examples[n]])[..|before|] == before;
    }
  }

  lemma RoundRobinMembers(candidates: seq<Example>, budget: int)
    ensures forall ex :: ex in RoundRobinSpec(candidates, budget) ==> ex in candidates
  {
    DealBuckets(candidates);
    var dealt := Deal(Buckets(candidates));
    forall ex | ex in RoundRobinSpec(candidates, budget) ensures ex in candidates {
      assert ex in dealt;
    }
  }

  /** Which part of the sample an example can be in is decided by its tier. */
  lemma SampleMembers(candidates: seq<Example>, verdictCap: nat, ex: Example)
    ensures ex in SampleSpec(candidates, verdictCap) <==>
      match TierOf(ex)
      case RecurredTier => ex in RecurredPart(candidates, verdictCap)
      case MissedTier => ex in MissedPart(candidates, verdictCap)
      case ConfirmedTier => ex in ConfirmedPart(candidates, verdictCap)
    ensures ex in SampleSpec(candidates, verdictCap) ==> ex in candidates
  {
    InTierMembers(candidates, RecurredTier);
    InTierMembers(candidates, MissedTier);
    InTierMembers(candidates, ConfirmedTier);
    RoundRobinMembers(InTier(candidates, MissedTier), verdictCap - |RecurredPart(candidates, verdictCap)|);
    RoundRobinMembers(InTier(candidates, ConfirmedTier),
                      verdictCap - |RecurredPart(candidates, verdictCap)| - |MissedPart(candidates, verdictCap)|);
    assert ex in RecurredPart(candidates, verdictCap) ==> ex in InTier(candidates, RecurredTier);
  }

  /** A larger cap never leaves a tier with a smaller budget. */
  lemma BudgetsGrow(small: nat, large: nat, recurred: nat, missed: nat)
    requires small <= large
    ensures var r, r' := Clamp(RecurredBudget(small), recurred), Clamp(RecurredBudget(large), recurred);
      && r <= r' && small - r <= large - r'
      && Clamp(small - r, missed) <= Clamp(large - r', missed)
      && small - r - Clamp(small - r, missed) <= large - r' - Clamp(large - r', missed)
  {
  }

  lemma RoundRobinGrows(candidates: seq<Example>, small: int, large: int)
    requires small <= large
    ensures RoundRobinSpec(candidates, small) <= RoundRobinSpec(candidates, large)
  {
    DealBuckets(candidates);
  }

  lemma PartsGrow(candidates: seq<Example>, small: nat, large: nat)
    requires small <= large
    ensures RecurredPart(candidates, small) <= RecurredPart(candidates, large)
    ensures MissedPart(candidates, small) <= MissedPart(candidates, large)
    ensures ConfirmedPart(candidates, small) <= ConfirmedPart(candidates, large)
  {
    BudgetsGrow(small, large, |InTier(candidates, RecurredTier)|, |InTier(candidates, MissedTier)|);
    var r, r' := |RecurredPart(candidates, small)|, |RecurredPart(candidates, large)|;
    RoundRobinGrows(InTier(candidates, MissedTier), small - r, large - r');
    RoundRobinGrows(InTier(candidates, ConfirmedTier), small - r - |MissedPart(candidates, small)|,
                    large - r' - |MissedPart(candidates, large)|);
  }

  /** A smaller cap selects a subset of what a larger cap selects. */
  lemma SampleGrows(candidates: seq<Example>, small: nat, large: nat, ex: Example)
    requires small <= large && ex in SampleSpec(candidates, small)
    ensures ex in SampleSpec(candidates, large)
  {
    assert RecurredPart(candidates, small) <= RecurredPart(candidates, large)
        && MissedPart(candidates, small) <= MissedPart(candidates, large)
        && ConfirmedPart(candidates, small) <= ConfirmedPart(candidates, large) by {
      PartsGrow(candidates, small, large);
    }
  }

  /** Deleting from one round-robin tier everything the larger budget does not pick changes no
      smaller pick. */
  lemma TierStable(candidates: seq<Example>, keep: set<Example>, small: int, large: int)
    requires NoRepeat(candidates) && small <= large
    requires forall ex :: ex in candidates ==> (ex in keep <==> ex in RoundRobinSpec(candidates, large))
    ensures RoundRobinSpec(Filter(candidates, keep), small) == RoundRobinSpec(candidates, small)
  {
    DealBuckets(candidates);
    var n := Clamp(large, |candidates|);
    RoundRobinStable(candidates, n, keep);
    DealBuckets(Filter(candidates, keep));
  }

  /** For the recurred tier, taken by recency alone, the same. */
  lemma PrefixStable(xs: seq<Example>, keep: set<Example>, n: nat)
    requires NoRepeat(xs) && n <= |xs|
    requires forall x :: x in xs ==> (x in keep <==> x in xs[..n])
    ensures Filter(xs, keep) == xs[..n]
  {
    assert xs == xs[..n] + xs[n..];
    FilterConcat(xs[..n], xs[n..], keep);
    FilterEverything(xs[..n], keep);
    NoRepeatConcat(xs[..n], xs[n..]);
    FilterNone(xs[n..], keep);
  }

  lemma KeepByTier(candidates: seq<Example>, cap: nat, tier: Tier)
    requires NoRepeat(candidates)
    ensures NoRepeat(InTier(candidates, tier))
    ensures forall ex :: ex in InTier(candidates, tier) ==>
      (ex in SetOf(SampleSpec(candidates, cap)) <==>
       match tier
       case RecurredTier => ex in RecurredPart(candidates, cap)
       case MissedTier => ex in MissedPart(candidates, cap)
       case ConfirmedTier => ex in ConfirmedPart(candidates, cap))
  {
    InTierMembers(candidates, tier);
    forall ex | ex in InTier(candidates, tier)
      ensures ex in SetOf(SampleSpec(candidates, cap)) <==> ex in SampleSpec(candidates, cap)
    {
      SampleMembers(candidates, cap, ex);
    }
    forall ex { SampleMembers(candidates, cap, ex); }
  }

  lemma RecurredStable(candidates: seq<Example>, small: nat, large: nat)
    requires NoRepeat(candidates) && small <= large
    ensures RecurredPart(Filter(candidates, SetOf(SampleSpec(candidates, large))), small)
            == RecurredPart(candidates, small)
  {
    var keep, recurred := SetOf(SampleSpec(candidates, large)), InTier(candidates, RecurredTier);
    var n := |RecurredPart(candidates, large)|;
    InTierFilter(candidates, keep, RecurredTier);
    assert InTier(Filter(candidates, keep), RecurredTier) == recurred[..n] by {
      KeepByTier(candidates, large, RecurredTier);
      PrefixStable(recurred, keep, n);
    }
    BudgetsGrow(small, large, |recurred|, 0);
    PrefixOfPrefix(recurred, n, Clamp(RecurredBudget(small), |recurred|));
  }

  lemma PrefixOfPrefix<T>(xs: seq<T>, n: nat, m: nat)
    requires m <= n <= |xs|
    ensures xs[..n][..m] == xs[..m]
  {
  }

  lemma MissedKept(candidates: seq<Example>, budget: int, large: nat)
    requires NoRepeat(candidates) && budget <= large - |RecurredPart(candidates, large)|
    ensures var missed := InTier(candidates, MissedTier);
            RoundRobinSpec(Filter(missed, SetOf(SampleSpec(candidates, large))), budget)
                == RoundRobinSpec(missed, budget)
  {
    KeepByTier(candidates, large, MissedTier);
    TierStable(InTier(candidates, MissedTier), SetOf(SampleSpec(candidates, large)),
               budget, large - |RecurredPart(candidates, large)|);
  }

  lemma ConfirmedKept(candidates: seq<Example>, budget: int, large: nat)
    requires NoRepeat(candidates)
    requires budget <= large - |RecurredPart(candidates, large)| - |MissedPart(candidates, large)|
    ensures var confirmed := InTier(candidates, ConfirmedTier);
            RoundRobinSpec(Filter(confirmed, SetOf(SampleSpec(candidates, large))), budget)
                == RoundRobinSpec(confirmed, budget)
  {
    KeepByTier(candidates, large, ConfirmedTier);
    TierStable(InTier(candidates, ConfirmedTier), SetOf(SampleSpec(candidates, large)), budget,
               large - |RecurredPart(candidates, large)| - |MissedPart(candidates, large)|);
  }

  lemma MissedStable(candidates: seq<Example>, small: nat, large: nat)
    requires NoRepeat(candidates) && small <= large
    ensures MissedPart(Filter(candidates, SetOf(SampleSpec(candidates, large))), small) == MissedPart(candidates, small)
  {
    var keep := SetOf(SampleSpec(candidates, large));
    var missed := InTier(candidates, MissedTier);
    BudgetsGrow(small, large, |InTier(candidates, RecurredTier)|, |missed|);
    RecurredStable(candidates, small, large);
    InTierFilter(candidates, keep, MissedTier);
    MissedKept(candidates, small - |RecurredPart(candidates, small)|, large);
  }

  lemma ConfirmedStable(candidates: seq<Example>, small: nat, large: nat)
    requires NoRepeat(candidates) && small <= large
    ensures ConfirmedPart(Filter(candidates, SetOf(SampleSpec(candidates, large))), small)
            == ConfirmedPart(candidates, small)
  {
    var keep := SetOf(SampleSpec(candidates, large));
    BudgetsGrow(small, large, |InTier(candidates, RecurredTier)|, |InTier(candidates, MissedTier)|);
    RecurredStable(candidates, small, large);
    MissedStable(candidates, small, large);
    InTierFilter(candidates, keep, ConfirmedTier);
    ConfirmedKept(candidates, small - |RecurredPart(candidates, small)| - |MissedPart(candidates, small)|, large);
  }

  /** Pruning to the sample at a large cap is invisible to sampling at any smaller cap: the
      survivors give the same examples in the same order. */
  lemma SampleStable(candidates: seq<Example>, small: nat, large: nat)
    requires NoRepeat(candidates) && small <= large
    ensures SampleSpec(Filter(candidates, SetOf(SampleSpec(candidates, large))), small) == SampleSpec(candidates, small)
  {
    RecurredStable(candidates, small, large);
    MissedStable(candidates, small, large);
    ConfirmedStable(candidates, small, large);
  }
}
