/**
 What is sampled, and in what order (improve.go, `roundRobinBySender`, `sampleVerdict`).
 */
module SampleOrder {
  import opened RoundRobin
  import opened SenderSubject
  import opened Sampling

  // ---------------------------------------------------------------- the order of a deal

  /** An element of the queues: the n-th of the q-th. */
  datatype Place = Place(n: nat, q: nat)

  predicate IsPlace<T>(queues: seq<seq<T>>, p: Place) {
    p.q < |queues| && p.n < |queues[p.q]|
  }

  function At<T>(queues: seq<seq<T>>, p: Place): T
    requires IsPlace(queues, p)
  {
    queues[p.q][p.n]
  }

  /** Earlier in its queue, or as early and of an earlier queue. */
  predicate Sooner(a: Place, b: Place) {
    a.n < b.n || (a.n == b.n && a.q < b.q)
  }

  lemma {:induction false} FrontPlace<T>(queues: seq<seq<T>>, a: nat) returns (q: nat)
    requires a < |Fronts(queues)|
    ensures IsPlace(queues, Place(0, q)) && Fronts(queues)[a] == queues[q][0]
    ensures a == |Fronts(queues[..q])|
  {
    if queues[0] == [] {
      q := FrontPlace(queues[1..], a);
      assert queues[..q + 1][1..] == queues[1..][..q];
      q := q + 1;
    } else if a == 0 {
      q := 0;
    } else {
      q := FrontPlace(queues[1..], a - 1);
      assert queues[..q + 1][1..] == queues[1..][..q];
      q := q + 1;
    }
  }

  lemma {:induction false} FrontsGrow<T>(queues: seq<seq<T>>, p: nat, q: nat)
    requires p <= q <= |queues|
    ensures |Fronts(queues[..p])| <= |Fronts(queues[..q])|
  {
    if p > 0 {
      FrontsGrow(queues[1..], p - 1, q - 1);
      assert queues[..p][1..] == queues[1..][..p - 1] && queues[..q][1..] == queues[1..][..q - 1];
    }
  }

  lemma {:induction false} DealPlace<T>(queues: seq<seq<T>>, a: nat) returns (p: Place)
    requires a < |Deal(queues)|
    ensures IsPlace(queues, p) && Deal(queues)[a] == At(queues, p)
    decreases Total(queues)
  {
    var f := Fronts(queues);
    DealSplits(queues);
    TotalSplits(queues);
    if a < |f| {
      var q := FrontPlace(queues, a);
      p := Place(0, q);
    } else {
      p := DealPlace(Rests(queues), a - |f|);
      RestsAt(queues, p.q);
      p := Place(p.n + 1, p.q);
    }
  }

  lemma FrontsInOrder<T>(queues: seq<seq<T>>, a: nat, b: nat) returns (i: nat, j: nat)
    requires a < b < |Fronts(queues)|
    ensures i < j && IsPlace(queues, Place(0, i)) && IsPlace(queues, Place(0, j))
    ensures Fronts(queues)[a] == queues[i][0] && Fronts(queues)[b] == queues[j][0]
  {
    i := FrontPlace(queues, a);
    j := FrontPlace(queues, b);
    if j <= i {
      FrontsGrow(queues, j, i);
    }
  }

  /** Of two elements the one dealt first is the earlier in its queue, or as early and of an earlier
      queue. */
  lemma {:induction false} DealInOrder<T>(queues: seq<seq<T>>, a: nat, b: nat) returns (p: Place, q: Place)
    requires a < b < |Deal(queues)|
    ensures IsPlace(queues, p) && IsPlace(queues, q) && Sooner(p, q)
    ensures Deal(queues)[a] == At(queues, p) && Deal(queues)[b] == At(queues, q)
    decreases Total(queues)
  {
    var f := Fronts(queues);
    DealSplits(queues);
    TotalSplits(queues);
    if b < |f| {
      var i, j := FrontsInOrder(queues, a, b);
      p, q := Place(0, i), Place(0, j);
    } else if a < |f| {
      var i := FrontPlace(queues, a);
      q := DealPlace(Rests(queues), b - |f|);
      RestsAt(queues, q.q);
      p, q := Place(0, i), Place(q.n + 1, q.q);
    } else {
      p, q := DealInOrder(Rests(queues), a - |f|, b - |f|);
      RestsAt(queues, p.q);
      RestsAt(queues, q.q);
      p, q := Place(p.n + 1, p.q), Place(q.n + 1, q.q);
    }
  }

  // ---------------------------------------------------------------- places of examples

  lemma {:induction false} BucketFrom(examples: seq<Example>, key: string, n: nat) returns (i: nat)
    requires n < |Bucket(examples, key)|
    ensures i < |examples| && examples[i] == Bucket(examples, key)[n] && KeyOf(examples[i]) == key
    ensures |Bucket(examples[..i], key)| == n
  {
    var last := |examples| - 1;
    if n < |Bucket(examples[..last], key)| {
      i := BucketFrom(examples[..last], key, n);
      assert examples[..last][..i] == examples[..i];
    } else {
      i := last;
    }
  }

  /** The example a key was first seen on. */
  lemma {:induction false} KeyFrom(examples: seq<Example>, q: nat) returns (k: nat)
    requires q < |Keys(examples)|
    ensures k < |examples| && KeyOf(examples[k]) == Keys(examples)[q] && |Keys(examples[..k])| == q
    ensures KeyOf(examples[k]) !in Keys(examples[..k])
  {
    var last := |examples| - 1;
    if q < |Keys(examples[..last])| {
      k := KeyFrom(examples[..last], q);
      assert examples[..last][..k] == examples[..k];
    } else {
      k := last;
    }
  }

  lemma {:induction false} KeysGrow(examples: seq<Example>, i: nat, j: nat)
    requires i <= j <= |examples|
    ensures |Keys(examples[..i])| <= |Keys(examples[..j])|
    decreases j
  {
    if i < j {
      assert examples[..j][..j - 1] == examples[..j - 1];
      KeysGrow(examples, i, j - 1);
    }
  }

  /** Some example like the i-th comes before every example like the j-th. */
  ghost predicate SeenFirst(examples: seq<Example>, i: nat, j: nat)
    requires i < |examples| && j < |examples|
  {
    exists k | 0 <= k < |examples| && Alike(examples[k], examples[i]) ::
      forall m | 0 <= m <= k :: !Alike(examples[m], examples[j])
  }

  /** The i-th example has fewer newer ones of its sender and subject than the j-th has of its own,
      or as many, and its sender and subject were seen first. */
  ghost predicate ComesBefore(examples: seq<Example>, i: nat, j: nat)
    requires i < |examples| && j < |examples|
  {
    var m, n := |LikeIt(examples[..i], examples[i])|, |LikeIt(examples[..j], examples[j])|;
    m < n || (m == n && SeenFirst(examples, i, j))
  }

  lemma SeenFirstByKeys(examples: seq<Example>, i: nat, j: nat, p: nat, q: nat)
    requires NoNulSenders(examples) && i < |examples| && j < |examples| && p < q < |Keys(examples)|
    requires KeyOf(examples[i]) == Keys(examples)[p] && KeyOf(examples[j]) == Keys(examples)[q]
    ensures SeenFirst(examples, i, j)
  {
    var k := KeyFrom(examples, p);
    var l := KeyFrom(examples, q);
    if l <= k {
      KeysGrow(examples, l, k);
    }
    AlikeIsKey(examples[k], examples[i]);
    KeysDistinct(examples[..l]);
    forall m | 0 <= m <= k ensures !Alike(examples[m], examples[j]) {
      assert examples[..l][m] == examples[m] && examples[m] in examples[..l];
      AlikeIsKey(examples[m], examples[j]);
    }
  }

  lemma PlaceOf(examples: seq<Example>, i: nat, p: Place)
    requires NoRepeat(examples) && NoNulSenders(examples) && i < |examples|
    requires IsPlace(Buckets(examples), p) && At(Buckets(examples), p) == examples[i]
    ensures p.q < |Keys(examples)| && KeyOf(examples[i]) == Keys(examples)[p.q]
    ensures |LikeIt(examples[..i], examples[i])| == p.n
  {
    QueuesForAt(Keys(examples), examples, p.q);
    var i' := BucketFrom(examples, Keys(examples)[p.q], p.n);
    assert i' == i;
    LikeItIsBucket(examples[..i], examples[i]);
  }

  lemma DealtInOrder(examples: seq<Example>, a: nat, b: nat, i: nat, j: nat)
    requires NoRepeat(examples) && NoNulSenders(examples) && a < b < |Deal(Buckets(examples))|
    requires i < |examples| && j < |examples|
    requires Deal(Buckets(examples))[a] == examples[i] && Deal(Buckets(examples))[b] == examples[j]
    ensures ComesBefore(examples, i, j)
  {
    var p, q := DealInOrder(Buckets(examples), a, b);
    PlaceOf(examples, i, p);
    PlaceOf(examples, j, q);
    if p.n == q.n {
      SeenFirstByKeys(examples, i, j, p.q, q.q);
    }
  }

  /** The round-robin order without buckets: examples are picked in the order of `ComesBefore`. */
  lemma PickedInOrder(candidates: seq<Example>, budget: int, a: nat, b: nat, i: nat, j: nat)
    requires NoRepeat(candidates) && NoNulSenders(candidates) && a < b < |RoundRobinSpec(candidates, budget)|
    requires i < |candidates| && RoundRobinSpec(candidates, budget)[a] == candidates[i]
    requires j < |candidates| && RoundRobinSpec(candidates, budget)[b] == candidates[j]
    ensures ComesBefore(candidates, i, j)
  {
    DealBuckets(candidates);
    DealtInOrder(candidates, a, b, i, j);
  }

  lemma InPrefix<T>(xs: seq<T>, n: nat, b: nat)
    requires n <= |xs| && b < |xs|
    ensures b < n ==> xs[b] in xs[..n]
  {
    if b < n {
      assert xs[..n][b] == xs[b];
    }
  }

  /** And what is picked comes before all that is not. */
  lemma PickedComeFirst(candidates: seq<Example>, budget: int, i: nat, j: nat)
    requires NoRepeat(candidates) && NoNulSenders(candidates) && i < |candidates| && j < |candidates|
    requires candidates[i] in RoundRobinSpec(candidates, budget)
    requires candidates[j] !in RoundRobinSpec(candidates, budget)
    ensures ComesBefore(candidates, i, j)
  {
    DealBuckets(candidates);
    var dealt, picked := Deal(Buckets(candidates)), RoundRobinSpec(candidates, budget);
    assert candidates[j] in dealt;
    var a: nat :| a < |picked| && picked[a] == candidates[i];
    var b: nat :| b < |dealt| && dealt[b] == candidates[j];
    InPrefix(dealt, |picked|, b);
    DealtInOrder(candidates, a, b, i, j);
  }

  // ---------------------------------------------------------------- the three tiers

  function Recurred(examples: seq<Example>): seq<Example> {
    if examples == [] then []
    else
      var ex := examples[|examples| - 1];
      Recurred(examples[..|examples| - 1]) + (if ex.recurred then [ex] else [])
  }

  function Problems(examples: seq<Example>): seq<Example> {
    if examples == [] then []
    else
      var ex := examples[|examples| - 1];
      Problems(examples[..|examples| - 1]) + (if !ex.recurred && ex.missed then [ex] else [])
  }

  function Confirmations(examples: seq<Example>): seq<Example> {
    if examples == [] then []
    else
      var ex := examples[|examples| - 1];
      Confirmations(examples[..|examples| - 1]) + (if !ex.recurred && !ex.missed then [ex] else [])
  }

  lemma {:induction false} TiersAre(examples: seq<Example>)
    ensures InTier(examples, RecurredTier) == Recurred(examples)
    ensures InTier(examples, MissedTier) == Problems(examples)
    ensures InTier(examples, ConfirmedTier) == Confirmations(examples)
  {
    if examples != [] {
      TiersAre(examples[..|examples| - 1]);
    }
  }

  /** `a` is the smaller of `b` and `c`. */
  predicate Smaller(a: nat, b: nat, c: nat) {
    a <= b && a <= c && (a == b || a == c)
  }

  /** First the newest recurred examples, all of them or as many as half the cap rounded up; then
      problems by round-robin, all of them or what room there is; then confirmations likewise. */
  lemma SampleShape(candidates: seq<Example>, cap: nat) returns (a: nat, b: nat, c: nat)
    ensures Smaller(a, |Recurred(candidates)|, cap / 2 + cap % 2)
    ensures Smaller(b, |Problems(candidates)|, cap - a) && Smaller(c, |Confirmations(candidates)|, cap - a - b)
    ensures SampleSpec(candidates, cap) == Recurred(candidates)[..a] + RoundRobinSpec(Problems(candidates), b)
                                           + RoundRobinSpec(Confirmations(candidates), c)
  {
    TiersAre(candidates);
    a := |RecurredPart(candidates, cap)|;
    b := |MissedPart(candidates, cap)|;
    c := |ConfirmedPart(candidates, cap)|;
  }
}
