/**
 Round-robin dealing over queues (improve.go, `roundRobinBySender`): every pass takes the
 front of each queue that is not empty, in queue order, until nothing is left. This module
 works on the queues alone; module `Sampling` builds them from examples.

 The main result is `DealKept`: throw away everything except the first n elements dealt, and
 dealing what is left gives exactly those n elements again, in the same order. The proof goes
 pass by pass: a full pass keeps every front, so the rests are dealt as before, and the last
 pass keeps the fronts of the first few queues. `DealIsFair` counts the same passes to say how
 even the shares are, and `DealIsPermutation` that nothing is lost or doubled on the way.
 */
module RoundRobin {

  function Fronts<T>(queues: seq<seq<T>>): seq<T> {
    if queues == [] then []
    else if queues[0] == [] then Fronts(queues[1..])
    else [queues[0][0]] + Fronts(queues[1..])
  }

  function Rest<T>(q: seq<T>): seq<T> {
    if q == [] then [] else q[1..]
  }

  function Rests<T>(queues: seq<seq<T>>): (rests: seq<seq<T>>)
    ensures |rests| == |queues|
  {
    if queues == [] then [] else [Rest(queues[0])] + Rests(queues[1..])
  }

  function Total<T>(queues: seq<seq<T>>): nat {
    if queues == [] then 0 else |queues[0]| + Total(queues[1..])
  }

  lemma {:induction false} TotalSplits<T>(queues: seq<seq<T>>)
    ensures Total(queues) == |Fronts(queues)| + Total(Rests(queues))
  {
    if queues != [] {
      TotalSplits(queues[1..]);
    }
  }

  /** All the elements of the queues in the order the passes take them. */
  function Deal<T>(queues: seq<seq<T>>): (dealt: seq<T>)
    ensures |dealt| == Total(queues)
    decreases Total(queues)
  {
    TotalSplits(queues);
    if Fronts(queues) == [] then DealtOut(queues); [] else Fronts(queues) + Deal(Rests(queues))
  }

  lemma {:induction false} DealtOut<T>(queues: seq<seq<T>>)
    requires Fronts(queues) == []
    ensures Total(queues) == 0
    ensures forall j :: 0 <= j < |queues| ==> queues[j] == []
  {
    if queues != [] {
      DealtOut(queues[1..]);
      forall j | 0 <= j < |queues| ensures queues[j] == [] {
        if j > 0 { assert queues[j] == queues[1..][j - 1]; }
      }
    }
  }

  lemma {:induction false} DealOfEmpty<T>(queues: seq<seq<T>>)
    requires forall j :: 0 <= j < |queues| ==> queues[j] == []
    ensures Fronts(queues) == [] && Deal(queues) == []
  {
    if queues != [] {
      assert forall j :: 0 <= j < |queues[1..]| ==> queues[1..][j] == queues[j + 1];
      DealOfEmpty(queues[1..]);
    }
  }

  // ---------------------------------------------------------------- membership

  ghost predicate NoRepeat<T>(xs: seq<T>) {
    forall i, j :: 0 <= i < j < |xs| ==> xs[i] != xs[j]
  }

  /** Everything in the queues, with multiplicity. */
  function Bag<T>(queues: seq<seq<T>>): multiset<T> {
    if queues == [] then multiset{} else multiset(queues[0]) + Bag(queues[1..])
  }

  lemma {:induction false} BagSplits<T>(queues: seq<seq<T>>)
    ensures Bag(queues) == multiset(Fronts(queues)) + Bag(Rests(queues))
  {
    if queues != [] {
      BagSplits(queues[1..]);
      var q := queues[0];
      if q != [] {
        assert q == [q[0]] + q[1..];
      }
    }
  }

  /** Dealing loses nothing and invents nothing. */
  lemma {:induction false} DealIsPermutation<T>(queues: seq<seq<T>>)
    ensures multiset(Deal(queues)) == Bag(queues)
    decreases Total(queues)
  {
    BagSplits(queues);
    TotalSplits(queues);
    if Fronts(queues) == [] {
      DealtOut(queues);
      BagOfEmpty(queues);
    } else {
      DealIsPermutation(Rests(queues));
    }
  }

  lemma {:induction false} BagOfEmpty<T>(queues: seq<seq<T>>)
    requires forall j :: 0 <= j < |queues| ==> queues[j] == []
    ensures Bag(queues) == multiset{}
  {
    if queues != [] {
      assert forall j :: 0 <= j < |queues[1..]| ==> queues[1..][j] == queues[j + 1];
      BagOfEmpty(queues[1..]);
    }
  }

  lemma {:induction false} RestsAt<T>(queues: seq<seq<T>>, j: nat)
    requires j < |queues|
    ensures Rests(queues)[j] == Rest(queues[j])
  {
    if j > 0 {
      RestsAt(queues[1..], j - 1);
    }
  }

  lemma {:induction false} InBag<T>(queues: seq<seq<T>>, j: nat, x: T)
    requires j < |queues| && x in queues[j]
    ensures x in Bag(queues)
  {
    if j > 0 {
      InBag(queues[1..], j - 1, x);
    }
  }

  lemma InDeal<T>(queues: seq<seq<T>>, j: nat, x: T)
    requires j < |queues| && x in queues[j]
    ensures x in Deal(queues)
  {
    InBag(queues, j, x);
    DealIsPermutation(queues);
    assert x in multiset(Deal(queues));
  }

  lemma {:induction false} FrontInFronts<T>(queues: seq<seq<T>>, j: nat)
    requires j < |queues| && queues[j] != []
    ensures queues[j][0] in Fronts(queues)
  {
    if j > 0 {
      FrontInFronts(queues[1..], j - 1);
    }
  }

  lemma NoRepeatConcat<T>(xs: seq<T>, ys: seq<T>)
    requires NoRepeat(xs + ys)
    ensures NoRepeat(xs) && NoRepeat(ys)
    ensures forall x :: x in xs ==> x !in ys
  {
    var zs := xs + ys;
    assert forall i :: 0 <= i < |xs| ==> zs[i] == xs[i];
    assert forall i :: 0 <= i < |ys| ==> zs[|xs| + i] == ys[i];
  }

  lemma DealSplits<T>(queues: seq<seq<T>>)
    ensures Deal(queues) == Fronts(queues) + Deal(Rests(queues))
  {
    if Fronts(queues) == [] {
      DealtOut(queues);
      TotalSplits(queues);
    }
  }

  lemma AfterFronts<T>(queues: seq<seq<T>>, j: nat, x: T)
    requires NoRepeat(Deal(queues)) && j < |queues| && x in Rest(queues[j])
    ensures x !in Fronts(queues) && x in Deal(Rests(queues))
  {
    RestsAt(queues, j);
    InDeal(Rests(queues), j, x);
    DealSplits(queues);
    NoRepeatConcat(Fronts(queues), Deal(Rests(queues)));
  }

  // ---------------------------------------------------------------- keeping a prefix of the deal

  function Filter<T(==)>(xs: seq<T>, keep: set<T>): seq<T> {
    if xs == [] then []
    else if xs[|xs| - 1] in keep then Filter(xs[..|xs| - 1], keep) + [xs[|xs| - 1]]
    else Filter(xs[..|xs| - 1], keep)
  }

  function FilterAll<T(==)>(queues: seq<seq<T>>, keep: set<T>): (kept: seq<seq<T>>)
    ensures |kept| == |queues|
  {
    if queues == [] then [] else [Filter(queues[0], keep)] + FilterAll(queues[1..], keep)
  }

  function SetOf<T>(xs: seq<T>): set<T> {
    set x | x in xs
  }

  lemma {:induction false} FilterConcat<T>(xs: seq<T>, ys: seq<T>, keep: set<T>)
    ensures Filter(xs + ys, keep) == Filter(xs, keep) + Filter(ys, keep)
  {
    if ys == [] {
      assert xs + ys == xs;
    } else {
      var n := |ys| - 1;
      assert (xs + ys)[..|xs + ys| - 1] == xs + ys[..n];
      FilterConcat(xs, ys[..n], keep);
    }
  }

  lemma {:induction false} FilterMembers<T>(xs: seq<T>, keep: set<T>)
    ensures forall x :: x in Filter(xs, keep) <==> x in xs && x in keep
  {
    if xs != [] {
      FilterMembers(xs[..|xs| - 1], keep);
      assert xs == xs[..|xs| - 1] + [xs[|xs| - 1]];
    }
  }

  /** Two keep sets that agree on xs select the same elements. */
  lemma {:induction false} FilterAgrees<T>(xs: seq<T>, keep: set<T>, keep': set<T>)
    requires forall x :: x in xs ==> (x in keep <==> x in keep')
    ensures Filter(xs, keep) == Filter(xs, keep')
  {
    if xs != [] {
      FilterAgrees(xs[..|xs| - 1], keep, keep');
    }
  }

  lemma {:induction false} FilterNone<T>(xs: seq<T>, keep: set<T>)
    requires forall x :: x in xs ==> x !in keep
    ensures Filter(xs, keep) == []
  {
    if xs != [] {
      FilterNone(xs[..|xs| - 1], keep);
    }
  }

  lemma {:induction false} FilterEverything<T>(xs: seq<T>, keep: set<T>)
    requires forall x :: x in xs ==> x in keep
    ensures Filter(xs, keep) == xs
  {
    if xs != [] {
      FilterEverything(xs[..|xs| - 1], keep);
      assert xs == xs[..|xs| - 1] + [xs[|xs| - 1]];
    }
  }

  lemma FilterFront<T>(q: seq<T>, keep: set<T>)
    requires q != []
    ensures Filter(q, keep) == (if q[0] in keep then [q[0]] else []) + Filter(q[1..], keep)
  {
    assert q == [q[0]] + q[1..];
    FilterConcat([q[0]], q[1..], keep);
    assert [q[0]][..0] == [];
  }

  /** Deal depends on the queues only through their elements, so empty queues do not matter. */
  function NonEmpty<T>(queues: seq<seq<T>>): seq<seq<T>> {
    if queues == [] then []
    else if queues[0] == [] then NonEmpty(queues[1..])
    else [queues[0]] + NonEmpty(queues[1..])
  }

  lemma {:induction false} FrontsNonEmpty<T>(queues: seq<seq<T>>)
    ensures Fronts(NonEmpty(queues)) == Fronts(queues)
    ensures NonEmpty(Rests(NonEmpty(queues))) == NonEmpty(Rests(queues))
    ensures Total(NonEmpty(queues)) == Total(queues)
  {
    if queues != [] {
      FrontsNonEmpty(queues[1..]);
      if queues[0] != [] {
        assert NonEmpty(queues)[1..] == NonEmpty(queues[1..]);
      }
      assert Rests(queues)[1..] == Rests(queues[1..]);
      if queues[0] != [] {
        assert Rests(NonEmpty(queues))[1..] == Rests(NonEmpty(queues[1..]));
      }
    }
  }

  lemma {:induction false} DealNonEmpty<T>(queues: seq<seq<T>>)
    ensures Deal(NonEmpty(queues)) == Deal(queues)
    decreases Total(queues)
  {
    FrontsNonEmpty(queues);
    TotalSplits(queues);
    if Fronts(queues) != [] {
      var full := NonEmpty(queues);
      TotalSplits(full);
      DealNonEmpty(Rests(queues));
      DealNonEmpty(Rests(full));
    }
  }

  /** Keeping only the first n fronts leaves one-element queues for those and nothing else. */
  lemma {:induction false} FrontsKept<T>(queues: seq<seq<T>>, n: nat, keep: set<T>)
    requires n <= |Fronts(queues)|
    requires forall x :: x in Fronts(queues)[..n] ==> x in keep
    requires forall x :: x in Fronts(queues)[n..] ==> x !in keep
    requires forall j, x :: 0 <= j < |queues| && x in Rest(queues[j]) ==> x !in keep
    ensures Fronts(FilterAll(queues, keep)) == Fronts(queues)[..n]
    ensures forall j :: 0 <= j < |queues| ==> Rests(FilterAll(queues, keep))[j] == []
  {
    if queues != [] {
      var q, tail := queues[0], queues[1..];
      assert forall j :: 0 <= j < |tail| ==> tail[j] == queues[j + 1];
      var frontKept := q != [] && n > 0;
      var fronts := Fronts(tail);
      if q != [] {
        assert Fronts(queues) == [q[0]] + fronts;
        FilterFront(q, keep);
        FilterNone(q[1..], keep);
        assert q[0] in keep <==> n > 0 by {
          assert n > 0 ==> Fronts(queues)[..n][0] == q[0];
          assert n == 0 ==> Fronts(queues)[n..][0] == q[0];
        }
      }
      var m := if frontKept then n - 1 else n;
      assert Filter(q, keep) == if frontKept then [q[0]] else [];
      assert Fronts(queues)[..n] == (if frontKept then [q[0]] else []) + fronts[..m];
      assert forall x :: x in fronts[m..] ==> x in Fronts(queues)[n..] by {
        assert q == [] || n == 0 || Fronts(queues)[n..] == fronts[m..];
      }
      FrontsKept(tail, m, keep);
    }
  }

  /** Keeping every front keeps the first element of every queue. */
  lemma {:induction false} FrontsAllKept<T>(queues: seq<seq<T>>, keep: set<T>)
    requires forall x :: x in Fronts(queues) ==> x in keep
    ensures Fronts(FilterAll(queues, keep)) == Fronts(queues)
    ensures Rests(FilterAll(queues, keep)) == FilterAll(Rests(queues), keep)
  {
    if queues != [] {
      var q, tail := queues[0], queues[1..];
      assert forall x :: x in Fronts(tail) ==> x in Fronts(queues);
      FrontsAllKept(tail, keep);
      if q != [] {
        assert q[0] in Fronts(queues);
        FilterFront(q, keep);
        assert Rest(Filter(q, keep)) == Filter(q[1..], keep);
      }
    }
  }

  lemma {:induction false} FilterAllAgrees<T>(queues: seq<seq<T>>, keep: set<T>, keep': set<T>)
    requires forall j, x :: 0 <= j < |queues| && x in queues[j] ==> (x in keep <==> x in keep')
    ensures FilterAll(queues, keep) == FilterAll(queues, keep')
  {
    if queues != [] {
      FilterAgrees(queues[0], keep, keep');
      assert forall j :: 0 <= j < |queues[1..]| ==> queues[1..][j] == queues[j + 1];
      FilterAllAgrees(queues[1..], keep, keep');
    }
  }

  lemma DealKeptLastPass<T>(queues: seq<seq<T>>, n: nat)
    requires NoRepeat(Deal(queues)) && 0 < |Fronts(queues)| && n <= |Fronts(queues)|
    ensures Deal(FilterAll(queues, SetOf(Fronts(queues)[..n]))) == Fronts(queues)[..n]
  {
    var fronts := Fronts(queues);
    var keep := SetOf(fronts[..n]);
    var kept := FilterAll(queues, keep);
    NoRepeatConcat(fronts, Deal(Rests(queues)));
    assert fronts == fronts[..n] + fronts[n..];
    NoRepeatConcat(fronts[..n], fronts[n..]);
    forall j, x | 0 <= j < |queues| && x in Rest(queues[j]) ensures x !in keep {
      AfterFronts(queues, j, x);
      assert x in fronts[..n] ==> x in fronts;
    }
    FrontsKept(queues, n, keep);
    DealOfEmpty(Rests(kept));
  }

  /** Stability: after deleting all but the first n elements dealt, the survivors are dealt in
      the same order as before. */
  lemma {:induction false} DealKept<T>(queues: seq<seq<T>>, n: nat)
    requires NoRepeat(Deal(queues)) && n <= Total(queues)
    ensures Deal(FilterAll(queues, SetOf(Deal(queues)[..n]))) == Deal(queues)[..n]
    decreases Total(queues)
  {
    var fronts, rests := Fronts(queues), Rests(queues);
    TotalSplits(queues);
    if fronts == [] {
      DealtOut(queues);
      FilterAllEmpty(queues, SetOf(Deal(queues)[..n]));
      DealOfEmpty(FilterAll(queues, SetOf(Deal(queues)[..n])));
    } else if n <= |fronts| {
      assert Deal(queues)[..n] == fronts[..n];
      DealKeptLastPass(queues, n);
    } else {
      var m := n - |fronts|;
      var keep, keep' := SetOf(Deal(queues)[..n]), SetOf(Deal(rests)[..m]);
      assert Deal(queues)[..n] == fronts + Deal(rests)[..m];
      FrontsAllKept(queues, keep);
      forall j, x | 0 <= j < |rests| && x in rests[j] ensures x in keep <==> x in keep' {
        RestsAt(queues, j);
        AfterFronts(queues, j, x);
      }
      FilterAllAgrees(rests, keep, keep');
      NoRepeatConcat(fronts, Deal(rests));
      DealKept(rests, m);
    }
  }

  lemma {:induction false} FilterAllEmpty<T>(queues: seq<seq<T>>, keep: set<T>)
    requires forall j :: 0 <= j < |queues| ==> queues[j] == []
    ensures forall j :: 0 <= j < |queues| ==> FilterAll(queues, keep)[j] == []
  {
    if queues != [] {
      assert forall j :: 0 <= j < |queues[1..]| ==> queues[1..][j] == queues[j + 1];
      FilterAllEmpty(queues[1..], keep);
    }
  }

  lemma EarlierInPrefix<T>(xs: seq<T>, ys: seq<T>, n: nat, x: T, y: T)
    requires n <= |xs + ys| && x in (xs + ys)[..n] && x !in xs && y in xs
    ensures y in (xs + ys)[..n]
  {
    var i :| 0 <= i < |xs| && xs[i] == y;
    var k :| 0 <= k < n && (xs + ys)[..n][k] == x;
    assert (xs + ys)[..n][i] == y;
  }

  /** A queue whose later element is among the first n dealt has its front there as well. */
  lemma FrontDealtFirst<T>(queues: seq<seq<T>>, n: nat, j: nat, x: T)
    requires NoRepeat(Deal(queues)) && n <= |Deal(queues)| && j < |queues|
    requires x in queues[j] && x in Deal(queues)[..n]
    ensures queues[j][0] in Deal(queues)[..n]
  {
    if x in Rest(queues[j]) {
      var fronts, later := Fronts(queues), Deal(Rests(queues));
      assert Deal(queues) == fronts + later by { DealSplits(queues); }
      assert x !in fronts by { AfterFronts(queues, j, x); }
      assert queues[j][0] in fronts by { FrontInFronts(queues, j); }
      EarlierInPrefix(fronts, later, n, x, queues[j][0]);
    }
  }

  // ---------------------------------------------------------------- fairness

  function Prefix<T>(q: seq<T>, k: nat): seq<T> {
    if k <= |q| then q[..k] else q
  }

  /** `got` is what queue q contributes when k passes were completed and one more was begun. */
  predicate FairShare<T(==)>(q: seq<T>, k: nat, got: seq<T>) {
    got == Prefix(q, k) || got == Prefix(q, k + 1)
  }

  lemma {:induction false} FilterAllAt<T>(queues: seq<seq<T>>, keep: set<T>, j: nat)
    requires j < |queues|
    ensures FilterAll(queues, keep)[j] == Filter(queues[j], keep)
  {
    if j > 0 {
      FilterAllAt(queues[1..], keep, j - 1);
    }
  }

  lemma LastPassShare<T>(queues: seq<seq<T>>, n: nat, j: nat)
    requires NoRepeat(Deal(queues)) && n <= |Fronts(queues)| && j < |queues|
    ensures FairShare(queues[j], 0, Filter(queues[j], SetOf(Fronts(queues)[..n])))
  {
    var q, keep := queues[j], SetOf(Fronts(queues)[..n]);
    if q != [] {
      forall x | x in Rest(q) ensures x !in keep {
        AfterFronts(queues, j, x);
        assert forall y :: y in Fronts(queues)[..n] ==> y in Fronts(queues);
      }
      FilterFront(q, keep);
      FilterNone(q[1..], keep);
      assert Prefix(q, 1) == [q[0]];
    }
  }

  lemma ShareGrows<T>(q: seq<T>, k: nat, got: seq<T>)
    requires q != [] && FairShare(q[1..], k, got)
    ensures FairShare(q, k + 1, [q[0]] + got)
  {
    assert [q[0]] + Prefix(q[1..], k) == Prefix(q, k + 1);
    assert [q[0]] + Prefix(q[1..], k + 1) == Prefix(q, k + 2);
  }

  lemma FullPassKeeps<T>(queues: seq<seq<T>>, later: seq<T>, j: nat)
    requires j < |queues| && queues[j] != []
    requires forall x :: x in queues[j][1..] ==> x !in Fronts(queues)
    ensures Filter(queues[j], SetOf(Fronts(queues) + later)) == [queues[j][0]] + Filter(queues[j][1..], SetOf(later))
  {
    var q, keep := queues[j], SetOf(Fronts(queues) + later);
    FrontInFronts(queues, j);
    FilterFront(q, keep);
    FilterAgrees(q[1..], keep, SetOf(later));
  }

  lemma FullPassShare<T>(queues: seq<seq<T>>, m: nat, j: nat, k: nat)
    requires NoRepeat(Deal(queues)) && j < |queues| && m <= |Deal(Rests(queues))|
    requires FairShare(Rests(queues)[j], k, Filter(Rests(queues)[j], SetOf(Deal(Rests(queues))[..m])))
    ensures FairShare(queues[j], k + 1, Filter(queues[j], SetOf(Fronts(queues) + Deal(Rests(queues))[..m])))
  {
    var q, later := queues[j], Deal(Rests(queues))[..m];
    RestsAt(queues, j);
    if q != [] {
      forall x | x in q[1..] ensures x !in Fronts(queues) {
        AfterFronts(queues, j, x);
      }
      FullPassKeeps(queues, later, j);
      ShareGrows(q, k, Filter(q[1..], SetOf(later)));
    }
  }

  /** However many elements are dealt, every queue contributes a prefix of itself, and there is
      one number of completed passes that all of them agree on up to one element: no queue is
      more than one ahead of another that still has elements. */
  lemma {:induction false} DealIsFair<T>(queues: seq<seq<T>>, n: nat) returns (passes: nat)
    requires NoRepeat(Deal(queues)) && n <= |Deal(queues)|
    ensures forall j :: 0 <= j < |queues| ==> FairShare(queues[j], passes, Filter(queues[j], SetOf(Deal(queues)[..n])))
    decreases Total(queues)
  {
    var fronts, rests := Fronts(queues), Rests(queues);
    TotalSplits(queues);
    DealSplits(queues);
    if n <= |fronts| {
      passes := 0;
      assert Deal(queues)[..n] == fronts[..n];
      forall j | 0 <= j < |queues| ensures FairShare(queues[j], 0, Filter(queues[j], SetOf(Deal(queues)[..n]))) {
        LastPassShare(queues, n, j);
      }
    } else {
      var m := n - |fronts|;
      NoRepeatConcat(fronts, Deal(rests));
      assert fronts != [] by {
        if fronts == [] { DealtOut(queues); }
      }
      var k := DealIsFair(rests, m);
      assert Deal(queues)[..n] == fronts + Deal(rests)[..m];
      forall j | 0 <= j < |queues| ensures FairShare(queues[j], k + 1, Filter(queues[j], SetOf(Deal(queues)[..n]))) {
        FullPassShare(queues, m, j, k);
      }
      passes := k + 1;
    }
  }
}
