/**
 Ids minted without a round trip (db/store.go, `localID`, `localIDs`): the millisecond in the
 high bits, the low 20 bits of an atomic 32-bit counter below.

 `DistinctExactly` says for any clock readings at all, so for every interleaving of concurrent
 callers, when two ids of one process collide; for a clock that does not run backwards that
 makes 2^20 ids a millisecond safe and one more not, and the wrap of the counter invisible.
 */
module LocalIds {
  const SEQ_BITS_SIZE := 0x10_0000
  const UINT32 := 0x1_0000_0000

  /** `ms << 20 | seq`, where the masked counter fits the low bits. */
  function Pack(ms: nat, counter: nat): nat {
    ms * SEQ_BITS_SIZE + counter % SEQ_BITS_SIZE
  }

  /** The counter after `k` more increments, with wrap-around. */
  function Counter(start: nat, k: nat): nat {
    (start + k) % UINT32
  }

  /** The ids of one process: the k-th increment of the counter goes with whatever millisecond its
      caller read. */
  function IdAt(start: nat, clock: seq<nat>, k: nat): nat
    requires k < |clock|
  {
    Pack(clock[k], Counter(start, k + 1))
  }

  lemma WrapInvisible(n: nat)
    ensures (n % UINT32) % SEQ_BITS_SIZE == n % SEQ_BITS_SIZE
  {
    var q := n / UINT32;
    assert n == q * UINT32 + n % UINT32;
    assert UINT32 == 0x1000 * SEQ_BITS_SIZE;
  }

  lemma SameResidue(a: nat, d: nat)
    ensures (a + d) % SEQ_BITS_SIZE == a % SEQ_BITS_SIZE <==> d % SEQ_BITS_SIZE == 0
  {
  }

  /** Two ids of one process collide exactly when they carry the same millisecond and a multiple
      of 2^20 increments lies between them. */
  lemma CollideExactly(start: nat, clock: seq<nat>, i: nat, j: nat)
    requires i < j < |clock|
    ensures IdAt(start, clock, i) == IdAt(start, clock, j) <==> clock[i] == clock[j] && (j - i) % SEQ_BITS_SIZE == 0
  {
    WrapInvisible(start + i + 1);
    WrapInvisible(start + j + 1);
    SameResidue(start + i + 1, j - i);
  }

  ghost predicate AllDistinct(start: nat, clock: seq<nat>) {
    forall i: nat, j: nat | i < j < |clock| :: IdAt(start, clock, i) != IdAt(start, clock, j)
  }

  ghost predicate NeverBack(clock: seq<nat>) {
    forall i: nat, j: nat | i <= j < |clock| :: clock[i] <= clock[j]
  }

  /** More than 2^20 ids in a row in one millisecond. */
  ghost predicate Crowded(clock: seq<nat>) {
    exists i: nat :: CrowdedFrom(clock, i)
  }

  predicate CrowdedFrom(clock: seq<nat>, i: nat) {
    i + SEQ_BITS_SIZE < |clock| && clock[i] == clock[i + SEQ_BITS_SIZE]
  }

  /** On a clock that never runs backwards all ids are distinct exactly as long as no millisecond
      mints more than 2^20 of them, wherever the counter started and however often it wraps. */
  lemma DistinctExactly(start: nat, clock: seq<nat>)
    requires NeverBack(clock)
    ensures AllDistinct(start, clock) <==> !Crowded(clock)
  {
    if i: nat :| CrowdedFrom(clock, i) {
      CollideExactly(start, clock, i, i + SEQ_BITS_SIZE);
      assert !AllDistinct(start, clock);
    }
    if i: nat, j: nat :| i < j < |clock| && IdAt(start, clock, i) == IdAt(start, clock, j) {
      CollisionCrowds(start, clock, i, j);
      assert Crowded(clock);
    }
  }

  lemma CollisionCrowds(start: nat, clock: seq<nat>, i: nat, j: nat)
    requires NeverBack(clock) && i < j < |clock| && IdAt(start, clock, i) == IdAt(start, clock, j)
    ensures CrowdedFrom(clock, i)
  {
    CollideExactly(start, clock, i, j);
    assert clock[i] <= clock[i + SEQ_BITS_SIZE] <= clock[j];
  }

  /** An id from a later millisecond is larger, whatever the counters, and no id is zero. */
  lemma LaterIsLarger(start: nat, clock: seq<nat>, i: nat, other: nat, clocks: seq<nat>, j: nat)
    requires i < |clock| && j < |clocks| && 0 < clock[i] < clocks[j]
    ensures 0 < IdAt(start, clock, i) < IdAt(other, clocks, j)
  {
  }

  lemma IdsDistinct(start: nat, clock: seq<nat>, ids: seq<nat>)
    requires |ids| == |clock| && forall k: nat | k < |clock| :: ids[k] == IdAt(start, clock, k)
    ensures NeverBack(clock) && !Crowded(clock) ==> forall i, j | 0 <= i < j < |ids| :: ids[i] != ids[j]
  {
    if NeverBack(clock) && !Crowded(clock) {
      DistinctExactly(start, clock);
    }
  }

  class IdSource {
    var counter: nat

    ghost predicate Valid()
      reads this
    {
      counter < UINT32
    }

    constructor ()
      ensures Valid() && counter == 0
    {
      counter := 0;
    }

    method LocalId(ms: nat) returns (id: nat)
      requires Valid()
      modifies this
      ensures Valid() && counter == Counter(old(counter), 1)
      ensures id == IdAt(old(counter), [ms], 0)
    {
      counter := (counter + 1) % UINT32;
      id := ms * SEQ_BITS_SIZE + counter % SEQ_BITS_SIZE;
    }

    /** `clock` is what the successive calls read. */
    method LocalIds(clock: seq<nat>) returns (ids: seq<nat>)
      requires Valid()
      modifies this
      ensures Valid() && counter == Counter(old(counter), |clock|)
      ensures |ids| == |clock| && forall k: nat | k < |clock| :: ids[k] == IdAt(old(counter), clock, k)
      ensures NeverBack(clock) && !Crowded(clock) ==> forall i, j | 0 <= i < j < |ids| :: ids[i] != ids[j]
    {
      ids := [];
      for k := 0 to |clock|
        invariant Valid() && counter == Counter(old(counter), k) && |ids| == k
        invariant forall i: nat | i < k :: ids[i] == IdAt(old(counter), clock, i)
      {
        var id := LocalId(clock[k]);
        ids := ids + [id];
      }
      IdsDistinct(old(counter), clock, ids);
    }
  }
}
