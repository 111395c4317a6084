/**
 The table of processed messages as the code drives it (db/store.go:1967-2125): claims in a
 batch, one conditional write per id; releases; the chunked pre-filter; and the write job of
 one classified email (processor/processor.go, `applyWriteJob`). `BatchIsSteps` ties a batch
 of claims to single steps of the protocol, so everything proved there covers it.
 */
module ProcessedTable {
  import opened ClaimProtocol

  const GET_CHUNK := 100

  /** The markers after trying to claim `ids` in order at one clock reading. */
  function PutAll(backend: Backend, markers: Markers, ids: seq<string>, reading: int): Markers {
    if ids == [] then markers
    else Put(backend, PutAll(backend, markers, ids[..|ids| - 1], reading), ids[|ids| - 1], reading)
  }

  /** The ids those attempts won, in order. */
  function Won(backend: Backend, markers: Markers, ids: seq<string>, reading: int): seq<string> {
    if ids == [] then []
    else
      var before, id := ids[..|ids| - 1], ids[|ids| - 1];
      var won := Won(backend, markers, before, reading);
      if Winnable(backend, PutAll(backend, markers, before, reading), id, reading) then won + [id] else won
  }

  ghost predicate Distinct(ids: seq<string>) {
    forall i, j | 0 <= i < j < |ids| :: ids[i] != ids[j]
  }

  lemma {:induction false} PutAllAt(backend: Backend, markers: Markers, ids: seq<string>, reading: int, m: string)
    ensures var after := PutAll(backend, markers, ids, reading);
            if m in ids && Winnable(backend, markers, m, reading)
            then m in after && after[m] == Lease(reading + LEASE)
            else (m in after <==> m in markers) && (m in after ==> after[m] == markers[m])
  {
    if ids != [] {
      var before := ids[..|ids| - 1];
      PutAllAt(backend, markers, before, reading, m);
      assert ids == before + [ids[|ids| - 1]];
    }
  }

  /** A claim call wins each id that was winnable when it started, once however often it is
      listed, and nothing else. */
  lemma {:induction false} WonExactly(backend: Backend, markers: Markers, ids: seq<string>, reading: int)
    ensures Distinct(Won(backend, markers, ids, reading))
    ensures forall m :: m in Won(backend, markers, ids, reading) <==> m in ids && Winnable(backend, markers, m, reading)
  {
    if ids != [] {
      var before, id := ids[..|ids| - 1], ids[|ids| - 1];
      WonExactly(backend, markers, before, reading);
      PutAllAt(backend, markers, before, reading, id);
      assert ids == before + [id];
    }
  }

  ghost predicate Ascending(places: seq<nat>, n: nat) {
    && (forall k | 0 <= k < |places| :: places[k] < n)
    && (forall k, l | 0 <= k < l < |places| :: places[k] < places[l])
  }

  lemma {:induction false} WonUpTo(backend: Backend, markers: Markers, ids: seq<string>, n: nat, reading: int)
    returns (places: seq<nat>)
    requires n <= |ids|
    ensures Ascending(places, n) && |places| == |Won(backend, markers, ids[..n], reading)|
    ensures forall k | 0 <= k < |places| ::
              Won(backend, markers, ids[..n], reading)[k] == ids[places[k]] && ids[places[k]] !in ids[..places[k]]
  {
    places := [];
    if n > 0 {
      places := WonUpTo(backend, markers, ids, n - 1, reading);
      assert ids[..n][..n - 1] == ids[..n - 1];
      if Winnable(backend, PutAll(backend, markers, ids[..n - 1], reading), ids[n - 1], reading) {
        PutAllAt(backend, markers, ids[..n - 1], reading, ids[n - 1]);
        places := places + [n - 1];
      }
    }
  }

  /** In the order of the list: the ids won stand there at `places`, each for the first time. */
  lemma WonInOrder(backend: Backend, markers: Markers, ids: seq<string>, reading: int) returns (places: seq<nat>)
    ensures Ascending(places, |ids|) && |places| == |Won(backend, markers, ids, reading)|
    ensures forall k | 0 <= k < |places| ::
              Won(backend, markers, ids, reading)[k] == ids[places[k]] && ids[places[k]] !in ids[..places[k]]
  {
    places := WonUpTo(backend, markers, ids, |ids|, reading);
    assert ids[..|ids|] == ids;
  }

  /** Two claim calls: what the first won, the second cannot win while the lease lasts. */
  lemma SecondClaimBlocked(backend: Backend, markers: Markers, ids: seq<string>, more: seq<string>,
                           first: int, second: int, m: string)
    requires second <= first + LongestWindow(backend)
    requires m in Won(backend, markers, ids, first)
    ensures m !in Won(backend, PutAll(backend, markers, ids, first), more, second)
  {
    WonExactly(backend, markers, ids, first);
    PutAllAt(backend, markers, ids, first, m);
    WonExactly(backend, PutAll(backend, markers, ids, first), more, second);
  }

  // ---------------------------------------------------------------- a batch is a run of the protocol

  function Attempts(owner: nat, ids: seq<string>): (steps: seq<Step>)
    ensures |steps| == |ids|
    ensures forall k | 0 <= k < |ids| :: steps[k] == TryClaim(Claim(owner, ids[k]))
  {
    seq(|ids|, k requires 0 <= k < |ids| => TryClaim(Claim(owner, ids[k])))
  }

  lemma {:induction false} RunsConcat(cfg: Config, s: State, xs: seq<Step>, ys: seq<Step>)
    requires Runs(cfg, s, xs) && Runs(cfg, After(cfg, s, xs), ys)
    ensures Runs(cfg, s, xs + ys) && After(cfg, s, xs + ys) == After(cfg, After(cfg, s, xs), ys)
    decreases |xs|
  {
    if xs == [] {
      assert xs + ys == ys;
    } else {
      RunsConcat(cfg, Next(cfg, s, xs[0]), xs[1..], ys);
      assert (xs + ys)[1..] == xs[1..] + ys;
    }
  }

  /** A whole claim call is the run of its single attempts: same markers, and whether any
      claim is held after it is said by whether the call won it, or else as before. */
  lemma {:induction false} BatchIsSteps(cfg: Config, s: State, owner: nat, ids: seq<string>, c: Claim)
    requires owner in s.readings
    ensures Runs(cfg, s, Attempts(owner, ids))
    ensures var t := After(cfg, s, Attempts(owner, ids));
            var reading := s.readings[owner];
            && t == s.(markers := PutAll(cfg.backend, s.markers, ids, reading), held := t.held)
            && (if c.owner == owner && c.msg in Won(cfg.backend, s.markers, ids, reading)
                then c in t.held && t.held[c] == reading
                else (c in t.held <==> c in s.held) && (c in s.held ==> t.held[c] == s.held[c]))
    decreases |ids|
  {
    if ids != [] {
      var before, id := ids[..|ids| - 1], ids[|ids| - 1];
      BatchIsSteps(cfg, s, owner, before, c);
      var u := After(cfg, s, Attempts(owner, before));
      var last := [TryClaim(Claim(owner, id))];
      RunOne(cfg, u, last);
      RunsConcat(cfg, s, Attempts(owner, before), last);
      assert Attempts(owner, ids) == Attempts(owner, before) + last;
    }
  }

  // ---------------------------------------------------------------- the table

  datatype WriteJob = WriteJob(messageId: string, release: bool)

  class Table {
    const backend: Backend
    var markers: Markers

    constructor (backend: Backend)
      ensures this.backend == backend && markers == map[]
    {
      this.backend := backend;
      markers := map[];
    }

    /** One clock reading for the whole call. A write error at position `failsAt` ends the call
        with what was won so far. */
    method ClaimMessages(reading: int, ids: seq<string>, failsAt: nat) returns (claimed: seq<string>, ok: bool)
      modifies this
      ensures ok <==> |ids| <= failsAt
      ensures var tried := if ok then ids else ids[..failsAt];
              && markers == PutAll(backend, old(markers), tried, reading)
              && claimed == Won(backend, old(markers), tried, reading)
    {
      claimed := [];
      for k := 0 to |ids|
        invariant k <= failsAt
        invariant markers == PutAll(backend, old(markers), ids[..k], reading)
        invariant claimed == Won(backend, old(markers), ids[..k], reading)
      {
        if k == failsAt {
          return claimed, false;
        }
        assert ids[..k + 1][..k] == ids[..k];
        if Winnable(backend, markers, ids[k], reading) {
          markers := markers[ids[k] := Lease(reading + LEASE)];
          claimed := claimed + [ids[k]];
        }
      }
      assert ids[..|ids|] == ids;
      ok := true;
    }

    /** Deletes a lease, whoever holds it, and never a confirmation. */
    method ReleaseClaim(msg: string)
      modifies this
      ensures msg in markers ==> msg in old(markers) && old(markers)[msg] == markers[msg] == Confirmed
      ensures markers - {msg} == old(markers) - {msg}
      ensures markers == Released(old(markers), msg)
    {
      if msg in markers && markers[msg].Lease? {
        markers := markers - {msg};
      }
    }

    /** The marker part of one email's write job. A failed write is logged and dropped. */
    method ApplyWriteJob(job: WriteJob, insertFails: bool, releaseFails: bool)
      modifies this
      ensures markers - {job.messageId} == old(markers) - {job.messageId}
      ensures job.release ==> markers == if releaseFails then old(markers) else Released(old(markers), job.messageId)
      ensures !job.release ==> markers == if insertFails then old(markers) else old(markers)[job.messageId := Confirmed]
    {
      if !insertFails && !job.release {
        markers := markers[job.messageId := Confirmed];
      }
      if job.release {
        if !releaseFails {
          ReleaseClaim(job.messageId);
        }
        return;
      }
    }

    /** Keeps, in order, the ids with no marker or an expired lease: so every id a claim on the
        same snapshot could win, and beyond those only a lease in its very last second. */
    method FilterUnprocessed(reading: int, ids: seq<string>) returns (unprocessed: seq<string>)
      ensures unprocessed == Kept(markers, reading, ids)
      ensures forall m | m in ids && Winnable(backend, markers, m, reading) :: m in unprocessed
      ensures forall m | m in unprocessed && !Winnable(backend, markers, m, reading) ::
                backend == Dynamo && m in markers && markers[m] == Lease(reading)
    {
      var processed: set<string> := {};
      var i := 0;
      while i < |ids|
        invariant 0 <= i <= |ids|
        invariant forall m :: m in processed <==> m in ids[..i] && !Unprocessed(markers, m, reading)
      {
        var end := if i + GET_CHUNK < |ids| then i + GET_CHUNK else |ids|;
        var chunk := ids[i..end];
        assert ids[..end] == ids[..i] + chunk;
        processed := processed + set m | m in chunk && !Unprocessed(markers, m, reading);
        i := end;
      }
      assert ids[..|ids|] == ids;
      unprocessed := [];
      for k := 0 to |ids|
        invariant unprocessed == Kept(markers, reading, ids[..k])
      {
        assert ids[..k + 1][..k] == ids[..k];
        if ids[k] !in processed {
          unprocessed := unprocessed + [ids[k]];
        }
      }
      KeptMembers(markers, reading, ids);
    }
  }

  function Kept(markers: Markers, reading: int, ids: seq<string>): seq<string> {
    if ids == [] then []
    else
      var before, id := Kept(markers, reading, ids[..|ids| - 1]), ids[|ids| - 1];
      if Unprocessed(markers, id, reading) then before + [id] else before
  }

  lemma {:induction false} KeptUpTo(markers: Markers, reading: int, ids: seq<string>, n: nat) returns (places: seq<nat>)
    requires n <= |ids|
    ensures Ascending(places, n) && |places| == |Kept(markers, reading, ids[..n])|
    ensures forall k | 0 <= k < |places| :: Kept(markers, reading, ids[..n])[k] == ids[places[k]]
    ensures forall i: nat | i < n && Unprocessed(markers, ids[i], reading) :: i in places
  {
    places := [];
    if n > 0 {
      places := KeptUpTo(markers, reading, ids, n - 1);
      assert ids[..n][..n - 1] == ids[..n - 1];
      if Unprocessed(markers, ids[n - 1], reading) {
        places := places + [n - 1];
      }
    }
  }

  /** What the pre-filter keeps, in the order of the list and as often as it is listed. */
  lemma KeptInOrder(markers: Markers, reading: int, ids: seq<string>) returns (places: seq<nat>)
    ensures Ascending(places, |ids|) && |places| == |Kept(markers, reading, ids)|
    ensures forall k | 0 <= k < |places| :: Kept(markers, reading, ids)[k] == ids[places[k]]
    ensures forall i: nat | i < |ids| && Unprocessed(markers, ids[i], reading) :: i in places
  {
    places := KeptUpTo(markers, reading, ids, |ids|);
    assert ids[..|ids|] == ids;
  }

  lemma {:induction false} KeptMembers(markers: Markers, reading: int, ids: seq<string>)
    ensures forall m :: m in Kept(markers, reading, ids) <==> m in ids && Unprocessed(markers, m, reading)
  {
    if ids != [] {
      KeptMembers(markers, reading, ids[..|ids| - 1]);
      assert ids == ids[..|ids| - 1] + [ids[|ids| - 1]];
    }
  }
}
