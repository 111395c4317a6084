/**
 The History tab's cursor pagination over many account partitions (db/store.go,
 `GetHistoryFiltered` and `historyMergeCut`; db/fake.go; server.go, `handleHistory`).
 */
module HistoryPaging {
  import opened Wrappers
  import opened SortKeys

  // Every account is one partition sorted newest first. A page asks each partition for at most
  // `limit` rows below the cursor, drops the rows the store-side filter rejects after they were
  // read, merges the rest, and walks the merge until the page is full or the walk reaches the
  // floor, the depth below which some partition was not read. The promise is "no gaps, no
  // repeats": following the cursor until it is empty yields every matching row exactly once,
  // newest first.

  datatype Row = Row(key: Key, accountId: int, messageId: string, promptId: Option<int>,
                     subject: string, sender: string)

  /** The filter DynamoDB applies to rows after it has read them. */
  datatype StoreFilter = NoStoreFilter | UnmatchedOnly | ForPrompt(id: int)

  /** `text` is the subject/sender search applied after the merge; any predicate will do. */
  datatype Filter = Filter(store: StoreFilter, text: Row -> bool)

  predicate PassesStore(store: StoreFilter, r: Row) {
    match store
    case NoStoreFilter => true
    case UnmatchedOnly => r.promptId.None?
    case ForPrompt(id) => r.promptId == Some(id)
  }

  predicate Matches(f: Filter, r: Row) {
    PassesStore(f.store, r) && f.text(r)
  }

  predicate BelowCursor(k: Key, cursor: Option<Key>) {
    cursor.None? || Less(k, cursor.value)
  }

  /** Not yet passed by a walk whose resume cursor is `next`. */
  predicate Covered(k: Key, next: Option<Key>) {
    next.None? || !Less(k, next.value)
  }

  ghost predicate Descending(rows: seq<Row>) {
    forall i, j :: 0 <= i < j < |rows| ==> Less(rows[j].key, rows[i].key)
  }

  // ---------------------------------------------------------------- partitions and queries

  ghost predicate Stored(parts: seq<seq<Row>>, r: Row) {
    exists p :: 0 <= p < |parts| && r in parts[p]
  }

  ghost predicate Sorted(parts: seq<seq<Row>>) {
    forall p :: 0 <= p < |parts| ==> Descending(parts[p])
  }

  /** Partitions are sorted, and no two rows of the table share a sort key. */
  ghost predicate WellFormed(parts: seq<seq<Row>>) {
    && Sorted(parts)
    && (forall p, q, r, s :: 0 <= p < |parts| && 0 <= q < |parts| && r in parts[p] && s in parts[q] && r.key == s.key
          ==> p == q && r == s)
  }

  function Below(part: seq<Row>, cursor: Option<Key>): seq<Row> {
    if part == [] || BelowCursor(part[0].key, cursor) then part else Below(part[1..], cursor)
  }

  /** What one Query returns: the rows it read, and the key of the last one when it stopped
      before (or exactly at) the end of the partition. */
  datatype Fetch = Fetch(read: seq<Row>, last: Option<Key>)

  /** The Query contract. It covers a stop at the row limit, an earlier stop at the response
      size limit, and a reported last key although nothing is left below it. */
  ghost predicate QueryResult(part: seq<Row>, cursor: Option<Key>, limit: nat, fetch: Fetch) {
    var below := Below(part, cursor);
    && |fetch.read| <= limit
    && fetch.read <= below
    && (fetch.last.None? ==> fetch.read == below)
    && (fetch.last.Some? ==> fetch.read != [] && fetch.last.value == fetch.read[|fetch.read| - 1].key)
  }

  ghost predicate Queried(parts: seq<seq<Row>>, cursor: Option<Key>, limit: nat, fetches: seq<Fetch>) {
    |fetches| == |parts| && forall p :: 0 <= p < |parts| ==> QueryResult(parts[p], cursor, limit, fetches[p])
  }

  function Newer(a: Option<Key>, b: Option<Key>): Option<Key> {
    if a.None? then b else if b.None? || Less(b.value, a.value) then a else b
  }

  /** The newest key at which any partition's read was cut short. */
  function Floor(fetches: seq<Fetch>): Option<Key> {
    if fetches == [] then None else Newer(Floor(fetches[..|fetches| - 1]), fetches[|fetches| - 1].last)
  }

  function Scanned(fetches: seq<Fetch>): nat {
    if fetches == [] then 0 else Scanned(fetches[..|fetches| - 1]) + |fetches[|fetches| - 1].read|
  }

  ghost predicate Fetched(fetches: seq<Fetch>, store: StoreFilter, r: Row) {
    exists p :: 0 <= p < |fetches| && r in fetches[p].read && PassesStore(store, r)
  }

  ghost predicate IsMerge(fetches: seq<Fetch>, store: StoreFilter, all: seq<Row>) {
    Descending(all) && forall r :: r in all <==> Fetched(fetches, store, r)
  }

  // ---------------------------------------------------------------- cutting one page

  function Select(rows: seq<Row>, text: Row -> bool): seq<Row> {
    if rows == [] then []
    else Select(rows[..|rows| - 1], text) + (if text(rows[|rows| - 1]) then [rows[|rows| - 1]] else [])
  }

  predicate PastFloor(r: Row, floor: Option<Key>) {
    floor.Some? && Less(r.key, floor.value)
  }

  /** Where in the merge the walk stops, from row i on, when `need` more matches fill the page. */
  function WalkEnd(all: seq<Row>, i: nat, text: Row -> bool, need: nat, floor: Option<Key>): (n: nat)
    requires need > 0 && i <= |all|
    ensures i <= n <= |all|
    decreases |all| - i
  {
    if i == |all| || PastFloor(all[i], floor) then i
    else if !text(all[i]) then WalkEnd(all, i + 1, text, need, floor)
    else if need == 1 then i + 1
    else WalkEnd(all, i + 1, text, need - 1, floor)
  }

  /** How many rows of the merge the walk examines. */
  function Examined(all: seq<Row>, text: Row -> bool, need: nat, floor: Option<Key>): (n: nat)
    requires need > 0
    ensures n <= |all|
  {
    WalkEnd(all, 0, text, need, floor)
  }

  /** The resume cursor after the first n rows of the merge were examined. */
  function NextCursor(all: seq<Row>, n: nat, floor: Option<Key>): Option<Key>
    requires n <= |all|
  {
    var lastConsumed := if n == 0 then None else Some(all[n - 1].key);
    if n < |all| then lastConsumed
    else if n == 0 then floor
    else if floor.Some? then lastConsumed
    else None
  }

  function CutRows(all: seq<Row>, text: Row -> bool, pageSize: nat, floor: Option<Key>): seq<Row>
    requires pageSize > 0
  {
    Select(all[..Examined(all, text, pageSize, floor)], text)
  }

  function CutNext(all: seq<Row>, text: Row -> bool, pageSize: nat, floor: Option<Key>): Option<Key>
    requires pageSize > 0
  {
    NextCursor(all, Examined(all, text, pageSize, floor), floor)
  }

  lemma SelectOneMore(all: seq<Row>, text: Row -> bool, i: nat)
    requires i < |all|
    ensures Select(all[..i + 1], text) == Select(all[..i], text) + (if text(all[i]) then [all[i]] else [])
  {
    assert all[..i + 1][..i] == all[..i];
  }

  /** The walk of `historyMergeCut`, statement by statement. */
  method HistoryMergeCut(all: seq<Row>, text: Row -> bool, pageSize: nat, floor: Option<Key>)
    returns (rows: seq<Row>, next: Option<Key>)
    requires pageSize > 0
    ensures rows == CutRows(all, text, pageSize, floor)
    ensures next == CutNext(all, text, pageSize, floor)
  {
    rows := [];
    var lastConsumed: Option<Key> := None;
    var stoppedEarly := false;
    var i := 0;
    while i < |all|
      invariant 0 <= i <= |all| && |rows| < pageSize && !stoppedEarly
      invariant rows == Select(all[..i], text)
      invariant lastConsumed == if i == 0 then None else Some(all[i - 1].key)
      invariant WalkEnd(all, i, text, pageSize - |rows|, floor) == Examined(all, text, pageSize, floor)
    {
      if PastFloor(all[i], floor) {
        stoppedEarly := true;
        break;
      }
      lastConsumed := Some(all[i].key);
      SelectOneMore(all, text, i);
      i := i + 1;
      if !text(all[i - 1]) {
        continue;
      }
      rows := rows + [all[i - 1]];
      if |rows| >= pageSize {
        stoppedEarly := i < |all|;
        break;
      }
    }
    assert i == Examined(all, text, pageSize, floor);
    if stoppedEarly {
      next := lastConsumed;
    } else if lastConsumed.None? {
      next := floor;
    } else if floor.Some? {
      next := lastConsumed;
    } else {
      next := None;
    }
  }

  // ---------------------------------------------------------------- what one page promises

  datatype Page = Page(rows: seq<Row>, next: Option<Key>, scanned: nat)

  /** One request: the per-account reads, their merge, and the page cut from it. */
  datatype Step = Step(limit: nat, fetches: seq<Fetch>, all: seq<Row>, page: Page)

  ghost predicate ValidStep(parts: seq<seq<Row>>, f: Filter, cursor: Option<Key>, step: Step) {
    && step.limit > 0
    && Queried(parts, cursor, step.limit, step.fetches)
    && IsMerge(step.fetches, f.store, step.all)
    && step.page == Page(CutRows(step.all, f.text, step.limit, Floor(step.fetches)),
                         CutNext(step.all, f.text, step.limit, Floor(step.fetches)),
                         Scanned(step.fetches))
  }

  /** The rows a page has to return when it resumes at `cursor` and hands on `next`. */
  ghost predicate Owed(parts: seq<seq<Row>>, f: Filter, cursor: Option<Key>, next: Option<Key>, r: Row) {
    Stored(parts, r) && Matches(f, r) && BelowCursor(r.key, cursor) && Covered(r.key, next)
  }

  /** No gap and no repeat: the page holds exactly the matching rows between the two cursors. */
  ghost predicate Lossless(parts: seq<seq<Row>>, f: Filter, cursor: Option<Key>, rows: seq<Row>, next: Option<Key>) {
    Descending(rows) && forall r :: r in rows <==> Owed(parts, f, cursor, next, r)
  }

  /** The branch of the walk that drops rows: the merge is not empty, but its newest row is
      already below the floor, so the walk stops before it has consumed anything. */
  predicate Stalled(all: seq<Row>, floor: Option<Key>) {
    floor.Some? && all != [] && Less(all[0].key, floor.value)
  }

  lemma {:induction false} BelowMembers(part: seq<Row>, cursor: Option<Key>)
    requires Descending(part)
    ensures Descending(Below(part, cursor))
    ensures forall r :: r in Below(part, cursor) <==> r in part && BelowCursor(r.key, cursor)
  {
    if part != [] && !BelowCursor(part[0].key, cursor) {
      BelowMembers(part[1..], cursor);
      assert part == [part[0]] + part[1..];
    } else if part != [] {
      forall r | r in part ensures BelowCursor(r.key, cursor) {
        var i :| 0 <= i < |part| && part[i] == r;
        assert i == 0 || Less(part[i].key, part[0].key);
      }
    }
  }

  lemma {:induction false} FloorBounds(fetches: seq<Fetch>)
    ensures forall p :: 0 <= p < |fetches| && fetches[p].last.Some?
              ==> Floor(fetches).Some? && !Less(Floor(fetches).value, fetches[p].last.value)
    ensures Floor(fetches).Some? ==> exists p :: 0 <= p < |fetches| && fetches[p].last == Floor(fetches)
  {
    if fetches != [] {
      var n := |fetches| - 1;
      FloorBounds(fetches[..n]);
      var prev := Floor(fetches[..n]);
      if Floor(fetches).Some? {
        if Floor(fetches) == fetches[n].last {
        } else {
          var p :| 0 <= p < n && fetches[..n][p].last == prev;
          assert fetches[p].last == Floor(fetches);
        }
      }
    }
  }

  lemma {:induction false} SelectMembers(rows: seq<Row>, text: Row -> bool)
    requires Descending(rows)
    ensures Descending(Select(rows, text))
    ensures forall r :: r in Select(rows, text) <==> r in rows && text(r)
  {
    if rows != [] {
      var n := |rows| - 1;
      SelectMembers(rows[..n], text);
      assert rows == rows[..n] + [rows[n]];
      var s := Select(rows[..n], text);
      forall i | 0 <= i < |s| ensures Less(rows[n].key, s[i].key) {
        assert s[i] in rows[..n];
      }
    }
  }

  lemma {:induction false} WalkCovers(all: seq<Row>, i: nat, text: Row -> bool, need: nat, floor: Option<Key>)
    requires need > 0 && i <= |all|
    ensures forall k | i <= k < WalkEnd(all, i, text, need, floor) :: Covered(all[k].key, floor)
    decreases |all| - i
  {
    if i < |all| && !PastFloor(all[i], floor) {
      var left := if text(all[i]) then need - 1 else need;
      if left > 0 {
        WalkCovers(all, i + 1, text, left, floor);
      }
    }
  }

  /** The walk stops where the merge ends, falls below the floor, or has filled the page. */
  lemma ExaminedStops(all: seq<Row>, text: Row -> bool, need: nat, floor: Option<Key>)
    requires need > 0 && Descending(all)
    ensures var n := Examined(all, text, need, floor);
      && (forall i :: 0 <= i < n ==> Covered(all[i].key, floor))
      && (n == 0 && all != [] ==> Stalled(all, floor))
  {
    WalkCovers(all, 0, text, need, floor);
  }

  lemma Ordered(rows: seq<Row>, i: nat, j: nat)
    requires Descending(rows) && i < |rows| && j < |rows|
    ensures !Less(rows[j].key, rows[i].key) ==> j <= i
    ensures Less(rows[j].key, rows[i].key) ==> i < j
  {
  }

  /** A query reads everything down to the key it stopped at. */
  lemma ReadDownTo(part: seq<Row>, cursor: Option<Key>, limit: nat, fetch: Fetch, r: Row)
    requires Descending(part) && QueryResult(part, cursor, limit, fetch)
    requires r in part && BelowCursor(r.key, cursor) && Covered(r.key, fetch.last)
    ensures r in fetch.read
  {
    BelowMembers(part, cursor);
    var below, n := Below(part, cursor), |fetch.read|;
    var i :| 0 <= i < |below| && below[i] == r;
    if fetch.last.Some? {
      assert below[n - 1] == fetch.read[n - 1];
      Ordered(below, n - 1, i);
    }
    assert fetch.read[i] == r;
  }

  /** Everything at or above the floor was read: the merge is complete down to there. */
  lemma ReadAboveFloor(parts: seq<seq<Row>>, f: Filter, cursor: Option<Key>, step: Step, r: Row)
    requires Sorted(parts) && ValidStep(parts, f, cursor, step)
    requires Stored(parts, r) && BelowCursor(r.key, cursor) && PassesStore(f.store, r)
    requires Covered(r.key, Floor(step.fetches))
    ensures r in step.all
  {
    var p :| 0 <= p < |parts| && r in parts[p];
    FloorBounds(step.fetches);
    ReadDownTo(parts[p], cursor, step.limit, step.fetches[p], r);
    assert Fetched(step.fetches, f.store, r);
  }

  lemma ReadMembers(part: seq<Row>, cursor: Option<Key>, limit: nat, fetch: Fetch, r: Row)
    requires Descending(part) && QueryResult(part, cursor, limit, fetch) && r in fetch.read
    ensures r in part && BelowCursor(r.key, cursor)
  {
    BelowMembers(part, cursor);
    var i :| 0 <= i < |fetch.read| && fetch.read[i] == r;
    assert Below(part, cursor)[i] == r;
  }

  lemma MergedRowsStored(parts: seq<seq<Row>>, f: Filter, cursor: Option<Key>, step: Step, r: Row)
    requires Sorted(parts) && ValidStep(parts, f, cursor, step)
    requires r in step.all
    ensures Stored(parts, r) && BelowCursor(r.key, cursor) && PassesStore(f.store, r)
  {
    var p :| 0 <= p < |step.fetches| && r in step.fetches[p].read && PassesStore(f.store, r);
    ReadMembers(parts[p], cursor, step.limit, step.fetches[p], r);
  }

  lemma FloorStored(parts: seq<seq<Row>>, f: Filter, cursor: Option<Key>, step: Step) returns (r: Row)
    requires Sorted(parts) && ValidStep(parts, f, cursor, step)
    requires Floor(step.fetches).Some?
    ensures Stored(parts, r) && BelowCursor(r.key, cursor) && r.key == Floor(step.fetches).value
  {
    FloorBounds(step.fetches);
    var p :| 0 <= p < |step.fetches| && step.fetches[p].last == Floor(step.fetches);
    var read := step.fetches[p].read;
    assert QueryResult(parts[p], cursor, step.limit, step.fetches[p]);
    r := read[|read| - 1];
    ReadMembers(parts[p], cursor, step.limit, step.fetches[p], r);
  }

  lemma PageRowsOwed(parts: seq<seq<Row>>, f: Filter, cursor: Option<Key>, step: Step, r: Row)
    requires Sorted(parts) && ValidStep(parts, f, cursor, step)
    requires r in step.page.rows
    ensures Owed(parts, f, cursor, step.page.next, r)
  {
    var all, floor := step.all, Floor(step.fetches);
    var n := Examined(all, f.text, step.limit, floor);
    assert Descending(all[..n]);
    SelectMembers(all[..n], f.text);
    var i :| 0 <= i < n && all[i] == r;
    MergedRowsStored(parts, f, cursor, step, r);
    Ordered(all, n - 1, i);
  }

  lemma OwedRowsOnPage(parts: seq<seq<Row>>, f: Filter, cursor: Option<Key>, step: Step, r: Row)
    requires Sorted(parts) && ValidStep(parts, f, cursor, step)
    requires !Stalled(step.all, Floor(step.fetches))
    requires Owed(parts, f, cursor, step.page.next, r)
    ensures r in step.page.rows
  {
    var all, floor := step.all, Floor(step.fetches);
    var n := Examined(all, f.text, step.limit, floor);
    ExaminedStops(all, f.text, step.limit, floor);
    assert Descending(all[..n]);
    SelectMembers(all[..n], f.text);
    assert Covered(r.key, floor) by {
      if floor.Some? && n > 0 {
        assert Covered(all[n - 1].key, floor);
      }
    }
    ReadAboveFloor(parts, f, cursor, step, r);
    var i :| 0 <= i < |all| && all[i] == r;
    if n > 0 {
      Ordered(all, n - 1, i);
    }
    assert r in all[..n] by { assert all[..n][i] == r; }
  }

  /** A page that did not stall returns exactly what it owes. */
  lemma PageLossless(parts: seq<seq<Row>>, f: Filter, cursor: Option<Key>, step: Step)
    requires Sorted(parts) && ValidStep(parts, f, cursor, step)
    requires !Stalled(step.all, Floor(step.fetches))
    ensures Lossless(parts, f, cursor, step.page.rows, step.page.next)
  {
    var n := Examined(step.all, f.text, step.limit, Floor(step.fetches));
    assert Descending(step.all[..n]);
    SelectMembers(step.all[..n], f.text);
    forall r ensures r in step.page.rows <==> Owed(parts, f, cursor, step.page.next, r) {
      if r in step.page.rows {
        PageRowsOwed(parts, f, cursor, step, r);
      } else if Owed(parts, f, cursor, step.page.next, r) {
        OwedRowsOnPage(parts, f, cursor, step, r);
      }
    }
  }

  /** The exact condition: a page loses something if and only if it stalls while a matching
      row is left below its cursor. */
  lemma PageLosslessIff(parts: seq<seq<Row>>, f: Filter, cursor: Option<Key>, step: Step)
    requires Sorted(parts) && ValidStep(parts, f, cursor, step)
    ensures Lossless(parts, f, cursor, step.page.rows, step.page.next)
       <==> !(Stalled(step.all, Floor(step.fetches)) && exists r :: Owed(parts, f, cursor, None, r))
    ensures Stalled(step.all, Floor(step.fetches)) ==> step.page.rows == [] && step.page.next == None
  {
    var all, floor := step.all, Floor(step.fetches);
    if !Stalled(all, floor) {
      PageLossless(parts, f, cursor, step);
    } else {
      assert Examined(all, f.text, step.limit, floor) == 0;
      assert all[..0] == [];
    }
  }

  /** A page holds no more rows than it was asked for, and fewer only when the merge holds no other
      matching row down to the floor. */
  lemma PageSize(parts: seq<seq<Row>>, f: Filter, cursor: Option<Key>, step: Step)
    requires ValidStep(parts, f, cursor, step)
    ensures |step.page.rows| <= step.limit
    ensures |step.page.rows| < step.limit ==>
              forall r | r in step.all && f.text(r) && Covered(r.key, Floor(step.fetches)) :: r in step.page.rows
  {
    var all, floor := step.all, Floor(step.fetches);
    var n := Examined(all, f.text, step.limit, floor);
    WalkFills(all, 0, f.text, step.limit, floor);
    assert all[..0] == [];
    SelectMembers(all[..n], f.text);
    if |step.page.rows| < step.limit {
      forall r | r in all && f.text(r) && Covered(r.key, floor) ensures r in step.page.rows {
        var i :| 0 <= i < |all| && all[i] == r;
        BehindFloor(all, n, i, floor);
        assert r == all[..n][i];
      }
    }
  }

  /** All rows from one below the floor on are below it. */
  lemma BehindFloor(all: seq<Row>, n: nat, i: nat, floor: Option<Key>)
    requires Descending(all) && i < |all| && (n < |all| ==> PastFloor(all[n], floor))
    ensures n <= i ==> !Covered(all[i].key, floor)
  {
    if n < i {
      assert Less(all[i].key, all[n].key);
    }
  }

  /** From row i on the walk takes at most `need` matching rows, and all `need` unless it comes to
      the end or below the floor. */
  lemma {:induction false} WalkFills(all: seq<Row>, i: nat, text: Row -> bool, need: nat, floor: Option<Key>)
    requires need > 0 && i <= |all|
    ensures var n := WalkEnd(all, i, text, need, floor);
            var taken := |Select(all[..n], text)| - |Select(all[..i], text)|;
            taken <= need && (taken < need && n < |all| ==> PastFloor(all[n], floor))
    decreases |all| - i
  {
    if i < |all| && !PastFloor(all[i], floor) {
      SelectOneMore(all, text, i);
      var left := if text(all[i]) then need - 1 else need;
      if left > 0 {
        WalkFills(all, i + 1, text, left, floor);
      }
    }
  }

  /** A non-empty resume cursor is the key of a stored row strictly below the old cursor. */
  lemma PageProgress(parts: seq<seq<Row>>, f: Filter, cursor: Option<Key>, step: Step) returns (r: Row)
    requires Sorted(parts) && ValidStep(parts, f, cursor, step)
    requires step.page.next.Some?
    ensures Stored(parts, r) && BelowCursor(r.key, cursor) && step.page.next == Some(r.key)
    ensures step.page.scanned > 0
  {
    var all, floor := step.all, Floor(step.fetches);
    var n := Examined(all, f.text, step.limit, floor);
    if n > 0 {
      r := all[n - 1];
      MergedRowsStored(parts, f, cursor, step, r);
      var p :| 0 <= p < |step.fetches| && r in step.fetches[p].read;
      ScannedAtLeast(step.fetches, p);
    } else {
      r := FloorStored(parts, f, cursor, step);
      FloorBounds(step.fetches);
      var p :| 0 <= p < |step.fetches| && step.fetches[p].last == floor;
      ScannedAtLeast(step.fetches, p);
    }
  }

  lemma {:induction false} ScannedAtLeast(fetches: seq<Fetch>, p: nat)
    requires p < |fetches|
    ensures Scanned(fetches) >= |fetches[p].read|
  {
    var n := |fetches| - 1;
    if p < n {
      ScannedAtLeast(fetches[..n], p);
    }
  }

  lemma MergeHead(all: seq<Row>, r: Row)
    requires Descending(all) && r in all
    ensures !Less(all[0].key, r.key)
  {
    var i :| 0 <= i < |all| && all[i] == r;
    assert i == 0 || Less(all[i].key, all[0].key);
  }

  lemma NeverStallsUnfiltered(parts: seq<seq<Row>>, f: Filter, cursor: Option<Key>, step: Step)
    requires ValidStep(parts, f, cursor, step) && f.store.NoStoreFilter?
    ensures !Stalled(step.all, Floor(step.fetches))
  {
    var floor := Floor(step.fetches);
    if floor.Some? {
      FloorBounds(step.fetches);
      var p :| 0 <= p < |step.fetches| && step.fetches[p].last == floor;
      assert QueryResult(parts[p], cursor, step.limit, step.fetches[p]);
      var read := step.fetches[p].read;
      assert Fetched(step.fetches, f.store, read[|read| - 1]);
      MergeHead(step.all, read[|read| - 1]);
    }
  }

  lemma LastReadIsOldest(part: seq<Row>, cursor: Option<Key>, limit: nat, fetch: Fetch, r: Row)
    requires Descending(part) && QueryResult(part, cursor, limit, fetch)
    requires fetch.last.Some? && r in fetch.read
    ensures !Less(r.key, fetch.last.value)
  {
    var below, read := Below(part, cursor), fetch.read;
    BelowMembers(part, cursor);
    var i :| 0 <= i < |read| && read[i] == r;
    assert below[i] == read[i] && below[|read| - 1] == read[|read| - 1];
    Ordered(below, |read| - 1, i);
  }

  /** Without a store-side filter, or over at most one account, no page stalls: the floor row
      itself, or nothing below it, is in the merge. */
  lemma NeverStalls(parts: seq<seq<Row>>, f: Filter, cursor: Option<Key>, step: Step)
    requires Sorted(parts) && ValidStep(parts, f, cursor, step)
    requires f.store.NoStoreFilter? || |parts| <= 1
    ensures !Stalled(step.all, Floor(step.fetches))
  {
    var all, floor := step.all, Floor(step.fetches);
    if f.store.NoStoreFilter? {
      NeverStallsUnfiltered(parts, f, cursor, step);
    } else if floor.Some? && all != [] {
      FloorBounds(step.fetches);
      assert step.fetches[0].last == floor;
      assert Fetched(step.fetches, f.store, all[0]);
      assert all[0] in step.fetches[0].read;
      LastReadIsOldest(parts[0], cursor, step.limit, step.fetches[0], all[0]);
    }
  }

  // ---------------------------------------------------------------- whole paging sessions

  /** A client following the cursor: it stops only when the cursor comes back empty. */
  ghost predicate Session(parts: seq<seq<Row>>, f: Filter, cursor: Option<Key>, steps: seq<Step>)
    decreases |steps|
  {
    steps == [] ||
    (&& ValidStep(parts, f, cursor, steps[0])
     && (if steps[0].page.next.None? then |steps| == 1
         else Session(parts, f, steps[0].page.next, steps[1..])))
  }

  ghost predicate Finished(steps: seq<Step>) {
    steps != [] && steps[|steps| - 1].page.next.None?
  }

  function AllRows(steps: seq<Step>): seq<Row> {
    if steps == [] then [] else steps[0].page.rows + AllRows(steps[1..])
  }

  function EndCursor(cursor: Option<Key>, steps: seq<Step>): Option<Key> {
    if steps == [] then cursor else steps[|steps| - 1].page.next
  }

  lemma LosslessConcat(parts: seq<seq<Row>>, f: Filter, a: Option<Key>, mid: Key, b: Option<Key>, xs: seq<Row>,
                       ys: seq<Row>)
    requires Lossless(parts, f, a, xs, Some(mid)) && BelowCursor(mid, a)
    requires Lossless(parts, f, Some(mid), ys, b) && (b.Some? ==> !Less(mid, b.value))
    ensures Lossless(parts, f, a, xs + ys, b)
  {
    var zs := xs + ys;
    forall i, j | 0 <= i < j < |zs| ensures Less(zs[j].key, zs[i].key) {
      if i < |xs| && |xs| <= j {
        assert xs[i] in xs && ys[j - |xs|] in ys;
        assert Owed(parts, f, a, Some(mid), xs[i]);
        assert Owed(parts, f, Some(mid), b, ys[j - |xs|]);
      }
    }
    forall r ensures r in zs <==> Owed(parts, f, a, b, r) {
      assert r in zs <==> r in xs || r in ys;
    }
  }

  lemma FirstPage(parts: seq<seq<Row>>, f: Filter, cursor: Option<Key>, step: Step)
    requires Sorted(parts) && ValidStep(parts, f, cursor, step)
    requires f.store.NoStoreFilter? || |parts| <= 1
    ensures Lossless(parts, f, cursor, step.page.rows, step.page.next)
    ensures step.page.next.Some? ==> BelowCursor(step.page.next.value, cursor)
  {
    NeverStalls(parts, f, cursor, step);
    PageLossless(parts, f, cursor, step);
    if step.page.next.Some? {
      var r := PageProgress(parts, f, cursor, step);
    }
  }

  /** No gaps, no repeats, over a session of any length and any page sizes: the pages so far
      hold exactly the matching rows passed so far, each once, newest first. */
  lemma {:induction false} SessionLossless(parts: seq<seq<Row>>, f: Filter, cursor: Option<Key>, steps: seq<Step>)
    requires Sorted(parts) && Session(parts, f, cursor, steps) && steps != []
    requires f.store.NoStoreFilter? || |parts| <= 1
    ensures Lossless(parts, f, cursor, AllRows(steps), EndCursor(cursor, steps))
    ensures EndCursor(cursor, steps).Some? ==> BelowCursor(EndCursor(cursor, steps).value, cursor)
    decreases |steps|
  {
    var first, rest := steps[0].page, steps[1..];
    FirstPage(parts, f, cursor, steps[0]);
    if rest != [] {
      SessionLossless(parts, f, first.next, rest);
      var end := EndCursor(cursor, steps);
      assert EndCursor(first.next, rest) == end;
      LosslessConcat(parts, f, cursor, first.next.value, end, first.rows, AllRows(rest));
    } else {
      assert AllRows(steps) == first.rows + [] == first.rows;
    }
  }

  /** The whole history search: from the empty cursor until it is empty again. */
  lemma FinishedSessionComplete(parts: seq<seq<Row>>, f: Filter, steps: seq<Step>)
    requires Sorted(parts) && Session(parts, f, None, steps) && Finished(steps)
    requires f.store.NoStoreFilter? || |parts| <= 1
    ensures Descending(AllRows(steps))
    ensures forall r :: r in AllRows(steps) <==> Stored(parts, r) && Matches(f, r)
    ensures forall r :: Matches(f, r) <==>
              && f.text(r) && (f.store.UnmatchedOnly? ==> r.promptId.None?)
              && (f.store.ForPrompt? ==> r.promptId == Some(f.store.id))
  {
    SessionLossless(parts, f, None, steps);
    forall r ensures r in AllRows(steps) <==> Stored(parts, r) && Matches(f, r) {
      assert r in AllRows(steps) <==> Owed(parts, f, None, None, r);
    }
  }

  // ---------------------------------------------------------------- termination

  function RowsBelow(parts: seq<seq<Row>>, cursor: Option<Key>): nat {
    if parts == [] then 0 else |Below(parts[0], cursor)| + RowsBelow(parts[1..], cursor)
  }

  lemma {:induction false} BelowShrinks(part: seq<Row>, cursor: Option<Key>, k: Key)
    requires Descending(part) && BelowCursor(k, cursor)
    ensures |Below(part, Some(k))| <= |Below(part, cursor)|
    ensures (exists r :: r in part && r.key == k) ==> |Below(part, Some(k))| < |Below(part, cursor)|
  {
    if part != [] {
      BelowShrinks(part[1..], cursor, k);
      if BelowCursor(part[0].key, cursor) {
        BelowLength(part[1..], Some(k));
      } else if exists r :: r in part && r.key == k {
        var r :| r in part && r.key == k;
        assert r in part[1..];
      }
    }
  }

  lemma {:induction false} BelowLength(part: seq<Row>, cursor: Option<Key>)
    ensures |Below(part, cursor)| <= |part|
  {
    if part != [] && !BelowCursor(part[0].key, cursor) {
      BelowLength(part[1..], cursor);
    }
  }

  lemma {:induction false} RowsBelowShrinks(parts: seq<seq<Row>>, cursor: Option<Key>, k: Key)
    requires Sorted(parts) && BelowCursor(k, cursor)
    ensures RowsBelow(parts, Some(k)) <= RowsBelow(parts, cursor)
    ensures (exists r :: Stored(parts, r) && r.key == k) ==> RowsBelow(parts, Some(k)) < RowsBelow(parts, cursor)
  {
    if parts != [] {
      BelowShrinks(parts[0], cursor, k);
      RowsBelowShrinks(parts[1..], cursor, k);
      if r :| Stored(parts, r) && r.key == k {
        var p :| 0 <= p < |parts| && r in parts[p];
        if p > 0 {
          assert r in parts[1..][p - 1];
          assert Stored(parts[1..], r);
        }
      }
    }
  }

  /** Paging always ends, whatever the filter: a session from `cursor` has at most one page
      more than there are rows below the cursor. */
  lemma {:induction false} SessionBounded(parts: seq<seq<Row>>, f: Filter, cursor: Option<Key>, steps: seq<Step>)
    requires Sorted(parts) && Session(parts, f, cursor, steps)
    ensures |steps| <= RowsBelow(parts, cursor) + 1
    decreases |steps|
  {
    if |steps| > 1 {
      var r := PageProgress(parts, f, cursor, steps[0]);
      RowsBelowShrinks(parts, cursor, r.key);
      SessionBounded(parts, f, steps[0].page.next, steps[1..]);
    }
  }

  // ---------------------------------------------------------------- exactly which searches are safe

  ghost predicate Complete(parts: seq<seq<Row>>, f: Filter, steps: seq<Step>) {
    Lossless(parts, f, None, AllRows(steps), None)
  }

  /** Every finished search with this store-side filter over n accounts returns everything. */
  ghost predicate AlwaysComplete(store: StoreFilter, n: nat) {
    forall parts, f: Filter, steps | |parts| == n && WellFormed(parts) && f.store == store
                                     && Session(parts, f, None, steps) && Finished(steps)
      :: Complete(parts, f, steps)
  }

  ghost predicate PagesOf(steps: seq<Step>, size: nat) {
    forall k | 0 <= k < |steps| :: steps[k].limit == size
  }

  /** The same for searches that keep to one page size. */
  ghost predicate CompleteAt(store: StoreFilter, n: nat, size: nat) {
    forall parts, f: Filter, steps | |parts| == n && WellFormed(parts) && f.store == store
                                     && Session(parts, f, None, steps) && Finished(steps) && PagesOf(steps, size)
      :: Complete(parts, f, steps)
  }

  function RowAt(instant: nat, accountId: int, promptId: Option<int>): Row {
    Row(Key(instant, 1), accountId, "m", promptId, "", "")
  }

  /** The rows of account 0, all rejected, one more than a page holds. */
  function Rejected(promptId: Option<int>, size: nat): (rows: seq<Row>)
    ensures |rows| == size + 1 && Descending(rows)
    ensures forall i | 0 <= i <= size :: rows[i] == RowAt(4 + size - i, 0, promptId)
  {
    seq(size + 1, i requires 0 <= i <= size => RowAt(4 + size - i, 0, promptId))
  }

  /** Account 1 has one older row, which the filter accepts, and every other account is empty. */
  function LostParts(rejected: seq<Row>, lost: Row, n: nat): seq<seq<Row>>
    requires n >= 2
  {
    seq(n, i => if i == 0 then rejected else if i == 1 then [lost] else [])
  }

  /** The reads stop at the last but one row of account 0 and at the end of every other account. */
  function LostFetches(rejected: seq<Row>, lost: Row, n: nat, size: nat): seq<Fetch>
    requires n >= 2 && 0 < size < |rejected|
  {
    seq(n, i => if i == 0 then Fetch(rejected[..size], Some(rejected[size - 1].key))
                else if i == 1 then Fetch([lost], None) else Fetch([], None))
  }

  /** What the rejected rows and the lost one are to each other. */
  ghost predicate LostCase(rejected: seq<Row>, lost: Row, n: nat, size: nat) {
    && n >= 2 && size > 0 && |rejected| == size + 1 && Descending(rejected)
    && forall i | 0 <= i < |rejected| :: Less(lost.key, rejected[i].key)
  }

  lemma LostWellFormed(rejected: seq<Row>, lost: Row, n: nat, size: nat)
    requires LostCase(rejected, lost, n, size)
    ensures WellFormed(LostParts(rejected, lost, n))
  {
    var parts := LostParts(rejected, lost, n);
    assert Descending([lost]);
    assert Sorted(parts);
    forall p, q, r: Row, s: Row
      | 0 <= p < |parts| && 0 <= q < |parts| && r in parts[p] && s in parts[q] && r.key == s.key
      ensures p == q && r == s
    {
      LostCell(rejected, lost, n, size, p, r);
      LostCell(rejected, lost, n, size, q, s);
    }
  }

  lemma LostCell(rejected: seq<Row>, lost: Row, n: nat, size: nat, p: nat, r: Row)
    requires LostCase(rejected, lost, n, size) && p < n && r in LostParts(rejected, lost, n)[p]
    ensures (p == 0 && r in rejected && Less(lost.key, r.key)) || (p == 1 && r == lost)
    ensures forall s | s in rejected && s.key == r.key && p == 0 :: s == r
  {
    if p == 0 {
      forall s | s in rejected && s.key == r.key ensures s == r {
        SameKeySameRow(rejected, r, s);
      }
    }
  }

  lemma SameKeySameRow(rows: seq<Row>, r: Row, s: Row)
    requires Descending(rows) && r in rows && s in rows && r.key == s.key
    ensures r == s
  {
  }

  lemma LostRows(store: StoreFilter, n: nat, size: nat) returns (rejected: seq<Row>, lost: Row)
    requires !store.NoStoreFilter? && n >= 2 && size > 0
    ensures LostCase(rejected, lost, n, size)
    ensures PassesStore(store, lost) && forall i | 0 <= i < |rejected| :: !PassesStore(store, rejected[i])
  {
    rejected := Rejected(if store.UnmatchedOnly? then Some(0) else None, size);
    lost := RowAt(3, 1, if store.UnmatchedOnly? then None else Some(store.id));
  }

  lemma LostQueried(rejected: seq<Row>, lost: Row, n: nat, size: nat)
    requires LostCase(rejected, lost, n, size)
    ensures Queried(LostParts(rejected, lost, n), None, size, LostFetches(rejected, lost, n, size))
    ensures Floor(LostFetches(rejected, lost, n, size)) == Some(rejected[size - 1].key)
  {
    var parts, fetches := LostParts(rejected, lost, n), LostFetches(rejected, lost, n, size);
    forall p | 0 <= p < n ensures QueryResult(parts[p], None, size, fetches[p]) {
      LostQuery(rejected, lost, n, size, p);
    }
    FloorBounds(fetches);
    assert fetches[0].last == Some(rejected[size - 1].key);
  }

  lemma LostQuery(rejected: seq<Row>, lost: Row, n: nat, size: nat, p: nat)
    requires LostCase(rejected, lost, n, size) && p < n
    ensures QueryResult(LostParts(rejected, lost, n)[p], None, size, LostFetches(rejected, lost, n, size)[p])
  {
    var part := LostParts(rejected, lost, n)[p];
    assert Below(part, None) == part;
    if p == 0 {
      assert rejected[..size] <= rejected && rejected[..size][size - 1] == rejected[size - 1];
    }
  }

  lemma LostMerge(store: StoreFilter, rejected: seq<Row>, lost: Row, n: nat, size: nat)
    requires LostCase(rejected, lost, n, size)
    requires PassesStore(store, lost) && forall i | 0 <= i < |rejected| :: !PassesStore(store, rejected[i])
    ensures IsMerge(LostFetches(rejected, lost, n, size), store, [lost])
  {
    var fetches := LostFetches(rejected, lost, n, size);
    assert fetches[0].read == rejected[..size] && fetches[1].read == [lost];
    assert lost in fetches[1].read;
    forall r ensures r in [lost] <==> Fetched(fetches, store, r) {
      if p :| 0 <= p < n && r in fetches[p].read && PassesStore(store, r) {
        assert p == 0 ==> r in rejected;
        assert p == 1;
      }
    }
  }

  /** The last rejected row read becomes the floor, the accepted row is all the merge has, and the
      walk stops at once with an empty cursor. */
  lemma LostRow(store: StoreFilter, n: nat, size: nat)
    returns (parts: seq<seq<Row>>, f: Filter, steps: seq<Step>, lost: Row)
    requires !store.NoStoreFilter? && n >= 2 && size > 0
    ensures |parts| == n && WellFormed(parts) && f.store == store
    ensures Session(parts, f, None, steps) && Finished(steps) && PagesOf(steps, size)
    ensures Owed(parts, f, None, None, lost) && AllRows(steps) == []
  {
    var rejected;
    rejected, lost := LostRows(store, n, size);
    parts := LostParts(rejected, lost, n);
    f := Filter(store, r => true);
    var fetches := LostFetches(rejected, lost, n, size);
    LostWellFormed(rejected, lost, n, size);
    LostQueried(rejected, lost, n, size);
    LostMerge(store, rejected, lost, n, size);
    var step := Step(size, fetches, [lost], Page([], None, Scanned(fetches)));
    LostStep(parts, f, step);
    steps := [step];
    OnePageSession(parts, f, step);
    LostIsOwed(parts, f, lost);
  }

  lemma LostIsOwed(parts: seq<seq<Row>>, f: Filter, lost: Row)
    requires |parts| >= 2 && parts[1] == [lost] && Matches(f, lost)
    ensures Owed(parts, f, None, None, lost)
  {
    assert lost in parts[1];
  }

  lemma OnePageSession(parts: seq<seq<Row>>, f: Filter, step: Step)
    requires ValidStep(parts, f, None, step) && step.page.next.None?
    ensures Session(parts, f, None, [step]) && Finished([step]) && PagesOf([step], step.limit)
    ensures AllRows([step]) == step.page.rows
  {
    assert [step][1..] == [];
    assert AllRows([step]) == step.page.rows + [];
  }

  lemma LostStep(parts: seq<seq<Row>>, f: Filter, step: Step)
    requires step.limit > 0 && Queried(parts, None, step.limit, step.fetches)
             && IsMerge(step.fetches, f.store, step.all)
    requires Stalled(step.all, Floor(step.fetches))
    requires step.page == Page([], None, Scanned(step.fetches))
    ensures ValidStep(parts, f, None, step)
  {
    assert Examined(step.all, f.text, step.limit, Floor(step.fetches)) == 0;
    assert step.all[..0] == [];
  }

  /** Which searches can be trusted: those without a store-side filter and those over at most
      one account, and no others, whatever the page sizes and at each single one. */
  lemma CompleteExactly(store: StoreFilter, n: nat)
    ensures AlwaysComplete(store, n) <==> store.NoStoreFilter? || n <= 1
    ensures forall size: nat | size > 0 :: CompleteAt(store, n, size) <==> store.NoStoreFilter? || n <= 1
  {
    if store.NoStoreFilter? || n <= 1 {
      forall parts, f: Filter, steps |
        |parts| == n && WellFormed(parts) && f.store == store && Session(parts, f, None, steps) && Finished(steps)
        ensures Complete(parts, f, steps)
      {
        SessionLossless(parts, f, None, steps);
      }
      assert AlwaysComplete(store, n);
    } else {
      forall size: nat | size > 0 ensures !CompleteAt(store, n, size) && !AlwaysComplete(store, n) {
        var parts, f, steps, lost := LostRow(store, n, size);
        assert !Complete(parts, f, steps) by {
          assert lost !in AllRows(steps);
        }
      }
      assert !CompleteAt(store, n, 1);
    }
  }

  // ---------------------------------------------------------------- GetHistoryFiltered

  ghost predicate DistinctKeys(rows: seq<Row>) {
    forall i, j :: 0 <= i < j < |rows| ==> rows[i].key != rows[j].key
  }

  function Insert(r: Row, rows: seq<Row>): seq<Row> {
    if rows == [] || Less(rows[0].key, r.key) then [r] + rows else [rows[0]] + Insert(r, rows[1..])
  }

  /** The merge sort: newest timestamp first, then highest id. */
  function NewestFirst(rows: seq<Row>): seq<Row> {
    if rows == [] then [] else Insert(rows[0], NewestFirst(rows[1..]))
  }

  lemma {:induction false} InsertSorts(r: Row, rows: seq<Row>)
    requires Descending(rows) && forall s :: s in rows ==> s.key != r.key
    ensures Descending(Insert(r, rows))
    ensures forall s :: s in Insert(r, rows) <==> s == r || s in rows
  {
    if rows != [] && !Less(rows[0].key, r.key) {
      InsertSorts(r, rows[1..]);
      var rest := Insert(r, rows[1..]);
      forall i | 0 <= i < |rest| ensures Less(rest[i].key, rows[0].key) {
        assert rest[i] in rest;
        assert rest[i] == r || rest[i] in rows[1..];
        assert r.key != rows[0].key;
      }
      assert rows == [rows[0]] + rows[1..];
    }
  }

  lemma {:induction false} NewestFirstSorts(rows: seq<Row>)
    requires DistinctKeys(rows)
    ensures Descending(NewestFirst(rows))
    ensures forall s :: s in NewestFirst(rows) <==> s in rows
  {
    if rows != [] {
      NewestFirstSorts(rows[1..]);
      InsertSorts(rows[0], NewestFirst(rows[1..]));
      assert rows == [rows[0]] + rows[1..];
    }
  }

  function Query(part: seq<Row>, cursor: Option<Key>, limit: nat): (fetch: Fetch)
    requires limit > 0
    ensures QueryResult(part, cursor, limit, fetch)
  {
    var below := Below(part, cursor);
    if |below| > limit then Fetch(below[..limit], Some(below[limit - 1].key)) else Fetch(below, None)
  }

  function Kept(rows: seq<Row>, store: StoreFilter): seq<Row> {
    Select(rows, r => PassesStore(store, r))
  }

  lemma {:induction false} KeptMembers(rows: seq<Row>, store: StoreFilter)
    ensures forall r :: r in Kept(rows, store) <==> r in rows && PassesStore(store, r)
  {
    if rows != [] {
      var n := |rows| - 1;
      KeptMembers(rows[..n], store);
      assert rows == rows[..n] + [rows[n]];
    }
  }

  lemma JoinDistinct(parts: seq<seq<Row>>, a: nat, all: seq<Row>, rows: seq<Row>)
    requires WellFormed(parts) && a < |parts|
    requires DistinctKeys(all) && forall r :: r in all ==> exists p :: 0 <= p < a && r in parts[p]
    requires Descending(rows) && forall r :: r in rows ==> r in parts[a]
    ensures DistinctKeys(all + rows)
  {
    var both := all + rows;
    forall i, j | 0 <= i < j < |both| ensures both[i].key != both[j].key {
      if i < |all| <= j {
        assert both[i] in all && both[j] in rows;
        var p :| 0 <= p < a && both[i] in parts[p];
      } else if |all| <= i {
        assert Less(rows[j - |all|].key, rows[i - |all|].key);
      }
    }
  }

  const DEFAULT_PAGE_SIZE := 50

  /** One page of `GetHistoryFiltered`: a bounded query per account, the store-side filter
      after it, then the merge and the cut. */
  method GetHistoryFiltered(parts: seq<seq<Row>>, f: Filter, cursor: Option<Key>, limit: int) returns (page: Page)
    requires WellFormed(parts)
    ensures exists step :: ValidStep(parts, f, cursor, step) && step.page == page
              && step.limit == if limit <= 0 then 50 else limit
  {
    var pageSize: nat := if limit <= 0 then DEFAULT_PAGE_SIZE else limit;
    var all: seq<Row> := [];
    var scanned := 0;
    var floor: Option<Key> := None;
    ghost var fetches: seq<Fetch> := [];
    var a := 0;
    while a < |parts|
      invariant 0 <= a <= |parts| && |fetches| == a
      invariant forall p :: 0 <= p < a ==> QueryResult(parts[p], cursor, pageSize, fetches[p])
      invariant floor == Floor(fetches) && scanned == Scanned(fetches)
      invariant DistinctKeys(all) && forall r :: r in all ==> exists p :: 0 <= p < a && r in parts[p]
      invariant forall r :: r in all <==> Fetched(fetches, f.store, r)
    {
      var fetch := Query(parts[a], cursor, pageSize);
      var kept := Kept(fetch.read, f.store);
      ghost var before := fetches;
      fetches := fetches + [fetch];
      assert fetches[..a] == before;
      FetchJoins(parts, f.store, cursor, pageSize, a, all, before, fetch);
      all := all + kept;
      scanned := scanned + |fetch.read|;
      floor := Newer(floor, fetch.last);
      a := a + 1;
    }
    NewestFirstSorts(all);
    all := NewestFirst(all);
    var rows, next := HistoryMergeCut(all, f.text, pageSize, floor);
    page := Page(rows, next, scanned);
    assert ValidStep(parts, f, cursor, Step(pageSize, fetches, all, page));
  }

  lemma PartitionRows(part: seq<Row>, cursor: Option<Key>, limit: nat, fetch: Fetch, store: StoreFilter)
    requires Descending(part) && QueryResult(part, cursor, limit, fetch)
    ensures Descending(Kept(fetch.read, store))
    ensures forall r :: r in Kept(fetch.read, store) <==> r in fetch.read && PassesStore(store, r)
    ensures forall r :: r in fetch.read ==> r in part
  {
    BelowMembers(part, cursor);
    var below := Below(part, cursor);
    assert forall i :: 0 <= i < |fetch.read| ==> fetch.read[i] == below[i];
    SelectMembers(fetch.read, r => PassesStore(store, r));
    KeptMembers(fetch.read, store);
    forall r | r in fetch.read ensures r in part { assert r in below; }
  }

  /** One more account's rows. */
  lemma FetchJoins(parts: seq<seq<Row>>, store: StoreFilter, cursor: Option<Key>, limit: nat, a: nat, all: seq<Row>,
                   fetches: seq<Fetch>, fetch: Fetch)
    requires WellFormed(parts) && a < |parts| && QueryResult(parts[a], cursor, limit, fetch)
    requires DistinctKeys(all) && forall r :: r in all ==> exists p :: 0 <= p < a && r in parts[p]
    requires forall r :: r in all <==> Fetched(fetches, store, r)
    ensures var more := all + Kept(fetch.read, store);
            && DistinctKeys(more) && (forall r :: r in more ==> exists p :: 0 <= p < a + 1 && r in parts[p])
            && (forall r :: r in more <==> Fetched(fetches + [fetch], store, r))
  {
    PartitionRows(parts[a], cursor, limit, fetch, store);
    JoinDistinct(parts, a, all, Kept(fetch.read, store));
    FetchedGrows(fetches, fetch, store);
  }

  lemma FetchedGrows(fetches: seq<Fetch>, fetch: Fetch, store: StoreFilter)
    ensures forall r :: Fetched(fetches + [fetch], store, r)
              <==> Fetched(fetches, store, r) || (r in fetch.read && PassesStore(store, r))
  {
    var more := fetches + [fetch];
    forall r
      ensures Fetched(more, store, r) <==> Fetched(fetches, store, r) || (r in fetch.read && PassesStore(store, r))
    {
      if Fetched(fetches, store, r) {
        var p :| 0 <= p < |fetches| && r in fetches[p].read;
        assert more[p] == fetches[p];
      }
      if r in fetch.read && PassesStore(store, r) {
        assert more[|fetches|] == fetch;
      }
    }
  }

  // ---------------------------------------------------------------- the scroll budget

  /** `historyPageLimit`: None when the ceiling was reached before this request; otherwise the page
      size, or what is left if that is less. */
  function PageLimit(pageSize: nat, maxLimit: nat, loaded: nat): (limit: Option<nat>)
    requires pageSize > 0
    ensures limit.Some? <==> loaded < maxLimit
    ensures limit.Some? ==> 0 < limit.value <= pageSize && loaded + limit.value <= maxLimit
    ensures limit.Some? ==> limit.value == pageSize || loaded + limit.value == maxLimit
  {
    if maxLimit <= loaded then None
    else if pageSize < maxLimit - loaded then Some(pageSize) else Some(maxLimit - loaded)
  }

  /** What stands at the end of a rendered page: nothing, a link the browser follows on its own, or
      a button to continue; `loaded` is the count in its address. */
  datatype Link = NoLink | Auto(loaded: nat) | Button(loaded: nat)

  function LinkAfter(maxLimit: nat, loaded: nat, page: Page): Link {
    if page.next.None? then NoLink
    else if loaded + page.scanned >= maxLimit then Button(0) else Auto(loaded + page.scanned)
  }

  /** One request: its page, if the ceiling was not already reached, and what stands at its end. */
  method HandleHistory(parts: seq<seq<Row>>, f: Filter, cursor: Option<Key>, loaded: nat, pageSize: nat, maxLimit: nat)
    returns (page: Option<Page>, link: Link)
    requires WellFormed(parts) && pageSize > 0
    ensures loaded >= maxLimit ==> page == None && link == if cursor.Some? then Button(0) else NoLink
    ensures loaded < maxLimit ==> exists step ::
              ValidStep(parts, f, cursor, step) && page == Some(step.page)
              && PageLimit(pageSize, maxLimit, loaded) == Some(step.limit)
              && link == LinkAfter(maxLimit, loaded, step.page)
  {
    var limit := PageLimit(pageSize, maxLimit, loaded);
    if limit.None? {
      return None, if cursor.Some? then Button(0) else NoLink;
    }
    var read := GetHistoryFiltered(parts, f, cursor, limit.value);
    page, link := Some(read), NoLink;
    if read.next.Some? {
      if loaded + read.scanned >= maxLimit {
        link := Button(0);
      } else {
        link := Auto(loaded + read.scanned);
      }
    }
  }

  datatype Visit = Visit(step: Step, link: Link)

  /** A browser that follows every link it is given, and presses every button. */
  ghost predicate Scroll(parts: seq<seq<Row>>, f: Filter, cursor: Option<Key>, loaded: nat,
                         pageSize: nat, maxLimit: nat, visits: seq<Visit>)
    requires pageSize > 0
    decreases |visits|
  {
    visits == [] ||
    (var (step, link) := (visits[0].step, visits[0].link);
     && ValidStep(parts, f, cursor, step)
     && PageLimit(pageSize, maxLimit, loaded) == Some(step.limit)
     && link == LinkAfter(maxLimit, loaded, step.page)
     && (if link.NoLink? then |visits| == 1
         else Scroll(parts, f, step.page.next, link.loaded, pageSize, maxLimit, visits[1..])))
  }

  function StepsOf(visits: seq<Visit>): seq<Step> {
    if visits == [] then [] else [visits[0].step] + StepsOf(visits[1..])
  }

  /** The budget changes page sizes only: every scroll is a paging session, so everything
      proved of sessions holds of it. */
  lemma {:induction false} ScrollIsSession(parts: seq<seq<Row>>, f: Filter, cursor: Option<Key>, loaded: nat,
                                           pageSize: nat, maxLimit: nat, visits: seq<Visit>)
    requires pageSize > 0 && Scroll(parts, f, cursor, loaded, pageSize, maxLimit, visits)
    ensures Session(parts, f, cursor, StepsOf(visits))
    decreases |visits|
  {
    if visits != [] {
      assert StepsOf(visits)[1..] == StepsOf(visits[1..]);
      if visits[0].step.page.next.Some? {
        ScrollIsSession(parts, f, visits[0].step.page.next, visits[0].link.loaded, pageSize, maxLimit, visits[1..]);
      } else {
        assert visits[1..] == [];
      }
    }
  }

  lemma {:induction false} ScannedAtMost(fetches: seq<Fetch>, limit: nat)
    requires forall p :: 0 <= p < |fetches| ==> |fetches[p].read| <= limit
    ensures Scanned(fetches) <= |fetches| * limit
  {
    if fetches != [] {
      ScannedAtMost(fetches[..|fetches| - 1], limit);
      assert (|fetches| - 1) * limit + limit == |fetches| * limit;
    }
  }

  /** The rows read on visits a to b. */
  function RowsRead(visits: seq<Visit>, a: nat, b: nat): nat
    requires a <= b <= |visits|
  {
    if a == b then 0 else RowsRead(visits, a, b - 1) + visits[b - 1].step.page.scanned
  }

  /** Since visit a the browser has gone on by itself, and it began there or pressed a button. */
  predicate Unattended(visits: seq<Visit>, a: nat, k: nat)
    requires a <= k < |visits|
  {
    (a == 0 || visits[a - 1].link.Button?) && forall i | a <= i < k :: visits[i].link.Auto?
  }

  /** The count with which visit k is made. */
  function CountAt(visits: seq<Visit>, k: nat): nat
    requires k <= |visits| && forall i | 0 <= i < k :: !visits[i].link.NoLink?
  {
    if k == 0 then 0 else visits[k - 1].link.loaded
  }

  /** Visit k of a scroll, wherever it began. */
  lemma {:induction false} VisitAt(parts: seq<seq<Row>>, f: Filter, cursor: Option<Key>, loaded: nat,
                                   pageSize: nat, maxLimit: nat, visits: seq<Visit>, k: nat)
    requires pageSize > 0 && Scroll(parts, f, cursor, loaded, pageSize, maxLimit, visits) && k < |visits|
    ensures forall i | 0 <= i < k :: !visits[i].link.NoLink?
    ensures var count := if k == 0 then loaded else visits[k - 1].link.loaded;
            && (exists c :: ValidStep(parts, f, c, visits[k].step))
            && PageLimit(pageSize, maxLimit, count) == Some(visits[k].step.limit)
            && visits[k].link == LinkAfter(maxLimit, count, visits[k].step.page)
    decreases |visits|
  {
    if k > 0 {
      var link := visits[0].link;
      VisitAt(parts, f, visits[0].step.page.next, link.loaded, pageSize, maxLimit, visits[1..], k - 1);
      assert forall i | 1 <= i <= k :: visits[i] == visits[1..][i - 1];
    }
  }

  lemma LinkAt(parts: seq<seq<Row>>, f: Filter, pageSize: nat, maxLimit: nat, visits: seq<Visit>, k: nat)
    requires pageSize > 0 && Scroll(parts, f, None, 0, pageSize, maxLimit, visits) && k < |visits|
    ensures forall i | 0 <= i < k :: !visits[i].link.NoLink?
    ensures visits[k].link == LinkAfter(maxLimit, CountAt(visits, k), visits[k].step.page)
  {
    VisitAt(parts, f, None, 0, pageSize, maxLimit, visits, k);
  }

  lemma CountStep(parts: seq<seq<Row>>, f: Filter, pageSize: nat, maxLimit: nat, visits: seq<Visit>, k: nat)
    requires pageSize > 0 && Scroll(parts, f, None, 0, pageSize, maxLimit, visits) && k < |visits|
    ensures forall i | 0 <= i < k :: !visits[i].link.NoLink?
    ensures k > 0 && visits[k - 1].link.Button? ==> CountAt(visits, k) == 0
    ensures k > 0 && visits[k - 1].link.Auto? ==>
              CountAt(visits, k) == CountAt(visits, k - 1) + visits[k - 1].step.page.scanned
  {
    LinkAt(parts, f, pageSize, maxLimit, visits, k);
    if k > 0 {
      LinkAt(parts, f, pageSize, maxLimit, visits, k - 1);
    }
  }

  /** The count on every link is what was read since the last button. */
  lemma {:induction false} CountIsRowsRead(parts: seq<seq<Row>>, f: Filter, pageSize: nat, maxLimit: nat,
                                           visits: seq<Visit>, a: nat, k: nat)
    requires pageSize > 0 && Scroll(parts, f, None, 0, pageSize, maxLimit, visits)
    requires a <= k < |visits| && Unattended(visits, a, k)
    ensures forall i | 0 <= i < k :: !visits[i].link.NoLink?
    ensures CountAt(visits, k) == RowsRead(visits, a, k)
    decreases k
  {
    CountStep(parts, f, pageSize, maxLimit, visits, k);
    if a < k {
      CountIsRowsRead(parts, f, pageSize, maxLimit, visits, a, k - 1);
    }
  }

  /** A whole scroll. A page asks each account for a page's worth, or for what the ceiling leaves. A
      button follows it exactly when the rows read since the last one reach the ceiling, and until
      then they are at most the ceiling for each account. */
  lemma BurstBounded(parts: seq<seq<Row>>, f: Filter, pageSize: nat, maxLimit: nat, visits: seq<Visit>, a: nat, k: nat)
    requires pageSize > 0 && parts != [] && Scroll(parts, f, None, 0, pageSize, maxLimit, visits)
    requires a <= k < |visits| && Unattended(visits, a, k)
    ensures var visit, before, after := visits[k], RowsRead(visits, a, k), RowsRead(visits, a, k + 1);
            && before < maxLimit
            && visit.step.limit == (if before + pageSize <= maxLimit then pageSize else maxLimit - before)
            && (visit.link.NoLink? <==> visit.step.page.next.None?)
            && (visit.link.Button? <==> visit.step.page.next.Some? && after >= maxLimit)
            && after <= |parts| * maxLimit
  {
    VisitAt(parts, f, None, 0, pageSize, maxLimit, visits, k);
    CountIsRowsRead(parts, f, pageSize, maxLimit, visits, a, k);
    var step := visits[k].step;
    var c :| ValidStep(parts, f, c, step);
    forall p | 0 <= p < |parts| ensures |step.fetches[p].read| <= step.limit {
      assert QueryResult(parts[p], c, step.limit, step.fetches[p]);
    }
    ScannedAtMost(step.fetches, step.limit);
    BurstArithmetic(|parts|, maxLimit, RowsRead(visits, a, k), step.limit);
  }

  lemma BurstArithmetic(n: nat, maxLimit: nat, loaded: nat, limit: nat)
    requires n > 0 && loaded + limit <= maxLimit
    ensures loaded + n * limit <= n * maxLimit
  {
    assert n * (loaded + limit) <= n * maxLimit;
    assert n * (loaded + limit) == n * loaded + n * limit;
    assert loaded <= n * loaded;
  }
}
