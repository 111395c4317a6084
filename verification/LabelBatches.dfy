/**
 Applying label changes in bulk (gmail/client.go, `BatchModifyEmails`, `postBatchModify`).

 Changes with the same joined add and remove lists become one request, the groups go out in
 whatever order the map yields them, and each goes out in chunks of at most 1000 ids.
 `OrderFreeExactly` says when that is the same as applying the changes one by one: for a
 message and a label, in every order of the groups, exactly when no change adds the label to
 the message while another takes it away.
 */
module LabelBatches {
  const CHUNK := 1000

  datatype Modify = Modify(ids: seq<string>, add: seq<string>, remove: seq<string>)

  predicate Adds(r: Modify, m: string, l: string) {
    m in r.ids && l in r.add
  }

  predicate Removes(r: Modify, m: string, l: string) {
    m in r.ids && l in r.remove && l !in r.add
  }

  /** Whether message `m` carries label `l` after the requests, having had it or not before. */
  function Outcome(requests: seq<Modify>, has: bool, m: string, l: string): bool {
    if requests == [] then has
    else
      var r, before := requests[|requests| - 1], Outcome(requests[..|requests| - 1], has, m, l);
      Adds(r, m, l) || (before && !Removes(r, m, l))
  }

  predicate SomeAdds(requests: seq<Modify>, m: string, l: string) {
    exists r | r in requests :: Adds(r, m, l)
  }

  predicate SomeRemoves(requests: seq<Modify>, m: string, l: string) {
    exists r | r in requests :: Removes(r, m, l)
  }

  predicate Conflict(requests: seq<Modify>, m: string, l: string) {
    SomeAdds(requests, m, l) && SomeRemoves(requests, m, l)
  }

  lemma {:induction false} OutcomeWithoutConflict(requests: seq<Modify>, has: bool, m: string, l: string)
    requires !Conflict(requests, m, l)
    ensures Outcome(requests, has, m, l)
            == (SomeAdds(requests, m, l) || (has && !SomeRemoves(requests, m, l)))
  {
    if requests != [] {
      var before, r := requests[..|requests| - 1], requests[|requests| - 1];
      assert requests == before + [r];
      assert r in requests;
      assert forall x | x in before :: x in requests;
      OutcomeWithoutConflict(before, has, m, l);
    }
  }

  // ---------------------------------------------------------------- joined keys

  function Join(labels: seq<string>): string {
    if labels == [] then ""
    else if |labels| == 1 then labels[0]
    else labels[0] + "," + Join(labels[1..])
  }

  predicate Plain(id: string) {
    id != "" && ',' !in id
  }

  predicate AllPlain(labels: seq<string>) {
    forall k | 0 <= k < |labels| :: Plain(labels[k])
  }

  predicate PlainModify(mod: Modify) {
    AllPlain(mod.add) && AllPlain(mod.remove)
  }

  lemma FirstComma(x: string, xs: string, y: string, ys: string)
    requires ',' !in x && ',' !in y && x + xs == y + ys
    requires xs == "" || xs[0] == ','
    requires ys == "" || ys[0] == ','
    ensures x == y && xs == ys
  {
    var z := x + xs;
    assert z[..|x|] == x && z[..|y|] == y && z[|x|..] == xs && z[|y|..] == ys;
    assert forall k | 0 <= k < |x| :: x[k] in x;
    assert forall k | 0 <= k < |y| :: y[k] in y;
  }

  function Tail(labels: seq<string>): string {
    if |labels| <= 1 then "" else "," + Join(labels[1..])
  }

  lemma JoinParts(a: seq<string>)
    ensures a != [] ==> Join(a) == a[0] + Tail(a)
    ensures |a| > 1 ==> Tail(a)[1..] == Join(a[1..])
  {
    if |a| == 1 {
      assert a[0] + "" == a[0];
    }
  }

  /** The text cut at its commas. */
  function Split(s: string): (parts: seq<string>)
    ensures |parts| > 0
  {
    if s == "" then [""]
    else
      var rest := Split(s[1..]);
      if s[0] == ',' then [""] + rest else [[s[0]] + rest[0]] + rest[1..]
  }

  /** What every label id falls into at its commas; no label at all reads as one empty id. */
  function Pieces(labels: seq<string>): seq<string> {
    if labels == [] then [""] else if |labels| == 1 then Split(labels[0]) else Split(labels[0]) + Pieces(labels[1..])
  }

  lemma {:induction false} JoinSplit(s: string)
    ensures Join(Split(s)) == s
  {
    if s != "" {
      JoinSplit(s[1..]);
      var parts := Split(s[1..]);
      JoinComma(parts);
      JoinFirst(s[0], parts[0], parts[1..]);
      assert parts == [parts[0]] + parts[1..];
      assert s == [s[0]] + s[1..];
    }
  }

  lemma JoinComma(rest: seq<string>)
    requires rest != []
    ensures Join([""] + rest) == "," + Join(rest)
  {
    assert ([""] + rest)[1..] == rest;
    assert "" + "," + Join(rest) == "," + Join(rest);
  }

  lemma JoinFirst(c: char, first: string, rest: seq<string>)
    ensures Join([[c] + first] + rest) == [c] + Join([first] + rest)
  {
    assert ([[c] + first] + rest)[1..] == rest && ([first] + rest)[1..] == rest;
    if rest != [] {
      assert ([c] + first) + "," + Join(rest) == [c] + (first + "," + Join(rest));
    }
  }

  lemma {:induction false} SplitAtComma(x: string, y: string)
    ensures Split(x + "," + y) == Split(x) + Split(y)
  {
    var all := x + "," + y;
    if x == "" {
      assert all[1..] == y;
    } else {
      assert all[1..] == x[1..] + "," + y;
      SplitAtComma(x[1..], y);
    }
  }

  lemma {:induction false} SplitOfJoin(labels: seq<string>)
    ensures Split(Join(labels)) == Pieces(labels)
  {
    if |labels| > 1 {
      SplitOfJoin(labels[1..]);
      SplitAtComma(labels[0], Join(labels[1..]));
    }
  }

  /** Two label lists share a key exactly when they fall into the same pieces. */
  lemma KeysCollideExactly(a: seq<string>, b: seq<string>)
    ensures Join(a) == Join(b) <==> Pieces(a) == Pieces(b)
  {
    SplitOfJoin(a);
    SplitOfJoin(b);
    JoinSplit(Join(a));
    JoinSplit(Join(b));
  }

  /** On label ids that are non-empty and hold no comma, equal keys mean equal lists. */
  lemma {:induction false} JoinInjective(a: seq<string>, b: seq<string>)
    requires AllPlain(a) && AllPlain(b) && Join(a) == Join(b)
    ensures a == b
  {
    if a != [] {
      assert Plain(a[0]);
    }
    if b != [] {
      assert Plain(b[0]);
    }
    JoinParts(a);
    JoinParts(b);
    if a != [] && b != [] {
      FirstComma(a[0], Tail(a), b[0], Tail(b));
      if |a| > 1 && |b| > 1 {
        JoinInjective(a[1..], b[1..]);
        assert a == [a[0]] + a[1..] && b == [b[0]] + b[1..];
      }
    }
  }

  // ---------------------------------------------------------------- groups

  type Key = (string, string)

  function KeyOf(mod: Modify): Key {
    (Join(mod.add), Join(mod.remove))
  }

  function Grouped(mods: seq<Modify>): map<Key, Modify> {
    if mods == [] then map[]
    else
      var groups, mod := Grouped(mods[..|mods| - 1]), mods[|mods| - 1];
      var k := KeyOf(mod);
      if k in groups then groups[k := groups[k].(ids := groups[k].ids + mod.ids)] else groups[k := mod]
  }

  /** Plain changes share a request group exactly when they add and remove the same labels. */
  lemma SameGroupExactly(a: Modify, b: Modify)
    requires PlainModify(a) && PlainModify(b)
    ensures KeyOf(a) == KeyOf(b) <==> a.add == b.add && a.remove == b.remove
  {
    if KeyOf(a) == KeyOf(b) {
      JoinInjective(a.add, b.add);
      JoinInjective(a.remove, b.remove);
    }
  }

  lemma {:induction false} GroupLabels(mods: seq<Modify>, k: Key)
    requires forall mod | mod in mods :: PlainModify(mod)
    requires k in Grouped(mods)
    ensures PlainModify(Grouped(mods)[k]) && KeyOf(Grouped(mods)[k]) == k
  {
    var before, mod := mods[..|mods| - 1], mods[|mods| - 1];
    assert mod in mods;
    assert forall x | x in before :: x in mods;
    if k in Grouped(before) {
      GroupLabels(before, k);
    }
  }

  lemma {:induction false} GroupMembers(mods: seq<Modify>, k: Key, m: string)
    ensures k in Grouped(mods) && m in Grouped(mods)[k].ids
            <==> exists mod | mod in mods :: KeyOf(mod) == k && m in mod.ids
  {
    if mods != [] {
      var before, mod := mods[..|mods| - 1], mods[|mods| - 1];
      assert mods == before + [mod];
      GroupMembers(before, k, m);
    }
  }

  /** Each group once, except those still to do. */
  ghost predicate Reached(groups: map<Key, Modify>, keys: seq<Key>, todo: set<Key>) {
    && (forall i, j | 0 <= i < j < |keys| :: keys[i] != keys[j])
    && (forall k :: k in keys <==> k in groups && k !in todo)
    && todo <= groups.Keys
  }

  ghost predicate IsOrder(keys: seq<Key>, groups: map<Key, Modify>) {
    Reached(groups, keys, {})
  }

  function GroupAt(groups: map<Key, Modify>, k: Key): Modify {
    if k in groups then groups[k] else Modify([], [], [])
  }

  function Requests(groups: map<Key, Modify>, keys: seq<Key>): seq<Modify> {
    if keys == [] then []
    else Requests(groups, keys[..|keys| - 1]) + Chunks(GroupAt(groups, keys[|keys| - 1]))
  }

  /** One group's requests: its ids in runs of 1000, the last one shorter, and none when it is
      empty. */
  function Chunks(r: Modify): seq<Modify>
    decreases |r.ids|
  {
    if r.ids == [] then [] else [FirstChunk(r)] + Chunks(AfterChunk(r))
  }

  function FirstChunk(r: Modify): Modify {
    r.(ids := if |r.ids| > CHUNK then r.ids[..CHUNK] else r.ids)
  }

  function AfterChunk(r: Modify): Modify {
    r.(ids := if |r.ids| > CHUNK then r.ids[CHUNK..] else [])
  }

  /** The request carries the k-th thousand of the ids, or what is left of them. */
  predicate IsThousand(c: Modify, r: Modify, k: nat) {
    && c.add == r.add && c.remove == r.remove && 1000 * k < |r.ids|
    && |c.ids| == (if 1000 * (k + 1) < |r.ids| then 1000 else |r.ids| - 1000 * k)
    && forall i | 0 <= i < |c.ids| :: c.ids[i] == r.ids[1000 * k + i]
  }

  lemma AfterFirst(r: Modify) returns (rest: Modify)
    requires |Chunks(r)| > 1
    ensures rest.add == r.add && rest.remove == r.remove && |r.ids| > 1000 && |rest.ids| == |r.ids| - 1000
    ensures forall i | 0 <= i < |rest.ids| :: rest.ids[i] == r.ids[1000 + i]
    ensures Chunks(r)[1..] == Chunks(rest)
  {
    rest := AfterChunk(r);
  }

  lemma NextThousand(c: Modify, r: Modify, rest: Modify, k: nat)
    requires IsThousand(c, rest, k) && rest.add == r.add && rest.remove == r.remove
    requires |r.ids| > 1000 && |rest.ids| == |r.ids| - 1000
    requires forall i | 0 <= i < |rest.ids| :: rest.ids[i] == r.ids[1000 + i]
    ensures IsThousand(c, r, k + 1)
  {
    forall i | 0 <= i < |c.ids| ensures c.ids[i] == r.ids[1000 * (k + 1) + i] {
      assert rest.ids[1000 * k + i] == r.ids[1000 + (1000 * k + i)];
    }
  }

  lemma {:induction false} ChunkAt(r: Modify, k: nat)
    requires k < |Chunks(r)|
    ensures IsThousand(Chunks(r)[k], r, k)
    decreases k
  {
    if k > 0 {
      var rest := AfterFirst(r);
      ChunkAt(rest, k - 1);
      assert Chunks(r)[k] == Chunks(r)[1..][k - 1];
      NextThousand(Chunks(r)[k], r, rest, k - 1);
    }
  }

  lemma {:induction false} ChunkCount(r: Modify)
    ensures 1000 * (|Chunks(r)| - 1) < |r.ids| || r.ids == []
    ensures |r.ids| <= 1000 * |Chunks(r)|
    decreases |r.ids|
  {
    if r.ids != [] {
      ChunkCount(AfterChunk(r));
    }
  }

  lemma {:induction false} ChunksSmall(r: Modify)
    ensures forall c | c in Chunks(r) :: 0 < |c.ids| <= CHUNK
    decreases |r.ids|
  {
    if r.ids != [] {
      ChunksSmall(AfterChunk(r));
    }
  }

  lemma {:induction false} ChunkLabels(r: Modify)
    ensures forall c | c in Chunks(r) :: c.add == r.add && c.remove == r.remove
    decreases |r.ids|
  {
    if r.ids != [] {
      ChunkLabels(AfterChunk(r));
    }
  }

  lemma {:induction false} ChunkMembers(r: Modify, m: string)
    ensures m in r.ids <==> exists c :: c in Chunks(r) && m in c.ids
    decreases |r.ids|
  {
    if r.ids != [] {
      var first, rest := FirstChunk(r), AfterChunk(r);
      ChunkMembers(rest, m);
      assert r.ids == first.ids + rest.ids;
      assert Chunks(r) == [first] + Chunks(rest);
      assert Chunks(r)[0] == first;
    }
  }

  lemma ChunksSame(r: Modify, m: string, l: string)
    ensures SomeAdds(Chunks(r), m, l) <==> Adds(r, m, l)
    ensures SomeRemoves(Chunks(r), m, l) <==> Removes(r, m, l)
    ensures m in r.ids <==> exists c :: c in Chunks(r) && m in c.ids
    ensures forall c | c in Chunks(r) && m in c.ids ::
            Adds(c, m, l) == Adds(r, m, l) && Removes(c, m, l) == Removes(r, m, l)
  {
    ChunkMembers(r, m);
    ChunkLabels(r);
    if m in r.ids {
      var c :| c in Chunks(r) && m in c.ids;
      assert Adds(c, m, l) == Adds(r, m, l) && Removes(c, m, l) == Removes(r, m, l);
    }
  }

  lemma {:induction false} RequestsSame(groups: map<Key, Modify>, keys: seq<Key>, m: string, l: string)
    requires forall k | k in keys :: k in groups
    ensures SomeAdds(Requests(groups, keys), m, l) <==> exists k | k in keys :: Adds(groups[k], m, l)
    ensures SomeRemoves(Requests(groups, keys), m, l) <==> exists k | k in keys :: Removes(groups[k], m, l)
  {
    if keys != [] {
      var before, last := keys[..|keys| - 1], keys[|keys| - 1];
      assert keys == before + [last];
      RequestsSame(groups, before, m, l);
      ChunksSame(groups[last], m, l);
    }
  }

  lemma GroupOf(mods: seq<Modify>, mod: Modify, m: string)
    requires forall x | x in mods :: PlainModify(x)
    requires mod in mods && m in mod.ids
    ensures KeyOf(mod) in Grouped(mods)
    ensures var r := Grouped(mods)[KeyOf(mod)]; m in r.ids && r.add == mod.add && r.remove == mod.remove
  {
    var k := KeyOf(mod);
    GroupMembers(mods, k, m);
    GroupLabels(mods, k);
    JoinInjective(Grouped(mods)[k].add, mod.add);
    JoinInjective(Grouped(mods)[k].remove, mod.remove);
  }

  lemma ChangeBehind(mods: seq<Modify>, k: Key, m: string) returns (mod: Modify)
    requires forall x | x in mods :: PlainModify(x)
    requires k in Grouped(mods) && m in Grouped(mods)[k].ids
    ensures mod in mods && m in mod.ids
    ensures mod.add == Grouped(mods)[k].add && mod.remove == Grouped(mods)[k].remove
  {
    GroupMembers(mods, k, m);
    mod :| mod in mods && KeyOf(mod) == k && m in mod.ids;
    GroupOf(mods, mod, m);
  }

  /** A group stands for exactly the changes that share its labels. */
  lemma GroupsSame(mods: seq<Modify>, m: string, l: string)
    requires forall mod | mod in mods :: PlainModify(mod)
    ensures SomeAdds(mods, m, l) <==> exists k | k in Grouped(mods) :: Adds(Grouped(mods)[k], m, l)
    ensures SomeRemoves(mods, m, l) <==> exists k | k in Grouped(mods) :: Removes(Grouped(mods)[k], m, l)
  {
    var groups := Grouped(mods);
    if mod :| mod in mods && Adds(mod, m, l) {
      GroupOf(mods, mod, m);
      assert Adds(groups[KeyOf(mod)], m, l);
    }
    if mod :| mod in mods && Removes(mod, m, l) {
      GroupOf(mods, mod, m);
      assert Removes(groups[KeyOf(mod)], m, l);
    }
    if k :| k in groups && Adds(groups[k], m, l) {
      var mod := ChangeBehind(mods, k, m);
      assert Adds(mod, m, l);
    }
    if k :| k in groups && Removes(groups[k], m, l) {
      var mod := ChangeBehind(mods, k, m);
      assert Removes(mod, m, l);
    }
  }

  lemma SentSame(mods: seq<Modify>, keys: seq<Key>, m: string, l: string)
    requires forall mod | mod in mods :: PlainModify(mod)
    requires IsOrder(keys, Grouped(mods))
    ensures SomeAdds(Requests(Grouped(mods), keys), m, l) <==> SomeAdds(mods, m, l)
    ensures SomeRemoves(Requests(Grouped(mods), keys), m, l) <==> SomeRemoves(mods, m, l)
  {
    RequestsSame(Grouped(mods), keys, m, l);
    GroupsSame(mods, m, l);
  }

  /** Without a conflict the requests, in any order, do what the changes do one by one. */
  lemma BatchAsSequence(mods: seq<Modify>, keys: seq<Key>, has: bool, m: string, l: string)
    requires forall mod | mod in mods :: PlainModify(mod)
    requires IsOrder(keys, Grouped(mods)) && !Conflict(mods, m, l)
    ensures Outcome(Requests(Grouped(mods), keys), has, m, l) == Outcome(mods, has, m, l)
  {
    SentSame(mods, keys, m, l);
    OutcomeWithoutConflict(mods, has, m, l);
    OutcomeWithoutConflict(Requests(Grouped(mods), keys), has, m, l);
  }

  // ---------------------------------------------------------------- and only without a conflict

  lemma {:induction false} OrderEndingIn(groups: map<Key, Modify>, last: Key) returns (keys: seq<Key>)
    requires last in groups
    ensures IsOrder(keys, groups) && keys != [] && keys[|keys| - 1] == last
    decreases groups.Keys
  {
    var rest := groups - {last};
    if rest.Keys == {} {
      keys := [last];
    } else {
      var k :| k in rest;
      assert groups.Keys == rest.Keys + {last};
      var before := OrderEndingIn(rest, k);
      keys := before + [last];
    }
  }

  lemma OutcomeOfAll(requests: seq<Modify>, has: bool, m: string, l: string, added: bool)
    requires forall r | r in requests && m in r.ids :: if added then Adds(r, m, l) else Removes(r, m, l)
    requires exists r | r in requests :: m in r.ids
    ensures Outcome(requests, has, m, l) == added
  {
    assert !Conflict(requests, m, l);
    OutcomeWithoutConflict(requests, has, m, l);
    var r :| r in requests && m in r.ids;
    assert if added then Adds(r, m, l) else Removes(r, m, l);
  }

  lemma {:induction false} OutcomeConcat(xs: seq<Modify>, ys: seq<Modify>, has: bool, m: string, l: string)
    ensures Outcome(xs + ys, has, m, l) == Outcome(ys, Outcome(xs, has, m, l), m, l)
  {
    if ys == [] {
      assert xs + ys == xs;
    } else {
      var before := ys[..|ys| - 1];
      assert (xs + ys)[..|xs + ys| - 1] == xs + before;
      OutcomeConcat(xs, before, has, m, l);
    }
  }

  /** The group that goes out last and touches the label decides it. */
  lemma LastDecides(groups: map<Key, Modify>, keys: seq<Key>, has: bool, m: string, l: string)
    requires keys != [] && keys[|keys| - 1] in groups
    requires var last := groups[keys[|keys| - 1]]; Adds(last, m, l) || Removes(last, m, l)
    ensures Outcome(Requests(groups, keys), has, m, l) == Adds(groups[keys[|keys| - 1]], m, l)
  {
    var before, last := keys[..|keys| - 1], groups[keys[|keys| - 1]];
    OutcomeConcat(Requests(groups, before), Chunks(last), has, m, l);
    ChunksSame(last, m, l);
    OutcomeOfAll(Chunks(last), Outcome(Requests(groups, before), has, m, l), m, l, Adds(last, m, l));
  }

  ghost predicate OrderFree(mods: seq<Modify>, has: bool, m: string, l: string) {
    forall keys | IsOrder(keys, Grouped(mods)) ::
      Outcome(Requests(Grouped(mods), keys), has, m, l) == Outcome(mods, has, m, l)
  }

  /** For a message and a label, every order of the groups agrees with applying the changes one
      by one exactly when the changes do not both add and remove it. */
  lemma OrderFreeExactly(mods: seq<Modify>, has: bool, m: string, l: string)
    requires forall mod | mod in mods :: PlainModify(mod)
    ensures OrderFree(mods, has, m, l) <==> !Conflict(mods, m, l)
  {
    var groups := Grouped(mods);
    if Conflict(mods, m, l) {
      GroupsSame(mods, m, l);
      var adder: Key :| adder in groups && Adds(groups[adder], m, l);
      var remover: Key :| remover in groups && Removes(groups[remover], m, l);
      var last := if Outcome(mods, has, m, l) then remover else adder;
      var keys := OrderEndingIn(groups, last);
      LastDecides(groups, keys, has, m, l);
      assert !OrderFree(mods, has, m, l);
    } else {
      forall keys | IsOrder(keys, groups)
        ensures Outcome(Requests(groups, keys), has, m, l) == Outcome(mods, has, m, l)
      {
        BatchAsSequence(mods, keys, has, m, l);
      }
    }
  }

  /** When two changes share a key, the second is sent with the labels of the first: what only it
      adds is lost, in every order. */
  lemma SharedKeyLoses(first: Modify, second: Modify, m: string, l: string)
    requires KeyOf(first) == KeyOf(second) && m in second.ids && l in second.add && l !in first.add
    ensures var mods := [first, second];
            && Outcome(mods, false, m, l)
            && forall keys | IsOrder(keys, Grouped(mods)) :: !Outcome(Requests(Grouped(mods), keys), false, m, l)
  {
    var mods := [first, second];
    var all := first.(ids := first.ids + second.ids);
    assert mods[..1] == [first] && [first][..0] == [];
    assert Grouped([first]) == map[KeyOf(first) := first];
    assert Grouped(mods) == map[KeyOf(first) := all];
    assert Adds(second, m, l);
    forall keys | IsOrder(keys, Grouped(mods))
      ensures !Outcome(Requests(Grouped(mods), keys), false, m, l)
    {
      RequestsSame(Grouped(mods), keys, m, l);
      assert !Adds(all, m, l);
      OutcomeWithoutConflict(Requests(Grouped(mods), keys), false, m, l);
    }
  }

  // ---------------------------------------------------------------- the client

  method Group(mods: seq<Modify>) returns (grouped: map<Key, Modify>)
    ensures grouped == Grouped(mods)
  {
    grouped := map[];
    for i := 0 to |mods|
      invariant grouped == Grouped(mods[..i])
    {
      assert mods[..i + 1][..i] == mods[..i];
      var k := KeyOf(mods[i]);
      if k !in grouped {
        grouped := grouped[k := Modify([], mods[i].add, mods[i].remove)];
      }
      assert [] + mods[i].ids == mods[i].ids;
      grouped := grouped[k := grouped[k].(ids := grouped[k].ids + mods[i].ids)];
    }
    assert mods[..|mods|] == mods;
  }

  /** The Gmail client as far as label changes go: the requests it has posted so far. The post
      after `budget` more fails, which ends the call. */
  class Client {
    var sent: seq<Modify>
    var budget: nat

    constructor (budget: nat)
      ensures sent == [] && this.budget == budget
    {
      sent := [];
      this.budget := budget;
    }

    method Post(r: Modify) returns (ok: bool)
      modifies this
      ensures ok <==> old(budget) > 0
      ensures ok ==> sent == old(sent) + [r] && budget == old(budget) - 1
      ensures !ok ==> sent == old(sent) && budget == old(budget)
    {
      ok := budget > 0;
      if ok {
        sent, budget := sent + [r], budget - 1;
      }
    }

    method PostBatchModify(r: Modify) returns (ok: bool)
      modifies this
      ensures ok <==> |Chunks(r)| <= old(budget)
      ensures ok ==> sent == old(sent) + Chunks(r) && budget == old(budget) - |Chunks(r)|
      ensures !ok ==> sent == old(sent) + Chunks(r)[..old(budget)] && budget == 0
    {
      var ids := r.ids;
      ghost var done: seq<Modify> := [];
      assert r.(ids := ids) == r;
      while |ids| > 0
        invariant done + Chunks(r.(ids := ids)) == Chunks(r)
        invariant sent == old(sent) + done && budget == old(budget) - |done|
      {
        var batch := if |ids| > CHUNK then ids[..CHUNK] else ids;
        ok := Post(r.(ids := batch));
        if !ok {
          return;
        }
        done := done + [r.(ids := batch)];
        ids := ids[|batch|..];
      }
      assert done == Chunks(r);
      ok := true;
    }

    /** All groups go out, in an order the map chooses, unless a post fails; then what went out is
        the beginning of that. */
    method BatchModifyEmails(mods: seq<Modify>) returns (ok: bool, ghost keys: seq<Key>)
      modifies this
      ensures IsOrder(keys, Grouped(mods))
      ensures var requests := Requests(Grouped(mods), keys);
              && (ok <==> |requests| <= old(budget))
              && sent == old(sent) + (if ok then requests else requests[..old(budget)])
      ensures forall c | c in sent[|old(sent)|..] :: 0 < |c.ids| <= CHUNK
    {
      var grouped := Group(mods);
      ok, keys := SendAll(grouped);
      RequestsSmall(grouped, keys);
    }

    method SendAll(grouped: map<Key, Modify>) returns (ok: bool, ghost keys: seq<Key>)
      modifies this
      ensures IsOrder(keys, grouped)
      ensures ok ==> |Requests(grouped, keys)| <= old(budget) && sent == old(sent) + Requests(grouped, keys)
      ensures !ok ==> |Requests(grouped, keys)| > old(budget)
                      && sent == old(sent) + Requests(grouped, keys)[..old(budget)]
    {
      var order := AnyOrder(grouped);
      keys := order;
      for i := 0 to |order|
        invariant sent == old(sent) + Requests(grouped, order[..i])
        invariant budget == old(budget) - |Requests(grouped, order[..i])|
      {
        SentUpTo(old(sent), grouped, order, i, budget);
        ok := PostBatchModify(GroupAt(grouped, order[i]));
        if !ok {
          return;
        }
      }
      assert order[..|order|] == order;
      ok := true;
    }
  }

  lemma Assoc(xs: seq<Modify>, ys: seq<Modify>, zs: seq<Modify>)
    ensures xs + ys + zs == xs + (ys + zs)
  {
  }

  lemma SentUpTo(sent: seq<Modify>, groups: map<Key, Modify>, keys: seq<Key>, i: nat, budget: nat)
    requires i < |keys|
    ensures var before, chunks := Requests(groups, keys[..i]), Chunks(GroupAt(groups, keys[i]));
            && sent + before + chunks == sent + Requests(groups, keys[..i + 1])
            && |before| + |chunks| == |Requests(groups, keys[..i + 1])| <= |Requests(groups, keys)|
            && (budget < |chunks| ==>
                  sent + before + chunks[..budget] == sent + Requests(groups, keys)[..|before| + budget])
  {
    var before, chunks := Requests(groups, keys[..i]), Chunks(GroupAt(groups, keys[i]));
    var n := if |chunks| <= budget then 0 else budget;
    RequestsUpTo(groups, keys, i, chunks, n);
    Assoc(sent, before, chunks);
    Assoc(sent, before, chunks[..n]);
  }

  /** A map is iterated in any order. */
  method AnyOrder(groups: map<Key, Modify>) returns (keys: seq<Key>)
    ensures IsOrder(keys, groups)
  {
    keys := [];
    var todo := groups.Keys;
    while todo != {}
      invariant Reached(groups, keys, todo)
      decreases todo
    {
      var k :| k in todo;
      keys, todo := keys + [k], todo - {k};
    }
  }

  /** What a call sends before and inside its i-th group begins what it would send in all. */
  lemma {:induction false} RequestsUpTo(groups: map<Key, Modify>, keys: seq<Key>, i: nat, chunks: seq<Modify>, n: nat)
    requires i < |keys| && chunks == Chunks(GroupAt(groups, keys[i])) && n <= |chunks|
    ensures var before := Requests(groups, keys[..i]);
            && Requests(groups, keys[..i + 1]) == before + chunks
            && |before| + |chunks| <= |Requests(groups, keys)|
            && before + chunks[..n] == Requests(groups, keys)[..|before| + n]
    decreases |keys|
  {
    assert keys[..i + 1][..i] == keys[..i];
    if i + 1 == |keys| {
      assert keys[..i + 1] == keys;
    } else {
      var fewer := keys[..|keys| - 1];
      RequestsUpTo(groups, fewer, i, chunks, n);
      assert fewer[..i] == keys[..i] && fewer[..i + 1] == keys[..i + 1];
    }
  }

  lemma {:induction false} RequestsSmall(groups: map<Key, Modify>, keys: seq<Key>)
    ensures forall c | c in Requests(groups, keys) :: 0 < |c.ids| <= CHUNK
  {
    if keys != [] {
      assert keys == keys[..|keys| - 1] + [keys[|keys| - 1]];
      RequestsSmall(groups, keys[..|keys| - 1]);
      ChunksSmall(GroupAt(groups, keys[|keys| - 1]));
    }
  }
}
