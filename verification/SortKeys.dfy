/**
 The string sort keys of the DynamoDB table (db/store.go, `padID` and `tsKey`) and the order
 the rest of the model uses for them.

 A sort key is a timestamp in a fixed-width layout, a '#', and the id zero-padded to 20
 digits. The store compares these strings; the in-memory merge compares the pair
 (timestamp, id). `TsKeyOrder` shows that the two agree, and `RankOrder` that fixed-width
 strings are ordered like numbers, which is why `Key` can carry its instant as a number.
 */
module SortKeys {

  /** Go's `<` on strings, which is also DynamoDB's order on string sort keys. */
  predicate StrLess(a: string, b: string) {
    if b == [] then false
    else if a == [] then true
    else if a[0] != b[0] then a[0] < b[0]
    else StrLess(a[1..], b[1..])
  }

  function Pow10(n: nat): nat {
    if n == 0 then 1 else 10 * Pow10(n - 1)
  }

  function Digit(d: nat): char
    requires d < 10
  {
    '0' + d as char
  }

  /** The last `width` decimal digits of n: `%0<width>d` for every n below 10^width. */
  function Digits(n: nat, width: nat): (s: string)
    ensures |s| == width
  {
    if width == 0 then [] else Digits(n / 10, width - 1) + [Digit(n % 10)]
  }

  const ID_WIDTH: nat := 20

  function PadId(id: nat): string {
    Digits(id, ID_WIDTH)
  }

  function TsKey(ts: string, id: nat): string {
    ts + "#" + PadId(id)
  }

  /** Equal-length prefixes decide a comparison first; only when they are equal do the
      suffixes count. */
  lemma {:induction false} StrLessConcat(x: string, y: string, u: string, v: string)
    requires |x| == |y|
    ensures StrLess(x + u, y + v) <==> StrLess(x, y) || (x == y && StrLess(u, v))
  {
    if x == [] {
      assert x + u == u && y + v == v;
    } else {
      assert (x + u)[1..] == x[1..] + u && (y + v)[1..] == y[1..] + v;
      StrLessConcat(x[1..], y[1..], u, v);
      assert x == [x[0]] + x[1..] && y == [y[0]] + y[1..];
    }
  }

  lemma {:induction false} StrLessIrreflexive(a: string)
    ensures !StrLess(a, a)
  {
    if a != [] {
      StrLessIrreflexive(a[1..]);
    }
  }

  /** Zero-padded numbers of one width compare as strings exactly as they do as numbers. */
  lemma {:induction false} DigitsOrder(a: nat, b: nat, width: nat)
    requires a < Pow10(width) && b < Pow10(width)
    ensures StrLess(Digits(a, width), Digits(b, width)) <==> a < b
    ensures Digits(a, width) == Digits(b, width) <==> a == b
  {
    if width > 0 {
      DigitsOrder(a / 10, b / 10, width - 1);
      var x, y := Digits(a / 10, width - 1), Digits(b / 10, width - 1);
      var c, d := Digit(a % 10), Digit(b % 10);
      StrLessConcat(x, y, [c], [d]);
      assert StrLess([c], [d]) <==> c < d;
      assert x + [c] == y + [d] <==> x == y && c == d by {
        assert (x + [c])[..width - 1] == x && (y + [d])[..width - 1] == y;
        assert (x + [c])[width - 1] == c && (y + [d])[width - 1] == d;
      }
    }
  }

  /** The comparison the merge sort uses, (timestamp, id) lexicographically, is the order of
      the sort-key strings, and no two rows share a key unless both parts are equal. */
  lemma TsKeyOrder(ts1: string, id1: nat, ts2: string, id2: nat)
    requires |ts1| == |ts2|
    requires id1 < Pow10(ID_WIDTH) && id2 < Pow10(ID_WIDTH)
    ensures StrLess(TsKey(ts1, id1), TsKey(ts2, id2)) <==> StrLess(ts1, ts2) || (ts1 == ts2 && id1 < id2)
    ensures TsKey(ts1, id1) == TsKey(ts2, id2) <==> ts1 == ts2 && id1 == id2
  {
    var p1, p2 := PadId(id1), PadId(id2);
    DigitsOrder(id1, id2, ID_WIDTH);
    StrLessConcat(ts1 + "#", ts2 + "#", p1, p2);
    StrLessConcat(ts1, ts2, "#", "#");
    StrLessIrreflexive("#");
    assert (ts1 + "#")[..|ts1|] == ts1 && (ts2 + "#")[..|ts2|] == ts2;
    assert TsKey(ts1, id1)[..|ts1|] == ts1 && TsKey(ts2, id2)[..|ts2|] == ts2;
    assert TsKey(ts1, id1)[|ts1| + 1..] == p1 && TsKey(ts2, id2)[|ts2| + 1..] == p2;
  }

  /** Every non-negative int64 id fits the padding. */
  lemma Int64Fits(id: nat)
    requires id < 0x8000_0000_0000_0000
    ensures id < Pow10(ID_WIDTH)
  {
    assert Pow10(5) == 100_000;
    assert Pow10(10) == 100_000 * Pow10(5);
    assert Pow10(15) == 100_000 * Pow10(10);
    assert Pow10(20) == 100_000 * Pow10(15);
  }

  // ---------------------------------------------------------------- instants as numbers

  const BASE: nat := 0x11_0000

  /** A string read as a number in base BASE, one "digit" per character. */
  function Rank(s: string): nat {
    if s == [] then 0 else Rank(s[..|s| - 1]) * BASE + s[|s| - 1] as int
  }

  lemma {:induction false} RankOrder(a: string, b: string)
    requires |a| == |b|
    ensures StrLess(a, b) <==> Rank(a) < Rank(b)
    ensures a == b <==> Rank(a) == Rank(b)
  {
    if a != [] {
      var n := |a| - 1;
      RankOrder(a[..n], b[..n]);
      assert a == a[..n] + [a[n]] && b == b[..n] + [b[n]];
      StrLessConcat(a[..n], b[..n], [a[n]], [b[n]]);
      assert StrLess([a[n]], [b[n]]) <==> a[n] < b[n];
      var p, q, c, d := Rank(a[..n]), Rank(b[..n]), a[n] as int, b[n] as int;
      assert 0 <= c < BASE && 0 <= d < BASE;
      if p < q {
        assert p * BASE + BASE <= q * BASE;
      } else if q < p {
        assert q * BASE + BASE <= p * BASE;
      }
    }
  }

  /** A row's position in its partition: the rank of its timestamp, then its id. */
  datatype Key = Key(instant: nat, id: nat)

  predicate Less(a: Key, b: Key) {
    a.instant < b.instant || (a.instant == b.instant && a.id < b.id)
  }

  function KeyOf(ts: string, id: nat): Key {
    Key(Rank(ts), id)
  }

  /** The order on `Key` is the order of the stored sort-key strings. */
  lemma KeyOrder(ts1: string, id1: nat, ts2: string, id2: nat)
    requires |ts1| == |ts2|
    requires id1 < Pow10(ID_WIDTH) && id2 < Pow10(ID_WIDTH)
    ensures Less(KeyOf(ts1, id1), KeyOf(ts2, id2)) <==> StrLess(TsKey(ts1, id1), TsKey(ts2, id2))
    ensures KeyOf(ts1, id1) == KeyOf(ts2, id2) <==> TsKey(ts1, id1) == TsKey(ts2, id2)
  {
    RankOrder(ts1, ts2);
    TsKeyOrder(ts1, id1, ts2, id2);
  }
}
