/** Price bucketing and cumulative columns: `reduceItems` of
    packages/hooks/src/orderly/useOrderbookStream.ts. */
module OrderbookBuckets {
  import opened Optional
  import opened BookTypes

  // ---------------------------------------------------------------------------
  // Bucket keys
  // ---------------------------------------------------------------------------

  /** `Math.floor` */
  function Floor(x: real): int {
    x.Floor
  }

  /** `Math.ceil` */
  function Ceil(x: real): int {
    -((-x).Floor)
  }

  /** A number whose decimal form has no '.' (in the range where JavaScript
      prints numbers without an exponent). */
  predicate IsInteger(x: real) {
    x == x.Floor as real
  }

  /** `ceil(price / depth) * depth` for asks, `floor(price / depth) * depth` for bids. */
  function RoundedKey(side: Side, depth: real, price: real): real
    requires depth > 0.0
  {
    if side == Asks then Times(Ceil(price / depth) as real, depth)
    else Times(Floor(price / depth) as real, depth)
  }

  /** The guard of the sub-unit branch: `depth < 1 && depth > 0` and the
      rounded key prints with a decimal point, read here as "the key is not
      an integer" (keys printed in exponent form are not distinguished). */
  predicate SubUnitFires(depth: real, key: real) {
    0.0 < depth < 1.0 && !IsInteger(key)
  }

  /** The key a raw price is grouped under. When the sub-unit branch fires,
      the key is the price's decimal string cut after as many fractional
      digits as the depth's string has after "0."; that string surgery is
      the parameter `cut`. */
  function BucketKey(side: Side, depth: real, cut: real -> real, price: real): real
    requires depth > 0.0
  {
    var key := RoundedKey(side, depth, price);
    if SubUnitFires(depth, key) then cut(price) else key
  }

  lemma FloorBounds(x: real)
    ensures Floor(x) as real <= x < Floor(x) as real + 1.0
    ensures x - 1.0 < Ceil(x) as real && x <= Ceil(x) as real < x + 1.0
  {
  }

  lemma TimesQuotient(price: real, depth: real)
    requires depth > 0.0
    ensures Times(price / depth, depth) == price
  {
  }

  lemma TimesStrict(a: real, b: real, d: real)
    requires d > 0.0 && a < b
    ensures Times(a, d) < Times(b, d)
  {
  }

  lemma TimesWeak(a: real, b: real, d: real)
    requires d > 0.0 && a <= b
    ensures Times(a, d) <= Times(b, d)
  {
  }

  lemma TimesSucc(a: real, d: real)
    ensures Times(a + 1.0, d) == Times(a, d) + d
  {
  }

  /** Asks round up and bids round down, by less than one depth. */
  lemma RoundedKeyBounds(side: Side, depth: real, price: real)
    requires depth > 0.0
    ensures side == Asks ==> price <= RoundedKey(side, depth, price) < price + depth
    ensures side == Bids ==> price - depth < RoundedKey(side, depth, price) <= price
  {
    var q := price / depth;
    TimesQuotient(price, depth);
    FloorBounds(q);
    if side == Asks {
      var k := Ceil(q) as real;
      TimesWeak(q, k, depth);
      TimesStrict(k, q + 1.0, depth);
      TimesSucc(q, depth);
    } else {
      var k := Floor(q) as real;
      TimesWeak(k, q, depth);
      TimesStrict(q, k + 1.0, depth);
      TimesSucc(k, depth);
    }
  }

  /** Rounding is monotone: a higher price never gets a lower key. */
  lemma RoundedKeyMonotone(side: Side, depth: real, p1: real, p2: real)
    requires depth > 0.0 && p1 <= p2
    ensures RoundedKey(side, depth, p1) <= RoundedKey(side, depth, p2)
  {
    var q1, q2 := p1 / depth, p2 / depth;
    TimesQuotient(p1, depth);
    TimesQuotient(p2, depth);
    if q1 > q2 {
      TimesStrict(q2, q1, depth);
    }
    FloorBounds(q1);
    FloorBounds(q2);
    if side == Asks {
      assert Ceil(q1) <= Ceil(q2);
      TimesWeak(Ceil(q1) as real, Ceil(q2) as real, depth);
    } else {
      assert Floor(q1) <= Floor(q2);
      TimesWeak(Floor(q1) as real, Floor(q2) as real, depth);
    }
  }

  /** Where the sub-unit branch does not fire, an ask's key is at or above
      its price and a bid's key at or below it, within one depth. */
  lemma BucketKeyBounds(side: Side, depth: real, cut: real -> real, price: real)
    requires depth > 0.0
    requires !SubUnitFires(depth, RoundedKey(side, depth, price))
    ensures side == Asks ==> price <= BucketKey(side, depth, cut, price) < price + depth
    ensures side == Bids ==> price - depth < BucketKey(side, depth, cut, price) <= price
  {
    RoundedKeyBounds(side, depth, price);
  }

  // ---------------------------------------------------------------------------
  // The `prices` map: one bucket per key, in first-insertion order
  // ---------------------------------------------------------------------------

  /** An entry of the `prices` map: `[priceKey, summed quantity]`. */
  datatype Bucket = Bucket(key: real, qty: real)

  /** `prices.has(k)` / `prices.get(k)`: the position of key `k`, or -1. */
  function KeyIndex(m: seq<Bucket>, k: real): (i: int)
    ensures -1 <= i < |m|
    ensures 0 <= i ==> m[i].key == k
    ensures i == -1 <==> forall j :: 0 <= j < |m| ==> m[j].key != k
  {
    if m == [] then -1
    else if m[0].key == k then 0
    else
      var i := KeyIndex(m[1..], k);
      if i == -1 then -1 else i + 1
  }

  /** One step of the bucketing loop: add `q` to bucket `k`, or open it
      at the end of the map. */
  function Upsert(m: seq<Bucket>, k: real, q: real): seq<Bucket> {
    var i := KeyIndex(m, k);
    if i == -1 then m + [Bucket(k, q)] else m[i := Bucket(k, m[i].qty + q)]
  }

  /** The key a finite level is grouped under. */
  function KeyOf(side: Side, depth: real, cut: real -> real, l: Level): real
    requires depth > 0.0 && IsFiniteLevel(l)
  {
    BucketKey(side, depth, cut, l.price.v)
  }

  /** The first loop of `reduceItems`: levels with a NaN price or quantity
      are skipped, every other one is added into the bucket of its key. */
  function Buckets(side: Side, depth: real, cut: real -> real, data: seq<Level>): (r: seq<Bucket>)
    requires depth > 0.0
    ensures |r| <= |data|
  {
    if data == [] then []
    else
      var m := Buckets(side, depth, cut, data[..|data| - 1]);
      var l := data[|data| - 1];
      if IsFiniteLevel(l) then Upsert(m, KeyOf(side, depth, cut, l), l.qty.v) else m
  }

  /** The buckets as raw levels `[priceKey, quantity]` (`Array.from(prices.values())`). */
  function BucketLevels(m: seq<Bucket>): (r: seq<Level>)
    ensures |r| == |m|
    ensures forall i :: 0 <= i < |m| ==> r[i] == Level(Fin(m[i].key), Fin(m[i].qty))
  {
    if m == [] then [] else BucketLevels(m[..|m| - 1]) + [Level(Fin(m[|m| - 1].key), Fin(m[|m| - 1].qty))]
  }

  ghost predicate DistinctKeys(m: seq<Bucket>) {
    forall i, j :: 0 <= i < j < |m| ==> m[i].key != m[j].key
  }

  /** The quantity the map holds for key `k` (0 when absent). */
  function QtyOf(m: seq<Bucket>, k: real): real {
    var i := KeyIndex(m, k);
    if i == -1 then 0.0 else m[i].qty
  }

  /** Some finite level of `data` has key `k`. */
  ghost predicate Grouped(side: Side, depth: real, cut: real -> real, data: seq<Level>, k: real)
    requires depth > 0.0
  {
    exists i :: 0 <= i < |data| && IsFiniteLevel(data[i]) && KeyOf(side, depth, cut, data[i]) == k
  }

  /** Reference definition: the total quantity of the finite levels whose key is `k`. */
  ghost function QtyAt(side: Side, depth: real, cut: real -> real, data: seq<Level>, k: real): real
    requires depth > 0.0
  {
    if data == [] then 0.0
    else
      var l := data[|data| - 1];
      QtyAt(side, depth, cut, data[..|data| - 1], k)
        + (if IsFiniteLevel(l) && KeyOf(side, depth, cut, l) == k then l.qty.v else 0.0)
  }

  /** Total quantity of the finite levels. */
  ghost function FiniteQty(data: seq<Level>): real {
    if data == [] then 0.0
    else
      var l := data[|data| - 1];
      FiniteQty(data[..|data| - 1]) + (if IsFiniteLevel(l) then l.qty.v else 0.0)
  }

  /** Total quantity held by the map. */
  function TotalQty(m: seq<Bucket>): real {
    if m == [] then 0.0 else TotalQty(m[..|m| - 1]) + m[|m| - 1].qty
  }

  lemma KeyIndexUnique(m: seq<Bucket>, k: real, j: int)
    requires DistinctKeys(m) && 0 <= j < |m| && m[j].key == k
    ensures KeyIndex(m, k) == j
  {
  }

  /** Upsert keeps keys distinct, adds `k` to the key set and `q` to the
      quantity of `k`, and leaves every other key alone. */
  lemma UpsertMeaning(m: seq<Bucket>, k: real, q: real)
    requires DistinctKeys(m)
    ensures DistinctKeys(Upsert(m, k, q))
    ensures forall k' :: KeyIndex(Upsert(m, k, q), k') != -1 <==> KeyIndex(m, k') != -1 || k' == k
    ensures forall k' :: QtyOf(Upsert(m, k, q), k') == QtyOf(m, k') + (if k' == k then q else 0.0)
  {
    forall k' {
      UpsertAt(m, k, q, k');
    }
  }

  lemma UpsertAt(m: seq<Bucket>, k: real, q: real, k': real)
    requires DistinctKeys(m) && DistinctKeys(Upsert(m, k, q))
    ensures KeyIndex(Upsert(m, k, q), k') != -1 <==> KeyIndex(m, k') != -1 || k' == k
    ensures QtyOf(Upsert(m, k, q), k') == QtyOf(m, k') + (if k' == k then q else 0.0)
  {
    var r := Upsert(m, k, q);
    var i := KeyIndex(m, k');
    if i != -1 {
      KeyIndexUnique(r, k', i);
    } else if k' == k {
      KeyIndexUnique(r, k', |m|);
    }
  }

  lemma {:induction false} TotalQtyUpdate(m: seq<Bucket>, i: int, b: Bucket)
    requires 0 <= i < |m|
    ensures TotalQty(m[i := b]) == TotalQty(m) - m[i].qty + b.qty
    decreases |m|
  {
    var r := m[i := b];
    if i < |m| - 1 {
      assert r[..|r| - 1] == m[..|m| - 1][i := b];
      TotalQtyUpdate(m[..|m| - 1], i, b);
    } else {
      assert r[..|r| - 1] == m[..|m| - 1];
    }
  }

  lemma UpsertTotal(m: seq<Bucket>, k: real, q: real)
    ensures TotalQty(Upsert(m, k, q)) == TotalQty(m) + q
  {
    var i := KeyIndex(m, k);
    if i == -1 {
      assert (m + [Bucket(k, q)])[..|m|] == m;
    } else {
      TotalQtyUpdate(m, i, Bucket(k, m[i].qty + q));
    }
  }

  lemma GroupedSnoc(side: Side, depth: real, cut: real -> real, data: seq<Level>, k: real)
    requires depth > 0.0 && data != []
    ensures var l := data[|data| - 1];
      Grouped(side, depth, cut, data, k) <==>
        (Grouped(side, depth, cut, data[..|data| - 1], k) || (IsFiniteLevel(l) && KeyOf(side, depth, cut, l) == k))
  {
    var p := data[..|data| - 1];
    if Grouped(side, depth, cut, p, k) {
      var i :| 0 <= i < |p| && IsFiniteLevel(p[i]) && KeyOf(side, depth, cut, p[i]) == k;
      assert data[i] == p[i];
    }
    if Grouped(side, depth, cut, data, k) {
      var i :| 0 <= i < |data| && IsFiniteLevel(data[i]) && KeyOf(side, depth, cut, data[i]) == k;
      if i < |p| {
        assert p[i] == data[i];
      }
    }
  }

  /** The map has one bucket per key, a bucket exactly for the keys of the
      finite levels, and each bucket holds the summed quantity of the
      levels grouped under it. */
  lemma {:induction false} BucketsMeaning(side: Side, depth: real, cut: real -> real, data: seq<Level>)
    requires depth > 0.0
    ensures DistinctKeys(Buckets(side, depth, cut, data))
    ensures forall k :: KeyIndex(Buckets(side, depth, cut, data), k) != -1 <==> Grouped(side, depth, cut, data, k)
    ensures forall k :: QtyOf(Buckets(side, depth, cut, data), k) == QtyAt(side, depth, cut, data, k)
    decreases |data|
  {
    if data != [] {
      var p := data[..|data| - 1];
      var l := data[|data| - 1];
      BucketsMeaning(side, depth, cut, p);
      var m := Buckets(side, depth, cut, p);
      if IsFiniteLevel(l) {
        UpsertMeaning(m, KeyOf(side, depth, cut, l), l.qty.v);
      }
      forall k {
        GroupedSnoc(side, depth, cut, data, k);
      }
    }
  }

  /** Bucketing neither loses nor invents quantity. */
  lemma {:induction false} BucketsTotal(side: Side, depth: real, cut: real -> real, data: seq<Level>)
    requires depth > 0.0
    ensures TotalQty(Buckets(side, depth, cut, data)) == FiniteQty(data)
    decreases |data|
  {
    if data != [] {
      var l := data[|data| - 1];
      BucketsTotal(side, depth, cut, data[..|data| - 1]);
      if IsFiniteLevel(l) {
        UpsertTotal(Buckets(side, depth, cut, data[..|data| - 1]), KeyOf(side, depth, cut, l), l.qty.v);
      }
    }
  }

  /** Keys strictly ascending for asks, strictly descending for bids. */
  ghost predicate KeysOrdered(side: Side, m: seq<Bucket>) {
    forall i, j :: 0 <= i < j < |m| ==>
      if side == Asks then m[i].key < m[j].key else m[i].key > m[j].key
  }

  /** No finite level of `data` takes the sub-unit branch. */
  ghost predicate NoSubUnit(side: Side, depth: real, data: seq<Level>)
    requires depth > 0.0
  {
    forall i :: 0 <= i < |data| && IsFiniteLevel(data[i]) ==>
      !SubUnitFires(depth, RoundedKey(side, depth, data[i].price.v))
  }

  /** On a side sorted best-first, the key of a later level is never better
      than the key of an earlier one. */
  lemma KeyOfOrdered(side: Side, depth: real, cut: real -> real, a: Level, b: Level)
    requires depth > 0.0 && IsFiniteLevel(a) && IsFiniteLevel(b) && !Before(side, b, a)
    requires !SubUnitFires(depth, RoundedKey(side, depth, a.price.v))
    requires !SubUnitFires(depth, RoundedKey(side, depth, b.price.v))
    ensures side == Asks ==> KeyOf(side, depth, cut, a) <= KeyOf(side, depth, cut, b)
    ensures side == Bids ==> KeyOf(side, depth, cut, a) >= KeyOf(side, depth, cut, b)
  {
    if side == Asks {
      RoundedKeyMonotone(side, depth, a.price.v, b.price.v);
    } else {
      RoundedKeyMonotone(side, depth, b.price.v, a.price.v);
    }
  }

  /** Bucketing a side that is already in book order keeps it in book
      order, with equal keys merged, as long as the sub-unit branch does not
      fire; `reduceItems` relies on this, since it does not sort again. */
  lemma {:induction false} BucketsOrdered(side: Side, depth: real, cut: real -> real, data: seq<Level>)
    requires depth > 0.0 && Sorted(side, data) && NoSubUnit(side, depth, data)
    ensures KeysOrdered(side, Buckets(side, depth, cut, data))
    decreases |data|
  {
    if data != [] {
      var p := data[..|data| - 1];
      var l := data[|data| - 1];
      assert Sorted(side, p) && NoSubUnit(side, depth, p) by {
        forall i | 0 <= i < |p| ensures p[i] == data[i] { }
      }
      BucketsOrdered(side, depth, cut, p);
      var m := Buckets(side, depth, cut, p);
      if IsFiniteLevel(l) {
        var kl := KeyOf(side, depth, cut, l);
        BucketsMeaning(side, depth, cut, p);
        forall j | 0 <= j < |m|
          ensures side == Asks ==> m[j].key <= kl
          ensures side == Bids ==> m[j].key >= kl
        {
          assert KeyIndex(m, m[j].key) != -1;
          var i :| 0 <= i < |p| && IsFiniteLevel(p[i]) && KeyOf(side, depth, cut, p[i]) == m[j].key;
          assert p[i] == data[i];
          KeyOfOrdered(side, depth, cut, p[i], l);
        }
      }
    }
  }

  // ---------------------------------------------------------------------------
  // The cumulative columns
  // ---------------------------------------------------------------------------

  function LastCumQty(acc: seq<Row>): real {
    if acc == [] then 0.0 else acc[|acc| - 1].cumQty
  }

  function LastNotional(acc: seq<Row>): real {
    if acc == [] then 0.0 else acc[|acc| - 1].notional
  }

  /** The second loop of `reduceItems`: skip levels with a NaN price or
      quantity, and extend every other one with the running quantity and
      the running `quantity * price`. */
  function Cumulate(s: seq<Level>): (r: seq<Row>)
    ensures |r| <= |s|
  {
    if s == [] then []
    else
      var acc := Cumulate(s[..|s| - 1]);
      var l := s[|s| - 1];
      if IsFiniteLevel(l) then
        acc + [Row(l.price.v, l.qty.v, l.qty.v + LastCumQty(acc), Times(l.qty.v, l.price.v) + LastNotional(acc))]
      else acc
  }

  /** The finite levels of `s`, in order. */
  function FiniteLevels(s: seq<Level>): (r: seq<Level>)
    ensures |r| <= |s|
    ensures forall l :: l in r ==> l in s && IsFiniteLevel(l)
  {
    if s == [] then []
    else
      var l := s[|s| - 1];
      FiniteLevels(s[..|s| - 1]) + (if IsFiniteLevel(l) then [l] else [])
  }

  /** The `isNaN` guard keeps every finite level as often as it occurs and
      drops every other one. */
  lemma {:induction false} FiniteLevelsKeeps(s: seq<Level>, l: Level)
    ensures multiset(FiniteLevels(s))[l] == if IsFiniteLevel(l) then multiset(s)[l] else 0
    ensures l in s && IsFiniteLevel(l) ==> l in FiniteLevels(s)
    decreases |s|
  {
    if s != [] {
      var p := s[..|s| - 1];
      FiniteLevelsKeeps(p, l);
      assert s == p + [s[|s| - 1]];
    }
  }

  /** Row `i` carries the price and quantity of the `i`-th finite level,
      and columns 2 and 3 are running totals of quantity and notional. */
  lemma {:induction false} CumulateMeaning(s: seq<Level>)
    ensures |Cumulate(s)| == |FiniteLevels(s)|
    ensures forall i :: 0 <= i < |Cumulate(s)| ==>
      Fin(Cumulate(s)[i].price) == FiniteLevels(s)[i].price && Fin(Cumulate(s)[i].qty) == FiniteLevels(s)[i].qty
    ensures CumQtyIsPrefixSum(Cumulate(s)) && NotionalIsPrefixSum(Cumulate(s))
    decreases |s|
  {
    if s != [] {
      var acc := Cumulate(s[..|s| - 1]);
      var l := s[|s| - 1];
      CumulateMeaning(s[..|s| - 1]);
      if IsFiniteLevel(l) {
        var row := Row(l.price.v, l.qty.v, l.qty.v + LastCumQty(acc), Times(l.qty.v, l.price.v) + LastNotional(acc));
        var r := acc + [row];
        assert LastCumQty(acc) == SumQty(acc) && LastNotional(acc) == SumNotional(acc) by {
          if acc != [] {
            assert acc[..|acc| - 1 + 1] == acc;
          }
        }
        assert r[..|r| - 1] == acc;
        assert Cumulate(s) == r;
        assert FiniteLevels(s) == FiniteLevels(s[..|s| - 1]) + [l];
        assert Cumulate(s) == r;
        TimesComm(l.qty.v, l.price.v);
        forall i | 0 <= i < |r|
          ensures r[i].cumQty == SumQty(r[..i + 1]) && r[i].notional == SumNotional(r[..i + 1])
        {
          if i < |acc| {
            assert r[..i + 1] == acc[..i + 1];
          } else {
            assert r[..i + 1] == r;
            assert SumQty(r) == SumQty(acc) + l.qty.v;
          }
        }
      }
    }
  }

  /** Every level of the bucket list is finite. */
  lemma {:induction false} FiniteBucketLevels(m: seq<Bucket>)
    ensures FiniteLevels(BucketLevels(m)) == BucketLevels(m)
    decreases |m|
  {
    if m != [] {
      FiniteBucketLevels(m[..|m| - 1]);
      assert BucketLevels(m)[..|m| - 1] == BucketLevels(m[..|m| - 1]);
    }
  }

  // ---------------------------------------------------------------------------
  // reduceItems
  // ---------------------------------------------------------------------------

  /** What `reduceItems` returns. */
  function ReducedItems(side: Side, depth: Option<real>, cut: real -> real, data: seq<Level>): seq<Row>
    requires depth.Some? ==> depth.value > 0.0
  {
    if |data| == 0 then []
    else if depth.Some? then Cumulate(BucketLevels(Buckets(side, depth.value, cut, data)))
    else Cumulate(data)
  }

  /** The rows built from a bucket list are the buckets, in order, with
      running totals. */
  lemma RowsOfBuckets(m: seq<Bucket>)
    ensures |Cumulate(BucketLevels(m))| == |m|
    ensures forall i :: 0 <= i < |m| ==>
      Cumulate(BucketLevels(m))[i].price == m[i].key && Cumulate(BucketLevels(m))[i].qty == m[i].qty
    ensures CumQtyIsPrefixSum(Cumulate(BucketLevels(m))) && NotionalIsPrefixSum(Cumulate(BucketLevels(m)))
  {
    FiniteBucketLevels(m);
    CumulateMeaning(BucketLevels(m));
  }

  /** With a depth, `reduceItems` cumulates the bucket list. */
  lemma BucketedInput(side: Side, depth: real, cut: real -> real, data: seq<Level>)
    requires depth > 0.0
    ensures ReducedItems(side, Some(depth), cut, data) == Cumulate(BucketLevels(Buckets(side, depth, cut, data)))
  {
    if data == [] {
      assert Buckets(side, depth, cut, data) == [];
    }
  }

  /** Each bucket holds the summed quantity of the levels under its key. */
  lemma BucketQty(side: Side, depth: real, cut: real -> real, data: seq<Level>, i: int)
    requires depth > 0.0 && 0 <= i < |Buckets(side, depth, cut, data)|
    ensures Buckets(side, depth, cut, data)[i].qty == QtyAt(side, depth, cut, data, Buckets(side, depth, cut, data)[i].key)
  {
    var m := Buckets(side, depth, cut, data);
    BucketsMeaning(side, depth, cut, data);
    KeyIndexUnique(m, m[i].key, i);
    assert QtyOf(m, m[i].key) == m[i].qty;
  }

  /** With a depth, the rows are the buckets in map order, each with its
      key as price and the summed quantity of the levels under that key,
      and columns 2 and 3 are running totals. */
  lemma BucketedRows(side: Side, depth: real, cut: real -> real, data: seq<Level>)
    requires depth > 0.0
    ensures var r := ReducedItems(side, Some(depth), cut, data);
      var m := Buckets(side, depth, cut, data);
      && |r| == |m|
      && (forall i :: 0 <= i < |r| ==> r[i].price == m[i].key && r[i].qty == QtyAt(side, depth, cut, data, m[i].key))
      && CumQtyIsPrefixSum(r) && NotionalIsPrefixSum(r)
  {
    var m := Buckets(side, depth, cut, data);
    BucketedInput(side, depth, cut, data);
    RowsOfBuckets(m);
    forall i | 0 <= i < |m| ensures m[i].qty == QtyAt(side, depth, cut, data, m[i].key) {
      BucketQty(side, depth, cut, data, i);
    }
  }

  /** With a depth, the last running total is the total quantity of the
      finite input levels: bucketing loses and invents nothing. */
  lemma BucketedTotal(side: Side, depth: real, cut: real -> real, data: seq<Level>)
    requires depth > 0.0 && ReducedItems(side, Some(depth), cut, data) != []
    ensures var r := ReducedItems(side, Some(depth), cut, data);
      r[|r| - 1].cumQty == FiniteQty(data)
  {
    var m := Buckets(side, depth, cut, data);
    var r := ReducedItems(side, Some(depth), cut, data);
    BucketedInput(side, depth, cut, data);
    RowsOfBuckets(m);
    assert r[..|r| - 1 + 1] == r;
    RowsTotal(m, r);
    BucketsTotal(side, depth, cut, data);
  }

  /** The rows built from the buckets hold the buckets' total quantity. */
  lemma {:induction false} RowsTotal(m: seq<Bucket>, r: seq<Row>)
    requires |r| == |m| && forall i :: 0 <= i < |r| ==> r[i].qty == m[i].qty
    ensures SumQty(r) == TotalQty(m)
    decreases |m|
  {
    if m != [] {
      RowsTotal(m[..|m| - 1], r[..|r| - 1]);
    }
  }

  /** The first loop of `reduceItems`: the bucket map of the levels, keyed
      by rounded price. */
  method BucketPrices(side: Side, d: real, cut: real -> real, data: seq<Level>) returns (prices: seq<Bucket>)
    requires d > 0.0
    ensures prices == Buckets(side, d, cut, data)
  {
    prices := [];
    for i := 0 to |data|
      invariant prices == Buckets(side, d, cut, data[..i])
    {
      assert data[..i + 1][..i] == data[..i];
      var l := data[i];
      if !IsFiniteLevel(l) {
        continue;
      }
      var price, quantity := l.price.v, l.qty.v;
      var priceKey;
      if side == Asks {
        priceKey := Times(Ceil(price / d) as real, d);
      } else {
        priceKey := Times(Floor(price / d) as real, d);
      }
      if d < 1.0 && d > 0.0 && !IsInteger(priceKey) {
        priceKey := cut(price);
      }
      var j := KeyIndex(prices, priceKey);
      if j != -1 {
        prices := prices[j := Bucket(priceKey, prices[j].qty + quantity)];
      } else {
        prices := prices + [Bucket(priceKey, quantity)];
      }
    }
    assert data[..|data|] == data;
  }

  /** The second loop of `reduceItems`: the rows with their running totals. */
  method CumulateRows(newData: seq<Level>) returns (result: seq<Row>)
    ensures result == Cumulate(newData)
  {
    result := [];
    for i := 0 to |newData|
      invariant result == Cumulate(newData[..i])
    {
      assert newData[..i + 1][..i] == newData[..i];
      var l := newData[i];
      if !IsFiniteLevel(l) {
        continue;
      }
      var price, quantity := l.price.v, l.qty.v;
      var newQuantity := quantity + (if |result| > 0 then result[|result| - 1].cumQty else 0.0);
      var newAmount := Times(quantity, price) + (if |result| > 0 then result[|result| - 1].notional else 0.0);
      result := result + [Row(price, quantity, newQuantity, newAmount)];
    }
    assert newData[..|newData|] == newData;
  }

  /** `reduceItems`: bucket the levels when a depth is given, then add the
      running totals. (`level` is accepted by the source but unused.) */
  method ReduceItems(side: Side, depth: Option<real>, cut: real -> real, data: seq<Level>) returns (result: seq<Row>)
    requires depth.Some? ==> depth.value > 0.0
    ensures result == ReducedItems(side, depth, cut, data)
  {
    if |data| == 0 {
      return [];
    }
    var newData := data;
    if depth.Some? {
      var prices := BucketPrices(side, depth.value, cut, data);
      newData := BucketLevels(prices);
    }
    result := CumulateRows(newData);
  }
}
