/** Incremental merge of an order-book delta into a snapshot
    (`mergeItems`, `mergeOrderbook` and the two sort comparators of
    packages/hooks/src/orderly/useOrderbookStream.ts). */
module OrderbookMerge {
  import opened BookTypes

  // ---------------------------------------------------------------------------
  // Lookup and filtering
  // ---------------------------------------------------------------------------

  /** `data.findIndex(([p]) => p === price)`: the first level whose price is
      `===` to `price`, or -1. A NaN price is never found. */
  function IndexOfPrice(side: seq<Level>, price: Num): (i: int)
    ensures -1 <= i < |side|
    ensures 0 <= i ==> SameNum(side[i].price, price)
    ensures 0 <= i ==> forall j :: 0 <= j < i ==> !SameNum(side[j].price, price)
    ensures i == -1 <==> forall j :: 0 <= j < |side| ==> !SameNum(side[j].price, price)
  {
    if side == [] then -1
    else if SameNum(side[0].price, price) then 0
    else
      var k := IndexOfPrice(side[1..], price);
      if k == -1 then -1 else k + 1
  }

  /** `data.filter(([price]) => !isNaN(price))` */
  function DropNaNPrices(s: seq<Level>): (r: seq<Level>)
    ensures |r| <= |s|
    ensures forall i :: 0 <= i < |r| ==> r[i].price.Fin?
    ensures forall l :: multiset(r)[l] == if l.price.Fin? then multiset(s)[l] else 0
  {
    if s == [] then []
    else if s[0].price.Fin? then
      assert s == [s[0]] + s[1..];
      [s[0]] + DropNaNPrices(s[1..])
    else
      assert s == [s[0]] + s[1..];
      DropNaNPrices(s[1..])
  }

  // ---------------------------------------------------------------------------
  // One delta entry, and the whole delta
  // ---------------------------------------------------------------------------

  /** The effect of one delta entry on a side, as the body of the `while`
      loop of `mergeItems` applies it: a zero quantity removes the level at
      that price (or does nothing), any other entry replaces the level in
      place or is appended. */
  function ApplyEntry(side: seq<Level>, item: Level): (r: seq<Level>)
  {
    var i := IndexOfPrice(side, item.price);
    if i == -1 then
      if IsZero(item.qty) then side else side + [item]
    else if IsZero(item.qty) then side[..i] + side[i + 1..]
    else side[i := item]
  }

  /** The delta entries applied in order, first to last. */
  function ApplyAll(side: seq<Level>, update: seq<Level>): seq<Level>
    decreases |update|
  {
    if update == [] then side else ApplyAll(ApplyEntry(side, update[0]), update[1..])
  }

  /** What `mergeItems(data, update)` returns: an empty side takes the delta
      verbatim; otherwise NaN-priced levels are dropped and the delta is
      applied entry by entry. */
  function Merged(data: seq<Level>, update: seq<Level>): seq<Level> {
    if |data| == 0 then update else ApplyAll(DropNaNPrices(data), update)
  }

  /** `mergeItems`: the `while` loop that shifts entries off the delta and
      pushes, splices or overwrites levels of the filtered snapshot. */
  method MergeItems(data: seq<Level>, update: seq<Level>) returns (r: seq<Level>)
    ensures r == Merged(data, update)
    ensures |data| == 0 ==> r == update
  {
    if |data| == 0 {
      return update;
    }
    var cur := DropNaNPrices(data);
    var pending := update;
    while |pending| > 0
      invariant ApplyAll(cur, pending) == ApplyAll(DropNaNPrices(data), update)
    {
      // Every entry of the delta is an array, so the source's `if (item)` always holds.
      var item := pending[0];
      pending := pending[1..];
      var index := IndexOfPrice(cur, item.price);
      if index == -1 {
        if IsZero(item.qty) {
          continue;
        }
        cur := cur + [item];
      } else {
        if IsZero(item.qty) {
          cur := cur[..index] + cur[index + 1..];
        } else {
          cur := cur[index := item];
        }
      }
    }
    r := cur;
  }

  // ---------------------------------------------------------------------------
  // The price map: what a side means, independent of order
  // ---------------------------------------------------------------------------

  /** No two levels share a finite price. */
  ghost predicate UniquePrices(s: seq<Level>) {
    forall i, j :: 0 <= i < j < |s| ==> !SameNum(s[i].price, s[j].price)
  }

  /** No level carries quantity zero. */
  ghost predicate NoZeroQty(s: seq<Level>) {
    forall i :: 0 <= i < |s| ==> !IsZero(s[i].qty)
  }

  /** Every level has a finite price. */
  ghost predicate FinitePrices(s: seq<Level>) {
    forall i :: 0 <= i < |s| ==> s[i].price.Fin?
  }

  /** The side read as a map from finite price to quantity; where a price
      occurs twice, the first level wins, as it does for `findIndex`. */
  ghost function PriceMap(s: seq<Level>): map<real, Num>
    decreases |s|
  {
    if s == [] then map[]
    else if s[0].price.Fin? then PriceMap(s[1..])[s[0].price.v := s[0].qty]
    else PriceMap(s[1..])
  }

  /** The meaning of one delta entry on a price map. */
  ghost function MapEntry(m: map<real, Num>, item: Level): map<real, Num> {
    if item.price.NaN? then m
    else if IsZero(item.qty) then m - {item.price.v}
    else m[item.price.v := item.qty]
  }

  ghost function MapAll(m: map<real, Num>, update: seq<Level>): map<real, Num>
    decreases |update|
  {
    if update == [] then m else MapAll(MapEntry(m, update[0]), update[1..])
  }

  /** Every finite price of the side is a key of its price map. */
  lemma {:induction false} InMap(s: seq<Level>, j: int)
    requires 0 <= j < |s| && s[j].price.Fin?
    ensures s[j].price.v in PriceMap(s)
    decreases |s|
  {
    if j > 0 {
      assert s[1..][j - 1] == s[j];
      InMap(s[1..], j - 1);
    }
  }

  /** A price no level carries is not a key of the price map. */
  lemma {:induction false} NotInMap(s: seq<Level>, p: real)
    requires forall j :: 0 <= j < |s| ==> s[j].price != Fin(p)
    ensures p !in PriceMap(s)
    decreases |s|
  {
    if s != [] {
      assert forall j :: 0 <= j < |s[1..]| ==> s[1..][j] == s[j + 1];
      NotInMap(s[1..], p);
    }
  }

  /** On a side with unique prices, each level's quantity is what the price map holds. */
  lemma {:induction false} PriceMapAt(s: seq<Level>, j: int)
    requires UniquePrices(s)
    requires 0 <= j < |s| && s[j].price.Fin?
    ensures s[j].price.v in PriceMap(s) && PriceMap(s)[s[j].price.v] == s[j].qty
    decreases |s|
  {
    if j > 0 {
      assert s[1..][j - 1] == s[j];
      assert UniquePrices(s[1..]) by {
        assert forall a :: 0 <= a < |s[1..]| ==> s[1..][a] == s[a + 1];
      }
      PriceMapAt(s[1..], j - 1);
      assert !SameNum(s[0].price, s[j].price);
    }
  }

  /** Every key of the price map comes from some level. */
  lemma {:induction false} PriceMapHas(s: seq<Level>, p: real) returns (j: int)
    requires p in PriceMap(s)
    ensures 0 <= j < |s| && s[j].price == Fin(p)
    decreases |s|
  {
    if s[0].price == Fin(p) {
      j := 0;
    } else {
      var k := PriceMapHas(s[1..], p);
      j := k + 1;
    }
  }

  /** Appending a level whose price no level carries adds its price (a NaN price adds nothing). */
  lemma {:induction false} AppendMeaning(side: seq<Level>, item: Level)
    requires forall j :: 0 <= j < |side| ==> !SameNum(side[j].price, item.price)
    ensures PriceMap(side + [item]) == MapEntry(PriceMap(side), item) || IsZero(item.qty)
    ensures PriceMap(side + [item]) ==
      if item.price.Fin? then PriceMap(side)[item.price.v := item.qty] else PriceMap(side)
    decreases |side|
  {
    if side != [] {
      var t := side[1..];
      assert (side + [item])[1..] == t + [item];
      assert forall j :: 0 <= j < |t| ==> t[j] == side[j + 1];
      AppendMeaning(t, item);
    } else {
      assert ([item])[1..] == [];
    }
  }

  /** Overwriting the first level at the entry's price overwrites that price in the map. */
  lemma {:induction false} ReplaceMeaning(side: seq<Level>, item: Level, i: int)
    requires 0 <= i < |side| && SameNum(side[i].price, item.price)
    requires forall j :: 0 <= j < i ==> !SameNum(side[j].price, item.price)
    ensures PriceMap(side[i := item]) == PriceMap(side)[item.price.v := item.qty]
    decreases i
  {
    if i == 0 {
      assert side[i := item][1..] == side[1..];
    } else {
      var t := side[1..];
      assert side[i := item][1..] == t[i - 1 := item];
      assert forall j :: 0 <= j < i - 1 ==> t[j] == side[j + 1];
      ReplaceMeaning(t, item, i - 1);
    }
  }

  /** Removing the level at a price from a side with unique prices removes that price. */
  lemma RemoveMeaning(side: seq<Level>, i: int)
    requires UniquePrices(side)
    requires 0 <= i < |side| && side[i].price.Fin?
    ensures UniquePrices(side[..i] + side[i + 1..])
    ensures PriceMap(side[..i] + side[i + 1..]) == PriceMap(side) - {side[i].price.v}
  {
    var r := side[..i] + side[i + 1..];
    forall a, b | 0 <= a < b < |r| ensures !SameNum(r[a].price, r[b].price) {
      assert r[a] == side[if a < i then a else a + 1];
      assert r[b] == side[if b < i then b else b + 1];
    }
    RemoveFromMap(side, i);
  }

  lemma {:induction false} RemoveFromMap(side: seq<Level>, i: int)
    requires UniquePrices(side)
    requires 0 <= i < |side| && side[i].price.Fin?
    ensures PriceMap(side[..i] + side[i + 1..]) == PriceMap(side) - {side[i].price.v}
    decreases i
  {
    var r := side[..i] + side[i + 1..];
    var t := side[1..];
    assert UniquePrices(t) by {
      forall a, b | 0 <= a < b < |t| ensures !SameNum(t[a].price, t[b].price) {
        assert t[a] == side[a + 1] && t[b] == side[b + 1];
      }
    }
    if i == 0 {
      assert r == t;
      forall j | 0 <= j < |t| ensures t[j].price != Fin(side[0].price.v) {
        assert t[j] == side[j + 1];
      }
      NotInMap(t, side[0].price.v);
    } else {
      RemoveFromMap(t, i - 1);
      assert r[1..] == t[..i - 1] + t[i..];
      assert r[0] == side[0];
      assert t[i - 1] == side[i];
    }
  }

  /** One delta entry keeps prices unique and acts on the price map as
      `MapEntry` says: remove on zero quantity, insert or overwrite otherwise. */
  lemma ApplyEntryMeaning(side: seq<Level>, item: Level)
    requires UniquePrices(side)
    ensures UniquePrices(ApplyEntry(side, item))
    ensures PriceMap(ApplyEntry(side, item)) == MapEntry(PriceMap(side), item)
  {
    var i := IndexOfPrice(side, item.price);
    if i == -1 {
      if IsZero(item.qty) {
        if item.price.Fin? {
          NotInMap(side, item.price.v);
        }
      } else {
        AppendCase(side, item);
      }
    } else if IsZero(item.qty) {
      RemoveMeaning(side, i);
    } else {
      ReplaceCase(side, item, i);
    }
  }

  lemma AppendCase(side: seq<Level>, item: Level)
    requires UniquePrices(side) && IndexOfPrice(side, item.price) == -1 && !IsZero(item.qty)
    ensures UniquePrices(side + [item])
    ensures PriceMap(side + [item]) == MapEntry(PriceMap(side), item)
  {
    var r := side + [item];
    AppendMeaning(side, item);
    forall a, b | 0 <= a < b < |r| ensures !SameNum(r[a].price, r[b].price) {
      assert r[a] == side[a];
    }
  }

  lemma ReplaceCase(side: seq<Level>, item: Level, i: int)
    requires UniquePrices(side) && i == IndexOfPrice(side, item.price) && i != -1 && !IsZero(item.qty)
    ensures UniquePrices(side[i := item])
    ensures PriceMap(side[i := item]) == MapEntry(PriceMap(side), item)
  {
    ReplaceMeaning(side, item, i);
  }

  /** The whole delta keeps prices unique and acts on the price map entry by entry. */
  lemma {:induction false} ApplyAllMeaning(side: seq<Level>, update: seq<Level>)
    requires UniquePrices(side)
    ensures UniquePrices(ApplyAll(side, update))
    ensures PriceMap(ApplyAll(side, update)) == MapAll(PriceMap(side), update)
    decreases |update|
  {
    if update != [] {
      ApplyEntryMeaning(side, update[0]);
      ApplyAllMeaning(ApplyEntry(side, update[0]), update[1..]);
    }
  }

  /** Dropping NaN-priced levels changes neither the price map nor uniqueness. */
  lemma {:induction false} DropNaNPricesMeaning(s: seq<Level>)
    requires UniquePrices(s)
    ensures UniquePrices(DropNaNPrices(s))
    ensures PriceMap(DropNaNPrices(s)) == PriceMap(s)
    decreases |s|
  {
    if s != [] {
      var t := s[1..];
      assert UniquePrices(t) by {
        forall a, b | 0 <= a < b < |t| ensures !SameNum(t[a].price, t[b].price) {
          assert t[a] == s[a + 1] && t[b] == s[b + 1];
        }
      }
      DropNaNPricesMeaning(t);
      if s[0].price.Fin? {
        var d := DropNaNPrices(t);
        forall j | 0 <= j < |t| ensures !SameNum(s[0].price, t[j].price) {
          assert t[j] == s[j + 1];
        }
        DropKeepsApart(t, s[0]);
        ConsUnique(s[0], d);
      }
    }
  }

  /** A level apart from every level of a side is apart from every level
      the filter keeps. */
  lemma DropKeepsApart(t: seq<Level>, x: Level)
    requires forall j :: 0 <= j < |t| ==> !SameNum(x.price, t[j].price)
    ensures forall j :: 0 <= j < |DropNaNPrices(t)| ==> !SameNum(x.price, DropNaNPrices(t)[j].price)
  {
    var d := DropNaNPrices(t);
    forall j | 0 <= j < |d| ensures !SameNum(x.price, d[j].price) {
      assert multiset(d)[d[j]] > 0;
      assert d[j] in multiset(t);
      var k :| 0 <= k < |t| && t[k] == d[j];
    }
  }

  lemma ConsUnique(x: Level, d: seq<Level>)
    requires UniquePrices(d)
    requires forall j :: 0 <= j < |d| ==> !SameNum(x.price, d[j].price)
    ensures UniquePrices([x] + d)
  {
    var r := [x] + d;
    forall a, b | 0 <= a < b < |r| ensures !SameNum(r[a].price, r[b].price) {
      assert r[b] == d[b - 1];
      if a > 0 {
        assert r[a] == d[a - 1];
      }
    }
  }

  /** `mergeItems` on a non-empty snapshot side with unique prices: the result
      has unique prices, and reading it as a price map gives the snapshot's
      map with each delta entry applied in turn. So a zero-quantity entry
      removes its price (or is a no-op when the price is absent), any other
      entry sets its price's quantity, and prices the delta does not touch
      keep their quantity. */
  lemma MergedMeaning(data: seq<Level>, update: seq<Level>)
    requires |data| > 0 && UniquePrices(data)
    ensures UniquePrices(Merged(data, update))
    ensures PriceMap(Merged(data, update)) == MapAll(PriceMap(data), update)
  {
    DropNaNPricesMeaning(data);
    ApplyAllMeaning(DropNaNPrices(data), update);
  }

  /** A delta entry with a zero quantity removes its price from a side with
      unique prices, and leaves a side without that price unchanged. */
  lemma ZeroEntryRemoves(side: seq<Level>, p: real)
    requires UniquePrices(side)
    ensures forall j :: 0 <= j < |ApplyEntry(side, Level(Fin(p), Fin(0.0)))| ==>
      ApplyEntry(side, Level(Fin(p), Fin(0.0)))[j].price != Fin(p)
    ensures (forall j :: 0 <= j < |side| ==> side[j].price != Fin(p)) ==>
      ApplyEntry(side, Level(Fin(p), Fin(0.0))) == side
  {
    var item := Level(Fin(p), Fin(0.0));
    ApplyEntryMeaning(side, item);
    var r := ApplyEntry(side, item);
    forall j | 0 <= j < |r|
      ensures r[j].price != Fin(p)
    {
      if r[j].price.Fin? {
        InMap(r, j);
      }
    }
  }

  /** Applying the delta never introduces a zero-quantity level. */
  lemma {:induction false} ApplyAllKeepsNoZero(side: seq<Level>, update: seq<Level>)
    requires NoZeroQty(side)
    ensures NoZeroQty(ApplyAll(side, update))
    decreases |update|
  {
    if update != [] {
      var r := ApplyEntry(side, update[0]);
      var i := IndexOfPrice(side, update[0].price);
      if i != -1 && IsZero(update[0].qty) {
        assert forall j :: 0 <= j < |r| ==> r[j] == if j < i then side[j] else side[j + 1];
      }
      assert NoZeroQty(r);
      ApplyAllKeepsNoZero(r, update[1..]);
    }
  }

  /** A non-empty side without zero-quantity levels stays free of them after
      a merge. An empty side is the exception: it takes the delta verbatim. */
  lemma MergedNoZero(data: seq<Level>, update: seq<Level>)
    requires |data| > 0 && NoZeroQty(data)
    ensures NoZeroQty(Merged(data, update))
  {
    var d := DropNaNPrices(data);
    forall i | 0 <= i < |d|
      ensures !IsZero(d[i].qty)
    {
      assert d[i] in multiset(d);
      assert d[i] in multiset(data);
    }
    ApplyAllKeepsNoZero(d, update);
  }

  /** A delta whose entries have finite prices keeps every price finite. */
  lemma {:induction false} ApplyAllKeepsFinite(side: seq<Level>, update: seq<Level>)
    requires FinitePrices(side)
    requires FinitePrices(update)
    ensures FinitePrices(ApplyAll(side, update))
    decreases |update|
  {
    if update != [] {
      var r := ApplyEntry(side, update[0]);
      var i := IndexOfPrice(side, update[0].price);
      if i != -1 && IsZero(update[0].qty) {
        assert forall j :: 0 <= j < |r| ==> r[j] == if j < i then side[j] else side[j + 1];
      }
      assert FinitePrices(r);
      ApplyAllKeepsFinite(r, update[1..]);
    }
  }

  // ---------------------------------------------------------------------------
  // Sorting: `asksSortFn` / `bidsSortFn` with Array.prototype.sort
  // ---------------------------------------------------------------------------

  /** Stable insertion of `x` after every level it does not precede. */
  function Insert(side: Side, s: seq<Level>, x: Level): (r: seq<Level>)
    ensures multiset(r) == multiset(s) + multiset{x}
    ensures forall y :: y in r ==> y == x || y in s
    ensures |r| == |s| + 1
  {
    if s == [] then [x]
    else if Before(side, x, s[0]) then [x] + s
    else
      assert s == [s[0]] + s[1..];
      [s[0]] + Insert(side, s[1..], x)
  }

  /** A stable sort under the side's comparator (insertion sort). */
  function SortLevels(side: Side, s: seq<Level>): (r: seq<Level>)
    ensures multiset(r) == multiset(s)
    ensures |r| == |s|
  {
    if s == [] then []
    else
      assert s == s[..|s| - 1] + [s[|s| - 1]];
      Insert(side, SortLevels(side, s[..|s| - 1]), s[|s| - 1])
  }

  lemma HeadNotAfter(side: Side, s: seq<Level>, y: Level)
    requires Sorted(side, s) && |s| > 0
    requires y in s[1..]
    ensures !Before(side, y, s[0])
  {
    var k :| 0 <= k < |s[1..]| && s[1..][k] == y;
    assert s[k + 1] == y;
  }

  lemma {:induction false} InsertSorted(side: Side, s: seq<Level>, x: Level)
    requires FinitePrices(s) && x.price.Fin?
    requires Sorted(side, s)
    ensures FinitePrices(Insert(side, s, x))
    ensures Sorted(side, Insert(side, s, x))
  {
    var r := Insert(side, s, x);
    if s == [] {
    } else if Before(side, x, s[0]) {
      assert forall j :: 1 <= j < |r| ==> r[j] == s[j - 1];
    } else {
      InsertSorted(side, s[1..], x);
      var t := Insert(side, s[1..], x);
      assert r == [s[0]] + t;
      forall j | 0 <= j < |t|
        ensures !Before(side, t[j], s[0])
      {
        assert t[j] in t;
        if t[j] != x {
          HeadNotAfter(side, s, t[j]);
        }
      }
      assert forall j :: 1 <= j < |r| ==> r[j] == t[j - 1];
    }
  }

  /** Sorting a side whose prices are all finite orders it by the side's comparator. */
  lemma {:induction false} SortLevelsSorted(side: Side, s: seq<Level>)
    requires FinitePrices(s)
    ensures FinitePrices(SortLevels(side, s))
    ensures Sorted(side, SortLevels(side, s))
  {
    if s != [] {
      SortLevelsSorted(side, s[..|s| - 1]);
      InsertSorted(side, SortLevels(side, s[..|s| - 1]), s[|s| - 1]);
    }
  }

  /** `mergeOrderbook`: copy each side, merge its delta, and sort asks
      ascending and bids descending. */
  method MergeOrderbook(data: Book, update: Book) returns (r: Book)
    ensures r.asks == SortLevels(Asks, Merged(data.asks, update.asks))
    ensures r.bids == SortLevels(Bids, Merged(data.bids, update.bids))
  {
    var asks := data.asks;
    var bids := data.bids;
    asks := MergeItems(asks, update.asks);
    asks := SortLevels(Asks, asks);
    bids := MergeItems(bids, update.bids);
    bids := SortLevels(Bids, bids);
    r := Book(asks, bids);
  }

  /** What one merged side of `mergeOrderbook` is, for a non-empty snapshot
      side with unique prices and a delta without NaN prices: sorted by the
      side's comparator, a permutation of the merged levels, with the price
      map the delta entries produce. */
  lemma MergedSideSorted(side: Side, data: seq<Level>, update: seq<Level>)
    requires |data| > 0 && UniquePrices(data)
    requires FinitePrices(update)
    ensures Sorted(side, SortLevels(side, Merged(data, update)))
    ensures multiset(SortLevels(side, Merged(data, update))) == multiset(Merged(data, update))
    ensures UniquePrices(Merged(data, update))
    ensures PriceMap(Merged(data, update)) == MapAll(PriceMap(data), update)
  {
    MergedMeaning(data, update);
    ApplyAllKeepsFinite(DropNaNPrices(data), update);
    SortLevelsSorted(side, Merged(data, update));
  }
}
