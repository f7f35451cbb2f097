/** `reduceOrderbook` of packages/hooks/src/orderly/useOrderbookStream.ts:
    un-crossing the book, reversing the asks, padding both sides, and the
    window of rows the hook finally hands out. */
module OrderbookReduce {
  import opened Optional
  import opened BookTypes
  import opened OrderbookBuckets

  // ---------------------------------------------------------------------------
  // Folding crossed asks
  // ---------------------------------------------------------------------------

  /** Row 0 after a fold: it takes over the removed ask's quantity, its
      cumulative quantity restarts at that sum, and its notional becomes
      `Math.ceil(quantity) * price`. */
  function Absorb(x: Row, askQty: real): Row {
    var quantity := x.qty + askQty;
    x.(qty := quantity, cumQty := quantity, notional := Times(Ceil(quantity) as real, x.price))
  }

  /** The `for` loop run after `asks.shift()`: row 0 absorbs the removed
      ask and every later row's notional is recomputed from its
      predecessor's. */
  function Relinked(rest: seq<Row>, askQty: real): (r: seq<Row>)
    ensures |r| == |rest|
    decreases |rest|
  {
    if rest == [] then []
    else if |rest| == 1 then [Absorb(rest[0], askQty)]
    else
      var p := Relinked(rest[..|rest| - 1], askQty);
      var x := rest[|rest| - 1];
      p + [x.(notional := Times(x.price, x.qty) + p[|p| - 1].notional)]
  }

  /** One round of the `while` loop when the lowest ask crosses. */
  function Fold(asks: seq<Row>): (r: seq<Row>)
    requires asks != []
    ensures |r| == |asks| - 1
  {
    Relinked(asks[1..], asks[0].qty)
  }

  /** The `while` loop: fold the lowest ask into the next one for as long
      as it is at or below the best bid. It stops with no asks left or with
      the lowest ask above the bid. */
  function FoldWhileCrossing(asks: seq<Row>, bidPrice: real): (r: seq<Row>)
    ensures r == [] || r[0].price > bidPrice
    ensures |r| <= |asks|
    decreases |asks|
  {
    if asks == [] then []
    else if asks[0].price <= bidPrice then FoldWhileCrossing(Fold(asks), bidPrice)
    else asks
  }

  /** `depth === undefined ? 0 : depth` */
  function DepthOr0(depth: Option<real>): real {
    if depth.Some? then depth.value else 0.0
  }

  /** The asks after the crossed-book fix: untouched unless both sides are
      non-empty and the lowest ask is at or below the best bid; then a lone
      ask moves up by one depth, and several asks are folded. */
  function Resolved(asks: seq<Row>, bids: seq<Row>, depth: Option<real>): seq<Row> {
    if |asks| != 0 && |bids| != 0 && asks[0].price <= bids[0].price then
      if |asks| == 1 then [asks[0].(price := asks[0].price + DepthOr0(depth))]
      else FoldWhileCrossing(asks, bids[0].price)
    else asks
  }

  /** Prices are untouched by the fold; row 0 holds the removed quantity
      and restarts its cumulative column; later rows keep quantity and
      cumulative quantity. */
  lemma {:induction false} RelinkedShape(rest: seq<Row>, askQty: real)
    ensures forall i :: 0 <= i < |rest| ==> Relinked(rest, askQty)[i].price == rest[i].price
    ensures forall i :: 1 <= i < |rest| ==>
      Relinked(rest, askQty)[i].qty == rest[i].qty && Relinked(rest, askQty)[i].cumQty == rest[i].cumQty
    ensures rest != [] ==>
      Relinked(rest, askQty)[0].qty == rest[0].qty + askQty && Relinked(rest, askQty)[0].cumQty == rest[0].qty + askQty
    decreases |rest|
  {
    if |rest| > 1 {
      RelinkedShape(rest[..|rest| - 1], askQty);
    }
  }

  /** Two lists with the same quantities except `q` more at the head have
      totals `q` apart. */
  lemma {:induction false} SumQtyHeadShift(a: seq<Row>, b: seq<Row>, q: real)
    requires |a| == |b| > 0 && b[0].qty == a[0].qty + q
    requires forall i :: 1 <= i < |a| ==> b[i].qty == a[i].qty
    ensures SumQty(b) == SumQty(a) + q
    decreases |a|
  {
    if |a| > 1 {
      SumQtyHeadShift(a[..|a| - 1], b[..|b| - 1], q);
    }
  }

  lemma SumQtyCons(x: Row, s: seq<Row>)
    ensures SumQty([x] + s) == x.qty + SumQty(s)
  {
    SumQtyAppend([x], s);
    assert [x][..0] == [];
  }

  lemma SumQtyTail(s: seq<Row>)
    requires s != []
    ensures SumQty(s) == s[0].qty + SumQty(s[1..])
  {
    assert s == [s[0]] + s[1..];
    SumQtyCons(s[0], s[1..]);
  }

  /** A fold keeps the total ask quantity when some ask survives it. */
  lemma FoldKeepsTotal(asks: seq<Row>)
    requires |asks| >= 2
    ensures SumQty(Fold(asks)) == SumQty(asks)
  {
    var rest := asks[1..];
    RelinkedShape(rest, asks[0].qty);
    SumQtyHeadShift(rest, Relinked(rest, asks[0].qty), asks[0].qty);
    SumQtyTail(asks);
  }

  /** A fold keeps column 2 equal to the running total of column 1. */
  lemma FoldKeepsPrefixSums(asks: seq<Row>)
    requires asks != [] && CumQtyIsPrefixSum(asks)
    ensures CumQtyIsPrefixSum(Fold(asks))
  {
    var rest := asks[1..];
    var r := Fold(asks);
    RelinkedShape(rest, asks[0].qty);
    forall i | 0 <= i < |r| ensures r[i].cumQty == SumQty(r[..i + 1]) {
      SumQtyHeadShift(rest[..i + 1], r[..i + 1], asks[0].qty);
      assert asks[..i + 2] == [asks[0]] + rest[..i + 1];
      SumQtyCons(asks[0], rest[..i + 1]);
      if i == 0 {
        assert SumQty(r[..1]) == r[0].qty by {
          assert r[..1][..0] == [];
        }
      }
    }
  }

  /** The notional column a fold leaves behind: the running total of price
      times quantity, plus the one-off `(ceil(q0) - q0) * p0` that rounding
      the head row's quantity up adds. */
  ghost predicate HeadRoundedNotional(r: seq<Row>) {
    r != [] ==>
      forall i :: 0 <= i < |r| ==>
        r[i].notional == SumNotional(r[..i + 1]) + (Times(Ceil(r[0].qty) as real, r[0].price) - Times(r[0].price, r[0].qty))
  }

  lemma {:induction false} RelinkedNotional(rest: seq<Row>, askQty: real)
    ensures HeadRoundedNotional(Relinked(rest, askQty))
    decreases |rest|
  {
    var r := Relinked(rest, askQty);
    if |rest| == 1 {
      TimesComm(r[0].qty, r[0].price);
      assert r[..1][..0] == [];
    } else if |rest| > 1 {
      RelinkedNotional(rest[..|rest| - 1], askQty);
      forall i | 0 <= i < |r|
        ensures r[i].notional == SumNotional(r[..i + 1]) + (Times(Ceil(r[0].qty) as real, r[0].price) - Times(r[0].price, r[0].qty))
      {
        RelinkedNotionalAt(rest, askQty, i);
      }
    }
  }

  /** One row of the inductive step of `RelinkedNotional`. */
  lemma RelinkedNotionalAt(rest: seq<Row>, askQty: real, i: int)
    requires |rest| > 1 && 0 <= i < |rest|
    requires HeadRoundedNotional(Relinked(rest[..|rest| - 1], askQty))
    ensures var r := Relinked(rest, askQty);
      r[i].notional == SumNotional(r[..i + 1]) + (Times(Ceil(r[0].qty) as real, r[0].price) - Times(r[0].price, r[0].qty))
  {
    var r := Relinked(rest, askQty);
    var p := Relinked(rest[..|rest| - 1], askQty);
    assert r[0] == p[0];
    if i < |p| {
      assert r[..i + 1] == p[..i + 1];
    } else {
      RelinkedNotionalLast(rest, askQty);
      assert r[..i + 1] == r;
    }
  }

  /** The last row of the inductive step of `RelinkedNotional`. */
  lemma RelinkedNotionalLast(rest: seq<Row>, askQty: real)
    requires |rest| > 1
    requires HeadRoundedNotional(Relinked(rest[..|rest| - 1], askQty))
    ensures var r := Relinked(rest, askQty);
      r[|r| - 1].notional == SumNotional(r) + (Times(Ceil(r[0].qty) as real, r[0].price) - Times(r[0].price, r[0].qty))
  {
    var r := Relinked(rest, askQty);
    var p := Relinked(rest[..|rest| - 1], askQty);
    var c := Times(Ceil(p[0].qty) as real, p[0].price) - Times(p[0].price, p[0].qty);
    assert p[|p| - 1].notional == SumNotional(p[..|p| - 1 + 1]) + c;
    assert p[..|p| - 1 + 1] == p;
    assert r[..|r| - 1] == p;
    assert r[0] == p[0];
  }

  /** How many asks the `while` loop folds away. */
  function FoldCount(asks: seq<Row>, bidPrice: real): (k: nat)
    ensures k <= |asks|
    ensures |FoldWhileCrossing(asks, bidPrice)| == |asks| - k
    decreases |asks|
  {
    if asks == [] || asks[0].price > bidPrice then 0 else 1 + FoldCount(Fold(asks), bidPrice)
  }

  /** A fold keeps the price of every remaining ask. */
  lemma {:induction false} RelinkedPrice(rest: seq<Row>, askQty: real, i: int)
    requires 0 <= i < |rest|
    ensures Relinked(rest, askQty)[i].price == rest[i].price
    decreases |rest|
  {
    if |rest| > 1 && i < |rest| - 1 {
      RelinkedPrice(rest[..|rest| - 1], askQty, i);
    }
  }

  /** Every ask the `while` loop drops is at or below the bid. */
  lemma {:induction false} FoldDropped(asks: seq<Row>, bidPrice: real, j: int)
    requires 0 <= j < FoldCount(asks, bidPrice)
    ensures asks[j].price <= bidPrice
    decreases |asks|
  {
    if j > 0 {
      FoldDropped(Fold(asks), bidPrice, j - 1);
      RelinkedPrice(asks[1..], asks[0].qty, j - 1);
    }
  }

  /** Every ask the `while` loop keeps is at its own price. */
  lemma {:induction false} FoldSurvivorPrice(asks: seq<Row>, bidPrice: real, i: int)
    requires 0 <= i < |asks| - FoldCount(asks, bidPrice)
    ensures FoldWhileCrossing(asks, bidPrice)[i].price == asks[FoldCount(asks, bidPrice) + i].price
    decreases |asks|
  {
    if asks[0].price <= bidPrice {
      var f := Fold(asks);
      FoldSurvivorPrice(f, bidPrice, i);
      RelinkedPrice(asks[1..], asks[0].qty, FoldCount(f, bidPrice) + i);
    }
  }

  /** The `while` loop drops the `k` lowest asks, all of them at or below
      the bid, and keeps the others at their own prices. */
  lemma FoldSurvivorPrices(asks: seq<Row>, bidPrice: real)
    ensures var k := FoldCount(asks, bidPrice);
      && (forall j :: 0 <= j < k ==> asks[j].price <= bidPrice)
      && (forall i :: 0 <= i < |asks| - k ==> FoldWhileCrossing(asks, bidPrice)[i].price == asks[k + i].price)
  {
    var k := FoldCount(asks, bidPrice);
    forall j | 0 <= j < k ensures asks[j].price <= bidPrice {
      FoldDropped(asks, bidPrice, j);
    }
    forall i | 0 <= i < |asks| - k ensures FoldWhileCrossing(asks, bidPrice)[i].price == asks[k + i].price {
      FoldSurvivorPrice(asks, bidPrice, i);
    }
  }

  /** The surviving asks above the lowest keep their quantities. */
  lemma {:induction false} FoldSurvivorQty(asks: seq<Row>, bidPrice: real, i: int)
    requires 1 <= i < |asks| - FoldCount(asks, bidPrice)
    ensures FoldWhileCrossing(asks, bidPrice)[i].qty == asks[FoldCount(asks, bidPrice) + i].qty
    decreases |asks|
  {
    if asks[0].price <= bidPrice {
      var f := Fold(asks);
      var k' := FoldCount(f, bidPrice);
      FoldSurvivorQty(f, bidPrice, i);
      RelinkedShape(asks[1..], asks[0].qty);
      assert f[k' + i].qty == asks[1..][k' + i].qty;
    }
  }

  /** The new lowest ask holds the quantity of every ask folded into it. */
  lemma {:induction false} FoldSurvivorHead(asks: seq<Row>, bidPrice: real)
    requires FoldCount(asks, bidPrice) < |asks|
    ensures FoldWhileCrossing(asks, bidPrice)[0].qty == SumQty(asks[..FoldCount(asks, bidPrice) + 1])
    decreases |asks|
  {
    if asks[0].price > bidPrice {
      assert asks[..1][..0] == [];
    } else {
      var f := Fold(asks);
      var k' := FoldCount(f, bidPrice);
      FoldSurvivorHead(f, bidPrice);
      RelinkedShape(asks[1..], asks[0].qty);
      var a := asks[1..][..k' + 1];
      SumQtyHeadShift(a, f[..k' + 1], asks[0].qty);
      assert asks[..k' + 2] == [asks[0]] + a;
      SumQtyCons(asks[0], a);
    }
  }

  /** With several asks and a crossed book, the fix ends with no ask at or
      below the best bid, keeps column 2 a running total, keeps the total
      quantity unless every ask was folded away, and leaves the notional
      column as `HeadRoundedNotional` describes. */
  lemma {:induction false} FoldWhileCrossingMeaning(asks: seq<Row>, bidPrice: real)
    requires asks != [] && asks[0].price <= bidPrice && CumQtyIsPrefixSum(asks)
    ensures CumQtyIsPrefixSum(FoldWhileCrossing(asks, bidPrice))
    ensures FoldWhileCrossing(asks, bidPrice) != [] ==> SumQty(FoldWhileCrossing(asks, bidPrice)) == SumQty(asks)
    ensures HeadRoundedNotional(FoldWhileCrossing(asks, bidPrice))
    decreases |asks|
  {
    var f := Fold(asks);
    FoldKeepsPrefixSums(asks);
    RelinkedNotional(asks[1..], asks[0].qty);
    if f != [] {
      FoldKeepsTotal(asks);
      if f[0].price <= bidPrice {
        FoldWhileCrossingMeaning(f, bidPrice);
      }
    }
  }

  /** The crossed-book fix as a whole: nothing changes on an uncrossed
      book; a lone crossing ask is moved up by the depth (by 0 without
      one) with its other columns untouched; several crossing asks are
      folded until none is at or below the best bid. */
  lemma ResolvedMeaning(asks: seq<Row>, bids: seq<Row>, depth: Option<real>)
    ensures !(|asks| != 0 && |bids| != 0 && asks[0].price <= bids[0].price) ==> Resolved(asks, bids, depth) == asks
    ensures |asks| == 1 && |bids| != 0 && asks[0].price <= bids[0].price ==>
      var r := Resolved(asks, bids, depth);
      |r| == 1 && r[0].price == asks[0].price + DepthOr0(depth) && r[0].qty == asks[0].qty &&
      r[0].cumQty == asks[0].cumQty && r[0].notional == asks[0].notional
    ensures |asks| >= 2 && |bids| != 0 ==>
      var r := Resolved(asks, bids, depth);
      r == [] || r[0].price > bids[0].price
    ensures |asks| >= 2 && |bids| != 0 && CumQtyIsPrefixSum(asks) ==>
      CumQtyIsPrefixSum(Resolved(asks, bids, depth))
  {
    if |asks| >= 2 && |bids| != 0 && CumQtyIsPrefixSum(asks) && asks[0].price <= bids[0].price {
      FoldWhileCrossingMeaning(asks, bids[0].price);
    }
  }

  // ---------------------------------------------------------------------------
  // Reversal, padding and the final book
  // ---------------------------------------------------------------------------

  /** `Array.prototype.reverse` */
  function Reverse(s: seq<Row>): (r: seq<Row>)
    ensures |r| == |s|
    ensures forall i :: 0 <= i < |s| ==> r[i] == s[|s| - 1 - i]
  {
    if s == [] then [] else [s[|s| - 1]] + Reverse(s[..|s| - 1])
  }

  /** The computed rows as shown. */
  function Shown(s: seq<Row>): (r: seq<Display>)
    ensures |r| == |s|
    ensures forall i :: 0 <= i < |s| ==> r[i] == Filled(s[i])
  {
    if s == [] then [] else Shown(s[..|s| - 1]) + [Filled(s[|s| - 1])]
  }

  /** `paddingFn(len)`: `len` all-NaN rows. */
  function Padding(len: nat): (r: seq<Display>)
    ensures |r| == len
    ensures forall i :: 0 <= i < len ==> r[i] == Blank
  {
    if len == 0 then [] else Padding(len - 1) + [Blank]
  }

  /** The asks padding: all-NaN rows in front up to `level` rows. */
  function PadFront(s: seq<Display>, level: int): seq<Display> {
    if |s| < level then Padding(level - |s|) + s else s
  }

  /** The bids padding: all-NaN rows behind up to `level` rows. */
  function PadBack(s: seq<Display>, level: int): seq<Display> {
    if |s| < level then s + Padding(level - |s|) else s
  }

  /** What `reduceOrderbook` returns. */
  function ReducedBook(depth: Option<real>, level: int, padding: bool, cut: real -> real, data: Book): DisplayBook
    requires depth.Some? ==> depth.value > 0.0
  {
    var bids := ReducedItems(Bids, depth, cut, data.bids);
    var asks := Resolved(ReducedItems(Asks, depth, cut, data.asks), bids, depth);
    var shownAsks := Shown(Reverse(asks));
    var shownBids := Shown(bids);
    if padding then DisplayBook(PadFront(shownAsks, level), PadBack(shownBids, level))
    else DisplayBook(shownAsks, shownBids)
  }

  /** With padding, a side shorter than `level` is brought to exactly
      `level` rows, asks padded in front and bids behind; a longer side,
      and either side without padding, keeps its rows. */
  lemma PaddingShape(s: seq<Display>, level: int)
    ensures |PadFront(s, level)| == |PadBack(s, level)| == if |s| < level then level else |s|
    ensures |s| < level ==>
      (forall i :: 0 <= i < level - |s| ==> PadFront(s, level)[i] == Blank) &&
      PadFront(s, level)[level - |s|..] == s
    ensures |s| < level ==>
      (forall i :: |s| <= i < level ==> PadBack(s, level)[i] == Blank) &&
      PadBack(s, level)[..|s|] == s
    ensures |s| >= level ==> PadFront(s, level) == s && PadBack(s, level) == s
  {
  }

  /** The shown rows of a side are its computed rows, in the shown order;
      every other row is padding. */
  ghost predicate ShowsRows(d: seq<Display>, rows: seq<Row>, atFront: bool) {
    |d| >= |rows| &&
    var off := if atFront then |d| - |rows| else 0;
    (forall i :: 0 <= i < |rows| ==> d[off + i] == Filled(rows[i])) &&
    (forall i :: 0 <= i < |d| && !(off <= i < off + |rows|) ==> d[i] == Blank)
  }

  /** The book `reduceOrderbook` returns: the asks reversed (highest first)
      with blanks in front, the bids with blanks behind, each side exactly
      `level` rows long when padding and short. */
  lemma ReducedBookShape(depth: Option<real>, level: int, padding: bool, cut: real -> real, data: Book)
    requires depth.Some? ==> depth.value > 0.0
    ensures var bids := ReducedItems(Bids, depth, cut, data.bids);
      var asks := Resolved(ReducedItems(Asks, depth, cut, data.asks), bids, depth);
      var r := ReducedBook(depth, level, padding, cut, data);
      && ShowsRows(r.asks, Reverse(asks), true)
      && ShowsRows(r.bids, bids, false)
      && |r.asks| == (if padding && |asks| < level then level else |asks|)
      && |r.bids| == (if padding && |bids| < level then level else |bids|)
  {
    var bids := ReducedItems(Bids, depth, cut, data.bids);
    var asks := Resolved(ReducedItems(Asks, depth, cut, data.asks), bids, depth);
    SideShows(Reverse(asks), level, padding, true);
    SideShows(bids, level, padding, false);
  }

  /** One side of `ReducedBookShape`. */
  lemma SideShows(rows: seq<Row>, level: int, padding: bool, atFront: bool)
    ensures var d := Shown(rows);
      var padded := if !padding then d else if atFront then PadFront(d, level) else PadBack(d, level);
      && ShowsRows(padded, rows, atFront)
      && |padded| == (if padding && |rows| < level then level else |rows|)
  {
    if !padding || |rows| >= level {
      ShownShows(rows, atFront);
    } else if atFront {
      FrontShows(rows, level);
    } else {
      BackShows(rows, level);
    }
  }

  lemma ShownShows(rows: seq<Row>, atFront: bool)
    ensures ShowsRows(Shown(rows), rows, atFront)
  {
  }

  lemma FrontShows(rows: seq<Row>, level: int)
    requires |rows| < level
    ensures |PadFront(Shown(rows), level)| == level
    ensures ShowsRows(PadFront(Shown(rows), level), rows, true)
  {
    var n := level - |rows|;
    var pad := Padding(n);
    var shown := Shown(rows);
    var d := PadFront(shown, level);
    assert d == pad + shown;
    assert |d| == level;
    forall i | 0 <= i < |rows| ensures d[n + i] == Filled(rows[i]) {
      assert d[n + i] == shown[i];
    }
    forall i | 0 <= i < n ensures d[i] == Blank {
      assert d[i] == pad[i];
    }
  }

  lemma BackShows(rows: seq<Row>, level: int)
    requires |rows| < level
    ensures |PadBack(Shown(rows), level)| == level
    ensures ShowsRows(PadBack(Shown(rows), level), rows, false)
  {
    var d := PadBack(Shown(rows), level);
    assert d == Shown(rows) + Padding(level - |rows|);
    forall i | |rows| <= i < level ensures d[i] == Blank {
      assert d[i] == Padding(level - |rows|)[i - |rows|];
    }
  }

  // ---------------------------------------------------------------------------
  // Book order of the displayed rows
  // ---------------------------------------------------------------------------

  /** Prices strictly ascending (asks) or strictly descending (bids). */
  ghost predicate RowsOrdered(side: Side, s: seq<Row>) {
    forall i, j :: 0 <= i < j < |s| ==>
      if side == Asks then s[i].price < s[j].price else s[i].price > s[j].price
  }

  /** With a depth, the rows of a side sorted in book order are strictly in
      book order. */
  lemma ReducedRowsOrdered(side: Side, depth: real, cut: real -> real, data: seq<Level>)
    requires depth > 0.0 && Sorted(side, data) && NoSubUnit(side, depth, data)
    ensures RowsOrdered(side, ReducedItems(side, Some(depth), cut, data))
  {
    BucketedRows(side, depth, cut, data);
    BucketsOrdered(side, depth, cut, data);
  }

  /** The crossed-book fix keeps the asks strictly ascending. */
  lemma ResolvedOrdered(asks: seq<Row>, bids: seq<Row>, depth: Option<real>)
    requires RowsOrdered(Asks, asks)
    ensures RowsOrdered(Asks, Resolved(asks, bids, depth))
  {
    if |asks| >= 2 && |bids| != 0 && asks[0].price <= bids[0].price {
      FoldSurvivorPrices(asks, bids[0].price);
    }
  }

  /** With a depth and sides sorted in book order (and the sub-unit branch
      not firing), the shown asks are strictly descending from the top of
      the list and the shown bids strictly descending too. */
  lemma ReducedBookOrdered(depth: real, level: int, padding: bool, cut: real -> real, data: Book)
    requires depth > 0.0
    requires Sorted(Asks, data.asks) && NoSubUnit(Asks, depth, data.asks)
    requires Sorted(Bids, data.bids) && NoSubUnit(Bids, depth, data.bids)
    ensures var bids := ReducedItems(Bids, Some(depth), cut, data.bids);
      var asks := Resolved(ReducedItems(Asks, Some(depth), cut, data.asks), bids, Some(depth));
      RowsOrdered(Bids, Reverse(asks)) && RowsOrdered(Bids, bids)
  {
    var bids := ReducedItems(Bids, Some(depth), cut, data.bids);
    var asks := ReducedItems(Asks, Some(depth), cut, data.asks);
    ReducedRowsOrdered(Bids, depth, cut, data.bids);
    ReducedRowsOrdered(Asks, depth, cut, data.asks);
    ResolvedOrdered(asks, bids, Some(depth));
  }

  // ---------------------------------------------------------------------------
  // The imperative procedure
  // ---------------------------------------------------------------------------

  /** One round of the `while` loop: `asks.shift()` and the `for` loop
      that writes the remaining rows in place. */
  method FoldLowest(asks0: seq<Row>) returns (asks: seq<Row>)
    requires asks0 != []
    ensures asks == Fold(asks0)
  {
    var askQty := asks0[0].qty;
    asks := asks0[1..];
    ghost var rest := asks;
    for index := 0 to |asks|
      invariant |asks| == |rest|
      invariant asks[..index] == Relinked(rest[..index], askQty)
      invariant asks[index..] == rest[index..]
    {
      assert rest[..index + 1][..index] == rest[..index];
      if index == 0 {
        var quantity := asks[index].qty + askQty;
        asks := asks[index := asks[index].(qty := quantity, cumQty := quantity)];
        asks := asks[index := asks[index].(notional := Times(Ceil(quantity) as real, asks[index].price))];
      } else {
        asks := asks[index := asks[index].(notional := Times(asks[index].price, asks[index].qty) + asks[index - 1].notional)];
      }
      assert asks[..index + 1] == asks[..index] + [asks[index]];
    }
    assert rest[..|rest|] == rest;
    assert asks[..|asks|] == asks;
  }

  /** The crossed-book fix of `reduceOrderbook` (the `if` block before the
      reversal). */
  method ResolveCross(asks0: seq<Row>, bids: seq<Row>, depth: Option<real>) returns (asks: seq<Row>)
    ensures asks == Resolved(asks0, bids, depth)
  {
    asks := asks0;
    if |asks| != 0 && |bids| != 0 && asks[0].price <= bids[0].price {
      if |asks| == 1 {
        var first := asks[0];
        asks := [];
        asks := asks + [first.(price := first.price + (if depth.None? then 0.0 else depth.value))];
      } else {
        var bidPrice := bids[0].price;
        while |asks| > 0
          invariant FoldWhileCrossing(asks, bidPrice) == FoldWhileCrossing(asks0, bidPrice)
          decreases |asks|
        {
          if asks[0].price <= bidPrice {
            asks := FoldLowest(asks);
          } else {
            break;
          }
        }
      }
    }
  }

  /** `reduceOrderbook`: reduce both sides, fix a crossed book, reverse the
      asks and pad. */
  method ReduceOrderbook(depth: Option<real>, level: int, padding: bool, cut: real -> real, data: Book)
    returns (r: DisplayBook)
    requires depth.Some? ==> depth.value > 0.0
    ensures r == ReducedBook(depth, level, padding, cut, data)
  {
    var asks := ReduceItems(Asks, depth, cut, data.asks);
    var bids := ReduceItems(Bids, depth, cut, data.bids);
    asks := ResolveCross(asks, bids, depth);
    asks := Reverse(asks);
    var shownAsks := Shown(asks);
    var shownBids := Shown(bids);
    if padding {
      shownAsks := if |shownAsks| < level then Padding(level - |shownAsks|) + shownAsks else shownAsks;
      shownBids := if |shownBids| < level then shownBids + Padding(level - |shownBids|) else shownBids;
    }
    r := DisplayBook(shownAsks, shownBids);
  }

  // ---------------------------------------------------------------------------
  // The rows the hook hands out
  // ---------------------------------------------------------------------------

  /** `Array.prototype.slice(start)`: a negative start counts from the end. */
  function SliceFrom(s: seq<Display>, start: int): seq<Display> {
    var from := if start < 0 then (if |s| + start < 0 then 0 else |s| + start)
                else (if start > |s| then |s| else start);
    s[from..]
  }

  /** `Array.prototype.slice(0, end)`: a negative end counts from the end. */
  function SliceTo(s: seq<Display>, end: int): seq<Display> {
    var to := if end < 0 then (if |s| + end < 0 then 0 else |s| + end)
              else (if end > |s| then |s| else end);
    s[..to]
  }

  /** `asks.slice(-level)` and `bids.slice(0, level)` of the hook's return value. */
  function Visible(book: DisplayBook, level: int): DisplayBook {
    DisplayBook(SliceFrom(book.asks, -level), SliceTo(book.bids, level))
  }

  /** For a positive `level`, the hook shows the `level` asks nearest the
      spread (the bottom of the reversed list) and the `level` best bids;
      with padding on, each side is exactly `level` rows. */
  lemma VisibleWindow(book: DisplayBook, level: int)
    requires level > 0
    ensures var v := Visible(book, level);
      && |v.asks| == (if |book.asks| < level then |book.asks| else level)
      && v.asks == book.asks[|book.asks| - |v.asks|..]
      && |v.bids| == (if |book.bids| < level then |book.bids| else level)
      && v.bids == book.bids[..|v.bids|]
  {
  }

  /** With padding on and a positive level, the hook hands out exactly
      `level` rows per side. */
  lemma VisiblePadded(depth: Option<real>, level: int, cut: real -> real, data: Book)
    requires depth.Some? ==> depth.value > 0.0
    requires level > 0
    ensures var v := Visible(ReducedBook(depth, level, true, cut, data), level);
      |v.asks| == level && |v.bids| == level
  {
    ReducedBookShape(depth, level, true, cut, data);
  }
}
