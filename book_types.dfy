/** Values shared by the order-book merge and the depth reducer.
    Prices and quantities are JavaScript numbers in the source; here they are
    exact reals, with NaN kept as its own case because the source tests for it. */
module BookTypes {

  /** A JavaScript number as the order book sees it: NaN or an exact value. */
  datatype Num = NaN | Fin(v: real)

  /** `===` on numbers: NaN equals nothing, not even itself. */
  predicate SameNum(a: Num, b: Num) {
    a.Fin? && b.Fin? && a.v == b.v
  }

  /** `quantity === 0` */
  predicate IsZero(n: Num) {
    n == Fin(0.0)
  }

  /** A raw price level `[price, quantity]` as it arrives from the feed. */
  datatype Level = Level(price: Num, qty: Num)

  predicate IsFiniteLevel(l: Level) {
    l.price.Fin? && l.qty.Fin?
  }

  /** Which side of the book a list belongs to; it decides the sort order
      (asks ascending, bids descending) and the rounding direction. */
  datatype Side = Asks | Bids

  /** `asksSortFn` / `bidsSortFn` is negative: `a[0] - b[0] < 0` for asks, `b[0] - a[0] < 0`
      for bids. A NaN price makes the difference NaN, which the sort reads as
      "equal". */
  predicate Before(side: Side, a: Level, b: Level) {
    a.price.Fin? && b.price.Fin? &&
    (if side == Asks then a.price.v < b.price.v else a.price.v > b.price.v)
  }

  /** Ascending by price for asks, descending for bids. */
  ghost predicate Sorted(side: Side, s: seq<Level>) {
    forall i, j :: 0 <= i < j < |s| ==> !Before(side, s[j], s[i])
  }

  /** A reduced display level `[price, quantity, cumulative quantity,
      cumulative notional]`; every one the reducer builds is finite. */
  datatype Row = Row(price: real, qty: real, cumQty: real, notional: real)

  /** What the book shows: a computed row, or the all-NaN padding row. */
  datatype Display = Filled(row: Row) | Blank

  /** The order book: both sides as raw levels. */
  datatype Book = Book(asks: seq<Level>, bids: seq<Level>)

  /** The reduced book handed to the view. */
  datatype DisplayBook = DisplayBook(asks: seq<Display>, bids: seq<Display>)

  /** Multiplication of two numbers. Products are kept behind this name so
      that the solver treats them as terms and reasons about them only
      through the lemmas below. */
  function Times(a: real, b: real): real {
    a * b
  }

  lemma TimesComm(a: real, b: real)
    ensures Times(a, b) == Times(b, a)
  {
  }

  /** Sum of the quantities of a list of rows. */
  function SumQty(s: seq<Row>): real {
    if s == [] then 0.0 else SumQty(s[..|s| - 1]) + s[|s| - 1].qty
  }

  /** Sum of price times quantity over a list of rows. */
  function SumNotional(s: seq<Row>): real {
    if s == [] then 0.0 else SumNotional(s[..|s| - 1]) + Times(s[|s| - 1].price, s[|s| - 1].qty)
  }

  /** Column 2 of every row is the running total of column 1. */
  ghost predicate CumQtyIsPrefixSum(s: seq<Row>) {
    forall i :: 0 <= i < |s| ==> s[i].cumQty == SumQty(s[..i + 1])
  }

  /** Column 3 of every row is the running total of price times quantity. */
  ghost predicate NotionalIsPrefixSum(s: seq<Row>) {
    forall i :: 0 <= i < |s| ==> s[i].notional == SumNotional(s[..i + 1])
  }

  /** SumQty splits over concatenation. */
  lemma {:induction false} SumQtyAppend(a: seq<Row>, b: seq<Row>)
    ensures SumQty(a + b) == SumQty(a) + SumQty(b)
    decreases |b|
  {
    if b == [] {
      assert a + b == a;
    } else {
      assert (a + b)[..|a + b| - 1] == a + b[..|b| - 1];
      SumQtyAppend(a, b[..|b| - 1]);
    }
  }
}
