/** Seat classification and pricing of the seat layout view: a seat's type
    and price depend only on its row letter and on the show's base price. */
module Pricing {
  import opened Wrappers

  /** The three kinds of seat the view distinguishes. */
  datatype SeatType = Regular | Vip | Couple

  /** The row letters of the grid, front to back. */
  const SeatRows: seq<string> := ["A", "B", "C", "D", "E", "F", "G", "H", "I", "J"]
  /** Rows in the middle section, priced at one and a half times the base. */
  const VipRows: seq<string> := ["F", "G", "H"]
  /** Rows at the back, priced at twice the base. */
  const CoupleRows: seq<string> := ["I", "J"]
  /** Rows at the front; declared by the view but never consulted by it. */
  const RegularRows: seq<string> := ["A", "B", "C", "D", "E"]

  /** Base price used when the show has none, or a price of zero. */
  const DefaultPrice: real := 100000.0

  /** The row of a seat id: its first character, or "" for an empty id
      (what `charAt(0)` returns). */
  function RowOf(seatId: string): (row: string)
    ensures |row| <= 1
    ensures row <= seatId
    ensures |seatId| > 0 ==> |row| == 1
  {
    if |seatId| == 0 then "" else seatId[..1]
  }

  /** The show's base price, falling back to the default when the price is
      absent or zero (both are falsy for `||`). */
  function BasePrice(price: Option<real>): (base: real)
    ensures base != 0.0
    ensures price.Some? && price.value != 0.0 ==> base == price.value
    ensures price.None? || price.value == 0.0 ==> base == DefaultPrice
  {
    if price.None? || price.value == 0.0 then DefaultPrice else price.value
  }

  /** The fallback is stable: a base price fed back in as the show's price
      gives itself, and only a zero or missing price is ever replaced. */
  lemma BasePriceFallback(price: Option<real>)
    ensures BasePrice(Some(BasePrice(price))) == BasePrice(price)
    ensures BasePrice(price) != DefaultPrice ==> price == Some(BasePrice(price))
  {
  }

  /** Classification of a row: VIP rows first, then couple rows, every other
      string (including rows outside the grid) is regular. */
  function SeatTypeOf(row: string): (t: SeatType)
    ensures t == Vip <==> row in {"F", "G", "H"}
    ensures t == Couple <==> row in {"I", "J"}
    ensures t == Regular <==> row !in {"F", "G", "H", "I", "J"}
  {
    if row in VipRows then Vip
    else if row in CoupleRows then Couple
    else Regular
  }

  /** The label the view shows for each seat type. */
  function TypeLabel(t: SeatType): string
  {
    match t
    case Vip => "VIP"
    case Couple => "Đôi"
    case Regular => "Thường"
  }

  /** The label of a row, computed by its own test of the row lists just as
      the view does (it does not go through `SeatTypeOf`). */
  function SeatTypeLabel(row: string): (text: string)
    ensures text in {"VIP", "Đôi", "Thường"}
  {
    if row in VipRows then "VIP"
    else if row in CoupleRows then "Đôi"
    else "Thường"
  }

  /** Price multiplier of each seat type. */
  function Multiplier(t: SeatType): real
  {
    match t
    case Regular => 1.0
    case Vip => 1.5
    case Couple => 2.0
  }

  /** Price of a seat in the given row, computed by its own test of the row
      lists as the view does. */
  function SeatPrice(row: string, price: Option<real>): (p: real)
    ensures SeatTypeOf(row) == Regular ==> p == BasePrice(price)
    ensures SeatTypeOf(row) == Vip ==> p == 1.5 * BasePrice(price)
    ensures SeatTypeOf(row) == Couple ==> p == 2.0 * BasePrice(price)
  {
    var base := BasePrice(price);
    if row in VipRows then base * 1.5
    else if row in CoupleRows then base * 2.0
    else base
  }

  /** A seat's price is its type's multiplier times the base price. */
  lemma SeatPriceByType(row: string, price: Option<real>)
    ensures SeatPrice(row, price) == Multiplier(SeatTypeOf(row)) * BasePrice(price)
  {
  }

  /** The label function agrees with the classification on every row, and
      the label determines the type. */
  lemma LabelAgreesWithType(row: string, other: string)
    ensures SeatTypeLabel(row) == TypeLabel(SeatTypeOf(row))
    ensures SeatTypeLabel(row) == SeatTypeLabel(other) <==> SeatTypeOf(row) == SeatTypeOf(other)
  {
  }

  /** The three declared row lists partition the grid's rows, and the
      classification puts every grid row in the list that names it. */
  lemma RowListsPartitionGrid(row: string)
    requires row in SeatRows
    ensures SeatTypeOf(row) == Regular <==> row in RegularRows
    ensures SeatTypeOf(row) == Vip <==> row in VipRows
    ensures SeatTypeOf(row) == Couple <==> row in CoupleRows
  {
  }

  /** Sum of the seat prices of a selection, taking each seat's row from the
      first character of its id. */
  function TotalOf(seats: seq<string>, price: Option<real>): real
    decreases |seats|
  {
    if |seats| == 0 then 0.0
    else SeatPrice(RowOf(seats[0]), price) + TotalOf(seats[1..], price)
  }

  /** The total of a concatenation is the sum of the totals. */
  lemma {:induction false} TotalConcat(a: seq<string>, b: seq<string>, price: Option<real>)
    ensures TotalOf(a + b, price) == TotalOf(a, price) + TotalOf(b, price)
    decreases |a|
  {
    if |a| == 0 {
      assert a + b == b;
    } else {
      assert (a + b)[0] == a[0];
      assert (a + b)[1..] == a[1..] + b;
      TotalConcat(a[1..], b, price);
    }
  }

  /** The running sum of `calculateTotal`: a left-to-right reduction that adds
      each selected seat's price to an accumulator starting at zero. */
  method CalculateTotal(seats: seq<string>, price: Option<real>) returns (total: real)
    ensures total == TotalOf(seats, price)
  {
    total := 0.0;
    var i := 0;
    while i < |seats|
      invariant 0 <= i <= |seats|
      invariant total == TotalOf(seats[..i], price)
    {
      assert seats[..i + 1] == seats[..i] + [seats[i]];
      TotalConcat(seats[..i], [seats[i]], price);
      total := total + SeatPrice(RowOf(seats[i]), price);
      i := i + 1;
    }
    assert seats[..i] == seats;
  }

  /** Taking one seat out of a selection lowers the total by that seat's
      price. */
  lemma TotalRemoveAt(b: seq<string>, i: nat, price: Option<real>)
    requires i < |b|
    ensures TotalOf(b, price) == SeatPrice(RowOf(b[i]), price) + TotalOf(b[..i] + b[i + 1..], price)
  {
    assert b == b[..i] + ([b[i]] + b[i + 1..]);
    TotalConcat(b[..i], [b[i]] + b[i + 1..], price);
    TotalConcat([b[i]], b[i + 1..], price);
    TotalConcat(b[..i], b[i + 1..], price);
  }

  /** The total does not depend on the order of the selection: any
      rearrangement of the same seats costs the same. */
  lemma {:induction false} TotalPermutation(a: seq<string>, b: seq<string>, price: Option<real>)
    requires multiset(a) == multiset(b)
    ensures TotalOf(a, price) == TotalOf(b, price)
    decreases |a|
  {
    if |a| == 0 {
      assert |b| == |multiset(b)| == 0;
    } else {
      assert a[0] in multiset(b) by {
        assert a == [a[0]] + a[1..];
      }
      var i :| 0 <= i < |b| && b[i] == a[0];
      TotalRemoveAt(b, i, price);
      RemoveSameSeat(a, b, i);
      TotalPermutation(a[1..], b[..i] + b[i + 1..], price);
    }
  }

  /** Taking the first seat off one arrangement and the same seat off
      another leaves two arrangements of the same seats. */
  lemma RemoveSameSeat(a: seq<string>, b: seq<string>, i: nat)
    requires multiset(a) == multiset(b)
    requires 0 < |a| && i < |b| && b[i] == a[0]
    ensures multiset(a[1..]) == multiset(b[..i] + b[i + 1..])
  {
    var x := a[0];
    assert a == [x] + a[1..];
    assert b == b[..i] + [x] + b[i + 1..];
    assert multiset(b) == multiset(b[..i]) + multiset([x]) + multiset(b[i + 1..]);
    assert multiset(a[1..]) == multiset(a) - multiset([x]);
  }

  /** With a non-negative base price, every seat costs between one and two
      base prices. */
  lemma SeatPriceBounds(row: string, price: Option<real>)
    requires BasePrice(price) >= 0.0
    ensures BasePrice(price) <= SeatPrice(row, price) <= 2.0 * BasePrice(price)
  {
  }

  /** `total` lies between n regular seats and n couple seats. */
  predicate Within(n: real, base: real, total: real)
  {
    n * base <= total <= 2.0 * n * base
  }

  /** Arithmetic step of `TotalBounds`: adding one seat to m seats. */
  lemma BoundsStep(m: real, base: real, first: real, rest: real)
    requires Within(m, base, rest)
    requires base <= first <= 2.0 * base
    ensures Within(m + 1.0, base, first + rest)
  {
    assert (m + 1.0) * base == m * base + base;
    assert 2.0 * (m + 1.0) * base == 2.0 * m * base + 2.0 * base;
  }

  /** With a non-negative base price, a selection of n seats costs at least n
      regular seats and at most n couple seats. */
  lemma {:induction false} TotalBounds(seats: seq<string>, price: Option<real>)
    requires BasePrice(price) >= 0.0
    ensures Within(|seats| as real, BasePrice(price), TotalOf(seats, price))
    decreases |seats|
  {
    if |seats| > 0 {
      var rest := seats[1..];
      SeatPriceBounds(RowOf(seats[0]), price);
      TotalBounds(rest, price);
      assert |seats| as real == |rest| as real + 1.0;
      BoundsStep(|rest| as real, BasePrice(price), SeatPrice(RowOf(seats[0]), price), TotalOf(rest, price));
    }
  }
}
