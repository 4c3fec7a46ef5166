/** Seat-grid numbering: each row is drawn as a left block and a right block
    around the aisle, and each cell's seat id is its row letter followed by
    its seat number in decimal. */
module Grid {
  import opened Wrappers
  import opened Pricing

  /** Seats drawn in every row. */
  const SeatsPerRow: nat := 14

  /** Length of the left block, `floor(n / 2) - 1`; a negative length gives
      an empty block, as `Array.from` clamps it to zero. */
  function LeftCount(n: nat): nat
  {
    if n / 2 >= 1 then n / 2 - 1 else 0
  }

  /** Seat numbers of the left block: `index + 1`. */
  function LeftNumbers(n: nat): (r: seq<nat>)
    ensures |r| == LeftCount(n)
    ensures forall k :: k in r <==> 1 <= k < n / 2
  {
    var r := seq(LeftCount(n), i => i + 1);
    assert forall k :: 1 <= k < n / 2 ==> k in r by {
      forall k | 1 <= k < n / 2
        ensures k in r
      {
        assert r[k - 1] == k;
      }
    }
    r
  }

  /** Seat numbers of the right block: `floor(n / 2) + index` over
      `floor(n / 2) + 1` cells. */
  function RightNumbers(n: nat): (r: seq<nat>)
    ensures |r| == n / 2 + 1
    ensures forall k :: k in r <==> n / 2 <= k <= 2 * (n / 2)
  {
    var r := seq(n / 2 + 1, i => n / 2 + i);
    assert forall k :: n / 2 <= k <= 2 * (n / 2) ==> k in r by {
      forall k | n / 2 <= k <= 2 * (n / 2)
        ensures k in r
      {
        assert r[k - n / 2] == k;
      }
    }
    r
  }

  /** The seat numbers of one row, left block then right block. */
  function RowNumbers(n: nat): seq<nat>
  {
    LeftNumbers(n) + RightNumbers(n)
  }

  /** For an even row width n >= 2 the two blocks number the seats 1..n in
      order, each exactly once. */
  lemma RowNumbersEvenWidth(n: nat)
    requires n >= 2 && n % 2 == 0
    ensures RowNumbers(n) == seq(n, i => i + 1)
  {
  }

  /** The view's rows: left block 1..6, right block 7..14, together every
      number 1..14 exactly once and no other. */
  lemma RowNumbersOfLayout()
    ensures LeftNumbers(SeatsPerRow) == [1, 2, 3, 4, 5, 6]
    ensures RightNumbers(SeatsPerRow) == [7, 8, 9, 10, 11, 12, 13, 14]
    ensures |RowNumbers(SeatsPerRow)| == SeatsPerRow
    ensures forall i, j :: 0 <= i < j < |RowNumbers(SeatsPerRow)| ==> RowNumbers(SeatsPerRow)[i] != RowNumbers(SeatsPerRow)[j]
    ensures forall k :: k in RowNumbers(SeatsPerRow) <==> 1 <= k <= SeatsPerRow
  {
  }

  /** With an odd width the blocks leave out the last seat: the rule only
      suits the even width the view uses. */
  lemma OddWidthDropsLastSeat(n: nat)
    requires n >= 3 && n % 2 == 1
    ensures |RowNumbers(n)| == n - 1
    ensures n !in RowNumbers(n)
  {
  }

  /** Decimal digit character of d. */
  function Digit(d: nat): char
    requires d < 10
  {
    (48 + d) as char
  }

  /** Decimal rendering of a number without leading zeros, as a template
      literal prints it. */
  function Decimal(n: nat): (s: string)
    ensures 1 <= |s|
    ensures |s| == 1 <==> n < 10
    decreases n
  {
    if n < 10 then [Digit(n)] else Decimal(n / 10) + [Digit(n % 10)]
  }

  /** Different numbers print differently. */
  lemma {:induction false} DecimalInjective(a: nat, b: nat)
    requires Decimal(a) == Decimal(b)
    ensures a == b
    decreases a
  {
    if a < 10 || b < 10 {
      assert Decimal(a)[0] == Decimal(b)[0];
      assert Digit(a) as int == 48 + a;
      assert Digit(b) as int == 48 + b;
    } else {
      var da, db := Decimal(a), Decimal(b);
      assert da[..|da| - 1] == Decimal(a / 10);
      assert db[..|db| - 1] == Decimal(b / 10);
      DecimalInjective(a / 10, b / 10);
      assert da[|da| - 1] == Digit(a % 10);
      assert db[|db| - 1] == Digit(b % 10);
      assert Digit(a % 10) as int == 48 + a % 10;
      assert Digit(b % 10) as int == 48 + b % 10;
    }
  }

  /** The id of the seat with the given row letter and number. */
  function SeatId(row: string, number: nat): (id: string)
    ensures |id| == |row| + |Decimal(number)|
    ensures id[..|row|] == row && id[|row|..] == Decimal(number)
    ensures |row| == 1 ==> RowOf(id) == row
  {
    row + Decimal(number)
  }

  /** Taking the first character of a grid seat's id gives back its row, so
      the price shown on a seat agrees with the price added to the total. */
  lemma SeatIdRow(row: string, number: nat, price: Option<real>)
    requires |row| == 1
    ensures RowOf(SeatId(row, number)) == row
    ensures SeatPrice(RowOf(SeatId(row, number)), price) == SeatPrice(row, price)
  {
  }

  /** Two grid cells have the same id exactly when they have the same row
      and the same number. */
  lemma SeatIdInjective(row1: string, n1: nat, row2: string, n2: nat)
    requires |row1| == 1 && |row2| == 1
    ensures SeatId(row1, n1) == SeatId(row2, n2) <==> row1 == row2 && n1 == n2
  {
    if SeatId(row1, n1) == SeatId(row2, n2) {
      var id := SeatId(row1, n1);
      assert id[..1] == row1;
      assert SeatId(row2, n2)[..1] == row2;
      assert id[1..] == Decimal(n1);
      assert SeatId(row2, n2)[1..] == Decimal(n2);
      DecimalInjective(n1, n2);
    }
  }
}
