/** Ties the seat ids written out in the loaded occupancy map, and the seats
    of the worked session, to the ids the grid draws. */
module Layout {
  import opened Pricing
  import opened Grid
  import opened BookingFlow

  /** A seat id the grid draws: a grid row followed by one of the row's
      seat numbers. */
  ghost predicate OnGrid(id: string)
  {
    exists r, k :: r in SeatRows && k in RowNumbers(SeatsPerRow) && id == SeatId(r, k)
  }

  /** The grid seat with the given row and number is drawn. */
  lemma SeatOnGrid(r: string, k: nat)
    requires r in SeatRows && 1 <= k <= SeatsPerRow
    ensures OnGrid(SeatId(r, k))
  {
    RowNumbersOfLayout();
  }

  /** Every seat the loaded map blocks is a seat the grid draws, so the
      seats shown as occupied are exactly the keys of that map. */
  lemma InitialOccupiedOnGrid()
    ensures forall id :: id in InitialOccupied ==> OnGrid(id)
  {
    forall id | id in InitialOccupied
      ensures OnGrid(id)
    {
      FrontRowsOnGrid();
      MiddleRowsOnGrid();
      BackRowsOnGrid();
      BlockedSeats(id);
    }
  }

  /** The ids the loaded map blocks, written out. */
  lemma BlockedSeats(id: string)
    requires id in InitialOccupied
    ensures id in {"A3", "A4", "A5", "B8", "B9", "C12", "C13", "F5", "F6", "F7", "F8",
                   "G10", "G11", "I3", "I4", "J7", "J8"}
  {
  }

  /** The blocked seats of rows A to C are grid seats. */
  lemma FrontRowsOnGrid()
    ensures OnGrid("A3") && OnGrid("A4") && OnGrid("A5")
    ensures OnGrid("B8") && OnGrid("B9") && OnGrid("C12") && OnGrid("C13")
  {
    assert SeatId("A", 3) == "A3" && SeatId("A", 4) == "A4" && SeatId("A", 5) == "A5";
    assert SeatId("B", 8) == "B8" && SeatId("B", 9) == "B9";
    assert SeatId("C", 12) == "C12" && SeatId("C", 13) == "C13";
    SeatOnGrid("A", 3); SeatOnGrid("A", 4); SeatOnGrid("A", 5);
    SeatOnGrid("B", 8); SeatOnGrid("B", 9); SeatOnGrid("C", 12); SeatOnGrid("C", 13);
  }

  /** The blocked seats of rows F and G are grid seats. */
  lemma MiddleRowsOnGrid()
    ensures OnGrid("F5") && OnGrid("F6") && OnGrid("F7") && OnGrid("F8")
    ensures OnGrid("G10") && OnGrid("G11")
  {
    assert SeatId("F", 5) == "F5" && SeatId("F", 6) == "F6";
    assert SeatId("F", 7) == "F7" && SeatId("F", 8) == "F8";
    assert SeatId("G", 10) == "G10" && SeatId("G", 11) == "G11";
    SeatOnGrid("F", 5); SeatOnGrid("F", 6); SeatOnGrid("F", 7); SeatOnGrid("F", 8);
    SeatOnGrid("G", 10); SeatOnGrid("G", 11);
  }

  /** The blocked seats of rows I and J are grid seats. */
  lemma BackRowsOnGrid()
    ensures OnGrid("I3") && OnGrid("I4") && OnGrid("J7") && OnGrid("J8")
  {
    assert SeatId("I", 3) == "I3" && SeatId("I", 4) == "I4";
    assert SeatId("J", 7) == "J7" && SeatId("J", 8) == "J8";
    SeatOnGrid("I", 3); SeatOnGrid("I", 4); SeatOnGrid("J", 7); SeatOnGrid("J", 8);
  }

  /** The seats of the worked session are grid seats. */
  lemma WalkthroughSeatsOnGrid()
    ensures OnGrid("A3") && OnGrid("B1") && OnGrid("F1") && OnGrid("I1")
  {
    FrontRowsOnGrid();
    assert SeatId("B", 1) == "B1" && SeatId("F", 1) == "F1" && SeatId("I", 1) == "I1";
    SeatOnGrid("B", 1); SeatOnGrid("F", 1); SeatOnGrid("I", 1);
  }

  /** The loaded map blocks A3 and leaves B1, F1 and I1 free. */
  lemma WalkthroughSeatsOccupancy()
    ensures "A3" in InitialOccupied
    ensures "B1" !in InitialOccupied && "F1" !in InitialOccupied && "I1" !in InitialOccupied
  {
  }
}
