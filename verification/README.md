# Seat layout booking model

A Dafny model of the booking logic of the `SeatLayout` view of a cinema
ticketing front end. The view shows a 10-row by 14-seat grid. Each seat id
is a row letter followed by a seat number. Seats are priced by row type:
regular, VIP or couple. The viewer picks up to 8 free seats and then goes
through a four-stage flow: select, confirm, payment, success. When the
simulated payment completes, the chosen seats are written into the
occupancy map under the current user's marker.

The logic that the component mixes into its JSX is lifted out into pure
functions:

- `Pricing` (`pricing.dfy`) classifies a row and prices a seat. It falls
  back to 100000 when the show has no price or a price of 0. It sums the
  prices of a selection, taking each seat's row from the first character of
  its id. Prices are exact `real`s, so ×1.5 and ×2 involve no rounding.
- `Selection` (`selection.dfy`) is the seat-click controller. A click on an
  occupied seat is ignored. A click on a selected seat filters it out. A
  click on a new seat appends it while fewer than 8 are selected; otherwise
  the click is refused with a notice.
- `BookingFlow` (`booking.dfy`) is the stage machine. It routes each event
  to its handler, but only while the view shows that control:
  - seat clicks in select, and continue there once a seat is selected;
  - pay and back in confirm;
  - the timer in payment;
  - nothing after success.
  It also has the loaded occupancy map and the reachability invariant.
- `Grid` (`grid.dfy`) models how a row's seat numbers and ids are generated
  for the left and right blocks around the aisle.
- `Layout` (`layout.dfy`) ties the ids written out in the loaded occupancy
  map, and the seats of the worked session, to the ids the grid draws.
- `Wrappers` (`wrappers.dfy`) holds `Option` and `Result`.

Details of the code that the model keeps:

- **What counts as occupied.** A seat is occupied when its map entry is
  truthy. An entry whose marker is the empty string does not block the
  seat (`Selection.IsOccupied`).
- **Deselection.** Deselecting filters out every occurrence of the id. When
  the selection has no duplicates, this removes exactly one position.
- **The continue guard.** The continue button is disabled while nothing is
  selected, so the view never offers it then (`BookingFlow.Offered`). The
  handler still keeps its own empty-selection check and refusal notice
  (`BookingFlow.Continue`).

Two clicks on a seat give back the original selection in its original
order only when the seat was not selected (`Selection.ToggleRoundTrip`). For
a seat that is already selected, the first click filters it out and the
second appends it, so it moves to the end of the list
(`Selection.ToggleTwiceMovesSelectedToEnd`, `Selection.ToggleTwiceReorders`).

The numbering rule gives the left block `floor(n/2) - 1` seats and the right
block `floor(n/2) + 1` seats, starting at `floor(n/2)`. This numbers seats
1..n only for even n. For odd n >= 3 the last seat is left out
(`Grid.OddWidthDropsLastSeat`). The view uses n = 14, so its grid is
complete.

## Model

| member | source | states |
|---|---|---|
| `Pricing.RowOf` | src/pages/SeatLayout.jsx:117 | the row read from a seat id is a prefix of the id with at most one character, and exactly one character when the id is non-empty |
| `Pricing.BasePrice` | src/pages/SeatLayout.jsx:79 | the base price is the show's price unless that is absent or 0, in which case it is 100000; it is never 0 |
| `Pricing.BasePriceFallback` | src/pages/SeatLayout.jsx:79 | feeding the base price back in as the show's price gives it back, and a base other than 100000 is exactly the show's own price |
| `Pricing.SeatTypeOf` | src/pages/SeatLayout.jsx:86-90 | rows F, G, H are VIP, rows I, J are couple, and every other string, including rows outside the grid, is regular (each as an if-and-only-if) |
| `Pricing.SeatTypeLabel` | src/pages/SeatLayout.jsx:93-97 | the label is one of "VIP", "Đôi", "Thường"; which one, for every row, is stated by `Pricing.LabelAgreesWithType` |
| `Pricing.LabelAgreesWithType` | src/pages/SeatLayout.jsx:93-97 | the label function, which tests the row lists on its own, names the same type as `SeatTypeOf` on every row, and two rows have equal labels exactly when they have equal types |
| `Pricing.RowListsPartitionGrid` | src/pages/SeatLayout.jsx:20-24 | on the ten grid rows the declared regular, VIP and couple lists are exactly the rows classified regular, VIP and couple |
| `Pricing.SeatPrice` | src/pages/SeatLayout.jsx:78-83 | a regular seat costs the base price, a VIP seat 1.5 times it, a couple seat twice it, where the type is the one `SeatTypeOf` gives |
| `Pricing.SeatPriceByType` | src/pages/SeatLayout.jsx:78-83 | a seat's price is its type's multiplier (1, 1.5, 2) times the base price |
| `Pricing.SeatPriceBounds` | src/pages/SeatLayout.jsx:78-83 | with a non-negative base, every seat costs between one and two base prices |
| `Pricing.CalculateTotal` | src/pages/SeatLayout.jsx:115-120 | the left-to-right running sum equals the sum of each selected seat's price, with the row taken from the id's first character |
| `Pricing.TotalPermutation` | src/pages/SeatLayout.jsx:115-120 | any rearrangement of the same seats (equal multisets) has the same total |
| `Pricing.TotalBounds` | src/pages/SeatLayout.jsx:115-120 | with a non-negative base, n seats cost between n regular and n couple seats |
| `Selection.IsOccupied` | src/pages/SeatLayout.jsx:101 | a seat counts as occupied exactly when the map holds a marker for it that is not the empty string: an absent key or an empty marker does not block it |
| `Selection.Without` | src/pages/SeatLayout.jsx:104 | the filtered list is no longer than the original, strictly shorter when the seat was present, and the list itself when it was absent |
| `Selection.WithoutMembers` | src/pages/SeatLayout.jsx:104 | the filtered list holds exactly the seats of the list other than the clicked one |
| `Selection.Toggle` | src/pages/SeatLayout.jsx:100-111 | an occupied seat leaves the selection unchanged; a selected seat is removed and every other seat stays; a new seat is appended at the end while fewer than 8 are selected; otherwise the click is refused with the seat-limit notice |
| `Selection.ToggleRemovesExactlyThatSeat` | src/pages/SeatLayout.jsx:103-104 | in a duplicate-free selection, clicking the seat at position i gives the list without position i, with the rest in order |
| `Selection.ClicksKeepSelectionOk` | src/pages/SeatLayout.jsx:100-111 | along any sequence of clicks from the empty (or any reachable) selection, the selection has no duplicates, at most 8 seats and no occupied seat |
| `Selection.ClicksAvoidOccupiedKeys` | src/pages/SeatLayout.jsx:101 | when every occupant marker is non-empty, the selections reached by clicks never contain a key of the occupancy map |
| `Selection.ToggleRoundTrip` | src/pages/SeatLayout.jsx:103-110 | two clicks on a free, unselected seat, with fewer than 8 selected, append it and then give back the original list in the original order |
| `Selection.ToggleTwiceMovesSelectedToEnd` | src/pages/SeatLayout.jsx:103-110 | two clicks on a selected seat keep the same seats but move that seat to the end of the list |
| `Selection.ToggleTwiceReorders` | src/pages/SeatLayout.jsx:103-110 | two clicks on B1 in the selection B1, F1 give F1, B1 |
| `Selection.EighthAcceptedNinthRejected` | src/pages/SeatLayout.jsx:106-110 | from 7 seats, an eighth free seat is accepted, a ninth is refused with the seat-limit notice, and the selection keeps 8 seats |
| `Grid.LeftNumbers` | src/pages/SeatLayout.jsx:298-299 | the left block has `floor(n/2) - 1` cells (none when that is negative) and holds exactly the numbers 1 to `floor(n/2) - 1` |
| `Grid.RightNumbers` | src/pages/SeatLayout.jsx:336-337 | the right block has `floor(n/2) + 1` cells and holds exactly the numbers `floor(n/2)` to `2 * floor(n/2)` |
| `Grid.RowNumbersEvenWidth` | src/pages/SeatLayout.jsx:298-337 | for an even row width n >= 2, the left block followed by the right block numbers the seats 1..n in order |
| `Grid.RowNumbersOfLayout` | src/pages/SeatLayout.jsx:298-337 | with 14 seats per row, the left block is 1..6 and the right block is 7..14; together they hold every number 1..14 exactly once and no other |
| `Grid.OddWidthDropsLastSeat` | src/pages/SeatLayout.jsx:298-337 | for an odd row width n >= 3, the blocks hold n - 1 numbers and leave out seat n |
| `Grid.Decimal` | src/pages/SeatLayout.jsx:300 | a seat number prints as one character exactly when it is below 10 |
| `Grid.DecimalInjective` | src/pages/SeatLayout.jsx:300 | different seat numbers print differently |
| `Grid.SeatId` | src/pages/SeatLayout.jsx:300 | a seat id is the row followed by the decimal seat number, and for a one-letter row its first character is the row |
| `Grid.SeatIdRow` | src/pages/SeatLayout.jsx:300 | the first character of a grid seat's id is its row, so the price shown on the seat equals the price added to the total |
| `Grid.SeatIdInjective` | src/pages/SeatLayout.jsx:338 | two grid cells have the same id exactly when they have the same row and number |
| `BookingFlow.ClickSeat` | src/pages/SeatLayout.jsx:324 | a seat click changes only the selection, as the controller decides, and is refused exactly when a free, unselected seat meets a full selection |
| `BookingFlow.Continue` | src/pages/SeatLayout.jsx:142-148 | continue is refused with the no-seat notice exactly when the selection is empty; otherwise the stage becomes confirm and nothing else changes |
| `BookingFlow.Pay` | src/pages/SeatLayout.jsx:150-151 | pay moves to the payment stage and changes nothing else |
| `BookingFlow.Back` | src/pages/SeatLayout.jsx:517-518 | back moves to the select stage and keeps the selection and the occupancy |
| `BookingFlow.Book` | src/pages/SeatLayout.jsx:156-160 | the new occupancy has the old keys plus the selected seats; every selected seat maps to the current user's marker; every other entry is unchanged |
| `BookingFlow.CompletePayment` | src/pages/SeatLayout.jsx:153-161 | the timer sets the stage to success, keeps the selection, and books every selected seat for the current user, leaving other entries unchanged |
| `BookingFlow.Offered` | src/pages/SeatLayout.jsx:499-524 | per stage, the controls shown: seat clicks and continue in select, continue only with a non-empty selection; pay and back in confirm; the timer in payment; nothing in success |
| `BookingFlow.Step` | src/pages/SeatLayout.jsx:499-524 | an event is handled exactly when the view offers its control; the only refusal is a seat click in select hitting the 8-seat limit; a click changes the selection as the controller decides |
| `BookingFlow.StartConsistent` | src/pages/SeatLayout.jsx:60-68 | the loaded state satisfies the invariant, and every loaded occupant marker is non-empty |
| `BookingFlow.StepKeepsConsistent` | src/pages/SeatLayout.jsx:100-161 | every event keeps the invariant |
| `BookingFlow.RunKeepsConsistent` | src/pages/SeatLayout.jsx:100-161 | along any event sequence: no duplicates and at most 8 seats; a non-empty selection past select; no occupied seat selected before success; every selected seat held by the current user after success |
| `BookingFlow.StepKeepsBookings` | src/pages/SeatLayout.jsx:153-161 | in a reachable state no event frees an occupied seat or changes its occupant |
| `BookingFlow.RunKeepsBookings` | src/pages/SeatLayout.jsx:153-161 | along any event sequence an occupied seat keeps its occupant and is never selected before success |
| `BookingFlow.StepStageOrder` | src/pages/SeatLayout.jsx:142-161 | the stage advances at most one step per event, and goes back only from confirm to select by the back button |
| `BookingFlow.SuccessIsFinal` | src/pages/SeatLayout.jsx:195-222 | once in success, no sequence of events changes the state |
| `BookingFlow.ContinueFromSelect` | src/pages/SeatLayout.jsx:142-148 | from select with no seats, continue is not offered, the handler itself would refuse with the no-seat notice, and the state stays; with seats it moves to confirm |
| `BookingFlow.BackThenContinue` | src/pages/SeatLayout.jsx:517-518 | back from confirm returns to select with the selection kept, and continuing again restores the same confirm state |
| `BookingFlow.PayThenComplete` | src/pages/SeatLayout.jsx:150-161 | pay then timer from confirm ends in success with the same selection, every selected seat a key of the occupancy and every other entry unchanged |
| `BookingFlow.WalkthroughSelection` | src/pages/SeatLayout.jsx:100-111 | from the loaded state a click on A3 is ignored, and clicks on B1, F1, I1 give the selection B1, F1, I1 |
| `BookingFlow.WalkthroughTotals` | src/pages/SeatLayout.jsx:115-120 | at the default price those selections total 100000, 250000 and 450000 |
| `Layout.SeatOnGrid` | src/pages/SeatLayout.jsx:298-300 | every row A to J with every number 1 to 14 gives an id the grid draws |
| `Layout.InitialOccupiedOnGrid` | src/pages/SeatLayout.jsx:60-68 | every key of the loaded occupancy map is the id of a seat the grid draws, so every blocked seat is shown and clickable |
| `Layout.FrontRowsOnGrid` | src/pages/SeatLayout.jsx:61-63 | the blocked seats A3-A5, B8, B9, C12, C13 are grid seats |
| `Layout.MiddleRowsOnGrid` | src/pages/SeatLayout.jsx:64-65 | the blocked seats F5-F8, G10, G11 are grid seats |
| `Layout.BackRowsOnGrid` | src/pages/SeatLayout.jsx:66-67 | the blocked seats I3, I4, J7, J8 are grid seats |
| `Layout.WalkthroughSeatsOnGrid` | src/pages/SeatLayout.jsx:298-300 | the seats A3, B1, F1 and I1 of the worked session are grid seats |
| `Layout.WalkthroughSeatsOccupancy` | src/pages/SeatLayout.jsx:60-68 | the loaded map blocks A3 and leaves B1, F1 and I1 free |

## Left out

- Rendering and styling: the JSX, the class strings, the legend and the panels only present the state.
- `formatPrice` and `formatDate`: they call the platform's locale formatting, which is not modelled.
- Routing: the route parameters, the navigation calls and the header's back-to-detail button are router plumbing.
- Data loading: the delayed loader, the movie lookup, the default date taken from the clock, and the loading and not-found screens depend on mock data and the clock. The model starts from the loaded state with the fixed occupancy map (`BookingFlow.Start`).
- Timers: the 500 ms and 3000 ms delays are not modelled, and neither is the missing cancellation of the payment timer on unmount. Payment completion is one discrete event, `PaymentTimerFired`, offered only in the payment stage.
- Stale closures: the payment timer reads the selection and the occupancy as they were when pay was pressed. The view offers no control that changes them during payment, so the model reads the current state.
- Alerts: the two alerts are modelled as `Refused` replies carrying a `Notice`. Their Vietnamese message text is not modelled.
- Floating point: prices are exact reals. A NaN price, which `||` would also replace by the default, is not modelled.
- Object-property lookup: `occupiedSeats[id]` on a plain object would also see inherited properties such as `toString`. The model uses a map. Every seat id the grid produces is a row letter followed by digits, so none of them can name such a property.
