/** The booking flow of the seat layout view: a stage that moves through
    select, confirm, payment and success, driven by the controls the view
    shows at each stage, with seat clicks going to the selection controller
    and payment completion writing the booked seats into the occupancy map. */
module BookingFlow {
  import opened Wrappers
  import opened Selection
  import opened Pricing

  /** The four stages of the flow. */
  datatype Stage = Select | Confirm | Payment | Success

  /** The view's state once the show has loaded. */
  datatype Booking = Booking(stage: Stage, selected: seq<string>, occupied: Occupancy)

  /** What the user (or the payment timer) does. */
  datatype Event =
    | SeatClicked(id: string)
    | ContinuePressed
    | PayPressed
    | BackPressed
    | PaymentTimerFired

  /** The outcome of an event: a new state, a refusal with a notice (the
      state stays as it was), or an event the current stage does not offer. */
  datatype Reply = Moved(next: Booking) | Refused(notice: Notice) | NotOffered

  /** Occupant marker written for the seats the viewer has just bought. */
  const CurrentUser: string := "current_user"

  /** Occupancy the view loads for every show. */
  const InitialOccupied: Occupancy := map[
    "A3" := "user1", "A4" := "user1", "A5" := "user1",
    "B8" := "user2", "B9" := "user2",
    "C12" := "user3", "C13" := "user3",
    "F5" := "user4", "F6" := "user4", "F7" := "user4", "F8" := "user4",
    "G10" := "user5", "G11" := "user5",
    "I3" := "user6", "I4" := "user6",
    "J7" := "user7", "J8" := "user7"]

  /** The state right after loading: choosing seats, none chosen. */
  const Start: Booking := Booking(Select, [], InitialOccupied)

  /** Position of a stage along the flow. */
  function Rank(s: Stage): nat
  {
    match s
    case Select => 0
    case Confirm => 1
    case Payment => 2
    case Success => 3
  }

  /** A click on a seat: the selection controller decides. */
  function ClickSeat(b: Booking, id: string): (r: Reply)
    ensures r.Moved? ==> r.next.stage == b.stage && r.next.occupied == b.occupied
    ensures r.Moved? ==> r.next.selected == Clicked(b.selected, b.occupied, id)
    ensures r.Refused? <==> !IsOccupied(b.occupied, id) && id !in b.selected && |b.selected| >= MaxSeats
    ensures r.Refused? ==> r.notice == SeatLimitReached
    ensures !r.NotOffered?
  {
    match Toggle(b.selected, b.occupied, id)
    case Ok(s) => Moved(b.(selected := s))
    case Err(n) => Refused(n)
  }

  /** The continue button: refused while no seat is selected, otherwise the
      flow goes on to confirmation with the selection as it is. */
  function Continue(b: Booking): (r: Reply)
    ensures |b.selected| == 0 <==> r.Refused?
    ensures r.Refused? ==> r.notice == NoSeatsSelected
    ensures r.Moved? ==> r.next.stage == Confirm && r.next.selected == b.selected && r.next.occupied == b.occupied
    ensures !r.NotOffered?
  {
    if |b.selected| == 0 then Refused(NoSeatsSelected)
    else Moved(b.(stage := Confirm))
  }

  /** The pay button: payment starts; nothing else changes. */
  function Pay(b: Booking): (r: Booking)
    ensures r.stage == Payment
    ensures r.selected == b.selected && r.occupied == b.occupied
  {
    b.(stage := Payment)
  }

  /** The back button: back to choosing seats with the selection kept. */
  function Back(b: Booking): (r: Booking)
    ensures r.stage == Select
    ensures r.selected == b.selected && r.occupied == b.occupied
  {
    b.(stage := Select)
  }

  /** The occupancy map with each of `seats`, in order, set to the current
      user's marker. */
  function Book(occupied: Occupancy, seats: seq<string>): (r: Occupancy)
    ensures r.Keys == occupied.Keys + set s | s in seats
    ensures forall s :: s in seats ==> r[s] == CurrentUser
    ensures forall k :: k in occupied && k !in seats ==> r[k] == occupied[k]
    decreases |seats|
  {
    if |seats| == 0 then occupied
    else
      assert forall s :: s in seats <==> s == seats[0] || s in seats[1..];
      Book(occupied[seats[0] := CurrentUser], seats[1..])
  }

  /** The payment timer elapsing: the booking succeeds and the selected
      seats become occupied by the current user. */
  function CompletePayment(b: Booking): (r: Booking)
    ensures r.stage == Success && r.selected == b.selected
    ensures r.occupied.Keys == b.occupied.Keys + set s | s in b.selected
    ensures forall s :: s in b.selected ==> r.occupied[s] == CurrentUser
    ensures forall k :: k in b.occupied && k !in b.selected ==> r.occupied[k] == b.occupied[k]
  {
    b.(stage := Success, occupied := Book(b.occupied, b.selected))
  }

  /** Which events the view offers in a state: the seat grid and the
      continue button while selecting (the button is disabled while nothing
      is selected), pay and back while confirming, the timer while paying,
      and nothing after success. */
  function Offered(b: Booking, e: Event): (shown: bool)
    ensures b.stage == Select ==> (shown <==> e.SeatClicked? || (e == ContinuePressed && |b.selected| > 0))
    ensures b.stage == Confirm ==> (shown <==> e == PayPressed || e == BackPressed)
    ensures b.stage == Payment ==> (shown <==> e == PaymentTimerFired)
    ensures b.stage == Success ==> !shown
  {
    match e
    case SeatClicked(_) => b.stage == Select
    case ContinuePressed => b.stage == Select && |b.selected| > 0
    case PayPressed => b.stage == Confirm
    case BackPressed => b.stage == Confirm
    case PaymentTimerFired => b.stage == Payment
  }

  /** One event handled by the view. */
  function Step(b: Booking, e: Event): (r: Reply)
    ensures r.NotOffered? <==> !Offered(b, e)
    ensures r.Refused? ==> b.stage == Select && e.SeatClicked? && r.notice == SeatLimitReached
    ensures r.Moved? && e.SeatClicked? ==> r.next.selected == Clicked(b.selected, b.occupied, e.id)
  {
    if !Offered(b, e) then NotOffered
    else
      match e
      case SeatClicked(id) => ClickSeat(b, id)
      case ContinuePressed => Continue(b)
      case PayPressed => Moved(Pay(b))
      case BackPressed => Moved(Back(b))
      case PaymentTimerFired => Moved(CompletePayment(b))
  }

  /** The state after one event: refused and unavailable events change
      nothing. */
  function Next(b: Booking, e: Event): Booking
  {
    match Step(b, e)
    case Moved(n) => n
    case _ => b
  }

  /** The state after a sequence of events. */
  function Run(b: Booking, events: seq<Event>): Booking
    decreases |events|
  {
    if |events| == 0 then b else Run(Next(b, events[0]), events[1..])
  }

  /** What holds of every state the view can reach: the selection has no
      duplicates and at most `MaxSeats` seats; beyond the select stage it is
      not empty; before success none of its seats is occupied, and after
      success all of them are occupied by the current user. */
  predicate Consistent(b: Booking)
  {
    && NoDup(b.selected)
    && |b.selected| <= MaxSeats
    && (b.stage != Select ==> |b.selected| > 0)
    && (b.stage != Success ==> forall id :: id in b.selected ==> !IsOccupied(b.occupied, id))
    && (b.stage == Success ==> forall id :: id in b.selected ==> id in b.occupied && b.occupied[id] == CurrentUser)
  }

  /** The loaded state is consistent, and every loaded marker is non-empty. */
  lemma StartConsistent()
    ensures Consistent(Start)
    ensures forall k :: k in Start.occupied ==> Start.occupied[k] != ""
  {
  }

  /** Every event keeps a consistent state consistent. */
  lemma StepKeepsConsistent(b: Booking, e: Event)
    requires Consistent(b)
    ensures Consistent(Next(b, e))
  {
    if Offered(b, e) && e.SeatClicked? {
      ToggleKeepsSelectionOk(b.selected, b.occupied, e.id);
    }
  }

  /** Along any sequence of events every state is consistent. */
  lemma {:induction false} RunKeepsConsistent(b: Booking, events: seq<Event>)
    requires Consistent(b)
    ensures Consistent(Run(b, events))
    decreases |events|
  {
    if |events| > 0 {
      StepKeepsConsistent(b, events[0]);
      RunKeepsConsistent(Next(b, events[0]), events[1..]);
    }
  }

  /** In a consistent state no event takes a seat away from its occupant or
      changes who holds it. */
  lemma StepKeepsBookings(b: Booking, e: Event, k: string)
    requires Consistent(b)
    requires IsOccupied(b.occupied, k)
    ensures IsOccupied(Next(b, e).occupied, k)
    ensures Next(b, e).occupied[k] == b.occupied[k]
  {
  }

  /** From a consistent state, along any sequence of events, an occupied
      seat stays occupied by the same occupant; in particular it can never
      be selected. */
  lemma {:induction false} RunKeepsBookings(b: Booking, events: seq<Event>, k: string)
    requires Consistent(b)
    requires IsOccupied(b.occupied, k)
    ensures IsOccupied(Run(b, events).occupied, k)
    ensures Run(b, events).occupied[k] == b.occupied[k]
    ensures Run(b, events).stage != Success ==> k !in Run(b, events).selected
    decreases |events|
  {
    if |events| > 0 {
      StepKeepsBookings(b, events[0], k);
      StepKeepsConsistent(b, events[0]);
      RunKeepsBookings(Next(b, events[0]), events[1..], k);
    }
  }

  /** The stage moves forward one step at a time; the only way back is from
      confirmation to selection by the back button. */
  lemma StepStageOrder(b: Booking, e: Event)
    ensures Rank(Next(b, e).stage) <= Rank(b.stage) + 1
    ensures Rank(Next(b, e).stage) < Rank(b.stage) <==> b.stage == Confirm && e == BackPressed
    ensures Rank(Next(b, e).stage) < Rank(b.stage) ==> Next(b, e).stage == Select
  {
  }

  /** Success is final: no sequence of events changes the state. */
  lemma {:induction false} SuccessIsFinal(b: Booking, events: seq<Event>)
    requires b.stage == Success
    ensures Run(b, events) == b
    decreases |events|
  {
    if |events| > 0 {
      assert Next(b, events[0]) == b;
      SuccessIsFinal(b, events[1..]);
    }
  }

  /** Continuing with nothing selected keeps the flow at selection: the
      disabled button does not fire, and the handler would refuse anyway;
      with a selection it moves to confirmation. */
  lemma ContinueFromSelect(b: Booking)
    requires b.stage == Select
    ensures |b.selected| == 0 ==> Step(b, ContinuePressed) == NotOffered
    ensures |b.selected| == 0 ==> Continue(b) == Refused(NoSeatsSelected)
    ensures |b.selected| == 0 ==> Next(b, ContinuePressed) == b
    ensures |b.selected| > 0 ==> Next(b, ContinuePressed) == b.(stage := Confirm)
  {
  }

  /** Going back from confirmation and continuing again returns to the same
      confirmation state. */
  lemma BackThenContinue(b: Booking)
    requires Consistent(b) && b.stage == Confirm
    ensures Next(b, BackPressed).stage == Select
    ensures Next(b, BackPressed).selected == b.selected
    ensures Next(Next(b, BackPressed), ContinuePressed) == b
  {
  }

  /** Paying and letting the timer fire from confirmation ends in success
      with every selected seat held by the current user and every other
      seat as it was. */
  lemma PayThenComplete(b: Booking)
    requires b.stage == Confirm
    ensures Next(b, PayPressed).stage == Payment
    ensures Run(b, [PayPressed, PaymentTimerFired]).stage == Success
    ensures Run(b, [PayPressed, PaymentTimerFired]).selected == b.selected
    ensures forall s :: s in b.selected ==> s in Run(b, [PayPressed, PaymentTimerFired]).occupied
    ensures forall k :: k in b.occupied && k !in b.selected ==>
              Run(b, [PayPressed, PaymentTimerFired]).occupied[k] == b.occupied[k]
  {
  }

  /** A worked session from the loaded state: a click on the occupied seat
      A3 is ignored, then regular B1, VIP F1 and couple I1 are added in
      order. */
  lemma WalkthroughSelection()
    ensures Next(Start, SeatClicked("A3")) == Start
    ensures Run(Start, [SeatClicked("A3"), SeatClicked("B1"), SeatClicked("F1"), SeatClicked("I1")]).selected
            == ["B1", "F1", "I1"]
  {
    var occ := InitialOccupied;
    assert IsOccupied(occ, "A3");
    assert !IsOccupied(occ, "B1") && !IsOccupied(occ, "F1") && !IsOccupied(occ, "I1");
    var s1 := Start.(selected := ["B1"]);
    var s2 := Start.(selected := ["B1", "F1"]);
    var s3 := Start.(selected := ["B1", "F1", "I1"]);
    assert Next(Start, SeatClicked("B1")) == s1;
    assert Next(s1, SeatClicked("F1")) == s2;
    assert Next(s2, SeatClicked("I1")) == s3;
    var es := [SeatClicked("A3"), SeatClicked("B1"), SeatClicked("F1"), SeatClicked("I1")];
    calc {
      Run(Start, es);
      Run(Start, es[1..]);
      { assert es[1..][1..] == es[2..]; }
      Run(s1, es[2..]);
      { assert es[2..][1..] == es[3..]; }
      Run(s2, es[3..]);
      { assert es[3..][1..] == []; }
      Run(s3, []);
    }
  }

  /** The totals of that session at the default price: 100000 after B1,
      250000 after F1 and 450000 after I1. */
  lemma WalkthroughTotals()
    ensures TotalOf(["B1"], None) == 100000.0
    ensures TotalOf(["B1", "F1"], None) == 250000.0
    ensures TotalOf(["B1", "F1", "I1"], None) == 450000.0
  {
    assert RowOf("B1") == "B" && RowOf("F1") == "F" && RowOf("I1") == "I";
    assert ["B1", "F1"][1..] == ["F1"];
    assert ["B1", "F1", "I1"][1..] == ["F1", "I1"];
    assert ["F1", "I1"][1..] == ["I1"];
  }
}
