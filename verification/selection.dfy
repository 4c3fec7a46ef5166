/** The selection controller: a click on a seat toggles its id in the ordered
    list of selected seats, unless the seat is occupied or the list is full. */
module Selection {
  import opened Wrappers

  /** Largest number of seats one booking may hold. */
  const MaxSeats: nat := 8

  /** Why a user action was refused (the view shows an alert and changes
      nothing). */
  datatype Notice = NoSeatsSelected | SeatLimitReached

  /** Occupancy: seat id to an occupant marker. */
  type Occupancy = map<string, string>

  /** A seat counts as occupied when its marker is truthy, i.e. present and
      not the empty string. */
  predicate IsOccupied(occupied: Occupancy, id: string)
    ensures id !in occupied ==> !IsOccupied(occupied, id)
    ensures id in occupied && |occupied[id]| == 0 ==> !IsOccupied(occupied, id)
    ensures id in occupied && |occupied[id]| > 0 ==> IsOccupied(occupied, id)
  {
    id in occupied && occupied[id] != ""
  }

  /** No seat id appears twice. */
  predicate NoDup(s: seq<string>)
  {
    forall i, j :: 0 <= i < j < |s| ==> s[i] != s[j]
  }

  /** A selection the view can reach while choosing seats: no duplicates, at
      most `MaxSeats` seats, and none of them occupied. */
  predicate SelectionOk(selected: seq<string>, occupied: Occupancy)
  {
    && NoDup(selected)
    && |selected| <= MaxSeats
    && forall id :: id in selected ==> !IsOccupied(occupied, id)
  }

  /** The list with every occurrence of `id` filtered out, order kept. */
  function Without(s: seq<string>, id: string): (r: seq<string>)
    ensures |r| <= |s|
    ensures id !in s ==> r == s
    ensures id in s ==> |r| < |s|
    decreases |s|
  {
    if |s| == 0 then []
    else if s[0] == id then Without(s[1..], id)
    else [s[0]] + Without(s[1..], id)
  }

  /** The filtered list holds exactly the other seats of the list. */
  lemma {:induction false} WithoutMembers(s: seq<string>, id: string)
    ensures forall x :: x in Without(s, id) <==> x in s && x != id
    decreases |s|
  {
    if |s| > 0 {
      WithoutMembers(s[1..], id);
      assert s == [s[0]] + s[1..];
    }
  }

  /** Filtering distributes over concatenation. */
  lemma {:induction false} WithoutConcat(a: seq<string>, b: seq<string>, id: string)
    ensures Without(a + b, id) == Without(a, id) + Without(b, id)
    decreases |a|
  {
    if |a| == 0 {
      assert a + b == b;
    } else {
      assert (a + b)[0] == a[0];
      assert (a + b)[1..] == a[1..] + b;
      WithoutConcat(a[1..], b, id);
      if a[0] != id {
        assert [a[0]] + (Without(a[1..], id) + Without(b, id))
            == ([a[0]] + Without(a[1..], id)) + Without(b, id);
      }
    }
  }

  /** In a list without duplicates, filtering a member out removes exactly
      that one position and keeps the others in order. */
  lemma RemoveExactlyOne(s: seq<string>, i: nat)
    requires NoDup(s)
    requires i < |s|
    ensures Without(s, s[i]) == s[..i] + s[i + 1..]
  {
    OnlyAt(s, i);
    assert s == s[..i] + [s[i]] + s[i + 1..];
    WithoutSplice(s[..i], s[i], s[i + 1..]);
  }

  /** Filtering a seat out of a list where it occurs once, between two
      parts that do not hold it, joins the two parts. */
  lemma WithoutSplice(before: seq<string>, id: string, after: seq<string>)
    requires id !in before && id !in after
    ensures Without(before + [id] + after, id) == before + after
  {
    assert before + [id] + after == before + ([id] + after);
    WithoutConcat(before, [id] + after, id);
    WithoutDropsHead(id, after);
  }

  /** In a list without duplicates, the seat at position i occurs neither
      before nor after that position. */
  lemma OnlyAt(s: seq<string>, i: nat)
    requires NoDup(s)
    requires i < |s|
    ensures s[i] !in s[..i] && s[i] !in s[i + 1..]
    ensures s[i] !in s[..i] + s[i + 1..]
  {
    var before, after := s[..i], s[i + 1..];
    forall j | 0 <= j < |before|
      ensures before[j] != s[i]
    {
      assert before[j] == s[j];
    }
    forall j | 0 <= j < |after|
      ensures after[j] != s[i]
    {
      assert after[j] == s[i + 1 + j];
    }
  }

  /** Filtering out the head of a list drops that head. */
  lemma WithoutDropsHead(id: string, t: seq<string>)
    ensures Without([id] + t, id) == Without(t, id)
  {
    assert ([id] + t)[0] == id;
    assert ([id] + t)[1..] == t;
  }

  /** The click handler on the selection. An occupied seat is ignored; a
      selected seat is removed; a new seat is appended while fewer than
      `MaxSeats` are selected, and refused with a notice otherwise. */
  function Toggle(selected: seq<string>, occupied: Occupancy, id: string): (r: Result<seq<string>, Notice>)
    ensures IsOccupied(occupied, id) ==> r == Ok(selected)
    ensures !IsOccupied(occupied, id) && id in selected ==>
              r.Ok? && id !in r.value && |r.value| < |selected|
              && forall x :: x != id ==> (x in r.value <==> x in selected)
    ensures !IsOccupied(occupied, id) && id !in selected && |selected| < MaxSeats ==>
              r.Ok? && |r.value| == |selected| + 1 && r.value[..|selected|] == selected && r.value[|selected|] == id
    ensures !IsOccupied(occupied, id) && id !in selected && |selected| >= MaxSeats ==>
              r == Err(SeatLimitReached)
    ensures r.Err? ==> r.error == SeatLimitReached
  {
    if IsOccupied(occupied, id) then Ok(selected)
    else if id in selected then
      WithoutMembers(selected, id);
      Ok(Without(selected, id))
    else if |selected| >= MaxSeats then Err(SeatLimitReached)
    else Ok(selected + [id])
  }

  /** The selection after a click: the new list, or the old one when the
      click was refused. */
  function Clicked(selected: seq<string>, occupied: Occupancy, id: string): (s: seq<string>)
    ensures Toggle(selected, occupied, id).Err? ==> s == selected
    ensures Toggle(selected, occupied, id).Ok? ==> s == Toggle(selected, occupied, id).value
  {
    match Toggle(selected, occupied, id)
    case Ok(next) => next
    case Err(_) => selected
  }

  /** Removing a selected seat from a duplicate-free selection drops exactly
      that seat and keeps the rest in order. */
  lemma ToggleRemovesExactlyThatSeat(selected: seq<string>, occupied: Occupancy, i: nat)
    requires NoDup(selected)
    requires i < |selected|
    requires !IsOccupied(occupied, selected[i])
    ensures Toggle(selected, occupied, selected[i]) == Ok(selected[..i] + selected[i + 1..])
  {
    RemoveExactlyOne(selected, i);
  }

  /** One click keeps a reachable selection reachable. */
  lemma ToggleKeepsSelectionOk(selected: seq<string>, occupied: Occupancy, id: string)
    requires SelectionOk(selected, occupied)
    ensures SelectionOk(Clicked(selected, occupied, id), occupied)
  {
    var r := Toggle(selected, occupied, id);
    if !IsOccupied(occupied, id) && id in selected {
      var i :| 0 <= i < |selected| && selected[i] == id;
      RemoveExactlyOne(selected, i);
      var s := selected[..i] + selected[i + 1..];
      forall p, q | 0 <= p < q < |s|
        ensures s[p] != s[q]
      {
        var p' := if p < i then p else p + 1;
        var q' := if q < i then q else q + 1;
        assert s[p] == selected[p'] && s[q] == selected[q'];
      }
    } else if !IsOccupied(occupied, id) && id !in selected && |selected| < MaxSeats {
      var s := selected + [id];
      forall p, q | 0 <= p < q < |s|
        ensures s[p] != s[q]
      {
        if q == |selected| {
          assert s[p] == selected[p];
        }
      }
    }
  }

  /** The selection after a sequence of clicks, each on the current list. */
  function ClickAll(selected: seq<string>, occupied: Occupancy, ids: seq<string>): seq<string>
    decreases |ids|
  {
    if |ids| == 0 then selected
    else ClickAll(Clicked(selected, occupied, ids[0]), occupied, ids[1..])
  }

  /** Along any sequence of clicks from a reachable selection (in particular
      from the empty one) the selection has no duplicates, holds at most
      `MaxSeats` seats and contains no occupied seat. */
  lemma {:induction false} ClicksKeepSelectionOk(selected: seq<string>, occupied: Occupancy, ids: seq<string>)
    requires SelectionOk(selected, occupied)
    ensures SelectionOk(ClickAll(selected, occupied, ids), occupied)
    decreases |ids|
  {
    if |ids| > 0 {
      ToggleKeepsSelectionOk(selected, occupied, ids[0]);
      ClicksKeepSelectionOk(Clicked(selected, occupied, ids[0]), occupied, ids[1..]);
    }
  }

  /** When every occupant marker is non-empty, the reachable selections are
      disjoint from the occupancy map's keys. */
  lemma ClicksAvoidOccupiedKeys(occupied: Occupancy, ids: seq<string>)
    requires forall k :: k in occupied ==> occupied[k] != ""
    ensures forall id :: id in ClickAll([], occupied, ids) ==> id !in occupied
  {
    ClicksKeepSelectionOk([], occupied, ids);
  }

  /** Clicking twice on a free seat that is not selected, while fewer than
      `MaxSeats` are selected, gives back the same list in the same order. */
  lemma ToggleRoundTrip(selected: seq<string>, occupied: Occupancy, id: string)
    requires !IsOccupied(occupied, id)
    requires id !in selected
    requires |selected| < MaxSeats
    ensures Toggle(selected, occupied, id) == Ok(selected + [id])
    ensures Toggle(selected + [id], occupied, id) == Ok(selected)
  {
    WithoutConcat(selected, [id], id);
    WithoutDropsHead(id, []);
    assert [id] + [] == [id];
    assert selected + [] == selected;
  }

  /** Clicking twice on a selected seat keeps the same seats but moves that
      seat to the end of the list. */
  lemma ToggleTwiceMovesSelectedToEnd(selected: seq<string>, occupied: Occupancy, i: nat)
    requires NoDup(selected)
    requires |selected| <= MaxSeats
    requires i < |selected|
    requires !IsOccupied(occupied, selected[i])
    ensures Clicked(Clicked(selected, occupied, selected[i]), occupied, selected[i])
            == selected[..i] + selected[i + 1..] + [selected[i]]
  {
    var id := selected[i];
    RemoveExactlyOne(selected, i);
    var s := selected[..i] + selected[i + 1..];
    OnlyAt(selected, i);
    assert Clicked(selected, occupied, id) == s;
    assert Toggle(s, occupied, id) == Ok(s + [id]);
  }

  /** The order of a selection matters to repeated clicks: two clicks on the
      first of two selected seats do not restore the list. */
  lemma ToggleTwiceReorders()
    ensures Clicked(Clicked(["B1", "F1"], map[], "B1"), map[], "B1") == ["F1", "B1"]
  {
  }

  /** The eighth seat is accepted; a ninth is refused and the selection keeps
      its eight seats. */
  lemma EighthAcceptedNinthRejected(selected: seq<string>, occupied: Occupancy, id: string, extra: string)
    requires |selected| == MaxSeats - 1
    requires !IsOccupied(occupied, id) && id !in selected
    requires !IsOccupied(occupied, extra) && extra !in selected && extra != id
    ensures |Clicked(selected, occupied, id)| == MaxSeats
    ensures Toggle(Clicked(selected, occupied, id), occupied, extra) == Err(SeatLimitReached)
    ensures |Clicked(Clicked(selected, occupied, id), occupied, extra)| == MaxSeats
  {
  }
}
