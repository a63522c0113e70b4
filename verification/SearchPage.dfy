/** Result pages of the agent search: appending a page, and the pagination of a grown list. */
module SearchPage {
  import opened Common

  /** A hotel offer: its id, and everything else the server says about it. */
  datatype Hotel = Hotel(hotelId: string, offer: nat)

  datatype Pagination = Pagination(limit: nat, offset: nat, total: nat, hasMore: bool, nextOffset: Option<nat>)

  function Ids(hotels: seq<Hotel>): set<string> {
    set h | h in hotels :: h.hotelId
  }

  predicate DistinctIds(hotels: seq<Hotel>) {
    forall i, j | 0 <= i < j < |hotels| :: hotels[i].hotelId != hotels[j].hotelId
  }

  /** The incoming hotels that are not seen yet, each id once, in order. */
  function NewHotels(seen: set<string>, incoming: seq<Hotel>): seq<Hotel>
    decreases incoming
  {
    if incoming == [] then []
    else if incoming[0].hotelId in seen then NewHotels(seen, incoming[1..])
    else [incoming[0]] + NewHotels(seen + {incoming[0].hotelId}, incoming[1..])
  }

  lemma {:induction false} NewHotelsAreNew(seen: set<string>, incoming: seq<Hotel>)
    ensures forall h | h in NewHotels(seen, incoming) :: h in incoming && h.hotelId !in seen
    ensures DistinctIds(NewHotels(seen, incoming))
    ensures Ids(NewHotels(seen, incoming)) == Ids(incoming) - seen
    decreases incoming
  {
    if incoming != [] {
      var h, rest := incoming[0], incoming[1..];
      assert incoming == [h] + rest;
      assert Ids(incoming) == {h.hotelId} + Ids(rest);
      if h.hotelId in seen {
        NewHotelsAreNew(seen, rest);
      } else {
        NewHotelsAreNew(seen + {h.hotelId}, rest);
        var new' := NewHotels(seen + {h.hotelId}, rest);
        assert NewHotels(seen, incoming) == [h] + new';
        assert Ids([h] + new') == {h.hotelId} + Ids(new');
      }
    }
  }

  /**
   * `appendHotelPage`: the shown hotels keep their places, and the list grows by exactly the ids that were missing,
   * once each, so a duplicate-free list stays duplicate-free whatever the server repeats.
   */
  method AppendHotelPage(current: seq<Hotel>, incoming: seq<Hotel>) returns (hotels: seq<Hotel>, added: seq<Hotel>)
    ensures added == NewHotels(Ids(current), incoming)
    ensures hotels == current + added
    ensures Ids(hotels) == Ids(current) + Ids(incoming)
    ensures DistinctIds(current) ==> DistinctIds(hotels)
  {
    hide Ids, DistinctIds;
    var seen := Ids(current);
    added := [];
    for i := 0 to |incoming|
      invariant added + NewHotels(seen, incoming[i..]) == NewHotels(Ids(current), incoming)
    {
      assert incoming[i..][1..] == incoming[i + 1..];
      if incoming[i].hotelId !in seen {
        assert NewHotels(seen, incoming[i..]) == [incoming[i]] + NewHotels(seen + {incoming[i].hotelId}, incoming[i + 1..]);
        seen := seen + {incoming[i].hotelId};
        added := added + [incoming[i]];
      }
    }
    hotels := current + added;
    AppendedIds(current, incoming);
  }

  lemma {:induction false} AppendedIds(current: seq<Hotel>, incoming: seq<Hotel>)
    ensures var hotels := current + NewHotels(Ids(current), incoming);
            Ids(hotels) == Ids(current) + Ids(incoming) && (DistinctIds(current) ==> DistinctIds(hotels))
  {
    var added := NewHotels(Ids(current), incoming);
    NewHotelsAreNew(Ids(current), incoming);
    hide NewHotels;
    assert Ids(current + added) == Ids(current) + Ids(added);
    assert forall h | h in current :: h.hotelId in Ids(current);
  }

  /** The window keeps its start; the rest comes from the newest page. */
  function PaginationAfterLoadMore(current: Option<Pagination>, next: Option<Pagination>, loaded: nat): Pagination {
    var offset := if current.Some? then current.value.offset else 0;
    if next.None? then Pagination(if current.Some? then current.value.limit else loaded, offset, loaded, false, None)
    else next.value.(offset := offset)
  }
}
