/** The "recommended for you" strip: the rooms whose hotel city is exactly
    one of the searched destinations, of which the first four are shown. */
module Recommended {
  import opened Base
  import opened Catalog

  /** The strip shows at most this many rooms. */
  const ShownLimit := 4

  /** The room's city is, character for character, one of the entries. */
  predicate InHistory(room: Room, history: seq<string>)
  {
    CityOf(room).Some? && CityOf(room).value in history
  }

  function KeepSearched(rooms: seq<Room>, history: seq<string>): (r: seq<Room>)
    ensures forall x :: multiset(r)[x] == if InHistory(x, history) then multiset(rooms)[x] else 0
  {
    if |rooms| == 0 then []
    else
      assert rooms == [rooms[0]] + rooms[1..];
      (if InHistory(rooms[0], history) then [rooms[0]] else []) + KeepSearched(rooms[1..], history)
  }

  lemma {:induction false} KeepSearchedIsSubsequence(rooms: seq<Room>, history: seq<string>)
    ensures IsSubsequence(KeepSearched(rooms, history), rooms)
  {
    if |rooms| > 0 {
      var rest := KeepSearched(rooms[1..], history);
      KeepSearchedIsSubsequence(rooms[1..], history);
      if InHistory(rooms[0], history) {
        assert KeepSearched(rooms, history) == [rooms[0]] + rest;
        assert ([rooms[0]] + rest)[1..] == rest;
      } else {
        assert KeepSearched(rooms, history) == rest;
      }
    }
  }

  /** `filterHotels`: nothing without a history or without rooms; otherwise
      the rooms whose city is in the history, in catalog order. */
  function Recommend(history: seq<string>, rooms: seq<Room>): (r: seq<Room>)
    ensures |history| == 0 ==> r == []
    ensures |rooms| == 0 ==> r == []
    ensures forall x :: x in r <==> x in rooms && InHistory(x, history)
  {
    if |history| > 0 && |rooms| > 0 then
      var kept := KeepSearched(rooms, history);
      assert forall x :: x in kept <==> multiset(kept)[x] > 0;
      kept
    else []
  }

  /** The recommendation keeps catalog order and repeats each recommended
      room as often as the catalog holds it. */
  lemma RecommendIsOrderedSelection(history: seq<string>, rooms: seq<Room>)
    requires |history| > 0
    ensures IsSubsequence(Recommend(history, rooms), rooms)
    ensures forall x :: InHistory(x, history) ==> multiset(Recommend(history, rooms))[x] == multiset(rooms)[x]
  {
    KeepSearchedIsSubsequence(rooms, history);
  }

  /** Membership is exact: a room whose city differs from every entry, even
      only in letter case, is not recommended. */
  lemma ExactCityMatch(history: seq<string>, rooms: seq<Room>, room: Room)
    requires CityOf(room).Some? && CityOf(room).value !in history
    ensures room !in Recommend(history, rooms)
  {
  }

  /** `recommended.slice(0, 4)`: the first four recommendations, or all
      of them when there are fewer. */
  function Shown(history: seq<string>, rooms: seq<Room>): (r: seq<Room>)
    ensures |r| == Min(ShownLimit, |Recommend(history, rooms)|)
    ensures r <= Recommend(history, rooms)
  {
    Preview(Recommend(history, rooms), ShownLimit)
  }

  /** What the section renders: nothing without a history, the "No hotels
      found in the searched cities" note when nothing is recommended, and
      otherwise the cards of the shown rooms. */
  datatype Section = Hidden | NoMatches | Cards(shown: seq<Room>)

  function Render(history: seq<string>, rooms: seq<Room>): (r: Section)
    ensures r.Hidden? <==> |history| == 0
    ensures r.NoMatches? <==> |history| > 0 && |Recommend(history, rooms)| == 0
    ensures r.Cards? ==> r.shown == Shown(history, rooms) && 0 < |r.shown| <= ShownLimit
  {
    if |history| == 0 then Hidden
    else if |Recommend(history, rooms)| == 0 then NoMatches
    else Cards(Shown(history, rooms))
  }

  /** With a history but an empty catalog, the note is shown. */
  lemma EmptyCatalogShowsNote(history: seq<string>)
    requires |history| > 0
    ensures Render(history, []) == NoMatches
  {
  }

  /** A searched city with one to four matching rooms shows every one of
      them, in catalog order. */
  lemma FewRecommendationsAllShown(history: seq<string>, rooms: seq<Room>)
    requires 0 < |Recommend(history, rooms)| <= ShownLimit
    ensures Render(history, rooms) == Cards(Recommend(history, rooms))
  {
  }
}
