/** The hero search box's record of searched destinations: the new
    destination is appended and, when that makes more than three entries,
    the oldest one is dropped. */
module SearchHistory {

  const Capacity := 3

  /** `onSearch`'s update of `searchedCities`: append, then `shift()` once
      if the result is longer than three. */
  function Push(history: seq<string>, destination: string): (r: seq<string>)
    ensures |r| > 0 && r[|r| - 1] == destination
    ensures |history| < Capacity ==> r == history + [destination]
    ensures |history| >= Capacity ==> |r| == |history| && r == history[1..] + [destination]
    ensures |history| <= Capacity ==> |r| <= Capacity
  {
    var updated := history + [destination];
    if |updated| > Capacity then updated[1..] else updated
  }

  /** The oldest entry is evicted from a full history, the others move up
      one place and keep their order, and duplicates stay: searching a city
      already present adds another copy. */
  lemma FullHistoryEvictsOldest(history: seq<string>, destination: string)
    requires |history| == Capacity
    ensures |Push(history, destination)| == Capacity
    ensures Push(history, destination)[0] == history[1]
    ensures Push(history, destination)[1] == history[2]
    ensures Push(history, destination)[2] == destination
  {
  }

  /** Re-searching a city that is in a short history adds a second copy. */
  lemma DuplicatesKept(history: seq<string>, destination: string)
    requires |history| < Capacity && destination in history
    ensures multiset(Push(history, destination))[destination] == multiset(history)[destination] + 1
  {
  }

  /** The last `n` entries of `s` (all of them when there are fewer). */
  function LastN(s: seq<string>, n: nat): (r: seq<string>)
    ensures |r| <= n && |r| <= |s|
  {
    if |s| <= n then s else s[|s| - n..]
  }

  /** The history after a run of searches, one `Push` per search. */
  function PushAll(history: seq<string>, destinations: seq<string>): seq<string>
    decreases |destinations|
  {
    if |destinations| == 0 then history
    else PushAll(Push(history, destinations[0]), destinations[1..])
  }

  /** Starting from a history of at most three entries, any run of
      searches leaves exactly the last three of everything searched (with
      the starting entries counted first), oldest first. */
  lemma {:induction false} PushAllKeepsLastThree(history: seq<string>, destinations: seq<string>)
    requires |history| <= Capacity
    ensures PushAll(history, destinations) == LastN(history + destinations, Capacity)
    decreases |destinations|
  {
    if |destinations| == 0 {
      assert history + destinations == history;
    } else {
      var d := destinations[0];
      var next := Push(history, d);
      PushAllKeepsLastThree(next, destinations[1..]);
      var all := history + destinations;
      var all' := next + destinations[1..];
      assert (history + [d]) + destinations[1..] == all;
      if |history| < Capacity {
        assert all' == all;
      } else {
        assert all' == all[1..];
        assert LastN(all', Capacity) == LastN(all, Capacity);
      }
    }
  }
}
