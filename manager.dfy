/**
 * The object returned by the `bananaManager` factory: a list of bananas and
 * an append-only actions log, changed only by its methods. Each method that
 * changes something either appends exactly one log entry or, when it
 * fails, changes neither the list nor the log.
 */
module Manager {
  import opened Sequences
  import opened Bananas
  import opened Sorting
  import opened ActionsLog

  class BananaManager {
    var bananas: seq<Banana>
    var log: seq<LogEntry>

    /** The log is faithful and replaying it gives the list. */
    ghost predicate Valid()
      reads this
    {
      Faithful(log) && Replay(log) == bananas
    }

    /** `bananaManager()`: an empty list and an empty log. */
    constructor ()
      ensures Valid()
      ensures bananas == [] && log == []
    {
      bananas := [];
      log := [];
    }

    /**
     * `addBanana(freshness = 10)`. The id is the caller's stand-in for the
     * clock reading the source uses.
     */
    method AddBanana(id: int, freshness: int := DefaultFreshness) returns (r: Outcome)
      requires Valid()
      modifies this
      ensures Valid()
      ensures !InRange(freshness) ==>
        r == Fail(FreshnessOutOfRange) && bananas == old(bananas) && log == old(log)
      ensures InRange(freshness) ==>
        r == Pass &&
        bananas == old(bananas) + [Banana(id, freshness)] &&
        log == old(log) + [Add(Banana(id, freshness))]
    {
      if freshness < MinFreshness || freshness > MaxFreshness {
        return Fail(FreshnessOutOfRange);
      }
      var banana := Banana(id, freshness);
      ReplayAppend(log, Add(banana));
      bananas := bananas + [banana];
      log := log + [Add(banana)];
      r := Pass;
    }

    /**
     * `removeBanana(id)`: when some banana carries `id`, every banana with
     * that id leaves the list and one REMOVE entry records the first of
     * them; otherwise nothing happens, and nothing fails.
     */
    method RemoveBanana(id: int)
      requires Valid()
      modifies this
      ensures Valid()
      ensures FindById(old(bananas), id).None? ==> bananas == old(bananas) && log == old(log)
      ensures FindById(old(bananas), id).Some? ==>
        bananas == Filter(old(bananas), HasOtherId(id)) &&
        log == old(log) + [Remove(FindById(old(bananas), id).value)]
    ensures FindById(bananas, id).None?
    {
      var banana := FindById(bananas, id);
      if banana.Some? {
        ReplayAppend(log, Remove(banana.value));
        RemoveLeavesNoMatch(bananas, id);
        bananas := Filter(bananas, HasOtherId(id));
        log := log + [Remove(banana.value)];
      }
    }

    /** `getBananas()`: the list, which is what the log replays to. */
    function GetBananas(): (r: seq<Banana>)
      reads this
      requires Valid()
      ensures r == bananas && r == Replay(log)
      ensures forall i :: 0 <= i < |r| ==> InRange(r[i].freshness)
    {
      ReplayInRange(log);
      bananas
    }

    /**
     * `distributeBananas(users)`: pairs the i-th user with the i-th banana
     * and logs the pairs. The bananas stay in the list.
     */
    method DistributeBananas(users: seq<string>) returns (r: Result<seq<Delivery>>)
      requires Valid()
      modifies this
      ensures Valid()
      ensures bananas == old(bananas)
      ensures |bananas| < |users| ==> r == Err(NotEnoughBananas) && log == old(log)
      ensures |users| <= |bananas| ==>
        r.Ok? && |r.value| == |users| &&
        (forall i :: 0 <= i < |users| ==> r.value[i] == Delivery(users[i], bananas[i])) &&
        log == old(log) + [Distribute(r.value)]
    {
      if |bananas| < |users| {
        return Err(NotEnoughBananas);
      }
      var distributed := Pair(users, bananas);
      PairRoundTrip(users, bananas);
      ReplayAppend(log, Distribute(distributed));
      log := log + [Distribute(distributed)];
      r := Ok(distributed);
    }

    /**
     * `sortBananasByFreshness()`: reorders the list highest freshness first,
     * keeping bananas of equal freshness in their old order, and logs SORT.
     */
    method SortBananasByFreshness()
      requires Valid()
      modifies this
      ensures Valid()
      ensures bananas == SortByFreshness(old(bananas))
      ensures NonIncreasing(bananas)
      ensures multiset(bananas) == multiset(old(bananas))
      ensures KeepsTies(old(bananas), bananas)
      ensures StatisticsOf(bananas) == StatisticsOf(old(bananas))
      ensures log == old(log) + [Sort]
    {
      var sorted := InsertionSort(bananas);
      StatisticsPermutation(bananas, sorted);
      ReplayAppend(log, Sort);
      bananas := sorted;
      log := log + [Sort];
    }

    /**
     * `removeSpoiledBananas()`: splits the list into the spoiled bananas,
     * returned and logged, and the fresh ones, which stay; both keep their
     * order. The entry is appended even when nothing is spoiled.
     */
    method RemoveSpoiledBananas() returns (spoiled: seq<Banana>)
      requires Valid()
      modifies this
      ensures Valid()
      ensures spoiled == Filter(old(bananas), IsSpoiled)
      ensures bananas == Filter(old(bananas), IsFresh)
      ensures |spoiled| + |bananas| == |old(bananas)|
      ensures multiset(spoiled) + multiset(bananas) == multiset(old(bananas))
      ensures log == old(log) + [RemoveSpoiled(spoiled)]
    {
      spoiled := Filter(bananas, IsSpoiled);
      FilterComplement(bananas, IsSpoiled, IsFresh);
      ReplayAppend(log, RemoveSpoiled(spoiled));
      bananas := Filter(bananas, IsFresh);
      log := log + [RemoveSpoiled(spoiled)];
    }

    /**
     * `getBananaStatistics()`: the count and the mean freshness of the list,
     * 0 when it is empty; the mean lies in [0, 10].
     */
    function GetBananaStatistics(): (st: Statistics)
      reads this
      requires Valid()
      ensures st == StatisticsOf(bananas)
      ensures st.total == |bananas|
      ensures MinFreshness as real <= st.averageFreshness <= MaxFreshness as real
    {
      ReplayInRange(log);
      AverageInRange(bananas);
      StatisticsOf(bananas)
    }

    /** `getActionsLog()`: the log, which replays to the list. */
    function GetActionsLog(): (r: seq<LogEntry>)
      reads this
      requires Valid()
      ensures r == log
      ensures Faithful(r) && Replay(r) == bananas
    {
      log
    }
  }
}
