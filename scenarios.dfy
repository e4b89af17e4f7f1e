/**
 * The call sequences of the repository's test suite, written against the model
 * as client code: each method's postcondition states what the model
 * guarantees for that sequence of calls.
 */
module Scenarios {
  import opened Sequences
  import opened Bananas
  import opened Sorting
  import opened Manager

  /** The freshness values of a list, in order. */
  function Freshnesses(s: seq<Banana>): seq<int>
  {
    seq(|s|, i requires 0 <= i < |s| => s[i].freshness)
  }

  /** The type tags of a log, in order. */
  function Tags(log: seq<LogEntry>): seq<string>
  {
    seq(|log|, i requires 0 <= i < |log| => Tag(log[i]))
  }

  /** `addBanana()` with no argument adds one banana of freshness 10; `addBanana(7)` one of freshness 7. */
  method AddScenario() returns (defaulted: seq<int>, given: seq<int>)
    ensures defaulted == [10]
    ensures given == [7]
  {
    var m := new BananaManager();
    var _ := m.AddBanana(1);
    defaulted := Freshnesses(m.GetBananas());
    var n := new BananaManager();
    var _ := n.AddBanana(1, 7);
    given := Freshnesses(n.GetBananas());
  }

  /** `addBanana(-1)` and `addBanana(11)` fail and leave list and log empty. */
  method AddOutOfRangeScenario() returns (low: Outcome, high: Outcome, count: nat, logged: nat)
    ensures low == Fail(FreshnessOutOfRange) && high == Fail(FreshnessOutOfRange)
    ensures count == 0 && logged == 0
  {
    var m := new BananaManager();
    low := m.AddBanana(1, -1);
    high := m.AddBanana(2, 11);
    count, logged := |m.GetBananas()|, |m.GetActionsLog()|;
  }

  /**
   * Adding then removing by the new id empties the list and logs ADD, REMOVE;
   * removing an unknown id afterwards changes nothing.
   */
  method RemoveScenario() returns (count: nat, tags: seq<string>)
    ensures count == 0
    ensures tags == ["ADD", "REMOVE"]
  {
    var m := new BananaManager();
    var _ := m.AddBanana(1);
    m.RemoveBanana(1);
    m.RemoveBanana(999);
    count, tags := |m.GetBananas()|, Tags(m.GetActionsLog());
  }

  /**
   * Two bananas for Alice and Bob: two pairs in user order, a DISTRIBUTE
   * entry third in the log, and both bananas still in the list.
   */
  method DistributeScenario() returns (users: seq<string>, remaining: nat, tags: seq<string>)
    ensures users == ["Alice", "Bob"]
    ensures remaining == 2
    ensures tags == ["ADD", "ADD", "DISTRIBUTE"]
  {
    var m := new BananaManager();
    var _ := m.AddBanana(1);
    var _ := m.AddBanana(2);
    var r := m.DistributeBananas(["Alice", "Bob"]);
    users := [r.value[0].user, r.value[1].user];
    remaining, tags := |m.GetBananas()|, Tags(m.GetActionsLog());
  }

  /** One banana is not enough for two users. */
  method DistributeTooFewScenario() returns (r: Result<seq<Delivery>>, logged: nat)
    ensures r == Err(NotEnoughBananas)
    ensures logged == 1
  {
    var m := new BananaManager();
    var _ := m.AddBanana(1);
    r := m.DistributeBananas(["Alice", "Bob"]);
    logged := |m.GetActionsLog()|;
  }

  /** A sort after one ADD is logged second, as SORT. */
  method SortLogScenario() returns (tags: seq<string>)
    ensures tags == ["ADD", "SORT"]
  {
    var m := new BananaManager();
    var _ := m.AddBanana(1);
    m.SortBananasByFreshness();
    tags := Tags(m.GetActionsLog());
  }

  /**
   * Freshness 5, 10, 1 sort to 10, 5, 1: what `SortBananasByFreshness`
   * leaves in the list after three ADDs of those values.
   */
  lemma SortExample()
    ensures SortByFreshness([Banana(1, 5), Banana(2, 10), Banana(3, 1)])
         == [Banana(2, 10), Banana(1, 5), Banana(3, 1)]
  {
    SortFirstTwo();
    InsertLast();
    assert [Banana(1, 5), Banana(2, 10), Banana(3, 1)][..2] == [Banana(1, 5), Banana(2, 10)];
  }

  lemma SortFirstTwo()
    ensures SortByFreshness([Banana(1, 5), Banana(2, 10)]) == [Banana(2, 10), Banana(1, 5)]
  {
    assert [Banana(1, 5), Banana(2, 10)][..1] == [Banana(1, 5)];
    assert [Banana(1, 5)][..0] == [];
  }

  lemma InsertLast()
    ensures InsertByFreshness([Banana(2, 10), Banana(1, 5)], Banana(3, 1))
         == [Banana(2, 10), Banana(1, 5), Banana(3, 1)]
  {
    assert [Banana(2, 10), Banana(1, 5)][1..] == [Banana(1, 5)];
  }

  /** Of freshness 0 and 5, the 0 is returned as spoiled and the 5 stays. */
  method RemoveSpoiledScenario() returns (spoiled: nat, remaining: nat, tags: seq<string>)
    ensures spoiled == 1 && remaining == 1
    ensures tags == ["ADD", "ADD", "REMOVE_SPOILED"]
  {
    var m := new BananaManager();
    var _ := m.AddBanana(1, 0);
    var _ := m.AddBanana(2, 5);
    var s := m.RemoveSpoiledBananas();
    spoiled, remaining, tags := |s|, |m.GetBananas()|, Tags(m.GetActionsLog());
  }

  /** With nothing spoiled the call still succeeds and still logs, with an empty payload. */
  method NothingSpoiledScenario() returns (spoiled: seq<Banana>, last: LogEntry)
    ensures spoiled == []
    ensures last == RemoveSpoiled([])
  {
    var m := new BananaManager();
    var _ := m.AddBanana(1, 5);
    spoiled := m.RemoveSpoiledBananas();
    last := m.GetActionsLog()[1];
  }

  /** Freshness 5 and 10 average 7.5; an empty list has total 0 and average 0. */
  method StatisticsScenario() returns (filled: Statistics, empty: Statistics)
    ensures filled == Statistics(2, 7.5)
    ensures empty == Statistics(0, 0.0)
  {
    var m := new BananaManager();
    empty := m.GetBananaStatistics();
    var _ := m.AddBanana(1, 5);
    var _ := m.AddBanana(2, 10);
    assert m.bananas == [Banana(1, 5), Banana(2, 10)];
    assert TotalFreshness(m.bananas) == 15 by {
      assert [Banana(1, 5), Banana(2, 10)][..1] == [Banana(1, 5)];
      assert [Banana(1, 5)][..0] == [];
      assert TotalFreshness([Banana(1, 5)]) == 5;
    }
    filled := m.GetBananaStatistics();
  }

  /** Two ADDs and a REMOVE of the first banana leave three entries in call order. */
  method LogScenario() returns (tags: seq<string>, remaining: nat)
    ensures tags == ["ADD", "ADD", "REMOVE"]
    ensures remaining == 1
  {
    var m := new BananaManager();
    var _ := m.AddBanana(1);
    var _ := m.AddBanana(2);
    var first := m.GetBananas()[0];
    assert first == Banana(1, 10);
    m.RemoveBanana(first.id);
    assert m.bananas == Filter([Banana(1, 10), Banana(2, 10)], HasOtherId(1));
    assert m.bananas == [Banana(2, 10)] by {
      assert [Banana(1, 10), Banana(2, 10)][1..] == [Banana(2, 10)];
      assert [Banana(2, 10)][1..] == [];
    }
    tags, remaining := Tags(m.GetActionsLog()), |m.GetBananas()|;
  }

  /**
   * Two bananas added within one clock tick share an id: removing that id
   * removes both, while the log records only the first.
   */
  method SharedIdScenario() returns (remaining: nat, tags: seq<string>, removed: Banana)
    ensures remaining == 0
    ensures tags == ["ADD", "ADD", "REMOVE"]
    ensures removed == Banana(7, 10)
  {
    var m := new BananaManager();
    var _ := m.AddBanana(7);
    var _ := m.AddBanana(7, 4);
    m.RemoveBanana(7);
    remaining, tags := |m.GetBananas()|, Tags(m.GetActionsLog());
    removed := m.GetActionsLog()[2].banana;
  }
}
