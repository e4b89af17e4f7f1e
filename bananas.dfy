/**
 * The values the banana manager works with: the banana record, the entries
 * of its actions log, its two errors, and the pure computations behind
 * `removeBanana`'s lookup, `distributeBananas`' pairing and
 * `getBananaStatistics`.
 */
module Bananas {
  import opened Sequences

  /** `addBanana` accepts freshness in the closed range [0, 10]; 10 when omitted. */
  const MinFreshness: int := 0
  const MaxFreshness: int := 10
  const DefaultFreshness: int := 10

  /** A banana. Its id is supplied by the caller in place of a clock reading. */
  datatype Banana = Banana(id: int, freshness: int)

  /** One `{ user, banana }` pair handed out by `distributeBananas`. */
  datatype Delivery = Delivery(user: string, banana: Banana)

  /** The tagged entries of the actions log: ADD, REMOVE, DISTRIBUTE, SORT, REMOVE_SPOILED. */
  datatype LogEntry =
    | Add(banana: Banana)
    | Remove(banana: Banana)
    | Distribute(distributed: seq<Delivery>)
    | Sort
    | RemoveSpoiled(spoiled: seq<Banana>)

  /** The two exceptions the manager throws. */
  datatype Error = FreshnessOutOfRange | NotEnoughBananas

  datatype Option<T> = None | Some(value: T)

  datatype Outcome = Pass | Fail(error: Error)

  datatype Result<T> = Ok(value: T) | Err(error: Error)

  /** The `{ total, averageFreshness }` record of `getBananaStatistics`. */
  datatype Statistics = Statistics(total: nat, averageFreshness: real)

  /** The type tag the source writes into each log entry; each kind of entry has its own. */
  function Tag(e: LogEntry): (r: string)
    ensures r == "ADD" <==> e.Add?
    ensures r == "REMOVE" <==> e.Remove?
    ensures r == "DISTRIBUTE" <==> e.Distribute?
    ensures r == "SORT" <==> e.Sort?
    ensures r == "REMOVE_SPOILED" <==> e.RemoveSpoiled?
  {
    match e
    case Add(_) => "ADD"
    case Remove(_) => "REMOVE"
    case Distribute(_) => "DISTRIBUTE"
    case Sort => "SORT"
    case RemoveSpoiled(_) => "REMOVE_SPOILED"
  }

  predicate InRange(freshness: int)
  {
    MinFreshness <= freshness <= MaxFreshness
  }

  /**
   * The filter for the spoiled bananas. Among the freshness values
   * `addBanana` accepts, only 0 counts as spoiled.
   */
  predicate IsSpoiled(b: Banana): (r: bool)
    ensures InRange(b.freshness) ==> (r <==> b.freshness == MinFreshness)
  {
    b.freshness <= 0
  }

  /** The filter for the bananas that stay: exactly those that are not spoiled. */
  predicate IsFresh(b: Banana): (r: bool)
    ensures r <==> !IsSpoiled(b)
  {
    b.freshness > 0
  }

  /**
   * The filter `removeBanana` applies: it keeps exactly the bananas in which
   * the lookup by id finds no match.
   */
  function HasOtherId(id: int): (r: Banana -> bool)
    ensures forall b :: r(b) <==> FindById([b], id).None?
  {
    (b: Banana) => b.id != id
  }

  /** `Array.prototype.find` on ids: the first banana carrying `id`, if any. */
  function FindById(s: seq<Banana>, id: int): (r: Option<Banana>)
    ensures r.None? <==> forall i :: 0 <= i < |s| ==> s[i].id != id
    ensures r.Some? ==>
      exists i :: 0 <= i < |s| && s[i] == r.value && r.value.id == id &&
        forall k :: 0 <= k < i ==> s[k].id != id
  {
    if s == [] then None
    else if s[0].id == id then Some(s[0])
    else
      var r := FindById(s[1..], id);
      assert r.Some? ==> (exists i :: 0 <= i < |s| && s[i] == r.value && r.value.id == id &&
                                      forall k :: 0 <= k < i ==> s[k].id != id) by {
        if r.Some? {
          var i :| 0 <= i < |s| - 1 && s[1..][i] == r.value && r.value.id == id &&
            forall k :: 0 <= k < i ==> s[1..][k].id != id;
          assert s[i + 1] == r.value;
        }
      }
      r
  }

  /** After the filter of `removeBanana`, the lookup by that id finds nothing. */
  lemma RemoveLeavesNoMatch(s: seq<Banana>, id: int)
    ensures FindById(Filter(s, HasOtherId(id)), id).None?
  {
    var r := Filter(s, HasOtherId(id));
    forall i | 0 <= i < |r| ensures r[i].id != id {
      assert HasOtherId(id)(r[i]);
    }
  }

  /**
   * When ids are unique, removing by id takes out exactly the one banana
   * found, which is the banana the log records.
   */
  lemma RemoveUniqueId(s: seq<Banana>, i: nat)
    requires i < |s|
    requires forall j :: 0 <= j < |s| && j != i ==> s[j].id != s[i].id
    ensures FindById(s, s[i].id) == Some(s[i])
    ensures Filter(s, HasOtherId(s[i].id)) == s[..i] + s[i + 1..]
  {
    FindUniqueId(s, i);
    FilterUniqueId(s, i);
  }

  lemma FindUniqueId(s: seq<Banana>, i: nat)
    requires i < |s|
    requires forall j :: 0 <= j < |s| && j != i ==> s[j].id != s[i].id
    ensures FindById(s, s[i].id) == Some(s[i])
  {
    var r := FindById(s, s[i].id);
    var k :| 0 <= k < |s| && s[k] == r.value && r.value.id == s[i].id;
    assert k == i;
  }

  lemma FilterUniqueId(s: seq<Banana>, i: nat)
    requires i < |s|
    requires forall j :: 0 <= j < |s| && j != i ==> s[j].id != s[i].id
    ensures Filter(s, HasOtherId(s[i].id)) == s[..i] + s[i + 1..]
  {
    var p, x := HasOtherId(s[i].id), s[i];
    var before, after := s[..i], s[i + 1..];
    assert s == before + [x] + after;
    forall j | 0 <= j < |before| ensures p(before[j]) {
      assert before[j] == s[j];
    }
    forall j | 0 <= j < |after| ensures p(after[j]) {
      assert after[j] == s[i + 1 + j];
    }
    FilterDropsOne(before, x, after, p);
  }

  /** `users.map((user, index) => ({ user, banana: bananas[index] }))`. */
  function Pair(users: seq<string>, s: seq<Banana>): (r: seq<Delivery>)
    requires |users| <= |s|
    ensures |r| == |users|
    ensures forall i :: 0 <= i < |r| ==> r[i] == Delivery(users[i], s[i])
  {
    if users == [] then []
    else [Delivery(users[0], s[0])] + Pair(users[1..], s[1..])
  }

  /** The users of a distribution, in order. */
  function Users(d: seq<Delivery>): (r: seq<string>)
    ensures |r| == |d|
    ensures forall i :: 0 <= i < |d| ==> r[i] == d[i].user
  {
    if d == [] then [] else [d[0].user] + Users(d[1..])
  }

  /** The bananas of a distribution, in order. */
  function Items(d: seq<Delivery>): (r: seq<Banana>)
    ensures |r| == |d|
    ensures forall i :: 0 <= i < |d| ==> r[i] == d[i].banana
  {
    if d == [] then [] else [d[0].banana] + Items(d[1..])
  }

  /**
   * A distribution pairs the users, in their order, with the first bananas
   * of the list, and nothing else: splitting it gives back both inputs.
   */
  lemma PairRoundTrip(users: seq<string>, s: seq<Banana>)
    requires |users| <= |s|
    ensures Users(Pair(users, s)) == users
    ensures Items(Pair(users, s)) == s[..|users|]
  {
    var p := Pair(users, s);
    assert forall i :: 0 <= i < |users| ==> Users(p)[i] == users[i];
    assert forall i :: 0 <= i < |users| ==> Items(p)[i] == s[..|users|][i];
  }

  /** Every distribution is the pairing of its own users with its own bananas. */
  lemma UnpairRoundTrip(d: seq<Delivery>)
    ensures Pair(Users(d), Items(d)) == d
  {
    var p := Pair(Users(d), Items(d));
    assert forall i :: 0 <= i < |d| ==> p[i] == d[i];
  }

  /**
   * `bananas.reduce((sum, b) => sum + b.freshness, 0)`. With every freshness
   * in [0, 10], the total lies in [0, 10 * count].
   */
  function TotalFreshness(s: seq<Banana>): (r: int)
    ensures (forall i :: 0 <= i < |s| ==> InRange(s[i].freshness)) ==>
      MinFreshness * |s| <= r <= MaxFreshness * |s|
  {
    if s == [] then 0 else TotalFreshness(s[..|s| - 1]) + s[|s| - 1].freshness
  }

  lemma {:induction false} TotalFreshnessConcat(a: seq<Banana>, b: seq<Banana>)
    ensures TotalFreshness(a + b) == TotalFreshness(a) + TotalFreshness(b)
  {
    if b == [] {
      assert a + b == a;
    } else {
      TotalFreshnessConcat(a, b[..|b| - 1]);
      assert (a + b)[..|a + b| - 1] == a + b[..|b| - 1];
    }
  }

  /** The total only depends on which bananas there are, not on their order. */
  lemma {:induction false} TotalFreshnessPermutation(s: seq<Banana>, t: seq<Banana>)
    requires multiset(s) == multiset(t)
    ensures TotalFreshness(s) == TotalFreshness(t)
  {
    if s != [] {
      var last := s[|s| - 1];
      assert s == s[..|s| - 1] + [last];
      assert last in multiset(t);
      var i :| 0 <= i < |t| && t[i] == last;
      assert t == t[..i] + [last] + t[i + 1..];
      var rest := t[..i] + t[i + 1..];
      assert multiset(rest) == multiset(t) - multiset{last} by {
        assert multiset(t) == multiset(t[..i]) + multiset{last} + multiset(t[i + 1..]);
      }
      assert multiset(s[..|s| - 1]) == multiset(s) - multiset{last};
      TotalFreshnessPermutation(s[..|s| - 1], rest);
      TotalFreshnessConcat(t[..i] + [last], t[i + 1..]);
      TotalFreshnessConcat(t[..i], [last]);
      TotalFreshnessConcat(t[..i], t[i + 1..]);
      assert TotalFreshness([last]) == last.freshness by {
        assert [last][..0] == [];
      }
    }
  }

  /**
   * `getBananaStatistics`: the count, and the mean freshness, which is
   * exactly 0 for an empty list.
   */
  function StatisticsOf(s: seq<Banana>): (st: Statistics)
    ensures st.total == |s|
    ensures |s| == 0 ==> st.averageFreshness == 0.0
    ensures |s| > 0 ==> st.averageFreshness * (|s| as real) == TotalFreshness(s) as real
  {
    var total := |s|;
    Statistics(total, if total > 0 then TotalFreshness(s) as real / total as real else 0.0)
  }

  /** The mean of freshnesses that all lie in [0, 10] lies in [0, 10] too. */
  lemma AverageInRange(s: seq<Banana>)
    requires forall i :: 0 <= i < |s| ==> InRange(s[i].freshness)
    ensures MinFreshness as real <= StatisticsOf(s).averageFreshness <= MaxFreshness as real
  {
    var st := StatisticsOf(s);
    if |s| > 0 {
      var n := |s| as real;
      assert st.averageFreshness * n <= MaxFreshness as real * n;
      assert st.averageFreshness * n >= MinFreshness as real * n;
    }
  }

  /** Reordering the list leaves the statistics as they were. */
  lemma StatisticsPermutation(s: seq<Banana>, t: seq<Banana>)
    requires multiset(s) == multiset(t)
    ensures StatisticsOf(s) == StatisticsOf(t)
  {
    TotalFreshnessPermutation(s, t);
    assert |s| == |multiset(s)| == |multiset(t)| == |t|;
  }
}
