/**
 * What the actions log means. Every entry records one change to the list of
 * bananas (or none, for DISTRIBUTE), so replaying the log from an empty
 * list rebuilds the list; and every entry holds exactly what the operation
 * that appended it saw at the time.
 */
module ActionsLog {
  import opened Sequences
  import opened Bananas
  import opened Sorting

  /** The change to the list that an entry records. */
  function Apply(s: seq<Banana>, e: LogEntry): seq<Banana>
  {
    match e
    case Add(b) => s + [b]
    case Remove(b) => Filter(s, HasOtherId(b.id))
    case Distribute(_) => s
    case Sort => SortByFreshness(s)
    case RemoveSpoiled(_) => Filter(s, IsFresh)
  }

  /** The list of bananas after the logged actions, starting from an empty list. */
  function Replay(log: seq<LogEntry>): seq<Banana>
  {
    if log == [] then [] else Apply(Replay(log[..|log| - 1]), log[|log| - 1])
  }

  /** `e` is the entry its operation appends when it runs on the list `s`. */
  predicate Records(s: seq<Banana>, e: LogEntry)
  {
    match e
    case Add(b) => InRange(b.freshness)
    case Remove(b) => FindById(s, b.id) == Some(b)
    case Distribute(d) => |d| <= |s| && d == Pair(Users(d), s)
    case Sort => true
    case RemoveSpoiled(spoiled) => spoiled == Filter(s, IsSpoiled)
  }

  /** Every entry of the log records what its operation saw. */
  predicate Faithful(log: seq<LogEntry>)
  {
    log == [] ||
    (Faithful(log[..|log| - 1]) && Records(Replay(log[..|log| - 1]), log[|log| - 1]))
  }

  /** Appending an entry applies it to the replayed list. */
  lemma ReplayAppend(log: seq<LogEntry>, e: LogEntry)
    ensures Replay(log + [e]) == Apply(Replay(log), e)
    ensures Faithful(log + [e]) <==> Faithful(log) && Records(Replay(log), e)
  {
    assert (log + [e])[..|log|] == log;
  }

  /** A faithful log stays faithful when cut short: earlier entries never depend on later ones. */
  lemma {:induction false} FaithfulPrefix(log: seq<LogEntry>, n: nat)
    requires Faithful(log)
    requires n <= |log|
    ensures Faithful(log[..n])
  {
    if n < |log| {
      FaithfulPrefix(log[..|log| - 1], n);
      assert log[..|log| - 1][..n] == log[..n];
    } else {
      assert log[..n] == log;
    }
  }

  /** Replaying a faithful log only ever yields bananas whose freshness `addBanana` accepted. */
  lemma {:induction false} ReplayInRange(log: seq<LogEntry>)
    requires Faithful(log)
    ensures forall i :: 0 <= i < |Replay(log)| ==> InRange(Replay(log)[i].freshness)
  {
    if log != [] {
      var prefix, e := log[..|log| - 1], log[|log| - 1];
      ReplayInRange(prefix);
      var s := Replay(prefix);
      var r := Replay(log);
      assert r == Apply(s, e);
      forall i | 0 <= i < |r| ensures InRange(r[i].freshness) {
        match e
        case Add(b) =>
          if i < |s| { assert r[i] == s[i]; }
        case Remove(b) =>
          FilterCounts(s, HasOtherId(b.id));
          assert r[i] in s;
        case Distribute(_) =>
        case Sort =>
          assert r[i] in multiset(s);
        case RemoveSpoiled(_) =>
          FilterCounts(s, IsFresh);
          assert r[i] in s;
      }
    }
  }
}
