# Banana manager, modelled in Dafny

The `bananaManager` factory (`src/bananaManager.js`) returns an object that
owns two pieces of state: an ordered list of bananas, each with an id and a
freshness score, and an append-only actions log. Its operations add a
banana (freshness 0 to 10, default 10), remove bananas by id, hand the first
N bananas to N users, sort the list highest freshness first, remove the
spoiled bananas (freshness at most 0), report statistics, and return the
list and the log.

The model is the class `Manager.BananaManager` with two `seq` fields,
`bananas` and `log`, and one method per mutating operation. A method either
appends exactly one log entry, or fails and leaves both fields as they were,
or (only `RemoveBanana` with an id no banana carries) changes nothing and
does not fail. Each states its new state in terms of the old one. The pure parts
the methods use live in their own modules:

- `Sequences`: order-keeping `Filter`, the model of `Array.prototype.filter`.
- `Bananas`: the banana, log-entry, error and statistics datatypes; the
  `find` by id; the user/banana pairing; the freshness total and average.
- `Sorting`: the stable sort highest freshness first, as an insertion sort
  (`SortByFreshness`) and as a loop (`InsertionSort`). It is proved
  ordered, a permutation and stable. It is also proved to be the only list
  with those three properties, so it agrees with any stable comparator sort.
- `ActionsLog`: what the log means. Replaying it from an empty list rebuilds
  the list (`Replay`). Every entry holds what its operation saw when it ran
  (`Faithful`). Together these are the class invariant `Valid()`.
- `Scenarios`: the call sequences of `__tests__/bananaManager.test.js`,
  written as client code with their outcomes as postconditions.

Two behaviours of the code deserve a note, and the model keeps both:

- `removeBanana` removes every banana carrying the id (line 21) but logs
  only the first one found (lines 19, 22). Ids come from the clock, so two
  bananas added in the same millisecond share one. `SharedIdScenario` shows
  both leaving with one REMOVE entry. `RemoveUniqueId` shows that with
  unique ids exactly the logged banana leaves.
- `distributeBananas` does not take the distributed bananas out of the list
  (lines 34-39). The test at `__tests__/bananaManager.test.js:75` expects the
  list to be empty after distributing both bananas. That expectation
  contradicts the code. `DistributeScenario` proves that two bananas remain.

## Model

| member | source | states |
|---|---|---|
| `Sequences.Filter` | src/bananaManager.js:21 | the result is no longer than the input and every element passes the predicate |
| `Sequences.FilterCounts` | src/bananaManager.js:50-51 | a filter keeps every occurrence of each passing element and nothing else |
| `Sequences.FilterConcat` | src/bananaManager.js:51 | filtering a concatenation filters each part: the kept elements stay in their relative order |
| `Sequences.FilterComplement` | src/bananaManager.js:50-51 | two complementary filters split the list: their multisets add up to the list's and their lengths to its length |
| `Bananas.Tag` | src/bananaManager.js:14-52 | the `type` string of each entry (ADD, REMOVE, DISTRIBUTE, SORT, REMOVE_SPOILED); each string belongs to exactly one kind of entry |
| `Bananas.IsSpoiled` | src/bananaManager.js:50 | the spoiled filter `freshness <= 0`; among accepted freshness values it holds exactly for 0 |
| `Bananas.IsFresh` | src/bananaManager.js:51 | the kept filter `freshness > 0`; it holds exactly when the banana is not spoiled |
| `Bananas.HasOtherId` | src/bananaManager.js:21 | the filter callback keeps a banana exactly when the lookup by id at line 19 would not match it |
| `Bananas.RemoveLeavesNoMatch` | src/bananaManager.js:19-21 | after the filter by id, the lookup by that id finds nothing |
| `Bananas.FindById` | src/bananaManager.js:19 | none is found iff no banana has the id; otherwise the result is a banana with the id and none before it has that id |
| `Bananas.RemoveUniqueId` | src/bananaManager.js:18-24 | when ids are unique, find returns that banana and filtering by id removes exactly that one position |
| `Bananas.Pair` | src/bananaManager.js:34-37 | one pair per user; the i-th pair is the i-th user with the i-th banana |
| `Bananas.PairRoundTrip` | src/bananaManager.js:34-37 | splitting a distribution gives back the users and the first bananas of the list |
| `Bananas.UnpairRoundTrip` | src/bananaManager.js:34-37 | every distribution is the pairing of its own users with its own bananas |
| `Bananas.TotalFreshnessPermutation` | src/bananaManager.js:60 | the freshness sum does not depend on the order of the list |
| `Bananas.TotalFreshness` | src/bananaManager.js:60 | the `reduce` sum of the freshnesses; with every freshness in [0, 10] it lies in [0, 10 * count] |
| `Bananas.StatisticsOf` | src/bananaManager.js:57-63 | total is the length; the average times the total is the freshness sum, and the average is 0 for an empty list |
| `Bananas.AverageInRange` | src/bananaManager.js:57-63 | the average of freshnesses in [0, 10] lies in [0, 10] |
| `Bananas.StatisticsPermutation` | src/bananaManager.js:57-63 | reordering the list, as the sort does, leaves the statistics unchanged |
| `Sorting.InsertAddsOne` | src/bananaManager.js:44 | inserting adds the banana and loses nothing |
| `Sorting.InsertKeepsOrder` | src/bananaManager.js:44 | inserting into a list ordered highest freshness first keeps it ordered |
| `Sorting.SortByFreshness` | src/bananaManager.js:44 | the sorted list is a permutation of the input and is non-increasing in freshness |
| `Sorting.InsertionPoint` | src/bananaManager.js:44 | the returned position follows every banana at least as fresh and precedes the first less fresh one |
| `Sorting.InsertAt` | src/bananaManager.js:44 | inserting at that position is what `InsertByFreshness` does |
| `Sorting.InsertionSort` | src/bananaManager.js:44 | the loop returns `SortByFreshness`: ordered, a permutation, and keeping ties in their old order |
| `Sorting.InsertKeepsTies` | src/bananaManager.js:44 | in a sorted list, the inserted banana goes after every banana of its own freshness |
| `Sorting.SortKeepsTies` | src/bananaManager.js:44 | for each freshness value, the sort keeps that value's bananas in their original order (stability) |
| `Sorting.SortIsStable` | src/bananaManager.js:44 | the sort keeps ties for every freshness value at once |
| `Sorting.KeepsTiesIsPermutation` | src/bananaManager.js:44 | a rearrangement that keeps ties in order is a permutation |
| `Sorting.SortedWithSameTiesAreEqual` | src/bananaManager.js:44 | two non-increasing lists with the same order among ties are equal |
| `Sorting.StableSortIsUnique` | src/bananaManager.js:44 | any non-increasing list that keeps the input's ties in order equals `SortByFreshness` |
| `ActionsLog.ReplayAppend` | src/bananaManager.js:14 | appending an entry applies its change to the replayed list; the log stays faithful iff the entry records what its operation saw |
| `ActionsLog.FaithfulPrefix` | src/bananaManager.js:5 | every prefix of a faithful log is faithful: later entries never alter the meaning of earlier ones |
| `ActionsLog.ReplayInRange` | src/bananaManager.js:8-15 | replaying a faithful log yields only bananas with freshness in [0, 10] |
| `Manager.BananaManager.constructor` | src/bananaManager.js:1-5 | a new manager has an empty list and an empty log |
| `Manager.BananaManager.AddBanana` | src/bananaManager.js:8-15 | out of range: fails, list and log unchanged; in range: one banana appended with that freshness (10 by default) and one ADD entry carrying it |
| `Manager.BananaManager.RemoveBanana` | src/bananaManager.js:18-24 | no match: list and log unchanged, no failure; a match: every banana with the id leaves, the others stay in order, one REMOVE entry carries the first match; afterwards no banana carries the id |
| `Manager.BananaManager.GetBananas` | src/bananaManager.js:27 | returns the list itself, which is what the log replays to, and every freshness in it lies in [0, 10] |
| `Manager.BananaManager.DistributeBananas` | src/bananaManager.js:30-40 | too few bananas: fails, nothing changes; otherwise one pair per user, i-th user with i-th banana, logged as one DISTRIBUTE entry, the list unchanged |
| `Manager.BananaManager.SortBananasByFreshness` | src/bananaManager.js:43-46 | the list becomes its stable non-increasing sort, a permutation of the old list with the same statistics, and one SORT entry is appended |
| `Manager.BananaManager.RemoveSpoiledBananas` | src/bananaManager.js:49-54 | returns the spoiled bananas in order and logs them in one entry, even when there are none; keeps the fresh ones in order; the two together are the old list |
| `Manager.BananaManager.GetBananaStatistics` | src/bananaManager.js:57-63 | total is the length and the average lies in [0, 10] |
| `Manager.BananaManager.GetActionsLog` | src/bananaManager.js:66 | returns the log itself, every entry in call order; it is faithful and replays to the list |
| `Scenarios.AddScenario` | __tests__/bananaManager.test.js:11-22 | no argument gives freshness 10; argument 7 gives freshness 7 |
| `Scenarios.AddOutOfRangeScenario` | __tests__/bananaManager.test.js:24-30 | -1 and 11 both fail with the range error and leave list and log empty |
| `Scenarios.RemoveScenario` | __tests__/bananaManager.test.js:34-51 | add then remove by that id empties the list and logs ADD, REMOVE; an unknown id changes nothing |
| `Scenarios.DistributeScenario` | __tests__/bananaManager.test.js:67-91 | users come back in order, DISTRIBUTE is third in the log, and both bananas remain in the list |
| `Scenarios.DistributeTooFewScenario` | __tests__/bananaManager.test.js:78-82 | one banana for two users fails with the shortage error; the log holds only the ADD |
| `Scenarios.SortExample` | __tests__/bananaManager.test.js:95-104 | freshness 5, 10, 1 sort to 10, 5, 1 |
| `Scenarios.SortLogScenario` | __tests__/bananaManager.test.js:106-111 | a sort after one ADD is logged second as SORT |
| `Scenarios.RemoveSpoiledScenario` | __tests__/bananaManager.test.js:115-128 | of freshness 0 and 5, one banana is spoiled and one remains; REMOVE_SPOILED is logged |
| `Scenarios.NothingSpoiledScenario` | __tests__/bananaManager.test.js:130-133 | with nothing spoiled the call still succeeds and logs an empty payload |
| `Scenarios.StatisticsScenario` | __tests__/bananaManager.test.js:137-149 | freshness 5 and 10 give total 2 and average 7.5; an empty list gives 0 and 0 |
| `Scenarios.LogScenario` | __tests__/bananaManager.test.js:153-162 | two ADDs and a REMOVE give three entries in call order |
| `Scenarios.SharedIdScenario` | src/bananaManager.js:12-22 | two bananas sharing an id both leave on removal, and the REMOVE entry records the first |

## Left out

- `addedAt: new Date()` and the `Date.now()` id (src/bananaManager.js:12) are clock reads. The caller passes the id, and the timestamp is not modelled.
- Freshness is an `int`. The range check at line 9 coerces its argument to a number. So the source also accepts fractions such as 7.5, values that coerce into [0, 10] such as `null` (0), `true` (1) or the string `"5"`, and values that coerce to `NaN`, such as plain objects or non-numeric strings, for which both comparisons are false. It stores the value as given. None of these are modelled; numeric strings out of range, such as `"11"`, are rejected like the numbers they coerce to.
- The average is an exact `real`. IEEE double rounding in the division at line 60 is not modelled.
- The error messages are not modelled. The two thrown errors are the variants `FreshnessOutOfRange` and `NotEnoughBananas`.
- The source hands out live arrays. `getBananas` and `getActionsLog` return the manager's own list and log (lines 27, 66). `distributeBananas` and `removeSpoiledBananas` return the very arrays stored in their DISTRIBUTE and REMOVE_SPOILED entries (lines 38-39, 52-53). A caller can therefore change the list, or rewrite entries already logged, through them. The model returns `seq` values and its log entries are immutable, so this aliasing cannot happen and is not modelled; `Faithful` and `FaithfulPrefix` hold only for a caller that does not write to those arrays.
- `Array.prototype.sort`'s own algorithm is not modelled. The model sorts by insertion. `StableSortIsUnique` shows that every stable sort with the same comparator gives the same list.
- The test's expectation at `__tests__/bananaManager.test.js:75`, that distributing removes bananas from the list, is not modelled. The code does not remove them.
- `distributeBananas` accepts any value with a `length` and a `map` method as `users`, and each user can be any value. The model takes a `seq<string>`.
- How the test file imports the factory is not modelled. It calls `require` for a default export, while the module has a named ES export.
