/** The client-side view of the feature list on the features page: the
    fetched features are filtered by status (or `ALL`) and the fresh filtered
    array is sorted with a comparator chosen by `sortBy`. */
module FeaturesPage {
  import opened Domain
  import opened Sorting

  /** The page's filter state: a status selector and a sort name. */
  datatype Filters = Filters(status: StatusFilter, sortBy: string)

  /** The filter callback: `ALL` lets every feature through, otherwise the status must match. */
  predicate Passes(status: StatusFilter, f: FeatureWithVotes)
  {
    WhereHolds(if status.All? then None else Some(status.status), f.feature)
  }

  /** `features.filter(...)`: the passing features, each as often as in the input, in input order. */
  function FilterByStatus(status: StatusFilter, features: seq<FeatureWithVotes>): (r: seq<FeatureWithVotes>)
    ensures forall f :: multiset(r)[f] == if Passes(status, f) then multiset(features)[f] else 0
    ensures forall i :: 0 <= i < |r| ==> Passes(status, r[i])
  {
    if features == [] then []
    else
      assert features == [features[0]] + features[1..];
      (if Passes(status, features[0]) then [features[0]] else []) + FilterByStatus(status, features[1..])
  }

  /** The comparator of the `sort` call; a negative result puts `a` first. */
  function Compare(sortBy: string, a: FeatureWithVotes, b: FeatureWithVotes): (r: int)
    // every comparator subtracts one key from another, so the sort is by `Rank`
    ensures r == Rank(sortBy, a) - Rank(sortBy, b)
  {
    if sortBy == "newest" then b.feature.createdAt - a.feature.createdAt
    else if sortBy == "oldest" then a.feature.createdAt - b.feature.createdAt
    else if sortBy == "votes" then |b.votes| - |a.votes|
    else 0
  }

  /** The key the comparator subtracts (see the contract of `Compare`). */
  function Rank(sortBy: string, f: FeatureWithVotes): int
  {
    if sortBy == "newest" then -f.feature.createdAt
    else if sortBy == "oldest" then f.feature.createdAt
    else if sortBy == "votes" then -|f.votes|
    else 0
  }

  function KeyFor(sortBy: string): FeatureWithVotes -> int
  {
    f => Rank(sortBy, f)
  }

  /** `filteredAndSortedFeatures`. */
  function FilteredAndSorted(features: seq<FeatureWithVotes>, filters: Filters): (r: seq<FeatureWithVotes>)
    // exactly the passing features, none added, dropped or altered
    ensures forall f :: multiset(r)[f] == if Passes(filters.status, f) then multiset(features)[f] else 0
    // the comparator never puts a later element strictly before an earlier one
    ensures forall i, j :: 0 <= i < j < |r| ==> Compare(filters.sortBy, r[i], r[j]) <= 0
    ensures filters.sortBy == "newest" ==>
      forall i, j :: 0 <= i < j < |r| ==> r[i].feature.createdAt >= r[j].feature.createdAt
    ensures filters.sortBy == "oldest" ==>
      forall i, j :: 0 <= i < j < |r| ==> r[i].feature.createdAt <= r[j].feature.createdAt
    ensures filters.sortBy == "votes" ==>
      forall i, j :: 0 <= i < j < |r| ==> |r[i].votes| >= |r[j].votes|
  {
    var filtered := FilterByStatus(filters.status, features);
    var r := Sort(KeyFor(filters.sortBy), filtered);
    assert forall f :: multiset(r)[f] == multiset(filtered)[f];
    r
  }

  /** With status `ALL` the filter keeps every feature, in order. */
  lemma {:induction false} AllKeepsEveryFeature(features: seq<FeatureWithVotes>)
    ensures FilterByStatus(All, features) == features
  {
    if features != [] {
      AllKeepsEveryFeature(features[1..]);
      assert features == [features[0]] + features[1..];
    }
  }

  /** The features of `s` the comparator ranks level with `a`, in the order of `s`. */
  function LevelWith(sortBy: string, s: seq<FeatureWithVotes>, a: FeatureWithVotes): (r: seq<FeatureWithVotes>)
  {
    if s == [] then []
    else (if Compare(sortBy, s[0], a) == 0 then [s[0]] else []) + LevelWith(sortBy, s[1..], a)
  }

  lemma {:induction false} LevelWithIsTies(sortBy: string, s: seq<FeatureWithVotes>, a: FeatureWithVotes)
    ensures LevelWith(sortBy, s, a) == Ties(KeyFor(sortBy), s, Rank(sortBy, a))
  {
    if s != [] {
      LevelWithIsTies(sortBy, s[1..], a);
    }
  }

  /** The sort is stable and uses no secondary key: features the comparator
      ranks level (the same vote count, the same timestamp) keep the order
      they had after filtering. */
  lemma TiesKeepFilteredOrder(features: seq<FeatureWithVotes>, filters: Filters, a: FeatureWithVotes)
    ensures LevelWith(filters.sortBy, FilteredAndSorted(features, filters), a)
         == LevelWith(filters.sortBy, FilterByStatus(filters.status, features), a)
  {
    var filtered := FilterByStatus(filters.status, features);
    LevelWithIsTies(filters.sortBy, FilteredAndSorted(features, filters), a);
    LevelWithIsTies(filters.sortBy, filtered, a);
  }

  /** An unrecognised `sortBy` makes the comparator return 0, so the filtered order is kept. */
  lemma UnrecognisedSortKeepsOrder(features: seq<FeatureWithVotes>, filters: Filters)
    requires filters.sortBy !in {"newest", "oldest", "votes"}
    ensures FilteredAndSorted(features, filters) == FilterByStatus(filters.status, features)
  {
    var filtered := FilterByStatus(filters.status, features);
    SortOfTiesIsIdentity(KeyFor(filters.sortBy), filtered, 0);
  }
}
