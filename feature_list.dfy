/** The server-rendered feature list: `getFeatureRequests` turns the status
    and sort options into a query description (a where clause, one ordering
    key, and a filter on the embedded votes) and runs it against the store.
    The store's evaluation of a query is modelled on the in-memory tables. */
module FeatureList {
  import opened Domain
  import opened Persistence

  /** The component's optional props. */
  datatype ListProps = ListProps(status: Option<StatusFilter>, sortBy: Option<string>)

  datatype FeatureListError = FeatureListError(message: string)

  datatype Result<+T, +E> = Ok(value: T) | Err(error: E)

  const LoadFailure: string := "Failed to load feature requests"

  function SortName(filters: Option<ListProps>): Option<string>
  {
    if filters.Some? then filters.value.sortBy else None
  }

  /** The status the caller asked to see, if it is a real status and not `ALL`. */
  function ChosenStatus(filters: Option<ListProps>): Option<Status>
  {
    if filters.Some? && filters.value.status.Some? && filters.value.status.value.Only?
    then Some(filters.value.status.value.status) else None
  }

  /** `userId ? { userId } : undefined`: an empty id is as good as none. */
  function Viewer(userId: Option<string>): Option<string>
  {
    if userId.Some? && userId.value != "" then userId else None
  }

  function BuildQuery(userId: Option<string>, filters: Option<ListProps>): (q: Query)
    // no where clause for an absent status or `ALL`, otherwise exactly that status
    ensures q.where.None? <==>
      (filters.None? || filters.value.status.None? || filters.value.status == Some(All))
    ensures q.where.Some? ==> filters.value.status == Some(Only(q.where.value))
    // exactly one ordering key, whatever the input
    ensures |q.orderBy| == 1
    ensures q.orderBy[0] == CreatedAt(Desc) <==> SortName(filters) == Some("newest")
    ensures q.orderBy[0] == CreatedAt(Asc) <==> SortName(filters) == Some("oldest")
    // anything else, `votes` or absent included, orders by vote count, most first
    ensures q.orderBy[0] == VoteCountOrder(Desc) <==>
      SortName(filters) != Some("newest") && SortName(filters) != Some("oldest")
    ensures q.votesOfUser.Some? <==> userId.Some? && userId.value != ""
    ensures q.votesOfUser.Some? ==> q.votesOfUser == userId
  {
    var where :=
      if filters.Some? && filters.value.status.Some? && filters.value.status.value != All
      then Some(filters.value.status.value.status) else None;
    var orderBy :=
      if SortName(filters) == Some("newest") then [CreatedAt(Desc)]
      else if SortName(filters) == Some("oldest") then [CreatedAt(Asc)]
      else [VoteCountOrder(Desc)];
    Query(where, orderBy, if userId.Some? && userId.value != "" then userId else None)
  }

  /** The status filter the props describe, stated on its own. */
  predicate Wanted(filters: Option<ListProps>, f: Feature)
  {
    filters.None? || filters.value.status.None? || filters.value.status.value.All?
    || f.status == filters.value.status.value.status
  }

  /** `getFeatureRequests`. A failing store call is reported as a
      `FeatureListError` with a fixed message. */
  function GetFeatureRequests(
    userId: Option<string>, filters: Option<ListProps>,
    features: seq<Feature>, votes: seq<Vote>, fault: Fault): (r: Result<seq<FeatureWithVotes>, FeatureListError>)
    ensures r.Err? <==> Raises(fault, 0)
    ensures r.Err? ==> r.error == FeatureListError(LoadFailure)
    // a permutation of the wanted rows, each with its embedded votes
    ensures r.Ok? ==> multiset(r.value) == multiset(Embed(Select(ChosenStatus(filters), features), votes, Viewer(userId)))
    ensures r.Ok? ==> forall x :: x in r.value ==>
      x.feature in features && Wanted(filters, x.feature)
      && x.votes == VotesFor(votes, x.feature.id, Viewer(userId))
    ensures r.Ok? ==> forall f :: f in features && Wanted(filters, f) ==>
      exists x :: x in r.value && x.feature == f
    ensures r.Ok? && SortName(filters) == Some("newest") ==>
      forall i, j :: 0 <= i < j < |r.value| ==> r.value[i].feature.createdAt >= r.value[j].feature.createdAt
    ensures r.Ok? && SortName(filters) == Some("oldest") ==>
      forall i, j :: 0 <= i < j < |r.value| ==> r.value[i].feature.createdAt <= r.value[j].feature.createdAt
    ensures r.Ok? && SortName(filters) != Some("newest") && SortName(filters) != Some("oldest") ==>
      forall i, j :: 0 <= i < j < |r.value| ==>
        VoteCount(votes, r.value[i].feature.id) >= VoteCount(votes, r.value[j].feature.id)
  {
    if Raises(fault, 0) then Err(FeatureListError(LoadFailure))
    else
      var q := BuildQuery(userId, filters);
      QueryDescribesProps(userId, filters);
      var rows := Evaluate(q, features, votes);
      OrderedAsAsked(q, votes, rows);
      Ok(rows)
  }

  /** What the single ordering key of a built query means for the rows. */
  lemma OrderedAsAsked(q: Query, votes: seq<Vote>, rows: seq<FeatureWithVotes>)
    requires |q.orderBy| == 1
    requires forall i, j :: 0 <= i < j < |rows| ==> OrderRank(q.orderBy, votes, rows[i]) <= OrderRank(q.orderBy, votes, rows[j])
    ensures q.orderBy[0] == CreatedAt(Desc) ==>
      forall i, j :: 0 <= i < j < |rows| ==> rows[i].feature.createdAt >= rows[j].feature.createdAt
    ensures q.orderBy[0] == CreatedAt(Asc) ==>
      forall i, j :: 0 <= i < j < |rows| ==> rows[i].feature.createdAt <= rows[j].feature.createdAt
    ensures q.orderBy[0] == VoteCountOrder(Desc) ==>
      forall i, j :: 0 <= i < j < |rows| ==> VoteCount(votes, rows[i].feature.id) >= VoteCount(votes, rows[j].feature.id)
  {
  }

  lemma QueryDescribesProps(userId: Option<string>, filters: Option<ListProps>)
    ensures BuildQuery(userId, filters).where == ChosenStatus(filters)
    ensures BuildQuery(userId, filters).votesOfUser == Viewer(userId)
    ensures forall f :: WhereHolds(ChosenStatus(filters), f) <==> Wanted(filters, f)
  {
  }
}
