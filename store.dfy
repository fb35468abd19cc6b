/** The relational store behind the route handlers (Prisma in the app),
    modelled as three in-memory tables. `findMany` on feature requests is a
    `Query` evaluated on the tables; the mutations the handlers make are
    methods of `Store`. A database leaves the order of rows that tie on every
    ordering key unspecified; this model keeps them in table order. */
module Persistence {
  import opened Domain
  import opened Sorting

  datatype Direction = Asc | Desc

  /** One entry of a query's `orderBy` list. */
  datatype OrderKey = CreatedAt(direction: Direction) | VoteCountOrder(direction: Direction)

  /** What `findMany` on feature requests is asked for: rows whose status is
      `where` (all rows when absent), ordered by `orderBy`, each with its votes,
      restricted to the votes of `votesOfUser` when one is given. */
  datatype Query = Query(where: Option<Status>, orderBy: seq<OrderKey>, votesOfUser: Option<string>)

  /** The feature rows the where clause selects, in table order. */
  function Select(where: Option<Status>, features: seq<Feature>): (r: seq<Feature>)
    ensures forall f :: multiset(r)[f] == if WhereHolds(where, f) then multiset(features)[f] else 0
  {
    if features == [] then []
    else
      assert features == [features[0]] + features[1..];
      (if WhereHolds(where, features[0]) then [features[0]] else []) + Select(where, features[1..])
  }

  /** A query without a where clause selects the whole table, in table order. */
  lemma {:induction false} SelectWithoutWhere(features: seq<Feature>)
    ensures Select(None, features) == features
  {
    if features != [] {
      SelectWithoutWhere(features[1..]);
      assert features == [features[0]] + features[1..];
    }
  }

  /** The sort key of the first ordering entry (later entries are never
      produced by the handlers); a vote count is the size of the whole votes
      relation, not of the embedded, possibly restricted, list. */
  function OrderRank(orderBy: seq<OrderKey>, votes: seq<Vote>, f: FeatureWithVotes): int
  {
    if orderBy == [] then 0
    else match orderBy[0]
      case CreatedAt(Asc) => f.feature.createdAt
      case CreatedAt(Desc) => -f.feature.createdAt
      case VoteCountOrder(Asc) => VoteCount(votes, f.feature.id)
      case VoteCountOrder(Desc) => 0 - VoteCount(votes, f.feature.id)
  }

  function OrderKeyFn(orderBy: seq<OrderKey>, votes: seq<Vote>): FeatureWithVotes -> int
  {
    f => OrderRank(orderBy, votes, f)
  }

  /** The store's answer to a query on the feature table. */
  function Evaluate(q: Query, features: seq<Feature>, votes: seq<Vote>): (r: seq<FeatureWithVotes>)
    // a permutation of the selected rows, each with its embedded votes
    ensures multiset(r) == multiset(Embed(Select(q.where, features), votes, q.votesOfUser))
    ensures forall x :: x in r ==>
      x.feature in features && WhereHolds(q.where, x.feature)
      && x.votes == VotesFor(votes, x.feature.id, q.votesOfUser)
    ensures forall f :: f in features && WhereHolds(q.where, f) ==> exists x :: x in r && x.feature == f
    ensures forall i, j :: 0 <= i < j < |r| ==> OrderRank(q.orderBy, votes, r[i]) <= OrderRank(q.orderBy, votes, r[j])
  {
    var selected := Select(q.where, features);
    var embedded := Embed(selected, votes, q.votesOfUser);
    var r := Sort(OrderKeyFn(q.orderBy, votes), embedded);
    PermutedRows(q, features, votes, r);
    r
  }

  /** What any permutation of the selected, embedded rows holds. */
  lemma PermutedRows(q: Query, features: seq<Feature>, votes: seq<Vote>, r: seq<FeatureWithVotes>)
    requires multiset(r) == multiset(Embed(Select(q.where, features), votes, q.votesOfUser))
    ensures forall x :: x in r ==>
      x.feature in features && WhereHolds(q.where, x.feature)
      && x.votes == VotesFor(votes, x.feature.id, q.votesOfUser)
    ensures forall f :: f in features && WhereHolds(q.where, f) ==> exists x :: x in r && x.feature == f
  {
    forall x | x in r
      ensures x.feature in features && WhereHolds(q.where, x.feature)
      ensures x.votes == VotesFor(votes, x.feature.id, q.votesOfUser)
    {
      RowCameFromTable(q, features, votes, r, x);
    }
    forall f | f in features && WhereHolds(q.where, f)
      ensures exists x :: x in r && x.feature == f
    {
      SelectedRowIsListed(q, features, votes, r, f);
    }
  }

  lemma RowCameFromTable(q: Query, features: seq<Feature>, votes: seq<Vote>, r: seq<FeatureWithVotes>, x: FeatureWithVotes)
    requires multiset(r) == multiset(Embed(Select(q.where, features), votes, q.votesOfUser))
    requires x in r
    ensures x.feature in features && WhereHolds(q.where, x.feature)
    ensures x.votes == VotesFor(votes, x.feature.id, q.votesOfUser)
  {
    var selected := Select(q.where, features);
    var embedded := Embed(selected, votes, q.votesOfUser);
    InMultiset(x, r, embedded);
    var i :| 0 <= i < |embedded| && embedded[i] == x;
    assert selected[i] in multiset(selected);
  }

  lemma SelectedRowIsListed(q: Query, features: seq<Feature>, votes: seq<Vote>, r: seq<FeatureWithVotes>, f: Feature)
    requires multiset(r) == multiset(Embed(Select(q.where, features), votes, q.votesOfUser))
    requires f in features && WhereHolds(q.where, f)
    ensures exists x :: x in r && x.feature == f
  {
    var selected := Select(q.where, features);
    var embedded := Embed(selected, votes, q.votesOfUser);
    assert f in multiset(features);
    assert f in multiset(selected);
    var i :| 0 <= i < |selected| && selected[i] == f;
    assert embedded[i] in embedded;
    InMultiset(embedded[i], embedded, r);
  }

  function UserKey(): User -> int
  {
    (u: User) => -u.createdAt
  }

  /** `user.findMany({ orderBy: { createdAt: 'desc' } })`. */
  function UsersNewestFirst(users: seq<User>): (r: seq<User>)
    ensures multiset(r) == multiset(users)
    ensures forall i, j :: 0 <= i < j < |r| ==> r[i].createdAt >= r[j].createdAt
  {
    var r := Sort(UserKey(), users);
    assert forall i :: 0 <= i < |r| ==> UserKey()(r[i]) == -r[i].createdAt;
    r
  }

  /** A `deleteMany` whose where clause is `NOT { email: { endsWith: suffix } }`
      deletes the rows whose e-mail does not end in `suffix`. A null e-mail
      satisfies neither the condition nor its negation under SQL's
      three-valued logic, so such rows are kept. */
  predicate DeletedUnlessSuffix(u: User, suffix: string)
  {
    u.email.Some? && !EndsWith(u.email.value, suffix)
  }

  /** The user rows such a `deleteMany` leaves, in table order. */
  function SurvivorsOfSuffixDelete(users: seq<User>, suffix: string): (r: seq<User>)
    ensures forall u :: multiset(r)[u] == if DeletedUnlessSuffix(u, suffix) then 0 else multiset(users)[u]
  {
    if users == [] then []
    else
      assert users == [users[0]] + users[1..];
      (if DeletedUnlessSuffix(users[0], suffix) then [] else [users[0]])
      + SurvivorsOfSuffixDelete(users[1..], suffix)
  }

  class Store {
    var users: seq<User>
    var features: seq<Feature>
    var votes: seq<Vote>

    constructor (users: seq<User>, features: seq<Feature>, votes: seq<Vote>)
      ensures this.users == users && this.features == features && this.votes == votes
    {
      this.users, this.features, this.votes := users, features, votes;
    }

    /** No vote refers to a feature request that is not in the table. */
    predicate Consistent()
      reads this
    {
      VotesReferenceFeatures(features, votes)
    }

    /** `featureRequest.create`: one row is appended. */
    method CreateFeature(row: Feature)
      modifies this`features
      ensures features == old(features) + [row]
    {
      features := features + [row];
    }

    /** `vote.deleteMany()` without a where clause. */
    method DeleteAllVotes()
      modifies this`votes
      ensures votes == []
    {
      votes := [];
    }

    /** `featureRequest.deleteMany()` without a where clause. */
    method DeleteAllFeatures()
      modifies this`features
      ensures features == []
    {
      features := [];
    }

    /** `user.deleteMany({ where: { NOT: { email: { endsWith: suffix } } } })`. */
    method DeleteUsersWithoutSuffix(suffix: string)
      modifies this`users
      ensures users == SurvivorsOfSuffixDelete(old(users), suffix)
    {
      users := SurvivorsOfSuffixDelete(users, suffix);
    }
  }
}
