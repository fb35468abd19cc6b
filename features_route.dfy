/** `POST /api/features` (create a feature request) and `GET /api/features`
    (list every request with its votes, most-voted first). */
module FeaturesRoute {
  import opened Domain
  import opened Persistence

  /** The parsed JSON body: the two fields the handler destructures, and
      whatever else the client sent (justification, priority, ...). */
  datatype PostBody = PostBody(title: Option<string>, description: Option<string>, extra: seq<(string, string)>)

  const RequiredFields: string := "Title and description are required"
  const CreateFailure: string := "Failed to create feature request"
  const FetchFailure: string := "Failed to fetch feature requests"

  /** The pure part of `POST`: answer at once, or create a row with these values. */
  datatype Plan = Reject(response: Response) | Create(title: string, description: string, userId: string)

  /** A JSON field is truthy: present and not the empty string. */
  predicate Present(field: Option<string>)
  {
    field.Some? && field.value != ""
  }

  /** The check ladder of `POST`: authentication first, then the body, then
      the two required fields. `body` is `None` when the text does not parse
      as JSON or parses to `null` (destructuring `null` throws, so both land
      in the 500 branch). Any other JSON value that is not an object with
      these fields (`42`, `"x"`, `[]`, `true`) destructures to undefined
      fields and is `Some(PostBody(None, None, []))`, which answers 400. */
  function PlanPost(session: Option<SessionUser>, body: Option<PostBody>): (p: Plan)
    ensures p == Reject(Response(401, ErrorBody("Unauthorized"))) <==> !HasId(session)
    ensures p == Reject(Response(500, ErrorBody(CreateFailure))) <==> HasId(session) && body.None?
    ensures p == Reject(Response(400, ErrorBody(RequiredFields))) <==>
      HasId(session) && body.Some? && !(Present(body.value.title) && Present(body.value.description))
    ensures p.Create? <==>
      HasId(session) && body.Some? && Present(body.value.title) && Present(body.value.description)
    ensures p.Create? ==>
      p.title == body.value.title.value && p.description == body.value.description.value
      && p.userId == session.value.id.value
  {
    if !HasId(session) then Reject(Response(401, ErrorBody("Unauthorized")))
    else if body.None? then Reject(Response(500, ErrorBody(CreateFailure)))
    else if !Present(body.value.title) || !Present(body.value.description) then
      Reject(Response(400, ErrorBody(RequiredFields)))
    else Create(body.value.title.value, body.value.description.value, session.value.id.value)
  }

  /** Only `title` and `description` are read: fields beyond them never change the outcome. */
  lemma ExtraFieldsIgnored(session: Option<SessionUser>, title: Option<string>, description: Option<string>,
                           extra1: seq<(string, string)>, extra2: seq<(string, string)>)
    ensures PlanPost(session, Some(PostBody(title, description, extra1)))
         == PlanPost(session, Some(PostBody(title, description, extra2)))
  {
  }

  /** `POST`. The store assigns the new row's `id` and `createdAt`; they are
      passed in. `fault` says whether `featureRequest.create` throws. */
  method Post(db: Store, session: Option<SessionUser>, body: Option<PostBody>,
              id: string, now: int, fault: Fault) returns (r: Response)
    modifies db`features
    ensures PlanPost(session, body).Reject? ==>
      r == PlanPost(session, body).response && db.features == old(db.features)
    ensures PlanPost(session, body).Create? && Raises(fault, 0) ==>
      r == Response(500, ErrorBody(CreateFailure)) && db.features == old(db.features)
    ensures PlanPost(session, body).Create? && !Raises(fault, 0) ==>
      var row := Feature(id, body.value.title.value, body.value.description.value, Open, now,
                         session.value.id.value);
      r == Response(201, CreatedFeature(row)) && db.features == old(db.features) + [row]
    ensures r.status == 201 <==> |db.features| == |old(db.features)| + 1
    ensures r.status != 201 ==> db.features == old(db.features)
    ensures old(db.Consistent()) ==> db.Consistent()
  {
    var plan := PlanPost(session, body);
    if plan.Reject? {
      return plan.response;
    }
    if Raises(fault, 0) {
      return Response(500, ErrorBody(CreateFailure));
    }
    var row := Feature(id, plan.title, plan.description, Open, now, plan.userId);
    db.CreateFeature(row);
    r := Response(201, CreatedFeature(row));
  }

  /** The query `GET` sends: no filter, all votes, vote count descending. */
  const ListQuery: Query := Query(None, [VoteCountOrder(Desc)], None)

  /** `GET`. */
  function Get(db: Store, session: Option<SessionUser>, fault: Fault): (r: Response)
    reads db
    ensures !HasId(session) ==> r == Response(401, ErrorBody("Unauthorized"))
    ensures HasId(session) && Raises(fault, 0) ==> r == Response(500, ErrorBody(FetchFailure))
    ensures HasId(session) && !Raises(fault, 0) ==> r.status == 200 && r.body.FeatureRows?
    // every request exactly once, each with all of its votes
    ensures r.status == 200 ==>
      multiset(r.body.features) == multiset(Embed(db.features, db.votes, None))
    ensures r.status == 200 ==> forall x :: x in r.body.features ==>
      x.feature in db.features && x.votes == VotesFor(db.votes, x.feature.id, None)
    // most-voted first
    ensures r.status == 200 ==> forall i, j :: 0 <= i < j < |r.body.features| ==>
      |r.body.features[i].votes| >= |r.body.features[j].votes|
  {
    if !HasId(session) then Response(401, ErrorBody("Unauthorized"))
    else if Raises(fault, 0) then Response(500, ErrorBody(FetchFailure))
    else
      ListedByVotes(db.features, db.votes);
      Response(200, FeatureRows(Evaluate(ListQuery, db.features, db.votes)))
  }

  lemma ListedByVotes(features: seq<Feature>, votes: seq<Vote>)
    ensures multiset(Evaluate(ListQuery, features, votes)) == multiset(Embed(features, votes, None))
    ensures forall x :: x in Evaluate(ListQuery, features, votes) ==>
      x.feature in features && x.votes == VotesFor(votes, x.feature.id, None)
    ensures forall i, j :: 0 <= i < j < |Evaluate(ListQuery, features, votes)| ==>
      |Evaluate(ListQuery, features, votes)[i].votes| >= |Evaluate(ListQuery, features, votes)[j].votes|
  {
    SelectWithoutWhere(features);
    var r := Evaluate(ListQuery, features, votes);
    EmbeddedCountOrder(votes, r);
  }

  /** With all votes embedded, ordering by the vote relation's count is
      ordering by the length of the embedded list. */
  lemma EmbeddedCountOrder(votes: seq<Vote>, rows: seq<FeatureWithVotes>)
    requires forall x :: x in rows ==> x.votes == VotesFor(votes, x.feature.id, None)
    requires forall i, j :: 0 <= i < j < |rows| ==>
      OrderRank(ListQuery.orderBy, votes, rows[i]) <= OrderRank(ListQuery.orderBy, votes, rows[j])
    ensures forall i, j :: 0 <= i < j < |rows| ==> |rows[i].votes| >= |rows[j].votes|
  {
  }
}
