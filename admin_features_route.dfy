/** `GET /api/admin/features` (every request with its votes, newest first)
    and `DELETE /api/admin/features` (remove all votes, then all requests). */
module AdminFeaturesRoute {
  import opened Domain
  import opened Persistence
  import opened AdminAuth

  const FetchFallback: string := "Failed to fetch features"
  const DeleteFallback: string := "Failed to delete features"
  const Deleted: string := "All features deleted successfully"

  /** The query `GET` sends: no filter, all votes, newest first. */
  const AdminQuery: Query := Query(None, [CreatedAt(Desc)], None)

  /** `GET`. `fault` says whether `featureRequest.findMany` throws. */
  function Get(db: Store, session: Option<SessionUser>, fault: Fault): (r: Response)
    reads db
    ensures CheckAdmin(session).Fail? ==> r == CaughtResponse(CheckAdmin(session).message, FetchFallback)
    ensures CheckAdmin(session).Pass? && Raises(fault, 0) ==> r == CaughtResponse(fault.message, FetchFallback)
    ensures CheckAdmin(session).Pass? && !Raises(fault, 0) ==> r.status == 200 && r.body.FeatureRows?
    // every request exactly once, each with all of its votes, newest first
    ensures r.status == 200 ==>
      multiset(r.body.features) == multiset(Embed(db.features, db.votes, None))
    ensures r.status == 200 ==> forall x :: x in r.body.features ==>
      x.feature in db.features && x.votes == VotesFor(db.votes, x.feature.id, None)
    ensures r.status == 200 ==> forall i, j :: 0 <= i < j < |r.body.features| ==>
      r.body.features[i].feature.createdAt >= r.body.features[j].feature.createdAt
  {
    var check := CheckAdmin(session);
    if check.Fail? then CaughtResponse(check.message, FetchFallback)
    else if Raises(fault, 0) then CaughtResponse(fault.message, FetchFallback)
    else
      ListedNewestFirst(db.features, db.votes);
      Response(200, FeatureRows(Evaluate(AdminQuery, db.features, db.votes)))
  }

  lemma ListedNewestFirst(features: seq<Feature>, votes: seq<Vote>)
    ensures multiset(Evaluate(AdminQuery, features, votes)) == multiset(Embed(features, votes, None))
    ensures forall i, j :: 0 <= i < j < |Evaluate(AdminQuery, features, votes)| ==>
      Evaluate(AdminQuery, features, votes)[i].feature.createdAt
      >= Evaluate(AdminQuery, features, votes)[j].feature.createdAt
  {
    SelectWithoutWhere(features);
  }

  /** `DELETE`. `fault` says which of the two `deleteMany` calls throws: call 0
      removes the votes, call 1 the feature requests. They are not one
      transaction, so a failure of call 1 leaves the votes already gone. */
  method Delete(db: Store, session: Option<SessionUser>, fault: Fault) returns (r: Response)
    modifies db`votes, db`features
    ensures CheckAdmin(session).Fail? ==>
      r == CaughtResponse(CheckAdmin(session).message, DeleteFallback)
      && db.votes == old(db.votes) && db.features == old(db.features)
    ensures CheckAdmin(session).Pass? && Raises(fault, 0) ==>
      r == CaughtResponse(fault.message, DeleteFallback)
      && db.votes == old(db.votes) && db.features == old(db.features)
    ensures CheckAdmin(session).Pass? && Raises(fault, 1) ==>
      r == CaughtResponse(fault.message, DeleteFallback)
      && db.votes == [] && db.features == old(db.features)
    ensures CheckAdmin(session).Pass? && !Raises(fault, 0) && !Raises(fault, 1) ==>
      r == Response(200, Message(Deleted)) && db.votes == [] && db.features == []
    // votes go first: whatever happens, no vote is left pointing at a deleted request
    ensures old(db.Consistent()) ==> db.Consistent()
    // on an empty store the operation leaves it empty, whatever happens
    ensures old(db.votes) == [] && old(db.features) == [] ==> db.votes == [] && db.features == []
  {
    var check := CheckAdmin(session);
    if check.Fail? {
      return CaughtResponse(check.message, DeleteFallback);
    }
    if Raises(fault, 0) {
      return CaughtResponse(fault.message, DeleteFallback);
    }
    db.DeleteAllVotes();
    if Raises(fault, 1) {
      return CaughtResponse(fault.message, DeleteFallback);
    }
    db.DeleteAllFeatures();
    r := Response(200, Message(Deleted));
  }
}
