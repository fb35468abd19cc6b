/** `GET /api/admin/users` (every user with an `isAdmin` flag) and
    `DELETE /api/admin/users` (remove every user without the admin suffix). */
module AdminUsersRoute {
  import opened Domain
  import opened Persistence
  import opened AdminAuth

  const FetchFallback: string := "Failed to fetch users"
  const DeleteFallback: string := "Failed to delete users"
  const Deleted: string := "All non-admin users deleted successfully"

  /** `users.map(user => ({ ...user, isAdmin: ... }))` over the selected columns. */
  function Annotate(users: seq<User>): (r: seq<UserView>)
    ensures |r| == |users|
    ensures forall i :: 0 <= i < |r| ==>
      r[i].id == users[i].id && r[i].name == users[i].name && r[i].email == users[i].email
    ensures forall i :: 0 <= i < |r| ==> (r[i].isAdmin <==> IsAdminEmail(users[i].email))
  {
    if users == [] then []
    else [UserView(users[0].id, users[0].name, users[0].email, IsAdminEmail(users[0].email))]
         + Annotate(users[1..])
  }

  /** `GET`. `fault` says whether `user.findMany` throws. */
  function Get(db: Store, session: Option<SessionUser>, fault: Fault): (r: Response)
    reads db
    ensures CheckAdmin(session).Fail? ==> r == CaughtResponse(CheckAdmin(session).message, FetchFallback)
    ensures CheckAdmin(session).Pass? && Raises(fault, 0) ==> r == CaughtResponse(fault.message, FetchFallback)
    ensures CheckAdmin(session).Pass? && !Raises(fault, 0) ==> r.status == 200 && r.body.UserRows?
    // newest first, one entry per user row, flagged by the suffix rule
    ensures r.status == 200 ==> exists ordered: seq<User> ::
      multiset(ordered) == multiset(db.users)
      && (forall i, j :: 0 <= i < j < |ordered| ==> ordered[i].createdAt >= ordered[j].createdAt)
      && r.body.users == Annotate(ordered)
  {
    var check := CheckAdmin(session);
    if check.Fail? then CaughtResponse(check.message, FetchFallback)
    else if Raises(fault, 0) then CaughtResponse(fault.message, FetchFallback)
    else
      var ordered := UsersNewestFirst(db.users);
      Response(200, UserRows(Annotate(ordered)))
  }

  /** `DELETE`. `fault` says whether `user.deleteMany` throws. */
  method Delete(db: Store, session: Option<SessionUser>, fault: Fault) returns (r: Response)
    modifies db`users
    ensures CheckAdmin(session).Fail? ==>
      r == CaughtResponse(CheckAdmin(session).message, DeleteFallback) && db.users == old(db.users)
    ensures CheckAdmin(session).Pass? && Raises(fault, 0) ==>
      r == CaughtResponse(fault.message, DeleteFallback) && db.users == old(db.users)
    ensures CheckAdmin(session).Pass? && !Raises(fault, 0) ==>
      r == Response(200, Message(Deleted))
      && db.users == SurvivorsOfSuffixDelete(old(db.users), AdminSuffix)
    ensures r.status != 200 ==> db.users == old(db.users)
  {
    var check := CheckAdmin(session);
    if check.Fail? {
      return CaughtResponse(check.message, DeleteFallback);
    }
    if Raises(fault, 0) {
      return CaughtResponse(fault.message, DeleteFallback);
    }
    db.DeleteUsersWithoutSuffix(AdminSuffix);
    r := Response(200, Message(Deleted));
  }

  /** After a successful `DELETE`, every remaining user the listing shows is
      flagged as an admin, apart from users without an e-mail, and every
      admin-suffixed user is still there as often as before. */
  lemma DeleteKeepsExactlyAdmins(users: seq<User>)
    ensures forall u :: u in SurvivorsOfSuffixDelete(users, AdminSuffix) ==>
      u in users && (IsAdminEmail(u.email) || u.email.None?)
    ensures forall u: User :: IsAdminEmail(u.email) ==>
      multiset(SurvivorsOfSuffixDelete(users, AdminSuffix))[u] == multiset(users)[u]
    ensures forall u :: u in users && u.email.Some? && !IsAdminEmail(u.email) ==>
      u !in SurvivorsOfSuffixDelete(users, AdminSuffix)
  {
    var r := SurvivorsOfSuffixDelete(users, AdminSuffix);
    forall u | u in r ensures u in users && (IsAdminEmail(u.email) || u.email.None?) {
      assert u in multiset(r);
    }
    forall u | u in users && u.email.Some? && !IsAdminEmail(u.email) ensures u !in r {
      assert multiset(r)[u] == 0;
    }
  }
}
