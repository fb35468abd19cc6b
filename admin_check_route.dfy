/** `GET /api/admin/check`: tells the client whether its session belongs to an admin. */
module AdminCheckRoute {
  import opened Domain
  import AdminAuth

  function Get(session: Option<SessionUser>): (r: Response)
    ensures r == Response(401, ErrorBody("Unauthorized")) <==> !HasId(session)
    ensures r == Response(403, ErrorBody("Not an admin")) <==>
      HasId(session) && !IsAdminEmail(session.value.email)
    ensures r == Response(200, AdminFlag(true)) <==>
      HasId(session) && IsAdminEmail(session.value.email)
  {
    if !HasId(session) then Response(401, ErrorBody("Unauthorized"))
    else
      var isAdmin := IsAdminEmail(session.value.email);
      if !isAdmin then Response(403, ErrorBody("Not an admin"))
      else Response(200, AdminFlag(true))
  }

  /** The outcome depends on nothing but the presence of an id and the suffix of the e-mail. */
  lemma OnlyIdAndSuffixMatter(a: Option<SessionUser>, b: Option<SessionUser>)
    requires HasId(a) == HasId(b)
    requires HasId(a) ==> IsAdminEmail(a.value.email) == IsAdminEmail(b.value.email)
    ensures Get(a) == Get(b)
  {
  }

  /** This route and the `checkAdmin` copies in the other admin routes agree
      on every session: the same status, and the same error text on rejection. */
  lemma AgreesWithCheckAdmin(session: Option<SessionUser>, fallback: string)
    ensures AdminAuth.CheckAdmin(session).Pass? <==> Get(session).status == 200
    ensures AdminAuth.CheckAdmin(session).Fail? ==>
      Get(session) == AdminAuth.CaughtResponse(AdminAuth.CheckAdmin(session).message, fallback)
  {
  }
}
