/** The `checkAdmin` guard of the admin routes and the way their `catch`
    blocks turn a thrown message into a status code and an error body. Both
    admin route files carry identical copies of this code; it is modelled once. */
module AdminAuth {
  import opened Domain

  /** `checkAdmin` returns normally, or throws an `Error` carrying `message`. */
  datatype Check = Pass | Fail(message: string)

  const Unauthorized: string := "Unauthorized"
  const NotAnAdmin: string := "Not an admin"

  function CheckAdmin(session: Option<SessionUser>): (r: Check)
    ensures r == Fail(Unauthorized) <==> !HasId(session)
    ensures r == Fail(NotAnAdmin) <==> HasId(session) && !IsAdminEmail(session.value.email)
    ensures r == Pass <==> HasId(session) && IsAdminEmail(session.value.email)
  {
    if !HasId(session) then Fail(Unauthorized)
    else if !IsAdminEmail(session.value.email) then Fail(NotAnAdmin)
    else Pass
  }

  /** The status chosen from the message of whatever was thrown. */
  function StatusOf(message: string): (code: int)
    ensures code == 401 <==> message == Unauthorized
    ensures code == 403 <==> message == NotAnAdmin
    ensures code == 500 <==> message != Unauthorized && message != NotAnAdmin
  {
    if message == Unauthorized then 401
    else if message == NotAnAdmin then 403
    else 500
  }

  /** The response of a `catch` block: `{ error: error.message || fallback }`
      with the status chosen from the message. */
  function CaughtResponse(message: string, fallback: string): (r: Response)
    ensures r.status == StatusOf(message)
    ensures message != "" ==> r.body == ErrorBody(message)
    ensures message == "" ==> r.body == ErrorBody(fallback) && r.status == 500
  {
    Response(StatusOf(message), ErrorBody(if message != "" then message else fallback))
  }

  /** A failed check answers 401 exactly when there is no identity and 403
      exactly when the identity is not an admin's; the two stay distinguishable. */
  lemma RejectionStatus(session: Option<SessionUser>, fallback: string)
    requires CheckAdmin(session).Fail?
    ensures CaughtResponse(CheckAdmin(session).message, fallback).status == 401 <==> !HasId(session)
    ensures CaughtResponse(CheckAdmin(session).message, fallback).status == 403 <==> HasId(session)
  {
  }
}
