/** Entities shared by the feature-request voting app: the rows of the
    relational store (users, feature requests, votes), the session identity
    handed to every route handler, the HTTP-shaped responses the handlers
    return, and the one authorization rule, the admin e-mail suffix. */
module Domain {

  datatype Option<+T> = None | Some(value: T)

  /** Lifecycle label of a feature request. */
  datatype Status = Open | Planned | InProgress | Completed

  /** The status selector of the list views: one status, or `ALL`. */
  datatype StatusFilter = All | Only(status: Status)

  /** A row of the feature-request table. `createdAt` is an integer timestamp. */
  datatype Feature = Feature(
    id: string,
    title: string,
    description: string,
    status: Status,
    createdAt: int,
    userId: string)

  /** A row of the vote table. */
  datatype Vote = Vote(id: string, userId: string, featureRequestId: string, createdAt: int)

  /** A row of the user table; the e-mail column may be null. */
  datatype User = User(id: string, name: Option<string>, email: Option<string>, createdAt: int)

  /** A feature request together with the vote rows embedded in it by a query. */
  datatype FeatureWithVotes = FeatureWithVotes(feature: Feature, votes: seq<Vote>)

  /** The identity a session resolves to; every field may be missing. */
  datatype SessionUser = SessionUser(id: Option<string>, email: Option<string>)

  /** One user as the admin user listing returns it: the selected columns and the flag. */
  datatype UserView = UserView(id: string, name: Option<string>, email: Option<string>, isAdmin: bool)

  datatype Body =
    | ErrorBody(error: string)
    | CreatedFeature(feature: Feature)
    | FeatureRows(features: seq<FeatureWithVotes>)
    | AdminFlag(isAdmin: bool)
    | UserRows(users: seq<UserView>)
    | Message(message: string)

  datatype Response = Response(status: int, body: Body)

  /** How the store behaves during one handler run: every call succeeds, or
      the handler's store call number `call` (0-based, in the order the
      handler makes them) raises an error carrying `message`; later calls
      are then never made. */
  datatype Fault = NoFault | FailsAt(call: nat, message: string)

  predicate Raises(fault: Fault, call: nat)
  {
    fault.FailsAt? && fault.call == call
  }

  const AdminSuffix: string := "@yourcompany.com"

  predicate EndsWith(s: string, suffix: string)
  {
    |suffix| <= |s| && s[|s| - |suffix|..] == suffix
  }

  /** `email?.endsWith('@yourcompany.com') || false`: a missing e-mail is not an admin's. */
  predicate IsAdminEmail(email: Option<string>)
  {
    email.Some? && EndsWith(email.value, AdminSuffix)
  }

  /** `user?.id` is truthy: a session exists, it carries an id, and the id is not empty. */
  predicate HasId(session: Option<SessionUser>)
  {
    session.Some? && session.value.id.Some? && session.value.id.value != ""
  }

  /** The feature-request filter of the store's queries: every row when no
      status is given, otherwise the rows with exactly that status. */
  predicate WhereHolds(where: Option<Status>, f: Feature)
  {
    where.None? || f.status == where.value
  }

  /** The vote rows of `votes` that reference feature `featureId` and, when a
      user is given, were cast by that user; table order is kept. */
  function VotesFor(votes: seq<Vote>, featureId: string, byUser: Option<string>): (r: seq<Vote>)
    ensures forall v :: v in r <==>
      v in votes && v.featureRequestId == featureId && (byUser.Some? ==> v.userId == byUser.value)
    // each matching vote row is embedded exactly as often as it is in the table, no other row at all
    ensures forall v ::
              multiset(r)[v] ==
              (if v.featureRequestId == featureId && (byUser.Some? ==> v.userId == byUser.value)
               then multiset(votes)[v] else 0)
    ensures |r| <= |votes|
  {
    if votes == [] then []
    else
      assert votes == [votes[0]] + votes[1..];
      var rest := VotesFor(votes[1..], featureId, byUser);
      var v := votes[0];
      if v.featureRequestId == featureId && (byUser.Some? ==> v.userId == byUser.value)
      then [v] + rest else rest
  }

  /** How many votes reference feature `featureId`: the `_count` of its votes relation. */
  function VoteCount(votes: seq<Vote>, featureId: string): nat
  {
    |VotesFor(votes, featureId, None)|
  }

  /** Each feature row with the vote rows a query's `include` attaches to it. */
  function Embed(features: seq<Feature>, votes: seq<Vote>, byUser: Option<string>): (r: seq<FeatureWithVotes>)
    ensures |r| == |features|
    ensures forall i :: 0 <= i < |r| ==>
      r[i].feature == features[i] && r[i].votes == VotesFor(votes, features[i].id, byUser)
  {
    if features == [] then []
    else [FeatureWithVotes(features[0], VotesFor(votes, features[0].id, byUser))]
         + Embed(features[1..], votes, byUser)
  }

  /** Every vote references a feature that is in the feature table. */
  predicate VotesReferenceFeatures(features: seq<Feature>, votes: seq<Vote>)
  {
    forall v :: v in votes ==> exists f :: f in features && f.id == v.featureRequestId
  }
}
