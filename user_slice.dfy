/** The client's user slice: who is signed in, whether they are an admin,
    and the loading and error flags of the sign-in flow. `Reduce` is the
    reducer as a function from state and action to state; `Slice` is the
    mutable state object each reducer updates field by field. */
module UserSlice {
  import opened Domain

  /** The signed-in user as the client stores it. */
  datatype Profile = Profile(id: string, name: Option<string>, email: Option<string>, image: Option<string>)

  datatype UserState = UserState(
    user: Option<Profile>,
    isAuthenticated: bool,
    isAdmin: bool,
    loading: bool,
    error: Option<string>)

  const Initial: UserState := UserState(None, false, false, false, None)

  datatype Action =
    | SetUser(payload: Option<Profile>)
    | SetLoading(flag: bool)
    | SetError(message: Option<string>)
    | Logout

  /** `payload?.email?.endsWith('@yourcompany.com') || false`. */
  predicate AdminOf(user: Option<Profile>)
  {
    user.Some? && IsAdminEmail(user.value.email)
  }

  /** The slice's invariant: authenticated exactly when a user is held, and
      an admin exactly when that user's e-mail has the admin suffix. */
  predicate Valid(s: UserState)
  {
    && (s.isAuthenticated <==> s.user.Some?)
    && (s.isAdmin ==> s.isAuthenticated)
    && (s.isAdmin <==> AdminOf(s.user))
  }

  function Reduce(s: UserState, a: Action): (t: UserState)
    ensures Valid(s) ==> Valid(t)
    ensures a.SetUser? ==>
      t.user == a.payload && (t.isAuthenticated <==> a.payload.Some?) && (t.isAdmin <==> AdminOf(a.payload))
      && !t.loading && t.error.None? && Valid(t)
    // setLoading touches nothing but the flag
    ensures a.SetLoading? ==>
      t.loading == a.flag
      && t.user == s.user && t.isAuthenticated == s.isAuthenticated && t.isAdmin == s.isAdmin && t.error == s.error
    // setError keeps who is signed in
    ensures a.SetError? ==>
      t.error == a.message && !t.loading
      && t.user == s.user && t.isAuthenticated == s.isAuthenticated && t.isAdmin == s.isAdmin
    ensures a.Logout? ==> t == Initial
  {
    match a
    case SetUser(payload) => UserState(payload, payload.Some?, AdminOf(payload), false, None)
    case SetLoading(flag) => s.(loading := flag)
    case SetError(message) => s.(error := message, loading := false)
    case Logout => Initial
  }

  /** The state after a sequence of dispatched actions. */
  function Run(s: UserState, actions: seq<Action>): UserState
    decreases actions
  {
    if actions == [] then s else Run(Reduce(s, actions[0]), actions[1..])
  }

  /** Every state the store can reach from `initialState` satisfies the invariant. */
  lemma {:induction false} ReachableStatesValid(s: UserState, actions: seq<Action>)
    requires Valid(s)
    ensures Valid(Run(s, actions))
    decreases actions
  {
    if actions != [] {
      ReachableStatesValid(Reduce(s, actions[0]), actions[1..]);
    }
  }

  lemma InitialValid()
    ensures Valid(Initial)
  {
  }

  /** Logging out twice is logging out once; a logout as the last action wins. */
  lemma {:induction false} LogoutIdempotent(s: UserState, before: seq<Action>)
    ensures Reduce(Reduce(s, Logout), Logout) == Reduce(s, Logout)
    ensures Run(s, before + [Logout]) == Initial
    decreases before
  {
    if before != [] {
      assert (before + [Logout])[1..] == before[1..] + [Logout];
      LogoutIdempotent(Reduce(s, before[0]), before[1..]);
    }
  }

  class Slice {
    var user: Option<Profile>
    var isAuthenticated: bool
    var isAdmin: bool
    var loading: bool
    var error: Option<string>

    function State(): UserState
      reads this
    {
      UserState(user, isAuthenticated, isAdmin, loading, error)
    }

    /** `initialState`. */
    constructor ()
      ensures State() == Initial && Valid(State())
    {
      user := None;
      isAuthenticated := false;
      isAdmin := false;
      loading := false;
      error := None;
    }

    method SetUser(payload: Option<Profile>)
      modifies this
      ensures State() == Reduce(old(State()), Action.SetUser(payload))
      ensures Valid(State())
    {
      user := payload;
      isAuthenticated := payload.Some?;
      isAdmin := payload.Some? && payload.value.email.Some? && EndsWith(payload.value.email.value, AdminSuffix);
      loading := false;
      error := None;
    }

    method SetLoading(flag: bool)
      modifies this
      ensures State() == Reduce(old(State()), Action.SetLoading(flag))
      ensures old(Valid(State())) ==> Valid(State())
    {
      loading := flag;
    }

    method SetError(message: Option<string>)
      modifies this
      ensures State() == Reduce(old(State()), Action.SetError(message))
      ensures old(Valid(State())) ==> Valid(State())
    {
      error := message;
      loading := false;
    }

    method Logout()
      modifies this
      ensures State() == Reduce(old(State()), Action.Logout)
      ensures State() == Initial
    {
      user := None;
      isAuthenticated := false;
      isAdmin := false;
      loading := false;
      error := None;
    }
  }
}
