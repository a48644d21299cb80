/**
 * The client's sign-in state (client/src/context/AuthContext.js): the
 * reducer over its six actions and the provider callbacks that dispatch
 * them and keep the token in the browser's storage.
 *
 * The server's answers are parameters: a verification verdict for
 * `checkAuth`, and for a sign-in either the user and token or the error
 * message the server sent (if any).
 */
module AuthState {
  import opened Wrappers
  import opened Json

  /** `{ user, token, loading, error }`; a signed-out user is `Null`. */
  datatype State = State(user: Value, token: Option<string>, loading: bool, error: Option<string>)

  datatype Action =
    | SetLoading(loading: bool)
    | LoginSuccess(user: Value, token: string)
    | Logout
    | SetError(message: string)
    | ClearError
    | UpdateUser(payload: Value)
    | Other(kind: string)      // any action type the reducer does not know

  /** The state on start-up, with the token the storage holds. */
  function Initial(stored: Option<string>): State {
    State(Null, stored, true, None)
  }

  /** `authReducer(state, action)`. */
  function Reduce(s: State, a: Action): State {
    match a
    case SetLoading(l) => s.(loading := l)
    case LoginSuccess(u, t) => s.(user := u, token := Some(t), loading := false, error := None)
    case Logout => s.(user := Null, token := None, loading := false, error := None)
    case SetError(m) => s.(error := Some(m), loading := false)
    case ClearError => s.(error := None)
    case UpdateUser(p) => s.(user := Obj(Spread(Fields(s.user), Fields(p))))
    case Other(_) => s
  }

  /** Dispatching the actions in order. */
  function ReduceAll(s: State, actions: seq<Action>): State
    decreases |actions|
  {
    if |actions| == 0 then s else ReduceAll(Reduce(s, actions[0]), actions[1..])
  }

  /** `SET_LOADING` and `CLEAR_ERROR` each change exactly one field. */
  lemma LoadingAndClearErrorTouchOneField(s: State, l: bool)
    ensures var r := Reduce(s, SetLoading(l));
      r.loading == l && r.user == s.user && r.token == s.token && r.error == s.error
    ensures var r := Reduce(s, ClearError);
      r.error.None? && r.user == s.user && r.token == s.token && r.loading == s.loading
  {
  }

  /** A successful sign-in stores user and token and ends loading with no error. */
  lemma LoginSuccessSignsIn(s: State, u: Value, t: string)
    ensures Reduce(s, LoginSuccess(u, t)) == State(u, Some(t), false, None)
  {
  }

  /** Signing out forgets user, token and error whatever the state was, and ends loading. */
  lemma LogoutForgetsEverything(s: State)
    ensures Reduce(s, Logout) == State(Null, None, false, None)
    ensures Reduce(Reduce(s, Logout), Logout) == Reduce(s, Logout)
  {
  }

  /** `SET_ERROR` records the message and always ends loading, keeping user and token. */
  lemma SetErrorEndsLoading(s: State, m: string)
    ensures var r := Reduce(s, SetError(m));
      r.error == Some(m) && !r.loading && r.user == s.user && r.token == s.token
  {
  }

  /**
   * `UPDATE_USER` merges the payload over the user: the payload's keys win,
   * the user's other keys are kept, and nothing but the user changes.
   */
  lemma UpdateUserMerges(s: State, payload: map<string, Value>)
    ensures var r := Reduce(s, UpdateUser(Obj(payload)));
      && r.user.Obj?
      && r.user.fields.Keys == Fields(s.user).Keys + payload.Keys
      && (forall k :: k in payload ==> r.user.fields[k] == payload[k])
      && (forall k :: k in Fields(s.user) && k !in payload ==> r.user.fields[k] == Fields(s.user)[k])
      && r.token == s.token && r.loading == s.loading && r.error == s.error
  {
  }

  /** An action of an unknown type returns the state unchanged. */
  lemma UnknownActionIsIgnored(s: State, kind: string)
    ensures Reduce(s, Other(kind)) == s
  {
  }

  /** No action but `SET_LOADING(true)` starts loading. */
  predicate StartsLoading(a: Action) {
    a.SetLoading? && a.loading
  }

  /** Once loading has ended it stays ended until some action sets it again. */
  lemma {:induction false} LoadingStaysEnded(s: State, actions: seq<Action>)
    requires !s.loading
    requires forall i :: 0 <= i < |actions| ==> !StartsLoading(actions[i])
    ensures !ReduceAll(s, actions).loading
    decreases |actions|
  {
    if |actions| > 0 {
      assert forall i :: 0 <= i < |actions[1..]| ==> actions[1..][i] == actions[i + 1];
      LoadingStaysEnded(Reduce(s, actions[0]), actions[1..]);
    }
  }

  /** The browser's token storage and the state after a provider callback. */
  datatype Session = Session(state: State, stored: Option<string>)

  /** What verifying a stored token returned: `valid` with a user, not valid, or a thrown error. */
  datatype Verdict = Valid(user: Value) | NotValid | Failed

  /** `checkAuth()`: runs on start-up with the token storage as it is. */
  function CheckAuth(s: State, stored: Option<string>, verdict: Verdict): Session {
    if stored.None? || stored.value == "" then Session(Reduce(s, SetLoading(false)), stored)
    else match verdict
      case Valid(u) => Session(Reduce(s, LoginSuccess(u, stored.value)), stored)
      case _ => Session(Reduce(s, Logout), None)
  }

  /**
   * Without a stored token only loading ends; a valid token signs the user
   * in with that token; a token the server rejects, or a failed check,
   * is removed from storage and the user is signed out.
   */
  lemma CheckAuthBranches(s: State, stored: Option<string>, verdict: Verdict)
    ensures var r := CheckAuth(s, stored, verdict);
      && (stored.None? || stored == Some("") ==> r.state == s.(loading := false) && r.stored == stored)
      && (stored.Some? && stored.value != "" && verdict.Valid? ==>
            r.state == State(verdict.user, stored, false, None) && r.stored == stored)
      && (stored.Some? && stored.value != "" && !verdict.Valid? ==>
            r.state == State(Null, None, false, None) && r.stored.None?)
      && !r.state.loading
  {
  }

  /**
   * `login`, `register` and `loginAsGuest`: start loading, clear the error,
   * then on success store the token and sign in, or record the server's
   * message (or the callback's own fallback) as the error.
   */
  function SignIn(s: State, stored: Option<string>, outcome: Result<(Value, string), Option<string>>,
                  fallback: string): Session
  {
    var s := Reduce(Reduce(s, SetLoading(true)), ClearError);
    match outcome
    case Ok((u, t)) => Session(Reduce(s, LoginSuccess(u, t)), Some(t))
    case Err(message) =>
      var m := if message.None? || message.value == "" then fallback else message.value;
      Session(Reduce(s, SetError(m)), stored)
  }

  /**
   * A sign-in ends loading either way; success stores the same token in the
   * state and in storage; a failure keeps the user, token and storage and
   * shows the server's message or the fallback.
   */
  lemma SignInOutcomes(s: State, stored: Option<string>, outcome: Result<(Value, string), Option<string>>,
                       fallback: string)
    ensures var r := SignIn(s, stored, outcome, fallback);
      && !r.state.loading
      && (outcome.Ok? ==> r.state.token == r.stored == Some(outcome.value.1) && r.state.error.None?
                          && r.state.user == outcome.value.0)
      && (outcome.Err? ==> r.stored == stored && r.state.user == s.user && r.state.token == s.token
                           && r.state.error.Some?
                           && (outcome.error.Some? && outcome.error.value != "" ==> r.state.error == outcome.error)
                           && (outcome.error.None? || outcome.error == Some("") ==> r.state.error == Some(fallback)))
  {
  }

  /** `logout()`: the stored token is removed and the state signed out. */
  function SignOut(s: State): (r: Session)
    ensures r.stored.None? && r.state.user == Null && r.state.token.None?
  {
    Session(Reduce(s, Logout), None)
  }
}
