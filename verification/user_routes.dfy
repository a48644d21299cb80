/**
 * The account REST routes of routes/users.js: registration, login, guest
 * accounts, profile read and update, user search, token check and account
 * deletion, with the `comparePassword` rule of models/User.js.
 *
 * Accounts are kept in a sequence in storage order. bcrypt is an oracle: a
 * stored hash is modelled by the password it was made from, and a comparison
 * succeeds exactly for that password. A JSON Web Token is modelled by the
 * account id it was signed for, and verifying one is a parameter. The fresh
 * ids `uuidv4` draws and the clock are parameters too.
 */
module UserRoutes {
  import opened Wrappers
  import opened Text
  import opened Json

  /** What bcrypt stores for a password. */
  datatype PasswordHash = Hashed(plain: string)

  datatype Account = Account(
    id: string,
    name: string,
    email: string,
    password: Option<PasswordHash>,
    avatar: string,
    isGuest: bool,
    preferences: map<string, Value>,
    lastActive: int)

  /** The account fields a response carries: everything but the password hash. */
  datatype UserData = UserData(
    id: string, name: string, email: string, avatar: string, isGuest: bool, preferences: map<string, Value>)

  /** A reply that signs the client in: the account's data and a token signed for its id. */
  datatype Session = Session(user: UserData, tokenFor: string)

  type Accounts = seq<Account>

  datatype Response<T> = Response(result: Result<T, HttpError>, accounts: Accounts)

  /** The schema's preference defaults. */
  const DefaultPreferences: map<string, Value> :=
    map["theme" := Str("light"), "fontSize" := Num(14), "autoSave" := Bool(true)]

  const MinPasswordLength := 6
  const MinQueryLength := 2
  const DefaultSearchLimit := 10

  const AllFieldsRequired := HttpError(400, "All fields are required")
  const PasswordTooShort := HttpError(400, "Password must be at least 6 characters")
  const EmailTaken := HttpError(400, "User with this email already exists")
  const RegisterFailed := HttpError(500, "Failed to register user")
  const CredentialsRequired := HttpError(400, "Email and password are required")
  const BadCredentials := HttpError(401, "Invalid email or password")
  const GuestFailed := HttpError(500, "Failed to create guest user")
  const UserIdRequired := HttpError(400, "User ID is required")
  const UserNotFound := HttpError(404, "User not found")
  const QueryTooShort := HttpError(400, "Search query must be at least 2 characters")
  const NoToken := HttpError(401, "No token provided")
  const InvalidToken := HttpError(401, "Invalid token")
  const ProfileUpdateFailed := HttpError(500, "Failed to update profile")
  const PasswordRequired := HttpError(400, "Password is required")
  const InvalidPassword := HttpError(401, "Invalid password")
  const AccountDeleted := "Account deleted successfully"

  /** `!x` on an optional string: missing or empty. */
  predicate Falsy(s: Option<string>) {
    s.None? || s.value == ""
  }

  function DataOf(a: Account): UserData {
    UserData(a.id, a.name, a.email, a.avatar, a.isGuest, a.preferences)
  }

  /** The position of the first account matching `p`. */
  function FindBy(accounts: Accounts, id: Option<string>, email: Option<string>): (r: Option<nat>)
    ensures r.Some? ==> r.value < |accounts| && Matches(accounts[r.value], id, email)
    ensures r.None? <==> forall i :: 0 <= i < |accounts| ==> !Matches(accounts[i], id, email)
  {
    if |accounts| == 0 then None
    else if Matches(accounts[0], id, email) then Some(0)
    else
      var r := FindBy(accounts[1..], id, email);
      assert forall i :: 1 <= i < |accounts| ==> accounts[i] == accounts[1..][i - 1];
      if r.Some? then Some(r.value + 1) else None
  }

  /** The account has the given id (when one is given) and the given email (when one is given). */
  predicate Matches(a: Account, id: Option<string>, email: Option<string>) {
    (id.None? || a.id == id.value) && (email.None? || a.email == email.value)
  }

  /** `User.findById(id)`. */
  function FindById(accounts: Accounts, id: string): Option<nat> {
    FindBy(accounts, Some(id), None)
  }

  /** `User.findOne({ email })`. */
  function FindByEmail(accounts: Accounts, email: string): Option<nat> {
    FindBy(accounts, None, Some(email))
  }

  /** `user.comparePassword(candidate)`: a guest never matches; otherwise bcrypt's verdict. */
  predicate ComparePassword(a: Account, candidate: string) {
    !a.isGuest && a.password == Some(Hashed(candidate))
  }

  // ---- POST /register ----

  /** POST /register, with `newId` the id `uuidv4` drew. */
  function Register(accounts: Accounts, newId: string, name: Option<string>, email: Option<string>,
                    password: Option<string>, now: int): Response<Session>
  {
    if Falsy(name) || Falsy(email) || Falsy(password) then Response(Err(AllFieldsRequired), accounts)
    else if |password.value| < MinPasswordLength then Response(Err(PasswordTooShort), accounts)
    else if FindByEmail(accounts, Lower(email.value)).Some? then Response(Err(EmailTaken), accounts)
    else if FindById(accounts, newId).Some? then Response(Err(RegisterFailed), accounts)
    else
      var a := Account(newId, name.value, Lower(email.value), Some(Hashed(password.value)), "", false,
                       DefaultPreferences, now);
      Response(Ok(Session(DataOf(a), newId)), accounts + [a])
  }

  /**
   * Registration refuses a missing field, a password under 6 characters and
   * an email whose lower-cased form is taken; a new account is a non-guest
   * stored under the lower-cased email, with the default preferences, signed in.
   */
  lemma RegisterValidates(accounts: Accounts, newId: string, name: Option<string>, email: Option<string>,
                          password: Option<string>, now: int)
    ensures var resp := Register(accounts, newId, name, email, password, now);
      && (Falsy(name) || Falsy(email) || Falsy(password) ==> resp.result == Err(AllFieldsRequired))
      && (!Falsy(name) && !Falsy(email) && !Falsy(password) && |password.value| < 6 ==>
            resp.result == Err(PasswordTooShort))
      && (resp.result.Ok? ==>
            && |password.value| >= 6
            && FindByEmail(accounts, Lower(email.value)).None?
            && resp.accounts == accounts + [resp.accounts[|accounts|]]
            && var a := resp.accounts[|accounts|];
            && a.id == newId && a.name == name.value && a.email == Lower(email.value)
            && !a.isGuest && a.preferences == DefaultPreferences
            && ComparePassword(a, password.value)
            && resp.result.value == Session(DataOf(a), newId))
      && (resp.result.Err? ==> resp.accounts == accounts)
  {
  }

  /**
   * With every field present and a long enough password, only the email
   * lookup or the save can refuse: a taken lower-cased email gets 400, a free
   * one under an id already stored fails the save with 500, and a free email
   * under a fresh id is registered.
   */
  lemma RegisterChecksFields(accounts: Accounts, newId: string, name: string, email: string, password: string, now: int)
    requires name != "" && email != "" && |password| >= 6
    ensures var r := Register(accounts, newId, Some(name), Some(email), Some(password), now).result;
      && (r.Ok? || r == Err(EmailTaken) || r == Err(RegisterFailed))
      && (r == Err(EmailTaken) <==> FindByEmail(accounts, Lower(email)).Some?)
      && (r == Err(RegisterFailed) <==> FindByEmail(accounts, Lower(email)).None? && FindById(accounts, newId).Some?)
      && (r.Ok? <==> FindByEmail(accounts, Lower(email)).None? && FindById(accounts, newId).None?)
  {
  }

  /** Registering an email under any capitalisation of one already registered is refused. */
  lemma RegisterRefusesTakenEmail(accounts: Accounts, newId: string, name: string, email: string,
                                  password: string, now: int)
    requires name != "" && email != "" && |password| >= 6
    requires FindByEmail(accounts, Lower(email)).Some?
    ensures Register(accounts, newId, Some(name), Some(email), Some(password), now).result == Err(EmailTaken)
  {
  }

  // ---- POST /login ----

  /** POST /login: a signed-in user's `lastActive` becomes `now`. */
  function Login(accounts: Accounts, email: Option<string>, password: Option<string>, now: int): Response<Session>
  {
    if Falsy(email) || Falsy(password) then Response(Err(CredentialsRequired), accounts)
    else match FindByEmail(accounts, Lower(email.value))
      case None => Response(Err(BadCredentials), accounts)
      case Some(i) =>
        if !ComparePassword(accounts[i], password.value) then Response(Err(BadCredentials), accounts)
        else
          var a := accounts[i].(lastActive := now);
          Response(Ok(Session(DataOf(a), a.id)), accounts[i := a])
  }

  /**
   * An unknown email and a wrong password get the same 401 answer, so a
   * failed login does not tell whether the account exists; a login succeeds
   * exactly for the account's own password and only touches `lastActive`.
   */
  lemma LoginHidesWhichCheckFailed(accounts: Accounts, email: string, password: string, now: int)
    requires email != "" && password != ""
    ensures var resp := Login(accounts, Some(email), Some(password), now);
      var found := FindByEmail(accounts, Lower(email));
      && (found.None? ==> resp.result == Err(BadCredentials))
      && (found.Some? && !ComparePassword(accounts[found.value], password) ==> resp.result == Err(BadCredentials))
      && (resp.result.Ok? <==> found.Some? && ComparePassword(accounts[found.value], password))
      && (resp.result.Ok? ==> resp.accounts == accounts[found.value := accounts[found.value].(lastActive := now)])
      && (resp.result.Err? ==> resp.accounts == accounts)
  {
  }

  /** A guest account has no password, so no login as a guest ever succeeds. */
  lemma GuestsCannotLogIn(accounts: Accounts, email: Option<string>, password: Option<string>, now: int)
    requires var found := FindByEmail(accounts, Lower(email.GetOr("")));
      !Falsy(email) && found.Some? && accounts[found.value].isGuest
    ensures Login(accounts, email, password, now).result.Err?
  {
  }

  /** A freshly registered user can log in with the same email, in any capitalisation, and password. */
  lemma RegisterThenLogin(accounts: Accounts, newId: string, name: string, email: string, password: string,
                          now: int, later: int)
    requires Register(accounts, newId, Some(name), Some(email), Some(password), now).result.Ok?
    ensures var accounts' := Register(accounts, newId, Some(name), Some(email), Some(password), now).accounts;
      Login(accounts', Some(Upper(email)), Some(password), later).result.Ok?
  {
    var accounts' := Register(accounts, newId, Some(name), Some(email), Some(password), now).accounts;
    LowerUpper(email);
    FindAppended(accounts, accounts'[|accounts|], Lower(email));
  }

  /** When no account has an email, the one appended with it is the one found. */
  lemma {:induction false} FindAppended(accounts: Accounts, a: Account, email: string)
    requires FindByEmail(accounts, email).None? && a.email == email
    ensures FindByEmail(accounts + [a], email) == Some(|accounts|)
  {
    if |accounts| > 0 {
      assert (accounts + [a])[1..] == accounts[1..] + [a];
      FindAppended(accounts[1..], a, email);
    }
  }

  // ---- POST /guest ----

  /** `name || Guest_<Date.now()>`. */
  function GuestName(name: Option<string>, now: nat): (r: string)
    ensures Falsy(name) ==> r == "Guest_" + NatToString(now)
    ensures !Falsy(name) ==> r == name.value
  {
    if Falsy(name) then "Guest_" + NatToString(now) else name.value
  }

  function GuestEmail(id: string): string {
    "guest_" + id + "@temp.com"
  }

  /** POST /guest; the unique indexes on id and email make a clashing save fail. */
  function CreateGuest(accounts: Accounts, newId: string, name: Option<string>, now: nat): Response<Session>
  {
    var email := GuestEmail(newId);
    if FindById(accounts, newId).Some? || FindByEmail(accounts, email).Some? then
      Response(Err(GuestFailed), accounts)
    else
      var a := Account(newId, GuestName(name, now), email, None, "", true, DefaultPreferences, now);
      Response(Ok(Session(DataOf(a), newId)), accounts + [a])
  }

  /**
   * A guest is stored under `guest_<id>@temp.com`, named `Guest_<now>` unless
   * a name is given, without a password, and signed in.
   */
  lemma GuestDefaults(accounts: Accounts, newId: string, name: Option<string>, now: nat)
    ensures var resp := CreateGuest(accounts, newId, name, now);
      && (resp.result.Ok? <==> FindById(accounts, newId).None? && FindByEmail(accounts, GuestEmail(newId)).None?)
      && (resp.result.Ok? ==>
            var a := resp.accounts[|accounts|];
            && resp.accounts == accounts + [a]
            && a.id == newId && a.email == "guest_" + newId + "@temp.com" && a.isGuest && a.password.None?
            && (Falsy(name) ==> a.name == "Guest_" + NatToString(now))
            && (!Falsy(name) ==> a.name == name.value)
            && resp.result.value.tokenFor == newId)
  {
  }

  /** Guests created at different times without a name get different names. */
  lemma GuestNamesDiffer(t1: nat, t2: nat)
    requires t1 != t2
    ensures GuestName(None, t1) != GuestName(None, t2)
  {
    ParseNatToString(t1);
    ParseNatToString(t2);
    var p := "Guest_";
    assert GuestName(None, t1)[|p|..] == NatToString(t1);
    assert GuestName(None, t2)[|p|..] == NatToString(t2);
  }

  // ---- GET /profile ----

  /** GET /profile. */
  function GetProfile(accounts: Accounts, userId: Option<string>): (r: Result<UserData, HttpError>)
    ensures Falsy(userId) ==> r == Err(UserIdRequired)
    ensures !Falsy(userId) && FindById(accounts, userId.value).None? ==> r == Err(UserNotFound)
    ensures !Falsy(userId) && FindById(accounts, userId.value).Some? ==> r.Ok?
    ensures r.Ok? ==> exists i :: 0 <= i < |accounts| && accounts[i].id == userId.value && r.value == DataOf(accounts[i])
  {
    if Falsy(userId) then Err(UserIdRequired)
    else match FindById(accounts, userId.value)
      case None => Err(UserNotFound)
      case Some(i) => Ok(DataOf(accounts[i]))
  }

  // ---- PUT /profile ----

  /**
   * The profile update's merge: a non-empty name replaces the name, a given
   * avatar (even empty) replaces the avatar, given preferences are spread
   * over the stored ones.
   */
  function MergeProfile(a: Account, name: Option<string>, avatar: Option<string>,
                        preferences: Option<map<string, Value>>): Account
  {
    var a := if !Falsy(name) then a.(name := name.value) else a;
    var a := if avatar.Some? then a.(avatar := avatar.value) else a;
    if preferences.Some? then a.(preferences := Spread(a.preferences, preferences.value)) else a
  }

  /** The schema admits only "light" and "dark" as a theme; saving anything else fails. */
  predicate ValidPreferences(p: map<string, Value>) {
    "theme" in p ==> p["theme"] == Str("light") || p["theme"] == Str("dark")
  }

  /** PUT /profile. */
  function UpdateProfile(accounts: Accounts, userId: Option<string>, name: Option<string>, avatar: Option<string>,
                         preferences: Option<map<string, Value>>): Response<UserData>
  {
    if Falsy(userId) then Response(Err(UserIdRequired), accounts)
    else match FindById(accounts, userId.value)
      case None => Response(Err(UserNotFound), accounts)
      case Some(i) =>
        var a := MergeProfile(accounts[i], name, avatar, preferences);
        if !ValidPreferences(a.preferences) then Response(Err(ProfileUpdateFailed), accounts)
        else Response(Ok(DataOf(a)), accounts[i := a])
  }

  /**
   * A profile update touches only the requesting account, leaving every
   * other account as it was, and answers with the merged account's data.
   */
  lemma UpdateProfileTouchesOnlyTheUser(accounts: Accounts, userId: Option<string>, name: Option<string>,
                                        avatar: Option<string>, preferences: Option<map<string, Value>>)
    ensures var resp := UpdateProfile(accounts, userId, name, avatar, preferences);
      && (Falsy(userId) ==> resp.result == Err(UserIdRequired))
      && (!Falsy(userId) && FindById(accounts, userId.value).None? ==> resp.result == Err(UserNotFound))
      && (!Falsy(userId) && FindById(accounts, userId.value).Some? ==>
            var a := MergeProfile(accounts[FindById(accounts, userId.value).value], name, avatar, preferences);
            resp.result == Err(ProfileUpdateFailed) <==> !ValidPreferences(a.preferences))
      && (resp.result.Err? ==> resp.accounts == accounts)
      && (resp.result.Ok? ==>
            var i := FindById(accounts, userId.value).value;
            var a := MergeProfile(accounts[i], name, avatar, preferences);
            && |resp.accounts| == |accounts| && resp.accounts[i] == a && resp.result.value == DataOf(a)
            && (forall j :: 0 <= j < |accounts| && j != i ==> resp.accounts[j] == accounts[j]))
  {
  }

  /**
   * For an account whose stored theme is valid, the save fails exactly when
   * the request sets a theme other than "light" or "dark".
   */
  lemma OnlyAnInvalidThemeFailsTheSave(accounts: Accounts, userId: string, name: Option<string>,
                                       avatar: Option<string>, preferences: Option<map<string, Value>>)
    requires userId != "" && FindById(accounts, userId).Some?
    requires ValidPreferences(accounts[FindById(accounts, userId).value].preferences)
    ensures UpdateProfile(accounts, Some(userId), name, avatar, preferences).result.Ok?
      <==> preferences.None? || ValidPreferences(preferences.value)
  {
  }

  /**
   * The merge keeps the id, email, password, guest flag and activity; it keeps
   * the name when the given one is missing or empty, the avatar when none is
   * given, and every stored preference the request does not mention, while a
   * preference the request gives wins.
   */
  lemma MergeRules(a: Account, name: Option<string>, avatar: Option<string>,
                   preferences: Option<map<string, Value>>)
    ensures var r := MergeProfile(a, name, avatar, preferences);
      && r.id == a.id && r.email == a.email && r.password == a.password && r.isGuest == a.isGuest
      && r.lastActive == a.lastActive
      && r.name == (if Falsy(name) then a.name else name.value)
      && r.avatar == (if avatar.Some? then avatar.value else a.avatar)
      && (preferences.None? ==> r.preferences == a.preferences)
      && (preferences.Some? ==>
            && r.preferences.Keys == a.preferences.Keys + preferences.value.Keys
            && (forall k :: k in preferences.value ==> r.preferences[k] == preferences.value[k])
            && (forall k :: k in a.preferences && k !in preferences.value ==> r.preferences[k] == a.preferences[k]))
  {
  }

  /** Sending the same profile update twice leaves the account as after the first. */
  lemma MergeIdempotent(a: Account, name: Option<string>, avatar: Option<string>,
                        preferences: Option<map<string, Value>>)
    ensures var once := MergeProfile(a, name, avatar, preferences);
      MergeProfile(once, name, avatar, preferences) == once
  {
    var once := MergeProfile(a, name, avatar, preferences);
    if preferences.Some? {
      var p := preferences.value;
      assert Spread(once.preferences, p) == once.preferences;
    }
  }

  // ---- GET /search ----

  /** The search condition: a non-guest whose name or email contains the query, ignoring case. */
  predicate SearchHit(a: Account, query: string) {
    !a.isGuest && (Includes(Lower(a.name), Lower(query)) || Includes(Lower(a.email), Lower(query)))
  }

  function Hits(accounts: Accounts, query: string): (r: seq<UserData>)
    ensures |r| <= |accounts|
    ensures forall u :: u in r ==> exists i :: 0 <= i < |accounts| && SearchHit(accounts[i], query) && u == DataOf(accounts[i])
    ensures forall i :: 0 <= i < |accounts| && SearchHit(accounts[i], query) ==> DataOf(accounts[i]) in r
  {
    if |accounts| == 0 then []
    else
      var rest := Hits(accounts[1..], query);
      assert forall i :: 1 <= i < |accounts| ==> accounts[i] == accounts[1..][i - 1];
      if SearchHit(accounts[0], query) then [DataOf(accounts[0])] + rest else rest
  }

  /**
   * The matches keep the stored order: searching accounts made of two parts
   * searches each part, and a single account is a match exactly when it is
   * a non-guest whose name or email contains the query.
   */
  lemma {:induction false} HitsAppend(a: Accounts, b: Accounts, x: Account, query: string)
    ensures Hits(a + b, query) == Hits(a, query) + Hits(b, query)
    ensures Hits([x], query) == if SearchHit(x, query) then [DataOf(x)] else []
    decreases |a|
  {
    if |a| == 0 {
      assert a + b == b;
    } else {
      assert (a + b)[0] == a[0] && (a + b)[1..] == a[1..] + b;
      HitsAppend(a[1..], b, x, query);
    }
    assert [x][1..] == [];
  }

  /** `.limit(n)`: MongoDB reads 0 as no limit and a negative limit as its magnitude. */
  function Limit<T>(s: seq<T>, n: int): (r: seq<T>)
    ensures n == 0 ==> r == s
    ensures n != 0 ==> r == s[..if |s| < (if n < 0 then -n else n) then |s| else (if n < 0 then -n else n)]
  {
    var m := if n < 0 then -n else n;
    if n == 0 || |s| <= m then s else s[..m]
  }

  /** GET /search, `limit` defaulting to 10. */
  function Search(accounts: Accounts, query: Option<string>, limit: Option<int>): (r: Result<seq<UserData>, HttpError>)
  {
    if Falsy(query) || |query.value| < MinQueryLength then Err(QueryTooShort)
    else Ok(Limit(Hits(accounts, query.value), limit.GetOr(DefaultSearchLimit)))
  }

  /**
   * A query under 2 characters is refused; otherwise the matching non-guest
   * accounts in stored order, cut to `limit` (10 by default, its magnitude
   * when negative, no cut for 0): the result is a prefix of the matches, as
   * long as the cut allows, and holds every match when they fit.
   */
  lemma SearchExcludesGuests(accounts: Accounts, query: Option<string>, limit: Option<int>)
    ensures var r := Search(accounts, query, limit);
      && (r.Err? <==> Falsy(query) || |query.value| < 2)
      && (r.Err? ==> r.error == QueryTooShort)
      && (r.Ok? ==>
            && (limit.None? ==> |r.value| <= 10)
            && (limit.Some? && limit.value > 0 ==> |r.value| <= limit.value)
            && (limit.Some? && limit.value < 0 ==> |r.value| <= -limit.value)
            && (forall u :: u in r.value ==> !u.isGuest)
            && (forall u :: u in r.value ==>
                  Includes(Lower(u.name), Lower(query.value)) || Includes(Lower(u.email), Lower(query.value)))
            && var hits := Hits(accounts, query.value);
            var n := limit.GetOr(10);
            var m := if n < 0 then -n else n;
            && r.value == hits[..|r.value|]
            && |r.value| == (if n == 0 || |hits| <= m then |hits| else m)
            && (n == 0 || |hits| <= m ==>
                  forall i :: 0 <= i < |accounts| && SearchHit(accounts[i], query.value) ==> DataOf(accounts[i]) in r.value))
  {
    var r := Search(accounts, query, limit);
    if r.Ok? {
      var all := Hits(accounts, query.value);
      assert forall u :: u in r.value ==> u in all;
    }
  }

  // ---- GET /verify ----

  /** `s.replace(pat, "")`: the first occurrence of `pat` is cut out. */
  function RemoveFirst(s: string, pat: string): (r: string)
    requires |pat| > 0
    ensures |r| == |s| || |r| == |s| - |pat|
    decreases |s|
  {
    if |s| < |pat| then s
    else if s[..|pat|] == pat then s[|pat|..]
    else [s[0]] + RemoveFirst(s[1..], pat)
  }

  /** A string in which `pat` does not occur is left as it is. */
  lemma {:induction false} RemoveFirstWithoutPattern(s: string, pat: string)
    requires |pat| > 0 && forall k :: !OccursAt(s, pat, k)
    ensures RemoveFirst(s, pat) == s
    decreases |s|
  {
    if |s| >= |pat| {
      assert !OccursAt(s, pat, 0);
      assert s[0..|pat|] == s[..|pat|];
      forall k ensures !OccursAt(s[1..], pat, k) {
        if 0 <= k {
          OccursShift(s, pat, k + 1);
        }
      }
      RemoveFirstWithoutPattern(s[1..], pat);
    }
  }

  /** `pat` occurs at `i` and nowhere before. */
  ghost predicate FirstOccurrence(s: string, pat: string, i: int) {
    OccursAt(s, pat, i) && forall j :: 0 <= j < i ==> !OccursAt(s, pat, j)
  }

  /** An occurrence after the first character is an occurrence in the rest of the string, one place earlier. */
  lemma OccursShift(s: string, pat: string, j: int)
    requires 0 < j && |s| > 0
    ensures OccursAt(s, pat, j) <==> OccursAt(s[1..], pat, j - 1)
  {
    if j <= |s| - |pat| {
      assert s[1..][j - 1..j - 1 + |pat|] == s[j..j + |pat|];
    }
  }

  /** The first occurrence in the rest of a string that does not start with `pat` is the first in the string, one place later. */
  lemma FirstShift(s: string, pat: string, i: int)
    requires |pat| <= |s| && s[..|pat|] != pat && FirstOccurrence(s[1..], pat, i)
    ensures FirstOccurrence(s, pat, i + 1)
  {
    OccursShift(s, pat, i + 1);
    forall j | 0 <= j < i + 1 ensures !OccursAt(s, pat, j) {
      if j == 0 {
        assert s[0..|pat|] == s[..|pat|];
      } else {
        OccursShift(s, pat, j);
      }
    }
  }

  /** Putting back the first character of a cut made one place later. */
  lemma ConsCut(s: string, i: int, n: int, rest: string, r: string)
    requires 0 <= i && 0 <= n && i + n < |s| && rest == s[1..][..i] + s[1..][i + n..] && r == [s[0]] + rest
    ensures r == s[..i + 1] + s[i + 1 + n..]
  {
    assert [s[0]] + s[1..][..i] == s[..i + 1];
    assert s[1..][i + n..] == s[i + 1 + n..];
  }

  /** A string that does not start with `pat` keeps its first character. */
  lemma RemoveFirstStep(s: string, pat: string)
    requires 0 < |pat| <= |s| && s[..|pat|] != pat
    ensures RemoveFirst(s, pat) == [s[0]] + RemoveFirst(s[1..], pat)
  {
  }

  /** A string that does not start with `pat` has its cut where the rest of it has, one place later. */
  lemma {:induction false} CutStep(s: string, pat: string, i: int)
    requires 0 < |pat| <= |s| && s[..|pat|] != pat && 0 <= i && i + |pat| < |s|
    requires RemoveFirst(s[1..], pat) == s[1..][..i] + s[1..][i + |pat|..]
    ensures RemoveFirst(s, pat) == s[..i + 1] + s[i + 1 + |pat|..]
  {
    RemoveFirstStep(s, pat);
    ConsCut(s, i, |pat|, RemoveFirst(s[1..], pat), RemoveFirst(s, pat));
  }

  /** When `pat` occurs, exactly its first occurrence is cut out and the rest is kept in order. */
  lemma {:induction false} RemoveFirstCutsFirst(s: string, pat: string)
    requires |pat| > 0 && exists k :: OccursAt(s, pat, k)
    ensures exists i :: FirstOccurrence(s, pat, i) && RemoveFirst(s, pat) == s[..i] + s[i + |pat|..]
    decreases |s|
  {
    var k :| OccursAt(s, pat, k);
    if s[..|pat|] == pat {
      assert FirstOccurrence(s, pat, 0) && RemoveFirst(s, pat) == s[..0] + s[|pat|..];
    } else {
      assert k != 0 by {
        assert s[0..|pat|] == s[..|pat|];
      }
      OccursShift(s, pat, k);
      RemoveFirstCutsFirst(s[1..], pat);
      var i :| FirstOccurrence(s[1..], pat, i) && RemoveFirst(s[1..], pat) == s[1..][..i] + s[1..][i + |pat|..];
      FirstShift(s, pat, i);
      CutStep(s, pat, i);
    }
  }

  /**
   * GET /verify: the token is the Authorization header with its first
   * `Bearer ` removed; `verify` is the signature check, giving the account id
   * a valid token was signed for.
   */
  function VerifyToken(accounts: Accounts, authorization: Option<string>, verify: string -> Option<string>)
    : (r: Result<UserData, HttpError>)
  {
    if authorization.None? then Err(NoToken)
    else
      var token := RemoveFirst(authorization.value, "Bearer ");
      if token == "" then Err(NoToken)
      else match verify(token)
        case None => Err(InvalidToken)
        case Some(id) =>
          match FindById(accounts, id)
          case None => Err(InvalidToken)
          case Some(i) => Ok(DataOf(accounts[i]))
  }

  /**
   * A missing or bare `Bearer ` header is 401 "No token provided"; a token that
   * fails the check or names a deleted account is 401 "Invalid token"; otherwise
   * the answer is the account the token was signed for.
   */
  lemma VerifyOutcomes(accounts: Accounts, authorization: Option<string>, verify: string -> Option<string>)
    ensures var r := VerifyToken(accounts, authorization, verify);
      && (authorization.None? || authorization == Some("Bearer ") ==> r == Err(NoToken))
      && (r.Ok? ==> exists i :: 0 <= i < |accounts| && r.value == DataOf(accounts[i])
                      && Some(accounts[i].id) == verify(RemoveFirst(authorization.value, "Bearer ")))
      && (r.Err? ==> r.error == NoToken || r.error == InvalidToken)
      && (r == Err(InvalidToken) <==>
            && authorization.Some?
            && var token := RemoveFirst(authorization.value, "Bearer ");
            && token != ""
            && (verify(token).None? || FindById(accounts, verify(token).value).None?))
  {
    if authorization == Some("Bearer ") {
      assert "Bearer "[..|"Bearer "|] == "Bearer ";
    }
  }

  // ---- DELETE /account ----

  /** DELETE /account: a guest needs no password; anyone else must give theirs. */
  function DeleteAccount(accounts: Accounts, userId: Option<string>, password: Option<string>): Response<string>
  {
    if Falsy(userId) then Response(Err(UserIdRequired), accounts)
    else match FindById(accounts, userId.value)
      case None => Response(Err(UserNotFound), accounts)
      case Some(i) =>
        var a := accounts[i];
        if !a.isGuest && Falsy(password) then Response(Err(PasswordRequired), accounts)
        else if !a.isGuest && !ComparePassword(a, password.value) then Response(Err(InvalidPassword), accounts)
        else Response(Ok(AccountDeleted), accounts[..i] + accounts[i + 1..])
  }

  /**
   * A non-guest account is deleted only with its own password (a missing one
   * is 400, a wrong one 401); a guest account is deleted without any. A
   * deletion removes exactly that account.
   */
  lemma DeletePasswordRule(accounts: Accounts, userId: string, password: Option<string>)
    requires userId != "" && FindById(accounts, userId).Some?
    ensures var i := FindById(accounts, userId).value;
      var resp := DeleteAccount(accounts, Some(userId), password);
      && (accounts[i].isGuest ==> resp.result.Ok?)
      && (!accounts[i].isGuest ==>
            && (Falsy(password) ==> resp.result == Err(PasswordRequired))
            && (!Falsy(password) && !ComparePassword(accounts[i], password.value) ==> resp.result == Err(InvalidPassword))
            && (resp.result.Ok? <==> !Falsy(password) && accounts[i].password == Some(Hashed(password.value))))
      && (resp.result.Ok? ==> resp.accounts == accounts[..i] + accounts[i + 1..])
      && (resp.result.Err? ==> resp.accounts == accounts)
  {
  }

  /** The accounts as the routes update them in place and save. */
  class AccountStore {
    var accounts: Accounts

    constructor (initial: Accounts)
      ensures accounts == initial
    {
      accounts := initial;
    }

    method UpdateProfileOf(userId: Option<string>, name: Option<string>, avatar: Option<string>,
                           preferences: Option<map<string, Value>>) returns (r: Result<UserData, HttpError>)
      modifies this
      ensures Response(r, accounts) == UpdateProfile(old(accounts), userId, name, avatar, preferences)
    {
      if Falsy(userId) {
        return Err(UserIdRequired);
      }
      var found := FindById(accounts, userId.value);
      if found.None? {
        return Err(UserNotFound);
      }
      var i := found.value;
      var user := accounts[i];
      if !Falsy(name) {
        user := user.(name := name.value);
      }
      if avatar.Some? {
        user := user.(avatar := avatar.value);
      }
      if preferences.Some? {
        user := user.(preferences := Spread(user.preferences, preferences.value));
      }
      if !ValidPreferences(user.preferences) {
        return Err(ProfileUpdateFailed);
      }
      accounts := accounts[i := user];
      r := Ok(DataOf(user));
    }

    method LogIn(email: Option<string>, password: Option<string>, now: int) returns (r: Result<Session, HttpError>)
      modifies this
      ensures Response(r, accounts) == Login(old(accounts), email, password, now)
    {
      if Falsy(email) || Falsy(password) {
        return Err(CredentialsRequired);
      }
      var found := FindByEmail(accounts, Lower(email.value));
      if found.None? {
        return Err(BadCredentials);
      }
      var i := found.value;
      var user := accounts[i];
      if !ComparePassword(user, password.value) {
        return Err(BadCredentials);
      }
      user := user.(lastActive := now);
      accounts := accounts[i := user];
      r := Ok(Session(DataOf(user), user.id));
    }

    method Delete(userId: Option<string>, password: Option<string>) returns (r: Result<string, HttpError>)
      modifies this
      ensures Response(r, accounts) == DeleteAccount(old(accounts), userId, password)
    {
      if Falsy(userId) {
        return Err(UserIdRequired);
      }
      var found := FindById(accounts, userId.value);
      if found.None? {
        return Err(UserNotFound);
      }
      var i := found.value;
      var user := accounts[i];
      if !user.isGuest {
        if Falsy(password) {
          return Err(PasswordRequired);
        }
        if !ComparePassword(user, password.value) {
          return Err(InvalidPassword);
        }
      }
      accounts := accounts[..i] + accounts[i + 1..];
      r := Ok(AccountDeleted);
    }
  }
}
