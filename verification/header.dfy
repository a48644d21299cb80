/**
 * The header bar (client/src/components/Layout/Header.js): the theme toggle,
 * which sends a preferences update through the sign-in state, and the
 * active navigation link. Its initials are those of module `Initials`.
 */
module Header {
  import opened Wrappers
  import opened Json
  import opened AuthState

  /** `user?.preferences`. */
  function Preferences(user: Value): Value {
    Get(user, "preferences")
  }

  /** `user?.preferences?.theme`. */
  function Theme(user: Value): Value {
    Get(Preferences(user), "theme")
  }

  /** `toggleTheme()`: the payload passed to `updateUser`. */
  function ToggleTheme(user: Value): (payload: Value)
    ensures payload.Obj? && payload.fields.Keys == {"preferences"}
  {
    var next := if Theme(user) == Str("dark") then "light" else "dark";
    Obj(map["preferences" := Obj(Spread(Fields(Preferences(user)), map["theme" := Str(next)]))])
  }

  /**
   * After the toggle is dispatched, "dark" has become "light" and anything
   * else (no theme, no preferences, no user) "dark"; every other preference
   * and every other field of the user is kept, and the rest of the sign-in
   * state is unchanged.
   */
  lemma ToggleKeepsOtherPreferences(s: State)
    ensures var s' := Reduce(s, UpdateUser(ToggleTheme(s.user)));
      && (Theme(s.user) == Str("dark") ==> Theme(s'.user) == Str("light"))
      && (Theme(s.user) != Str("dark") ==> Theme(s'.user) == Str("dark"))
      && Fields(Preferences(s'.user)).Keys == Fields(Preferences(s.user)).Keys + {"theme"}
      && (forall k :: k in Fields(Preferences(s.user)) && k != "theme" ==>
            Fields(Preferences(s'.user))[k] == Fields(Preferences(s.user))[k])
      && Fields(s'.user).Keys == Fields(s.user).Keys + {"preferences"}
      && (forall k :: k in Fields(s.user) && k != "preferences" ==> Fields(s'.user)[k] == Fields(s.user)[k])
      && s'.token == s.token && s'.loading == s.loading && s'.error == s.error
  {
  }

  /** Toggling twice restores preferences whose theme was "light" or "dark", and leaves one that had none on "light". */
  lemma {:induction false} ToggleTwiceRestores(s: State)
    ensures var s2 := Reduce(Reduce(s, UpdateUser(ToggleTheme(s.user))), UpdateUser(ToggleTheme(Reduce(s, UpdateUser(ToggleTheme(s.user))).user)));
      && (Theme(s.user) == Str("light") || Theme(s.user) == Str("dark") ==> Preferences(s2.user) == Preferences(s.user))
      && (Theme(s.user) != Str("light") && Theme(s.user) != Str("dark") ==> Theme(s2.user) == Str("light"))
  {
    var s1 := Reduce(s, UpdateUser(ToggleTheme(s.user)));
    var s2 := Reduce(s1, UpdateUser(ToggleTheme(s1.user)));
    ToggleKeepsOtherPreferences(s);
    ToggleKeepsOtherPreferences(s1);
    if Theme(s.user) == Str("light") || Theme(s.user) == Str("dark") {
      var p, p2 := Fields(Preferences(s.user)), Fields(Preferences(s2.user));
      assert p2 == p;
    }
  }

  /** `isActive(path)`: the current path is exactly `path`. */
  function IsActive(pathname: string, path: string): bool {
    pathname == path
  }
}
