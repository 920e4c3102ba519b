/**
 * The login-requirement decision of `usePasswordModal`
 * (frontend/src/components/Modals/Password/index.jsx): from the `notry`
 * argument, whether the last validity check has expired, the instance
 * settings and the stored token, the state the hook settles in and what it
 * did to local storage on the way.
 *
 * `System.needsAuthCheck()`, `System.keys()` and `System.checkAuth(token)`
 * are inputs: a flag, the settings value (`None` for `null`) and a
 * predicate on tokens.
 */
module PasswordModal {
  import opened Wrappers
  import opened JsValues

  datatype Mode = Single | Multi

  datatype AuthState = AuthState(loading: bool, requiresAuth: bool, mode: Mode)

  /** The state before the check settles. */
  const Initial: AuthState := AuthState(true, false, Single)

  /** Local-storage keys: the three the hook removes, and any other. */
  datatype Key = AuthUser | AuthToken | AuthTimestamp | OtherKey(name: string)

  const AuthKeys: set<Key> := {AuthUser, AuthToken, AuthTimestamp}

  type Storage = map<Key, string>

  /**
   * What one run of `checkAuthReq` did: the state it set, whether it asked
   * for the settings, read the stored token or sent the token to be checked,
   * and local storage afterwards.
   */
  datatype Effect = Effect(state: AuthState, readSettings: bool, readToken: bool, checkedToken: bool, storage: Storage)

  /** `!!window.localStorage.getItem(AUTH_TOKEN)`. */
  predicate HasToken(storage: Storage) {
    AuthToken in storage && storage[AuthToken] != ""
  }

  function Setting(settings: Option<Json>, key: string): bool {
    TruthyOpt(OptMember(settings, key))
  }

  /** The branch after the settings are read, for the mode they select. */
  function TokenCheck(mode: Mode, notry: Json, storage: Storage, checkAuth: string -> bool): (e: Effect)
    ensures e.readSettings && e.readToken && !e.state.loading && e.state.mode == mode
    ensures e.checkedToken <==> HasToken(storage) && !Truthy(notry)
    ensures !e.state.requiresAuth <==> HasToken(storage) && !Truthy(notry) && checkAuth(storage[AuthToken])
    ensures e.storage == (if HasToken(storage) && e.state.requiresAuth then storage - AuthKeys else storage)
  {
    if HasToken(storage) then
      var valid := if Truthy(notry) then false else checkAuth(storage[AuthToken]);
      if !valid then Effect(AuthState(false, true, mode), true, true, !Truthy(notry), storage - AuthKeys)
      else Effect(AuthState(false, false, mode), true, true, true, storage)
    else Effect(AuthState(false, true, mode), true, true, false, storage)
  }

  /** `checkAuthReq`, given that `window` exists. */
  function CheckAuthReq(notry: Json, needsAuthCheck: bool, settings: Option<Json>, storage: Storage, checkAuth: string -> bool): (e: Effect)
    ensures !e.state.loading && e.state != Initial
    ensures e.storage == storage || e.storage == storage - AuthKeys
    ensures e.storage != storage ==> e.state.requiresAuth
    ensures e.checkedToken ==> e.readToken && HasToken(storage) && !Truthy(notry)
  {
    if !needsAuthCheck && notry == Bool(false) then
      Effect(AuthState(false, false, Multi), false, false, false, storage)
    else if Setting(settings, "MultiUserMode") then
      TokenCheck(Multi, notry, storage, checkAuth)
    else if !Setting(settings, "RequiresAuth") then
      Effect(AuthState(false, false, Single), true, false, false, storage)
    else
      TokenCheck(Single, notry, storage, checkAuth)
  }

  /** The mode the settings select. */
  function ModeOf(settings: Option<Json>): Mode {
    if Setting(settings, "MultiUserMode") then Multi else Single
  }

  /** Login is not required exactly when the check is still fresh, login is off, or the stored token is accepted. */
  lemma NoLoginExactly(notry: Json, needsAuthCheck: bool, settings: Option<Json>, storage: Storage, checkAuth: string -> bool)
    ensures var e := CheckAuthReq(notry, needsAuthCheck, settings, storage, checkAuth);
      var current := !needsAuthCheck && notry == Bool(false);
      !e.state.requiresAuth <==>
        (current
         || (!Setting(settings, "MultiUserMode") && !Setting(settings, "RequiresAuth"))
         || (HasToken(storage) && !Truthy(notry) && checkAuth(storage[AuthToken])))
  {
  }

  /** A fresh check without `notry` settles on multi-user, no login, without reading the settings or storage. */
  lemma FreshCheckSkips(needsAuthCheck: bool, settings: Option<Json>, storage: Storage, checkAuth: string -> bool)
    requires !needsAuthCheck
    ensures var e := CheckAuthReq(Bool(false), needsAuthCheck, settings, storage, checkAuth);
      e.state == AuthState(false, false, Multi) && !e.readSettings && !e.readToken && e.storage == storage
  {
  }

  /** Multi-user mode without a stored token asks for a login and leaves storage alone. */
  lemma MultiUserWithoutToken(notry: Json, needsAuthCheck: bool, settings: Option<Json>, storage: Storage, checkAuth: string -> bool)
    requires needsAuthCheck || notry != Bool(false)
    requires Setting(settings, "MultiUserMode") && !HasToken(storage)
    ensures var e := CheckAuthReq(notry, needsAuthCheck, settings, storage, checkAuth);
      e.state == AuthState(false, true, Multi) && e.storage == storage && !e.checkedToken
  {
  }

  /** With a truthy `notry`, a stored token is never sent for checking: it counts as invalid and the session keys are removed. */
  lemma NotryDiscardsToken(notry: Json, needsAuthCheck: bool, settings: Option<Json>, storage: Storage, checkAuth: string -> bool)
    requires Truthy(notry) && HasToken(storage)
    requires Setting(settings, "MultiUserMode") || Setting(settings, "RequiresAuth")
    ensures var e := CheckAuthReq(notry, needsAuthCheck, settings, storage, checkAuth);
      e.state == AuthState(false, true, ModeOf(settings)) && !e.checkedToken
      && e.storage == storage - AuthKeys && AuthToken !in e.storage
  {
  }

  /** An accepted token: no login, storage unchanged, the mode the settings select. */
  lemma ValidTokenKeepsSession(notry: Json, needsAuthCheck: bool, settings: Option<Json>, storage: Storage, checkAuth: string -> bool)
    requires needsAuthCheck || notry != Bool(false)
    requires !Truthy(notry) && HasToken(storage) && checkAuth(storage[AuthToken])
    requires Setting(settings, "MultiUserMode") || Setting(settings, "RequiresAuth")
    ensures var e := CheckAuthReq(notry, needsAuthCheck, settings, storage, checkAuth);
      e.state == AuthState(false, false, ModeOf(settings)) && e.checkedToken && e.storage == storage
  {
  }

  /** Single-user mode with login off: no login, and the token is never looked at, so storage cannot change the outcome. */
  lemma SingleUserOpen(notry: Json, needsAuthCheck: bool, settings: Option<Json>, s1: Storage, s2: Storage, checkAuth: string -> bool)
    requires needsAuthCheck || notry != Bool(false)
    requires !Setting(settings, "MultiUserMode") && !Setting(settings, "RequiresAuth")
    ensures var e := CheckAuthReq(notry, needsAuthCheck, settings, s1, checkAuth);
      e.state == AuthState(false, false, Single) && !e.readToken && e.storage == s1
      && e.state == CheckAuthReq(notry, needsAuthCheck, settings, s2, checkAuth).state
  {
  }

  /** Storage loses the session keys exactly when a stored token was rejected or not tried. */
  lemma ClearedExactly(notry: Json, needsAuthCheck: bool, settings: Option<Json>, storage: Storage, checkAuth: string -> bool)
    ensures var e := CheckAuthReq(notry, needsAuthCheck, settings, storage, checkAuth);
      e.storage == (if e.readToken && HasToken(storage) && e.state.requiresAuth then storage - AuthKeys else storage)
  {
  }
}
