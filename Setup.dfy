/**
 * The standalone OAuth setup script (setup_oauth.py).
 *
 * `main` loads `token.json` (deleting it when it fails to load), refreshes
 * an expired credential, and otherwise runs the interactive sign-in with the
 * client configuration from `credentials.json`, after making sure the fixed
 * local redirect URI is registered in it. Only a credential obtained by
 * sign-in is written back; a refreshed one is not.
 */
module SetupOAuth {
  import opened Wrappers
  import opened Json
  import opened Credentials
  import Auth

  /** The fixed local callback address of the sign-in. */
  const RedirectUri: string := "http://localhost:3000/oauth"

  // ---------------------------------------------------------------------
  // Registering the redirect URI in the client configuration

  /** The configuration has a `web` object whose `redirect_uris` is a list. */
  predicate HasUriList(config: Json) {
    config.JObject? && "web" in config.fields && config.fields["web"].JObject? &&
    "redirect_uris" in config.fields["web"].fields &&
    config.fields["web"].fields["redirect_uris"].JArray?
  }

  function UriList(config: Json): seq<Json>
    requires HasUriList(config)
  {
    config.fields["web"].fields["redirect_uris"].items
  }

  /** `config` with its `web.redirect_uris` list replaced by `uris` and nothing else changed. */
  function WithUriList(config: Json, uris: seq<Json>): (c: Json)
    requires HasUriList(config)
    ensures HasUriList(c) && UriList(c) == uris
    ensures c.fields.Keys == config.fields.Keys
    ensures forall k :: k in config.fields && k != "web" ==> c.fields[k] == config.fields[k]
    ensures c.fields["web"].fields.Keys == config.fields["web"].fields.Keys
    ensures forall k :: k in config.fields["web"].fields && k != "redirect_uris" ==>
      c.fields["web"].fields[k] == config.fields["web"].fields[k]
    ensures uris == UriList(config) ==> c == config
  {
    var web := config.fields["web"];
    var c := JObject(config.fields["web" := JObject(web.fields["redirect_uris" := JArray(uris)])]);
    if uris == UriList(config) then
      assert web.fields["redirect_uris" := JArray(uris)] == web.fields;
      assert c.fields == config.fields;
      c
    else
      c
  }

  /**
   * The statement that registers the redirect URI: append it to
   * `web.redirect_uris` when it is not there yet. None when the statement
   * raises (a subscript or membership test Python rejects, or `append` on
   * something that is not a list), which the script reports as a failed
   * sign-in.
   */
  function AddRedirectUri(config: Json): (r: Option<Json>)
    // with a redirect list, the URI is a member afterwards, appended only if absent
    ensures HasUriList(config) ==>
      r.Some? && HasUriList(r.value) && JString(RedirectUri) in UriList(r.value) &&
      UriList(config) <= UriList(r.value) && |UriList(r.value)| <= |UriList(config)| + 1 &&
      (JString(RedirectUri) in UriList(config) <==> r.value == config)
    // the list is the only thing that can change
    ensures HasUriList(config) ==> r.value == WithUriList(config, UriList(r.value))
    // a missing `web` section or `redirect_uris` entry leaves the configuration untouched
    ensures (config.JObject? && "web" !in config.fields) ==> r == Some(config)
    ensures (config.JObject? && "web" in config.fields && config.fields["web"].JObject? &&
             "redirect_uris" !in config.fields["web"].fields) ==> r == Some(config)
    // anything else that succeeds changes nothing
    ensures r.Some? && !HasUriList(config) ==> r.value == config
  {
    match Contains(config, "web")
    case None => None
    case Some(false) => Some(config)
    case Some(true) =>
      match Lookup(config, "web")
      case None => None
      case Some(web) =>
        match Contains(web, "redirect_uris")
        case None => None
        case Some(false) => Some(config)
        case Some(true) =>
          match Lookup(web, "redirect_uris")
          case None => None
          case Some(uris) =>
            match Contains(uris, RedirectUri)
            case None => None
            case Some(true) => Some(config)
            case Some(false) =>
              if uris.JArray? then Some(WithUriList(config, uris.items + [JString(RedirectUri)]))
              else None
  }

  /** Registering the redirect URI twice is the same as registering it once. */
  lemma AddRedirectUriIdempotent(config: Json)
    requires AddRedirectUri(config).Some?
    ensures AddRedirectUri(AddRedirectUri(config).value) == AddRedirectUri(config)
  {
  }

  // ---------------------------------------------------------------------
  // The sign-in procedure

  /** The client-secret file `credentials.json`. */
  datatype ClientSecrets = Missing | Unreadable | Loaded(config: Json)

  /** What `main` observes besides `token.json`; library calls are None where they raise. */
  datatype SetupEnv = SetupEnv(
    clientSecrets: ClientSecrets,
    refresh: Option<UserToken>,   // creds.refresh(Request())
    flowBuilds: bool,             // InstalledAppFlow.from_client_config(...) accepts the configuration
    flow: Option<UserToken>,      // flow.run_local_server(port=3000, open_browser=True)
    save: SaveOutcome)            // writing creds.to_json() to token.json

  datatype SetupEffects = SetupEffects(tokenDeleted: bool, refreshAttempted: bool, flowStarted: bool, tokenWritten: bool)

  const Quiet := SetupEffects(false, false, false, false)

  /**
   * The end of a run: the credential whose information is printed (None
   * when `main` returned early), the effects, the configuration handed to
   * `from_client_config` (None when that line was not reached), and the
   * new `token.json`. `flowStarted` means the browser sign-in ran.
   */
  datatype SetupOutcome = SetupOutcome(
    reported: Option<UserToken>, effects: SetupEffects, flowConfig: Option<Json>, tokenFile: Option<TokenRecord>)

  /** The client configuration loads and the redirect registration does not raise. */
  predicate ConfigRegistered(env: SetupEnv) {
    env.clientSecrets.Loaded? && AddRedirectUri(env.clientSecrets.config).Some?
  }

  /** The browser sign-in can start: the configuration is registered and the flow accepts it. */
  predicate SignInReachable(env: SetupEnv) {
    ConfigRegistered(env) && env.flowBuilds
  }

  /** The sign-in branch: load the client configuration, register the redirect, sign in, save. */
  function SignIn(env: SetupEnv, effects: SetupEffects, file: Option<TokenRecord>): (o: SetupOutcome)
    requires !effects.flowStarted && !effects.tokenWritten
    ensures o.effects.flowStarted <==> SignInReachable(env)
    ensures o.effects.tokenWritten <==> SignInReachable(env) && env.flow.Some?
    ensures o.flowConfig.Some? <==> ConfigRegistered(env)
    ensures o.flowConfig.Some? ==> o.flowConfig == AddRedirectUri(env.clientSecrets.config)
    // token information is printed exactly after a completed save, and it is the new credential
    ensures o.reported.Some? <==> o.effects.tokenWritten && env.save.Saved?
    ensures o.reported.Some? ==> o.reported == env.flow
    ensures !o.effects.tokenWritten ==> o.tokenFile == file
    ensures o.effects.tokenWritten ==> o.tokenFile == AfterSave(file, env.flow.value, env.save)
    ensures o.effects.(flowStarted := false, tokenWritten := false) == effects
  {
    match env.clientSecrets
    case Missing => SetupOutcome(None, effects, None, file)
    case Unreadable => SetupOutcome(None, effects, None, file)
    case Loaded(config) =>
      match AddRedirectUri(config)
      case None => SetupOutcome(None, effects, None, file)
      case Some(cfg) =>
        if !env.flowBuilds then
          SetupOutcome(None, effects, Some(cfg), file)
        else
          var started := effects.(flowStarted := true);
          match env.flow
          case None => SetupOutcome(None, started, Some(cfg), file)
          case Some(t) =>
            var saved := AfterSave(file, t, env.save);
            SetupOutcome(if env.save.Saved? then Some(t) else None, started.(tokenWritten := true), Some(cfg), saved)
  }

  /** The policy of `main` as written, starting from `token.json` contents `file`. */
  function Setup(env: SetupEnv, file: Option<TokenRecord>): (o: SetupOutcome)
    // a token file that fails to load is deleted, and treated as absent
    ensures o.effects.tokenDeleted <==> file == Some(Corrupt)
    ensures file == Some(Corrupt) ==>
      !o.effects.refreshAttempted && (o.effects.flowStarted <==> SignInReachable(env)) &&
      (o.effects.tokenWritten || o.tokenFile == None)
    // with no loadable token file the script signs in whenever the sign-in is reachable
    ensures Parse(file).None? ==> (o.effects.flowStarted <==> SignInReachable(env))
    // an already valid credential: nothing is refreshed, started or written
    ensures Auth.CacheHit(file) ==> o == SetupOutcome(Parse(file), Quiet, None, file)
    // refresh exactly for a loaded, invalid, expired credential with a refresh token
    ensures o.effects.refreshAttempted <==> Auth.RefreshCase(file)
    // a refreshed credential is reported but not written back, and no sign-in follows
    ensures o.effects.refreshAttempted && env.refresh.Some? ==>
      o == SetupOutcome(env.refresh, Quiet.(refreshAttempted := true), None, file)
    // a failed refresh falls through to the sign-in
    ensures o.effects.refreshAttempted && env.refresh.None? ==>
      (o.effects.flowStarted <==> SignInReachable(env))
    // only a completed sign-in writes the token file; a missing client secret prevents both
    ensures o.effects.tokenWritten <==> o.effects.flowStarted && env.flow.Some?
    ensures env.clientSecrets.Missing? ==> !o.effects.flowStarted && !o.effects.tokenWritten
    ensures o.tokenFile != file ==> o.effects.tokenDeleted || o.effects.tokenWritten
    // the sign-in is given the client configuration with the redirect URI registered
    ensures o.effects.flowStarted ==>
      env.clientSecrets.Loaded? && o.flowConfig == AddRedirectUri(env.clientSecrets.config) &&
      (HasUriList(env.clientSecrets.config) ==> JString(RedirectUri) in UriList(o.flowConfig.value))
    // a failed sign-in or a failed save returns without printing token information
    ensures o.effects.flowStarted && !(env.flow.Some? && env.save.Saved?) ==> o.reported.None?
    // token information is printed exactly for a loaded credential that is not refreshed, a
    // successful refresh, or a completed save; every early return prints nothing
    ensures o.reported.Some? <==>
      (Parse(file).Some? && !Auth.RefreshCase(file)) ||
      (Auth.RefreshCase(file) && env.refresh.Some?) ||
      (o.effects.tokenWritten && env.save.Saved?)
    // a completed sign-in writes the new credential, and prints it when the save succeeded
    ensures o.effects.tokenWritten ==>
      o.tokenFile == AfterSave(if file == Some(Corrupt) then None else file, env.flow.value, env.save) &&
      (env.save.Saved? ==> o.reported == env.flow)
  {
    var deleted := file == Some(Corrupt);
    var kept := if deleted then None else file;
    var loaded := Parse(file);
    var effects := Quiet.(tokenDeleted := deleted);
    if loaded.Some? && loaded.value.valid then
      SetupOutcome(loaded, effects, None, kept)
    else if loaded.Some? && loaded.value.expired && loaded.value.hasRefreshToken then
      var refreshing := effects.(refreshAttempted := true);
      if env.refresh.Some? then SetupOutcome(env.refresh, refreshing, None, kept)
      else SignIn(env, refreshing, kept)
    else if loaded.Some? then
      // a loaded credential object is truthy, so `if not creds:` skips the sign-in
      SetupOutcome(loaded, effects, None, kept)
    else
      SignIn(env, effects, kept)
  }

  /**
   * `main()`: the local credential is reassigned across load, refresh and
   * sign-in, `token.json` is removed or written, and the client
   * configuration is updated before the sign-in. Proved equal to `Setup`.
   */
  method SetupMain(env: SetupEnv, store: TokenFile)
    returns (reported: Option<UserToken>, effects: SetupEffects, flowConfig: Option<Json>)
    modifies store
    ensures SetupOutcome(reported, effects, flowConfig, store.record) == Setup(env, old(store.record))
  {
    var creds: Option<UserToken> := None;
    reported, effects, flowConfig := None, Quiet, None;

    var present := store.Exists();
    if present {
      creds := store.Load();
      if creds.None? {
        store.Remove();
        effects := effects.(tokenDeleted := true);
      }
    }

    if creds.None? || !creds.value.valid {
      if creds.Some? && creds.value.expired && creds.value.hasRefreshToken {
        effects := effects.(refreshAttempted := true);
        // a refresh that raises resets the credential to None
        creds := env.refresh;
      }
      if creds.None? {
        if env.clientSecrets.Missing? {
          return;
        }
        if env.clientSecrets.Unreadable? {
          return;
        }
        var clientConfig := env.clientSecrets.config;
        var registered := AddRedirectUri(clientConfig);
        if registered.None? {
          return;
        }
        clientConfig := registered.value;
        flowConfig := Some(clientConfig);
        if !env.flowBuilds {
          return;
        }
        effects := effects.(flowStarted := true);
        if env.flow.None? {
          return;
        }
        creds := env.flow;
        effects := effects.(tokenWritten := true);
        var ok := store.Save(creds.value, env.save);
        if !ok {
          return;
        }
      }
    }
    reported := creds;
  }

  // ---------------------------------------------------------------------
  // The printed token

  /** Python's `s[-n:]` for a positive `n`: the last `n` characters, or all of a shorter string. */
  function LastChars(s: string, n: nat): (r: string)
    requires n > 0
    ensures |r| == if |s| < n then |s| else n
    ensures s == s[..|s| - |r|] + r
  {
    if |s| <= n then s else s[|s| - n..]
  }

  /**
   * The token shown in the report: `'...'` followed by at most the last ten
   * characters of the access token, or `None` when there is no token.
   */
  function TokenLine(token: Option<string>): (line: string)
    ensures token.None? || token == Some("") ==> line == "None"
    ensures token.Some? && token.value != "" ==>
      |line| == 3 + (if |token.value| < 10 then |token.value| else 10) && line[..3] == "..." &&
      token.value == token.value[..|token.value| - (|line| - 3)] + line[3..]
  {
    if token.None? || token.value == "" then "None" else "..." + LastChars(token.value, 10)
  }

  // ---------------------------------------------------------------------
  // The line-39 check, as written and as intended

  /**
   * As written, a loaded credential that is invalid but cannot be
   * refreshed (say, expired with no refresh token) skips the sign-in: its
   * stale information is printed and nothing is repaired.
   */
  lemma StaleTokenSkipsSignIn(env: SetupEnv, t: UserToken)
    requires !t.valid && !(t.expired && t.hasRefreshToken)
    ensures Setup(env, Some(Stored(t))) == SetupOutcome(Some(t), Quiet, None, Some(Stored(t)))
    ensures !Setup(env, Some(Stored(t))).reported.value.valid
  {
  }

  /**
   * `main` with line 39 reading `if not creds or not creds.valid:`, so that
   * any credential still unusable after the refresh step leads to sign-in.
   */
  function SetupIntended(env: SetupEnv, file: Option<TokenRecord>): (o: SetupOutcome)
    // what is reported without a sign-in is always a valid credential
    ensures o.reported.Some? && !o.effects.flowStarted ==> o.reported.value.valid
    ensures o.effects.refreshAttempted <==> Auth.RefreshCase(file)
    ensures o.effects.tokenWritten <==> o.effects.flowStarted && env.flow.Some?
    ensures o.tokenFile != file ==> o.effects.tokenDeleted || o.effects.tokenWritten
    // the repair reaches every credential the as-written script leaves stale
    ensures Parse(file).Some? && !Parse(file).value.valid && !Auth.RefreshCase(file) ==>
      (o.effects.flowStarted <==> SignInReachable(env))
  {
    var deleted := file == Some(Corrupt);
    var kept := if deleted then None else file;
    var loaded := Parse(file);
    var effects := Quiet.(tokenDeleted := deleted);
    if loaded.Some? && loaded.value.valid then
      SetupOutcome(loaded, effects, None, kept)
    else if loaded.Some? && loaded.value.expired && loaded.value.hasRefreshToken then
      var refreshing := effects.(refreshAttempted := true);
      if env.refresh.Some? && env.refresh.value.valid then SetupOutcome(env.refresh, refreshing, None, kept)
      else SignIn(env, refreshing, kept)
    else
      SignIn(env, effects, kept)
  }

  /** The two scripts agree wherever the as-written check is not reached. */
  lemma IntendedAgreesOffTheStalePath(env: SetupEnv, file: Option<TokenRecord>)
    requires !(Parse(file).Some? && !Parse(file).value.valid && !Auth.RefreshCase(file))
    requires env.refresh.Some? ==> env.refresh.value.valid
    ensures SetupIntended(env, file) == Setup(env, file)
  {
  }

  // ---------------------------------------------------------------------
  // The two cascades compared

  /**
   * After a failed refresh the server's cascade gives up, while the setup
   * script falls through to the sign-in.
   */
  lemma RefreshFailurePolicies(scopes: seq<string>, server: Auth.AuthEnv, setup: SetupEnv, t: UserToken)
    requires Auth.Refreshable(t) && Auth.UserStagesReached(server)
    requires server.refresh.None? && setup.refresh.None?
    requires SignInReachable(setup)
    ensures var o := Auth.Resolve(scopes, server, Some(Stored(t)));
      o.creds.None? && !o.effects.flowStarted
    ensures Setup(setup, Some(Stored(t))).effects.flowStarted
  {
  }

  /** After a successful refresh the server writes the token file back; the setup script does not. */
  lemma RefreshSuccessPolicies(scopes: seq<string>, server: Auth.AuthEnv, setup: SetupEnv, t: UserToken)
    requires Auth.Refreshable(t) && Auth.UserStagesReached(server)
    requires server.refresh.Some? && setup.refresh.Some?
    ensures Auth.Resolve(scopes, server, Some(Stored(t))).effects.tokenWritten
    ensures !Setup(setup, Some(Stored(t))).effects.tokenWritten
    ensures Setup(setup, Some(Stored(t))).tokenFile == Some(Stored(t))
  {
  }
}
