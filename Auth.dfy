/**
 * The credential cascade of the calendar server (app/auth.py).
 *
 * `get_credentials` tries, in order, an embedded base64 service-account
 * configuration, a service-account key file, and the cached user token;
 * an invalid user token is refreshed when it is expired and refreshable,
 * and otherwise the interactive browser flow runs. A refreshed or newly
 * authorized credential is written back to the token file. `Resolve` states
 * this policy as a function of the environment and the token file;
 * `GetCredentials` is the step-by-step procedure, proved equal to it.
 */
module Auth {
  import opened Wrappers
  import opened Credentials

  /** The calendar scope requested when the caller names none. */
  const CalendarScope: string := "https://www.googleapis.com/auth/calendar"
  const DefaultScopes: seq<string> := [CalendarScope]

  /** Where a credential came from. */
  datatype Source =
    | EmbeddedConfig        // CREDENTIALS_CONFIG
    | ServiceAccountFile    // SERVICE_ACCOUNT_PATH
    | CachedUserToken       // TOKEN_PATH, still valid
    | RefreshedUserToken    // TOKEN_PATH, refreshed
    | InteractiveFlow       // browser sign-in with CREDENTIALS_PATH

  /** A credential handed to the caller; service-account credentials carry no user token. */
  datatype Credential = Credential(source: Source, scopes: seq<string>, user: Option<UserToken>)

  /**
   * Everything outside the process that the cascade observes: environment
   * variables, file existence, and the outcome of each library call
   * (None where the call raises).
   */
  datatype AuthEnv = AuthEnv(
    credentialsConfig: Option<string>,   // os.environ.get('CREDENTIALS_CONFIG')
    configLoads: bool,                   // base64 decode, JSON parse and key construction succeed;
                                         // the call as written always raises (`EmbeddedConfigIgnored`)
    serviceAccountFileExists: bool,
    serviceAccountFileLoads: bool,
    credentialsFileExists: bool,         // the OAuth client-secret file
    refresh: Option<UserToken>,          // creds.refresh(Request())
    flowBuilds: bool,                    // InstalledAppFlow.from_client_secrets_file(...) reads the client secret
    flow: Option<UserToken>,             // flow.run_local_server(port=8080)
    save: SaveOutcome)                   // writing creds.to_json() to the token file

  /** The side effects of one resolution, beyond the token file itself. */
  datatype Effects = Effects(refreshAttempted: bool, flowStarted: bool, tokenWritten: bool)

  const NoEffects := Effects(false, false, false)

  /** The result of one call: the credential (None on failure), its effects, and the new token file. */
  datatype Outcome = Outcome(creds: Option<Credential>, effects: Effects, tokenFile: Option<TokenRecord>)

  function ScopesOrDefault(scopes: Option<seq<string>>): seq<string> {
    if scopes.None? then DefaultScopes else scopes.value
  }

  /** An unset or empty environment variable is falsy in Python. */
  predicate ConfigSet(env: AuthEnv) {
    env.credentialsConfig.Some? && env.credentialsConfig.value != ""
  }

  predicate EmbeddedConfigWorks(env: AuthEnv) {
    ConfigSet(env) && env.configLoads
  }

  predicate ServiceAccountFileWorks(env: AuthEnv) {
    env.serviceAccountFileExists && env.serviceAccountFileLoads
  }

  /** Neither service-account source produced a credential, so the user-token stages run. */
  predicate UserStagesReached(env: AuthEnv) {
    !EmbeddedConfigWorks(env) && !ServiceAccountFileWorks(env)
  }

  /** A loaded credential that the cascade refreshes rather than replaces. */
  predicate Refreshable(t: UserToken) {
    !t.valid && t.expired && t.hasRefreshToken
  }

  /** The token file already holds a credential that is returned as is. */
  predicate CacheHit(file: Option<TokenRecord>) {
    Parse(file).Some? && Parse(file).value.valid
  }

  /** The token file holds a credential that is refreshed. */
  predicate RefreshCase(file: Option<TokenRecord>) {
    Parse(file).Some? && Refreshable(Parse(file).value)
  }

  /** The browser-flow branch is taken: nothing cached is usable or refreshable. */
  predicate FlowCase(env: AuthEnv, file: Option<TokenRecord>) {
    UserStagesReached(env) && !CacheHit(file) && !RefreshCase(file)
  }

  /** Persisting a credential that a refresh or the flow produced. */
  function Obtained(scopes: seq<string>, env: AuthEnv, file: Option<TokenRecord>,
                    source: Source, got: Option<UserToken>, effects: Effects): Outcome
  {
    match got
    case None => Outcome(None, effects, file)
    case Some(t) =>
      Outcome(Some(Credential(source, scopes, Some(t))), effects.(tokenWritten := true), AfterSave(file, t, env.save))
  }

  /** The policy of `get_credentials` for the requested `scopes`, starting from token file `file`. */
  function Resolve(scopes: seq<string>, env: AuthEnv, file: Option<TokenRecord>): (o: Outcome)
    // priority: a working embedded configuration wins and touches nothing else
    ensures EmbeddedConfigWorks(env) ==>
      o == Outcome(Some(Credential(EmbeddedConfig, scopes, None)), NoEffects, file)
    // then a working service-account file, again touching nothing else
    ensures !EmbeddedConfigWorks(env) && ServiceAccountFileWorks(env) ==>
      o == Outcome(Some(Credential(ServiceAccountFile, scopes, None)), NoEffects, file)
    // every credential is issued for the requested scopes
    ensures o.creds.Some? ==> o.creds.value.scopes == scopes
    // a valid cached credential is returned unchanged, with no refresh, flow or write
    ensures UserStagesReached(env) && CacheHit(file) ==>
      o == Outcome(Some(Credential(CachedUserToken, scopes, Parse(file))), NoEffects, file)
    // refresh only for a loaded, invalid, expired credential with a refresh token
    ensures o.effects.refreshAttempted <==> UserStagesReached(env) && RefreshCase(file)
    // the browser flow runs exactly when no cached credential is usable or refreshable
    // and the client secret exists and loads
    ensures o.effects.flowStarted <==> FlowCase(env, file) && env.credentialsFileExists && env.flowBuilds
    // a failed refresh ends the cascade: no fallthrough to the flow
    ensures o.effects.refreshAttempted ==> !o.effects.flowStarted
    ensures o.effects.refreshAttempted && env.refresh.None? ==>
      o.creds.None? && !o.effects.tokenWritten && o.tokenFile == file
    // a missing or unloadable client secret ends the cascade without a flow or a write
    ensures FlowCase(env, file) && !(env.credentialsFileExists && env.flowBuilds) ==>
      o == Outcome(None, NoEffects, file)
    // a successful refresh returns the refreshed credential and writes it to the token file
    ensures UserStagesReached(env) && RefreshCase(file) && env.refresh.Some? ==>
      o == Outcome(Some(Credential(RefreshedUserToken, scopes, env.refresh)), Effects(true, false, true),
                   AfterSave(file, env.refresh.value, env.save))
    // a successful flow returns the new credential and writes it to the token file
    ensures FlowCase(env, file) && env.credentialsFileExists && env.flowBuilds && env.flow.Some? ==>
      o == Outcome(Some(Credential(InteractiveFlow, scopes, env.flow)), Effects(false, true, true),
                   AfterSave(file, env.flow.value, env.save))
    // a flow that raises ends the cascade without a write
    ensures o.effects.flowStarted && env.flow.None? ==> o == Outcome(None, Effects(false, true, false), file)
    // the token file is written exactly after a successful refresh or flow, and never otherwise changes
    ensures o.effects.tokenWritten <==>
      o.creds.Some? && (o.creds.value.source == RefreshedUserToken || o.creds.value.source == InteractiveFlow)
    ensures o.tokenFile != file ==> o.effects.tokenWritten
    // a failed save is not fatal; a successful one caches exactly the returned credential,
    // unless it has no refresh token, in which case the saved file does not load back
    ensures o.effects.tokenWritten && env.save.Saved? ==>
      (Parse(o.tokenFile) == o.creds.value.user <==> o.creds.value.user.value.hasRefreshToken)
    // failure happens exactly when the user-token stages are reached and the chosen path fails
    ensures o.creds.None? <==>
      UserStagesReached(env) && !CacheHit(file) &&
      (if RefreshCase(file) then env.refresh.None?
       else !env.credentialsFileExists || !env.flowBuilds || env.flow.None?)
  {
    if EmbeddedConfigWorks(env) then
      Outcome(Some(Credential(EmbeddedConfig, scopes, None)), NoEffects, file)
    else if ServiceAccountFileWorks(env) then
      Outcome(Some(Credential(ServiceAccountFile, scopes, None)), NoEffects, file)
    else if CacheHit(file) then
      Outcome(Some(Credential(CachedUserToken, scopes, Parse(file))), NoEffects, file)
    else if RefreshCase(file) then
      Obtained(scopes, env, file, RefreshedUserToken, env.refresh, NoEffects.(refreshAttempted := true))
    else if !env.credentialsFileExists || !env.flowBuilds then
      Outcome(None, NoEffects, file)
    else
      Obtained(scopes, env, file, InteractiveFlow, env.flow, NoEffects.(flowStarted := true))
  }

  /**
   * `get_credentials(scopes)`: the local credential is reassigned stage by
   * stage, with early returns, and the token file is written as a side
   * effect. The result, the effects and the new token file are those of
   * `Resolve` for the requested (or default) scopes.
   */
  method GetCredentials(scopes: Option<seq<string>>, env: AuthEnv, store: TokenFile)
    returns (creds: Option<Credential>, effects: Effects)
    modifies store
    ensures Outcome(creds, effects, store.record) == Resolve(ScopesOrDefault(scopes), env, old(store.record))
    ensures scopes.None? && creds.Some? ==> creds.value.scopes == DefaultScopes
  {
    var requested := ScopesOrDefault(scopes);
    creds, effects := None, NoEffects;

    // 1. embedded service-account configuration
    if ConfigSet(env) {
      if env.configLoads {
        creds := Some(Credential(EmbeddedConfig, requested, None));
        return;
      }
    }

    // 2. service-account key file
    if env.serviceAccountFileExists {
      if env.serviceAccountFileLoads {
        creds := Some(Credential(ServiceAccountFile, requested, None));
        return;
      }
    }

    // 3. cached user token; a load failure leaves it absent
    var user: Option<UserToken> := None;
    var present := store.Exists();
    if present {
      user := store.Load();
    }

    // 4. refresh or re-authorize, then persist
    if user.None? || !user.value.valid {
      var source: Source;
      if user.Some? && user.value.expired && user.value.hasRefreshToken {
        effects := effects.(refreshAttempted := true);
        if env.refresh.None? {
          return;
        }
        user, source := env.refresh, RefreshedUserToken;
      } else {
        if !env.credentialsFileExists {
          return;
        }
        // building the flow reads the client secret and may raise
        if !env.flowBuilds {
          return;
        }
        effects := effects.(flowStarted := true);
        if env.flow.None? {
          return;
        }
        user, source := env.flow, InteractiveFlow;
      }
      effects := effects.(tokenWritten := true);
      var _ := store.Save(user.value, env.save);
      creds := Some(Credential(source, requested, user));
      return;
    }
    creds := Some(Credential(CachedUserToken, requested, user));
  }

  /** A calendar API client built on a credential (`googleapiclient.discovery.build`). */
  datatype Service = Service(apiName: string, apiVersion: string, creds: Credential)

  /** The composition in `create_service`: no credential or a failing build gives no service. */
  function ServiceFor(apiName: string, apiVersion: string, creds: Option<Credential>, buildSucceeds: bool)
    : (s: Option<Service>)
    ensures s.Some? <==> creds.Some? && buildSucceeds
    ensures s.Some? ==> s.value == Service(apiName, apiVersion, creds.value)
  {
    if creds.None? then None
    else if !buildSucceeds then None
    else Some(Service(apiName, apiVersion, creds.value))
  }

  /** `create_service(api_name, api_version, scopes)`; `buildSucceeds` is whether `build` returns. */
  method CreateService(apiName: string, apiVersion: string, scopes: Option<seq<string>>,
                       env: AuthEnv, buildSucceeds: bool, store: TokenFile)
    returns (service: Option<Service>)
    modifies store
    ensures var o := Resolve(ScopesOrDefault(scopes), env, old(store.record));
      service == ServiceFor(apiName, apiVersion, o.creds, buildSucceeds) && store.record == o.tokenFile
  {
    var requested := ScopesOrDefault(scopes);
    var creds, _ := GetCredentials(Some(requested), env, store);
    if creds.None? {
      return None;
    }
    if !buildSucceeds {
      return None;
    }
    service := Some(Service(apiName, apiVersion, creds.value));
  }

  // ---------------------------------------------------------------------
  // Repeated calls. The server resolves a credential on every request;
  // `Serve` threads the token file from one call to the next.

  /** The token file seen by call `i` of a session whose outcomes are `outs`. */
  function FileBefore(file: Option<TokenRecord>, outs: seq<Outcome>, i: nat): Option<TokenRecord>
    requires i <= |outs|
  {
    if i == 0 then file else outs[i - 1].tokenFile
  }

  /** Each call of a session resolves against the token file the previous call left behind. */
  function Serve(scopes: seq<string>, envs: seq<AuthEnv>, file: Option<TokenRecord>): (outs: seq<Outcome>)
    ensures |outs| == |envs|
    ensures forall i :: 0 <= i < |envs| ==> outs[i] == Resolve(scopes, envs[i], FileBefore(file, outs, i))
    decreases |envs|
  {
    if envs == [] then []
    else
      var o := Resolve(scopes, envs[0], file);
      var rest := Serve(scopes, envs[1..], o.tokenFile);
      var outs := [o] + rest;
      forall i | 1 <= i < |envs|
        ensures outs[i] == Resolve(scopes, envs[i], FileBefore(file, outs, i))
      {
        var j := i - 1;
        assert rest[j] == Resolve(scopes, envs[1..][j], FileBefore(o.tokenFile, rest, j));
        assert outs[i] == rest[j] && envs[i] == envs[1..][j];
        assert FileBefore(file, outs, i) == FileBefore(o.tokenFile, rest, j);
      }
      outs
  }

  /**
   * Once the token file holds a valid credential, every later call that
   * reaches the user-token stages returns that same credential, with no
   * refresh, no flow and no write.
   */
  lemma {:induction false} ValidCacheServesEveryCall(scopes: seq<string>, envs: seq<AuthEnv>, t: UserToken)
    requires t.valid
    requires forall i :: 0 <= i < |envs| ==> UserStagesReached(envs[i])
    ensures forall i :: 0 <= i < |envs| ==>
      Serve(scopes, envs, Some(Stored(t)))[i] ==
        Outcome(Some(Credential(CachedUserToken, scopes, Some(t))), NoEffects, Some(Stored(t)))
    decreases |envs|
  {
    if envs != [] {
      var hit := Outcome(Some(Credential(CachedUserToken, scopes, Some(t))), NoEffects, Some(Stored(t)));
      assert Resolve(scopes, envs[0], Some(Stored(t))) == hit;
      ValidCacheServesEveryCall(scopes, envs[1..], t);
      var rest := Serve(scopes, envs[1..], Some(Stored(t)));
      var outs := Serve(scopes, envs, Some(Stored(t)));
      assert outs == [hit] + rest;
      forall i | 1 <= i < |outs| ensures outs[i] == hit {
        assert outs[i] == rest[i - 1];
      }
    }
  }

  /**
   * Across a whole session, the token file changes only in calls that write
   * it: a corollary of `Resolve`'s contract and `Serve`'s.
   */
  lemma FileChangesOnlyByWrites(scopes: seq<string>, envs: seq<AuthEnv>, file: Option<TokenRecord>)
    ensures forall i :: 0 <= i < |envs| ==>
      Serve(scopes, envs, file)[i].tokenFile == FileBefore(file, Serve(scopes, envs, file), i) ||
      Serve(scopes, envs, file)[i].effects.tokenWritten
    decreases |envs|
  {
  }

  /** A session served entirely by service-account sources leaves the token file as it was. */
  lemma {:induction false} ServiceAccountSessionsKeepTokenFile(scopes: seq<string>, envs: seq<AuthEnv>,
                                                             file: Option<TokenRecord>)
    requires forall i :: 0 <= i < |envs| ==> !UserStagesReached(envs[i])
    ensures forall i :: 0 <= i < |envs| ==>
      Serve(scopes, envs, file)[i].tokenFile == file && Serve(scopes, envs, file)[i].effects == NoEffects
    decreases |envs|
  {
    if envs != [] {
      var o := Resolve(scopes, envs[0], file);
      assert o.tokenFile == file && o.effects == NoEffects;
      ServiceAccountSessionsKeepTokenFile(scopes, envs[1..], file);
      var rest := Serve(scopes, envs[1..], file);
      var outs := Serve(scopes, envs, file);
      assert outs == [o] + rest;
      forall i | 1 <= i < |outs| ensures outs[i].tokenFile == file && outs[i].effects == NoEffects {
        assert outs[i] == rest[i - 1];
      }
    }
  }

  /**
   * The call at app/auth.py:59-60 passes `scopes` as a second positional
   * argument to `from_service_account_info(info, **kwargs)`, which raises
   * `TypeError` for every configuration: `configLoads` is false. The
   * environment variable then has no effect at all, and no credential ever
   * comes from it. `Resolve`, with `configLoads` free, is the cascade with
   * the call corrected to `scopes=scopes`.
   */
  lemma EmbeddedConfigIgnored(scopes: seq<string>, env: AuthEnv, file: Option<TokenRecord>)
    requires !env.configLoads
    ensures Resolve(scopes, env, file) == Resolve(scopes, env.(credentialsConfig := None), file)
    ensures Resolve(scopes, env, file).creds.Some? ==>
      Resolve(scopes, env, file).creds.value.source != EmbeddedConfig
  {
  }

  /**
   * A credential obtained by the interactive flow and saved is reused by
   * the next call: the user signs in once.
   */
  lemma AuthorizedOnceThenCached(scopes: seq<string>, env: AuthEnv, file: Option<TokenRecord>)
    requires FlowCase(env, file) && env.credentialsFileExists && env.flowBuilds
    requires env.flow.Some? && env.flow.value.valid && env.flow.value.hasRefreshToken && env.save.Saved?
    ensures var outs := Serve(scopes, [env, env], file);
      outs[0].effects.flowStarted && outs[1].effects == NoEffects &&
      outs[1].creds == Some(Credential(CachedUserToken, scopes, env.flow))
  {
  }

  /**
   * A sign-in that returns no refresh token is saved in a form the loader
   * rejects, so the next call cannot use it and signs in again, even
   * though the credential was valid and the write completed.
   */
  lemma SignInWithoutRefreshTokenRepeats(scopes: seq<string>, env: AuthEnv, file: Option<TokenRecord>)
    requires FlowCase(env, file) && env.credentialsFileExists && env.flowBuilds
    requires env.flow.Some? && !env.flow.value.hasRefreshToken && env.save.Saved?
    ensures var outs := Serve(scopes, [env, env], file);
      outs[0].effects.flowStarted && outs[0].effects.tokenWritten &&
      outs[0].creds == Some(Credential(InteractiveFlow, scopes, env.flow)) &&
      outs[1].effects.flowStarted
  {
  }

  /**
   * A save that truncates the token file and then fails destroys the
   * cache: the next call cannot load it and must sign in again.
   */
  lemma FailedWriteForcesSignIn(scopes: seq<string>, env: AuthEnv, file: Option<TokenRecord>)
    requires FlowCase(env, file) && env.credentialsFileExists && env.flowBuilds
    requires env.flow.Some? && env.save.WriteFailed?
    ensures var outs := Serve(scopes, [env, env], file);
      outs[0].creds.Some? && outs[1].effects.flowStarted
  {
  }
}
