/**
 * The user credential as the Google client library exposes it, and the
 * token file (`token.json`) that caches it between runs.
 *
 * Apart from the token file's round trip (`AfterSave`), the library's
 * behaviour is not modelled: whether a credential is valid, expired or
 * carries a refresh token is read off the stored record, and every other
 * library call that produces a credential is an oracle outcome supplied by
 * the caller.
 */
module Credentials {
  import opened Wrappers

  /** A user-delegated OAuth credential (`google.oauth2.credentials.Credentials`). */
  datatype UserToken = UserToken(
    token: Option<string>,    // the access token, `creds.token`
    valid: bool,              // `creds.valid`
    expired: bool,            // `creds.expired`
    hasRefreshToken: bool)    // `creds.refresh_token` is set

  /** What the token file holds: a loadable credential, or content that fails to load. */
  datatype TokenRecord = Corrupt | Stored(user: UserToken)

  /**
   * How writing the token file ends. `open(path, "w")` may fail before
   * anything changes; once it succeeded the file is already truncated, so a
   * failure of the write itself leaves an unreadable file behind.
   */
  datatype SaveOutcome = Saved | OpenFailed | WriteFailed

  /** Reading the token file: an absent or corrupt file yields no credential. */
  function Parse(file: Option<TokenRecord>): (t: Option<UserToken>)
    ensures t.Some? <==> file.Some? && file.value.Stored?
    ensures t.Some? ==> file == Some(Stored(t.value))
  {
    match file
    case Some(Stored(u)) => Some(u)
    case _ => None
  }

  /**
   * The token file after an attempt to write `creds.to_json()` to it.
   * `to_json` leaves out a refresh token that is None, and the loader
   * (`from_authorized_user_info`) rejects a record without the
   * `refresh_token` key: a credential saved without one does not load back.
   */
  function AfterSave(file: Option<TokenRecord>, t: UserToken, outcome: SaveOutcome): (f: Option<TokenRecord>)
    ensures outcome.Saved? && t.hasRefreshToken ==> Parse(f) == Some(t)
    ensures outcome.Saved? && !t.hasRefreshToken ==> f.Some? && Parse(f).None?
    ensures outcome.OpenFailed? ==> f == file
    ensures outcome.WriteFailed? ==> f.Some? && Parse(f).None?
  {
    match outcome
    case Saved => if t.hasRefreshToken then Some(Stored(t)) else Some(Corrupt)
    case OpenFailed => file
    case WriteFailed => Some(Corrupt)
  }

  /** The token file on disk; `record` is None when the file does not exist. */
  class TokenFile {
    var record: Option<TokenRecord>

    constructor (initial: Option<TokenRecord>)
      ensures record == initial
    {
      record := initial;
    }

    /** `os.path.exists(path)`. */
    method Exists() returns (b: bool)
      ensures b <==> record.Some?
    {
      b := record.Some?;
    }

    /** Opening and parsing the file; None when it is absent or fails to load. */
    method Load() returns (t: Option<UserToken>)
      ensures t == Parse(record)
    {
      t := Parse(record);
    }

    /** Writing `t` to the file; `ok` is false when the write raised. */
    method Save(t: UserToken, outcome: SaveOutcome) returns (ok: bool)
      modifies this
      ensures record == AfterSave(old(record), t, outcome)
      ensures ok <==> outcome.Saved?
    {
      record := AfterSave(record, t, outcome);
      ok := outcome.Saved?;
    }

    /** `os.remove(path)`. */
    method Remove()
      modifies this
      ensures record.None?
    {
      record := None;
    }
  }
}
