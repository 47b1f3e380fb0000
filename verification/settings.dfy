/** Configuration read from the environment: the defaults for the status
    emoji and the clear-when-idle flag, and the start-up validation of the
    three required credentials. */
module Settings {
  import opened Options

  /** The environment variables the program reads; `None` is an unset variable. */
  datatype Env = Env(
    lastfmApiKey: Option<string>,
    lastfmUsername: Option<string>,
    slackUserToken: Option<string>,
    statusEmoji: Option<string>,
    clearWhenNotPlaying: Option<string>)

  /** The part of the configuration the sync loop consults. */
  datatype Config = Config(statusEmoji: string, clearWhenNotPlaying: bool)

  const DefaultEmoji := ":musical_note:"
  const ApiKeyName := "LASTFM_API_KEY"
  const UsernameName := "LASTFM_USERNAME"
  const TokenName := "SLACK_USER_TOKEN"

  /** The required names, in the order validation reports them. */
  const RequiredNames := [ApiKeyName, UsernameName, TokenName]

  /** A set, non-empty variable; an empty string is as good as unset. */
  predicate Present(v: Option<string>) {
    v.Some? && v.value != ""
  }

  /** Builds the configuration: an unset or empty emoji falls back to the
      musical note, and clearing is on unless the flag is exactly "false". */
  function FromEnv(env: Env): (c: Config)
    ensures c.statusEmoji != ""
    ensures Present(env.statusEmoji) ==> c.statusEmoji == env.statusEmoji.value
    ensures !Present(env.statusEmoji) ==> c.statusEmoji == DefaultEmoji
    ensures !c.clearWhenNotPlaying <==> env.clearWhenNotPlaying == Some("false")
  {
    Config(if Present(env.statusEmoji) then env.statusEmoji.value else DefaultEmoji,
           env.clearWhenNotPlaying != Some("false"))
  }

  /** Position of a required name in the report order. */
  function Rank(name: string): nat {
    if name == ApiKeyName then 0 else if name == UsernameName then 1 else 2
  }

  /** The names of the required variables that are unset or empty, in
      declaration order. */
  function MissingNames(env: Env): (r: seq<string>)
    ensures ApiKeyName in r <==> !Present(env.lastfmApiKey)
    ensures UsernameName in r <==> !Present(env.lastfmUsername)
    ensures TokenName in r <==> !Present(env.slackUserToken)
    ensures forall i :: 0 <= i < |r| ==> r[i] in RequiredNames
    ensures forall i, j :: 0 <= i < j < |r| ==> Rank(r[i]) < Rank(r[j])
  {
    (if Present(env.lastfmApiKey) then [] else [ApiKeyName])
    + (if Present(env.lastfmUsername) then [] else [UsernameName])
    + (if Present(env.slackUserToken) then [] else [TokenName])
  }

  const MissingConfigExitCode := 1

  /** Start-up validation: the configuration when all credentials are
      present, otherwise the exit code together with the missing names. */
  function Validate(env: Env): (r: Result<Config, (int, seq<string>)>)
    ensures r.Ok? <==> Present(env.lastfmApiKey) && Present(env.lastfmUsername) && Present(env.slackUserToken)
    ensures r.Ok? ==> r.value == FromEnv(env)
    ensures r.Err? ==> r.error.0 == MissingConfigExitCode && |r.error.1| > 0 && r.error.1 == MissingNames(env)
  {
    var missing := MissingNames(env);
    if |missing| > 0 then Err((MissingConfigExitCode, missing)) else Ok(FromEnv(env))
  }
}
