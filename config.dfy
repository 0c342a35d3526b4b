/** `verificar_configuracion`: the start-up check of the required environment variables. */
module Config {
  import opened Wrappers

  /** The variables that must be set, in the order they are checked. */
  const REQUIRED: seq<string> := ["HIBP_API_KEY", "SMTP2GO_EMAIL", "SMTP2GO_USERNAME", "SMTP2GO_PASSWORD", "SENDER_EMAIL"]

  /** `os.getenv(name)` is truthy: present and not the empty string. */
  predicate IsSet(env: map<string, string>, name: string) {
    name in env && env[name] != ""
  }

  /**
   * The check: `ok` exactly when every required variable is set; otherwise `missing`
   * is the index in `REQUIRED` of the first unset one, the one reported.
   */
  method CheckConfiguration(env: map<string, string>) returns (ok: bool, missing: Option<nat>)
    ensures ok <==> forall i :: 0 <= i < |REQUIRED| ==> IsSet(env, REQUIRED[i])
    ensures ok <==> missing.None?
    ensures missing.Some? ==> missing.value < |REQUIRED| && !IsSet(env, REQUIRED[missing.value])
                              && forall i :: 0 <= i < missing.value ==> IsSet(env, REQUIRED[i])
  {
    for i := 0 to |REQUIRED|
      invariant forall k :: 0 <= k < i ==> IsSet(env, REQUIRED[k])
    {
      if !IsSet(env, REQUIRED[i]) {
        return false, Some(i);
      }
    }
    return true, None;
  }
}
