/** Handling of the `BINSTAR_TOKEN` environment variable. */
module Token {
  import opened Wrappers
  import opened Text

  /** The marker an unresolved Azure pipeline secret starts with, as in `$(secret-name)`. */
  const Placeholder: string := "$("

  /** The token after the placeholder check: a present, non-empty value that
      starts with the placeholder marker is dropped; anything else, the empty
      string included, is kept. */
  function Sanitise(env: Option<string>): (token: Option<string>)
    ensures token.None? <==> env.None? || StartsWith(env.value, Placeholder)
    ensures token.Some? ==> token == env
  {
    if env.Some? && env.value != [] && StartsWith(env.value, Placeholder) then None else env
  }

  /** The credential the run uploads with, or `None` for the check-only run:
      the sanitised token is used only when it is truthy, so the empty string
      counts as no token as well. */
  function UploadToken(env: Option<string>): (token: Option<string>)
    ensures token.None? <==> env.None? || env.value == [] || StartsWith(env.value, Placeholder)
    ensures token.Some? ==> token == env && token.value != []
  {
    var t := Sanitise(env);
    if t.Some? && t.value != [] then t else None
  }
}
