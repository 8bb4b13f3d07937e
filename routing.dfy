/**
 * `plugins/Routing.kt`: the responses a handler writes, and the API-key check
 * that guards the upload and mod-folder routes.
 */
module Routing {
  import opened Common

  /** What a handler sends back: `respondText(body, Text.Plain, status)` or `respondFile`. */
  datatype Response = Text(status: nat, body: string) | FileBody(content: seq<int8>)

  /** Outcome of `handleAuthorization`: go on, or stop after writing `response`. */
  datatype AuthResult = Granted | Denied(response: Response)

  /**
   * `handleAuthorization(call)` for the `X-API-Key` header value `key` (`None`
   * when the header is absent): access is granted exactly when the key is the
   * configured one; a refusal answers 400 "API Key invalid".
   */
  function HandleAuthorization(key: Option<string>, apiKey: string): (r: AuthResult)
    ensures r.Granted? <==> key == Some(apiKey)
    ensures r.Denied? ==> r.response == Text(400, "API Key invalid")
  {
    if key.None? || key.value != apiKey then Denied(Text(400, "API Key invalid"))
    else Granted
  }
}
