/**
 * The origin callback handed to the CORS middleware in app.js: a fixed allowlist
 * of four origins, plus requests that carry no (or an empty) Origin header.
 */
module Cors {
  import opened Wrappers

  /** The allowlist, in the order app.js declares it. */
  const AcceptedOrigins: seq<string> := [
    "http://localhost:8080",
    "http://localhost:1234",
    "http://localhost:60949",
    "http://movies.com"
  ]

  /** The message of the error handed to the middleware for a refused origin. */
  const NotAllowedMessage: string := "Not allowed by CORS"

  /** What the callback reports to the middleware. */
  datatype Decision = Allow | Deny(message: string)

  /** JavaScript falsiness of the header value: `undefined` or the empty string. */
  predicate IsFalsy(origin: Option<string>): (b: bool)
    ensures b <==> origin == None || origin == Some("")
    ensures !b ==> |origin.value| > 0
  {
    origin.None? || origin.value == ""
  }

  /**
   * The callback: the allowlist is consulted first, then a falsy origin is let
   * through, and anything else is refused with an error.
   */
  function CheckOrigin(origin: Option<string>): (d: Decision)
    ensures d.Allow? <==>
              origin == None || origin == Some("") ||
              origin == Some("http://localhost:8080") ||
              origin == Some("http://localhost:1234") ||
              origin == Some("http://localhost:60949") ||
              origin == Some("http://movies.com")
    ensures d.Deny? ==> d.message == "Not allowed by CORS"
  {
    if origin.Some? && origin.value in AcceptedOrigins then Allow
    else if IsFalsy(origin) then Allow
    else Deny(NotAllowedMessage)
  }

  /**
   * Matching is exact: extending an allowed origin by anything (a path, a port,
   * a longer host name) gives an origin that is refused.
   */
  lemma {:induction false} NoExtensionOfAllowedOrigin(allowed: string, suffix: string)
    requires allowed in AcceptedOrigins
    requires suffix != ""
    ensures CheckOrigin(Some(allowed + suffix)).Deny?
  {
    var s := allowed + suffix;
    // the allowlist entries already differ at index 7 or 17, so none extends another
    assert s[7] == allowed[7];
    assert |allowed| > 17 ==> s[17] == allowed[17];
    assert s !in AcceptedOrigins;
  }

  /**
   * Nor is a truncated allowed origin accepted: no non-empty proper prefix of an
   * allowlisted origin (a scheme and host without the port, say) is let through.
   */
  lemma {:induction false} NoProperPrefixOfAllowedOrigin(allowed: string, prefix: string)
    requires allowed in AcceptedOrigins
    requires prefix != "" && |prefix| < |allowed| && prefix == allowed[..|prefix|]
    ensures CheckOrigin(Some(prefix)).Deny?
  {
    // the allowlist entries already differ at index 7 or 17, so none is a prefix of another
    assert |prefix| > 7 ==> prefix[7] == allowed[7];
    assert |prefix| > 17 ==> prefix[17] == allowed[17];
    assert prefix !in AcceptedOrigins;
  }
}
