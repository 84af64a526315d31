/** The values exchanged with the authentication service (package `models`). */
module Models {

  /** An access rule for one HTTP method and one URI; `uri` is a literal path or a regular expression. */
  datatype Policy = Policy(
    uri: string,
    httpMethod: string,  // `method` in the source; a keyword in Dafny
    isPublic: bool,
    roles: seq<string>,
    permissions: seq<string>)

  /** The answer of token introspection: session state, session id, subject and its authorities. */
  datatype Introspect = Introspect(
    active: bool,
    sid: string,
    sub: string,
    roles: seq<string>,
    permissions: seq<string>)

  /** An API client with its ordered policy list; the first matching policy wins. */
  datatype Client = Client(policies: seq<Policy>)
}
