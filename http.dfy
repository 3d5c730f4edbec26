/**
 * What a route handler sees of its request and returns as its response.
 */
module Http {
  import opened Wrappers
  import opened Types

  /** The authenticated caller, as the authorization layer hands it over. */
  datatype Caller = Caller(id: string, role: Role)

  /** The identifier the database assigns to an inserted row and the clock reading at that moment. */
  datatype Env = Env(id: string, now: nat)

  /** A JSON response: a success body or an `{ error }` body, with its HTTP status. */
  datatype Reply<+T> = Ok(status: int, value: T) | Fail(status: int, error: string)

  const InternalError := "Internal server error"

  /** A request string field is truthy: present and not empty. */
  predicate Present(s: Option<string>) {
    s.Some? && s.value != ""
  }

  /** `field || null`: a falsy optional field is stored as null. */
  function OrNull(s: Option<string>): (r: Option<string>)
    ensures r.None? <==> !Present(s)
    ensures r.Some? ==> r == s
  {
    if Present(s) then s else None
  }
}
