/** Option and Result, used for the source's `null` returns and thrown errors. */
module Wrappers {

  datatype Option<+T> = None | Some(value: T)

  datatype Result<+T, +E> = Success(value: T) | Failure(error: E)

  /** The first position of `s` whose element satisfies `p`: the document a
      single-document query returns, taken as the earliest match. */
  function FindFirst<T>(s: seq<T>, p: T -> bool): (r: Option<nat>)
    ensures r.Some? ==> r.value < |s| && p(s[r.value])
    ensures r.Some? ==> forall i :: 0 <= i < r.value ==> !p(s[i])
    ensures r.None? ==> forall i :: 0 <= i < |s| ==> !p(s[i])
  {
    if s == [] then None
    else if p(s[0]) then Some(0)
    else match FindFirst(s[1..], p)
      case Some(k) => Some(k + 1)
      case None => None
  }
}

/** The errors the authentication layer throws, one constructor per message. */
module Errors {

  datatype AuthError =
    | ValidationError        // a schema `required` validator or a registration payload check failed
    | DuplicateKey           // a `unique` index rejected the write (E11000 duplicate key error)
    | UserAlreadyExists      // "User already exists"
    | InvalidCredentials     // "Invalid credentials"
    | HashArgumentsRequired  // bcrypt was given no stored hash: "data and hash arguments required"
    | JwtSecretNotSet        // "JWT_SECRET is not set"
    | UserNotFound           // "User not found"
    | SessionNotFound        // "Session not found"
    | NoEmailFound           // "No email found"
    | EmailAlreadyExists     // "Email already exists"
    | NoGoogleClientId       // "At least one Google Client ID must be set"
    | ProfileEmailsEmpty     // the first element of an empty email list was read
}
