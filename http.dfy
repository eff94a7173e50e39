/** The response codes the handlers answer with, and the truthiness tests they apply to request values. */
module Http {
  import opened Wrappers
  import opened Schema
  import UserModel
  import PetitionModel

  /** A handler's answer: the status code and the tables afterwards. */
  datatype Outcome = Outcome(status: int, after: State)

  const Ok := 200
  const Created := 201
  const BadRequest := 400
  const Unauthorized := 401
  const Forbidden := 403
  const NotFound := 404
  const InternalServerError := 500
  const NotImplemented := 501

  /** An image answer: the status and, with a 200, the `Content-Type` the file is served with. */
  datatype ImageAnswer = ImageAnswer(status: int, contentType: Option<string>)

  /** The handlers still to be written: 501, nothing read or written. */
  function NotImplementedResponse(s: State): (o: Outcome)
    ensures o.status == NotImplemented && o.after == s
  {
    Outcome(NotImplemented, s)
  }

  /** JavaScript truthiness of an optional string: `undefined`, `null` and `""` are falsy. */
  predicate Truthy(s: Option<string>) {
    s.Some? && s.value != ""
  }

  /** The user an `X-Authorization` header identifies: none when the header is falsy or no user holds the token. */
  function Authenticate(users: seq<User>, token: Option<string>): (u: Option<User>)
    ensures u.Some? <==> Truthy(token) && exists x :: x in users && x.authToken == token
    ensures u.Some? ==> u.value in users && u.value.authToken == token
  {
    if !Truthy(token) then None else UserModel.GetByToken(users, token.value)
  }

  /** The token identifies a user who owns the petition with this id. */
  predicate SentByOwner(s: State, petitionId: int, token: Option<string>) {
    && Authenticate(s.users, token).Some?
    && PetitionModel.IsOwner(s.petitions, petitionId, Authenticate(s.users, token).value.id)
  }
}
