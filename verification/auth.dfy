/** `signin_decorator` of core/utils.py: decode the `Authorization` header, look the user up
    by the decoded `id`, and only then run the wrapped view with that user as
    `request.user`. The signature check of the token library is a parameter. */
module Auth {
  import opened Common
  import opened Tables
  import opened Models

  /** What `jwt.decode(token, SECRET_KEY, ALGORITHM)` does with one token: return its
      claims, raise `DecodeError` (a malformed token or a bad signature), or raise another
      token error, such as an expired signature, that the guard does not catch. */
  datatype Decoded =
    | Claims(claims: map<string, int>)
    | DecodeError
    | OtherJwtError(name: string)

  datatype Auth = Authenticated(user: User) | Refused(response: Response)

  const InvalidToken: Response := Reply(400, "INVALID_TOKEN")
  const InvalidUser: Response := Reply(400, "INVALID_USER")

  /** The header is absent when `headers.get` returns None; the token library refuses a
      non-string token with `DecodeError`. */
  function DecodeHeader(header: Option<string>, decode: string -> Decoded): Decoded {
    if header.None? then DecodeError else decode(header.value)
  }

  /** The user id the request claims: the `id` of a token that decodes. */
  function ClaimedId(header: Option<string>, decode: string -> Decoded): Option<int> {
    var d := DecodeHeader(header, decode);
    if d.Claims? && "id" in d.claims then Some(d.claims["id"]) else None
  }

  function IdIs(id: int): User -> bool {
    (u: User) => u.id == id
  }

  /** The decision part of the guard. */
  function Authenticate(db: Db, header: Option<string>, decode: string -> Decoded): (r: Auth)
    ensures r.Authenticated? ==>
              && ClaimedId(header, decode).Some?
              && r.user in db.users
              && r.user.id == ClaimedId(header, decode).value
    ensures DecodeHeader(header, decode).DecodeError? ==> r == Refused(InvalidToken)
    ensures ClaimedId(header, decode).Some? && !HasUser(db, ClaimedId(header, decode).value) ==>
              r == Refused(InvalidUser)
    ensures Valid(db) && ClaimedId(header, decode).Some? && HasUser(db, ClaimedId(header, decode).value) ==>
              r.Authenticated?
  {
    match DecodeHeader(header, decode)
    case DecodeError => Refused(InvalidToken)
    case OtherJwtError(name) => Refused(Uncaught(name))
    case Claims(claims) =>
      if "id" !in claims then Refused(Uncaught("KeyError"))
      else
        var found := Get(db.users, IdIs(claims["id"]));
        match found
        case Found(u) => Authenticated(u)
        case DoesNotExist => Refused(InvalidUser)
        case MultipleObjectsReturned => Refused(Uncaught("MultipleObjectsReturned"))
  }

  /** A view behind the guard: `view(db, user)` is what the wrapped method does once
      `request.user` is set. */
  function Guard(db: Db, header: Option<string>, decode: string -> Decoded,
                 view: (Db, User) -> (Db, Response)): (Db, Response)
  {
    match Authenticate(db, header, decode)
    case Authenticated(u) => view(db, u)
    case Refused(response) => (db, response)
  }

  /** The view runs only for a token that decodes to the id of a user: otherwise the
      outcome does not depend on the view at all and the store is unchanged. A token that
      fails to decode is refused before any user is looked up, whatever the store holds. */
  lemma GuardRefuses(db: Db, other: Db, header: Option<string>, decode: string -> Decoded,
                     view: (Db, User) -> (Db, Response), view': (Db, User) -> (Db, Response))
    requires ClaimedId(header, decode).None? || !HasUser(db, ClaimedId(header, decode).value)
    ensures Guard(db, header, decode, view) == Guard(db, header, decode, view')
    ensures Guard(db, header, decode, view).0 == db
    ensures Guard(db, header, decode, view).1.Status() != 200
    ensures DecodeHeader(header, decode).DecodeError? ==>
              Guard(db, header, decode, view).1 == InvalidToken
              && Guard(other, header, decode, view).1 == InvalidToken
    ensures ClaimedId(header, decode).Some? ==> Guard(db, header, decode, view).1 == InvalidUser
  {
  }

  /** A token naming the id of a user of a consistent store authenticates exactly that user. */
  lemma AuthenticatesUser(db: Db, header: Option<string>, decode: string -> Decoded, k: nat)
    requires Valid(db) && k < |db.users|
    requires ClaimedId(header, decode) == Some(db.users[k].id as int)
    ensures Authenticate(db, header, decode) == Authenticated(db.users[k])
  {
    var id := db.users[k].id;
    forall i, j | 0 <= i < j < |db.users|
      ensures !(IdIs(id)(db.users[i]) && IdIs(id)(db.users[j]))
    {
      assert UserId(db.users[i]) != UserId(db.users[j]);
    }
    GetUnique(db.users, IdIs(id), k);
  }

  /** For a token naming the id of a user, the view runs with exactly that user. */
  lemma GuardRuns(db: Db, header: Option<string>, decode: string -> Decoded,
                  view: (Db, User) -> (Db, Response), k: nat)
    requires Valid(db) && k < |db.users|
    requires ClaimedId(header, decode) == Some(db.users[k].id as int)
    ensures Guard(db, header, decode, view) == view(db, db.users[k])
  {
    AuthenticatesUser(db, header, decode, k);
  }
}
