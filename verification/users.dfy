/** The account views of users/views.py: sign-up, profile completion behind the guard, and
    the find-or-create of a Kakao login. Each view is a transition from the store and the
    decoded request to the new store and the response; password hashing and token
    signing are parameters. */
module UserViews {
  import opened Common
  import opened Tables
  import opened Models
  import opened Validators
  import opened Auth

  /** `f'{e}'` of a `ValidationError` is the repr of its message list. */
  function ValidationMessage(code: string): string {
    "['" + code + "']"
  }

  function Invalid(v: Verdict): Response
    requires v.Reject?
  {
    Reply(400, ValidationMessage(v.code))
  }

  function EmailIs(email: string): User -> bool {
    (u: User) => u.email == email
  }

  function PhoneIs(phone: string): User -> bool {
    (u: User) => u.phoneNumber == Some(phone)
  }

  function KakaoIdIs(kakaoId: int): User -> bool {
    (u: User) => u.kakaoId == Some(kakaoId)
  }

  // Sign-up.

  /** The five keys sign-up reads; a missing one raises `KeyError`. */
  predicate SignUpFieldsPresent(body: map<string, string>) {
    && "first_name" in body && "last_name" in body && "email" in body
    && "password" in body && "phone_number" in body
  }

  /** The five validators in the order the view calls them. */
  function SignUpVerdict(body: map<string, string>): Verdict
    requires SignUpFieldsPresent(body)
  {
    Then(CheckFirstName(body["first_name"]),
    Then(CheckLastName(body["last_name"]),
    Then(CheckEmail(body["email"]),
    Then(CheckPassword(body["password"]),
         CheckPhoneNumber(body["phone_number"])))))
  }

  /** The row `User.objects.create` inserts; the password column holds the hash. */
  function SignedUpUser(id: nat, body: map<string, string>, hashpw: string -> string): User
    requires SignUpFieldsPresent(body)
  {
    User(id, Some(body["first_name"]), Some(body["last_name"]), body["email"],
         Some(hashpw(body["password"])), None, None, Some(body["phone_number"]), None, DefaultPoint)
  }

  /** The rows the two views insert leave every column they do not set at the model's
      default: the sign-up row is a created user with the four submitted columns, and a
      Kakao user has no name, password, phone or birth day. Both start with 100000.00 points. */
  lemma NewRowsTakeDefaults(id: nat, body: map<string, string>, hashpw: string -> string, p: KakaoProfile)
    requires SignUpFieldsPresent(body)
    ensures SignedUpUser(id, body, hashpw)
            == CreatedUser(id, body["email"]).(firstName := Some(body["first_name"]),
                                               lastName := Some(body["last_name"]),
                                               password := Some(hashpw(body["password"])),
                                               phoneNumber := Some(body["phone_number"]))
    ensures var u := KakaoUser(id, p);
            && u.id == id && u.email == p.email && u.kakaoId == Some(p.id)
            && u.kakaoProfileImg == Some(p.profileImageUrl)
            && u.firstName.None? && u.lastName.None? && u.password.None?
            && u.phoneNumber.None? && u.birthDay.None? && u.point == DefaultPoint
  {
  }

  /** `SignUpView.post`. `hashpw` is bcrypt with the salt of this call. */
  function SignUp(db: Db, body: map<string, string>, hashpw: string -> string): (r: (Db, Response))
    ensures r.1.Status() != 201 ==> r.0 == db
    ensures r.1.Status() == 201 <==>
              && SignUpFieldsPresent(body)
              && SignUpVerdict(body) == Accept
              && !Any(db.users, EmailIs(body["email"]))
              && !Any(db.users, PhoneIs(body["phone_number"]))
    ensures r.1.Status() == 201 ==>
              && r.0 == InsertUser(db, SignedUpUser(db.nextId, body, hashpw))
              && r.1 == Reply(201, "USER_CREATED")
    ensures !SignUpFieldsPresent(body) ==> r.1 == KeyErrorReply
  {
    if !SignUpFieldsPresent(body) then (db, KeyErrorReply)
    else
      var verdict := SignUpVerdict(body);
      if verdict.Reject? then (db, Invalid(verdict))
      else if Any(db.users, EmailIs(body["email"])) then (db, Reply(409, "EMAIL_ALREADY_EXIST"))
      else if Any(db.users, PhoneIs(body["phone_number"])) then (db, Reply(409, "PHONE_ALREADY_EXIST"))
      else (InsertUser(db, SignedUpUser(db.nextId, body, hashpw)), Reply(201, "USER_CREATED"))
  }

  /** The validators run in declaration order and the first failure wins. */
  lemma SignUpVerdictOrder(body: map<string, string>)
    requires SignUpFieldsPresent(body)
    ensures CheckFirstName(body["first_name"]).Reject? ==>
              SignUpVerdict(body) == Reject(FirstNameCode)
    ensures CheckFirstName(body["first_name"]).Accept? && CheckLastName(body["last_name"]).Reject? ==>
              SignUpVerdict(body) == Reject(LastNameCode)
    ensures CheckFirstName(body["first_name"]).Accept? && CheckLastName(body["last_name"]).Accept?
            && CheckEmail(body["email"]).Reject? ==>
              SignUpVerdict(body) == Reject(EmailCode)
    ensures CheckFirstName(body["first_name"]).Accept? && CheckLastName(body["last_name"]).Accept?
            && CheckEmail(body["email"]).Accept? && CheckPassword(body["password"]).Reject? ==>
              SignUpVerdict(body) == Reject(PasswordCode)
    ensures SignUpVerdict(body) == Accept <==>
              && CheckFirstName(body["first_name"]).Accept? && CheckLastName(body["last_name"]).Accept?
              && CheckEmail(body["email"]).Accept? && CheckPassword(body["password"]).Accept?
              && CheckPhoneNumber(body["phone_number"]).Accept?
  {
  }

  /** A failing validator is reported as the repr of its code, with status 400, before
      any uniqueness check. */
  lemma SignUpInvalid(db: Db, body: map<string, string>, hashpw: string -> string)
    requires SignUpFieldsPresent(body) && SignUpVerdict(body).Reject?
    ensures SignUp(db, body, hashpw) == (db, Reply(400, "['" + SignUpVerdict(body).code + "']"))
  {
  }

  /** The e-mail conflict is reported before the phone conflict. */
  lemma SignUpConflicts(db: Db, body: map<string, string>, hashpw: string -> string)
    requires SignUpFieldsPresent(body) && SignUpVerdict(body) == Accept
    ensures (exists i | 0 <= i < |db.users| :: db.users[i].email == body["email"]) ==>
              SignUp(db, body, hashpw) == (db, Reply(409, "EMAIL_ALREADY_EXIST"))
    ensures (forall i | 0 <= i < |db.users| :: db.users[i].email != body["email"])
            && (exists i | 0 <= i < |db.users| :: db.users[i].phoneNumber == Some(body["phone_number"])) ==>
              SignUp(db, body, hashpw) == (db, Reply(409, "PHONE_ALREADY_EXIST"))
  {
    if exists i | 0 <= i < |db.users| :: db.users[i].email == body["email"] {
      var i :| 0 <= i < |db.users| && db.users[i].email == body["email"];
      assert EmailIs(body["email"])(db.users[i]);
    } else if exists i | 0 <= i < |db.users| :: db.users[i].phoneNumber == Some(body["phone_number"]) {
      var i :| 0 <= i < |db.users| && db.users[i].phoneNumber == Some(body["phone_number"]);
      assert PhoneIs(body["phone_number"])(db.users[i]);
    }
  }

  /** A successful sign-up adds exactly one user, with the submitted name, e-mail and phone,
      the hash of the password (never the password itself when the hash differs from it),
      no Kakao identity and the default point balance. */
  lemma SignUpCreatesOneUser(db: Db, body: map<string, string>, hashpw: string -> string)
    requires SignUp(db, body, hashpw).1.Status() == 201
    ensures var db' := SignUp(db, body, hashpw).0;
            && |db'.users| == |db.users| + 1
            && db'.users[..|db.users|] == db.users
            && var u := db'.users[|db.users|];
            && u.firstName == Some(body["first_name"]) && u.lastName == Some(body["last_name"])
            && u.email == body["email"] && u.phoneNumber == Some(body["phone_number"])
            && u.password == Some(hashpw(body["password"]))
            && (hashpw(body["password"]) != body["password"] ==> u.password != Some(body["password"]))
            && u.kakaoId.None? && u.point == DefaultPoint
            && db' == db.(users := db'.users, nextId := db.nextId + 1)
  {
    var db' := SignUp(db, body, hashpw).0;
    assert db'.users[..|db.users|] == db.users;
  }

  /** Sign-up keeps the schema's constraints, and no two users end up sharing a phone. */
  lemma SignUpKeepsInvariants(db: Db, body: map<string, string>, hashpw: string -> string)
    requires Valid(db)
    ensures Valid(SignUp(db, body, hashpw).0)
    ensures PhonesUnique(db.users) ==> PhonesUnique(SignUp(db, body, hashpw).0.users)
  {
    var r := SignUp(db, body, hashpw);
    if r.1.Status() == 201 {
      var u := SignedUpUser(db.nextId, body, hashpw);
      forall i | 0 <= i < |db.users|
        ensures db.users[i].email != u.email && db.users[i].phoneNumber != u.phoneNumber
      {
        assert !EmailIs(body["email"])(db.users[i]);
        assert !PhoneIs(body["phone_number"])(db.users[i]);
      }
      InsertUserValid(db, u);
    }
  }

  // Profile completion.

  /** The four keys profile completion reads. */
  predicate InfoFieldsPresent(body: map<string, string>) {
    "first_name" in body && "last_name" in body && "phone_number" in body && "birth_day" in body
  }

  /** Three validators in order; `birth_day` is not checked. */
  function InfoVerdict(body: map<string, string>): Verdict
    requires InfoFieldsPresent(body)
  {
    Then(CheckFirstName(body["first_name"]),
    Then(CheckLastName(body["last_name"]),
         CheckPhoneNumber(body["phone_number"])))
  }

  function CompletedProfile(u: User, body: map<string, string>): User
    requires InfoFieldsPresent(body)
  {
    u.(firstName := Some(body["first_name"]), lastName := Some(body["last_name"]),
       phoneNumber := Some(body["phone_number"]), birthDay := Some(body["birth_day"]))
  }

  /** `UserAdditionalInfoView.patch` once the guard has set `request.user`. */
  function AdditionalInfoAs(db: Db, user: User, body: map<string, string>): (r: (Db, Response))
    ensures r.1.Status() != 201 ==> r.0 == db
    ensures r.1.Status() == 201 <==>
              && InfoFieldsPresent(body)
              && InfoVerdict(body) == Accept
              && !Any(db.users, PhoneIs(body["phone_number"]))
    ensures r.1.Status() == 201 ==>
              && r.0 == db.(users := SaveUser(db.users, CompletedProfile(user, body)))
              && r.1 == Reply(201, "USER_INFO_UPDATED")
    ensures !InfoFieldsPresent(body) ==> r.1 == KeyErrorReply
    ensures InfoFieldsPresent(body) && InfoVerdict(body).Reject? ==>
              r.1 == Reply(400, ValidationMessage(InfoVerdict(body).code))
    ensures InfoFieldsPresent(body) && InfoVerdict(body) == Accept && Any(db.users, PhoneIs(body["phone_number"])) ==>
              r.1 == Reply(400, "PHONE_NUMBER_ALREADY_EXIST")
  {
    if !InfoFieldsPresent(body) then (db, KeyErrorReply)
    else
      var verdict := InfoVerdict(body);
      if verdict.Reject? then (db, Invalid(verdict))
      else if Any(db.users, PhoneIs(body["phone_number"])) then (db, Reply(400, "PHONE_NUMBER_ALREADY_EXIST"))
      else
        (db.(users := SaveUser(db.users, CompletedProfile(user, body))), Reply(201, "USER_INFO_UPDATED"))
  }

  /** The guarded endpoint. */
  function AdditionalInfo(db: Db, header: Option<string>, decode: string -> Decoded,
                          body: map<string, string>): (Db, Response)
  {
    Guard(db, header, decode, (d: Db, u: User) => AdditionalInfoAs(d, u, body))
  }

  /** The three validators run in the order the view calls them; the first failure wins. */
  lemma InfoVerdictOrder(body: map<string, string>)
    requires InfoFieldsPresent(body)
    ensures CheckFirstName(body["first_name"]).Reject? ==>
              InfoVerdict(body) == Reject(FirstNameCode)
    ensures CheckFirstName(body["first_name"]).Accept? && CheckLastName(body["last_name"]).Reject? ==>
              InfoVerdict(body) == Reject(LastNameCode)
    ensures CheckFirstName(body["first_name"]).Accept? && CheckLastName(body["last_name"]).Accept?
            && CheckPhoneNumber(body["phone_number"]).Reject? ==>
              InfoVerdict(body) == Reject(PhoneCode)
    ensures InfoVerdict(body) == Accept <==>
              && CheckFirstName(body["first_name"]).Accept? && CheckLastName(body["last_name"]).Accept?
              && CheckPhoneNumber(body["phone_number"]).Accept?
  {
  }

  /** A failing validator is reported as the repr of its code, with status 400, before
      the phone is looked up, and nothing changes. */
  lemma InfoInvalid(db: Db, user: User, body: map<string, string>)
    requires InfoFieldsPresent(body) && InfoVerdict(body).Reject?
    ensures AdditionalInfoAs(db, user, body) == (db, Reply(400, "['" + InfoVerdict(body).code + "']"))
  {
  }

  /** A phone number already on file is refused, whoever holds it: another user or the
      caller. */
  lemma PhoneOnFileRefused(db: Db, user: User, body: map<string, string>, j: nat)
    requires InfoFieldsPresent(body) && InfoVerdict(body) == Accept
    requires j < |db.users| && db.users[j].phoneNumber == Some(body["phone_number"])
    ensures AdditionalInfoAs(db, user, body) == (db, Reply(400, "PHONE_NUMBER_ALREADY_EXIST"))
  {
    assert PhoneIs(body["phone_number"])(db.users[j]);
  }

  /** The outcome does not depend on `birth_day`: any text is stored unchecked. */
  lemma BirthDayUnchecked(db: Db, user: User, body: map<string, string>, birthDay: string)
    requires InfoFieldsPresent(body)
    ensures AdditionalInfoAs(db, user, body).1 == AdditionalInfoAs(db, user, body["birth_day" := birthDay]).1
  {
    var body' := body["birth_day" := birthDay];
    assert InfoFieldsPresent(body');
    assert InfoVerdict(body) == InfoVerdict(body');
  }

  /** On success only the caller's row changes, and in it only the four submitted
      columns; every other row and table is as before. Profile completion keeps the
      constraints and the uniqueness of phone numbers. */
  lemma AdditionalInfoChangesOnlyCaller(db: Db, k: nat, body: map<string, string>)
    requires Valid(db) && k < |db.users|
    ensures var db' := AdditionalInfoAs(db, db.users[k], body).0;
            && Valid(db')
            && (PhonesUnique(db.users) ==> PhonesUnique(db'.users))
            && (AdditionalInfoAs(db, db.users[k], body).1.Status() == 201 ==>
                  && |db'.users| == |db.users|
                  && (forall i | 0 <= i < |db.users| && i != k :: db'.users[i] == db.users[i])
                  && db'.users[k] == db.users[k].(firstName := Some(body["first_name"]),
                                                   lastName := Some(body["last_name"]),
                                                   phoneNumber := Some(body["phone_number"]),
                                                   birthDay := Some(body["birth_day"]))
                  && db' == db.(users := db'.users))
  {
    var r := AdditionalInfoAs(db, db.users[k], body);
    if r.1.Status() == 201 {
      var u := CompletedProfile(db.users[k], body);
      SaveUserValid(db, k, u);
      var phone := body["phone_number"];
      forall i | 0 <= i < |db.users|
        ensures db.users[i].phoneNumber != Some(phone)
      {
        assert !PhoneIs(phone)(db.users[i]);
      }
    }
  }

  // Kakao login.

  /** The fields read from the provider's "who am I" reply. */
  datatype KakaoProfile = KakaoProfile(id: int, profileImageUrl: string, email: string)

  /** The claims of every token the views sign: exactly the user's id. */
  function TokenClaims(id: nat): map<string, int> {
    map["id" := id]
  }

  function KakaoUser(id: nat, p: KakaoProfile): User {
    CreatedUser(id, p.email).(kakaoId := Some(p.id), kakaoProfileImg := Some(p.profileImageUrl))
  }

  function SignedIn(status: int, id: nat, encode: map<string, int> -> string): Response {
    Json(status, "SUCCESS", TokenData(encode(TokenClaims(id))))
  }

  /** `KakaoOauthView.get`. `reply` is None when the provider's reply lacks one of the keys
      read (a `KeyError`); `encode` is `jwt.encode` with the server's key. An existing user
      is saved unchanged: line 36 sets a misspelled attribute, not the profile image. */
  function KakaoOauth(db: Db, reply: Option<KakaoProfile>, encode: map<string, int> -> string): (r: (Db, Response))
    ensures r.1.Status() != 201 ==> r.0 == db
    ensures r.1.Status() == 201 ==>
              && reply.Some?
              && (forall i | 0 <= i < |db.users| :: db.users[i].kakaoId != Some(reply.value.id))
              && r.0 == InsertUser(db, KakaoUser(db.nextId, reply.value))
              && r.1 == SignedIn(201, db.nextId, encode)
    ensures r.1.Status() == 200 ==>
              reply.Some? && exists i | 0 <= i < |db.users| ::
                db.users[i].kakaoId == Some(reply.value.id) && r.1 == SignedIn(200, db.users[i].id, encode)
    ensures reply.Some?
            && (forall i | 0 <= i < |db.users| :: db.users[i].kakaoId != Some(reply.value.id))
            && (forall i | 0 <= i < |db.users| :: db.users[i].email != reply.value.email) ==>
              r.1.Status() == 201
    ensures reply.Some?
            && (forall i | 0 <= i < |db.users| :: db.users[i].kakaoId != Some(reply.value.id))
            && Any(db.users, EmailIs(reply.value.email)) ==>
              r == (db, Uncaught("IntegrityError"))
    ensures reply.None? ==> r == (db, Uncaught("KeyError"))
  {
    if reply.None? then (db, Uncaught("KeyError"))
    else
      var p := reply.value;
      match Get(db.users, KakaoIdIs(p.id))
      case MultipleObjectsReturned => (db, Uncaught("MultipleObjectsReturned"))
      case Found(u) => (db, SignedIn(200, u.id, encode))
      case DoesNotExist =>
        if Any(db.users, EmailIs(p.email)) then (db, Uncaught("IntegrityError"))
        else (InsertUser(db, KakaoUser(db.nextId, p)), SignedIn(201, db.nextId, encode))
  }

  /** Kakao login keeps the constraints; a new Kakao user has no phone, so phones stay unique. */
  lemma KakaoKeepsInvariants(db: Db, reply: Option<KakaoProfile>, encode: map<string, int> -> string)
    requires Valid(db)
    ensures Valid(KakaoOauth(db, reply, encode).0)
    ensures PhonesUnique(db.users) ==> PhonesUnique(KakaoOauth(db, reply, encode).0.users)
  {
    var r := KakaoOauth(db, reply, encode);
    if r.1.Status() == 201 {
      var u := KakaoUser(db.nextId, reply.value);
      forall i | 0 <= i < |db.users|
        ensures db.users[i].email != u.email
      {
        assert !EmailIs(reply.value.email)(db.users[i]);
      }
      InsertUserValid(db, u);
    }
  }

  /** A first Kakao login, for a Kakao id and an e-mail not on file, creates one user
      carrying the profile image and e-mail and answers 201 with a token that the guard
      accepts as that user, given that decoding inverts signing. */
  lemma KakaoFirstLogin(db: Db, p: KakaoProfile, encode: map<string, int> -> string,
                        decode: string -> Decoded)
    requires Valid(db)
    requires decode(encode(TokenClaims(db.nextId))) == Claims(TokenClaims(db.nextId))
    requires forall i | 0 <= i < |db.users| :: db.users[i].kakaoId != Some(p.id) && db.users[i].email != p.email
    ensures var (db', resp) := KakaoOauth(db, Some(p), encode);
            && resp.Status() == 201
            && db'.users == db.users + [KakaoUser(db.nextId, p)]
            && resp.Json? && resp.data.TokenData?
            && Authenticate(db', Some(resp.data.token), decode) == Authenticated(KakaoUser(db.nextId, p))
  {
    var (db', resp) := KakaoOauth(db, Some(p), encode);
    KakaoKeepsInvariants(db, Some(p), encode);
    var k := |db.users|;
    assert db'.users[k] == KakaoUser(db.nextId, p);
    AuthenticatesUser(db', Some(resp.data.token), decode, k);
  }

  /** A later Kakao login changes nothing and answers 200 with a token that the guard
      accepts as the user holding that Kakao id. */
  lemma KakaoLaterLogin(db: Db, p: KakaoProfile, encode: map<string, int> -> string,
                        decode: string -> Decoded, k: nat)
    requires Valid(db) && k < |db.users| && db.users[k].kakaoId == Some(p.id)
    requires decode(encode(TokenClaims(db.users[k].id))) == Claims(TokenClaims(db.users[k].id))
    ensures var (db', resp) := KakaoOauth(db, Some(p), encode);
            && db' == db
            && resp == SignedIn(200, db.users[k].id, encode)
            && Authenticate(db, Some(resp.data.token), decode) == Authenticated(db.users[k])
  {
    forall i, j | 0 <= i < j < |db.users|
      ensures !(KakaoIdIs(p.id)(db.users[i]) && KakaoIdIs(p.id)(db.users[j]))
    {
    }
    GetUnique(db.users, KakaoIdIs(p.id), k);
    AuthenticatesUser(db, Some(encode(TokenClaims(db.users[k].id))), decode, k);
  }

  // The profile image of a returning Kakao user.

  /** As written, a returning Kakao user keeps the profile image stored at the first
      login, whatever image the provider now reports. */
  lemma KakaoImageNotRefreshed(db: Db, p: KakaoProfile, encode: map<string, int> -> string, k: nat)
    requires Valid(db) && k < |db.users| && db.users[k].kakaoId == Some(p.id)
    requires db.users[k].kakaoProfileImg != Some(p.profileImageUrl)
    ensures KakaoOauth(db, Some(p), encode).1.Status() == 200
    ensures KakaoOauth(db, Some(p), encode).0.users[k].kakaoProfileImg != Some(p.profileImageUrl)
  {
    forall i, j | 0 <= i < j < |db.users|
      ensures !(KakaoIdIs(p.id)(db.users[i]) && KakaoIdIs(p.id)(db.users[j]))
    {
    }
    GetUnique(db.users, KakaoIdIs(p.id), k);
  }

  /** `KakaoOauthView.get` with the assignment on line 36 naming the `kakao_profile_img`
      column: a returning user's row takes the image the provider now reports. */
  function KakaoOauthResync(db: Db, reply: Option<KakaoProfile>, encode: map<string, int> -> string): (r: (Db, Response))
    ensures r.1 == KakaoOauth(db, reply, encode).1
    ensures r.1.Status() != 200 ==> r.0 == KakaoOauth(db, reply, encode).0
  {
    if reply.None? then (db, Uncaught("KeyError"))
    else
      var p := reply.value;
      match Get(db.users, KakaoIdIs(p.id))
      case MultipleObjectsReturned => (db, Uncaught("MultipleObjectsReturned"))
      case Found(u) =>
        (db.(users := SaveUser(db.users, u.(kakaoProfileImg := Some(p.profileImageUrl)))), SignedIn(200, u.id, encode))
      case DoesNotExist =>
        if Any(db.users, EmailIs(p.email)) then (db, Uncaught("IntegrityError"))
        else (InsertUser(db, KakaoUser(db.nextId, p)), SignedIn(201, db.nextId, encode))
  }

  /** With the column named, a returning Kakao user's stored image is the one just
      reported, nothing else about any user changes, and the store stays consistent. */
  lemma KakaoResyncRefreshes(db: Db, p: KakaoProfile, encode: map<string, int> -> string, k: nat)
    requires Valid(db) && k < |db.users| && db.users[k].kakaoId == Some(p.id)
    ensures var (db', resp) := KakaoOauthResync(db, Some(p), encode);
            && resp == SignedIn(200, db.users[k].id, encode)
            && db' == db.(users := db'.users)
            && |db'.users| == |db.users|
            && db'.users[k] == db.users[k].(kakaoProfileImg := Some(p.profileImageUrl))
            && (forall i | 0 <= i < |db.users| && i != k :: db'.users[i] == db.users[i])
            && Valid(db')
  {
    forall i, j | 0 <= i < j < |db.users|
      ensures !(KakaoIdIs(p.id)(db.users[i]) && KakaoIdIs(p.id)(db.users[j]))
    {
    }
    GetUnique(db.users, KakaoIdIs(p.id), k);
    SaveUserValid(db, k, db.users[k].(kakaoProfileImg := Some(p.profileImageUrl)));
  }

  /** The corrected login keeps the constraints on every input. */
  lemma KakaoResyncKeepsInvariants(db: Db, reply: Option<KakaoProfile>, encode: map<string, int> -> string)
    requires Valid(db)
    ensures Valid(KakaoOauthResync(db, reply, encode).0)
  {
    var r := KakaoOauthResync(db, reply, encode);
    if r.1.Status() != 200 {
      KakaoKeepsInvariants(db, reply, encode);
    } else {
      var p := reply.value;
      var u := Get(db.users, KakaoIdIs(p.id)).row;
      var k :| 0 <= k < |db.users| && db.users[k] == u;
      KakaoResyncRefreshes(db, p, encode, k);
    }
  }
}
