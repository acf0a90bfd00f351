# Short-term rental backend: accounts, hosts and room registration

This project is a Dafny model of the request-handling core of a Django short-term-rental backend.

- **Field validators** (`check_first_name`, `check_last_name`, `check_phone_number`, `check_email`, `check_password`). Each is a predicate over `seq<char>` that either accepts or rejects with its own code. Python's `re.match` with a final `$` is modelled exactly: `$` also matches before one final newline. The `|` inside the character classes is a literal character.
- **The sign-in guard** (`signin_decorator`). It decodes the `Authorization` header, then looks up the user by the decoded `id`. The wrapped view runs only if both succeed.
- **The account views**: sign-up, profile completion behind the guard, and Kakao find-or-create with token issue.
- **The host views**: becoming a host (get-or-create keyed on the user) and registering a room. Room registration is an ordered chain of checks followed by an all-or-nothing write of the room, its facility links and its images, while the uploaded objects stay in the bucket.

How the model is built:

- **The store** is one value `Db`. Every table is the sequence of its rows in primary-key order, and one counter hands out fresh keys.
- **`objects.get`** is `Tables.Get`, which returns the row, `DoesNotExist` or `MultipleObjectsReturned`.
- **The truthiness of `objects.filter`** is `Tables.Any`.
- **A view** is a pure function from the store and the decoded request to the new store and the response.
- **An exception no handler catches** becomes `Response.Uncaught(name)`, which Django answers with status 500.
- **Parameters:** password hashing, token signing and decoding, the Kakao reply, Django's integer coercion of form ids, the generated upload names and the success of each bucket put are all parameters of the functions.
- **The bucket** is the sequence of object keys put so far.

Modules:

- `Common`: `Option`, responses, Python's `str` of a natural number.
- `Tables`: `Get` and `Any`.
- `Validators`: core/utils.py:26-44.
- `Models`: the rows, the store and its consistency predicate `Valid`.
- `Auth`: core/utils.py:10-24.
- `UserViews`: users/views.py.
- `HostViews`: hosts/views.py.

## Model

| member | source | states |
|---|---|---|
| Tables.Get | core/utils.py:15 | `objects.get` fails with DoesNotExist exactly when no row meets the condition, fails with MultipleObjectsReturned exactly when two rows do, and otherwise returns a row of the table that meets it |
| Validators.NameAccepts | core/utils.py:26-32 | a name passes iff it is a non-empty run of jamo U+3131–U+314E, syllables U+AC00–U+D7A3 and literal '\|', optionally followed by one newline; first and last name accept the same strings and each rejects only with its own code |
| Validators.NameExample | core/utils.py:27 | the '\|' in the class is literal: "\|" is accepted as a name |
| Validators.PhoneShape | core/utils.py:34-36 | the phone pattern matches exactly the strings "01" + carrier + "-" + 3 or 4 digits + "-" + 4 digits, the carrier being one of 0,1,6,7,8,9 or a literal '\|' |
| Validators.PhoneOfMatches | core/utils.py:35 | every number assembled from valid parts matches the phone pattern |
| Validators.PhoneExamples | core/utils.py:35 | "010-1234-5678" and "01\|-123-4567" pass and "010-123-45678" is rejected with CHECK_PHONE_NUMBER |
| Validators.EmailShape | core/utils.py:38-40 | the e-mail pattern matches exactly local + "@" + domain + "." + tld with a non-empty local part over letters, digits and ".+_-", a non-empty alphanumeric domain and a 2–3 letter tld |
| Validators.EmailOfMatches | core/utils.py:39 | every address assembled from valid parts matches the e-mail pattern |
| Validators.EmailExamples | core/utils.py:39 | "a@b.co" passes and "a@b.co.kr" is rejected with CHECK_EMAIL, since only one dot may follow the '@' |
| Validators.PasswordMatchesPattern | core/utils.py:42-44 | a password passes iff the pattern read as written matches it: each of the three look-aheads `(?=.*C)` finds a letter, a digit and a symbol of "$@!%*#?&" before the first newline, and a run of at least 8 such characters reaches the end of the text or a single final newline |
| Validators.PasswordExamples | core/utils.py:43 | "abcd123!" passes and "abcd1234", lacking a symbol, is rejected with CHECK_PASSWORD |
| Validators.TrailingNewline | core/utils.py:26-44 | anything a pattern matches is still accepted with one "\n" appended, although the name pattern itself does not match that string |
| Validators.TwoNewlinesRefused | core/utils.py:26-44 | only one final newline is forgiven: a name, phone number or password ending in two newlines is rejected |
| Auth.Authenticate | core/utils.py:10-24 | the guard accepts only a user of the store whose id is the token's claimed id; an undecodable token gives 400 INVALID_TOKEN, and a decoded id with no user gives 400 INVALID_USER |
| Auth.AuthenticatesUser | core/utils.py:13-15 | in a consistent store, a token whose claimed id is the id of a user makes `User.objects.get(id=…)` return exactly that user, since user ids are distinct |
| Auth.GuardRefuses | core/utils.py:12-23 | without a decodable token naming an existing user, the wrapped view does not influence the outcome and the store is unchanged; an undecodable token is refused as INVALID_TOKEN whatever the store holds |
| Auth.GuardRuns | core/utils.py:13-17 | for a token naming the id of a user of a consistent store, the wrapped view runs with exactly that user as `request.user` |
| Models.InsertUserValid | users/models.py:9-11 | inserting a user whose e-mail, and Kakao id if set, are new keeps e-mails unique, Kakao ids unique where set, and every key and reference in place |
| Models.SaveUserValid | users/models.py:9-11 | saving a user under its own key with its e-mail and Kakao id unchanged keeps the store consistent and changes only that user's row |
| Models.InsertHostValid | hosts/views.py:22-24 | adding a host row for an existing user who has none keeps the store consistent, with at most one host per user |
| Models.InsertRoomValid | hosts/views.py:75-122 | adding a room with a fresh unique name, an existing host, category and room type, and links and images pointing at it, keeps the store consistent |
| UserViews.SignUp | users/views.py:76-118 | sign-up answers 201 USER_CREATED iff all five keys are present, all five validators pass, and neither the e-mail nor the phone is on file; it then inserts exactly the new user, and on any other answer the store is unchanged; a missing key answers 400 KEY_ERROR |
| UserViews.SignUpVerdictOrder | users/views.py:87-91 | the validators run as first name, last name, e-mail, password, phone, and the first one that fails decides the code |
| UserViews.SignUpInvalid | users/views.py:117-118 | a failing validator is answered 400 with the list repr "['CODE']" of its code, before any uniqueness check, and creates nothing |
| UserViews.SignUpConflicts | users/views.py:93-101 | a taken e-mail is answered 409 EMAIL_ALREADY_EXIST before a taken phone is answered 409 PHONE_ALREADY_EXIST, and neither creates a user |
| UserViews.SignUpCreatesOneUser | users/views.py:103-113 | a successful sign-up adds exactly one user with the submitted name, e-mail and phone, the hash of the password, no Kakao id and the default point balance; nothing else changes |
| UserViews.NewRowsTakeDefaults | users/models.py:6-15 | the row sign-up creates is the row `User(email=…)` would create, with the four submitted columns and the hash set on top; the row a first Kakao login creates has its Kakao id, e-mail and image set, the names, password, phone and birth day NULL and the default point balance of 100000.00 |
| UserViews.SignUpKeepsInvariants | users/views.py:93-111 | sign-up keeps the store consistent and keeps phone numbers unique |
| UserViews.AdditionalInfoAs | users/views.py:43-74 | profile completion answers 201 USER_INFO_UPDATED iff the four keys are present, the two names and the phone pass and no user has the phone; it then saves the caller's completed profile, and otherwise the store is unchanged; a missing key answers 400 KEY_ERROR, a failing validator 400 with the list repr of its code, and a phone on file 400 PHONE_NUMBER_ALREADY_EXIST |
| UserViews.InfoVerdictOrder | users/views.py:55-57 | the validators run as first name, last name, phone, and the first one that fails decides the code; the verdict is a pass iff all three pass |
| UserViews.InfoInvalid | users/views.py:73-74 | a failing validator is answered 400 with the list repr "['CODE']" of its code, before the phone lookup, whoever the caller is, and changes nothing |
| UserViews.PhoneOnFileRefused | users/views.py:59-60 | once the validators pass, a phone number held by any user of the store, the caller included, is answered 400 PHONE_NUMBER_ALREADY_EXIST with the store unchanged |
| UserViews.BirthDayUnchecked | users/views.py:53-57 | the answer does not depend on `birth_day`: it is stored without any check |
| UserViews.AdditionalInfoChangesOnlyCaller | users/views.py:62-68 | on success exactly the caller's first name, last name, phone and birth day change and every other row and table stays as it was; the store stays consistent and phones stay unique |
| UserViews.KakaoOauth | users/views.py:14-41 | a Kakao id not on file whose e-mail is free creates one user and answers 201 with a token for the new id; a Kakao id not on file whose e-mail is taken fails the unique e-mail column with an uncaught IntegrityError and changes nothing; a known Kakao id answers 200 with a token for that user's id; a reply lacking a key is an uncaught KeyError; every answer but 201 leaves the store unchanged |
| UserViews.KakaoKeepsInvariants | users/views.py:27-33 | Kakao login keeps the store consistent and keeps phones unique |
| UserViews.KakaoFirstLogin | users/views.py:27-41 | a first login, with a Kakao id and an e-mail no user holds, answers 201, adds the user with the Kakao id, profile image and e-mail, and the token it answers is accepted by the guard as that user, given that decoding inverts signing |
| UserViews.KakaoLaterLogin | users/views.py:35-41 | a later login changes nothing and answers 200 with a token the guard accepts as the user holding the Kakao id |
| UserViews.KakaoImageNotRefreshed | users/views.py:35-37 | as written, a returning Kakao user whose provider image changed is answered 200 but keeps the old stored image |
| UserViews.KakaoOauthResync | users/views.py:35-37 | the corrected view answers exactly as the written one, and differs in the store only on the 200 path |
| UserViews.KakaoResyncRefreshes | users/views.py:35-37 | with the column named correctly, a returning user's stored image becomes the reported one, no other column or user changes, and the store stays consistent |
| UserViews.KakaoResyncKeepsInvariants | users/views.py:27-37 | the corrected login keeps the store consistent on every input |
| HostViews.NamedReply | hosts/views.py:26 | a response naming the host exists exactly when the user has both names; otherwise `None + str` raises TypeError |
| HostViews.RegisterHostAs | hosts/views.py:16-31 | a host row is added iff the user has none, and then it is exactly one row for that user; 201 iff it was added and the user has both names, and the 201 answer is exactly SUCCESS with HOST_NAME = last name + first name; a JSON answer carries that host name, and is 409 ALREADY_REGISTERED when nothing was added |
| HostViews.RegisterHostIdempotent | hosts/views.py:22-31 | a second registration changes nothing and answers 409 ALREADY_REGISTERED with the same host name |
| HostViews.RegisterHostKeepsInvariants | hosts/views.py:22-24 | registering as a host keeps the store consistent and does not touch the users |
| HostViews.FacilityCheck | hosts/views.py:70-72 | the number of catalog facilities whose id is listed equals the list length iff the listed ids are distinct and all in the catalog: duplicates fail and an empty list passes |
| HostViews.CountListedIsOverlap | hosts/views.py:70 | the count of listed catalog facilities is the size of the intersection of the listed ids with the catalog's ids |
| HostViews.FacilityCountOk | hosts/views.py:70-73 | in a consistent store the facility check passes iff the ids are distinct and each names a facility |
| HostViews.ObjectKeysNamespaced | hosts/views.py:114 | keys `str(host.id) + '/' + name` of different hosts, or of different names, never collide |
| HostViews.CoerceAll | hosts/views.py:70 | the ids coerce iff every one of them does, and then the result holds each coerced id in order |
| HostViews.FacilityRows | hosts/views.py:100-104 | one link per supplied id, in order and with multiplicity, each pointing at the new room under consecutive fresh keys |
| HostViews.UploadLoop | hosts/views.py:107-122 | the loop fails iff some file's put fails; before that, each stored file yields one bucket key `hostId/name` and one Image row with url IMAGE_URL/hostId/name for the room, under consecutive keys |
| HostViews.Commit | hosts/views.py:99-142 | the writes after the room name check answer 201 iff every upload succeeds and the user has both names; any other outcome is an uncaught exception that restores the database, while the put objects stay in the bucket |
| HostViews.RegisterRoomAs | hosts/views.py:33-148 | any answer but 201 leaves the database unchanged; the bucket only grows; a user with no host row is answered 403 ONLY_HOST_CAN_REGISTER_HOUSE with nothing changed, whatever the form holds |
| HostViews.RegisterRoom | hosts/views.py:33-35 | behind the guard, a request without a decodable token naming a user changes neither the database nor the bucket and is not answered 201 |
| HostViews.HostStep | hosts/views.py:39-55 | the host lookup precedes the key check: no host gives 403, and for a host, missing keys give 400 KEY_ERROR before any reference is checked |
| HostViews.RegisterRoomSucceeds | hosts/views.py:39-142 | a room registration answers 201 iff the user has a host row, all keys are present, the category and room type exist, the facility ids are distinct and exist, the name is free, every upload succeeds and the user has both names |
| HostViews.RegisterRoomWrites | hosts/views.py:75-122 | a successful registration inserts exactly the room under the next key, one link per facility id and one image per file with url IMAGE_URL/hostId/name, and puts one object per file under `hostId/name` |
| HostViews.CommitRows | hosts/views.py:99-122 | when every upload succeeds and the user has both names, the writes add the room, its links and one Image row per file with url IMAGE_URL/hostId/name under consecutive keys after the links, and put one object per file under `hostId/name`, in file order |
| HostViews.RegisterRoomAnswers | hosts/views.py:125-142 | the answer carries the new room's id and name, address = region + detail address with no separator, host name = last name + first name, and one image url per file in upload order |
| HostViews.RegisterRoomKeepsInvariants | hosts/views.py:75-122 | every room registration keeps the store consistent: unique room names, and rooms, links and images that all point at existing rows |
| HostViews.RegisterRoomRollsBack | hosts/views.py:75-122 | when an upload fails, or the host has no name, the database is as before line 75 and the answer is an uncaught error, while the objects put before the failure remain in the bucket |
| HostViews.RoomNameTaken | hosts/views.py:76-97 | a taken room name is answered 409 ROOM_NAME_ALREADY_EXIST with neither the database nor the bucket changed |
| HostViews.ReferenceRefusals | hosts/views.py:61-73 | for a host with every key present, a category id naming no category is answered 404 CATEGORY_DOES_NOT_EXIST; with the category found, a room type id naming no room type 404 ROOM_TYPE_DOES_NOT_EXIST; with both found, facility ids that convert but are not distinct existing facilities 404 FACILITY_DOES_NOT_EXIST; neither the database nor the bucket changes |
| HostViews.RegisterRoomRefuses | hosts/views.py:39-73 | a caller with no host row, or a form failing the key, category, room type or facility checks, changes neither the database nor the bucket and is not answered 201 |
| HostViews.CatalogLookups | hosts/views.py:62-67 | in a consistent store the existence checks and the `get`s of category and room type find a row exactly when one with that id exists |
| HostViews.NameLookup | hosts/views.py:76 | with unique room names, the room name lookup finds a row iff the name is taken |

## Left out

- Sign-in with e-mail and password: users/views.py holds no such view, though users/urls.py names one.
- HTTP and JSON parsing: request bodies are maps from keys to strings, and the Kakao reply is an input record. A reply missing one of the read keys is one `KeyError` outcome, whichever key it lacks.
- bcrypt, JWT signing and decoding, `uuid4` and the S3 put are parameters. The model states decode-of-encode as an explicit hypothesis where it is needed. Token claims are typed as integers.
- Validators.PasswordMatchesPattern: `\d` in Python matches every Unicode decimal digit, and the model admits only ASCII '0'–'9'. `[0-9]` in the phone pattern is ASCII in both.
- HostViews.RegisterRoomAs: the numeric room attributes (price, bedroom, …) are kept as their form text. The `ValueError` or `ValidationError` Django raises when it converts malformed text at insert time is not modelled.
- Django's `int()` coercion of `category_id`, `room_type_id` and `facility_ids` is the parameter `coerce`. A failure is modelled as an uncaught `ValueError`.
- The order of the `facilities` and `images` lists in the room summary is taken to be primary-key order, which the queries do not guarantee.
- Concurrency: the race between two registrations of the same room name, and the database's own uniqueness constraint on it, are not modelled.
- Primary keys: one store-wide counter stands in for each table's own auto-increment sequence.
- `bulk_create` is modelled as assigning keys in list order.
- Timestamps of `TimeStampModel` (core/models.py) are not modelled.
- The Host, Room and catalog model files are not part of this model. The store assumes one host per user and unique room names, which the views' get-or-create lookups rely on.
- `save()` on a row that no longer exists would INSERT it again. The views only save rows they just read, so this path is not modelled.
- Column widths: `first_name`, `last_name`, `email`, `phone_number` and `birth_day` are `CharField(max_length=50)`, and `kakao_profile_img` is `CharField(max_length=500)` filled with whatever URL the Kakao reply carries (users/models.py:7-14). The model stores strings of any length; on a database that enforces the width, a longer value fails at `save()` with an uncaught error the model does not show.
- UserViews.BirthDayUnchecked: holds only where the 50-character width of `birth_day` is not enforced. A database that enforces it turns an over-long birth day into an error at `save()`.
- `kakao_id` is a 64-bit `BigIntegerField` (users/models.py:11). The model's Kakao ids are unbounded integers, so an id out of that range is not refused.
- Collation: `filter`, `get` and `get_or_create` compare strings with the database's collation. The model compares them exactly, as a case- and accent-sensitive collation does; a case-insensitive collation would make more e-mails and phones collide.
- `Decimal` point balances are fixed-point integers of hundredths; only the default 100000.00 is observable.

## Findings

| source | as written | input that shows it | evidently intended | confidence | as-written member | corrected member |
|---|---|---|---|---|---|---|
| users/views.py:36 | a returning Kakao user's new profile image is assigned to `user.kakao_proifile_img`, a misspelled attribute that no column backs, so `save()` writes the old image back | a store holding a user with Kakao id 7 and image "a.jpg", and a Kakao reply for id 7 with image "b.jpg": the answer is 200 and the stored image stays "a.jpg" | the reported image replaces the stored one in `kakao_profile_img` | not executed | UserViews.KakaoImageNotRefreshed | UserViews.KakaoResyncRefreshes |
