/** The host views of hosts/views.py: becoming a host (get-or-create keyed on the user)
    and registering a room (ordered checks, then one atomic write of the room, its
    facility links and its images). The object-storage bucket is the sequence of keys put
    into it; each upload's generated name and success are inputs. */
module HostViews {
  import opened Common
  import opened Tables
  import opened Models
  import opened Auth

  /** `last_name + first_name` of a user; Python raises `TypeError` when either is None. */
  function HostName(u: User): Option<string> {
    if u.firstName.Some? && u.lastName.Some? then Some(u.lastName.value + u.firstName.value) else None
  }

  function UserIdIs(userId: nat): Host -> bool {
    (h: Host) => h.userId == userId
  }

  /** The response carrying the host's display name, or the `TypeError` of building it. */
  function NamedReply(status: int, message: string, user: User): (r: Response)
    ensures r.Json? <==> HostName(user).Some?
  {
    match HostName(user)
    case Some(name) => Json(status, message, HostData(name))
    case None => Uncaught("TypeError")
  }

  // Becoming a host.

  /** `RegisterHostView.post` once the guard has set `request.user`. The get-or-create
      commits before the name is built, so a user without a name becomes a host and still
      gets the `TypeError`. */
  function RegisterHostAs(db: Db, user: User): (r: (Db, Response))
    ensures r.0 != db <==> !Any(db.hosts, UserIdIs(user.id))
    ensures r.0 != db ==> r.0 == InsertHost(db, user.id)
    ensures r.1.Status() == 201 <==> r.0 != db && HostName(user).Some?
    ensures r.1.Json? ==> HostName(user).Some? && r.1.data == HostData(HostName(user).value)
    ensures r.1.Json? && r.0 == db ==> r.1 == Json(409, "ALREADY_REGISTERED", r.1.data)
    ensures r.1.Status() == 201 ==> r.1 == Json(201, "SUCCESS", HostData(HostName(user).value))
  {
    match Get(db.hosts, UserIdIs(user.id))
    case MultipleObjectsReturned => (db, Uncaught("MultipleObjectsReturned"))
    case Found(_) => (db, NamedReply(409, "ALREADY_REGISTERED", user))
    case DoesNotExist => (InsertHost(db, user.id), NamedReply(201, "SUCCESS", user))
  }

  /** The guarded endpoint. */
  function RegisterHost(db: Db, header: Option<string>, decode: string -> Decoded): (Db, Response) {
    Guard(db, header, decode, RegisterHostAs)
  }

  /** Becoming a host is idempotent: the first call creates exactly one host for the user,
      a second call creates nothing and answers 409 with the same display name. */
  lemma RegisterHostIdempotent(db: Db, user: User)
    requires Valid(db)
    ensures var db' := RegisterHostAs(db, user).0;
            && RegisterHostAs(db', user).0 == db'
            && (HostName(user).Some? ==>
                  RegisterHostAs(db', user).1 == Json(409, "ALREADY_REGISTERED", HostData(HostName(user).value)))
  {
    var db' := RegisterHostAs(db, user).0;
    if db' == db {
      var k :| 0 <= k < |db.hosts| && UserIdIs(user.id)(db.hosts[k]);
      forall i, j | 0 <= i < j < |db.hosts|
        ensures !(UserIdIs(user.id)(db.hosts[i]) && UserIdIs(user.id)(db.hosts[j]))
      {
      }
      GetUnique(db.hosts, UserIdIs(user.id), k);
    } else {
      var k := |db.hosts|;
      assert db'.hosts[k] == Host(db.nextId, user.id);
      forall i, j | 0 <= i < j < |db'.hosts|
        ensures !(UserIdIs(user.id)(db'.hosts[i]) && UserIdIs(user.id)(db'.hosts[j]))
      {
        assert db'.hosts[i] == db.hosts[i];
        assert !UserIdIs(user.id)(db.hosts[i]);
      }
      GetUnique(db'.hosts, UserIdIs(user.id), k);
    }
  }

  /** Becoming a host keeps the constraints: one host per user, each host a user. */
  lemma RegisterHostKeepsInvariants(db: Db, k: nat)
    requires Valid(db) && k < |db.users|
    ensures Valid(RegisterHostAs(db, db.users[k]).0)
    ensures RegisterHostAs(db, db.users[k]).0.users == db.users
  {
    var user := db.users[k];
    if RegisterHostAs(db, user).0 != db {
      forall i | 0 <= i < |db.hosts|
        ensures db.hosts[i].userId != user.id
      {
        assert !UserIdIs(user.id)(db.hosts[i]);
      }
      InsertHostValid(db, k);
    }
  }

  // Counting the listed facilities.

  /** `Facility.objects.filter(id__in=ids)` counted: catalog rows whose id is listed; a
      row counts once however often its id is listed. */
  function CountListed(facilities: seq<Facility>, ids: seq<int>): nat {
    if |facilities| == 0 then 0
    else (if facilities[0].id as int in ids then 1 else 0) + CountListed(facilities[1..], ids)
  }

  function CatalogIds(facilities: seq<Facility>): set<int> {
    set i | 0 <= i < |facilities| :: facilities[i].id as int
  }

  predicate Distinct(ids: seq<int>) {
    forall i, j | 0 <= i < j < |ids| :: ids[i] != ids[j]
  }

  function Elements(ids: seq<int>): set<int> {
    set x | x in ids
  }

  /** No two catalog rows share a primary key. */
  predicate RowKeysDistinct(facilities: seq<Facility>) {
    forall i, j | 0 <= i < j < |facilities| :: facilities[i].id != facilities[j].id
  }

  /** With distinct row keys, the count is the number of listed ids in the catalog. */
  lemma {:induction false} CountListedIsOverlap(facilities: seq<Facility>, ids: seq<int>)
    requires RowKeysDistinct(facilities)
    ensures CountListed(facilities, ids) == |Elements(ids) * CatalogIds(facilities)|
    decreases |facilities|
  {
    if |facilities| == 0 {
      assert CatalogIds(facilities) == {};
    } else {
      var rest := facilities[1..];
      assert RowKeysDistinct(rest) by {
        forall i, j | 0 <= i < j < |rest|
          ensures rest[i].id != rest[j].id
        {
          assert rest[i] == facilities[i + 1] && rest[j] == facilities[j + 1];
        }
      }
      CountListedIsOverlap(rest, ids);
      var head := facilities[0].id as int;
      CatalogIdsCons(facilities);
      var A := Elements(ids);
      if head in ids {
        assert A * CatalogIds(facilities) == {head} + A * CatalogIds(rest);
      } else {
        assert A * CatalogIds(facilities) == A * CatalogIds(rest);
      }
    }
  }

  /** The catalog ids are the head's id and, disjointly, the ids of the rest. */
  lemma CatalogIdsCons(facilities: seq<Facility>)
    requires |facilities| > 0 && RowKeysDistinct(facilities)
    ensures CatalogIds(facilities) == {facilities[0].id as int} + CatalogIds(facilities[1..])
    ensures facilities[0].id as int !in CatalogIds(facilities[1..])
  {
    var head, rest := facilities[0].id as int, facilities[1..];
    forall x | x in CatalogIds(facilities)
      ensures x in {head} + CatalogIds(rest)
    {
      var i :| 0 <= i < |facilities| && x == facilities[i].id as int;
      if i > 0 {
        assert x == rest[i - 1].id as int;
      }
    }
    forall x | x in CatalogIds(rest)
      ensures x in CatalogIds(facilities)
    {
      var i :| 0 <= i < |rest| && x == rest[i].id as int;
      assert x == facilities[i + 1].id as int;
    }
  }

  /** A subset is no larger than its superset, and a proper subset is smaller. */
  lemma {:induction false} SubsetCard<T>(a: set<T>, b: set<T>)
    requires a <= b
    ensures |a| <= |b|
    ensures a != b ==> |a| < |b|
    decreases |b|
  {
    if a != b {
      var x :| x in b && x !in a;
      SubsetCard(a, b - {x});
    }
  }

  /** A list holds at most as many different ids as entries, exactly as many when no id
      repeats. */
  lemma {:induction false} ElementsCard(ids: seq<int>)
    ensures |Elements(ids)| <= |ids|
    ensures |Elements(ids)| == |ids| <==> Distinct(ids)
    decreases |ids|
  {
    if |ids| > 0 {
      var rest := ids[1..];
      ElementsCard(rest);
      assert Elements(ids) == {ids[0]} + Elements(rest);
      if ids[0] in rest {
        assert Elements(ids) == Elements(rest);
        var j :| 0 <= j < |rest| && rest[j] == ids[0];
        assert ids[0] == ids[j + 1];
      } else {
        assert |Elements(ids)| == |Elements(rest)| + 1;
        if Distinct(rest) {
          forall i, j | 0 <= i < j < |ids|
            ensures ids[i] != ids[j]
          {
            if i == 0 {
              assert ids[j] == rest[j - 1];
            } else {
              assert ids[i] == rest[i - 1] && ids[j] == rest[j - 1];
            }
          }
        }
        if Distinct(ids) {
          forall i, j | 0 <= i < j < |rest|
            ensures rest[i] != rest[j]
          {
            assert rest[i] == ids[i + 1] && rest[j] == ids[j + 1];
          }
        }
      }
    }
  }

  /** The facility check of the room form passes iff every listed id names a catalog row
      and no id is listed twice; an empty list passes. */
  lemma FacilityCheck(facilities: seq<Facility>, ids: seq<int>)
    requires RowKeysDistinct(facilities)
    ensures CountListed(facilities, ids) == |ids| <==>
              Distinct(ids) && forall i | 0 <= i < |ids| :: ids[i] in CatalogIds(facilities)
  {
    CountListedIsOverlap(facilities, ids);
    ElementsCard(ids);
    var A, B := Elements(ids), CatalogIds(facilities);
    SubsetCard(A * B, A);
    if CountListed(facilities, ids) == |ids| {
      assert A * B == A;
      forall i | 0 <= i < |ids|
        ensures ids[i] in B
      {
        assert ids[i] in A * B;
      }
    }
    if Distinct(ids) && forall i | 0 <= i < |ids| :: ids[i] in B {
      assert A * B == A;
    }
  }

  // Registering a room.

  /** One uploaded file: the fresh name `uuid4` gave it, and whether the storage `put`
      succeeds. */
  datatype Upload = Upload(generatedName: string, stored: bool)

  /** `request.POST` (the last value of each key), its `facility_ids` list and the files. */
  datatype RoomForm = RoomForm(fields: map<string, string>, facilityIds: seq<string>, files: seq<Upload>)

  /** The database, the keys in the bucket, and the response. */
  datatype Effect = Effect(db: Db, bucket: seq<string>, response: Response)

  /** Every field the view reads with `data[key]` is present; a missing one raises
      `KeyError`. */
  predicate RoomFieldsPresent(fields: map<string, string>) {
    && "room_name" in fields && "state/province/region" in fields && "detail_address" in fields
    && "price" in fields && "description" in fields && "latitude" in fields && "longitude" in fields
    && "maximum_occupancy" in fields && "bedroom" in fields && "bathroom" in fields && "bed" in fields
    && "category_id" in fields && "room_type_id" in fields
  }

  /** `str(host.id) + '/' + name`: the bucket key, in a folder per host. */
  function ObjectKey(hostId: nat, name: string): string {
    DecimalString(hostId) + "/" + name
  }

  /** `IMAGE_URL + '/' + str(host.id) + '/' + name` */
  function ImageUrl(imageUrl: string, hostId: nat, name: string): string {
    imageUrl + "/" + ObjectKey(hostId, name)
  }

  /** Objects of different hosts never share a key, nor do two files of one host with
      different names. */
  lemma ObjectKeysNamespaced(h1: nat, n1: string, h2: nat, n2: string)
    requires h1 != h2 || n1 != n2
    ensures ObjectKey(h1, n1) != ObjectKey(h2, n2)
  {
    if ObjectKey(h1, n1) == ObjectKey(h2, n2) {
      ObjectKeySplit(h1, n1);
      ObjectKeySplit(h2, n2);
      if h1 != h2 {
        DecimalStringInjective(h1, h2);
      }
    }
  }

  /** The first '/' of a key ends the host's digits, so the key splits back into the
      host's digits and the file name. */
  lemma ObjectKeySplit(hostId: nat, name: string)
    ensures var k, d := ObjectKey(hostId, name), DecimalString(hostId);
            IndexOf(k, '/') == |d| && k[..|d|] == d && k[|d| + 1..] == name
  {
    var k, d := ObjectKey(hostId, name), DecimalString(hostId);
    assert k[|d|] == '/';
    forall i | 0 <= i < |d|
      ensures k[i] != '/'
    {
      assert k[i] == d[i];
    }
  }

  /** The ids of a list when `int()` accepts every one of them, otherwise None: the
      query raises `ValueError` on the first it refuses. */
  function CoerceAll(texts: seq<string>, coerce: string -> Option<int>): (r: Option<seq<int>>)
    ensures r.Some? <==> forall i | 0 <= i < |texts| :: coerce(texts[i]).Some?
    ensures r.Some? ==> |r.value| == |texts| && forall i | 0 <= i < |texts| :: coerce(texts[i]) == Some(r.value[i])
    decreases |texts|
  {
    if |texts| == 0 then Some([])
    else
      match coerce(texts[0])
      case None => None
      case Some(x) =>
        var rest := CoerceAll(texts[1..], coerce);
        assert forall i | 1 <= i < |texts| :: texts[i] == texts[1..][i - 1];
        if rest.None? then None else Some([x] + rest.value)
  }

  /** `RoomFacility.objects.bulk_create`: one row per listed id, keys counted up from `next`. */
  function FacilityRows(next: nat, roomId: nat, ids: seq<int>): (rows: seq<RoomFacility>)
    ensures |rows| == |ids|
    ensures forall i | 0 <= i < |ids| :: rows[i] == RoomFacility(next + i, roomId, ids[i])
    decreases |ids|
  {
    if |ids| == 0 then []
    else [RoomFacility(next, roomId, ids[0])] + FacilityRows(next + 1, roomId, ids[1..])
  }

  /** What the upload loop leaves: the Image rows created, the keys put, and whether a
      `put` raised. */
  datatype Uploaded = Uploaded(rows: seq<Image>, keys: seq<string>, failed: bool)

  /** Files before the first failed upload. */
  function StoredPrefix(files: seq<Upload>): (n: nat)
    ensures n <= |files|
    ensures forall i | 0 <= i < n :: files[i].stored
    ensures n < |files| ==> !files[n].stored
  {
    if |files| == 0 || !files[0].stored then 0 else 1 + StoredPrefix(files[1..])
  }

  /** The loop over `files`: put the object, then create its Image row; the first failed
      `put` raises and ends the loop. */
  function UploadLoop(next: nat, hostId: nat, roomId: nat, files: seq<Upload>, imageUrl: string): (u: Uploaded)
    ensures u.failed <==> StoredPrefix(files) < |files|
    ensures |u.keys| == |u.rows| == StoredPrefix(files)
    ensures forall i | 0 <= i < |u.keys| :: u.keys[i] == ObjectKey(hostId, files[i].generatedName)
    ensures forall i | 0 <= i < |u.rows| ::
              u.rows[i] == Image(next + i, ImageUrl(imageUrl, hostId, files[i].generatedName), roomId)
    decreases |files|
  {
    if |files| == 0 then Uploaded([], [], false)
    else if !files[0].stored then Uploaded([], [], true)
    else
      var name := files[0].generatedName;
      var rest := UploadLoop(next + 1, hostId, roomId, files[1..], imageUrl);
      Uploaded([Image(next, ImageUrl(imageUrl, hostId, name), roomId)] + rest.rows,
               [ObjectKey(hostId, name)] + rest.keys,
               rest.failed)
  }

  function NameIs(name: string): Room -> bool {
    (r: Room) => r.name == name
  }

  function CategoryIs(id: int): Category -> bool {
    (c: Category) => c.id == id
  }

  function RoomTypeIs(id: int): RoomType -> bool {
    (t: RoomType) => t.id == id
  }

  function FacilityIs(id: int): Facility -> bool {
    (f: Facility) => f.id == id
  }

  /** The room row the get-or-create inserts, from the form text. */
  function NewRoom(id: nat, fields: map<string, string>, hostId: nat, categoryId: int, roomTypeId: int): Room
    requires RoomFieldsPresent(fields)
  {
    Room(id, fields["room_name"], fields["state/province/region"], fields["detail_address"],
         fields["price"], fields["description"], fields["latitude"], fields["longitude"],
         fields["maximum_occupancy"], fields["bedroom"], fields["bathroom"], fields["bed"],
         hostId, categoryId, roomTypeId)
  }

  /** The name of each linked facility, in the order the links were made. */
  function FacilityNames(facilities: seq<Facility>, ids: seq<int>): seq<string> {
    seq(|ids|, i requires 0 <= i < |ids| =>
      match Get(facilities, FacilityIs(ids[i]))
      case Found(f) => f.name
      case _ => "")
  }

  /** The response summary: the address is the two address fields joined with no
      separator, the host name is last name then first name. */
  function Summary(room: Room, hostName: string, category: string, roomType: string,
                   facilities: seq<string>, images: seq<Image>): RoomInfo
  {
    RoomInfo(room.id, room.name, room.address + room.detailAddress, room.price,
             room.bedroom, room.bathroom, room.bed, hostName, category, roomType,
             facilities, seq(|images|, i requires 0 <= i < |images| => images[i].url))
  }

  /** The `transaction.atomic()` block. The defaults' category and room type are fetched
      before the room is looked up by name; a name already taken is answered without
      writing anything. */
  function Atomic(db: Db, bucket: seq<string>, user: User, host: Host, form: RoomForm,
                  categoryId: int, roomTypeId: int, ids: seq<int>, imageUrl: string): (r: Effect)
    requires RoomFieldsPresent(form.fields)
    ensures r.response.Status() != 201 ==> r.db == db
    ensures |bucket| <= |r.bucket| && r.bucket[..|bucket|] == bucket
  {
    match (Get(db.categories, CategoryIs(categoryId)), Get(db.roomTypes, RoomTypeIs(roomTypeId)))
    case (Found(category), Found(roomType)) =>
      (match Get(db.rooms, NameIs(form.fields["room_name"]))
       case MultipleObjectsReturned => Effect(db, bucket, Uncaught("MultipleObjectsReturned"))
       case Found(_) => Effect(db, bucket, Reply(409, "ROOM_NAME_ALREADY_EXIST"))
       case DoesNotExist => Commit(db, bucket, user, host, form, category, roomType, ids, imageUrl))
    case (DoesNotExist, _) => Effect(db, bucket, Uncaught("Category.DoesNotExist"))
    case (MultipleObjectsReturned, _) => Effect(db, bucket, Uncaught("MultipleObjectsReturned"))
    case (Found(_), DoesNotExist) => Effect(db, bucket, Uncaught("RoomType.DoesNotExist"))
    case (Found(_), MultipleObjectsReturned) => Effect(db, bucket, Uncaught("MultipleObjectsReturned"))
  }

  /** The writes of the atomic block: the room, its facility links, then per file the
      upload and its Image row, then the summary. Every exception leaves the database as
      it was on entry; objects already put into the bucket stay there. */
  function Commit(db: Db, bucket: seq<string>, user: User, host: Host, form: RoomForm,
                  category: Category, roomType: RoomType, ids: seq<int>, imageUrl: string): (r: Effect)
    requires RoomFieldsPresent(form.fields)
    ensures r.response.Status() == 201 <==> AllStored(form.files) && HostName(user).Some?
    ensures r.response.Status() != 201 ==> r.db == db && r.response.Uncaught?
    ensures r.bucket == bucket + UploadLoop(db.nextId + 1 + |ids|, host.id, db.nextId, form.files, imageUrl).keys
  {
    var room := NewRoom(db.nextId, form.fields, host.id, category.id, roomType.id);
    var links := FacilityRows(db.nextId + 1, room.id, ids);
    var up := UploadLoop(db.nextId + 1 + |ids|, host.id, room.id, form.files, imageUrl);
    if up.failed then Effect(db, bucket + up.keys, Uncaught("UploadError"))
    else
      match HostName(user)
      case None => Effect(db, bucket + up.keys, Uncaught("TypeError"))
      case Some(hostName) =>
        var info := Summary(room, hostName, category.name, roomType.name,
                            FacilityNames(db.facilities, ids), up.rows);
        Effect(InsertRoom(db, room, links, up.rows), bucket + up.keys, Json(201, "SUCCESS", RoomData(info)))
  }

  /** The facility check: every listed id converts, and the catalog holds as many of
      them as were listed. */
  function CheckFacilities(db: Db, bucket: seq<string>, user: User, host: Host, form: RoomForm,
                           categoryId: int, roomTypeId: int, imageUrl: string,
                           coerce: string -> Option<int>): (r: Effect)
    requires RoomFieldsPresent(form.fields)
    ensures r.response.Status() != 201 ==> r.db == db
    ensures |bucket| <= |r.bucket| && r.bucket[..|bucket|] == bucket
  {
    match CoerceAll(form.facilityIds, coerce)
    case None => Effect(db, bucket, Uncaught("ValueError"))
    case Some(ids) =>
      if CountListed(db.facilities, ids) != |ids| then
        Effect(db, bucket, Reply(404, "FACILITY_DOES_NOT_EXIST"))
      else
        Atomic(db, bucket, user, host, form, categoryId, roomTypeId, ids, imageUrl)
  }

  /** The category and room type checks, in that order, then the facility check. */
  function CheckReferences(db: Db, bucket: seq<string>, user: User, host: Host, form: RoomForm,
                           imageUrl: string, coerce: string -> Option<int>): (r: Effect)
    requires RoomFieldsPresent(form.fields)
    ensures r.response.Status() != 201 ==> r.db == db
    ensures |bucket| <= |r.bucket| && r.bucket[..|bucket|] == bucket
  {
    match coerce(form.fields["category_id"])
    case None => Effect(db, bucket, Uncaught("ValueError"))
    case Some(categoryId) =>
      if !Any(db.categories, CategoryIs(categoryId)) then
        Effect(db, bucket, Reply(404, "CATEGORY_DOES_NOT_EXIST"))
      else
        match coerce(form.fields["room_type_id"])
        case None => Effect(db, bucket, Uncaught("ValueError"))
        case Some(roomTypeId) =>
          if !Any(db.roomTypes, RoomTypeIs(roomTypeId)) then
            Effect(db, bucket, Reply(404, "ROOM_TYPE_DOES_NOT_EXIST"))
          else
            CheckFacilities(db, bucket, user, host, form, categoryId, roomTypeId, imageUrl, coerce)
  }

  /** `RegisterRoomView.post` once the guard has set `request.user`. `imageUrl` is the
      configured `IMAGE_URL`; `coerce` is the integer conversion Django applies to an id
      given as text (None where it raises `ValueError`). */
  function RegisterRoomAs(db: Db, bucket: seq<string>, user: User, form: RoomForm,
                          imageUrl: string, coerce: string -> Option<int>): (r: Effect)
    ensures r.response.Status() != 201 ==> r.db == db
    ensures |bucket| <= |r.bucket| && r.bucket[..|bucket|] == bucket
    ensures !Any(db.hosts, UserIdIs(user.id)) ==>
              r == Effect(db, bucket, Reply(403, "ONLY_HOST_CAN_REGISTER_HOUSE"))
  {
    match Get(db.hosts, UserIdIs(user.id))
    case DoesNotExist => Effect(db, bucket, Reply(403, "ONLY_HOST_CAN_REGISTER_HOUSE"))
    case MultipleObjectsReturned => Effect(db, bucket, Uncaught("MultipleObjectsReturned"))
    case Found(host) =>
      if !RoomFieldsPresent(form.fields) then Effect(db, bucket, KeyErrorReply)
      else CheckReferences(db, bucket, user, host, form, imageUrl, coerce)
  }

  /** The guarded endpoint: the guard's refusals, or the view run as the token's user. */
  function RegisterRoom(db: Db, bucket: seq<string>, header: Option<string>, decode: string -> Decoded,
                        form: RoomForm, imageUrl: string, coerce: string -> Option<int>): (r: Effect)
    ensures r.response.Status() != 201 ==> r.db == db
    ensures ClaimedId(header, decode).None? || !HasUser(db, ClaimedId(header, decode).value) ==>
              r.db == db && r.bucket == bucket && r.response.Status() != 201
  {
    match Authenticate(db, header, decode)
    case Authenticated(u) => RegisterRoomAs(db, bucket, u, form, imageUrl, coerce)
    case Refused(response) => Effect(db, bucket, response)
  }

  // What a room registration does, stated on the tables.

  /** The user's host row, when it has one. */
  predicate HostRow(db: Db, user: User, m: int) {
    0 <= m < |db.hosts| && db.hosts[m].userId == user.id
  }

  /** The form passes every check before the atomic block: all keys present, the category
      and the room type exist, every listed facility exists and none is listed twice. */
  predicate ReferencesOk(db: Db, form: RoomForm, coerce: string -> Option<int>) {
    && RoomFieldsPresent(form.fields)
    && coerce(form.fields["category_id"]).Some?
    && HasCategory(db, coerce(form.fields["category_id"]).value)
    && coerce(form.fields["room_type_id"]).Some?
    && HasRoomType(db, coerce(form.fields["room_type_id"]).value)
    && FacilitiesOk(db, form, coerce)
  }

  /** Every listed facility id converts and names a facility, and none is listed twice. */
  predicate FacilitiesOk(db: Db, form: RoomForm, coerce: string -> Option<int>) {
    && (forall i | 0 <= i < |form.facilityIds| ::
          coerce(form.facilityIds[i]).Some? && HasFacility(db, coerce(form.facilityIds[i]).value))
    && (forall i, j | 0 <= i < j < |form.facilityIds| :: coerce(form.facilityIds[i]) != coerce(form.facilityIds[j]))
  }

  /** No room has the name yet. */
  predicate NameFree(db: Db, name: string) {
    forall i | 0 <= i < |db.rooms| :: db.rooms[i].name != name
  }

  /** Every check before the uploads passes. */
  predicate RoomRequestOk(db: Db, form: RoomForm, coerce: string -> Option<int>) {
    ReferencesOk(db, form, coerce) && NameFree(db, form.fields["room_name"])
  }

  predicate AllStored(files: seq<Upload>) {
    forall i | 0 <= i < |files| :: files[i].stored
  }

  /** The host lookup finds the user's one host row. */
  lemma HostFound(db: Db, user: User, m: nat)
    requires HostUsersUnique(db.hosts) && HostRow(db, user, m)
    ensures Get(db.hosts, UserIdIs(user.id)) == Found(db.hosts[m])
  {
    forall i, j | 0 <= i < j < |db.hosts|
      ensures !(UserIdIs(user.id)(db.hosts[i]) && UserIdIs(user.id)(db.hosts[j]))
    {
      assert db.hosts[i].userId != db.hosts[j].userId;
    }
    GetUnique(db.hosts, UserIdIs(user.id), m);
  }

  /** The catalogs' primary keys are distinct, as in every consistent store. */
  predicate CatalogIndexed(db: Db) {
    && KeysOk(db.categories, CategoryId, db.nextId)
    && KeysOk(db.roomTypes, RoomTypeId, db.nextId)
    && KeysOk(db.facilities, FacilityId, db.nextId)
  }

  /** What the lookups of a room registration rely on: catalog keys, one host per user and
      one room per name. */
  predicate Lookupable(db: Db) {
    CatalogIndexed(db) && HostUsersUnique(db.hosts) && RoomNamesUnique(db.rooms)
  }

  /** In a consistent store the catalog lookups find a row exactly when it exists. */
  lemma CatalogLookups(db: Db, c: int, t: int)
    requires CatalogIndexed(db)
    ensures Get(db.categories, CategoryIs(c)).Found? <==> HasCategory(db, c)
    ensures Get(db.roomTypes, RoomTypeIs(t)).Found? <==> HasRoomType(db, t)
    ensures Any(db.categories, CategoryIs(c)) <==> HasCategory(db, c)
    ensures Any(db.roomTypes, RoomTypeIs(t)) <==> HasRoomType(db, t)
  {
    CategoryLookup(db.categories, c);
    RoomTypeLookup(db.roomTypes, t);
  }

  lemma CategoryLookup(categories: seq<Category>, c: int)
    requires forall i, j | 0 <= i < j < |categories| :: categories[i].id != categories[j].id
    ensures Get(categories, CategoryIs(c)).Found? <==> exists k | 0 <= k < |categories| :: categories[k].id == c
    ensures Any(categories, CategoryIs(c)) <==> exists k | 0 <= k < |categories| :: categories[k].id == c
  {
    if exists k | 0 <= k < |categories| :: categories[k].id == c {
      var k :| 0 <= k < |categories| && categories[k].id == c;
      assert CategoryIs(c)(categories[k]);
    }
  }

  lemma RoomTypeLookup(roomTypes: seq<RoomType>, t: int)
    requires forall i, j | 0 <= i < j < |roomTypes| :: roomTypes[i].id != roomTypes[j].id
    ensures Get(roomTypes, RoomTypeIs(t)).Found? <==> exists k | 0 <= k < |roomTypes| :: roomTypes[k].id == t
    ensures Any(roomTypes, RoomTypeIs(t)) <==> exists k | 0 <= k < |roomTypes| :: roomTypes[k].id == t
  {
    if exists k | 0 <= k < |roomTypes| :: roomTypes[k].id == t {
      var k :| 0 <= k < |roomTypes| && roomTypes[k].id == t;
      assert RoomTypeIs(t)(roomTypes[k]);
    }
  }

  /** In a consistent store the name lookup finds the room exactly when the name is taken. */
  lemma NameLookup(db: Db, name: string)
    requires RoomNamesUnique(db.rooms)
    ensures Get(db.rooms, NameIs(name)).Found? <==> !NameFree(db, name)
    ensures Get(db.rooms, NameIs(name)).DoesNotExist? <==> NameFree(db, name)
  {
    if !NameFree(db, name) {
      var k :| 0 <= k < |db.rooms| && db.rooms[k].name == name;
      assert NameIs(name)(db.rooms[k]);
    }
  }

  /** In a consistent store the facility count check passes exactly when every listed id
      names a facility and no id is listed twice. */
  lemma FacilityCountOk(db: Db, ids: seq<int>)
    requires CatalogIndexed(db)
    ensures CountListed(db.facilities, ids) == |ids| <==>
              Distinct(ids) && forall i | 0 <= i < |ids| :: HasFacility(db, ids[i])
  {
    assert RowKeysDistinct(db.facilities) by {
      assert forall i, j | 0 <= i < j < |db.facilities| :: FacilityId(db.facilities[i]) != FacilityId(db.facilities[j]);
    }
    FacilityCheck(db.facilities, ids);
    forall x: int
      ensures x in CatalogIds(db.facilities) <==> HasFacility(db, x)
    {
      if HasFacility(db, x) {
        var k :| 0 <= k < |db.facilities| && db.facilities[k].id == x;
        assert x == db.facilities[k].id as int;
      }
    }
  }

  /** The facility ids of the form pass when they all convert and pass as numbers. */
  lemma FacilityIdsOk(db: Db, form: RoomForm, coerce: string -> Option<int>)
    requires CatalogIndexed(db)
    ensures (&& CoerceAll(form.facilityIds, coerce).Some?
             && CountListed(db.facilities, CoerceAll(form.facilityIds, coerce).value) == |form.facilityIds|)
        <==> FacilitiesOk(db, form, coerce)
  {
    var ids := CoerceAll(form.facilityIds, coerce);
    if ids.Some? {
      FacilityCountOk(db, ids.value);
    }
  }

  /** The facility check refuses the form or hands over to the atomic block. */
  lemma FacilitiesStep(db: Db, bucket: seq<string>, user: User, host: Host, form: RoomForm,
                       c: int, t: int, imageUrl: string, coerce: string -> Option<int>)
    requires CatalogIndexed(db) && RoomFieldsPresent(form.fields)
    ensures !FacilitiesOk(db, form, coerce) ==>
              CheckFacilities(db, bucket, user, host, form, c, t, imageUrl, coerce).response.Status() != 201
    ensures FacilitiesOk(db, form, coerce) ==>
              && CoerceAll(form.facilityIds, coerce).Some?
              && CheckFacilities(db, bucket, user, host, form, c, t, imageUrl, coerce)
                 == Atomic(db, bucket, user, host, form, c, t, CoerceAll(form.facilityIds, coerce).value, imageUrl)
  {
    FacilityIdsOk(db, form, coerce);
  }

  /** Past the host lookup and the keys, the reference checks either refuse the form or
      hand over to the atomic block with the converted ids. */
  lemma ReferencesStep(db: Db, bucket: seq<string>, user: User, host: Host, form: RoomForm,
                       imageUrl: string, coerce: string -> Option<int>)
    requires CatalogIndexed(db) && RoomFieldsPresent(form.fields)
    ensures !ReferencesOk(db, form, coerce) ==>
              CheckReferences(db, bucket, user, host, form, imageUrl, coerce).response.Status() != 201
    ensures ReferencesOk(db, form, coerce) ==>
              && CoerceAll(form.facilityIds, coerce).Some?
              && CheckReferences(db, bucket, user, host, form, imageUrl, coerce)
                 == Atomic(db, bucket, user, host, form, coerce(form.fields["category_id"]).value,
                           coerce(form.fields["room_type_id"]).value, CoerceAll(form.facilityIds, coerce).value, imageUrl)
  {
    var cc, tt := coerce(form.fields["category_id"]), coerce(form.fields["room_type_id"]);
    var c, t := if cc.Some? then cc.value else 0, if tt.Some? then tt.value else 0;
    CatalogLookups(db, c, t);
    FacilitiesStep(db, bucket, user, host, form, c, t, imageUrl, coerce);
  }

  /** The atomic block, once category and room type exist: it succeeds exactly when the
      name is free, every upload succeeds and the user has both names. */
  lemma AtomicStep(db: Db, bucket: seq<string>, user: User, host: Host, form: RoomForm,
                   c: int, t: int, ids: seq<int>, imageUrl: string)
    requires Lookupable(db) && RoomFieldsPresent(form.fields) && HasCategory(db, c) && HasRoomType(db, t)
    ensures Atomic(db, bucket, user, host, form, c, t, ids, imageUrl).response.Status() == 201 <==>
              NameFree(db, form.fields["room_name"]) && AllStored(form.files) && HostName(user).Some?
  {
    CatalogLookups(db, c, t);
    NameLookup(db, form.fields["room_name"]);
    var r := Atomic(db, bucket, user, host, form, c, t, ids, imageUrl);
    if NameFree(db, form.fields["room_name"]) {
      var category := Get(db.categories, CategoryIs(c)).row;
      var roomType := Get(db.roomTypes, RoomTypeIs(t)).row;
      assert r == Commit(db, bucket, user, host, form, category, roomType, ids, imageUrl);
    }
  }

  /** A room registration succeeds exactly when the user is a host, the form passes every
      check, every upload succeeds and the user has both names. */
  lemma RegisterRoomSucceeds(db: Db, bucket: seq<string>, user: User, form: RoomForm,
                             imageUrl: string, coerce: string -> Option<int>)
    requires Valid(db)
    ensures RegisterRoomAs(db, bucket, user, form, imageUrl, coerce).response.Status() == 201 <==>
              && (exists m :: HostRow(db, user, m))
              && RoomRequestOk(db, form, coerce)
              && AllStored(form.files)
              && HostName(user).Some?
  {
    assert Lookupable(db);
    SucceedsWhenLookupable(db, bucket, user, form, imageUrl, coerce);
  }

  /** The host lookup: no host row refuses, the user's host row leads to the key check. */
  lemma HostStep(db: Db, bucket: seq<string>, user: User, form: RoomForm,
                 imageUrl: string, coerce: string -> Option<int>)
    requires HostUsersUnique(db.hosts)
    ensures (forall m :: !HostRow(db, user, m)) ==>
              RegisterRoomAs(db, bucket, user, form, imageUrl, coerce).response.Status() == 403
    ensures forall m | HostRow(db, user, m) ::
              RegisterRoomAs(db, bucket, user, form, imageUrl, coerce)
              == if RoomFieldsPresent(form.fields) then CheckReferences(db, bucket, user, db.hosts[m], form, imageUrl, coerce)
                 else Effect(db, bucket, KeyErrorReply)
  {
    if Any(db.hosts, UserIdIs(user.id)) {
      var i :| 0 <= i < |db.hosts| && UserIdIs(user.id)(db.hosts[i]);
      assert HostRow(db, user, i);
    }
    forall m | HostRow(db, user, m)
      ensures RegisterRoomAs(db, bucket, user, form, imageUrl, coerce)
              == if RoomFieldsPresent(form.fields) then CheckReferences(db, bucket, user, db.hosts[m], form, imageUrl, coerce)
                 else Effect(db, bucket, KeyErrorReply)
    {
      HostFound(db, user, m);
    }
  }

  lemma SucceedsWhenLookupable(db: Db, bucket: seq<string>, user: User, form: RoomForm,
                               imageUrl: string, coerce: string -> Option<int>)
    requires Lookupable(db)
    ensures RegisterRoomAs(db, bucket, user, form, imageUrl, coerce).response.Status() == 201 <==>
              && (exists m :: HostRow(db, user, m))
              && RoomRequestOk(db, form, coerce)
              && AllStored(form.files)
              && HostName(user).Some?
  {
    HostStep(db, bucket, user, form, imageUrl, coerce);
    if exists m :: HostRow(db, user, m) {
      var m :| HostRow(db, user, m);
      if RoomFieldsPresent(form.fields) {
        SucceedsAsHost(db, bucket, user, db.hosts[m], form, imageUrl, coerce);
      }
    }
  }

  /** For the user's host row, what is left of the view succeeds exactly when the form
      passes, the uploads succeed and the user has both names. */
  lemma SucceedsAsHost(db: Db, bucket: seq<string>, user: User, host: Host, form: RoomForm,
                       imageUrl: string, coerce: string -> Option<int>)
    requires Lookupable(db) && RoomFieldsPresent(form.fields)
    ensures CheckReferences(db, bucket, user, host, form, imageUrl, coerce).response.Status() == 201 <==>
              RoomRequestOk(db, form, coerce) && AllStored(form.files) && HostName(user).Some?
  {
    ReferencesStep(db, bucket, user, host, form, imageUrl, coerce);
    if ReferencesOk(db, form, coerce) {
      var c, t := coerce(form.fields["category_id"]).value, coerce(form.fields["room_type_id"]).value;
      AtomicStep(db, bucket, user, host, form, c, t, CoerceAll(form.facilityIds, coerce).value, imageUrl);
    }
  }

  /** The category and the room type a passing form names. */
  function FormCategory(db: Db, form: RoomForm, coerce: string -> Option<int>): Category
    requires RoomFieldsPresent(form.fields) && coerce(form.fields["category_id"]).Some?
  {
    match Get(db.categories, CategoryIs(coerce(form.fields["category_id"]).value))
    case Found(c) => c
    case _ => Category(0, "")
  }

  function FormRoomType(db: Db, form: RoomForm, coerce: string -> Option<int>): RoomType
    requires RoomFieldsPresent(form.fields) && coerce(form.fields["room_type_id"]).Some?
  {
    match Get(db.roomTypes, RoomTypeIs(coerce(form.fields["room_type_id"]).value))
    case Found(t) => t
    case _ => RoomType(0, "")
  }

  /** For a host whose form passes every check, the view comes down to the writes. */
  lemma WritePath(db: Db, bucket: seq<string>, user: User, m: nat, form: RoomForm,
                  imageUrl: string, coerce: string -> Option<int>)
    requires Lookupable(db) && HostRow(db, user, m) && RoomRequestOk(db, form, coerce)
    ensures CoerceAll(form.facilityIds, coerce).Some?
    ensures FormCategory(db, form, coerce).id == coerce(form.fields["category_id"]).value
    ensures FormRoomType(db, form, coerce).id == coerce(form.fields["room_type_id"]).value
    ensures RegisterRoomAs(db, bucket, user, form, imageUrl, coerce)
         == Commit(db, bucket, user, db.hosts[m], form, FormCategory(db, form, coerce), FormRoomType(db, form, coerce),
                   CoerceAll(form.facilityIds, coerce).value, imageUrl)
  {
    HostStep(db, bucket, user, form, imageUrl, coerce);
    ReferencesStep(db, bucket, user, db.hosts[m], form, imageUrl, coerce);
    var c, t := coerce(form.fields["category_id"]).value, coerce(form.fields["room_type_id"]).value;
    CatalogLookups(db, c, t);
    NameLookup(db, form.fields["room_name"]);
  }

  /** The files a registration puts and the Image rows it writes: one per file when every
      upload succeeds. */
  function Uploads(db: Db, host: Host, form: RoomForm, ids: seq<int>, imageUrl: string): Uploaded {
    UploadLoop(db.nextId + 1 + |ids|, host.id, db.nextId, form.files, imageUrl)
  }

  /** The database writes of a registration whose uploads all succeed for a user with both
      names: the room under the next key, its links, its images. */
  lemma CommitWrites(db: Db, bucket: seq<string>, user: User, host: Host, form: RoomForm,
                     category: Category, roomType: RoomType, ids: seq<int>, imageUrl: string)
    requires RoomFieldsPresent(form.fields) && AllStored(form.files) && HostName(user).Some?
    ensures Commit(db, bucket, user, host, form, category, roomType, ids, imageUrl).db
         == InsertRoom(db, NewRoom(db.nextId, form.fields, host.id, category.id, roomType.id),
                       FacilityRows(db.nextId + 1, db.nextId, ids), Uploads(db, host, form, ids, imageUrl).rows)
    ensures |Uploads(db, host, form, ids, imageUrl).rows| == |form.files|
  {
    assert StoredPrefix(form.files) == |form.files|;
  }

  /** The answer of such a registration: the summary of the room, the user's last then
      first name, the catalog names and the URL of each image. */
  lemma CommitAnswers(db: Db, bucket: seq<string>, user: User, host: Host, form: RoomForm,
                      category: Category, roomType: RoomType, ids: seq<int>, imageUrl: string)
    requires RoomFieldsPresent(form.fields) && AllStored(form.files) && HostName(user).Some?
    ensures Commit(db, bucket, user, host, form, category, roomType, ids, imageUrl).response
         == Json(201, "SUCCESS", RoomData(
              Summary(NewRoom(db.nextId, form.fields, host.id, category.id, roomType.id), HostName(user).value,
                      category.name, roomType.name, FacilityNames(db.facilities, ids),
                      Uploads(db, host, form, ids, imageUrl).rows)))
  {
    assert StoredPrefix(form.files) == |form.files|;
  }

  /** The rows and objects of such a registration, one by one: the image rows and the
      bucket keys follow the files in order. */
  lemma CommitRows(db: Db, bucket: seq<string>, user: User, host: Host, form: RoomForm,
                   category: Category, roomType: RoomType, ids: seq<int>, imageUrl: string)
    requires RoomFieldsPresent(form.fields) && AllStored(form.files) && HostName(user).Some?
    ensures var e, n, files := Commit(db, bucket, user, host, form, category, roomType, ids, imageUrl),
                               db.nextId, form.files;
            && |e.db.images| == |db.images| + |files|
            && e.db == InsertRoom(db, NewRoom(n, form.fields, host.id, category.id, roomType.id),
                                  FacilityRows(n + 1, n, ids), e.db.images[|db.images|..])
            && (forall i | 0 <= i < |files| ::
                  e.db.images[|db.images| + i] == Image(n + 1 + |ids| + i, ImageUrl(imageUrl, host.id, files[i].generatedName), n))
            && |e.bucket| == |bucket| + |files|
            && (forall i | 0 <= i < |files| :: e.bucket[|bucket| + i] == ObjectKey(host.id, files[i].generatedName))
  {
    CommitWrites(db, bucket, user, host, form, category, roomType, ids, imageUrl);
    var e := Commit(db, bucket, user, host, form, category, roomType, ids, imageUrl);
    var rows := Uploads(db, host, form, ids, imageUrl).rows;
    assert e.db.images == db.images + rows;
    assert e.db.images[|db.images|..] == rows;
    assert forall i | 0 <= i < |form.files| :: e.db.images[|db.images| + i] == rows[i];
  }

  /** A registration that succeeds writes the room under the next key with the form's
      text, one link per listed facility and one image per file, and puts every file into
      the host's folder. */
  lemma RegisterRoomWrites(db: Db, bucket: seq<string>, user: User, m: nat, form: RoomForm,
                           imageUrl: string, coerce: string -> Option<int>)
    requires Valid(db) && HostRow(db, user, m) && RoomRequestOk(db, form, coerce)
    requires AllStored(form.files) && HostName(user).Some?
    ensures CoerceAll(form.facilityIds, coerce).Some?
    ensures var r := RegisterRoomAs(db, bucket, user, form, imageUrl, coerce);
            var n, host, files := db.nextId, db.hosts[m], form.files;
            var ids := CoerceAll(form.facilityIds, coerce).value;
            && |r.db.images| == |db.images| + |files|
            && r.db == InsertRoom(db,
                 NewRoom(n, form.fields, host.id, coerce(form.fields["category_id"]).value,
                         coerce(form.fields["room_type_id"]).value),
                 FacilityRows(n + 1, n, ids), r.db.images[|db.images|..])
            && (forall i | 0 <= i < |files| ::
                  r.db.images[|db.images| + i] == Image(n + 1 + |ids| + i, ImageUrl(imageUrl, host.id, files[i].generatedName), n))
            && |r.bucket| == |bucket| + |files|
            && (forall i | 0 <= i < |files| :: r.bucket[|bucket| + i] == ObjectKey(host.id, files[i].generatedName))
  {
    assert Lookupable(db);
    WritePath(db, bucket, user, m, form, imageUrl, coerce);
    CommitRows(db, bucket, user, db.hosts[m], form, FormCategory(db, form, coerce), FormRoomType(db, form, coerce),
               CoerceAll(form.facilityIds, coerce).value, imageUrl);
  }

  /** The answer to a registration that succeeds carries the user's last then first name,
      the two address fields joined, and the URL of every image. */
  lemma RegisterRoomAnswers(db: Db, bucket: seq<string>, user: User, m: nat, form: RoomForm,
                            imageUrl: string, coerce: string -> Option<int>)
    requires Valid(db) && HostRow(db, user, m) && RoomRequestOk(db, form, coerce)
    requires AllStored(form.files) && HostName(user).Some?
    ensures var r := RegisterRoomAs(db, bucket, user, form, imageUrl, coerce);
            var host, files := db.hosts[m], form.files;
            && r.response.Json? && r.response.status == 201 && r.response.data.RoomData?
            && r.response.data.info.id == db.nextId
            && r.response.data.info.roomName == form.fields["room_name"]
            && r.response.data.info.hostName == user.lastName.value + user.firstName.value
            && r.response.data.info.address == form.fields["state/province/region"] + form.fields["detail_address"]
            && |r.response.data.info.images| == |files|
            && (forall i | 0 <= i < |files| ::
                  r.response.data.info.images[i] == ImageUrl(imageUrl, host.id, files[i].generatedName))
  {
    assert Lookupable(db);
    WritePath(db, bucket, user, m, form, imageUrl, coerce);
    var ids := CoerceAll(form.facilityIds, coerce).value;
    var category, roomType := FormCategory(db, form, coerce), FormRoomType(db, form, coerce);
    CommitAnswers(db, bucket, user, db.hosts[m], form, category, roomType, ids, imageUrl);
    assert StoredPrefix(form.files) == |form.files|;
    SummaryFields(NewRoom(db.nextId, form.fields, db.hosts[m].id, category.id, roomType.id), HostName(user).value,
                  category.name, roomType.name, FacilityNames(db.facilities, ids),
                  Uploads(db, db.hosts[m], form, ids, imageUrl).rows);
  }

  /** The summary shows the room's key, name and joined address, and the URL of each
      image in order. */
  lemma SummaryFields(room: Room, hostName: string, category: string, roomType: string,
                      facilities: seq<string>, images: seq<Image>)
    ensures var info := Summary(room, hostName, category, roomType, facilities, images);
            && info.id == room.id && info.roomName == room.name && info.hostName == hostName
            && info.address == room.address + room.detailAddress
            && |info.images| == |images|
            && forall i | 0 <= i < |images| :: info.images[i] == images[i].url
  {
  }

  /** Every room registration keeps the store consistent: a room has a host, a category,
      a room type and a unique name, every link and image points at a room. */
  lemma RegisterRoomKeepsInvariants(db: Db, bucket: seq<string>, user: User, form: RoomForm,
                                    imageUrl: string, coerce: string -> Option<int>)
    requires Valid(db)
    ensures Valid(RegisterRoomAs(db, bucket, user, form, imageUrl, coerce).db)
  {
    var r := RegisterRoomAs(db, bucket, user, form, imageUrl, coerce);
    if r.response.Status() == 201 {
      RegisterRoomSucceeds(db, bucket, user, form, imageUrl, coerce);
      var m :| HostRow(db, user, m);
      assert Lookupable(db);
      WritePath(db, bucket, user, m, form, imageUrl, coerce);
      var host := db.hosts[m];
      var category, roomType := FormCategory(db, form, coerce), FormRoomType(db, form, coerce);
      var ids := CoerceAll(form.facilityIds, coerce).value;
      CommitWrites(db, bucket, user, host, form, category, roomType, ids, imageUrl);
      RowsInsertable(db, m, form, coerce, imageUrl);
      InsertRoomValid(db, NewRoom(db.nextId, form.fields, host.id, category.id, roomType.id),
                      FacilityRows(db.nextId + 1, db.nextId, ids), Uploads(db, host, form, ids, imageUrl).rows);
    }
  }

  /** The rows a registration of a passing form writes meet what the store's consistency
      needs. */
  lemma RowsInsertable(db: Db, m: nat, form: RoomForm, coerce: string -> Option<int>, imageUrl: string)
    requires Lookupable(db) && 0 <= m < |db.hosts| && RoomRequestOk(db, form, coerce) && AllStored(form.files)
    ensures CoerceAll(form.facilityIds, coerce).Some?
    ensures var host, ids := db.hosts[m], CoerceAll(form.facilityIds, coerce).value;
            RoomInsertable(db, NewRoom(db.nextId, form.fields, host.id, FormCategory(db, form, coerce).id,
                                       FormRoomType(db, form, coerce).id),
                           FacilityRows(db.nextId + 1, db.nextId, ids), Uploads(db, host, form, ids, imageUrl).rows)
  {
    FormReferencesExist(db, form, coerce);
    var host, ids := db.hosts[m], CoerceAll(form.facilityIds, coerce).value;
    var room := NewRoom(db.nextId, form.fields, host.id, FormCategory(db, form, coerce).id, FormRoomType(db, form, coerce).id);
    var links := FacilityRows(db.nextId + 1, db.nextId, ids);
    var images := Uploads(db, host, form, ids, imageUrl).rows;
    assert StoredPrefix(form.files) == |form.files|;
    assert HasHost(db, room.hostId) by {
      assert db.hosts[m].id == room.hostId;
    }
    LinkRowsExist(db, ids);
    LinksInsertable(db, room, links, images);
  }

  /** A new room under the next key, with existing references and a free name, its links
      to existing facilities and its images numbered after the links, can be inserted. */
  lemma LinksInsertable(db: Db, room: Room, links: seq<RoomFacility>, images: seq<Image>)
    requires room.id == db.nextId && NameFree(db, room.name)
    requires HasHost(db, room.hostId) && HasCategory(db, room.categoryId) && HasRoomType(db, room.roomTypeId)
    requires forall i | 0 <= i < |links| ::
               links[i].id == db.nextId + 1 + i && links[i].roomId == room.id && HasFacility(db, links[i].facilityId)
    requires forall i | 0 <= i < |images| :: images[i].id == db.nextId + 1 + |links| + i && images[i].roomId == room.id
    ensures RoomInsertable(db, room, links, images)
  {
    assert forall i | 0 <= i < |db.rooms| :: db.rooms[i].name != room.name;
  }

  /** The links of a new room point at it, follow its key and name existing facilities. */
  lemma LinkRowsExist(db: Db, ids: seq<int>)
    requires forall i | 0 <= i < |ids| :: HasFacility(db, ids[i])
    ensures var links := FacilityRows(db.nextId + 1, db.nextId, ids);
            && |links| == |ids|
            && forall i | 0 <= i < |links| ::
                 links[i].id == db.nextId + 1 + i && links[i].roomId == db.nextId && HasFacility(db, links[i].facilityId)
  {
    var links := FacilityRows(db.nextId + 1, db.nextId, ids);
    forall i | 0 <= i < |links|
      ensures HasFacility(db, links[i].facilityId)
    {
      assert links[i].facilityId == ids[i];
    }
  }

  /** The category, the room type and the facilities a passing form names are rows of the
      store. */
  lemma FormReferencesExist(db: Db, form: RoomForm, coerce: string -> Option<int>)
    requires CatalogIndexed(db) && RoomRequestOk(db, form, coerce)
    ensures CoerceAll(form.facilityIds, coerce).Some?
    ensures HasCategory(db, FormCategory(db, form, coerce).id)
    ensures HasRoomType(db, FormRoomType(db, form, coerce).id)
    ensures var ids := CoerceAll(form.facilityIds, coerce).value;
            forall i | 0 <= i < |ids| :: HasFacility(db, ids[i])
  {
    var c, t := coerce(form.fields["category_id"]).value, coerce(form.fields["room_type_id"]).value;
    CatalogLookups(db, c, t);
    FacilityIdsOk(db, form, coerce);
    var ids := CoerceAll(form.facilityIds, coerce).value;
    forall i | 0 <= i < |ids|
      ensures HasFacility(db, ids[i])
    {
      assert coerce(form.facilityIds[i]) == Some(ids[i]);
    }
  }

  /** A host's form that passes the checks but whose upload fails, or whose user lacks a
      name, leaves the database as it was; the files put before the failure stay in the
      bucket. */
  lemma RegisterRoomRollsBack(db: Db, bucket: seq<string>, user: User, m: nat, form: RoomForm,
                              imageUrl: string, coerce: string -> Option<int>)
    requires Valid(db) && HostRow(db, user, m) && RoomRequestOk(db, form, coerce)
    requires !AllStored(form.files) || HostName(user).None?
    ensures var r := RegisterRoomAs(db, bucket, user, form, imageUrl, coerce);
            var files := form.files;
            && r.db == db
            && r.response == Uncaught(if AllStored(files) then "TypeError" else "UploadError")
            && |r.bucket| == |bucket| + StoredPrefix(files)
            && r.bucket[..|bucket|] == bucket
            && (forall i | 0 <= i < StoredPrefix(files) ::
                  r.bucket[|bucket| + i] == ObjectKey(db.hosts[m].id, files[i].generatedName))
  {
    assert Lookupable(db);
    WritePath(db, bucket, user, m, form, imageUrl, coerce);
    if AllStored(form.files) {
      assert StoredPrefix(form.files) == |form.files|;
    }
  }

  /** A host's form whose room name is taken is answered 409 and changes nothing, neither
      the database nor the bucket. */
  lemma RoomNameTaken(db: Db, bucket: seq<string>, user: User, m: nat, form: RoomForm,
                      imageUrl: string, coerce: string -> Option<int>)
    requires Valid(db) && HostRow(db, user, m) && ReferencesOk(db, form, coerce)
    requires !NameFree(db, form.fields["room_name"])
    ensures RegisterRoomAs(db, bucket, user, form, imageUrl, coerce)
            == Effect(db, bucket, Reply(409, "ROOM_NAME_ALREADY_EXIST"))
  {
    assert Lookupable(db);
    HostStep(db, bucket, user, form, imageUrl, coerce);
    ReferencesStep(db, bucket, user, db.hosts[m], form, imageUrl, coerce);
    var c, t := coerce(form.fields["category_id"]).value, coerce(form.fields["room_type_id"]).value;
    CatalogLookups(db, c, t);
    NameLookup(db, form.fields["room_name"]);
  }

  /** A form refused before the atomic block changes nothing, neither the database nor
      the bucket. */
  lemma RegisterRoomRefuses(db: Db, bucket: seq<string>, user: User, form: RoomForm,
                            imageUrl: string, coerce: string -> Option<int>)
    requires Valid(db)
    requires (forall m :: !HostRow(db, user, m)) || !ReferencesOk(db, form, coerce)
    ensures var r := RegisterRoomAs(db, bucket, user, form, imageUrl, coerce);
            r.db == db && r.bucket == bucket && r.response.Status() != 201
  {
    assert Lookupable(db);
    HostStep(db, bucket, user, form, imageUrl, coerce);
    if exists m :: HostRow(db, user, m) {
      var m :| HostRow(db, user, m);
      if RoomFieldsPresent(form.fields) {
        ReferencesStep(db, bucket, user, db.hosts[m], form, imageUrl, coerce);
        RefusedBeforeAtomic(db, bucket, user, db.hosts[m], form, imageUrl, coerce);
      }
    }
  }

  /** For a host whose form holds every key, the reference checks answer in the source's
      order: a category id that converts but names no category is answered 404 first, then
      such a room type id, then a facility list that converts but names a missing facility
      or one facility twice; each changes neither the database nor the bucket. */
  lemma ReferenceRefusals(db: Db, bucket: seq<string>, user: User, m: nat, form: RoomForm,
                          imageUrl: string, coerce: string -> Option<int>)
    requires Valid(db) && HostRow(db, user, m) && RoomFieldsPresent(form.fields)
    ensures var r, c, t := RegisterRoomAs(db, bucket, user, form, imageUrl, coerce),
                           coerce(form.fields["category_id"]), coerce(form.fields["room_type_id"]);
            && (c.Some? && !HasCategory(db, c.value) ==>
                  r == Effect(db, bucket, Reply(404, "CATEGORY_DOES_NOT_EXIST")))
            && (c.Some? && HasCategory(db, c.value) && t.Some? && !HasRoomType(db, t.value) ==>
                  r == Effect(db, bucket, Reply(404, "ROOM_TYPE_DOES_NOT_EXIST")))
            && (c.Some? && HasCategory(db, c.value) && t.Some? && HasRoomType(db, t.value)
                && CoerceAll(form.facilityIds, coerce).Some? && !FacilitiesOk(db, form, coerce) ==>
                  r == Effect(db, bucket, Reply(404, "FACILITY_DOES_NOT_EXIST")))
  {
    assert HostUsersUnique(db.hosts) && CatalogIndexed(db);
    HostStep(db, bucket, user, form, imageUrl, coerce);
    assert RegisterRoomAs(db, bucket, user, form, imageUrl, coerce)
        == CheckReferences(db, bucket, user, db.hosts[m], form, imageUrl, coerce);
    var c, t := coerce(form.fields["category_id"]), coerce(form.fields["room_type_id"]);
    CatalogLookups(db, if c.Some? then c.value else 0, if t.Some? then t.value else 0);
    FacilityIdsOk(db, form, coerce);
  }

  /** The reference checks refuse without touching the bucket. */
  lemma RefusedBeforeAtomic(db: Db, bucket: seq<string>, user: User, host: Host, form: RoomForm,
                            imageUrl: string, coerce: string -> Option<int>)
    requires CatalogIndexed(db) && RoomFieldsPresent(form.fields) && !ReferencesOk(db, form, coerce)
    ensures CheckReferences(db, bucket, user, host, form, imageUrl, coerce).bucket == bucket
  {
    var cc, tt := coerce(form.fields["category_id"]), coerce(form.fields["room_type_id"]);
    CatalogLookups(db, if cc.Some? then cc.value else 0, if tt.Some? then tt.value else 0);
    if cc.Some? && HasCategory(db, cc.value) && tt.Some? && HasRoomType(db, tt.value) {
      FacilityIdsOk(db, form, coerce);
    }
  }
}
