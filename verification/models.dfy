/** The rows the views read and write, and the database as one value. `User` follows
    users/models.py; Host, Room, the catalogs (Category, RoomType, Facility), RoomFacility and
    Image carry the columns the views use (their model files are not part of this model).
    Every table is the sequence of its rows in primary-key order; one counter hands out
    fresh primary keys. */
module Models {
  import opened Common

  /** `point` defaults to Decimal('100000.00'); the model counts hundredths. */
  const DefaultPoint: int := 10_000_000

  /** users/models.py: every column but `email` and `point` may be NULL; `email` is unique,
      and so is `kakao_id` where it is set; `phone_number` carries no constraint. */
  datatype User = User(
    id: nat,
    firstName: Option<string>,
    lastName: Option<string>,
    email: string,
    password: Option<string>,
    kakaoId: Option<int>,
    kakaoProfileImg: Option<string>,
    phoneNumber: Option<string>,
    birthDay: Option<string>,
    point: int)

  /** The capability of a user to register rooms. */
  datatype Host = Host(id: nat, userId: nat)

  datatype Category = Category(id: nat, name: string)

  datatype RoomType = RoomType(id: nat, name: string)

  datatype Facility = Facility(id: nat, name: string)

  /** The attributes arrive as form text and are kept as that text. */
  datatype Room = Room(
    id: nat,
    name: string,
    address: string,
    detailAddress: string,
    price: string,
    description: string,
    latitude: string,
    longitude: string,
    maximumOccupancy: string,
    bedroom: string,
    bathroom: string,
    bed: string,
    hostId: nat,
    categoryId: int,
    roomTypeId: int)

  datatype RoomFacility = RoomFacility(id: nat, roomId: nat, facilityId: int)

  datatype Image = Image(id: nat, url: string, roomId: nat)

  datatype Db = Db(
    users: seq<User>,
    hosts: seq<Host>,
    categories: seq<Category>,
    roomTypes: seq<RoomType>,
    facilities: seq<Facility>,
    rooms: seq<Room>,
    roomFacilities: seq<RoomFacility>,
    images: seq<Image>,
    nextId: nat)

  function UserId(u: User): nat { u.id }
  function HostId(h: Host): nat { h.id }
  function CategoryId(c: Category): nat { c.id }
  function RoomTypeId(t: RoomType): nat { t.id }
  function FacilityId(f: Facility): nat { f.id }
  function RoomId(r: Room): nat { r.id }
  function RoomFacilityId(rf: RoomFacility): nat { rf.id }
  function ImageId(i: Image): nat { i.id }

  /** Primary keys are distinct and below the counter. */
  predicate KeysOk<R>(rows: seq<R>, key: R -> nat, next: nat) {
    && (forall i | 0 <= i < |rows| :: key(rows[i]) < next)
    && (forall i, j | 0 <= i < j < |rows| :: key(rows[i]) != key(rows[j]))
  }

  /** Rows appended with keys counted up from the old counter keep the keys sound. */
  lemma KeysOkAppend<R>(rows: seq<R>, extra: seq<R>, key: R -> nat, next: nat, next': nat)
    requires KeysOk(rows, key, next)
    requires forall i | 0 <= i < |extra| :: key(extra[i]) == next + i
    requires next + |extra| <= next'
    ensures KeysOk(rows + extra, key, next')
  {
    var all := rows + extra;
    forall i, j | 0 <= i < j < |all|
      ensures key(all[i]) != key(all[j])
    {
      if j < |rows| {
        assert all[i] == rows[i] && all[j] == rows[j];
      } else if i < |rows| {
        assert key(all[i]) < next;
        assert all[j] == extra[j - |rows|];
      } else {
        assert all[i] == extra[i - |rows|] && all[j] == extra[j - |rows|];
      }
    }
  }

  predicate EmailsUnique(users: seq<User>) {
    forall i, j | 0 <= i < j < |users| :: users[i].email != users[j].email
  }

  predicate KakaoIdsUnique(users: seq<User>) {
    forall i, j | 0 <= i < j < |users| :: users[i].kakaoId.Some? ==> users[i].kakaoId != users[j].kakaoId
  }

  /** No two users share a phone number; the schema does not demand it, the views keep it. */
  predicate PhonesUnique(users: seq<User>) {
    forall i, j | 0 <= i < j < |users| :: users[i].phoneNumber.Some? ==> users[i].phoneNumber != users[j].phoneNumber
  }

  predicate HostUsersUnique(hosts: seq<Host>) {
    forall i, j | 0 <= i < j < |hosts| :: hosts[i].userId != hosts[j].userId
  }

  predicate RoomNamesUnique(rooms: seq<Room>) {
    forall i, j | 0 <= i < j < |rooms| :: rooms[i].name != rooms[j].name
  }

  predicate HasUser(db: Db, id: int) { exists k | 0 <= k < |db.users| :: db.users[k].id == id }
  predicate HasHost(db: Db, id: int) { exists k | 0 <= k < |db.hosts| :: db.hosts[k].id == id }
  predicate HasCategory(db: Db, id: int) { exists k | 0 <= k < |db.categories| :: db.categories[k].id == id }
  predicate HasRoomType(db: Db, id: int) { exists k | 0 <= k < |db.roomTypes| :: db.roomTypes[k].id == id }
  predicate HasFacility(db: Db, id: int) { exists k | 0 <= k < |db.facilities| :: db.facilities[k].id == id }
  predicate HasRoom(db: Db, id: int) { exists k | 0 <= k < |db.rooms| :: db.rooms[k].id == id }

  predicate KeysValid(db: Db) {
    && KeysOk(db.users, UserId, db.nextId)
    && KeysOk(db.hosts, HostId, db.nextId)
    && KeysOk(db.categories, CategoryId, db.nextId)
    && KeysOk(db.roomTypes, RoomTypeId, db.nextId)
    && KeysOk(db.facilities, FacilityId, db.nextId)
    && KeysOk(db.rooms, RoomId, db.nextId)
    && KeysOk(db.roomFacilities, RoomFacilityId, db.nextId)
    && KeysOk(db.images, ImageId, db.nextId)
  }

  /** The unique and foreign-key constraints of the schema. */
  predicate ConstraintsHold(db: Db) {
    && EmailsUnique(db.users)
    && KakaoIdsUnique(db.users)
    && HostUsersUnique(db.hosts)
    && (forall i | 0 <= i < |db.hosts| :: HasUser(db, db.hosts[i].userId))
    && RoomNamesUnique(db.rooms)
    && (forall i | 0 <= i < |db.rooms| :: HasHost(db, db.rooms[i].hostId))
    && (forall i | 0 <= i < |db.rooms| :: HasCategory(db, db.rooms[i].categoryId))
    && (forall i | 0 <= i < |db.rooms| :: HasRoomType(db, db.rooms[i].roomTypeId))
    && (forall i | 0 <= i < |db.roomFacilities| :: HasRoom(db, db.roomFacilities[i].roomId))
    && (forall i | 0 <= i < |db.roomFacilities| :: HasFacility(db, db.roomFacilities[i].facilityId))
    && (forall i | 0 <= i < |db.images| :: HasRoom(db, db.images[i].roomId))
  }

  predicate Valid(db: Db) {
    KeysValid(db) && ConstraintsHold(db)
  }

  /** A user as `User.objects.create` leaves it: unset columns NULL, `point` at its default. */
  function CreatedUser(id: nat, email: string): (u: User)
    ensures u.id == id && u.email == email && u.point == DefaultPoint
    ensures u.firstName.None? && u.lastName.None? && u.password.None? && u.kakaoId.None?
    ensures u.kakaoProfileImg.None? && u.phoneNumber.None? && u.birthDay.None?
  {
    User(id, None, None, email, None, None, None, None, None, DefaultPoint)
  }

  /** `INSERT` of a user row under the next primary key. */
  function InsertUser(db: Db, u: User): Db
    requires u.id == db.nextId
  {
    db.(users := db.users + [u], nextId := db.nextId + 1)
  }

  /** A new user whose email is not taken keeps every constraint. */
  lemma InsertUserValid(db: Db, u: User)
    requires Valid(db) && u.id == db.nextId
    requires forall i | 0 <= i < |db.users| :: db.users[i].email != u.email
    requires u.kakaoId.Some? ==> forall i | 0 <= i < |db.users| :: db.users[i].kakaoId != u.kakaoId
    ensures Valid(InsertUser(db, u))
  {
    var db' := InsertUser(db, u);
    KeysOkAppend(db.users, [u], UserId, db.nextId, db'.nextId);
    KeysOkWiden(db.hosts, HostId, db.nextId, db'.nextId);
    KeysOkWiden(db.categories, CategoryId, db.nextId, db'.nextId);
    KeysOkWiden(db.roomTypes, RoomTypeId, db.nextId, db'.nextId);
    KeysOkWiden(db.facilities, FacilityId, db.nextId, db'.nextId);
    KeysOkWiden(db.rooms, RoomId, db.nextId, db'.nextId);
    KeysOkWiden(db.roomFacilities, RoomFacilityId, db.nextId, db'.nextId);
    KeysOkWiden(db.images, ImageId, db.nextId, db'.nextId);
    InsertUserConstraints(db, u);
  }

  lemma InsertUserConstraints(db: Db, u: User)
    requires Valid(db) && u.id == db.nextId
    requires forall i | 0 <= i < |db.users| :: db.users[i].email != u.email
    requires u.kakaoId.Some? ==> forall i | 0 <= i < |db.users| :: db.users[i].kakaoId != u.kakaoId
    ensures ConstraintsHold(InsertUser(db, u))
  {
    var db' := InsertUser(db, u);
    assert db'.users == db.users + [u];
    forall i | 0 <= i < |db.hosts|
      ensures HasUser(db', db.hosts[i].userId)
    {
      assert HasUser(db, db.hosts[i].userId);
      var k :| 0 <= k < |db.users| && db.users[k].id == db.hosts[i].userId;
      assert db'.users[k] == db.users[k];
    }
  }

  /** `save()` of an existing user: every row with that primary key takes the new values. */
  function SaveUser(users: seq<User>, u: User): seq<User> {
    seq(|users|, i requires 0 <= i < |users| => if users[i].id == u.id then u else users[i])
  }

  /** Saving a user under its own key with the same e-mail and Kakao id keeps every
      constraint: other tables do not change and keys stay as they were. */
  lemma SaveUserValid(db: Db, k: nat, u: User)
    requires Valid(db) && k < |db.users|
    requires u.id == db.users[k].id && u.email == db.users[k].email && u.kakaoId == db.users[k].kakaoId
    ensures Valid(db.(users := SaveUser(db.users, u)))
    ensures forall i | 0 <= i < |db.users| && i != k :: SaveUser(db.users, u)[i] == db.users[i]
    ensures SaveUser(db.users, u)[k] == u
  {
    var users' := SaveUser(db.users, u);
    var db' := db.(users := users');
    forall i | 0 <= i < |db.users| && i != k
      ensures users'[i] == db.users[i]
    {
      if i < k {
        assert UserId(db.users[i]) != UserId(db.users[k]);
      } else {
        assert UserId(db.users[k]) != UserId(db.users[i]);
      }
    }
    assert KeysOk(users', UserId, db.nextId);
    forall i | 0 <= i < |db.hosts|
      ensures HasUser(db', db.hosts[i].userId)
    {
      var m :| 0 <= m < |db.users| && db.users[m].id == db.hosts[i].userId;
      assert users'[m].id == db.users[m].id;
    }
  }

  /** A larger counter keeps the keys sound. */
  lemma KeysOkWiden<R>(rows: seq<R>, key: R -> nat, next: nat, next': nat)
    requires KeysOk(rows, key, next) && next <= next'
    ensures KeysOk(rows, key, next')
  {
  }

  /** `INSERT` of a host row for a user under the next primary key. */
  function InsertHost(db: Db, userId: nat): Db {
    db.(hosts := db.hosts + [Host(db.nextId, userId)], nextId := db.nextId + 1)
  }

  /** Advancing the counter by one keeps the keys of every table sound. */
  lemma AdvanceKeys(db: Db, db': Db)
    requires KeysValid(db) && db'.nextId == db.nextId + 1
    requires db'.users == db.users && db'.categories == db.categories && db'.roomTypes == db.roomTypes
    requires db'.facilities == db.facilities && db'.rooms == db.rooms
    requires db'.roomFacilities == db.roomFacilities && db'.images == db.images
    requires KeysOk(db'.hosts, HostId, db'.nextId)
    ensures KeysValid(db')
  {
    KeysOkWiden(db.users, UserId, db.nextId, db'.nextId);
    KeysOkWiden(db.categories, CategoryId, db.nextId, db'.nextId);
    KeysOkWiden(db.roomTypes, RoomTypeId, db.nextId, db'.nextId);
    KeysOkWiden(db.facilities, FacilityId, db.nextId, db'.nextId);
    KeysOkWiden(db.rooms, RoomId, db.nextId, db'.nextId);
    KeysOkWiden(db.roomFacilities, RoomFacilityId, db.nextId, db'.nextId);
    KeysOkWiden(db.images, ImageId, db.nextId, db'.nextId);
  }

  /** A host for an existing user who is not yet a host keeps every constraint. */
  lemma InsertHostValid(db: Db, k: nat)
    requires Valid(db) && k < |db.users|
    requires forall i | 0 <= i < |db.hosts| :: db.hosts[i].userId != db.users[k].id
    ensures Valid(InsertHost(db, db.users[k].id))
  {
    var db' := InsertHost(db, db.users[k].id);
    KeysOkAppend(db.hosts, [Host(db.nextId, db.users[k].id)], HostId, db.nextId, db'.nextId);
    AdvanceKeys(db, db');
    InsertHostConstraints(db, k);
  }

  lemma InsertHostConstraints(db: Db, k: nat)
    requires Valid(db) && k < |db.users|
    requires forall i | 0 <= i < |db.hosts| :: db.hosts[i].userId != db.users[k].id
    ensures ConstraintsHold(InsertHost(db, db.users[k].id))
  {
    var db' := InsertHost(db, db.users[k].id);
    forall i | 0 <= i < |db.rooms|
      ensures HasHost(db', db.rooms[i].hostId)
    {
      assert HasHost(db, db.rooms[i].hostId);
      var m :| 0 <= m < |db.hosts| && db.hosts[m].id == db.rooms[i].hostId;
      assert db'.hosts[m] == db.hosts[m];
    }
    forall i | 0 <= i < |db'.hosts|
      ensures HasUser(db', db'.hosts[i].userId)
    {
      if i < |db.hosts| {
        assert db'.hosts[i] == db.hosts[i];
      } else {
        assert db'.users[k].id == db'.hosts[i].userId;
      }
    }
  }

  /** The rows one room registration writes: the room, then its facility links, then its
      images, under consecutive fresh keys. */
  function InsertRoom(db: Db, room: Room, links: seq<RoomFacility>, images: seq<Image>): Db {
    db.(rooms := db.rooms + [room],
        roomFacilities := db.roomFacilities + links,
        images := db.images + images,
        nextId := db.nextId + 1 + |links| + |images|)
  }

  /** What a room registration must guarantee of the rows it writes for the store to stay
      consistent. */
  predicate RoomInsertable(db: Db, room: Room, links: seq<RoomFacility>, images: seq<Image>) {
    && room.id == db.nextId
    && (forall i | 0 <= i < |db.rooms| :: db.rooms[i].name != room.name)
    && HasHost(db, room.hostId) && HasCategory(db, room.categoryId) && HasRoomType(db, room.roomTypeId)
    && (forall i | 0 <= i < |links| ::
          links[i].id == db.nextId + 1 + i && links[i].roomId == room.id && HasFacility(db, links[i].facilityId))
    && (forall i | 0 <= i < |images| ::
          images[i].id == db.nextId + 1 + |links| + i && images[i].roomId == room.id)
  }

  lemma InsertRoomKeys(db: Db, room: Room, links: seq<RoomFacility>, images: seq<Image>)
    requires KeysValid(db) && RoomInsertable(db, room, links, images)
    ensures KeysValid(InsertRoom(db, room, links, images))
  {
    var db' := InsertRoom(db, room, links, images);
    var n, n' := db.nextId, db'.nextId;
    KeysOkWiden(db.users, UserId, n, n');
    KeysOkWiden(db.hosts, HostId, n, n');
    KeysOkWiden(db.categories, CategoryId, n, n');
    KeysOkWiden(db.roomTypes, RoomTypeId, n, n');
    KeysOkWiden(db.facilities, FacilityId, n, n');
    KeysOkAppend(db.rooms, [room], RoomId, n, n');
    KeysOkWiden(db.roomFacilities, RoomFacilityId, n, n + 1);
    KeysOkAppend(db.roomFacilities, links, RoomFacilityId, n + 1, n');
    KeysOkWiden(db.images, ImageId, n, n + 1 + |links|);
    KeysOkAppend(db.images, images, ImageId, n + 1 + |links|, n');
  }

  lemma InsertRoomConstraints(db: Db, room: Room, links: seq<RoomFacility>, images: seq<Image>)
    requires ConstraintsHold(db) && RoomInsertable(db, room, links, images)
    ensures ConstraintsHold(InsertRoom(db, room, links, images))
  {
    var db' := InsertRoom(db, room, links, images);
    assert RoomNamesUnique(db'.rooms) by {
      forall i, j | 0 <= i < j < |db'.rooms|
        ensures db'.rooms[i].name != db'.rooms[j].name
      {
        assert db'.rooms[i] == db.rooms[i];
      }
    }
    forall i | 0 <= i < |db'.rooms|
      ensures HasHost(db', db'.rooms[i].hostId) && HasCategory(db', db'.rooms[i].categoryId)
              && HasRoomType(db', db'.rooms[i].roomTypeId)
    {
      if i < |db.rooms| {
        assert db'.rooms[i] == db.rooms[i];
      }
    }
    InsertRoomLinks(db, room, links, images);
  }

  /** After a registration every link and image, old or new, points at a room and every
      link at a facility. */
  lemma InsertRoomLinks(db: Db, room: Room, links: seq<RoomFacility>, images: seq<Image>)
    requires ConstraintsHold(db) && RoomInsertable(db, room, links, images)
    ensures var db' := InsertRoom(db, room, links, images);
            && (forall i | 0 <= i < |db'.roomFacilities| ::
                  HasRoom(db', db'.roomFacilities[i].roomId) && HasFacility(db', db'.roomFacilities[i].facilityId))
            && (forall i | 0 <= i < |db'.images| :: HasRoom(db', db'.images[i].roomId))
  {
    var db' := InsertRoom(db, room, links, images);
    assert HasRoom(db', room.id) by {
      assert db'.rooms[|db.rooms|] == room;
    }
    forall id | HasRoom(db, id)
      ensures HasRoom(db', id)
    {
      var m :| 0 <= m < |db.rooms| && db.rooms[m].id == id;
      assert db'.rooms[m] == db.rooms[m];
    }
    forall i | 0 <= i < |db'.roomFacilities|
      ensures HasRoom(db', db'.roomFacilities[i].roomId) && HasFacility(db', db'.roomFacilities[i].facilityId)
    {
      if i < |db.roomFacilities| {
        assert db'.roomFacilities[i] == db.roomFacilities[i];
      } else {
        assert db'.roomFacilities[i] == links[i - |db.roomFacilities|];
      }
    }
    forall i | 0 <= i < |db'.images|
      ensures HasRoom(db', db'.images[i].roomId)
    {
      if i < |db.images| {
        assert db'.images[i] == db.images[i];
      } else {
        assert db'.images[i] == images[i - |db.images|];
      }
    }
  }

  /** A registration that writes insertable rows keeps every constraint. */
  lemma InsertRoomValid(db: Db, room: Room, links: seq<RoomFacility>, images: seq<Image>)
    requires Valid(db) && RoomInsertable(db, room, links, images)
    ensures Valid(InsertRoom(db, room, links, images))
  {
    InsertRoomKeys(db, room, links, images);
    InsertRoomConstraints(db, room, links, images);
  }
}
