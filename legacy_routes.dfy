/** The older server: app.py and routes/auth.py, routes/groups.py and
    routes/photos.py. app.py's `register`, `create_group` and `join_group`
    behave exactly like those of the routes directory (app.py returns from inside
    the branches, routes/auth.py sets `result` and `status_code` first), so
    each is modelled once here. */
module LegacyRoutes {
  import opened Wrappers
  import opened Http
  import opened FileRules
  import opened GroupCodes
  import opened Ordering
  import S = Store
  import opened LegacyStore

  /** `register` by phone, a lookup-or-insert: an existing phone answers 200
      with that user's id and stores nothing, a new phone gets one row and
      201 with its id. */
  method RegisterByPhone(db: Database, req: Request) returns (status: int, userId: Option<nat>)
    requires db.Valid()
    modifies db
    ensures db.Valid()
    ensures status == UnsupportedMediaType <==> !req.isJson
    ensures status == BadRequest <==> req.isJson && !Given(Field(req, "phone_number"))
    ensures status in {UnsupportedMediaType, BadRequest, OK, Created}
    ensures status != Created ==> unchanged(db)
    ensures status in {OK, Created} ==> req.isJson && Given(Field(req, "phone_number"))
    ensures status == OK <==>
              req.isJson && Given(Field(req, "phone_number"))
              && FindUserByPhone(old(db.users.rows), Text(req, "phone_number")).Some?
    ensures status == OK ==> userId == Some(FindUserByPhone(old(db.users.rows), Text(req, "phone_number")).value.id)
    ensures status == Created ==>
              && userId == Some(old(db.users.nextId))
              && db.users == S.Insert(old(db.users), User(old(db.users.nextId), Text(req, "phone_number")))
              && unchanged(db`groups, db`members, db`photos)
    ensures status !in {OK, Created} ==> userId.None?
  {
    if !req.isJson {
      return UnsupportedMediaType, None;
    }
    var phone := Field(req, "phone_number");
    if !Given(phone) {
      return BadRequest, None;
    }
    var existing := FindUserByPhone(db.users.rows, phone.value);
    if existing.Some? {
      return OK, Some(existing.value.id);
    }
    var row := User(db.users.nextId, phone.value);
    S.InsertKeepsKeysFresh(db.users, UserId, row);
    db.users := S.Insert(db.users, row);
    return Created, Some(row.id);
  }

  /** Registering a new phone makes the next lookup find the new row, so a
      repeated call answers 200 with the same id. */
  lemma RegisterIdempotent(users: seq<User>, row: User)
    requires FindUserByPhone(users, row.phone).None?
    ensures FindUserByPhone(users + [row], row.phone) == Some(row)
  {
    var s := users + [row];
    assert forall i :: 0 <= i < |users| ==> s[i] == users[i];
    assert s[|users|] == row;
  }

  /** `create_group`: no request checks; draw until a code is unused, then
      one group with that code (`created_by` is not set). */
  method CreateGroup(db: Database, draws: seq<seq<nat>>) returns (status: int, code: string)
    requires forall i :: 0 <= i < |draws| ==> ValidPicks(draws[i])
    requires exists i :: 0 <= i < |draws| && GenerateGroupCode(draws[i]) !in Codes(db.groups.rows)
    requires db.Valid()
    modifies db
    ensures db.Valid()
    ensures status == Created
    ensures IsGroupCode(code) && forall g :: g in old(db.groups.rows) ==> g.code != code
    ensures db.groups == S.Insert(old(db.groups), Group(old(db.groups.nextId), code))
    ensures unchanged(db`users, db`members, db`photos)
  {
    var tries;
    code, tries := DrawUnusedCode(Codes(db.groups.rows), draws);
    forall g | g in db.groups.rows ensures g.code != code {
      var i :| 0 <= i < |db.groups.rows| && db.groups.rows[i] == g;
      assert Codes(db.groups.rows)[i] == g.code;
    }
    var group := Group(db.groups.nextId, code);
    S.InsertKeepsKeysFresh(db.groups, GroupId, group);
    var s := db.groups.rows + [group];
    forall i, j | 0 <= i < j < |s| ensures s[i].code != s[j].code {
      if j == |db.groups.rows| {
        assert s[i] in db.groups.rows;
      }
    }
    db.groups := S.Insert(db.groups, group);
    return Created, code;
  }

  /** `join_group`: 415, 400 and 404 before any insert; then a membership
      row, whether or not the user already has one. */
  method JoinGroup(db: Database, req: Request) returns (status: int)
    requires db.Valid()
    modifies db
    ensures db.Valid()
    ensures status == UnsupportedMediaType <==> !req.isJson
    ensures status == BadRequest <==>
              req.isJson && !(Given(Field(req, "user_id")) && Given(Field(req, "group_code")))
    ensures status == NotFound <==>
              && req.isJson && Given(Field(req, "user_id")) && Given(Field(req, "group_code"))
              && FindGroupByCode(old(db.groups.rows), Text(req, "group_code")).None?
    ensures status == ServerError <==>
              && req.isJson && Given(Field(req, "user_id")) && Given(Field(req, "group_code"))
              && FindGroupByCode(old(db.groups.rows), Text(req, "group_code")).Some?
              && IdOf(Field(req, "user_id")).None?
    ensures status in {UnsupportedMediaType, BadRequest, NotFound, ServerError, OK}
    ensures status != OK ==> unchanged(db)
    ensures status == OK ==>
              && FindGroupByCode(old(db.groups.rows), Text(req, "group_code")).Some?
              && IdOf(Field(req, "user_id")).Some?
    ensures status == OK ==>
              var g := FindGroupByCode(old(db.groups.rows), Text(req, "group_code")).value;
              var uid := IdOf(Field(req, "user_id")).value;
              && db.members == S.Insert(old(db.members), Membership(old(db.members.nextId), uid, g.id))
              && MembershipCount(db.members.rows, uid, g.id) == MembershipCount(old(db.members.rows), uid, g.id) + 1
              && unchanged(db`users, db`groups, db`photos)
  {
    if !req.isJson {
      return UnsupportedMediaType;
    }
    var userId, code := Field(req, "user_id"), Field(req, "group_code");
    if !Given(userId) || !Given(code) {
      return BadRequest;
    }
    var group := FindGroupByCode(db.groups.rows, code.value);
    if group.None? {
      return NotFound;
    }
    var uid := IdOf(userId);
    if uid.None? {
      return ServerError;
    }
    var row := Membership(db.members.nextId, uid.value, group.value.id);
    S.InsertKeepsKeysFresh(db.members, MembershipId, row);
    MembershipCountAppend(db.members.rows, row, uid.value, group.value.id);
    db.members := S.Insert(db.members, row);
    return OK;
  }

  /** `upload_photo`: the same 400 checks as the newer server, 404 for an
      unknown code, then one photo row, with no membership check. */
  method UploadPhoto(db: Database, req: Request, secure: string -> string, now: int) returns (status: int)
    requires db.Valid()
    modifies db
    ensures db.Valid()
    ensures status == BadRequest <==>
              || "photo" !in req.files
              || req.files["photo"].filename == "" || !Given(Field(req, "user_id")) || !Given(Field(req, "group_code"))
              || !AllowedFile(req.files["photo"].filename)
    ensures status in {BadRequest, NotFound, ServerError, Created}
    ensures status == ServerError <==>
              && status != BadRequest && FindGroupByCode(old(db.groups.rows), Text(req, "group_code")).Some?
              && IdOf(Field(req, "user_id")).None?
    ensures status != Created ==> unchanged(db)
    ensures status == NotFound <==>
              status != BadRequest && FindGroupByCode(old(db.groups.rows), Text(req, "group_code")).None?
    ensures status == Created ==>
              && "photo" in req.files
              && FindGroupByCode(old(db.groups.rows), Text(req, "group_code")).Some?
              && IdOf(Field(req, "user_id")).Some?
    ensures status == Created ==>
              var g := FindGroupByCode(old(db.groups.rows), Text(req, "group_code")).value;
              && db.photos == S.Insert(old(db.photos), Photo(old(db.photos.nextId), secure(req.files["photo"].filename),
                                                             IdOf(Field(req, "user_id")).value, g.id, now))
              && unchanged(db`users, db`groups, db`members)
  {
    if "photo" !in req.files {
      return BadRequest;
    }
    var file := req.files["photo"];
    var userId, code := Field(req, "user_id"), Field(req, "group_code");
    if file.filename == "" || !Given(userId) || !Given(code) {
      return BadRequest;
    }
    if !AllowedFile(file.filename) {
      return BadRequest;
    }
    var group := FindGroupByCode(db.groups.rows, code.value);
    if group.None? {
      return NotFound;
    }
    var uid := IdOf(userId);
    if uid.None? {
      return ServerError;
    }
    var row := Photo(db.photos.nextId, secure(file.filename), uid.value, group.value.id, now);
    S.InsertKeepsKeysFresh(db.photos, PhotoId, row);
    db.photos := S.Insert(db.photos, row);
    return Created;
  }

  /** An entry of the older listing: the uploader is shown by phone. */
  datatype ListedPhoto = ListedPhoto(id: nat, url: string, uploadedBy: string, date: int)

  function EntryOf(p: Photo, u: User, urlFor: string -> string): ListedPhoto {
    ListedPhoto(p.id, urlFor(p.fileName), u.phone, p.uploadDate)
  }

  function ListedDate(e: ListedPhoto): int { e.date }

  /** `photos JOIN users ... WHERE photos.group_id = %s`, each row already
      turned into its entry. */
  function JoinedEntries(photos: seq<Photo>, users: seq<User>, groupId: nat, urlFor: string -> string)
    : (r: seq<ListedPhoto>)
    ensures forall x :: x in r <==>
              exists i, j :: 0 <= i < |photos| && 0 <= j < |users| && photos[i].groupId == groupId
                             && users[j].id == photos[i].userId && x == EntryOf(photos[i], users[j], urlFor)
  {
    if |photos| == 0 then []
    else
      var first := if photos[0].groupId == groupId then UploaderEntries(photos[0], users, urlFor) else [];
      var rest := JoinedEntries(photos[1..], users, groupId, urlFor);
      assert forall i :: 1 <= i < |photos| ==> photos[i] == photos[1..][i - 1];
      first + rest
  }

  function UploaderEntries(p: Photo, users: seq<User>, urlFor: string -> string): (r: seq<ListedPhoto>)
    ensures forall x :: x in r <==>
              exists j :: 0 <= j < |users| && users[j].id == p.userId && x == EntryOf(p, users[j], urlFor)
  {
    if |users| == 0 then []
    else
      var rest := UploaderEntries(p, users[1..], urlFor);
      assert forall j :: 1 <= j < |users| ==> users[j] == users[1..][j - 1];
      if users[0].id == p.userId then [EntryOf(p, users[0], urlFor)] + rest else rest
  }

  function ListedId(e: ListedPhoto): nat { e.id }

  /** With unique user ids the JOIN finds at most one uploader per photo. */
  lemma {:induction false} UploaderEntriesAtMostOne(p: Photo, users: seq<User>, urlFor: string -> string)
    requires S.IdsIncreasing(users, UserId)
    ensures |UploaderEntries(p, users, urlFor)| <= 1
  {
    if |users| > 0 {
      var tail := users[1..];
      assert S.IdsIncreasing(tail, UserId) by {
        forall a, b | 0 <= a < b < |tail| ensures tail[a].id < tail[b].id {
          assert tail[a] == users[a + 1] && tail[b] == users[b + 1];
        }
      }
      UploaderEntriesAtMostOne(p, tail, urlFor);
      if users[0].id == p.userId {
        forall j | 0 <= j < |tail| ensures tail[j].id != p.userId {
          assert tail[j] == users[j + 1];
        }
        UploaderEntriesNone(p, tail, urlFor);
      }
    }
  }

  /** No user with the photo's `user_id`: the JOIN gives no entry. */
  lemma {:induction false} UploaderEntriesNone(p: Photo, users: seq<User>, urlFor: string -> string)
    requires forall j :: 0 <= j < |users| ==> users[j].id != p.userId
    ensures UploaderEntries(p, users, urlFor) == []
  {
    if |users| > 0 {
      var tail := users[1..];
      assert forall j :: 0 <= j < |tail| ==> tail[j] == users[j + 1];
      UploaderEntriesNone(p, tail, urlFor);
    }
  }

  /** With unique photo and user ids the entries follow the photos' order,
      so each photo of the group is listed once. */
  lemma {:induction false} JoinedEntriesOrdered(photos: seq<Photo>, users: seq<User>, groupId: nat, urlFor: string -> string)
    requires S.IdsIncreasing(photos, PhotoId) && S.IdsIncreasing(users, UserId)
    ensures S.IdsIncreasing(JoinedEntries(photos, users, groupId, urlFor), ListedId)
  {
    if |photos| > 0 {
      var tail := photos[1..];
      assert S.IdsIncreasing(tail, PhotoId) by {
        forall a, b | 0 <= a < b < |tail| ensures tail[a].id < tail[b].id {
          assert tail[a] == photos[a + 1] && tail[b] == photos[b + 1];
        }
      }
      JoinedEntriesOrdered(tail, users, groupId, urlFor);
      var first := if photos[0].groupId == groupId then UploaderEntries(photos[0], users, urlFor) else [];
      var rest := JoinedEntries(tail, users, groupId, urlFor);
      assert JoinedEntries(photos, users, groupId, urlFor) == first + rest;
      UploaderEntriesAtMostOne(photos[0], users, urlFor);
      LaterEntriesAbove(photos, users, groupId, urlFor);
      assert forall k :: 0 <= k < |first| ==> first[k] in first;
      S.PrependIncreasing(first, rest, ListedId);
    }
  }

  /** Entries of the later photos carry ids above the first photo's. */
  lemma LaterEntriesAbove(photos: seq<Photo>, users: seq<User>, groupId: nat, urlFor: string -> string)
    requires |photos| > 0 && S.IdsIncreasing(photos, PhotoId)
    ensures forall k :: 0 <= k < |JoinedEntries(photos[1..], users, groupId, urlFor)| ==>
              photos[0].id < JoinedEntries(photos[1..], users, groupId, urlFor)[k].id
  {
    var tail := photos[1..];
    var rest := JoinedEntries(tail, users, groupId, urlFor);
    forall k | 0 <= k < |rest| ensures photos[0].id < rest[k].id {
      assert rest[k] in rest;
      var i, j :| && 0 <= i < |tail| && 0 <= j < |users| && tail[i].groupId == groupId
                  && users[j].id == tail[i].userId && rest[k] == EntryOf(tail[i], users[j], urlFor);
      assert tail[i] == photos[i + 1];
    }
  }

  /** `get_group_photos`: 400 without a code, 404 for an unknown one; else
      every photo of the group with its uploader's phone, newest first.
      There is no membership check. It changes nothing. */
  method GetGroupPhotos(db: Database, req: Request, urlFor: string -> string)
    returns (status: int, list: seq<ListedPhoto>)
    requires db.Valid()
    ensures status == BadRequest <==> !Given(Field(req, "group_code"))
    ensures status == NotFound <==>
              Given(Field(req, "group_code")) && FindGroupByCode(db.groups.rows, Text(req, "group_code")).None?
    ensures status in {BadRequest, NotFound, OK}
    ensures status != OK ==> list == []
    ensures status == OK ==>
              var g := FindGroupByCode(db.groups.rows, Text(req, "group_code")).value;
              && SortedDesc(list, ListedDate)
              && KeysDistinct(list, ListedId)
              && forall x :: x in list <==>
                   exists i, j :: 0 <= i < |db.photos.rows| && 0 <= j < |db.users.rows|
                                  && db.photos.rows[i].groupId == g.id && db.users.rows[j].id == db.photos.rows[i].userId
                                  && x == EntryOf(db.photos.rows[i], db.users.rows[j], urlFor)
  {
    var code := Field(req, "group_code");
    if !Given(code) {
      return BadRequest, [];
    }
    var group := FindGroupByCode(db.groups.rows, code.value);
    if group.None? {
      return NotFound, [];
    }
    var entries := JoinedEntries(db.photos.rows, db.users.rows, group.value.id, urlFor);
    list := SortDesc(entries, ListedDate);
    SortDescSorted(entries, ListedDate);
    forall x ensures x in list <==> x in entries {
      SortDescSameElements(entries, ListedDate, x);
    }
    JoinedEntriesOrdered(db.photos.rows, db.users.rows, group.value.id, urlFor);
    SameElementsKeepKeysDistinct(entries, list, ListedId);
    return OK, list;
  }

  /** Joining twice leaves two rows for the same user and group. */
  lemma RepeatedJoinsRepeatRows(members: seq<Membership>, a: Membership, b: Membership)
    requires a.userId == b.userId && a.groupId == b.groupId
    ensures MembershipCount(members + [a] + [b], a.userId, a.groupId) == MembershipCount(members, a.userId, a.groupId) + 2
  {
    MembershipCountAppend(members, a, a.userId, a.groupId);
    MembershipCountAppend(members + [a], b, a.userId, a.groupId);
  }
}
