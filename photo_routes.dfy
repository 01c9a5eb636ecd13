/** PhotoGroupApp/routes/photos.py: uploading a picture into a group the
    user belongs to, and listing a group's pictures for one of its members.
    `secure_filename` and `url_for` are function parameters, the upload time
    (`upload_date`'s default) an input; the file save is left out. */
module PhotoRoutes {
  import opened Wrappers
  import opened Http
  import opened FileRules
  import opened Store
  import opened Ordering

  /** `upload_photo`, in the order of its checks: no `photo` part (400), an
      empty name or a missing `user_id` or `group_code` (400), a disallowed
      extension (400), an unknown code (404), a non-member (403); otherwise
      one photo row with the secured name, the user and the group. */
  method UploadPhoto(db: Database, req: Request, secure: string -> string, now: int)
    returns (status: int)
    requires db.Valid()
    modifies db
    ensures db.Valid()
    ensures "photo" !in req.files ==> status == BadRequest
    ensures "photo" in req.files ==>
              var name := req.files["photo"].filename;
              var group := FindGroupByCode(old(db.groups.rows), Text(req, "group_code"));
              && (status == BadRequest <==>
                    name == "" || !Given(Field(req, "user_id")) || !Given(Field(req, "group_code"))
                    || !AllowedFile(name))
              && (status == NotFound <==> UploadAccepted(req) && group.None?)
              && (status == Forbidden <==>
                    UploadAccepted(req) && group.Some?
                    && !IsGroupMember(old(db.members.rows), IdOf(Field(req, "user_id")), group.value.id))
    ensures status in {BadRequest, NotFound, Forbidden, Created}
    ensures status != Created ==> unchanged(db)
    ensures status == Created ==>
              && UploadAccepted(req)
              && var group := FindGroupByCode(old(db.groups.rows), Text(req, "group_code")).value;
                 && IsGroupMember(old(db.members.rows), IdOf(Field(req, "user_id")), group.id)
                 && db.photos == Insert(old(db.photos),
                                        Photo(old(db.photos.nextId), secure(req.files["photo"].filename),
                                              IdOf(Field(req, "user_id")).value, group.id, now))
                 && unchanged(db`users, db`groups, db`members, db`reports, db`bans)
  {
    if "photo" !in req.files {
      return BadRequest;
    }
    var file := req.files["photo"];
    var userId, code := Field(req, "user_id"), Field(req, "group_code");
    if file.filename == "" || !Given(userId) || !Given(code) {
      return BadRequest;
    }
    if !AllowedFile(file.filename) {
      return BadRequest;
    }
    var group := FindGroupByCode(db.groups.rows, code.value);
    if group.None? {
      return NotFound;
    }
    var membership := FindMembership(db.members.rows, IdOf(userId), group.value.id);
    if membership.None? {
      return Forbidden;
    }
    var row := Photo(db.photos.nextId, secure(file.filename), membership.value.userId, group.value.id, now);
    InsertKeepsKeysFresh(db.photos, PhotoId, row);
    db.photos := Insert(db.photos, row);
    return Created;
  }

  /** The request passes every check before the database is consulted. */
  predicate UploadAccepted(req: Request) {
    && "photo" in req.files
    && req.files["photo"].filename != ""
    && Given(Field(req, "user_id")) && Given(Field(req, "group_code"))
    && AllowedFile(req.files["photo"].filename)
  }

  // ---------------------------------------------------------------------
  // get_group_photos
  // ---------------------------------------------------------------------

  /** A row of `photos JOIN users ON photos.user_id = users.id`. */
  datatype PhotoRow = PhotoRow(id: nat, fileName: string, uploadDate: int,
                               username: Option<string>, profileImage: Option<string>)

  function RowOf(p: Photo, u: User): PhotoRow {
    PhotoRow(p.id, p.fileName, p.uploadDate, u.username, u.profileImage)
  }

  function RowDate(r: PhotoRow): int { r.uploadDate }

  /** The rows pairing photo `p` with each user whose id is its `user_id`. */
  function JoinUploader(p: Photo, users: seq<User>): (r: seq<PhotoRow>)
    ensures forall x :: x in r <==> exists j :: 0 <= j < |users| && users[j].id == p.userId && x == RowOf(p, users[j])
  {
    if |users| == 0 then []
    else
      var rest := JoinUploader(p, users[1..]);
      assert forall j :: 1 <= j < |users| ==> users[j] == users[1..][j - 1];
      if users[0].id == p.userId then [RowOf(p, users[0])] + rest else rest
  }

  /** `... FROM photos JOIN users ON photos.user_id = users.id WHERE
      photos.group_id = %s`, before ordering: one row per photo of the group
      and user who uploaded it. */
  function GroupPhotoRows(photos: seq<Photo>, users: seq<User>, groupId: nat): (r: seq<PhotoRow>)
    ensures forall x :: x in r <==>
              exists i, j :: 0 <= i < |photos| && 0 <= j < |users| && photos[i].groupId == groupId
                             && users[j].id == photos[i].userId && x == RowOf(photos[i], users[j])
  {
    if |photos| == 0 then []
    else
      var first := if photos[0].groupId == groupId then JoinUploader(photos[0], users) else [];
      var rest := GroupPhotoRows(photos[1..], users, groupId);
      assert forall i :: 1 <= i < |photos| ==> photos[i] == photos[1..][i - 1];
      first + rest
  }

  function RowId(r: PhotoRow): nat { r.id }

  /** With unique user ids the JOIN finds at most one uploader per photo. */
  lemma {:induction false} JoinUploaderAtMostOne(p: Photo, users: seq<User>)
    requires IdsIncreasing(users, UserId)
    ensures |JoinUploader(p, users)| <= 1
  {
    if |users| > 0 {
      var tail := users[1..];
      assert IdsIncreasing(tail, UserId) by {
        forall a, b | 0 <= a < b < |tail| ensures tail[a].id < tail[b].id {
          assert tail[a] == users[a + 1] && tail[b] == users[b + 1];
        }
      }
      JoinUploaderAtMostOne(p, tail);
      if users[0].id == p.userId {
        forall j | 0 <= j < |tail| ensures tail[j].id != p.userId {
          assert tail[j] == users[j + 1];
        }
        JoinUploaderNone(p, tail);
      }
    }
  }

  /** No user with the photo's `user_id`: the JOIN gives no row. */
  lemma {:induction false} JoinUploaderNone(p: Photo, users: seq<User>)
    requires forall j :: 0 <= j < |users| ==> users[j].id != p.userId
    ensures JoinUploader(p, users) == []
  {
    if |users| > 0 {
      var tail := users[1..];
      assert forall j :: 0 <= j < |tail| ==> tail[j] == users[j + 1];
      JoinUploaderNone(p, tail);
    }
  }

  /** With unique photo and user ids the joined rows follow the photos'
      order, so each photo of the group is listed once. */
  lemma {:induction false} GroupPhotoRowsOrdered(photos: seq<Photo>, users: seq<User>, groupId: nat)
    requires IdsIncreasing(photos, PhotoId) && IdsIncreasing(users, UserId)
    ensures IdsIncreasing(GroupPhotoRows(photos, users, groupId), RowId)
  {
    if |photos| > 0 {
      var tail := photos[1..];
      assert IdsIncreasing(tail, PhotoId) by {
        forall a, b | 0 <= a < b < |tail| ensures tail[a].id < tail[b].id {
          assert tail[a] == photos[a + 1] && tail[b] == photos[b + 1];
        }
      }
      GroupPhotoRowsOrdered(tail, users, groupId);
      var first := if photos[0].groupId == groupId then JoinUploader(photos[0], users) else [];
      var rest := GroupPhotoRows(tail, users, groupId);
      assert GroupPhotoRows(photos, users, groupId) == first + rest;
      JoinUploaderAtMostOne(photos[0], users);
      LaterRowsAbove(photos, users, groupId);
      assert forall k :: 0 <= k < |first| ==> first[k] in first;
      PrependIncreasing(first, rest, RowId);
    }
  }

  /** Rows of the later photos carry ids above the first photo's. */
  lemma LaterRowsAbove(photos: seq<Photo>, users: seq<User>, groupId: nat)
    requires |photos| > 0 && IdsIncreasing(photos, PhotoId)
    ensures forall k :: 0 <= k < |GroupPhotoRows(photos[1..], users, groupId)| ==>
              photos[0].id < GroupPhotoRows(photos[1..], users, groupId)[k].id
  {
    var tail := photos[1..];
    var rest := GroupPhotoRows(tail, users, groupId);
    forall k | 0 <= k < |rest| ensures photos[0].id < rest[k].id {
      assert rest[k] in rest;
      var i, j :| && 0 <= i < |tail| && 0 <= j < |users| && tail[i].groupId == groupId
                  && users[j].id == tail[i].userId && rest[k] == RowOf(tail[i], users[j]);
      assert tail[i] == photos[i + 1];
    }
  }

  /** An entry of the JSON list. */
  datatype ListedPhoto = ListedPhoto(id: nat, url: string, uploadedBy: Option<string>,
                                     userAvatar: Option<string>, date: int)

  function Entry(row: PhotoRow, urlFor: string -> string): ListedPhoto {
    ListedPhoto(row.id, urlFor(row.fileName), row.username, row.profileImage, row.uploadDate)
  }

  function ListedDate(p: ListedPhoto): int { p.date }

  function ListedId(p: ListedPhoto): nat { p.id }

  /** The loop that turns each fetched row into an entry, in order. */
  method BuildListing(rows: seq<PhotoRow>, urlFor: string -> string) returns (list: seq<ListedPhoto>)
    ensures |list| == |rows|
    ensures forall i :: 0 <= i < |rows| ==> list[i] == Entry(rows[i], urlFor)
  {
    list := [];
    var i := 0;
    while i < |rows|
      invariant 0 <= i <= |rows| && |list| == i
      invariant forall k :: 0 <= k < i ==> list[k] == Entry(rows[k], urlFor)
    {
      list := list + [Entry(rows[i], urlFor)];
      i := i + 1;
    }
  }

  /** `get_group_photos`: 400 unless both `group_code` and `user_id` are
      given, 404 for an unknown code, 403 for a non-member; otherwise 200 and
      one entry per photo of the group joined with its uploader, newest
      upload first. It changes nothing. */
  method GetGroupPhotos(db: Database, req: Request, urlFor: string -> string)
    returns (status: int, list: seq<ListedPhoto>)
    requires db.Valid()
    ensures status == BadRequest <==> !(Given(Field(req, "group_code")) && Given(Field(req, "user_id")))
    ensures status == NotFound <==>
              && Given(Field(req, "group_code")) && Given(Field(req, "user_id"))
              && FindGroupByCode(db.groups.rows, Text(req, "group_code")).None?
    ensures status == Forbidden <==>
              && Given(Field(req, "group_code")) && Given(Field(req, "user_id"))
              && var g := FindGroupByCode(db.groups.rows, Text(req, "group_code"));
                 g.Some? && !IsGroupMember(db.members.rows, IdOf(Field(req, "user_id")), g.value.id)
    ensures status in {BadRequest, NotFound, Forbidden, OK}
    ensures status != OK ==> list == []
    ensures status == OK ==>
              var g := FindGroupByCode(db.groups.rows, Text(req, "group_code")).value;
              && IsGroupMember(db.members.rows, IdOf(Field(req, "user_id")), g.id)
              && SortedDesc(list, ListedDate)
              && KeysDistinct(list, ListedId)
              && forall x :: x in list <==>
                   exists i, j :: 0 <= i < |db.photos.rows| && 0 <= j < |db.users.rows|
                                  && db.photos.rows[i].groupId == g.id && db.users.rows[j].id == db.photos.rows[i].userId
                                  && x == Entry(RowOf(db.photos.rows[i], db.users.rows[j]), urlFor)
  {
    var code, userId := Field(req, "group_code"), Field(req, "user_id");
    if !Given(code) || !Given(userId) {
      return BadRequest, [];
    }
    var group := FindGroupByCode(db.groups.rows, code.value);
    if group.None? {
      return NotFound, [];
    }
    if FindMembership(db.members.rows, IdOf(userId), group.value.id).None? {
      return Forbidden, [];
    }
    var rows := GroupPhotoRows(db.photos.rows, db.users.rows, group.value.id);
    var sorted := SortDesc(rows, RowDate);
    SortDescSorted(rows, RowDate);
    list := BuildListing(sorted, urlFor);
    ListingFacts(rows, sorted, list, urlFor);
    GroupPhotoRowsOrdered(db.photos.rows, db.users.rows, group.value.id);
    ListingIdsDistinct(rows, sorted, list, urlFor);
    return OK, list;
  }

  /** The entries of the sorted rows are sorted by date and are exactly the
      entries of the unsorted rows. */
  lemma ListingFacts(rows: seq<PhotoRow>, sorted: seq<PhotoRow>, list: seq<ListedPhoto>, urlFor: string -> string)
    requires sorted == SortDesc(rows, RowDate) && SortedDesc(sorted, RowDate)
    requires |list| == |sorted| && forall i :: 0 <= i < |sorted| ==> list[i] == Entry(sorted[i], urlFor)
    ensures SortedDesc(list, ListedDate)
    ensures forall x :: x in list <==> exists r :: r in rows && x == Entry(r, urlFor)
  {
    forall i, j | 0 <= i < j < |list| ensures ListedDate(list[i]) >= ListedDate(list[j]) {
      assert RowDate(sorted[i]) >= RowDate(sorted[j]);
    }
    forall x ensures x in list <==> exists r :: r in rows && x == Entry(r, urlFor) {
      if x in list {
        var k :| 0 <= k < |list| && list[k] == x;
        SortDescSameElements(rows, RowDate, sorted[k]);
      }
      if exists r :: r in rows && x == Entry(r, urlFor) {
        var r :| r in rows && x == Entry(r, urlFor);
        SortDescSameElements(rows, RowDate, r);
        var k :| 0 <= k < |sorted| && sorted[k] == r;
        assert list[k] == x;
      }
    }
  }

  /** Rows with distinct photo ids, rearranged and turned into entries, give
      entries with distinct ids: no photo is listed twice. */
  lemma ListingIdsDistinct(rows: seq<PhotoRow>, sorted: seq<PhotoRow>, list: seq<ListedPhoto>, urlFor: string -> string)
    requires IdsIncreasing(rows, RowId) && multiset(sorted) == multiset(rows)
    requires |list| == |sorted| && forall i :: 0 <= i < |sorted| ==> list[i] == Entry(sorted[i], urlFor)
    ensures KeysDistinct(list, ListedId)
  {
    SameElementsKeepKeysDistinct(rows, sorted, RowId);
    forall a, b | 0 <= a < b < |list| ensures list[a].id != list[b].id {
      assert RowId(sorted[a]) != RowId(sorted[b]);
    }
  }
}
