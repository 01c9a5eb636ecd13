/** PhotoGroupApp/routes/admin.py: content reports and the super-admin's
    moderation actions (listing reports and bans, banning, unbanning,
    resolving a report). These handlers read `request.json` without testing
    `is_json` first; Flask then answers 415 itself for a body that is not
    JSON, which is how the model treats it. The clock that fills
    `created_at` and `banned_at` is an input; removing files from disk is
    left out. */
module AdminRoutes {
  import opened Wrappers
  import opened Strings
  import opened Http
  import opened FileRules
  import opened Store
  import opened Ordering

  const ManualBanReason := "Manual Ban by Admin"
  const ReportedContentReason := "Reported Content"

  // ---------------------------------------------------------------------
  // The super-admin gate
  // ---------------------------------------------------------------------

  /** `SELECT is_super_admin FROM users WHERE id = %s` found a row whose flag
      is 1. */
  predicate SuperAdmin(users: seq<User>, adminId: Option<string>) {
    var u := FindByKey(users, UserId, IdOf(adminId));
    u.Some? && u.value.isSuperAdmin == 1
  }

  /** With ids being primary keys, the gate passes exactly when the caller's
      id names a user whose `is_super_admin` is 1. */
  lemma SuperAdminSpec(users: seq<User>, adminId: Option<string>)
    requires IdsIncreasing(users, UserId)
    ensures SuperAdmin(users, adminId)
        <==> exists i :: 0 <= i < |users| && Some(users[i].id) == IdOf(adminId) && users[i].isSuperAdmin == 1
  {
    if exists i :: 0 <= i < |users| && Some(users[i].id) == IdOf(adminId) && users[i].isSuperAdmin == 1 {
      var i :| 0 <= i < |users| && Some(users[i].id) == IdOf(adminId) && users[i].isSuperAdmin == 1;
      FindByKeyUnique(users, UserId, users[i].id, users[i]);
    }
  }

  /** A missing or non-numeric caller id never passes. */
  lemma SuperAdminNeedsId(users: seq<User>, adminId: Option<string>)
    requires IdOf(adminId).None?
    ensures !SuperAdmin(users, adminId)
  {
  }

  // ---------------------------------------------------------------------
  // report_content
  // ---------------------------------------------------------------------

  /** `report_content`: 400 for a missing reporter, photo or reason, 404 for
      an unknown photo; otherwise one report whose `uploader_id` is the
      photo's owner. A reporter id that is no number fails the INSERT. */
  method ReportContent(db: Database, req: Request, now: int) returns (status: int)
    requires db.Valid()
    modifies db
    ensures db.Valid()
    ensures status == UnsupportedMediaType <==> !req.isJson
    ensures status == BadRequest <==>
              req.isJson && !(Given(Field(req, "reporter_id")) && Given(Field(req, "photo_id")) && Given(Field(req, "reason")))
    ensures status == NotFound <==>
              && req.isJson && Given(Field(req, "reporter_id")) && Given(Field(req, "photo_id")) && Given(Field(req, "reason"))
              && FindByKey(old(db.photos.rows), PhotoId, IdOf(Field(req, "photo_id"))).None?
    ensures status == ServerError <==>
              && req.isJson && Given(Field(req, "reporter_id")) && Given(Field(req, "photo_id")) && Given(Field(req, "reason"))
              && FindByKey(old(db.photos.rows), PhotoId, IdOf(Field(req, "photo_id"))).Some?
              && IdOf(Field(req, "reporter_id")).None?
    ensures status in {UnsupportedMediaType, BadRequest, NotFound, ServerError, Created}
    ensures status != Created ==> unchanged(db)
    ensures status == Created ==>
              && FindByKey(old(db.photos.rows), PhotoId, IdOf(Field(req, "photo_id"))).Some?
              && IdOf(Field(req, "reporter_id")).Some?
    ensures status == Created ==>
              var photo := FindByKey(old(db.photos.rows), PhotoId, IdOf(Field(req, "photo_id"))).value;
              && db.reports == Insert(old(db.reports),
                                      Report(old(db.reports.nextId), IdOf(Field(req, "reporter_id")).value,
                                             photo.id, photo.userId, Text(req, "reason"), now))
              && unchanged(db`users, db`groups, db`members, db`photos, db`bans)
  {
    if !req.isJson {
      return UnsupportedMediaType;
    }
    var reporterId, photoId, reason := Field(req, "reporter_id"), Field(req, "photo_id"), Field(req, "reason");
    if !Given(reporterId) || !Given(photoId) || !Given(reason) {
      return BadRequest;
    }
    var photo := FindByKey(db.photos.rows, PhotoId, IdOf(photoId));
    if photo.None? {
      return NotFound;
    }
    var reporter := IdOf(reporterId);
    if reporter.None? {
      return ServerError;
    }
    var row := Report(db.reports.nextId, reporter.value, photo.value.id, photo.value.userId, reason.value, now);
    InsertKeepsKeysFresh(db.reports, ReportId, row);
    db.reports := Insert(db.reports, row);
    return Created;
  }

  // ---------------------------------------------------------------------
  // get_reports
  // ---------------------------------------------------------------------

  /** A row of the moderation list, before and after the loop adds
      `photo_url` and `media_type`. */
  datatype ReportEntry = ReportEntry(
    reportId: nat, reason: string, createdAt: int,
    reporterId: nat, reporterUsername: Option<string>,
    uploaderId: nat, uploaderUsername: Option<string>, uploaderPhone: Option<string>,
    photoId: nat, photoFilename: string,
    photoUrl: Option<string>, mediaType: Option<MediaKind>)

  function EntryCreatedAt(e: ReportEntry): int { e.createdAt }

  function EntryReportId(e: ReportEntry): nat { e.reportId }

  /** The row the SELECT gives for a report and its joined reporter,
      uploader and photo rows, before the loop annotates it. */
  function EntryOf(rep: Report, reporter: User, uploader: User, photo: Photo): ReportEntry {
    ReportEntry(rep.id, rep.reason, rep.createdAt, rep.reporterId, reporter.username,
                rep.uploaderId, uploader.username, uploader.phone, rep.photoId, photo.fileName, None, None)
  }

  /** `e` is a row the three inner JOINs produce for `rep`: users with the
      reporter's and the uploader's ids and a photo with its photo id exist,
      and `e` takes its columns from them. */
  predicate JoinedRow(rep: Report, users: seq<User>, photos: seq<Photo>, e: ReportEntry) {
    exists a, b, c :: a in users && b in users && c in photos && a.id == rep.reporterId && b.id == rep.uploaderId
                      && c.id == rep.photoId && e == EntryOf(rep, a, b, c)
  }

  /** `content_reports r JOIN users u1 ON r.reporter_id = u1.id JOIN users u2
      ON r.uploader_id = u2.id JOIN photos p ON r.photo_id = p.id`, in the
      table's order. Ids are primary keys (`Database.Valid`), so each join
      finds at most one row and the lookup is the join; a report whose
      reporter, uploader or photo is gone is not listed. */
  function JoinReports(reports: seq<Report>, users: seq<User>, photos: seq<Photo>): (r: seq<ReportEntry>)
    ensures |r| <= |reports|
    ensures forall e :: e in r ==> exists i :: 0 <= i < |reports| && JoinedRow(reports[i], users, photos, e)
    ensures forall e :: e in r ==> exists i :: 0 <= i < |reports| && e.reportId == reports[i].id
    ensures forall e :: e in r ==> e.photoUrl.None? && e.mediaType.None?
  {
    if |reports| == 0 then []
    else
      var rep := reports[0];
      var reporter := FindByKey(users, UserId, Some(rep.reporterId));
      var uploader := FindByKey(users, UserId, Some(rep.uploaderId));
      var photo := FindByKey(photos, PhotoId, Some(rep.photoId));
      var rest := JoinReports(reports[1..], users, photos);
      assert forall i :: 1 <= i < |reports| ==> reports[i] == reports[1..][i - 1];
      if reporter.Some? && uploader.Some? && photo.Some? then
        var e := EntryOf(rep, reporter.value, uploader.value, photo.value);
        assert JoinedRow(rep, users, photos, e);
        [e] + rest
      else rest
  }

  /** The converse: with unique user and photo ids, every row the JOINs
      produce for a report is listed. */
  lemma {:induction false} JoinReportsComplete(reports: seq<Report>, users: seq<User>, photos: seq<Photo>)
    requires IdsIncreasing(users, UserId) && IdsIncreasing(photos, PhotoId)
    ensures forall i, e :: 0 <= i < |reports| && JoinedRow(reports[i], users, photos, e) ==>
              e in JoinReports(reports, users, photos)
  {
    if |reports| > 0 {
      JoinReportsComplete(reports[1..], users, photos);
      forall i, e | 0 <= i < |reports| && JoinedRow(reports[i], users, photos, e)
        ensures e in JoinReports(reports, users, photos)
      {
        if i == 0 {
          var rep := reports[0];
          var a, b, c :| a in users && b in users && c in photos && a.id == rep.reporterId && b.id == rep.uploaderId
                         && c.id == rep.photoId && e == EntryOf(rep, a, b, c);
          FindByKeyUnique(users, UserId, a.id, a);
          FindByKeyUnique(users, UserId, b.id, b);
          FindByKeyUnique(photos, PhotoId, c.id, c);
        } else {
          assert reports[i] == reports[1..][i - 1];
        }
      }
    }
  }

  /** The list keeps the reports' order: with increasing report ids, the
      entries' report ids increase, so no report is listed twice. */
  lemma {:induction false} JoinReportsOrdered(reports: seq<Report>, users: seq<User>, photos: seq<Photo>)
    requires IdsIncreasing(reports, ReportId)
    ensures IdsIncreasing(JoinReports(reports, users, photos), EntryReportId)
  {
    if |reports| > 0 {
      var tail := reports[1..];
      assert IdsIncreasing(tail, ReportId) by {
        forall a, b | 0 <= a < b < |tail| ensures tail[a].id < tail[b].id {
          assert tail[a] == reports[a + 1] && tail[b] == reports[b + 1];
        }
      }
      JoinReportsOrdered(tail, users, photos);
      var rest := JoinReports(tail, users, photos);
      var rep := reports[0];
      var reporter := FindByKey(users, UserId, Some(rep.reporterId));
      var uploader := FindByKey(users, UserId, Some(rep.uploaderId));
      var photo := FindByKey(photos, PhotoId, Some(rep.photoId));
      if reporter.Some? && uploader.Some? && photo.Some? {
        var e := EntryOf(rep, reporter.value, uploader.value, photo.value);
        assert JoinReports(reports, users, photos) == [e] + rest;
        TailIdsAbove(reports, rest);
        PrependKeepsIncreasing(e, rest);
      } else {
        assert JoinReports(reports, users, photos) == rest;
      }
    }
  }

  /** Entries drawn from the later reports carry ids above the first's. */
  lemma TailIdsAbove(reports: seq<Report>, rest: seq<ReportEntry>)
    requires |reports| > 0 && IdsIncreasing(reports, ReportId)
    requires forall e :: e in rest ==> exists i :: 0 <= i < |reports[1..]| && e.reportId == reports[1..][i].id
    ensures forall k :: 0 <= k < |rest| ==> reports[0].id < rest[k].reportId
  {
    forall k | 0 <= k < |rest| ensures reports[0].id < rest[k].reportId {
      assert rest[k] in rest;
      var i :| 0 <= i < |reports[1..]| && rest[k].reportId == reports[1..][i].id;
      assert reports[1..][i] == reports[i + 1];
    }
  }

  lemma PrependKeepsIncreasing(e: ReportEntry, rest: seq<ReportEntry>)
    requires IdsIncreasing(rest, EntryReportId)
    requires forall k :: 0 <= k < |rest| ==> e.reportId < rest[k].reportId
    ensures IdsIncreasing([e] + rest, EntryReportId)
  {
    var r := [e] + rest;
    forall a, b | 0 <= a < b < |r| ensures r[a].reportId < r[b].reportId {
      assert r[b] == rest[b - 1];
      if a > 0 {
        assert r[a] == rest[a - 1];
      }
    }
  }

  /** The loop can annotate this row: its file name is empty (skipped) or
      contains "." (otherwise `rsplit('.', 1)[1]` raises). */
  predicate Annotatable(e: ReportEntry) {
    e.photoFilename == "" || '.' in e.photoFilename
  }

  /** What the loop body does to one row. */
  function Annotate(e: ReportEntry, urlFor: string -> string): (r: ReportEntry)
    requires Annotatable(e)
    ensures e.photoFilename == "" ==> r == e
    ensures e.photoFilename != "" ==>
              && r == e.(photoUrl := Some(urlFor(e.photoFilename)), mediaType := r.mediaType)
              && (r.mediaType == Some(Video) <==> AsciiLower(AfterLast(e.photoFilename, '.')) in VideoExtensions)
              && (r.mediaType == Some(Image) <==> AsciiLower(AfterLast(e.photoFilename, '.')) !in VideoExtensions)
  {
    if e.photoFilename == "" then e
    else e.(photoUrl := Some(urlFor(e.photoFilename)), mediaType := MediaTypeOf(e.photoFilename))
  }

  /** The `for report in reports` loop, which updates each row in place. It
      stops with `ok` false at the first row whose name has no ".", which
      makes the handler answer 500. */
  method AnnotateReports(a: array<ReportEntry>, urlFor: string -> string) returns (ok: bool)
    modifies a
    ensures ok <==> forall i :: 0 <= i < a.Length ==> Annotatable(old(a[i]))
    ensures ok ==> forall i :: 0 <= i < a.Length ==> Annotatable(old(a[i])) && a[i] == Annotate(old(a[i]), urlFor)
  {
    var i := 0;
    while i < a.Length
      invariant 0 <= i <= a.Length
      invariant forall k :: 0 <= k < i ==> Annotatable(old(a[k])) && a[k] == Annotate(old(a[k]), urlFor)
      invariant forall k :: i <= k < a.Length ==> a[k] == old(a[k])
    {
      ghost var prev := a[..];
      var e := a[i];
      if e.photoFilename != "" {
        if '.' !in e.photoFilename {
          assert a[i] == old(a[i]) && !Annotatable(old(a[i]));
          return false;
        }
        a[i] := Annotate(e, urlFor);
      }
      assert a[..] == prev[i := Annotate(e, urlFor)];
      i := i + 1;
    }
    return true;
  }

  /** Copies the fetched rows into a list of mutable rows and runs the loop
      over it. */
  method AnnotateAll(rows: seq<ReportEntry>, urlFor: string -> string) returns (ok: bool, list: seq<ReportEntry>)
    ensures ok <==> forall i :: 0 <= i < |rows| ==> Annotatable(rows[i])
    ensures ok ==> |list| == |rows| && forall i :: 0 <= i < |rows| ==> Annotatable(rows[i]) && list[i] == Annotate(rows[i], urlFor)
  {
    var a := new ReportEntry[|rows|](i requires 0 <= i < |rows| => rows[i]);
    assert a[..] == rows;
    ok := AnnotateReports(a, urlFor);
    list := a[..];
  }

  /** Annotating keeps the rows' order, so the list stays newest first. */
  lemma AnnotatedSorted(rows: seq<ReportEntry>, list: seq<ReportEntry>, urlFor: string -> string)
    requires SortedDesc(rows, EntryCreatedAt)
    requires |list| == |rows| && forall i :: 0 <= i < |rows| ==> Annotatable(rows[i]) && list[i] == Annotate(rows[i], urlFor)
    ensures SortedDesc(list, EntryCreatedAt)
  {
    forall i, j | 0 <= i < j < |list| ensures EntryCreatedAt(list[i]) >= EntryCreatedAt(list[j]) {
      assert EntryCreatedAt(rows[i]) >= EntryCreatedAt(rows[j]);
      assert list[i].createdAt == rows[i].createdAt && list[j].createdAt == rows[j].createdAt;
    }
  }

  /** `get_reports`: 403 unless the caller is a super-admin; else the joined
      reports newest first, each with its url and media type, or 500 when a
      listed file name has no ".". It changes nothing. */
  method GetReports(db: Database, req: Request, urlFor: string -> string)
    returns (status: int, list: seq<ReportEntry>)
    ensures status == Forbidden <==> !SuperAdmin(db.users.rows, Field(req, "admin_id"))
    ensures status in {Forbidden, ServerError, OK}
    ensures status != OK ==> list == []
    ensures status != Forbidden ==>
              var rows := SortDesc(JoinReports(db.reports.rows, db.users.rows, db.photos.rows), EntryCreatedAt);
              && (status == OK <==> forall i :: 0 <= i < |rows| ==> Annotatable(rows[i]))
              && (status == OK ==>
                    && |list| == |rows|
                    && (forall i :: 0 <= i < |rows| ==> Annotatable(rows[i]) && list[i] == Annotate(rows[i], urlFor))
                    && SortedDesc(list, EntryCreatedAt))
  {
    if !SuperAdmin(db.users.rows, Field(req, "admin_id")) {
      return Forbidden, [];
    }
    var joined := JoinReports(db.reports.rows, db.users.rows, db.photos.rows);
    var rows := SortDesc(joined, EntryCreatedAt);
    SortDescSorted(joined, EntryCreatedAt);
    var ok, annotated := AnnotateAll(rows, urlFor);
    if !ok {
      var bad :| 0 <= bad < |rows| && !Annotatable(rows[bad]);
      assert rows == SortDesc(JoinReports(db.reports.rows, db.users.rows, db.photos.rows), EntryCreatedAt);
      return ServerError, [];
    }
    AnnotatedSorted(rows, annotated, urlFor);
    return OK, annotated;
  }

  // ---------------------------------------------------------------------
  // get_banned_users, unban_user
  // ---------------------------------------------------------------------

  function BanDate(b: Ban): int { b.bannedAt }

  /** `get_banned_users`: 403 unless the caller is a super-admin; else every
      ban, newest first. It changes nothing. */
  method GetBannedUsers(db: Database, req: Request) returns (status: int, list: seq<Ban>)
    ensures status == Forbidden <==> !SuperAdmin(db.users.rows, Field(req, "admin_id"))
    ensures status in {Forbidden, OK}
    ensures status != OK ==> list == []
    ensures status == OK ==> SortedDesc(list, BanDate) && multiset(list) == multiset(db.bans.rows)
  {
    if !SuperAdmin(db.users.rows, Field(req, "admin_id")) {
      return Forbidden, [];
    }
    list := SortDesc(db.bans.rows, BanDate);
    SortDescSorted(db.bans.rows, BanDate);
    return OK, list;
  }

  /** `unban_user`: deletes the ban with that id. The caller's row is
      fetched but never inspected, so anybody may unban. */
  method UnbanUser(db: Database, req: Request) returns (status: int)
    requires db.Valid()
    modifies db
    ensures db.Valid()
    ensures status == UnsupportedMediaType <==> !req.isJson
    ensures status in {UnsupportedMediaType, OK}
    ensures status != OK ==> unchanged(db)
    ensures status == OK ==>
              && db.bans == Table(DeleteByKey(old(db.bans.rows), BanId, IdOf(Field(req, "banned_id"))), old(db.bans.nextId))
              && unchanged(db`users, db`groups, db`members, db`photos, db`reports)
  {
    if !req.isJson {
      return UnsupportedMediaType;
    }
    var bannedId := IdOf(Field(req, "banned_id"));
    DeleteByKeyKeepsKeysFresh(db.bans, BanId, bannedId, BanId);
    db.bans := Table(DeleteByKey(db.bans.rows, BanId, bannedId), db.bans.nextId);
    return OK;
  }

  // ---------------------------------------------------------------------
  // manual_ban
  // ---------------------------------------------------------------------

  /** The user `manual_ban` targets: by `target_id` when given, else by
      `phone`. */
  function BanTarget(users: seq<User>, req: Request): (r: Option<User>)
    ensures r.Some? ==> r.value in users
    ensures Given(Field(req, "target_id")) ==> r == FindByKey(users, UserId, IdOf(Field(req, "target_id")))
    ensures !Given(Field(req, "target_id")) && Given(Field(req, "phone")) ==> r == FindUserByPhone(users, Text(req, "phone"))
    ensures !Given(Field(req, "target_id")) && !Given(Field(req, "phone")) ==> r.None?
  {
    if Given(Field(req, "target_id")) then FindByKey(users, UserId, IdOf(Field(req, "target_id")))
    else if Given(Field(req, "phone")) then FindUserByPhone(users, Text(req, "phone"))
    else None
  }

  /** The self-ban guard as written: `str(uid) == str(admin_id)` compares
      the target's id with the caller's id as text. */
  predicate IsCallerAsWritten(uid: nat, adminId: Option<string>) {
    NatToString(uid) == TextOf(adminId)
  }

  /** The ban row for a user; `banned_at` takes its default, the clock. */
  function BanOf(id: nat, u: User, reason: string, now: int): Ban {
    Ban(id, u.phone, u.username, reason, now)
  }

  /** The two statements every ban runs: the ban row goes in, then the
      user's row is deleted. */
  method BanUser(db: Database, u: User, reason: string, now: int)
    requires db.Valid()
    modifies db`bans, db`users
    ensures db.Valid()
    ensures db.bans == Insert(old(db.bans), BanOf(old(db.bans.nextId), u, reason, now))
    ensures db.users == Table(DeleteByKey(old(db.users.rows), UserId, Some(u.id)), old(db.users.nextId))
  {
    var ban := BanOf(db.bans.nextId, u, reason, now);
    InsertKeepsKeysFresh(db.bans, BanId, ban);
    db.bans := Insert(db.bans, ban);
    DeleteByKeyKeepsKeysFresh(db.users, UserId, Some(u.id), UserId);
    db.users := Table(DeleteByKey(db.users.rows, UserId, Some(u.id)), db.users.nextId);
  }

  method ManualBan(db: Database, req: Request, now: int) returns (status: int)
    requires db.Valid()
    modifies db
    ensures db.Valid()
    ensures status == UnsupportedMediaType <==> !req.isJson
    ensures status == BadRequest <==>
              req.isJson && ((!Given(Field(req, "phone")) && !Given(Field(req, "target_id")))
                            || (SuperAdmin(old(db.users.rows), Field(req, "admin_id"))
                                && var t := BanTarget(old(db.users.rows), req);
                                   t.Some? && IsCallerAsWritten(t.value.id, Field(req, "admin_id"))))
    ensures status == Forbidden <==>
              && req.isJson && (Given(Field(req, "phone")) || Given(Field(req, "target_id")))
              && !SuperAdmin(old(db.users.rows), Field(req, "admin_id"))
    ensures status == NotFound <==>
              && req.isJson && (Given(Field(req, "phone")) || Given(Field(req, "target_id")))
              && SuperAdmin(old(db.users.rows), Field(req, "admin_id"))
              && BanTarget(old(db.users.rows), req).None?
    ensures status in {UnsupportedMediaType, BadRequest, Forbidden, NotFound, OK}
    ensures status != OK ==> unchanged(db)
    ensures status == OK ==> BanTarget(old(db.users.rows), req).Some?
    ensures status == OK ==>
              var t := BanTarget(old(db.users.rows), req).value;
              && !IsCallerAsWritten(t.id, Field(req, "admin_id"))
              && db.bans == Insert(old(db.bans), BanOf(old(db.bans.nextId), t, ManualBanReason, now))
              && db.users == Table(DeleteByKey(old(db.users.rows), UserId, Some(t.id)), old(db.users.nextId))
              && unchanged(db`groups, db`members, db`photos, db`reports)
  {
    if !req.isJson {
      return UnsupportedMediaType;
    }
    var adminId := Field(req, "admin_id");
    if !Given(Field(req, "phone")) && !Given(Field(req, "target_id")) {
      return BadRequest;
    }
    if !SuperAdmin(db.users.rows, adminId) {
      return Forbidden;
    }
    var target := BanTarget(db.users.rows, req);
    if target.None? {
      return NotFound;
    }
    var t := target.value;
    if IsCallerAsWritten(t.id, adminId) {
      return BadRequest;
    }
    BanUser(db, t, ManualBanReason, now);
    return OK;
  }

  /** The guard compares text while the lookup compares numbers: a caller
      who writes their own id with a leading zero passes the gate as
      themselves and is not recognised as the target. */
  lemma SelfBanSlipsThrough()
    ensures IdOf(Some("07")) == Some(7)
    ensures !IsCallerAsWritten(7, Some("07"))
  {
    assert NatToString(7) == "7";
    var s := "07";
    assert AllDigits(s);
    assert s[..1] == "0" && s[..1][..0] == "";
    assert DigitValue('0') == 0 && DigitValue('7') == 7;
    assert DecimalValue(s[..1]) == 0;
    assert DecimalValue(s) == 7;
  }

  /** The guard as intended: the target is the user the caller's id names. */
  predicate IsCaller(uid: nat, adminId: Option<string>) {
    Some(uid) == IdOf(adminId)
  }

  /** `manual_ban` with the guard comparing ids as numbers, so that a
      successful ban never removes the caller's own account. */
  method ManualBanCorrected(db: Database, req: Request, now: int) returns (status: int)
    requires db.Valid()
    modifies db
    ensures db.Valid()
    ensures status == UnsupportedMediaType <==> !req.isJson
    ensures status in {UnsupportedMediaType, BadRequest, Forbidden, NotFound, OK}
    ensures status != OK ==> unchanged(db)
    ensures status == OK ==>
              && SuperAdmin(old(db.users.rows), Field(req, "admin_id"))
              && BanTarget(old(db.users.rows), req).Some?
              && var t := BanTarget(old(db.users.rows), req).value;
                 && !IsCaller(t.id, Field(req, "admin_id"))
                 && db.bans == Insert(old(db.bans), BanOf(old(db.bans.nextId), t, ManualBanReason, now))
                 && db.users == Table(DeleteByKey(old(db.users.rows), UserId, Some(t.id)), old(db.users.nextId))
                 && unchanged(db`groups, db`members, db`photos, db`reports)
    ensures status == OK ==>
              FindByKey(old(db.users.rows), UserId, IdOf(Field(req, "admin_id"))).value in db.users.rows
  {
    if !req.isJson {
      return UnsupportedMediaType;
    }
    var adminId := Field(req, "admin_id");
    if !Given(Field(req, "phone")) && !Given(Field(req, "target_id")) {
      return BadRequest;
    }
    if !SuperAdmin(db.users.rows, adminId) {
      return Forbidden;
    }
    var target := BanTarget(db.users.rows, req);
    if target.None? {
      return NotFound;
    }
    var t := target.value;
    if IsCaller(t.id, adminId) {
      return BadRequest;
    }
    ghost var caller := FindByKey(db.users.rows, UserId, IdOf(adminId)).value;
    BanUser(db, t, ManualBanReason, now);
    assert caller in db.users.rows;
    return OK;
  }

  // ---------------------------------------------------------------------
  // resolve_report
  // ---------------------------------------------------------------------

  /** `delete_content`: when the report exists, the row of its photo and
      the report are deleted. */
  method DeleteReportedContent(db: Database, k: Option<nat>)
    requires db.Valid()
    modifies db
    ensures db.Valid()
    ensures var report := FindByKey(old(db.reports.rows), ReportId, k);
            if report.Some? then
              && db.photos == Table(DeleteByKey(old(db.photos.rows), PhotoId, Some(report.value.photoId)), old(db.photos.nextId))
              && db.reports == Table(DeleteByKey(old(db.reports.rows), ReportId, k), old(db.reports.nextId))
              && unchanged(db`users, db`groups, db`members, db`bans)
            else unchanged(db)
  {
    var report := FindByKey(db.reports.rows, ReportId, k);
    if report.Some? {
      DeleteByKeyKeepsKeysFresh(db.photos, PhotoId, Some(report.value.photoId), PhotoId);
      db.photos := Table(DeleteByKey(db.photos.rows, PhotoId, Some(report.value.photoId)), db.photos.nextId);
      DeleteByKeyKeepsKeysFresh(db.reports, ReportId, k, ReportId);
      db.reports := Table(DeleteByKey(db.reports.rows, ReportId, k), db.reports.nextId);
    }
  }

  /** `dismiss`: the report is deleted and nothing else. */
  method DismissReport(db: Database, k: Option<nat>)
    requires db.Valid()
    modifies db
    ensures db.Valid()
    ensures db.reports == Table(DeleteByKey(old(db.reports.rows), ReportId, k), old(db.reports.nextId))
    ensures unchanged(db`users, db`groups, db`members, db`photos, db`bans)
  {
    DeleteByKeyKeepsKeysFresh(db.reports, ReportId, k, ReportId);
    db.reports := Table(DeleteByKey(db.reports.rows, ReportId, k), db.reports.nextId);
  }

  /** The uploader `ban_user` acts on: the user the report names, when both
      still exist. */
  function ReportedUploader(db: Database, k: Option<nat>): Option<User>
    reads db
  {
    var report := FindByKey(db.reports.rows, ReportId, k);
    if report.Some? then FindByKey(db.users.rows, UserId, Some(report.value.uploaderId)) else None
  }

  /** `ban_user`: when the report and its uploader exist, a ban row with the
      uploader's phone and username is added, the uploader is deleted and
      so is the report. */
  method BanReportedUploader(db: Database, k: Option<nat>, now: int)
    requires db.Valid()
    modifies db
    ensures db.Valid()
    ensures var uploader := old(ReportedUploader(db, k));
            if uploader.Some? then
              && db.bans == Insert(old(db.bans), BanOf(old(db.bans.nextId), uploader.value, ReportedContentReason, now))
              && db.users == Table(DeleteByKey(old(db.users.rows), UserId, Some(uploader.value.id)), old(db.users.nextId))
              && db.reports == Table(DeleteByKey(old(db.reports.rows), ReportId, k), old(db.reports.nextId))
              && unchanged(db`groups, db`members, db`photos)
            else unchanged(db)
  {
    var report := FindByKey(db.reports.rows, ReportId, k);
    if report.Some? {
      var uploader := FindByKey(db.users.rows, UserId, Some(report.value.uploaderId));
      if uploader.Some? {
        BanUser(db, uploader.value, ReportedContentReason, now);
        DismissReport(db, k);
      }
    }
  }

  /** `resolve_report`: 403 unless the caller is a super-admin; otherwise it
      performs `delete_content`, `dismiss` or `ban_user`, does nothing for
      any other action, and answers 200 in every case. */
  method ResolveReport(db: Database, req: Request, now: int) returns (status: int)
    requires db.Valid()
    modifies db
    ensures db.Valid()
    ensures status == UnsupportedMediaType <==> !req.isJson
    ensures status == Forbidden <==> req.isJson && !SuperAdmin(old(db.users.rows), Field(req, "admin_id"))
    ensures status in {UnsupportedMediaType, Forbidden, OK}
    ensures status != OK ==> unchanged(db)
    ensures status == OK && Field(req, "action") == Some("dismiss") ==>
              && db.reports == Table(DeleteByKey(old(db.reports.rows), ReportId, IdOf(Field(req, "report_id"))), old(db.reports.nextId))
              && unchanged(db`users, db`groups, db`members, db`photos, db`bans)
    ensures status == OK && Field(req, "action") == Some("delete_content") ==>
              var report := FindByKey(old(db.reports.rows), ReportId, IdOf(Field(req, "report_id")));
              if report.Some? then
                && db.photos == Table(DeleteByKey(old(db.photos.rows), PhotoId, Some(report.value.photoId)), old(db.photos.nextId))
                && db.reports == Table(DeleteByKey(old(db.reports.rows), ReportId, IdOf(Field(req, "report_id"))), old(db.reports.nextId))
                && unchanged(db`users, db`groups, db`members, db`bans)
              else unchanged(db)
    ensures status == OK && Field(req, "action") == Some("ban_user") ==>
              var uploader := old(ReportedUploader(db, IdOf(Field(req, "report_id"))));
              if uploader.Some? then
                && db.bans == Insert(old(db.bans), BanOf(old(db.bans.nextId), uploader.value, ReportedContentReason, now))
                && db.users == Table(DeleteByKey(old(db.users.rows), UserId, Some(uploader.value.id)), old(db.users.nextId))
                && db.reports == Table(DeleteByKey(old(db.reports.rows), ReportId, IdOf(Field(req, "report_id"))), old(db.reports.nextId))
                && unchanged(db`groups, db`members, db`photos)
              else unchanged(db)
    ensures status == OK && Field(req, "action") !in {Some("delete_content"), Some("dismiss"), Some("ban_user")} ==>
              unchanged(db)
  {
    if !req.isJson {
      return UnsupportedMediaType;
    }
    if !SuperAdmin(db.users.rows, Field(req, "admin_id")) {
      return Forbidden;
    }
    var action := Field(req, "action");
    var k := IdOf(Field(req, "report_id"));
    if action == Some("delete_content") {
      DeleteReportedContent(db, k);
    } else if action == Some("dismiss") {
      DismissReport(db, k);
    } else if action == Some("ban_user") {
      BanReportedUploader(db, k, now);
    }
    return OK;
  }
}
