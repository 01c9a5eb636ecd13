/** PhotoGroupApp/routes/groups.py: creating a group under a fresh code, with
    the creator as its admin, and joining a group by code. */
module GroupRoutes {
  import opened Wrappers
  import opened Http
  import opened GroupCodes
  import opened Store

  /** A new code keeps the codes distinct. */
  lemma AddFreshCode(groups: seq<Group>, g: Group)
    requires CodesDistinct(groups) && g.code !in Codes(groups)
    ensures CodesDistinct(groups + [g])
  {
    var s := groups + [g];
    forall i, j | 0 <= i < j < |s| ensures s[i].code != s[j].code {
      if j == |groups| {
        assert Codes(groups)[i] == s[i].code;
      }
    }
  }

  /** A membership of a user not yet in that group keeps memberships
      distinct. */
  lemma AddFreshMembership(members: seq<Membership>, m: Membership)
    requires MembershipsDistinct(members) && !IsGroupMember(members, Some(m.userId), m.groupId)
    ensures MembershipsDistinct(members + [m])
  {
    var s := members + [m];
    forall i, j | 0 <= i < j < |s| ensures s[i].userId != s[j].userId || s[i].groupId != s[j].groupId {
      if j == |members| {
        assert s[i] == members[i];
      }
    }
  }

  /** `create_group`: draw codes until one is unused, insert the group with
      `created_by` = the user, then the creator's membership with
      `is_admin` = 1. A `user_id` that is no number is refused by the INSERT
      (500, nothing stored). `draws` are the outcomes of the random source. */
  method CreateGroup(db: Database, req: Request, draws: seq<seq<nat>>)
    returns (status: int, created: Option<(string, nat)>)
    requires forall i :: 0 <= i < |draws| ==> ValidPicks(draws[i])
    requires exists i :: 0 <= i < |draws| && GenerateGroupCode(draws[i]) !in Codes(db.groups.rows)
    requires db.Valid()
    modifies db
    ensures db.Valid()
    ensures status == UnsupportedMediaType <==> !req.isJson
    ensures status == BadRequest <==> req.isJson && !Given(Field(req, "user_id"))
    ensures status == ServerError <==> req.isJson && Given(Field(req, "user_id")) && IdOf(Field(req, "user_id")).None?
    ensures status in {UnsupportedMediaType, BadRequest, ServerError, Created}
    ensures status != Created ==> unchanged(db) && created.None?
    ensures status == Created ==>
              var uid := IdOf(Field(req, "user_id")).value;
              var gid := old(db.groups.nextId);
              && created.Some? && created.value.1 == gid
              && IsGroupCode(created.value.0)
              && (forall g :: g in old(db.groups.rows) ==> g.code != created.value.0)
              && db.groups == Insert(old(db.groups), Group(gid, created.value.0, uid))
              && db.members == Insert(old(db.members), Membership(old(db.members.nextId), uid, gid, 1))
              && unchanged(db`users, db`photos, db`reports, db`bans)
  {
    if !req.isJson {
      return UnsupportedMediaType, None;
    }
    var userId := Field(req, "user_id");
    if !Given(userId) {
      return BadRequest, None;
    }
    var code, _ := DrawUnusedCode(Codes(db.groups.rows), draws);
    var uid := IdOf(userId);
    if uid.None? {
      return ServerError, None;
    }
    var group := Group(db.groups.nextId, code, uid.value);
    forall g | g in db.groups.rows ensures g.code != code {
      var i :| 0 <= i < |db.groups.rows| && db.groups.rows[i] == g;
      assert Codes(db.groups.rows)[i] == g.code;
    }
    AddFreshCode(db.groups.rows, group);
    InsertKeepsKeysFresh(db.groups, GroupId, group);
    var membership := Membership(db.members.nextId, uid.value, group.id, 1);
    AddFreshMembership(db.members.rows, membership);
    InsertKeepsKeysFresh(db.members, MembershipId, membership);
    db.groups := Insert(db.groups, group);
    db.members := Insert(db.members, membership);
    return Created, Some((code, group.id));
  }

  /** `join_group`: 415, 400 and 404 come before any insert; a user who is
      already a member gets 409 and nothing changes; otherwise exactly one
      membership with `is_admin` = 0 is added. */
  method JoinGroup(db: Database, req: Request) returns (status: int, joined: Option<nat>)
    requires db.Valid()
    modifies db
    ensures db.Valid()
    ensures status == UnsupportedMediaType <==> !req.isJson
    ensures status == BadRequest <==>
              req.isJson && !(Given(Field(req, "user_id")) && Given(Field(req, "group_code")))
    ensures status == NotFound <==>
              && req.isJson && Given(Field(req, "user_id")) && Given(Field(req, "group_code"))
              && FindGroupByCode(old(db.groups.rows), Text(req, "group_code")).None?
    ensures status == Conflict <==>
              && req.isJson && Given(Field(req, "user_id")) && Given(Field(req, "group_code"))
              && var g := FindGroupByCode(old(db.groups.rows), Text(req, "group_code"));
                 g.Some? && IsGroupMember(old(db.members.rows), IdOf(Field(req, "user_id")), g.value.id)
    ensures status == ServerError <==>
              && req.isJson && Given(Field(req, "user_id")) && Given(Field(req, "group_code"))
              && var g := FindGroupByCode(old(db.groups.rows), Text(req, "group_code"));
                 && g.Some? && !IsGroupMember(old(db.members.rows), IdOf(Field(req, "user_id")), g.value.id)
                 && IdOf(Field(req, "user_id")).None?
    ensures status in {UnsupportedMediaType, BadRequest, NotFound, Conflict, ServerError, OK}
    ensures status != OK ==> unchanged(db) && joined.None?
    ensures status == OK ==> IdOf(Field(req, "user_id")).Some?
    ensures status == OK ==>
              var g := FindGroupByCode(old(db.groups.rows), Text(req, "group_code")).value;
              var uid := IdOf(Field(req, "user_id")).value;
              && joined == Some(g.id)
              && !IsGroupMember(old(db.members.rows), Some(uid), g.id)
              && db.members == Insert(old(db.members), Membership(old(db.members.nextId), uid, g.id, 0))
              && unchanged(db`users, db`groups, db`photos, db`reports, db`bans)
  {
    if !req.isJson {
      return UnsupportedMediaType, None;
    }
    var userId, code := Field(req, "user_id"), Field(req, "group_code");
    if !Given(userId) || !Given(code) {
      return BadRequest, None;
    }
    var group := FindGroupByCode(db.groups.rows, code.value);
    if group.None? {
      return NotFound, None;
    }
    var gid := group.value.id;
    if FindMembership(db.members.rows, IdOf(userId), gid).Some? {
      return Conflict, None;
    }
    var uid := IdOf(userId);
    if uid.None? {
      return ServerError, None;
    }
    var membership := Membership(db.members.nextId, uid.value, gid, 0);
    AddFreshMembership(db.members.rows, membership);
    InsertKeepsKeysFresh(db.members, MembershipId, membership);
    assert gid < db.groups.nextId by {
      var i :| 0 <= i < |db.groups.rows| && db.groups.rows[i] == group.value;
    }
    db.members := Insert(db.members, membership);
    return OK, Some(gid);
  }

  /** After a join the user is a member, so the same request a second time
      answers 409. */
  lemma JoinedIsMember(members: seq<Membership>, m: Membership)
    ensures IsGroupMember(members + [m], Some(m.userId), m.groupId)
  {
    assert (members + [m])[|members|] == m;
  }
}
