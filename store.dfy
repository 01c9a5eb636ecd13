/** The MySQL database behind PhotoGroupApp, as in-memory tables. Each table
    is its rows in insertion order plus the next AUTO_INCREMENT value; a
    handler of the routes modules changes the `Database` by replacing whole
    tables, the way its INSERT and DELETE statements do. A `WHERE` clause
    with `fetchone` is the first matching row. */
module Store {
  import opened Wrappers

  datatype User = User(id: nat, username: Option<string>, email: Option<string>, passwordHash: string,
                       phone: Option<string>, profileImage: Option<string>, isSuperAdmin: int)
  datatype Group = Group(id: nat, code: string, createdBy: nat)
  datatype Membership = Membership(id: nat, userId: nat, groupId: nat, isAdmin: int)
  datatype Photo = Photo(id: nat, fileName: string, userId: nat, groupId: nat, uploadDate: int)
  datatype Report = Report(id: nat, reporterId: nat, photoId: nat, uploaderId: nat, reason: string, createdAt: int)
  datatype Ban = Ban(id: nat, phone: Option<string>, username: Option<string>, reason: string, bannedAt: int)

  datatype Table<T> = Table(rows: seq<T>, nextId: nat)

  function UserId(u: User): nat { u.id }
  function GroupId(g: Group): nat { g.id }
  function MembershipId(m: Membership): nat { m.id }
  function MemberUserId(m: Membership): nat { m.userId }
  function PhotoId(p: Photo): nat { p.id }
  function ReportId(r: Report): nat { r.id }
  function BanId(b: Ban): nat { b.id }

  /** Primary keys as AUTO_INCREMENT hands them out: increasing along the
      table and below the next value. */
  predicate IdsIncreasing<T>(rows: seq<T>, id: T -> nat) {
    forall i, j :: 0 <= i < j < |rows| ==> id(rows[i]) < id(rows[j])
  }

  /** At most one row in front of increasing rows with larger ids keeps the
      ids increasing. */
  lemma PrependIncreasing<T>(first: seq<T>, rest: seq<T>, id: T -> nat)
    requires |first| <= 1 && IdsIncreasing(rest, id)
    requires forall a, b :: 0 <= a < |first| && 0 <= b < |rest| ==> id(first[a]) < id(rest[b])
    ensures IdsIncreasing(first + rest, id)
  {
    var r := first + rest;
    forall a, b | 0 <= a < b < |r| ensures id(r[a]) < id(r[b]) {
      assert r[b] == rest[b - |first|];
      if a >= |first| {
        assert r[a] == rest[a - |first|];
      }
    }
  }

  predicate KeysFresh<T>(t: Table<T>, id: T -> nat) {
    IdsIncreasing(t.rows, id) && forall i :: 0 <= i < |t.rows| ==> id(t.rows[i]) < t.nextId
  }

  /** INSERT: the new row takes the next id. */
  function Insert<T>(t: Table<T>, row: T): Table<T> {
    Table(t.rows + [row], t.nextId + 1)
  }

  lemma InsertKeepsKeysFresh<T>(t: Table<T>, id: T -> nat, row: T)
    requires KeysFresh(t, id) && id(row) == t.nextId
    ensures KeysFresh(Insert(t, row), id)
  {
  }

  // ---------------------------------------------------------------------
  // Lookups
  // ---------------------------------------------------------------------

  /** `SELECT ... WHERE <key> = %s` and `fetchone()`: the first row whose key
      is the (coerced) parameter; a parameter that is no number matches no
      row. */
  function FindByKey<T>(rows: seq<T>, key: T -> nat, k: Option<nat>): (r: Option<T>)
    ensures r.Some? ==> r.value in rows && Some(key(r.value)) == k
    ensures r.None? <==> forall i :: 0 <= i < |rows| ==> Some(key(rows[i])) != k
  {
    if |rows| == 0 then None
    else if Some(key(rows[0])) == k then Some(rows[0])
    else
      var r := FindByKey(rows[1..], key, k);
      assert forall i :: 1 <= i < |rows| ==> rows[i] == rows[1..][i - 1];
      r
  }

  /** Under increasing keys the first match is the only one. */
  lemma FindByKeyUnique<T>(rows: seq<T>, key: T -> nat, k: nat, x: T)
    requires IdsIncreasing(rows, key) && x in rows && key(x) == k
    ensures FindByKey(rows, key, Some(k)) == Some(x)
  {
    var found := FindByKey(rows, key, Some(k));
    var i :| 0 <= i < |rows| && rows[i] == x;
    assert found.Some?;
    var j :| 0 <= j < |rows| && rows[j] == found.value;
  }

  function FindUserByEmail(users: seq<User>, email: string): (r: Option<User>)
    ensures r.Some? ==> r.value in users && r.value.email == Some(email)
    ensures r.None? <==> forall i :: 0 <= i < |users| ==> users[i].email != Some(email)
  {
    if |users| == 0 then None
    else if users[0].email == Some(email) then Some(users[0])
    else
      var r := FindUserByEmail(users[1..], email);
      assert forall i :: 1 <= i < |users| ==> users[i] == users[1..][i - 1];
      r
  }

  function FindUserByPhone(users: seq<User>, phone: string): (r: Option<User>)
    ensures r.Some? ==> r.value in users && r.value.phone == Some(phone)
    ensures r.None? <==> forall i :: 0 <= i < |users| ==> users[i].phone != Some(phone)
  {
    if |users| == 0 then None
    else if users[0].phone == Some(phone) then Some(users[0])
    else
      var r := FindUserByPhone(users[1..], phone);
      assert forall i :: 1 <= i < |users| ==> users[i] == users[1..][i - 1];
      r
  }

  function FindGroupByCode(groups: seq<Group>, code: string): (r: Option<Group>)
    ensures r.Some? ==> r.value in groups && r.value.code == code
    ensures r.None? <==> forall i :: 0 <= i < |groups| ==> groups[i].code != code
  {
    if |groups| == 0 then None
    else if groups[0].code == code then Some(groups[0])
    else
      var r := FindGroupByCode(groups[1..], code);
      assert forall i :: 1 <= i < |groups| ==> groups[i] == groups[1..][i - 1];
      r
  }

  /** The codes of all groups, in table order. */
  function Codes(groups: seq<Group>): (r: seq<string>)
    ensures |r| == |groups| && forall i :: 0 <= i < |groups| ==> r[i] == groups[i].code
  {
    seq(|groups|, i requires 0 <= i < |groups| => groups[i].code)
  }

  /** Some row of `groups_members` has this user and this group. */
  predicate IsGroupMember(members: seq<Membership>, userId: Option<nat>, groupId: nat) {
    exists i :: 0 <= i < |members| && Some(members[i].userId) == userId && members[i].groupId == groupId
  }

  /** `SELECT id FROM groups_members WHERE user_id = %s AND group_id = %s`,
      the query of `is_group_member` and of the inline membership checks:
      it finds a row exactly when the user is a member of the group. */
  function FindMembership(members: seq<Membership>, userId: Option<nat>, groupId: nat): (r: Option<Membership>)
    ensures r.Some? ==> r.value in members && Some(r.value.userId) == userId && r.value.groupId == groupId
    ensures r.Some? <==> IsGroupMember(members, userId, groupId)
  {
    if |members| == 0 then None
    else if Some(members[0].userId) == userId && members[0].groupId == groupId then Some(members[0])
    else
      var r := FindMembership(members[1..], userId, groupId);
      assert forall i :: 1 <= i < |members| ==> members[i] == members[1..][i - 1];
      r
  }

  /** The duplicate test of PhotoGroupApp's `register`: some user has this
      email or this username. */
  predicate EmailOrUsernameTaken(users: seq<User>, email: string, username: string) {
    exists i :: 0 <= i < |users| && (users[i].email == Some(email) || users[i].username == Some(username))
  }

  // ---------------------------------------------------------------------
  // Deletions
  // ---------------------------------------------------------------------

  /** `DELETE FROM ... WHERE <key> = %s`: every row whose key is the
      parameter goes, every other row stays, in order. */
  function DeleteByKey<T(!new)>(rows: seq<T>, key: T -> nat, k: Option<nat>): (r: seq<T>)
    ensures |r| <= |rows|
    ensures forall x :: x in r <==> x in rows && Some(key(x)) != k
  {
    if |rows| == 0 then []
    else
      var rest := DeleteByKey(rows[1..], key, k);
      assert rows == [rows[0]] + rows[1..];
      if Some(key(rows[0])) == k then rest else [rows[0]] + rest
  }

  /** A deletion leaves no row with that key. */
  lemma DeleteByKeyRemoves<T(!new)>(rows: seq<T>, key: T -> nat, k: nat)
    ensures forall x :: x in DeleteByKey(rows, key, Some(k)) ==> key(x) != k
  {
  }

  /** Deleting keeps the surviving rows in their order. */
  lemma {:induction false} DeleteByKeyIncreasing<T(!new)>(rows: seq<T>, key: T -> nat, k: Option<nat>, id: T -> nat)
    requires IdsIncreasing(rows, id)
    ensures IdsIncreasing(DeleteByKey(rows, key, k), id)
  {
    if |rows| > 0 {
      var rest := DeleteByKey(rows[1..], key, k);
      assert IdsIncreasing(rows[1..], id) by {
        forall i, j | 0 <= i < j < |rows[1..]| ensures id(rows[1..][i]) < id(rows[1..][j]) {
          assert rows[1..][i] == rows[i + 1] && rows[1..][j] == rows[j + 1];
        }
      }
      DeleteByKeyIncreasing(rows[1..], key, k, id);
      if Some(key(rows[0])) != k {
        var r := [rows[0]] + rest;
        forall i, j | 0 <= i < j < |r| ensures id(r[i]) < id(r[j]) {
          if i == 0 {
            assert r[j] in rest;
            assert r[j] in rows[1..];
            var m :| 0 <= m < |rows[1..]| && rows[1..][m] == r[j];
            assert rows[m + 1] == r[j];
          } else {
            assert r[i] == rest[i - 1] && r[j] == rest[j - 1];
          }
        }
      }
    }
  }

  lemma DeleteByKeyKeepsKeysFresh<T(!new)>(t: Table<T>, key: T -> nat, k: Option<nat>, id: T -> nat)
    requires KeysFresh(t, id)
    ensures KeysFresh(Table(DeleteByKey(t.rows, key, k), t.nextId), id)
  {
    DeleteByKeyIncreasing(t.rows, key, k, id);
    var r := DeleteByKey(t.rows, key, k);
    forall i | 0 <= i < |r| ensures id(r[i]) < t.nextId {
      assert r[i] in t.rows;
    }
  }

  // ---------------------------------------------------------------------
  // The database
  // ---------------------------------------------------------------------

  /** No two groups share a code. */
  predicate CodesDistinct(groups: seq<Group>) {
    forall i, j :: 0 <= i < j < |groups| ==> groups[i].code != groups[j].code
  }

  /** No user is twice a member of one group. */
  predicate MembershipsDistinct(members: seq<Membership>) {
    forall i, j :: 0 <= i < j < |members| ==>
      members[i].userId != members[j].userId || members[i].groupId != members[j].groupId
  }

  lemma {:induction false} DeleteMembershipsDistinct(members: seq<Membership>, k: Option<nat>)
    requires MembershipsDistinct(members)
    ensures MembershipsDistinct(DeleteByKey(members, MemberUserId, k))
  {
    if |members| > 0 {
      var tail := members[1..];
      assert MembershipsDistinct(tail) by {
        forall i, j | 0 <= i < j < |tail|
          ensures tail[i].userId != tail[j].userId || tail[i].groupId != tail[j].groupId
        {
          assert tail[i] == members[i + 1] && tail[j] == members[j + 1];
        }
      }
      DeleteMembershipsDistinct(tail, k);
      var rest := DeleteByKey(tail, MemberUserId, k);
      if Some(members[0].userId) != k {
        var r := [members[0]] + rest;
        forall i, j | 0 <= i < j < |r|
          ensures r[i].userId != r[j].userId || r[i].groupId != r[j].groupId
        {
          if i == 0 {
            assert r[j] in rest;
            assert r[j] in tail;
            var m :| 0 <= m < |tail| && tail[m] == r[j];
            assert members[m + 1] == r[j];
          } else {
            assert r[i] == rest[i - 1] && r[j] == rest[j - 1];
          }
        }
      }
    }
  }

  class Database {
    var users: Table<User>
    var groups: Table<Group>
    var members: Table<Membership>
    var photos: Table<Photo>
    var reports: Table<Report>
    var bans: Table<Ban>

    /** What the schema and the handlers keep true: fresh primary keys,
        group codes unique, memberships pointing at created groups and
        never repeated. */
    ghost predicate Valid()
      reads this
    {
      && KeysFresh(users, UserId)
      && KeysFresh(groups, GroupId)
      && KeysFresh(members, MembershipId)
      && KeysFresh(photos, PhotoId)
      && KeysFresh(reports, ReportId)
      && KeysFresh(bans, BanId)
      && CodesDistinct(groups.rows)
      && MembershipsDistinct(members.rows)
      && (forall i :: 0 <= i < |members.rows| ==> members.rows[i].groupId < groups.nextId)
    }

    /** An empty database; AUTO_INCREMENT starts at 1. */
    constructor ()
      ensures Valid()
      ensures users == Table([], 1) && groups == Table([], 1) && members == Table([], 1)
      ensures photos == Table([], 1) && reports == Table([], 1) && bans == Table([], 1)
    {
      users := Table([], 1);
      groups := Table([], 1);
      members := Table([], 1);
      photos := Table([], 1);
      reports := Table([], 1);
      bans := Table([], 1);
    }
  }
}
