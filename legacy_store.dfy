/** The smaller schema of the older server (app.py and the routes directory at the
    repository root): users known by phone number only, groups by code,
    memberships without an admin flag, photos. Tables reuse the shape of
    `Store.Table`. */
module LegacyStore {
  import opened Wrappers
  import S = Store

  datatype User = User(id: nat, phone: string)
  datatype Group = Group(id: nat, code: string)
  datatype Membership = Membership(id: nat, userId: nat, groupId: nat)
  datatype Photo = Photo(id: nat, fileName: string, userId: nat, groupId: nat, uploadDate: int)

  function UserId(u: User): nat { u.id }
  function GroupId(g: Group): nat { g.id }
  function MembershipId(m: Membership): nat { m.id }
  function PhotoId(p: Photo): nat { p.id }

  function FindUserByPhone(users: seq<User>, phone: string): (r: Option<User>)
    ensures r.Some? ==> r.value in users && r.value.phone == phone
    ensures r.None? <==> forall i :: 0 <= i < |users| ==> users[i].phone != phone
  {
    if |users| == 0 then None
    else if users[0].phone == phone then Some(users[0])
    else
      var r := FindUserByPhone(users[1..], phone);
      assert forall i :: 1 <= i < |users| ==> users[i] == users[1..][i - 1];
      r
  }

  function FindGroupByCode(groups: seq<Group>, code: string): (r: Option<Group>)
    ensures r.Some? ==> r.value in groups && r.value.code == code
    ensures r.None? <==> forall i :: 0 <= i < |groups| ==> groups[i].code != code
  {
    if |groups| == 0 then None
    else if groups[0].code == code then Some(groups[0])
    else
      var r := FindGroupByCode(groups[1..], code);
      assert forall i :: 1 <= i < |groups| ==> groups[i] == groups[1..][i - 1];
      r
  }

  function Codes(groups: seq<Group>): (r: seq<string>)
    ensures |r| == |groups| && forall i :: 0 <= i < |groups| ==> r[i] == groups[i].code
  {
    seq(|groups|, i requires 0 <= i < |groups| => groups[i].code)
  }

  predicate CodesDistinct(groups: seq<Group>) {
    forall i, j :: 0 <= i < j < |groups| ==> groups[i].code != groups[j].code
  }

  /** How many membership rows pair this user with this group. */
  function MembershipCount(members: seq<Membership>, userId: nat, groupId: nat): nat {
    if |members| == 0 then 0
    else (if members[0].userId == userId && members[0].groupId == groupId then 1 else 0)
         + MembershipCount(members[1..], userId, groupId)
  }

  lemma {:induction false} MembershipCountAppend(members: seq<Membership>, m: Membership, userId: nat, groupId: nat)
    ensures MembershipCount(members + [m], userId, groupId)
         == MembershipCount(members, userId, groupId) + (if m.userId == userId && m.groupId == groupId then 1 else 0)
  {
    if |members| == 0 {
      assert members + [m] == [m];
      assert [m][1..] == [];
    } else {
      assert (members + [m])[1..] == members[1..] + [m];
      MembershipCountAppend(members[1..], m, userId, groupId);
    }
  }

  class Database {
    var users: S.Table<User>
    var groups: S.Table<Group>
    var members: S.Table<Membership>
    var photos: S.Table<Photo>

    /** Fresh primary keys and distinct group codes. Memberships may repeat. */
    ghost predicate Valid()
      reads this
    {
      && S.KeysFresh(users, UserId)
      && S.KeysFresh(groups, GroupId)
      && S.KeysFresh(members, MembershipId)
      && S.KeysFresh(photos, PhotoId)
      && CodesDistinct(groups.rows)
    }

    constructor ()
      ensures Valid()
      ensures users == S.Table([], 1) && groups == S.Table([], 1)
      ensures members == S.Table([], 1) && photos == S.Table([], 1)
    {
      users := S.Table([], 1);
      groups := S.Table([], 1);
      members := S.Table([], 1);
      photos := S.Table([], 1);
    }
  }
}
