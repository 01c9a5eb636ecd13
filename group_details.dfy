/** The group page (PhotoAppFrontend/app/group-details.js): who counts as
    the group's admin, the admin-only actions, the edit form and its change
    detection, and the member menus. Server answers arrive as method
    parameters; requests are recorded in order. */
module GroupDetails {
  import opened Wrappers
  import opened Strings
  import opened Patterns
  import opened ClientForms

  /** A row of /get-group-members as the screen reads it. */
  datatype Member = Member(id: nat, isAdmin: int, isBlockedByMe: int)

  /** `groupDetails`: the fields the screen reads or sets; a field absent
      from the object is None. */
  datatype GroupInfo = GroupInfo(name: Option<string>, code: Option<string>, picture: Option<string>,
                                 joiningActive: Option<int>)

  /** The `picture` part of the edit form. */
  datatype PicturePart = PicturePart(uri: string, name: string, mimeType: string)

  datatype RequestAnswer = Accept | Decline
  datatype MemberAction = Block | Unblock | Kick | Promote

  datatype Outgoing =
    | Refetch
    | ManageRequest(adminId: string, groupId: string, targetId: nat, answer: RequestAnswer)
    | ToggleJoining(userId: string, groupId: string, status: int)
    | EditGroup(userId: string, groupId: string, groupName: string, picture: Option<PicturePart>)
    | BlockUser(blockerId: string, blockedId: nat)
    | UnblockUser(blockerId: string, blockedId: nat)
    | ManageMember(adminId: string, groupId: string, targetId: nat, action: MemberAction)

  /** `members.find(m => m.id.toString() === userId.toString())`: the first
      member whose id, as text, is the screen's user id. */
  function FindMember(members: seq<Member>, userId: string): (r: Option<Member>)
    ensures r.Some? ==> r.value in members && NatToString(r.value.id) == userId
    ensures r.None? <==> forall i :: 0 <= i < |members| ==> NatToString(members[i].id) != userId
    ensures r.Some? ==> exists i :: 0 <= i < |members| && members[i] == r.value
                                && forall j :: 0 <= j < i ==> NatToString(members[j].id) != userId
  {
    if |members| == 0 then None
    else if NatToString(members[0].id) == userId then Some(members[0])
    else
      var r := FindMember(members[1..], userId);
      assert forall i :: 1 <= i < |members| ==> members[i] == members[1..][i - 1];
      if r.Some? then
        ghost var k :| 0 <= k < |members[1..]| && members[1..][k] == r.value
                       && forall j :: 0 <= j < k ==> NatToString(members[1..][j].id) != userId;
        assert members[k + 1] == r.value;
        r
      else r
  }

  /** `currentUser?.is_admin === 1`. */
  function AdminFlag(members: seq<Member>, userId: string): (r: bool)
    ensures r ==> exists m :: m in members && NatToString(m.id) == userId && m.isAdmin == 1
    ensures (forall m :: m in members ==> NatToString(m.id) != userId) ==> !r
  {
    var found := FindMember(members, userId);
    found.Some? && found.value.isAdmin == 1
  }

  /** With the user listed once, the flag is exactly that member's admin
      bit. */
  lemma AdminFlagOfListedUser(members: seq<Member>, userId: string, i: nat)
    requires i < |members| && NatToString(members[i].id) == userId
    requires forall j :: 0 <= j < |members| && j != i ==> NatToString(members[j].id) != userId
    ensures AdminFlag(members, userId) <==> members[i].isAdmin == 1
  {
    var found := FindMember(members, userId);
    var k :| 0 <= k < |members| && members[k] == found.value
             && forall j :: 0 <= j < k ==> NatToString(members[j].id) != userId;
    assert k == i;
  }

  /** `checkChanges`: the trimmed name differs from the stored one (which
      is undefined without group details), or an image was picked. */
  predicate EditChanged(group: Option<GroupInfo>, newName: string, newImage: Option<string>) {
    || (group.None? || group.value.name != Some(Trim(newName)))
    || newImage.Some?
  }

  /** Leaving a stored name without outer spaces as it is, with no image,
      is no change. */
  lemma StoredNameIsNoChange(group: Option<GroupInfo>, name: string)
    requires group.Some? && group.value.name == Some(name)
    requires |name| > 0 ==> !IsJsSpace(name[0]) && !IsJsSpace(name[|name| - 1])
    ensures !EditChanged(group, name, None)
  {
    TrimOfTrimmed(name);
  }

  /** The name the edit form opens with: the stored name, or "" for a
      missing or empty one. */
  function OpeningName(group: Option<GroupInfo>): (r: string)
    ensures group.Some? && group.value.name.Some? ==> r == group.value.name.value
    ensures group.None? || group.value.name.None? ==> r == ""
  {
    if group.Some? && group.value.name.Some? then group.value.name.value else ""
  }

  /** Re-checking the form as it opens: the stored name counts as unchanged
      exactly when trimming leaves it as it is; without a stored name even
      the untouched form counts as a change. */
  lemma OpeningNameUnedited(group: Option<GroupInfo>)
    ensures group.Some? && group.value.name.Some? ==>
              (!EditChanged(group, OpeningName(group), None) <==> Trim(group.value.name.value) == group.value.name.value)
    ensures group.None? || group.value.name.None? ==> EditChanged(group, OpeningName(group), None)
  {
  }

  /** The picture part for a picked image, typed by its extension. */
  function PicturePartFor(image: Option<string>): (r: Option<PicturePart>)
    ensures r.Some? <==> image.Some? && image.value != ""
    ensures r.Some? ==> r.value.uri == image.value && r.value.name == FileNameOf(image.value)
                        && r.value.mimeType == ImageMimeType(FileNameOf(image.value))
    ensures r.Some? ==> '/' !in r.value.name && EndsWith(image.value, r.value.name)
                        && StartsWith(r.value.mimeType, "image")
  {
    if image.Some? && image.value != "" then
      var name := FileNameOf(image.value);
      var mime := ImageMimeType(name);
      assert StartsWith(mime, "image") by {
        assert mime[..5] == "image";
      }
      Some(PicturePart(image.value, name, mime))
    else None
  }

  /** `setGroupDetails(prev => ({ ...prev, is_joining_active: value ? 1 : 0 }))`:
      only the joining flag changes; spreading null keeps nothing else. */
  function WithJoining(prev: Option<GroupInfo>, value: bool): (r: GroupInfo)
    ensures r.joiningActive == Some(if value then 1 else 0)
    ensures prev.Some? ==> r.name == prev.value.name && r.code == prev.value.code && r.picture == prev.value.picture
    ensures prev.None? ==> r.name.None? && r.code.None? && r.picture.None?
  {
    var flag := if value then 1 else 0;
    match prev
    case Some(g) => g.(joiningActive := Some(flag))
    case None => GroupInfo(None, None, None, Some(flag))
  }

  /** Turning joining off and on again restores a group whose joining was
      on. */
  lemma JoiningToggleRestores(g: GroupInfo)
    requires g.joiningActive == Some(1)
    ensures WithJoining(Some(WithJoining(Some(g), false)), true) == g
  {
  }

  class GroupPage {
    var group: Option<GroupInfo>
    var members: seq<Member>
    var isAdmin: bool
    var loading: bool
    var editModalVisible: bool
    var editName: string
    var editImage: Option<string>
    var hasChanges: bool
    var saving: bool
    /** `activeMenuMemberId`: the one member whose menu is open, if any. */
    var activeMenu: Option<nat>
    var sent: seq<Outgoing>
    const userId: string
    const groupId: string

    /** The admin flag is always the one derived from the member list, and
        no save is in flight between handlers. */
    ghost predicate Valid()
      reads this
    {
      isAdmin == AdminFlag(members, userId) && !saving
    }

    constructor (userId: string, groupId: string)
      ensures Valid()
      ensures this.userId == userId && this.groupId == groupId
      ensures group.None? && members == [] && !isAdmin && loading && !editModalVisible
      ensures editName == "" && editImage.None? && !hasChanges && activeMenu.None? && sent == []
    {
      this.userId := userId;
      this.groupId := groupId;
      group := None;
      members := [];
      isAdmin := false;
      loading := true;
      editModalVisible := false;
      editName := "";
      editImage := None;
      hasChanges := false;
      saving := false;
      activeMenu := None;
      sent := [];
    }

    /** `fetchData`: ok answers replace the group details and the member
        list, and the admin flag is derived from the new list. */
    method FetchData(details: Option<GroupInfo>, listed: Option<seq<Member>>)
      requires Valid()
      modifies this`group, this`members, this`isAdmin, this`loading
      ensures Valid() && !loading
      ensures group == if details.Some? then details else old(group)
      ensures members == if listed.Some? then listed.value else old(members)
      ensures listed.Some? ==> isAdmin == AdminFlag(listed.value, userId)
    {
      if details.Some? {
        group := details;
      }
      if listed.Some? {
        members := listed.value;
        isAdmin := AdminFlag(members, userId);
      }
      loading := false;
    }

    /** `handleEditGroupPress`: the form opens on the stored name, with no
        image and no changes. */
    method EditGroupPress()
      requires Valid()
      modifies this`editName, this`editImage, this`hasChanges, this`editModalVisible
      ensures Valid()
      ensures editName == OpeningName(group) && editImage.None? && !hasChanges && editModalVisible
    {
      editName := OpeningName(group);
      editImage := None;
      hasChanges := false;
      editModalVisible := true;
    }

    /** `onNameChange`. */
    method NameChange(text: string)
      requires Valid()
      modifies this`editName, this`hasChanges
      ensures Valid() && editName == text
      ensures hasChanges == EditChanged(group, text, editImage)
    {
      editName := text;
      hasChanges := EditChanged(group, text, editImage);
    }

    /** `openCamera` / `openGallery` of the edit form: a granted, not
        cancelled pick becomes the image, which always counts as a change. */
    method PickImage(granted: bool, picked: Option<string>)
      requires Valid()
      modifies this`editImage, this`hasChanges
      ensures Valid()
      ensures !(granted && picked.Some?) ==> unchanged(this`editImage, this`hasChanges)
      ensures granted && picked.Some? ==> editImage == picked && hasChanges
    {
      if granted && picked.Some? {
        editImage := picked;
        hasChanges := EditChanged(group, editName, picked);
      }
    }

    /** `handleSaveChanges`: nothing without changes; otherwise one edit
        form, and an ok answer closes the form and refetches. */
    method SaveChanges(responseOk: bool)
      requires Valid()
      modifies this`sent, this`editModalVisible, this`saving
      ensures Valid()
      ensures !hasChanges ==> unchanged(this)
      ensures hasChanges ==>
                sent == old(sent) + [EditGroup(userId, groupId, editName, PicturePartFor(editImage))]
                        + (if responseOk then [Refetch] else [])
      ensures hasChanges && responseOk ==> !editModalVisible
      ensures !responseOk ==> editModalVisible == old(editModalVisible)
    {
      if !hasChanges {
        return;
      }
      saving := true;
      sent := sent + [EditGroup(userId, groupId, editName, PicturePartFor(editImage))];
      if responseOk {
        editModalVisible := false;
        sent := sent + [Refetch];
      }
      saving := false;
    }

    /** `handleRequestAction`: refused for a non-admin before any request. */
    method RequestAction(targetId: nat, answer: RequestAnswer, responseOk: bool)
      requires Valid()
      modifies this`sent
      ensures Valid()
      ensures !isAdmin ==> sent == old(sent)
      ensures isAdmin ==> sent == old(sent) + [ManageRequest(userId, groupId, targetId, answer)]
                                  + (if responseOk then [Refetch] else [])
    {
      if !isAdmin {
        return;
      }
      sent := sent + [ManageRequest(userId, groupId, targetId, answer)];
      if responseOk {
        sent := sent + [Refetch];
      }
    }

    /** `handleToggleJoining`: refused for a non-admin; an ok answer sets
        the joining flag and keeps the other details. */
    method ToggleJoiningSwitch(value: bool, responseOk: bool)
      requires Valid()
      modifies this`sent, this`group
      ensures Valid()
      ensures !isAdmin ==> unchanged(this`sent, this`group)
      ensures isAdmin ==> sent == old(sent) + [ToggleJoining(userId, groupId, if value then 1 else 0)]
      ensures isAdmin && responseOk ==> group == Some(WithJoining(old(group), value))
      ensures !(isAdmin && responseOk) ==> group == old(group)
    {
      if !isAdmin {
        return;
      }
      sent := sent + [ToggleJoining(userId, groupId, if value then 1 else 0)];
      if responseOk {
        group := Some(WithJoining(group, value));
      }
    }

    /** `toggleMenu`: opens this member's menu, closing any other, or closes
        it when it is the open one. */
    method ToggleMenu(memberId: nat)
      requires Valid()
      modifies this`activeMenu
      ensures Valid()
      ensures activeMenu == if old(activeMenu) == Some(memberId) then None else Some(memberId)
    {
      if activeMenu == Some(memberId) {
        activeMenu := None;
      } else {
        activeMenu := Some(memberId);
      }
    }

    /** A menu entry (block, unblock, kick, promote): the menu closes first;
        the request goes out once the alert is confirmed, and an ok answer
        refetches. The menu is the open one, and it lists kick and promote
        only for an admin. */
    method MenuAction(action: MemberAction, target: Member, confirmed: bool, responseOk: bool)
      requires Valid()
      requires activeMenu == Some(target.id)
      requires action == Kick || action == Promote ==> isAdmin
      modifies this`activeMenu, this`sent
      ensures Valid() && activeMenu.None?
      ensures !confirmed ==> sent == old(sent)
      ensures confirmed ==>
                sent == old(sent)
                        + [match action
                           case Block => BlockUser(userId, target.id)
                           case Unblock => UnblockUser(userId, target.id)
                           case _ => ManageMember(userId, groupId, target.id, action)]
                        + (if responseOk then [Refetch] else [])
    {
      activeMenu := None;
      if !confirmed {
        return;
      }
      var request := match action
        case Block => BlockUser(userId, target.id)
        case Unblock => UnblockUser(userId, target.id)
        case _ => ManageMember(userId, groupId, target.id, action);
      sent := sent + [request];
      if responseOk {
        sent := sent + [Refetch];
      }
    }
  }
}
