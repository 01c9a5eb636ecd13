/** The group gallery (PhotoAppFrontend/app/media-gallery.js): multi-select
    with a cap of 30, the removal prompts that depend on who uploaded what,
    removal from the local list with the viewer kept in range, and the upload
    of picked assets. Connectivity, permissions, the picker and server
    responses arrive as method parameters; requests are recorded in order. */
module MediaGallery {
  import opened Wrappers
  import opened Strings
  import opened ClientForms
  import opened FileRules

  const MaxSelection := 30

  /** A loaded gallery entry: its id and, when the listing carries one, the
      uploader's id. */
  datatype GalleryItem = GalleryItem(id: nat, uploaderId: Option<nat>)

  datatype RemoveAction = Hide | Delete

  /** The alert a removal press leads to: none, one offering these actions,
      or a TypeError from `p.uploader_id.toString()` on an entry without an
      uploader id. */
  datatype Prompt = NoPrompt | Offer(actions: set<RemoveAction>) | TypeError

  /** A picked library asset: its uri and whether the picker typed it as a
      video. */
  datatype Asset = Asset(uri: string, isVideo: bool)

  datatype Outgoing =
    | ListPhotos(groupId: string, userId: string)
    | Upload(form: UploadForm)
    | BulkAction(userId: string, photoIds: seq<nat>, action: RemoveAction)
    | HidePhoto(userId: string, photoId: nat)
    | DeletePhoto(userId: string, photoId: nat)

  predicate NoDuplicates<T(==)>(s: seq<T>) {
    forall i, j :: 0 <= i < j < |s| ==> s[i] != s[j]
  }

  lemma HeadNotInTail(s: seq<nat>)
    requires NoDuplicates(s) && |s| > 0
    ensures s[0] !in s[1..]
  {
    forall k | 0 <= k < |s| - 1 ensures s[1..][k] != s[0] {
      assert s[1..][k] == s[k + 1];
    }
  }

  /** `s.filter(item => item !== id)`. */
  function Without(s: seq<nat>, id: nat): (r: seq<nat>)
    ensures |r| <= |s|
    ensures forall x :: x in r <==> x in s && x != id
    ensures NoDuplicates(s) ==> NoDuplicates(r)
  {
    if |s| == 0 then []
    else
      var rest := Without(s[1..], id);
      assert forall x :: x in s[1..] ==> x in s;
      if s[0] == id then rest
      else
        assert NoDuplicates(s) ==> s[0] !in s[1..] by {
          if NoDuplicates(s) {
            HeadNotInTail(s);
          }
        }
        [s[0]] + rest
  }

  lemma {:induction false} WithoutAbsent(s: seq<nat>, id: nat)
    requires id !in s
    ensures Without(s, id) == s
  {
    if |s| > 0 {
      assert id !in s[1..] by {
        assert forall x :: x in s[1..] ==> x in s;
      }
      WithoutAbsent(s[1..], id);
    }
  }

  /** In a selection without duplicates, removing a selected id drops that
      one position and keeps every other id in its order. */
  lemma {:induction false} WithoutRemovesOne(s: seq<nat>, i: nat)
    requires NoDuplicates(s) && i < |s|
    ensures Without(s, s[i]) == s[..i] + s[i + 1..]
  {
    if i == 0 {
      HeadNotInTail(s);
      WithoutAbsent(s[1..], s[0]);
      assert s[..0] + s[1..] == s[1..];
    } else {
      var t := s[1..];
      assert NoDuplicates(t) by {
        forall a, b | 0 <= a < b < |t| ensures t[a] != t[b] {
          assert t[a] == s[a + 1] && t[b] == s[b + 1];
        }
      }
      assert t[i - 1] == s[i];
      WithoutRemovesOne(t, i - 1);
      assert s[0] != s[i];
      assert s[..i] + s[i + 1..] == [s[0]] + (t[..i - 1] + t[i..]);
    }
  }

  /** `toggleSelection`: a selected id is removed; a new one is appended
      unless 30 are already selected. */
  function Toggled(s: seq<nat>, id: nat): (r: seq<nat>)
    ensures id in s ==> r == Without(s, id)
    ensures id !in s && |s| >= MaxSelection ==> r == s
    ensures id !in s && |s| < MaxSelection ==> r == s + [id]
  {
    if id in s then Without(s, id)
    else if |s| >= MaxSelection then s
    else s + [id]
  }

  /** Toggling keeps a selection free of duplicates and at most 30 long. */
  lemma ToggledKeepsSelection(s: seq<nat>, id: nat)
    requires NoDuplicates(s) && |s| <= MaxSelection
    ensures NoDuplicates(Toggled(s, id)) && |Toggled(s, id)| <= MaxSelection
  {
    if id !in s && |s| < MaxSelection {
      var r := s + [id];
      forall a, b | 0 <= a < b < |r| ensures r[a] != r[b] {
        if b == |s| {
          assert r[a] == s[a];
        }
      }
    }
  }

  /** Toggling an id twice from a selection that leaves room for it gives
      the selection back. */
  lemma ToggleTwice(s: seq<nat>, id: nat)
    requires NoDuplicates(s) && id !in s && |s| < MaxSelection
    ensures Toggled(Toggled(s, id), id) == s
  {
    var r := s + [id];
    assert NoDuplicates(r) by {
      ToggledKeepsSelection(s, id);
    }
    assert r[|s|] == id;
    WithoutRemovesOne(r, |s|);
    assert r[..|s|] + r[|s| + 1..] == s;
  }

  /** The owner test of both removal prompts: the uploader id, rendered as
      text, equals the screen's `userId` text. */
  predicate Owns(p: GalleryItem, userId: string) {
    p.uploaderId.Some? && NatToString(p.uploaderId.value) == userId
  }

  /** `photos.filter(p => selectedIds.includes(p.id))`. */
  function SelectedMedia(photos: seq<GalleryItem>, selected: seq<nat>): (r: seq<GalleryItem>)
    ensures forall p :: p in r <==> p in photos && p.id in selected
  {
    if |photos| == 0 then []
    else
      var rest := SelectedMedia(photos[1..], selected);
      assert forall p :: p in photos <==> p == photos[0] || p in photos[1..];
      if photos[0].id in selected then [photos[0]] + rest else rest
  }

  /** The first entry that is not the user's has no uploader id: that is
      where `every` calls `toString` on undefined. */
  predicate StopsOnMissingId(items: seq<GalleryItem>, userId: string) {
    exists k :: 0 <= k < |items| && items[k].uploaderId.None? && forall j :: 0 <= j < k ==> Owns(items[j], userId)
  }

  /** Past an entry that is the user's, `every` is where it was one entry on. */
  lemma StopsOnMissingIdTail(items: seq<GalleryItem>, userId: string)
    requires |items| > 0 && Owns(items[0], userId)
    ensures StopsOnMissingId(items, userId) <==> StopsOnMissingId(items[1..], userId)
  {
    var tail := items[1..];
    if StopsOnMissingId(tail, userId) {
      var k :| 0 <= k < |tail| && tail[k].uploaderId.None? && forall j :: 0 <= j < k ==> Owns(tail[j], userId);
      assert items[k + 1] == tail[k];
      forall j | 0 <= j < k + 1 ensures Owns(items[j], userId) {
        if j > 0 {
          assert items[j] == tail[j - 1];
        }
      }
    }
    if StopsOnMissingId(items, userId) {
      var k :| 0 <= k < |items| && items[k].uploaderId.None? && forall j :: 0 <= j < k ==> Owns(items[j], userId);
      assert tail[k - 1] == items[k];
      forall j | 0 <= j < k - 1 ensures Owns(tail[j], userId) {
        assert tail[j] == items[j + 1];
      }
    }
  }

  /** `items.every(p => p.uploader_id.toString() === userId.toString())`,
      which stops at the first entry that is not the user's and throws on an
      entry without an uploader id. */
  function EveryMine(items: seq<GalleryItem>, userId: string): (r: Option<bool>)
    ensures r == Some(true) <==> forall p :: p in items ==> Owns(p, userId)
    ensures r.None? ==> exists p :: p in items && p.uploaderId.None?
    ensures r.None? <==> StopsOnMissingId(items, userId)
  {
    if |items| == 0 then Some(true)
    else if items[0].uploaderId.None? then
      assert items[0] in items && !Owns(items[0], userId);
      None
    else if !Owns(items[0], userId) then
      assert items[0] in items;
      Some(false)
    else
      assert forall p :: p in items <==> p == items[0] || p in items[1..];
      StopsOnMissingIdTail(items, userId);
      EveryMine(items[1..], userId)
  }

  /** `handleBulkRemoveConfirmation`: hide or delete for everyone when every
      selected loaded photo is the user's, hide only otherwise. */
  function BulkPrompt(photos: seq<GalleryItem>, selected: seq<nat>, userId: string): (r: Prompt)
    ensures r != NoPrompt
    ensures r == Offer({Hide, Delete}) <==>
              forall p :: p in photos && p.id in selected ==> Owns(p, userId)
    ensures r.Offer? ==> Hide in r.actions
    ensures r == TypeError ==> exists p :: p in photos && p.id in selected && p.uploaderId.None?
    ensures r == TypeError <==> StopsOnMissingId(SelectedMedia(photos, selected), userId)
    ensures r == Offer({Hide}) <==>
              && !StopsOnMissingId(SelectedMedia(photos, selected), userId)
              && !(forall p :: p in photos && p.id in selected ==> Owns(p, userId))
  {
    match EveryMine(SelectedMedia(photos, selected), userId)
    case None => TypeError
    case Some(mine) =>
      assert {Hide} != {Hide, Delete} by { assert Delete !in {Hide}; }
      if mine then Offer({Hide, Delete}) else Offer({Hide})
  }

  /** `handleRemove`'s choice: nothing when the index has no entry, hide or
      delete for everyone for the uploader, hide only for anyone else. */
  function RemovePrompt(photos: seq<GalleryItem>, currentIndex: nat, userId: string): (r: Prompt)
    ensures r == NoPrompt <==> currentIndex >= |photos|
    ensures r == Offer({Hide, Delete}) <==> currentIndex < |photos| && Owns(photos[currentIndex], userId)
    ensures r == Offer({Hide}) <==>
              currentIndex < |photos| && photos[currentIndex].uploaderId.Some? && !Owns(photos[currentIndex], userId)
    ensures r == TypeError <==> currentIndex < |photos| && photos[currentIndex].uploaderId.None?
  {
    assert {Hide} != {Hide, Delete} by { assert Delete !in {Hide}; }
    if currentIndex >= |photos| then NoPrompt
    else if photos[currentIndex].uploaderId.None? then TypeError
    else if Owns(photos[currentIndex], userId) then Offer({Hide, Delete})
    else Offer({Hide})
  }

  /** `photos.filter(p => p.id !== deletedId)`. */
  function RemovePhoto(photos: seq<GalleryItem>, id: nat): (r: seq<GalleryItem>)
    ensures |r| <= |photos|
    ensures forall p :: p in r <==> p in photos && p.id != id
  {
    if |photos| == 0 then []
    else
      var rest := RemovePhoto(photos[1..], id);
      assert forall p :: p in photos <==> p == photos[0] || p in photos[1..];
      if photos[0].id == id then rest else [photos[0]] + rest
  }

  /** Loaded entries carry distinct ids (they are the photos' primary keys). */
  predicate DistinctIds(photos: seq<GalleryItem>) {
    forall i, j :: 0 <= i < j < |photos| ==> photos[i].id != photos[j].id
  }

  lemma {:induction false} RemovePhotoAbsent(photos: seq<GalleryItem>, id: nat)
    requires forall k :: 0 <= k < |photos| ==> photos[k].id != id
    ensures RemovePhoto(photos, id) == photos
  {
    if |photos| > 0 {
      RemovePhotoAbsent(photos[1..], id);
    }
  }

  /** With distinct ids, removing the entry at `i` drops that one position
      and keeps the others in order. */
  lemma {:induction false} RemovePhotoAt(photos: seq<GalleryItem>, i: nat)
    requires DistinctIds(photos) && i < |photos|
    ensures RemovePhoto(photos, photos[i].id) == photos[..i] + photos[i + 1..]
  {
    var t := photos[1..];
    if i == 0 {
      RemovePhotoAbsent(t, photos[0].id);
      assert photos[..0] + t == t;
    } else {
      assert DistinctIds(t) by {
        forall a, b | 0 <= a < b < |t| ensures t[a].id != t[b].id {
          assert t[a] == photos[a + 1] && t[b] == photos[b + 1];
        }
      }
      assert t[i - 1] == photos[i];
      RemovePhotoAt(t, i - 1);
      assert photos[0].id != photos[i].id;
      assert photos[..i] + photos[i + 1..] == [photos[0]] + (t[..i - 1] + t[i..]);
    }
  }

  /** The viewer index after a removal leaves `remaining` entries: an index
      past the end moves to the last entry, any other is kept. */
  function IndexAfterRemove(remaining: nat, index: nat): (r: nat)
    ensures remaining > 0 ==> r < remaining
    ensures index < remaining || remaining == 0 ==> r == index
    ensures remaining > 0 && index >= remaining ==> r == remaining - 1
  {
    if remaining > 0 && index >= remaining then remaining - 1 else index
  }

  /** Removing the entry on screen shows the one that followed it, or the
      new last entry when it was the last, as the comment on
      `handlePostDeleteNavigation` says. */
  lemma RemoveShowsNeighbour(photos: seq<GalleryItem>, i: nat)
    requires DistinctIds(photos) && i < |photos|
    ensures var r := RemovePhoto(photos, photos[i].id);
            && |r| == |photos| - 1
            && (i + 1 < |photos| ==> r[IndexAfterRemove(|r|, i)] == photos[i + 1])
            && (i + 1 == |photos| && i > 0 ==> r[IndexAfterRemove(|r|, i)] == photos[i - 1])
  {
    RemovePhotoAt(photos, i);
    var r := photos[..i] + photos[i + 1..];
    if i + 1 < |photos| {
      assert r[i] == photos[i + 1];
    } else if i > 0 {
      assert r[i - 1] == photos[i - 1];
    }
  }

  /** The content type `uploadSingleFile` gives an asset: video when the
      picker says so or the name ends in ".mp4" or ".mov". */
  function AssetMime(a: Asset): (m: string)
    ensures m == "video/mp4" <==> a.isVideo || EndsWith(FileNameOf(a.uri), ".mp4") || EndsWith(FileNameOf(a.uri), ".mov")
  {
    var name := FileNameOf(a.uri);
    assert "image/jpeg"[0] != "video/mp4"[0];
    if a.isVideo || EndsWith(name, ".mp4") || EndsWith(name, ".mov") then "video/mp4" else "image/jpeg"
  }

  /** A picked ".mp4" or ".mov" file goes up typed as a video, and the
      server's `allowed_file` refuses its name: the gallery's video uploads
      never become photo rows. */
  lemma PickedVideoRefused(userId: string, groupId: string, a: Asset)
    requires EndsWith(FileNameOf(a.uri), ".mp4") || EndsWith(FileNameOf(a.uri), ".mov")
    ensures AssetForm(userId, groupId, a).mimeType == "video/mp4"
    ensures !AllowedFile(AssetForm(userId, groupId, a).name)
  {
    var name := FileNameOf(a.uri);
    var front, ext := name[..|name| - 4], name[|name| - 3..];
    assert name == front + "." + ext by {
      assert name == front + name[|name| - 4..];
      assert name[|name| - 4..] == "." + ext;
    }
    assert ext == name[|name| - 4..][1..];
    if EndsWith(name, ".mp4") {
      assert ext == ".mp4"[1..];
    } else {
      assert ext == ".mov"[1..];
    }
    LowerCaseKept(ext);
    VideoNotAllowed(front, ext);
  }

  /** "mp4" and "mov" are already lower case. */
  lemma LowerCaseKept(ext: string)
    requires ext == "mp4" || ext == "mov"
    ensures '.' !in ext && AsciiLower(ext) == ext && ext in VideoExtensions
  {
    var r := AsciiLower(ext);
    assert r[0] == ext[0] && r[1] == ext[1] && r[2] == ext[2];
  }

  function AssetForm(userId: string, groupId: string, a: Asset): (f: UploadForm)
    ensures f.userId == userId && f.groupId == groupId && f.uri == a.uri
    ensures f.name == FileNameOf(a.uri) && f.mimeType == AssetMime(a)
  {
    UploadForm(userId, groupId, a.uri, FileNameOf(a.uri), AssetMime(a))
  }

  /** The uploads of a batch, one per asset, in the picker's order. */
  function AssetUploads(userId: string, groupId: string, assets: seq<Asset>): (r: seq<Outgoing>)
    ensures |r| == |assets|
    ensures forall i :: 0 <= i < |assets| ==> r[i] == Upload(AssetForm(userId, groupId, assets[i]))
  {
    seq(|assets|, i requires 0 <= i < |assets| => Upload(AssetForm(userId, groupId, assets[i])))
  }

  class Gallery {
    var photos: seq<GalleryItem>
    var loading: bool
    var uploading: bool
    var viewerVisible: bool
    var showOptions: bool
    var isSelectionMode: bool
    var selectedIds: seq<nat>
    var currentIndex: nat
    /** The requests sent so far, oldest first. */
    var sent: seq<Outgoing>
    const userId: string
    const groupId: string

    /** The selection never repeats an id and never exceeds 30. */
    ghost predicate Valid()
      reads this
    {
      NoDuplicates(selectedIds) && |selectedIds| <= MaxSelection
    }

    constructor (userId: string, groupId: string)
      ensures Valid()
      ensures this.userId == userId && this.groupId == groupId
      ensures photos == [] && loading && !uploading && !viewerVisible && !showOptions
      ensures !isSelectionMode && selectedIds == [] && currentIndex == 0 && sent == []
    {
      this.userId := userId;
      this.groupId := groupId;
      photos := [];
      loading := true;
      uploading := false;
      viewerVisible := false;
      showOptions := false;
      isSelectionMode := false;
      selectedIds := [];
      currentIndex := 0;
      sent := [];
    }

    /** `fetchPhotos`: the listing request, then the entries when the
        response is ok (`listing` is None otherwise); loading ends. */
    method FetchPhotos(listing: Option<seq<GalleryItem>>)
      requires Valid()
      modifies this`sent, this`photos, this`loading
      ensures Valid() && !loading
      ensures sent == old(sent) + [ListPhotos(groupId, userId)]
      ensures photos == if listing.Some? then listing.value else old(photos)
    {
      sent := sent + [ListPhotos(groupId, userId)];
      if listing.Some? {
        photos := listing.value;
      }
      loading := false;
    }

    /** `toggleSelectionMode`: the mode flips and the selection and the
        options menu are cleared. */
    method ToggleSelectionMode()
      requires Valid()
      modifies this`isSelectionMode, this`selectedIds, this`showOptions
      ensures Valid()
      ensures isSelectionMode == !old(isSelectionMode) && selectedIds == [] && !showOptions
    {
      isSelectionMode := !isSelectionMode;
      selectedIds := [];
      showOptions := false;
    }

    /** `toggleSelection`. */
    method ToggleSelection(id: nat)
      requires Valid()
      modifies this`selectedIds
      ensures Valid()
      ensures selectedIds == Toggled(old(selectedIds), id)
    {
      ToggledKeepsSelection(selectedIds, id);
      if id in selectedIds {
        selectedIds := Without(selectedIds, id);
      } else if |selectedIds| >= MaxSelection {
        return;
      } else {
        selectedIds := selectedIds + [id];
      }
    }

    /** A grid press: toggles the item in selection mode, otherwise opens
        the viewer at that item. */
    method PressItem(index: nat)
      requires Valid() && index < |photos|
      modifies this`selectedIds, this`currentIndex, this`viewerVisible
      ensures Valid()
      ensures old(isSelectionMode) ==>
                selectedIds == Toggled(old(selectedIds), photos[index].id) && unchanged(this`currentIndex, this`viewerVisible)
      ensures !old(isSelectionMode) ==> currentIndex == index && viewerVisible && selectedIds == old(selectedIds)
    {
      if isSelectionMode {
        ToggleSelection(photos[index].id);
      } else {
        currentIndex := index;
        viewerVisible := true;
      }
    }

    /** `handleBulkRemoveConfirmation`. It changes nothing. */
    method BulkRemoveConfirmation() returns (prompt: Prompt)
      ensures prompt == BulkPrompt(photos, selectedIds, userId)
      ensures prompt == Offer({Hide, Delete}) <==>
                forall p :: p in photos && p.id in selectedIds ==> Owns(p, userId)
    {
      prompt := BulkPrompt(photos, selectedIds, userId);
    }

    /** `processBulkRemove`: nothing without a connection; otherwise one
        bulk-action request for the whole selection, a refetch when the
        response is ok (`refreshed`), and whatever the outcome selection mode
        toggles and the selection is cleared. */
    method ProcessBulkRemove(action: RemoveAction, connected: bool, responseOk: bool,
                             refreshed: Option<seq<GalleryItem>>)
      requires Valid()
      modifies this
      ensures Valid()
      ensures !connected ==> unchanged(this)
      ensures connected ==>
                && sent == old(sent) + [BulkAction(userId, old(selectedIds), action)]
                            + (if responseOk then [ListPhotos(groupId, userId)] else [])
                && isSelectionMode == !old(isSelectionMode) && selectedIds == [] && !showOptions && !loading
                && photos == (if responseOk && refreshed.Some? then refreshed.value else old(photos))
      ensures unchanged(this`viewerVisible, this`currentIndex, this`uploading)
    {
      if !connected {
        return;
      }
      loading := true;
      sent := sent + [BulkAction(userId, selectedIds, action)];
      if responseOk {
        FetchPhotos(refreshed);
      }
      loading := false;
      ToggleSelectionMode();
    }

    /** `handleRemove`: the prompt for the entry on screen; the options menu
        closes when there is one. */
    method HandleRemove() returns (prompt: Prompt)
      requires Valid()
      modifies this`showOptions
      ensures Valid()
      ensures prompt == RemovePrompt(photos, currentIndex, userId)
      ensures showOptions == (old(showOptions) && currentIndex >= |photos|)
    {
      prompt := RemovePrompt(photos, currentIndex, userId);
      if currentIndex < |photos| {
        showOptions := false;
      }
    }

    /** `handlePostDeleteNavigation`: the entry leaves the local list; the
        viewer closes when the list is empty, otherwise the index is pulled
        back into range and kept when already in range. */
    method PostDeleteNavigation(deletedId: nat)
      requires Valid()
      modifies this`photos, this`viewerVisible, this`currentIndex
      ensures Valid()
      ensures photos == RemovePhoto(old(photos), deletedId)
      ensures forall p :: p in photos ==> p.id != deletedId
      ensures viewerVisible == (old(viewerVisible) && |photos| > 0)
      ensures currentIndex == IndexAfterRemove(|photos|, old(currentIndex))
      ensures |photos| > 0 ==> currentIndex < |photos|
      ensures |photos| > 0 && old(currentIndex) >= |photos| ==> currentIndex == |photos| - 1
    {
      photos := RemovePhoto(photos, deletedId);
      if |photos| == 0 {
        viewerVisible := false;
      } else if currentIndex >= |photos| {
        currentIndex := |photos| - 1;
      }
    }

    /** `performHidePhoto` and `performDeletePhoto`: with a connection, one
        request; an ok response removes the entry locally. */
    method PerformRemove(action: RemoveAction, photoId: nat, connected: bool, responseOk: bool)
      requires Valid()
      modifies this`sent, this`photos, this`viewerVisible, this`currentIndex
      ensures Valid()
      ensures !connected ==> unchanged(this)
      ensures connected ==> sent == old(sent) + [if action == Hide then HidePhoto(userId, photoId)
                                                 else DeletePhoto(userId, photoId)]
      ensures connected && responseOk ==>
                && photos == RemovePhoto(old(photos), photoId)
                && viewerVisible == (old(viewerVisible) && |photos| > 0)
                && currentIndex == IndexAfterRemove(|photos|, old(currentIndex))
      ensures !(connected && responseOk) ==> unchanged(this`photos, this`viewerVisible, this`currentIndex)
    {
      if !connected {
        return;
      }
      sent := sent + [if action == Hide then HidePhoto(userId, photoId) else DeletePhoto(userId, photoId)];
      if responseOk {
        PostDeleteNavigation(photoId);
      }
    }

    /** `handleUpload`: with a connection and library permission, each
        picked asset is uploaded in order (`picked` is None when the picker
        was cancelled), then the listing is fetched again. */
    method HandleUpload(connected: bool, granted: bool, picked: Option<seq<Asset>>,
                        refreshed: Option<seq<GalleryItem>>)
      requires Valid()
      modifies this`sent, this`uploading, this`photos, this`loading
      ensures Valid()
      ensures !(connected && granted && picked.Some?) ==> unchanged(this)
      ensures connected && granted && picked.Some? ==>
                && !uploading && !loading
                && sent == old(sent) + AssetUploads(userId, groupId, picked.value) + [ListPhotos(groupId, userId)]
                && photos == (if refreshed.Some? then refreshed.value else old(photos))
    {
      if !connected || !granted || picked.None? {
        return;
      }
      var assets := picked.value;
      uploading := true;
      var i := 0;
      while i < |assets|
        invariant 0 <= i <= |assets|
        invariant sent == old(sent) + AssetUploads(userId, groupId, assets[..i])
        invariant photos == old(photos)
      {
        assert assets[..i + 1] == assets[..i] + [assets[i]];
        assert AssetUploads(userId, groupId, assets[..i + 1])
            == AssetUploads(userId, groupId, assets[..i]) + [Upload(AssetForm(userId, groupId, assets[i]))];
        sent := sent + [Upload(AssetForm(userId, groupId, assets[i]))];
        i := i + 1;
      }
      assert assets[..i] == assets;
      uploading := false;
      FetchPhotos(refreshed);
    }
  }
}
