# Photo-App: a Dafny model of the group photo server and its mobile screens

Photo-App lets people share photos in groups. A user signs up and logs in,
creates a group (which gets an 8-character join code) or joins one by its
code, then uploads photos into the group and browses the group's photos
newest first. A super admin can moderate reported content and ban users.

This project models two Flask servers and five React Native screens.

- **The current server**, `PhotoGroupApp/routes`:
  - registration, login, profile update and account deletion;
  - group creation and joining;
  - photo upload and the group listing;
  - the moderation routes: reports, bans, unbans and report resolution.
- **The older server**, `app.py` and `routes` at the repository root: sign-up by phone number, groups, uploads and the listing.
- **The client screens**: the camera, the media gallery, profile editing, sign-up and the group details page.

How the model is built:
- **Database.** The MySQL database is a class of tables. Each table is a sequence of rows plus the next auto-increment id. A route handler is a method that checks the request, answers with a status code, and inserts, updates or deletes rows.
- **Screens.** Each screen is a class whose fields are the screen's state (the `useState` hooks). An event handler is a method on that class.
- **Outside results as parameters.** Anything the code gets from outside is a parameter of the method: server answers, camera shots, picker results, SMS delivery, connectivity, the clock, random draws, `secure_filename`, `url_for` and password hashing.
- **Requests as a log.** What a screen sends to the server is appended to a log field, so contracts can say exactly which request a handler sends.
- **Client and server side by side.** Each side is modelled as written, including what they disagree on. The `Interop` module puts the client's request shapes next to the server's handlers.

Shared pieces:
- text helpers (`Strings`);
- the regular expressions the screens use (`Patterns`);
- file-name rules (`FileRules`);
- the group-code generator (`GroupCodes`);
- descending sort (`Ordering`);
- the request model (`Http`).

Where the written description and the code disagree, the model follows the code:
- **Selection.** The gallery's selection is an ordered list capped at 30 ids, not a set.
- **Ownership check.** The bulk-remove ownership check looks only at selected photos that are currently loaded. It fails (a type error) on a loaded photo without an uploader id.
- **Camera buttons.** The PHOTO mode button always resets the zoom, even when the camera is already in picture mode. The VIDEO button does nothing in video mode.
- **Profile validation.** The profile screen validates only the e-mail. Its phone field has no length check.
- **No pagination.** The listing is not paginated.
- **Login field.** The client's login sends `phone_number`, but the current server reads `email`.
- **Upload and listing fields.** The client's upload and listing send `group_id`, but both servers read `group_code`.

## Model

| member | source | states |
|---|---|---|
| Strings.ParseNatToString | PhotoAppFrontend/app/group-details.js:53 | rendering an id in decimal and reading it back gives the id (the `toString()` comparisons of ids) |
| Strings.TrimSpec | PhotoAppFrontend/app/group-details.js:244 | the text is white space, the trimmed text, then white space, and a non-empty trimmed text neither starts nor ends with white space |
| Patterns.MatchesEmailSpec | PhotoAppFrontend/app/register.js:29-33 | the `/^.+@.+\.com$/` test accepts exactly a non-empty local part, "@", a non-empty domain and ".com", with no line terminator |
| Patterns.EmailFlagSpec | PhotoAppFrontend/app/edit-profile.js:83-88 | the e-mail flag holds exactly for the empty text or a text of the pattern's language |
| Patterns.CapturedExtensionSpec | PhotoAppFrontend/app/edit-profile.js:152 | `/\.(\w+)$/` captures the longest run of word characters ending the name, when a "." precedes it |
| Patterns.ImageMimeTypeSpec | PhotoAppFrontend/app/edit-profile.js:152-153 | the part type is "image/" plus the captured extension, or "image" when nothing matches |
| FileRules.AllowedFileSplits | PhotoGroupApp/routes/photos.py:11-14 | an accepted name is a front, ".", and an allowed extension after the last "." (any case) |
| FileRules.AllowedSplitAllowed | PhotoGroupApp/routes/auth.py:14-15 | conversely, any name split into a front and an allowed extension without "." is accepted |
| FileRules.VideoNotAllowed | routes/photos.py:11-14 | a name whose last extension is a video extension, in any letter case, is never accepted as an upload |
| FileRules.MediaTypeOf | PhotoGroupApp/routes/admin.py:88-95 | no "." means failure, a video extension after the last "." means Video, anything else Image |
| FileRules.MediaTypeOfJoin | PhotoGroupApp/routes/admin.py:88-95 | a stored name front + "." + ext is listed by the lower-cased ext |
| GroupCodes.GenerateGroupCode | PhotoGroupApp/routes/groups.py:9-12 | the code has 8 characters over A-Z and 0-9, each picked by its draw |
| GroupCodes.EveryCodeCanBeDrawn | PhotoGroupApp/routes/groups.py:9-12 | every 8-character code over A-Z and 0-9 is produced by some draw |
| GroupCodes.DrawUnusedCode | PhotoGroupApp/routes/groups.py:31-36 | the loop stops at the first draw whose code is unused: the result is unused and every earlier draw was taken |
| Ordering.SortDescSorted | PhotoGroupApp/routes/photos.py:135 | the descending sort behind `ORDER BY ... DESC` yields a list ordered newest first |
| Ordering.SortDescSameElements | PhotoGroupApp/routes/admin.py:120 | the sorted list holds exactly the rows it was given |
| Store.InsertKeepsKeysFresh | PhotoGroupApp/routes/groups.py:40-47 | an auto-increment insert keeps ids increasing and below the next id |
| Store.FindByKeyUnique | PhotoGroupApp/routes/admin.py:230-235 | with increasing ids a lookup by id finds the one row with that id |
| Store.FindUserByEmail | PhotoGroupApp/routes/auth.py:78-79 | the first user with that e-mail, or None when there is none |
| Store.FindUserByPhone | PhotoGroupApp/routes/admin.py:182-184 | the first user with that phone number, or None when there is none (the phone lookup of manual_ban) |
| Store.FindGroupByCode | PhotoGroupApp/routes/groups.py:82-89 | the group with that code, or None when no group has it |
| Store.FindMembership | PhotoGroupApp/routes/photos.py:16-27 | a membership row of that user and group exists exactly when one is found |
| Store.DeleteByKeyRemoves | PhotoGroupApp/routes/auth.py:187-191 | after deleting by id no remaining row has that id |
| Store.DeleteMembershipsDistinct | PhotoGroupApp/routes/auth.py:187-188 | deleting rows keeps at most one membership per user and group |
| Http.IdOfRendered | PhotoGroupApp/routes/photos.py:118-121 | an id the server rendered and the client sent back designates the same row |
| AuthRoutes.Register | PhotoGroupApp/routes/auth.py:17-60 | 415 for a non-JSON body, 400 for a missing field, 409 when the e-mail or username is taken, else one new user row and 201 |
| AuthRoutes.RegisterTwiceConflicts | PhotoGroupApp/routes/auth.py:35-41 | after a registration the same e-mail and username are taken, so a repeat gets 409 |
| AuthRoutes.Login | PhotoGroupApp/routes/auth.py:62-94 | 415, 400 without e-mail or password, 200 exactly when the user found by e-mail has a matching password, else 401 |
| AuthRoutes.LoginNeedsAccount | PhotoGroupApp/routes/auth.py:83-90 | a successful login names a stored user with that e-mail whose hash checks |
| AuthRoutes.PlaceholderCountConcat | PhotoGroupApp/routes/auth.py:150-162 | joining query pieces adds up their placeholders |
| AuthRoutes.RenderConcat | PhotoGroupApp/routes/auth.py:150-162 | rendering joined query pieces is the joined text |
| AuthRoutes.BuildProfileUpdate | PhotoGroupApp/routes/auth.py:150-162 | the UPDATE text has as many placeholders as parameters, the picture column only when a picture was saved, and the id last |
| AuthRoutes.AssembleQuery | PhotoGroupApp/routes/auth.py:150-162 | the assembled text is the three fixed `column=%s` pieces, the optional fourth, then the key piece, with one placeholder per piece |
| AuthRoutes.SavedPicture | PhotoGroupApp/routes/auth.py:140-148 | a picture name is stored exactly when a profile_image part with a non-empty, allowed name was sent |
| AuthRoutes.ApplyProfileUpdate | PhotoGroupApp/routes/auth.py:164-167 | only the row with the given id changes, taking the new columns; the rest stay as they were |
| AuthRoutes.UpdateProfile | PhotoGroupApp/routes/auth.py:126-173 | 400 without user_id and nothing changes, else 200 with the user row updated as the query says |
| AuthRoutes.DeleteAccount | PhotoGroupApp/routes/auth.py:178-202 | 400 without user_id and nothing changes, else the user's memberships and the user's row are deleted and every other user stays; photos, reports and bans stay |
| GroupRoutes.AddFreshCode | PhotoGroupApp/routes/groups.py:30-41 | adding a group with an unused code keeps codes distinct |
| GroupRoutes.AddFreshMembership | PhotoGroupApp/routes/groups.py:93-107 | adding a membership the user did not have keeps one membership per user and group |
| GroupRoutes.CreateGroup | PhotoGroupApp/routes/groups.py:14-64 | 415, 400 without user_id, 500 for a non-numeric id, else a group with a fresh unused code and the creator as admin member, 201 |
| GroupRoutes.JoinGroup | PhotoGroupApp/routes/groups.py:66-122 | 415, 400, 404 for an unknown code, 409 for an existing member, 500 exactly for a non-numeric user id, else one membership row and 200 (each status an iff) |
| GroupRoutes.JoinedIsMember | PhotoGroupApp/routes/groups.py:104-107 | after a join the user is a member of the group |
| PhotoRoutes.UploadPhoto | PhotoGroupApp/routes/photos.py:29-91 | 400 for a missing part, field or disallowed name, 404 for an unknown group, 403 for a non-member, else one photo row and 201 |
| PhotoRoutes.JoinUploader | PhotoGroupApp/routes/photos.py:129-136 | a photo is joined with exactly the users having its uploader id |
| PhotoRoutes.JoinUploaderAtMostOne | PhotoGroupApp/routes/photos.py:129-136 | with unique user ids the JOIN gives at most one row per photo |
| PhotoRoutes.JoinUploaderNone | PhotoGroupApp/routes/photos.py:129-136 | a photo whose uploader is not stored gives no row |
| PhotoRoutes.GroupPhotoRows | PhotoGroupApp/routes/photos.py:129-138 | the rows are exactly the group's photos joined with their uploaders |
| PhotoRoutes.GroupPhotoRowsOrdered | PhotoGroupApp/routes/photos.py:129-138 | with unique photo and user ids the rows follow the photos' ids upward, so each photo gives at most one row |
| PhotoRoutes.LaterRowsAbove | PhotoGroupApp/routes/photos.py:129-138 | rows of later photos carry larger photo ids than the first photo |
| PhotoRoutes.ListingIdsDistinct | PhotoGroupApp/routes/photos.py:135-152 | rows with distinct ids, reordered and turned into entries, give entries with distinct ids |
| PhotoRoutes.BuildListing | PhotoGroupApp/routes/photos.py:141-152 | one entry per row, in order, with the URL from url_for |
| PhotoRoutes.GetGroupPhotos | PhotoGroupApp/routes/photos.py:93-158 | 400, 404, 403 for a non-member, else exactly the group's photos with a stored uploader, each listed once, newest first |
| PhotoRoutes.ListingFacts | PhotoGroupApp/routes/photos.py:135-152 | the listing is ordered by date and holds exactly the entries of the rows |
| AdminRoutes.SuperAdminSpec | PhotoGroupApp/routes/admin.py:63-65 | the caller is a super admin exactly when the admin_id names a user whose flag is set |
| AdminRoutes.SuperAdminNeedsId | PhotoGroupApp/routes/admin.py:53-65 | a missing or non-numeric admin_id is never a super admin |
| AdminRoutes.ReportContent | PhotoGroupApp/routes/admin.py:10-46 | 415, 400 without the ids or reason, 404 for an unknown photo, 500 exactly for a non-numeric reporter id, else one report row and 201 |
| AdminRoutes.JoinReports | PhotoGroupApp/routes/admin.py:68-81 | every listed row is the row the three inner JOINs make of some report: the report's id, reason, date and ids, the reporter's username, the uploader's username and phone and the photo's file name, with no URL or media type yet |
| AdminRoutes.JoinReportsComplete | PhotoGroupApp/routes/admin.py:68-81 | with unique user and photo ids, every row the JOINs make of a report is listed, so a report is missing exactly when its reporter, uploader or photo is gone |
| AdminRoutes.JoinReportsOrdered | PhotoGroupApp/routes/admin.py:68-81 | the list keeps the reports' order, so with increasing report ids no report is listed twice |
| AdminRoutes.Annotate | PhotoGroupApp/routes/admin.py:86-95 | a report with a photo gets its URL and media type; one without is left as it is |
| AdminRoutes.AnnotateReports | PhotoGroupApp/routes/admin.py:86-95 | the in-place loop succeeds exactly when every report is annotatable, and then each entry is annotated |
| AdminRoutes.AnnotateAll | PhotoGroupApp/routes/admin.py:86-95 | the same on a copy of the rows |
| AdminRoutes.AnnotatedSorted | PhotoGroupApp/routes/admin.py:78-95 | annotating keeps the newest-first order |
| AdminRoutes.GetReports | PhotoGroupApp/routes/admin.py:51-101 | 403 for a non-super-admin, 500 when a stored name has no ".", else the annotated reports newest first |
| AdminRoutes.GetBannedUsers | PhotoGroupApp/routes/admin.py:106-126 | 403 for a non-super-admin, else exactly the ban rows newest first |
| AdminRoutes.UnbanUser | PhotoGroupApp/routes/admin.py:131-151 | 415, else the one banned_users row whose id is banned_id is deleted, with no admin check, and 200 |
| AdminRoutes.BanTarget | PhotoGroupApp/routes/admin.py:177-184 | the target is looked up by target_id when given, else by phone, else there is none |
| AdminRoutes.BanUser | PhotoGroupApp/routes/admin.py:199-200 | a ban adds one row built from the user's phone and username with the given reason, deletes exactly that user's row, and keeps the database valid |
| AdminRoutes.ManualBan | PhotoGroupApp/routes/admin.py:156-207 | 415, 400 without phone and target_id, 403 for a non-super-admin, 404 for no target, 400 for a self-ban as the code compares it, else one ban row, the target's row deleted and 200 |
| AdminRoutes.SelfBanSlipsThrough | PhotoGroupApp/routes/admin.py:195-197 | admin_id "07" designates user 7 but the text comparison says it is not the caller |
| AdminRoutes.ManualBanCorrected | PhotoGroupApp/routes/admin.py:195-200 | with ids compared as numbers, an admin can never ban themself |
| AdminRoutes.DeleteReportedContent | PhotoGroupApp/routes/admin.py:229-245 | for an existing report, its photo row and the report are deleted and the other tables are unchanged; otherwise nothing changes |
| AdminRoutes.DismissReport | PhotoGroupApp/routes/admin.py:246-248 | only the report row is deleted |
| AdminRoutes.BanReportedUploader | PhotoGroupApp/routes/admin.py:249-266 | when the report and its uploader exist, one ban row, the uploader and the report deleted; otherwise nothing changes |
| AdminRoutes.ResolveReport | PhotoGroupApp/routes/admin.py:212-268 | 415, 403 for a non-super-admin, else the chosen action is applied and 200; an unknown action changes nothing |
| LegacyStore.FindUserByPhone | routes/auth.py:23-25 | the first user with that phone, or None when there is none |
| LegacyStore.FindGroupByCode | routes/groups.py:60-65 | the group with that code, or None |
| LegacyStore.MembershipCountAppend | routes/groups.py:69-71 | appending a row adds one to the count of its user and group |
| LegacyRoutes.RegisterByPhone | routes/auth.py:7-50 | 415, 400 without phone_number, 200 with the existing id for a known phone and nothing changes, else one new user and 201 |
| LegacyRoutes.RegisterIdempotent | routes/auth.py:23-43 | after registering a phone, looking it up finds the new row, so a repeat answers 200 with that id |
| LegacyRoutes.CreateGroup | routes/groups.py:14-42 | always 201 with a fresh unused code inserted as a new group; nothing else changes |
| LegacyRoutes.JoinGroup | routes/groups.py:44-83 | 415, 400, 404, 500 exactly for a non-numeric user id, else 200 and one more membership row even for an existing member |
| LegacyRoutes.RepeatedJoinsRepeatRows | app.py:128-134 | joining twice leaves two more rows for that user and group |
| LegacyRoutes.UploadPhoto | routes/photos.py:16-63 | 400 for a missing part, field or disallowed name, 404 for an unknown group, 500 exactly for a non-numeric user id, else 201 and one photo row with no membership check |
| LegacyRoutes.JoinedEntries | routes/photos.py:85-106 | the entries are exactly the group's photos joined with their uploaders' phone numbers |
| LegacyRoutes.UploaderEntriesAtMostOne | routes/photos.py:85-106 | with unique user ids the JOIN gives at most one entry per photo |
| LegacyRoutes.UploaderEntriesNone | routes/photos.py:85-106 | a photo whose uploader is not stored gives no entry |
| LegacyRoutes.JoinedEntriesOrdered | routes/photos.py:85-106 | with unique photo and user ids the entries follow the photos' ids upward, so each photo is listed at most once |
| LegacyRoutes.LaterEntriesAbove | routes/photos.py:85-106 | entries of later photos carry larger photo ids than the first photo |
| LegacyRoutes.GetGroupPhotos | routes/photos.py:65-113 | 400 without group_code, 404 for an unknown code, else exactly the group's photos with a stored uploader, each listed once, newest first |
| ClientForms.FileNameOf | PhotoAppFrontend/app/camera.js:78 | the part after the last "/", which holds no "/" and ends the URI; the whole URI when it has none |
| CameraScreen.Clamp01 | PhotoAppFrontend/app/camera.js:54-55 | the value cut to [0, 1], unchanged inside it |
| CameraScreen.PinchZoom | PhotoAppFrontend/app/camera.js:48-57 | the new zoom lies in [0, 1] and a scale of 1 keeps the starting zoom |
| CameraScreen.FormatTimeFields | PhotoAppFrontend/app/camera.js:164-168 | the text is minutes, ":" and two digits of seconds, and reading the fields back gives seconds / 60 and seconds % 60 |
| CameraScreen.FormFor | PhotoAppFrontend/app/camera.js:76-90 | the form carries the user, the group and the URI; its name has no "/" and ends the URI; its type is a video type exactly for a clip and an image type exactly for a shot |
| CameraScreen.Camera.constructor | PhotoAppFrontend/app/camera.js:23-41 | the screen opens in picture mode, facing back, flash off, not recording, zoom 0 |
| CameraScreen.Camera.Mount | PhotoAppFrontend/app/camera.js:200-201 | the camera becomes ready |
| CameraScreen.Camera.PinchStart | PhotoAppFrontend/app/camera.js:45-47 | the pinch remembers the current zoom |
| CameraScreen.Camera.PinchUpdate | PhotoAppFrontend/app/camera.js:48-58 | the zoom becomes the clamped pinch zoom; a scale of 1 restores the start |
| CameraScreen.Camera.UploadMedia | PhotoAppFrontend/app/camera.js:70-109 | one upload form for a non-empty URI, none otherwise |
| CameraScreen.Camera.StartVideo | PhotoAppFrontend/app/camera.js:136-152 | when ready, recording starts with the timer at 0; otherwise nothing changes |
| CameraScreen.Camera.StopVideo | PhotoAppFrontend/app/camera.js:155-161 | recording and the timer stop; nothing changes when not recording |
| CameraScreen.Camera.Shutter | PhotoAppFrontend/app/camera.js:113-133 | in picture mode a shot is uploaded; in video mode the press starts or stops recording; mode, zoom, facing, flash, the flash menu, the pinch start and readiness are kept |
| CameraScreen.Camera.RecordingSettled | PhotoAppFrontend/app/camera.js:144-159 | a finished recording is uploaded and nothing else changes; a failed one changes nothing, since the captured `stopVideo` sees `isRecording` false |
| CameraScreen.Camera.Tick | PhotoAppFrontend/app/camera.js:141 | the duration grows by one second while the timer runs |
| CameraScreen.Camera.Flip | PhotoAppFrontend/app/camera.js:275-278 | the facing flips and the zoom resets |
| CameraScreen.Camera.ToggleFlashMenu | PhotoAppFrontend/app/camera.js:239 | the flash menu opens or closes |
| CameraScreen.Camera.ChooseFlash | PhotoAppFrontend/app/camera.js:221-233 | the chosen setting is kept and the menu closes |
| CameraScreen.Camera.SelectPicture | PhotoAppFrontend/app/camera.js:291-298 | picture mode, zoom 0, any recording stopped |
| CameraScreen.Camera.SelectVideo | PhotoAppFrontend/app/camera.js:303-309 | video mode; already in video mode nothing changes, else the zoom resets |
| MediaGallery.Without | PhotoAppFrontend/app/media-gallery.js:141 | the filter keeps exactly the other ids and keeps them distinct |
| MediaGallery.WithoutRemovesOne | PhotoAppFrontend/app/media-gallery.js:141 | in a list of distinct ids, removing one leaves the others in order |
| MediaGallery.Toggled | PhotoAppFrontend/app/media-gallery.js:138-148 | a selected id is removed; an unselected one is added at the end unless 30 are already selected |
| MediaGallery.ToggledKeepsSelection | PhotoAppFrontend/app/media-gallery.js:138-148 | toggling keeps the ids distinct and at most 30 |
| MediaGallery.ToggleTwice | PhotoAppFrontend/app/media-gallery.js:138-148 | selecting and then deselecting an id restores the selection |
| MediaGallery.SelectedMedia | PhotoAppFrontend/app/media-gallery.js:171 | exactly the loaded photos whose id is selected |
| MediaGallery.EveryMine | PhotoAppFrontend/app/media-gallery.js:172 | true exactly when every item's uploader is the user; a TypeError exactly when the first item that is not the user's has no uploader id |
| MediaGallery.StopsOnMissingIdTail | PhotoAppFrontend/app/media-gallery.js:172 | past an item that is the user's, `every` fails exactly when it fails on the rest |
| MediaGallery.BulkPrompt | PhotoAppFrontend/app/media-gallery.js:169-186 | hide and delete exactly when every selected loaded photo is the user's, a TypeError exactly when `every` stops on one without an uploader id, hide alone otherwise |
| MediaGallery.RemovePrompt | PhotoAppFrontend/app/media-gallery.js:295-322 | no prompt without a current photo, hide and delete for one's own photo, hide alone for another's |
| MediaGallery.RemovePhoto | PhotoAppFrontend/app/media-gallery.js:327 | exactly the photos with another id remain |
| MediaGallery.PickedVideoRefused | PhotoAppFrontend/app/media-gallery.js:108-113 | a picked .mp4 or .mov file goes up typed video/mp4, and the server's `allowed_file` refuses its name, so it never becomes a photo row |
| MediaGallery.LowerCaseKept | PhotoAppFrontend/app/media-gallery.js:108-113 | "mp4" and "mov" are lower case, without ".", and video extensions |
| MediaGallery.AssetUploads | PhotoAppFrontend/app/media-gallery.js:94-96 | one upload per picked asset, in order |
| MediaGallery.Gallery.constructor | PhotoAppFrontend/app/media-gallery.js:23-37 | the gallery opens loading, with no photos, no selection, the viewer closed at index 0 and nothing sent |
| MediaGallery.Gallery.FetchPhotos | PhotoAppFrontend/app/media-gallery.js:56-68 | one listing request; the photos are replaced by an ok listing; loading ends |
| MediaGallery.Gallery.ToggleSelectionMode | PhotoAppFrontend/app/media-gallery.js:132-136 | the mode flips and the selection empties |
| MediaGallery.Gallery.ToggleSelection | PhotoAppFrontend/app/media-gallery.js:138-148 | the selection becomes the toggled selection |
| MediaGallery.Gallery.PressItem | PhotoAppFrontend/app/media-gallery.js:383-391 | in selection mode the item is toggled, else the viewer opens at it |
| MediaGallery.Gallery.BulkRemoveConfirmation | PhotoAppFrontend/app/media-gallery.js:169-186 | the prompt offers delete exactly when every selected loaded photo is the user's |
| MediaGallery.Gallery.ProcessBulkRemove | PhotoAppFrontend/app/media-gallery.js:189-224 | offline nothing happens; otherwise one bulk request for the selection, a refetch on an ok answer, and in every case selection mode flips and the selection empties; the viewer, its index and the upload flag are kept |
| MediaGallery.Gallery.HandleRemove | PhotoAppFrontend/app/media-gallery.js:295-322 | the prompt is the remove prompt for the current photo |
| MediaGallery.Gallery.PostDeleteNavigation | PhotoAppFrontend/app/media-gallery.js:325-340 | the photo is gone; the viewer stays open exactly when it was open and entries remain; an index past the new end becomes the last entry's and any other is kept |
| MediaGallery.IndexAfterRemove | PhotoAppFrontend/app/media-gallery.js:331-337 | the new index is in range when entries remain, is the last entry's for an index past the end, and is unchanged otherwise |
| MediaGallery.RemovePhotoAt | PhotoAppFrontend/app/media-gallery.js:328 | with distinct ids, filtering out the id at one position removes exactly that position |
| MediaGallery.RemoveShowsNeighbour | PhotoAppFrontend/app/media-gallery.js:325-340 | removing the entry on screen shows the entry after it, or the new last entry when it was the last |
| MediaGallery.Gallery.PerformRemove | PhotoAppFrontend/app/media-gallery.js:342-371 | offline nothing happens; otherwise one hide or delete request; an ok answer removes the photo and sets the viewer and index as `handlePostDeleteNavigation` does; any other answer leaves photos, viewer and index |
| MediaGallery.Gallery.HandleUpload | PhotoAppFrontend/app/media-gallery.js:75-100 | with connection, permission and a pick, one upload per asset in order, then a refetch that ends loading; otherwise nothing changes |
| EditProfile.LocalPhone | PhotoAppFrontend/app/edit-profile.js:41-44 | a leading "+90" is dropped, anything else is kept |
| EditProfile.SubmittedPhone | PhotoAppFrontend/app/edit-profile.js:147 | the submitted phone is "+90" plus the field |
| EditProfile.PhoneRoundTrip | PhotoAppFrontend/app/edit-profile.js:41-44 | a stored "+90" number is submitted back unchanged |
| EditProfile.PictureUrl | PhotoAppFrontend/app/edit-profile.js:46 | a url exactly for a non-empty stored name; it starts with the API address and ends with "/uploads/" and the name |
| EditProfile.ServerPictureNotResent | PhotoAppFrontend/app/edit-profile.js:150 | with an "http" API address, the loaded picture's url never yields an image part |
| EditProfile.ImagePartFor | PhotoAppFrontend/app/edit-profile.js:150-159 | an image part is sent exactly for a new local picture, named after its last path segment |
| EditProfile.EditProfileScreen.Load | PhotoAppFrontend/app/edit-profile.js:33-71 | an ok profile fills the fields and the baseline and marks its e-mail valid whatever its form, so there are no changes; a failed load keeps every field and the flag; loading ends either way and every handler may follow |
| EditProfile.EditProfileScreen.SetUsername | PhotoAppFrontend/app/edit-profile.js:255 | the username field takes the typed text |
| EditProfile.EditProfileScreen.constructor | PhotoAppFrontend/app/edit-profile.js:22-30 | the screen opens loading, not saving, with no baseline, empty fields and the e-mail flag set |
| EditProfile.EditProfileScreen.HandleEmailChange | PhotoAppFrontend/app/edit-profile.js:83-88 | the flag holds exactly for an empty or well-formed e-mail |
| EditProfile.EditProfileScreen.PickPicture | PhotoAppFrontend/app/edit-profile.js:104-135 | a granted pick becomes the picture |
| EditProfile.EditProfileScreen.HandleSave | PhotoAppFrontend/app/edit-profile.js:138-187 | nothing unless save is active; else one form, and an ok answer makes the values the baseline |
| EditProfile.SaveGate | PhotoAppFrontend/app/edit-profile.js:74-90 | an active save has a name, a change and an e-mail that is well formed or the unedited loaded one; a name, a change and a well-formed e-mail always activate it |
| EditProfile.EditedEmailMustMatch | PhotoAppFrontend/app/edit-profile.js:83-90 | once the e-mail differs from the loaded one, an active save implies it is well formed |
| RegisterScreen.RegisterEnabledSpec | PhotoAppFrontend/app/register.js:48-52 | the sign-up button is enabled exactly for a name, a well-formed e-mail, a password of 6 or more and a 10-digit phone |
| RegisterScreen.PhoneAfterInput | PhotoAppFrontend/app/register.js:35-41 | the digits of the input, unless there are more than 10; the phone stays digits and at most 10 |
| RegisterScreen.SmsNumber | PhotoAppFrontend/app/register.js:62 | "+90" and the phone |
| RegisterScreen.Registration.constructor | PhotoAppFrontend/app/register.js:12-25 | the form opens with empty fields, no pending confirmation, the modal closed and nothing sent |
| RegisterScreen.Registration.SetUsername | PhotoAppFrontend/app/register.js:164 | the username field takes the typed text |
| RegisterScreen.Registration.HandleEmailChange | PhotoAppFrontend/app/register.js:29-33 | the e-mail and its flag |
| RegisterScreen.Registration.HandlePhoneChange | PhotoAppFrontend/app/register.js:35-41 | the phone after input; too many digits change nothing |
| RegisterScreen.Registration.HandlePasswordChange | PhotoAppFrontend/app/register.js:43-46 | the password and its flag |
| RegisterScreen.Registration.SetVerificationCode | PhotoAppFrontend/app/register.js:249 | the code field takes the typed text |
| RegisterScreen.Registration.HandleSendSms | PhotoAppFrontend/app/register.js:55-85 | nothing unless enabled; else one SMS request, and a delivered SMS opens the code modal |
| RegisterScreen.Registration.VerifyAndRegister | PhotoAppFrontend/app/register.js:88-144 | a code not of 6 characters changes nothing; an accepted code sends one registration; the modal closes only on full success |
| RegisterScreen.Registration.CancelModal | PhotoAppFrontend/app/register.js:263-268 | the modal closes and loading ends |
| GroupDetails.FindMember | PhotoAppFrontend/app/group-details.js:53 | the first listed member whose id renders as the user id, or None when there is none |
| GroupDetails.AdminFlag | PhotoAppFrontend/app/group-details.js:53-54 | admin only when a listed member with the user's id has is_admin 1 |
| GroupDetails.AdminFlagOfListedUser | PhotoAppFrontend/app/group-details.js:53-54 | when the user is listed once, the flag is exactly that member's is_admin == 1 |
| GroupDetails.StoredNameIsNoChange | PhotoAppFrontend/app/group-details.js:244 | the stored name, untouched, with no new image, is no change |
| GroupDetails.OpeningNameUnedited | PhotoAppFrontend/app/group-details.js:235-244 | the form as it opens counts as unchanged exactly when the stored name has no outer white space; with no stored name it counts as changed |
| GroupDetails.PicturePartFor | PhotoAppFrontend/app/group-details.js:251-255 | a picture part exactly for a non-empty new image; its name is the last path segment (no "/", ending the uri) and its type starts with "image" |
| GroupDetails.WithJoining | PhotoAppFrontend/app/group-details.js:210 | only the joining flag changes |
| GroupDetails.GroupPage.constructor | PhotoAppFrontend/app/group-details.js:22-40 | the page opens loading, with no details or members, not admin, the edit form closed and empty, no menu open and nothing sent |
| GroupDetails.GroupPage.FetchData | PhotoAppFrontend/app/group-details.js:43-66 | ok answers replace the details and members, and the admin flag follows the members |
| GroupDetails.GroupPage.EditGroupPress | PhotoAppFrontend/app/group-details.js:234-239 | the form opens with the stored name, no image and no changes |
| GroupDetails.GroupPage.NameChange | PhotoAppFrontend/app/group-details.js:240 | the name and the change flag follow the text |
| GroupDetails.GroupPage.PickImage | PhotoAppFrontend/app/group-details.js:242-243 | a granted pick becomes the image and marks a change |
| GroupDetails.GroupPage.SaveChanges | PhotoAppFrontend/app/group-details.js:246-259 | nothing without changes; else one edit request, and an ok answer closes the form |
| GroupDetails.GroupPage.RequestAction | PhotoAppFrontend/app/group-details.js:190-200 | only an admin sends the request answer |
| GroupDetails.GroupPage.ToggleJoiningSwitch | PhotoAppFrontend/app/group-details.js:202-212 | only an admin sends the toggle; an ok answer updates just the joining flag |
| GroupDetails.GroupPage.ToggleMenu | PhotoAppFrontend/app/group-details.js:277-280 | the member's menu opens, or closes when it was open |
| GroupDetails.GroupPage.MenuAction | PhotoAppFrontend/app/group-details.js:80-167 | the menu closes; a confirmed action sends its one request |
| Interop.LoginRequest | PhotoAppFrontend/app/index.js:121-127 | the client's login body is JSON without an e-mail field |
| Interop.UploadRequest | PhotoAppFrontend/app/camera.js:81-90 | the client's upload carries the photo part but no group_code |
| Interop.ClientLogin | PhotoGroupApp/routes/auth.py:67-72 | the current server answers the client's login with 400 |
| Interop.ClientUpload | PhotoGroupApp/routes/photos.py:36-40 | the current server rejects the client's upload with 400 and stores nothing |
| Interop.ClientListing | PhotoGroupApp/routes/photos.py:96-100 | the current server answers the client's listing with 400 and no photos |
| Interop.ClientUploadLegacy | routes/photos.py:22-27 | the older server rejects the client's upload with 400 and stores nothing |
| Interop.ClientListingLegacy | routes/photos.py:67-69 | the older server answers the client's listing with 400 and no photos |

## Left out

- **Files.**
  - Saving and removing files on disk (`file.save`, `os.remove`) is not modelled: only the rows are.
  - Serving uploaded files (`uploaded_file`, `send_from_directory`) is not modelled.
- **Parameters standing in for libraries.** `secure_filename`, `url_for`, password hashing and checking, `random` and the clock are parameters, so their own behaviour is not modelled.
- **Exception paths.** The 500 answers the servers give for database exceptions are not modelled. The only exception paths modelled are:
  - the non-numeric id where an integer column rejects it;
  - a stored name without "." in the moderation list.
- **MySQL coercion.** `Http.IdOf` models comparing a text with an integer column as exact decimal digits. MySQL also accepts leading digits followed by other text and surrounding white space, and the model treats those as no match.
- **MySQL collation.** Store.FindUserByEmail, Store.FindUserByPhone, Store.FindGroupByCode, LegacyStore.FindUserByPhone and LegacyStore.FindGroupByCode compare text exactly. MySQL's default collation ignores letter case and trailing spaces, so the server also finds "A@B.com" for a stored "a@b.com" (AuthRoutes.Register's taken check and AuthRoutes.Login included); the model treats those as no match.
- **ReportEntry** leaves out the `status` column the moderation list selects (`PhotoGroupApp/routes/admin.py:70`), as no modelled route sets or reads it.
- **JSON values.** JSON numbers and texts are both modelled as text.
- **Admin routes' JSON check.** On the admin routes that read `request.json` without a content-type check, Flask's own 415 is modelled as the non-JSON case.
- **Routes outside the model.**
  - `get_user` (`PhotoGroupApp/routes/auth.py:99-124`) is not modelled.
  - The requests list, members list and group-details endpoints that `group-details.js` calls are not part of this model; their answers are parameters.
- **Client screens outside the model.**
  - `PhotoAppFrontend/app/index.js` (login screen) and `profile.js` are not modelled; only the request shape of the login appears, in `Interop.LoginRequest`.
  - Clipboard copy, leaving a group and full-screen image viewing in `group-details.js` are not modelled.
  - Reporting (`handleReport`, `submitReport`), saving to the device gallery (`handleSaveToGallery`, `handleBulkSave`) and the controls toggle in `media-gallery.js` are not modelled.
- **Camera details.**
  - CameraScreen.Camera.UploadMedia: the upload is fire-and-forget in the source and its outcome is ignored. The model records the request only. It does not model iOS `file://` stripping.
  - The zoom display text (`getDisplayZoom`, `toFixed`) is not modelled.
  - The one-second `setInterval` tick is a method the environment calls.
  - CameraScreen.Camera.RecordingSettled: the failure path follows the source's stale closure. `startVideo` (`PhotoAppFrontend/app/camera.js:150`) calls the `stopVideo` of the render that started recording, and that closure reads `isRecording` as false, so a failed recording changes nothing: the recording flag and the timer stay on. No other stale closure is modelled; every other handler reads the current state.
  - CameraScreen.Camera.StartVideo: requires video mode, since the source only reaches it through the shutter in video mode.
- **Edit-profile details.**
  - EditProfile.EditProfileScreen.Load: an `initialData` of `{}` before loading is modelled as no baseline (None).
  - Null username or e-mail from the server is read as text.
- **Text lengths.** JavaScript's `length` counts UTF-16 code units, and Dafny's `|s|` counts characters, so a character outside the Basic Multilingual Plane counts once in the model and twice in the source. This affects:
  - RegisterScreen.PasswordFlag, RegisterScreen.RegisterEnabled and RegisterScreen.Registration.HandlePasswordChange (the six-character password check);
  - RegisterScreen.Registration.VerifyAndRegister (the six-character code check);
  - the `length` checks of EditProfile.EditProfileScreen.SaveActive.
- **Input limits and guards.**
  - `TextInput` `maxLength` limits are not modelled: a handler may receive any text.
  - The disabled state of buttons while `saving` or `loading` is folded into the handlers' preconditions and guards, not modelled as rendering.
- **Concurrency.** Two handlers never interleave in the model. The source's `await`s let them, and the model does not capture that.
- **Findings that do not change the model.**
  - The 500 for a dot-less stored name in the moderation list (`PhotoGroupApp/routes/admin.py:91`) is modelled (AdminRoutes.GetReports answers 500 exactly when a listed name is not annotatable). Uploads check `allowed_file` before `secure_filename` (`PhotoGroupApp/routes/photos.py:42, 69`), and `secure_filename` strips leading dots and non-ASCII letters, so ".png" or "фото.png" is stored as "png" and reaches that 500. Since `secure_filename` is a parameter here, the model cannot exhibit the input, so this is not listed under Findings.
  - Repeated joins add duplicate membership rows in the older server. This is modelled (LegacyRoutes.RepeatedJoinsRepeatRows) because that server has no check for it.

## Findings

| source | as written | input that shows it | evidently intended | confidence | as-written member | corrected member |
|---|---|---|---|---|---|---|
| PhotoGroupApp/routes/admin.py:195-197 | the self-ban guard compares `str(uid)` with `str(admin_id)` as texts, while the admin lookup compares admin_id with an integer column | admin_id "07" naming super admin 7 and target_id "7": the lookup finds the admin, the guard sees "7" != "07", and the admin bans themself | compare the two ids as the same numbers, so an admin can never ban themself | not executed | AdminRoutes.SelfBanSlipsThrough | AdminRoutes.ManualBanCorrected |
