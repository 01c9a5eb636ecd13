/** Where the app and the servers do not agree on field names. Each side is
    modelled as written; these members show what the server answers to the
    requests the app actually builds. */
module Interop {
  import opened Wrappers
  import opened Http
  import opened ClientForms
  import Store
  import AuthRoutes
  import PhotoRoutes
  import LegacyStore
  import LegacyRoutes

  /** The JSON body the login screen posts: the phone with "+90" and the
      password. */
  function LoginRequest(phone: string, password: string): (r: Request)
    ensures r.isJson && "email" !in r.fields
  {
    assert "email"[0] != "phone_number"[0] && "email"[0] != "password"[0];
    Request(true, map["phone_number" := "+90" + phone, "password" := password], map[])
  }

  /** The multipart form of an upload, as the server sees it: text fields
      `user_id` and `group_id` and the `photo` part. */
  function UploadRequest(form: UploadForm): (r: Request)
    ensures "photo" in r.files && r.files["photo"].filename == form.name
    ensures "group_code" !in r.fields
  {
    assert "group_code"[6] != "user_id"[6] && "group_code"[6] != "group_id"[6];
    Request(false, map["user_id" := form.userId, "group_id" := form.groupId], map["photo" := FilePart(form.name)])
  }

  /** The query of the gallery's listing request. */
  function ListingQuery(groupId: string, userId: string): (r: Request)
    ensures "group_code" !in r.fields
  {
    assert "group_code"[6] != "user_id"[6] && "group_code"[6] != "group_id"[6];
    Request(false, map["group_id" := groupId, "user_id" := userId], map[])
  }

  /** The server reads `email`, so the app's login always gets 400. */
  method ClientLogin(db: Store.Database, phone: string, password: string, checkPassword: (string, string) -> bool)
    returns (status: int)
    ensures status == BadRequest
  {
    var account;
    status, account := AuthRoutes.Login(db, LoginRequest(phone, password), checkPassword);
  }

  /** The server reads `group_code`, so every upload from the app gets 400
      and stores nothing. */
  method ClientUpload(db: Store.Database, form: UploadForm, secure: string -> string, now: int)
    returns (status: int)
    requires db.Valid()
    modifies db
    ensures status == BadRequest && unchanged(db)
  {
    status := PhotoRoutes.UploadPhoto(db, UploadRequest(form), secure, now);
  }

  /** The gallery's listing request gets 400 and an empty list. */
  method ClientListing(db: Store.Database, groupId: string, userId: string, urlFor: string -> string)
    returns (status: int, list: seq<PhotoRoutes.ListedPhoto>)
    requires db.Valid()
    ensures status == BadRequest && list == []
  {
    status, list := PhotoRoutes.GetGroupPhotos(db, ListingQuery(groupId, userId), urlFor);
  }

  /** The older server reads `group_code` too. */
  method ClientUploadLegacy(db: LegacyStore.Database, form: UploadForm, secure: string -> string, now: int)
    returns (status: int)
    requires db.Valid()
    modifies db
    ensures status == BadRequest && unchanged(db)
  {
    status := LegacyRoutes.UploadPhoto(db, UploadRequest(form), secure, now);
  }

  method ClientListingLegacy(db: LegacyStore.Database, groupId: string, userId: string, urlFor: string -> string)
    returns (status: int, list: seq<LegacyRoutes.ListedPhoto>)
    requires db.Valid()
    ensures status == BadRequest && list == []
  {
    status, list := LegacyRoutes.GetGroupPhotos(db, ListingQuery(groupId, userId), urlFor);
  }
}
