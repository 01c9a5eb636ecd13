/** PhotoGroupApp/routes/auth.py: registration by e-mail and username, login,
    profile update and account deletion. `generate_password_hash` is
    replaced by its result (an input) and `check_password_hash` by a
    function parameter; `secure_filename` and `random.randint` likewise. */
module AuthRoutes {
  import opened Wrappers
  import opened Strings
  import opened Http
  import opened FileRules
  import opened Store

  // ---------------------------------------------------------------------
  // register
  // ---------------------------------------------------------------------

  predicate RegisterComplete(req: Request) {
    Given(Field(req, "username")) && Given(Field(req, "email"))
    && Given(Field(req, "password")) && Given(Field(req, "phone_number"))
  }

  /** The row `register` inserts; `is_super_admin` and `profile_image` take
      their column defaults. */
  function NewUser(id: nat, req: Request, passwordHash: string): User {
    User(id, Some(Text(req, "username")), Some(Text(req, "email")), passwordHash,
         Some(Text(req, "phone_number")), None, 0)
  }

  method Register(db: Database, req: Request, passwordHash: string) returns (status: int, userId: Option<nat>)
    requires db.Valid()
    modifies db
    ensures db.Valid()
    ensures status == UnsupportedMediaType <==> !req.isJson
    ensures status == BadRequest <==> req.isJson && !RegisterComplete(req)
    ensures status == Conflict <==>
              req.isJson && RegisterComplete(req)
              && EmailOrUsernameTaken(old(db.users.rows), Text(req, "email"), Text(req, "username"))
    ensures status in {UnsupportedMediaType, BadRequest, Conflict, Created}
    ensures status != Created ==> unchanged(db) && userId.None?
    ensures status == Created ==>
              && userId == Some(old(db.users.nextId))
              && db.users == Insert(old(db.users), NewUser(old(db.users.nextId), req, passwordHash))
              && unchanged(db`groups, db`members, db`photos, db`reports, db`bans)
  {
    if !req.isJson {
      return UnsupportedMediaType, None;
    }
    if !RegisterComplete(req) {
      return BadRequest, None;
    }
    if EmailOrUsernameTaken(db.users.rows, Text(req, "email"), Text(req, "username")) {
      return Conflict, None;
    }
    var row := NewUser(db.users.nextId, req, passwordHash);
    InsertKeepsKeysFresh(db.users, UserId, row);
    db.users := Insert(db.users, row);
    return Created, Some(row.id);
  }

  /** After a successful registration the new e-mail and username are taken,
      so repeating the same request gives 409. */
  lemma RegisterTwiceConflicts(users: seq<User>, req: Request, id: nat, passwordHash: string)
    requires RegisterComplete(req)
    ensures EmailOrUsernameTaken(users + [NewUser(id, req, passwordHash)], Text(req, "email"), Text(req, "username"))
  {
    var s := users + [NewUser(id, req, passwordHash)];
    assert s[|users|].email == Some(Text(req, "email"));
  }

  // ---------------------------------------------------------------------
  // login
  // ---------------------------------------------------------------------

  /** Login answers 200 with the id and username of the first user with the
      e-mail, provided the password checks against that user's hash; 401
      otherwise. It changes nothing. */
  method Login(db: Database, req: Request, checkPassword: (string, string) -> bool)
    returns (status: int, account: Option<(nat, Option<string>)>)
    ensures status == UnsupportedMediaType <==> !req.isJson
    ensures status == BadRequest <==> req.isJson && !(Given(Field(req, "email")) && Given(Field(req, "password")))
    ensures status == OK <==>
              && req.isJson && Given(Field(req, "email")) && Given(Field(req, "password"))
              && var u := FindUserByEmail(db.users.rows, Text(req, "email"));
                 u.Some? && checkPassword(u.value.passwordHash, Text(req, "password"))
    ensures status in {UnsupportedMediaType, BadRequest, OK, Unauthorized}
    ensures status == OK ==>
              var u := FindUserByEmail(db.users.rows, Text(req, "email")).value;
              account == Some((u.id, u.username))
    ensures status != OK ==> account.None?
  {
    if !req.isJson {
      return UnsupportedMediaType, None;
    }
    var email, password := Field(req, "email"), Field(req, "password");
    if !Given(email) || !Given(password) {
      return BadRequest, None;
    }
    var user := FindUserByEmail(db.users.rows, email.value);
    if user.Some? && checkPassword(user.value.passwordHash, password.value) {
      return OK, Some((user.value.id, user.value.username));
    }
    return Unauthorized, None;
  }

  /** Login succeeds only for a stored e-mail whose hash accepts the
      password. */
  lemma LoginNeedsAccount(users: seq<User>, email: string, password: string, checkPassword: (string, string) -> bool)
    requires var u := FindUserByEmail(users, email); u.Some? && checkPassword(u.value.passwordHash, password)
    ensures exists i :: 0 <= i < |users| && users[i].email == Some(email) && checkPassword(users[i].passwordHash, password)
  {
    var u := FindUserByEmail(users, email).value;
    var i :| 0 <= i < |users| && users[i] == u;
  }

  // ---------------------------------------------------------------------
  // update_profile
  // ---------------------------------------------------------------------

  /** A parameterised SQL text: literal pieces and `%s` placeholders. */
  datatype SqlPart = Literal(text: string) | Placeholder

  function Render(query: seq<SqlPart>): string {
    if |query| == 0 then ""
    else (match query[0] case Literal(t) => t case Placeholder => "%s") + Render(query[1..])
  }

  function PlaceholderCount(query: seq<SqlPart>): nat {
    if |query| == 0 then 0
    else (if query[0] == Placeholder then 1 else 0) + PlaceholderCount(query[1..])
  }

  lemma {:induction false} PlaceholderCountConcat(a: seq<SqlPart>, b: seq<SqlPart>)
    ensures PlaceholderCount(a + b) == PlaceholderCount(a) + PlaceholderCount(b)
  {
    if |a| == 0 {
      assert a + b == b;
    } else {
      assert (a + b)[1..] == a[1..] + b;
      PlaceholderCountConcat(a[1..], b);
    }
  }

  /** A literal piece followed by its placeholder. */
  function Pair(text: string): (r: seq<SqlPart>)
    ensures Render(r) == text + "%s" && PlaceholderCount(r) == 1
  {
    var r := [Literal(text), Placeholder];
    assert r[1..] == [Placeholder] && r[1..][1..] == [];
    assert Render(r[1..]) == "%s";
    assert PlaceholderCount(r[1..]) == 1;
    r
  }

  /** The query assembly of `update_profile`: username, e-mail and phone are
      always set, `profile_image` only when a picture was saved, and the id
      is the last parameter; every placeholder has its parameter. */
  method BuildProfileUpdate(username: Option<string>, email: Option<string>, phone: Option<string>,
                            picture: Option<string>, userId: string)
    returns (query: seq<SqlPart>, params: seq<Option<string>>)
    ensures PlaceholderCount(query) == |params|
    ensures |params| == if picture.Some? then 5 else 4
    ensures params[..3] == [username, email, phone]
    ensures picture.Some? ==> params[3] == picture
    ensures params[|params| - 1] == Some(userId)
    ensures Render(query) == "UPDATE users SET username=" + "%s" + ", email=" + "%s" + ", phone_number=" + "%s"
                             + (if picture.Some? then ", profile_image=" + "%s" else "") + " WHERE id=" + "%s"
  {
    query := AssembleQuery("UPDATE users SET username=", ", email=", ", phone_number=", ", profile_image=",
                           " WHERE id=", picture.Some?);
    params := [username, email, phone] + (if picture.Some? then [picture] else []) + [Some(userId)];
  }

  /** The SQL text with its pieces as parameters: three fixed columns, an
      optional fourth, then the key, each followed by its placeholder. */
  method AssembleQuery(set1: string, set2: string, set3: string, set4: string, key: string, withFourth: bool)
    returns (query: seq<SqlPart>)
    ensures PlaceholderCount(query) == if withFourth then 5 else 4
    ensures Render(query) == set1 + "%s" + set2 + "%s" + set3 + "%s"
                             + (if withFourth then set4 + "%s" else "") + key + "%s"
  {
    ghost var text: string := [];
    query := [];
    query, text := AppendPair(query, text, set1);
    assert text == set1 + "%s";
    query, text := AppendPair(query, text, set2);
    query, text := AppendPair(query, text, set3);
    ghost var fixedText := text;
    if withFourth {
      query, text := AppendPair(query, text, set4);
      ConcatAssoc(fixedText, set4, "%s");
    }
    assert text == fixedText + (if withFourth then set4 + "%s" else "");
    query, text := AppendPair(query, text, key);
  }

  /** One step of the assembly: `piece` and a placeholder go at the end. */
  method AppendPair(query: seq<SqlPart>, ghost text: string, piece: string)
    returns (query': seq<SqlPart>, ghost text': string)
    requires Render(query) == text
    ensures query' == query + Pair(piece)
    ensures Render(query') == text' && text' == text + piece + "%s"
    ensures PlaceholderCount(query') == PlaceholderCount(query) + 1
  {
    var p := Pair(piece);
    PlaceholderCountConcat(query, p);
    RenderConcat(query, p);
    ConcatAssoc(text, piece, "%s");
    query', text' := query + p, text + piece + "%s";
  }

  lemma ConcatAssoc<T>(a: seq<T>, b: seq<T>, c: seq<T>)
    ensures a + (b + c) == a + b + c
  {
  }

  lemma {:induction false} RenderConcat(a: seq<SqlPart>, b: seq<SqlPart>)
    ensures Render(a + b) == Render(a) + Render(b)
  {
    if |a| == 0 {
      assert a + b == b;
    } else {
      assert (a + b)[1..] == a[1..] + b;
      RenderConcat(a[1..], b);
    }
  }

  /** The name a saved profile picture gets:
      `user_<user_id>_<random 1000..9999>_<secure_filename(name)>`. */
  function ProfilePictureName(userId: string, rnd: nat, safeName: string): string {
    "user_" + userId + "_" + NatToString(rnd) + "_" + safeName
  }

  /** A picture is stored only if the part is present, its name is not empty
      and its extension is allowed. */
  function SavedPicture(req: Request, secure: string -> string, rnd: nat): (r: Option<string>)
    ensures r.Some? <==> "profile_image" in req.files && req.files["profile_image"].filename != ""
                         && AllowedFile(req.files["profile_image"].filename)
  {
    if "profile_image" in req.files && req.files["profile_image"].filename != ""
       && AllowedFile(req.files["profile_image"].filename)
    then Some(ProfilePictureName(Text(req, "user_id"), rnd, secure(req.files["profile_image"].filename)))
    else None
  }

  /** What the UPDATE does to the users table: the rows with that id get the
      new username, e-mail and phone (NULL when missing from the form), and
      the new picture when there is one; no other row changes. */
  function ApplyProfileUpdate(users: seq<User>, id: Option<nat>, username: Option<string>, email: Option<string>,
                              phone: Option<string>, picture: Option<string>): (r: seq<User>)
    ensures |r| == |users|
    ensures forall i :: 0 <= i < |users| ==> r[i].id == users[i].id && r[i].passwordHash == users[i].passwordHash
    ensures forall i :: 0 <= i < |users| && Some(users[i].id) != id ==> r[i] == users[i]
    ensures forall i :: 0 <= i < |users| && Some(users[i].id) == id ==>
              && r[i].username == username && r[i].email == email && r[i].phone == phone
              && r[i].profileImage == (if picture.Some? then picture else users[i].profileImage)
              && r[i].isSuperAdmin == users[i].isSuperAdmin
  {
    seq(|users|, i requires 0 <= i < |users| =>
      if Some(users[i].id) == id
      then users[i].(username := username, email := email, phone := phone,
                     profileImage := if picture.Some? then picture else users[i].profileImage)
      else users[i])
  }

  method UpdateProfile(db: Database, req: Request, secure: string -> string, rnd: nat)
    returns (status: int, query: seq<SqlPart>, params: seq<Option<string>>)
    requires 1000 <= rnd <= 9999
    requires db.Valid()
    modifies db
    ensures db.Valid()
    ensures status == BadRequest <==> !Given(Field(req, "user_id"))
    ensures status in {BadRequest, OK}
    ensures status == BadRequest ==> unchanged(db) && query == [] && params == []
    ensures status == OK ==>
              && PlaceholderCount(query) == |params| >= 4
              && params[|params| - 1] == Field(req, "user_id")
              && db.users == Table(ApplyProfileUpdate(old(db.users.rows), IdOf(Field(req, "user_id")),
                                     Field(req, "username"), Field(req, "email"), Field(req, "phone_number"),
                                     SavedPicture(req, secure, rnd)), old(db.users.nextId))
              && unchanged(db`groups, db`members, db`photos, db`reports, db`bans)
  {
    var userId := Field(req, "user_id");
    if !Given(userId) {
      return BadRequest, [], [];
    }
    var picture := SavedPicture(req, secure, rnd);
    var username, email, phone := Field(req, "username"), Field(req, "email"), Field(req, "phone_number");
    query, params := BuildProfileUpdate(username, email, phone, picture, userId.value);
    var updated := ApplyProfileUpdate(db.users.rows, IdOf(userId), username, email, phone, picture);
    assert KeysFresh(Table(updated, db.users.nextId), UserId) by {
      assert forall i :: 0 <= i < |updated| ==> UserId(updated[i]) == UserId(db.users.rows[i]);
    }
    db.users := Table(updated, db.users.nextId);
    return OK, query, params;
  }

  // ---------------------------------------------------------------------
  // delete_account
  // ---------------------------------------------------------------------

  /** Deletes the user's memberships, then the user's row. Photos and reports
      stay. */
  method DeleteAccount(db: Database, req: Request) returns (status: int)
    requires db.Valid()
    modifies db
    ensures db.Valid()
    ensures status == BadRequest <==> !Given(Field(req, "user_id"))
    ensures status in {BadRequest, OK}
    ensures status == BadRequest ==> unchanged(db)
    ensures status == OK ==>
              var k := IdOf(Field(req, "user_id"));
              && db.members == Table(DeleteByKey(old(db.members.rows), MemberUserId, k), old(db.members.nextId))
              && db.users == Table(DeleteByKey(old(db.users.rows), UserId, k), old(db.users.nextId))
              && (forall u :: u in old(db.users.rows) && Some(u.id) != k ==> u in db.users.rows)
              && (forall u :: u in db.users.rows ==> Some(u.id) != k)
              && unchanged(db`groups, db`photos, db`reports, db`bans)
  {
    var userId := Field(req, "user_id");
    if !Given(userId) {
      return BadRequest;
    }
    var k := IdOf(userId);
    var remaining := DeleteByKey(db.members.rows, MemberUserId, k);
    DeleteByKeyKeepsKeysFresh(db.members, MemberUserId, k, MembershipId);
    DeleteMembershipsDistinct(db.members.rows, k);
    assert forall i :: 0 <= i < |remaining| ==> remaining[i] in db.members.rows;
    db.members := Table(remaining, db.members.nextId);
    DeleteByKeyKeepsKeysFresh(db.users, UserId, k, UserId);
    db.users := Table(DeleteByKey(db.users.rows, UserId, k), db.users.nextId);
    return OK;
  }
}
