/**
 * The route handlers of src/index.ts as methods of one `Backend` object that
 * holds the user and content collections.  Each handler runs atomically and
 * returns the reply it sends.  The environment enters as parameters:
 * `hash`, `compare` and `sign` stand for `bcrypt.hash(password, 10)` (with the
 * random salt drawn for the call), `bcrypt.compare` and `jwt.sign` with the
 * server's secret and its 7-day expiry; `dbFault` says that the handler's
 * first database call throws (lost connection, or an id that does not cast
 * to an ObjectId).  The content routes sit behind `AuthMiddleware` and take
 * the claims it attached.
 */
module Routes {
  import opened Wrappers
  import opened JsString
  import opened PasswordPolicy
  import opened Schema
  import opened Store
  import opened Http
  import opened Middleware

  /** `!field` for a request-body field: absent, or the empty string. */
  predicate Falsy(field: Option<string>)
  {
    field.None? || field.value == []
  }

  /** The schema's constraints on stored collections whose ids are all below `nextSerial`. */
  ghost predicate StoreValid(users: seq<User>, contents: seq<Content>, nextSerial: nat)
  {
    (forall i :: 0 <= i < |users| ==> UserValid(users[i]) && users[i].id.serial < nextSerial) &&
    UsernamesUnique(users) && UserIdsDistinct(users) &&
    (forall i :: 0 <= i < |contents| ==> ContentValid(contents[i]) && contents[i].id.serial < nextSerial) &&
    ContentIdsDistinct(contents)
  }

  /** Storing a valid user under a fresh id and a name nobody has keeps the store valid. */
  lemma {:induction false} AddUserKeepsValid(users: seq<User>, contents: seq<Content>, nextSerial: nat, u: User)
    requires StoreValid(users, contents, nextSerial)
    requires UserValid(u) && u.id == ObjectId(nextSerial) && FindUser(users, u.username).None?
    ensures StoreValid(users + [u], contents, nextSerial + 1)
  {
  }

  /** Storing a valid record under a fresh id keeps the store valid. */
  lemma {:induction false} AddContentKeepsValid(users: seq<User>, contents: seq<Content>, nextSerial: nat, c: Content)
    requires StoreValid(users, contents, nextSerial)
    requires ContentValid(c) && c.id == ObjectId(nextSerial)
    ensures StoreValid(users, contents + [c], nextSerial + 1)
  {
  }

  class Backend {
    var users: seq<User>
    var contents: seq<Content>
    /** Source of fresh ObjectIds: every stored id is below it. */
    var nextSerial: nat
    const hash: (string, nat) -> string
    const compare: (string, string) -> bool
    const sign: Claims -> string

    /** The schema's constraints on the stored collections. */
    ghost predicate Valid()
      reads this
    {
      StoreValid(users, contents, nextSerial)
    }

    constructor (hash: (string, nat) -> string, compare: (string, string) -> bool, sign: Claims -> string)
      ensures Valid() && users == [] && contents == []
      ensures this.hash == hash && this.compare == compare && this.sign == sign
    {
      users, contents, nextSerial := [], [], 0;
      this.hash, this.compare, this.sign := hash, compare, sign;
    }

    /**
     * `POST /api/v1/signup`.  The checks run in the source's order: missing
     * fields, then the password policy, then the database, then the existing
     * name; a password is checked before the name is looked up, so a weak
     * password on a taken name is a 400.  Only a 201 changes the store, by
     * exactly one user holding the hash of the password.
     */
    method Signup(username: Option<string>, password: Option<string>, salt: nat, dbFault: bool)
      returns (reply: Reply)
      requires Valid()
      modifies this`users, this`nextSerial
      ensures Valid() && contents == old(contents)
      ensures Falsy(username) || Falsy(password) ==>
        reply == Reply(400, Message("Username and Password are required"))
      ensures !Falsy(username) && !Falsy(password) ==>
        (!IsValidPassword(password.value) ==> reply == Reply(400, Message("Strong Password needed"))) &&
        (IsValidPassword(password.value) && dbFault ==> reply == InternalError) &&
        (IsValidPassword(password.value) && !dbFault && FindUser(old(users), Trim(username.value)).Some? ==>
          reply == Reply(409, Message("Username already exists")))
      ensures reply.status == 201 <==>
        !Falsy(username) && !Falsy(password) && IsValidPassword(password.value) && !dbFault &&
        FindUser(old(users), Trim(username.value)).None? &&
        NewUser(ObjectId(old(nextSerial)), username.value, hash(password.value, salt)).Some?
      ensures (!Falsy(username) && !Falsy(password) && IsValidPassword(password.value) && !dbFault &&
               FindUser(old(users), Trim(username.value)).None? && reply.status != 201) ==> reply == InternalError
      ensures reply.status != 201 ==> users == old(users) && nextSerial == old(nextSerial)
      ensures reply.status == 201 ==>
        var u := User(ObjectId(old(nextSerial)), Trim(username.value), hash(password.value, salt));
        users == old(users) + [u] && nextSerial == old(nextSerial) + 1 &&
        reply == Reply(201, Authenticated("User created successfully", sign(Claims(u.id, u.username)), UserView(u.id, u.username)))
    {
      if Falsy(username) || Falsy(password) {
        return Reply(400, Message("Username and Password are required"));
      }
      if !IsValidPassword(password.value) {
        return Reply(400, Message("Strong Password needed"));
      }
      if dbFault {
        return InternalError;
      }
      var existingUser := FindUser(users, Trim(username.value));
      if existingUser.Some? {
        return Reply(409, Message("Username already exists"));
      }
      var hashedPassword := hash(password.value, salt);
      reply := CreateUser(username.value, hashedPassword);
    }

    /**
     * The tail of signup once the name is known to be free: `User.create`
     * (a 500 when the schema refuses the document), then `jwt.sign` and the
     * 201 reply.
     */
    method CreateUser(username: string, hashedPassword: string) returns (reply: Reply)
      requires Valid() && FindUser(users, Trim(username)).None?
      modifies this`users, this`nextSerial
      ensures Valid()
      ensures reply.status == 201 <==> NewUser(ObjectId(old(nextSerial)), username, hashedPassword).Some?
      ensures reply.status != 201 ==> reply == InternalError && users == old(users) && nextSerial == old(nextSerial)
      ensures reply.status == 201 ==>
        var u := User(ObjectId(old(nextSerial)), Trim(username), hashedPassword);
        users == old(users) + [u] && nextSerial == old(nextSerial) + 1 &&
        reply == Reply(201, Authenticated("User created successfully", sign(Claims(u.id, u.username)), UserView(u.id, u.username)))
    {
      var user := NewUser(ObjectId(nextSerial), username, hashedPassword);
      if user.None? {
        // User.create rejects the document (a name of white space only, or an empty hash)
        return InternalError;
      }
      var created := user.value;
      AddUserKeepsValid(users, contents, nextSerial, created);
      users := users + [created];
      nextSerial := nextSerial + 1;
      var token := sign(Claims(created.id, created.username));
      reply := Reply(201, Authenticated("User created successfully", token, UserView(created.id, created.username)));
    }

    /**
     * `POST /api/v1/signin`.  Reads the store and changes nothing.  Missing
     * fields are a 400; an unknown name and a wrong password are two distinct
     * 401s; otherwise a 200 with a token for the stored user.
     */
    method Signin(username: Option<string>, password: Option<string>, dbFault: bool) returns (reply: Reply)
      ensures Falsy(username) || Falsy(password) ==>
        reply == Reply(400, Message("Username and password are required"))
      ensures !Falsy(username) && !Falsy(password) && dbFault ==> reply == InternalError
      ensures !Falsy(username) && !Falsy(password) && !dbFault ==>
        match FindUser(users, Trim(username.value))
        case None => reply == Reply(401, Message("User not found"))
        case Some(u) =>
          if compare(password.value, u.password) then
            reply == Reply(200, Authenticated("Signin successful", sign(Claims(u.id, u.username)), UserView(u.id, u.username)))
          else
            reply == Reply(401, Message("Invalid credentials"))
    {
      if Falsy(username) || Falsy(password) {
        return Reply(400, Message("Username and password are required"));
      }
      if dbFault {
        return InternalError;
      }
      var user := FindUser(users, Trim(username.value));
      if user.None? {
        return Reply(401, Message("User not found"));
      }
      var isPasswordValid := compare(password.value, user.value.password);
      if !isPasswordValid {
        return Reply(401, Message("Invalid credentials"));
      }
      var token := sign(Claims(user.value.id, user.value.username));
      reply := Reply(200, Authenticated("Signin successful", token, UserView(user.value.id, user.value.username)));
    }

    /**
     * `POST /api/v1/content`.  A missing link, type or title is a 400.  A type
     * outside the enum passes that check and is refused by the schema at
     * `create`: a 500.  Otherwise exactly one record owned by the caller is
     * stored, with no tags when none were sent.
     */
    method CreateContent(
      caller: Claims, link: Option<string>, typeName: Option<string>, title: Option<string>,
      tags: Option<seq<ObjectId>>, dbFault: bool)
      returns (reply: Reply)
      requires Valid()
      modifies this`contents, this`nextSerial
      ensures Valid() && users == old(users)
      ensures Falsy(link) || Falsy(typeName) || Falsy(title) ==>
        reply == Reply(400, Message("Link, type, and title are required"))
      ensures (!Falsy(link) && !Falsy(typeName) && !Falsy(title) &&
               (dbFault || typeName.value !in ContentTypeNames)) ==> reply == InternalError
      ensures reply.status == 201 <==>
        !Falsy(link) && !Falsy(typeName) && !Falsy(title) && !dbFault && typeName.value in ContentTypeNames
      ensures reply.status != 201 ==> contents == old(contents) && nextSerial == old(nextSerial)
      ensures reply.status == 201 ==>
        reply.body.ContentCreated? && reply.body.message == "Content created successfully" &&
        var c := reply.body.content;
        contents == old(contents) + [c] && nextSerial == old(nextSerial) + 1 &&
        c.id == ObjectId(old(nextSerial)) && c.link == link.value && TypeName(c.contentType) == typeName.value &&
        c.title == title.value && c.tags == tags.GetOr([]) && c.userId == caller.userId
    {
      if Falsy(link) || Falsy(typeName) || Falsy(title) {
        return Reply(400, Message("Link, type, and title are required"));
      }
      if dbFault {
        return InternalError;
      }
      var content := NewContent(ObjectId(nextSerial), link.value, typeName.value, title.value, tags.GetOr([]), caller.userId);
      if content.None? {
        // Content.create rejects a type outside the enum
        return InternalError;
      }
      AddContentKeepsValid(users, contents, nextSerial, content.value);
      contents := contents + [content.value];
      nextSerial := nextSerial + 1;
      reply := Reply(201, ContentCreated("Content created successfully", content.value));
    }

    /** `GET /api/v1/content`: exactly the caller's records (in the model's insertion order); nothing changes. */
    method ListContent(caller: Claims, dbFault: bool) returns (reply: Reply)
      ensures dbFault ==> reply == InternalError
      ensures !dbFault ==>
        reply.status == 200 && reply.body.ContentFetched? &&
        reply.body.message == "Content fetched successfully" &&
        reply.body.contents == OwnedBy(contents, caller.userId) &&
        reply.body.user == UserView(caller.userId, caller.username)
      ensures !dbFault ==> forall c :: c in reply.body.contents <==> c in contents && c.userId == caller.userId
    {
      if dbFault {
        return InternalError;
      }
      var content := OwnedBy(contents, caller.userId);
      reply := Reply(200, ContentFetched("Content fetched successfully", content, UserView(caller.userId, caller.username)));
    }

    /**
     * `DELETE /api/v1/content`.  Removes at most the one record carrying the
     * id and owned by the caller; other owners' records are untouched.  The
     * reply is a 200 whatever happens, found or not, failed or not.
     */
    method DeleteContent(caller: Claims, contentId: ObjectId, dbFault: bool) returns (reply: Reply)
      requires Valid()
      modifies this`contents
      ensures Valid() && users == old(users) && nextSerial == old(nextSerial)
      ensures reply.status == 200
      ensures dbFault ==> reply.body == Message("Error deleting the content") && contents == old(contents)
      ensures !dbFault ==>
        reply.body == Message("Content deleted") &&
        contents == DeleteOne(old(contents), contentId, caller.userId) &&
        (|contents| == |old(contents)| || |contents| == |old(contents)| - 1) &&
        forall i :: 0 <= i < |contents| ==> !Matches(contents[i], contentId, caller.userId)
      ensures forall other :: other != caller.userId ==> OwnedBy(contents, other) == OwnedBy(old(contents), other)
    {
      if dbFault {
        return Reply(200, Message("Error deleting the content"));
      }
      DeleteOneLeavesNoMatch(contents, contentId, caller.userId);
      forall other | other != caller.userId
        ensures OwnedBy(DeleteOne(contents, contentId, caller.userId), other) == OwnedBy(contents, other)
      {
        DeleteOneKeepsOthers(contents, contentId, caller.userId, other);
      }
      DeleteOneRemovesAtMostOne(contents, contentId, caller.userId);
      ghost var before := contents;
      contents := DeleteOne(contents, contentId, caller.userId);
      forall i | 0 <= i < |contents|
        ensures ContentValid(contents[i]) && contents[i].id.serial < nextSerial
      {
        assert contents[i] in before;
      }
      reply := Reply(200, Message("Content deleted"));
    }
  }

  // ---------------------------------------------------------------------------
  // Clients: what a caller can conclude from the handlers' contracts alone

  /** Signing up and then signing in with the same credentials succeeds for the stored (trimmed) name. */
  method SignupThenSignin(b: Backend, username: string, password: string, salt: nat)
    returns (first: Reply, second: Reply)
    requires b.Valid()
    requires b.compare(password, b.hash(password, salt))
    modifies b
    ensures first.status == 201 ==>
      second.status == 200 && second.body.Authenticated? && first.body.Authenticated? &&
      second.body.user == first.body.user && second.body.user.username == Trim(username)
  {
    first := b.Signup(Some(username), Some(password), salt, false);
    if first.status == 201 {
      var u := User(ObjectId(b.nextSerial - 1), Trim(username), b.hash(password, salt));
      FindAppended(old(b.users), u);
    }
    second := b.Signin(Some(username), Some(password), false);
  }

  /** A name of white space only passes the handler's own checks and is refused by the schema at `create`: a 500, nothing stored. */
  method SignupBlankName(b: Backend) returns (reply: Reply)
    requires b.Valid()
    modifies b
    ensures reply == InternalError && b.users == old(b.users)
  {
    ExampleAccepted();
    TrimEmptyIff("   ");
    reply := b.Signup(Some("   "), Some("Abcde1!"), 0, false);
  }

  /** A second signup under a name already taken is a 409 and adds nobody. */
  method SignupTwice(b: Backend, username: string, password: string, password2: string, salt: nat, salt2: nat)
    returns (first: Reply, second: Reply)
    requires b.Valid() && IsValidPassword(password2)
    modifies b
    ensures first.status == 201 ==> second == Reply(409, Message("Username already exists"))
    ensures first.status == 201 ==> |b.users| == |old(b.users)| + 1
  {
    first := b.Signup(Some(username), Some(password), salt, false);
    if first.status == 201 {
      var u := User(ObjectId(b.nextSerial - 1), Trim(username), b.hash(password, salt));
      FindAppended(old(b.users), u);
    }
    second := b.Signup(Some(username), Some(password2), salt2, false);
  }

  /** What one user creates is listed for that user, fields and tags intact, and never for another. */
  method CreateThenList(b: Backend, owner: Claims, other: Claims, link: string, typeName: string, title: string, tags: seq<ObjectId>)
    returns (created: Reply, mine: Reply, theirs: Reply)
    requires b.Valid() && owner.userId != other.userId
    modifies b
    ensures created.status == 201 ==>
      created.body.ContentCreated? && mine.body.ContentFetched? && theirs.body.ContentFetched? &&
      var c := created.body.content;
      c.link == link && TypeName(c.contentType) == typeName && c.title == title && c.tags == tags &&
      c in mine.body.contents && c !in theirs.body.contents
  {
    created := b.CreateContent(owner, Some(link), Some(typeName), Some(title), Some(tags), false);
    mine := b.ListContent(owner, false);
    theirs := b.ListContent(other, false);
  }
}
