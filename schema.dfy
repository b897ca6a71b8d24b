/**
 * The document schemas of src/db.ts: User, Tag, Content and Link.  Each
 * `New...` function is what the model's `create` does with a candidate
 * document: it applies the schema's setters (`trim`), then its validators
 * (`required`, `enum`), and yields the stored document or `None` for a
 * validation error.  Uniqueness is a property of a whole collection and is
 * stated by the `...Unique` predicates.
 */
module Schema {
  import opened Wrappers
  import opened JsString

  /** A MongoDB ObjectId, abstracted to a serial number the store hands out. */
  datatype ObjectId = ObjectId(serial: nat)

  /** UserSchema: `password` holds the bcrypt hash, never the plain text. */
  datatype User = User(id: ObjectId, username: string, password: string)

  /** TagSchema. */
  datatype Tag = Tag(id: ObjectId, title: string)

  /** The six values of `ContentSchema.type`'s `enum`. */
  datatype ContentType = Article | Video | Tweet | Document | Image | Link

  /** ContentSchema: `tags` references Tag documents, `userId` the owning User. */
  datatype Content = Content(
    id: ObjectId, link: string, contentType: ContentType, title: string,
    tags: seq<ObjectId>, userId: ObjectId)

  /** LinkSchema (the share-link record, model name "Link"). */
  datatype ShareLink = ShareLink(id: ObjectId, hash: string, userId: ObjectId)

  /** The string stored for each content type. */
  function TypeName(t: ContentType): string
  {
    match t
    case Article => "article"
    case Video => "video"
    case Tweet => "tweet"
    case Document => "document"
    case Image => "image"
    case Link => "link"
  }

  const ContentTypeNames: seq<string> := ["article", "video", "tweet", "document", "image", "link"]

  /** The `enum` validator: the content type a string names, if any. */
  function ParseContentType(s: string): (r: Option<ContentType>)
    ensures r.Some? ==> TypeName(r.value) == s
  {
    if s == "article" then Some(Article)
    else if s == "video" then Some(Video)
    else if s == "tweet" then Some(Tweet)
    else if s == "document" then Some(Document)
    else if s == "image" then Some(Image)
    else if s == "link" then Some(Link)
    else None
  }

  /** The enum accepts exactly the six names, and parsing inverts `TypeName`. */
  lemma {:induction false} ContentTypeEnum(s: string, t: ContentType)
    ensures ParseContentType(s).Some? <==> s in ContentTypeNames
    ensures ParseContentType(TypeName(t)) == Some(t)
    ensures TypeName(t) in ContentTypeNames
  {
  }

  // ---------------------------------------------------------------------------
  // Document validity (the `required`, `trim` and `enum` options)

  /** `required` on a String path: present and not the empty string. */
  predicate Required(s: string)
  {
    s != []
  }

  predicate UserValid(u: User)
  {
    Required(u.username) && IsTrimmed(u.username) && Required(u.password)
  }

  predicate TagValid(t: Tag)
  {
    Required(t.title) && IsTrimmed(t.title)
  }

  predicate ContentValid(c: Content)
  {
    Required(c.link) && Required(c.title)
  }

  predicate ShareLinkValid(l: ShareLink)
  {
    Required(l.hash)
  }

  // ---------------------------------------------------------------------------
  // Collection invariants (the `unique` options, and distinct `_id`s)

  predicate UsernamesUnique(users: seq<User>)
  {
    forall i, j :: 0 <= i < j < |users| ==> users[i].username != users[j].username
  }

  predicate TitlesUnique(tags: seq<Tag>)
  {
    forall i, j :: 0 <= i < j < |tags| ==> tags[i].title != tags[j].title
  }

  predicate HashesUnique(links: seq<ShareLink>)
  {
    forall i, j :: 0 <= i < j < |links| ==> links[i].hash != links[j].hash
  }

  predicate UserIdsDistinct(users: seq<User>)
  {
    forall i, j :: 0 <= i < j < |users| ==> users[i].id != users[j].id
  }

  predicate ContentIdsDistinct(contents: seq<Content>)
  {
    forall i, j :: 0 <= i < j < |contents| ==> contents[i].id != contents[j].id
  }

  // ---------------------------------------------------------------------------
  // Building documents at `create`

  /** `new User({ username, password })` validated: the name is trimmed, and both fields are required. */
  function NewUser(id: ObjectId, username: string, password: string): (r: Option<User>)
    ensures r.Some? <==> Trim(username) != [] && password != []
    ensures r.Some? ==> UserValid(r.value) && r.value.id == id && r.value.password == password
    ensures r.Some? ==> r.value.username == Trim(username)
  {
    TrimIsTrimmedSlice(username);
    var name := Trim(username);
    if Required(name) && Required(password) then Some(User(id, name, password)) else None
  }

  /** `new Tag({ title })` validated: the title is trimmed and required. */
  function NewTag(id: ObjectId, title: string): (r: Option<Tag>)
    ensures r.Some? <==> Trim(title) != []
    ensures r.Some? ==> TagValid(r.value) && r.value == Tag(id, Trim(title))
  {
    TrimIsTrimmedSlice(title);
    var t := Trim(title);
    if Required(t) then Some(Tag(id, t)) else None
  }

  /**
   * `new Content({ link, type, title, tags, userId })` validated: link and
   * title are required, and the type must be one of the six enum names.
   * `userId` is an ObjectId here, so its `required` check always passes.
   */
  function NewContent(
    id: ObjectId, link: string, typeName: string, title: string,
    tags: seq<ObjectId>, userId: ObjectId): (r: Option<Content>)
    ensures r.Some? <==> link != [] && title != [] && typeName in ContentTypeNames
    ensures r.Some? ==> ContentValid(r.value) && TypeName(r.value.contentType) == typeName
    ensures r.Some? ==> r.value.id == id && r.value.link == link && r.value.title == title
    ensures r.Some? ==> r.value.tags == tags && r.value.userId == userId
  {
    ContentTypeEnum(typeName, Article);
    match ParseContentType(typeName)
    case Some(t) =>
      if Required(link) && Required(title) then Some(Content(id, link, t, title, tags, userId)) else None
    case None => None
  }

  /**
   * Storing a tag built by the schema under a title no stored tag has keeps
   * titles unique.
   */
  lemma {:induction false} AddTagKeepsTitlesUnique(tags: seq<Tag>, id: ObjectId, title: string)
    requires TitlesUnique(tags)
    requires forall i :: 0 <= i < |tags| ==> tags[i].title != Trim(title)
    ensures NewTag(id, title).Some? ==> TitlesUnique(tags + [NewTag(id, title).value])
  {
    if NewTag(id, title).Some? {
      var r := tags + [NewTag(id, title).value];
      forall i, j | 0 <= i < j < |r|
        ensures r[i].title != r[j].title
      {
        if j == |tags| {
          assert r[i] == tags[i];
        } else {
          assert r[i] == tags[i] && r[j] == tags[j];
        }
      }
    }
  }

  /** `new Link({ hash, userId })` validated: the hash is required. */
  function NewShareLink(id: ObjectId, hash: string, userId: ObjectId): (r: Option<ShareLink>)
    ensures r.Some? <==> hash != []
    ensures r.Some? ==> ShareLinkValid(r.value) && r.value == ShareLink(id, hash, userId)
  {
    if Required(hash) then Some(ShareLink(id, hash, userId)) else None
  }

  /**
   * Storing a link built by the schema under a hash no stored link has keeps
   * hashes unique.
   */
  lemma {:induction false} AddShareLinkKeepsHashesUnique(links: seq<ShareLink>, id: ObjectId, hash: string, userId: ObjectId)
    requires HashesUnique(links)
    requires forall i :: 0 <= i < |links| ==> links[i].hash != hash
    ensures NewShareLink(id, hash, userId).Some? ==> HashesUnique(links + [NewShareLink(id, hash, userId).value])
  {
    if NewShareLink(id, hash, userId).Some? {
      var r := links + [NewShareLink(id, hash, userId).value];
      forall i, j | 0 <= i < j < |r|
        ensures r[i].hash != r[j].hash
      {
        if j == |links| {
          assert r[i] == links[i];
        } else {
          assert r[i] == links[i] && r[j] == links[j];
        }
      }
    }
  }
}
