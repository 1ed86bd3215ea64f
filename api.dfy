/** The REST surface: what the three view sets list, and what creating a
    blog, a post or a tag through them does. Every request first passes the
    coarse check of the view set's permission policy. */
module Api {
  import opened Constants
  import opened Text
  import opened Models
  import opened Database
  import opened AuthHelpers
  import opened Permissions
  import opened BlogHelpers
  import opened LegacyHelpers

  // ---------------------------------------------------------------------------
  // Listings

  /** `BlogViewSet.get_queryset`. */
  function BlogQueryset(db: Db, u: User): (r: set<BlogId>)
    ensures forall b :: b in r <==> b in db.blogs && (u.isSuperuser || BlogOwnedBy(db, b, u.id))
  {
    if IsSuperuser(u) then db.blogs.Keys else set b | b in db.blogs && db.blogs[b].user == u.id
  }

  /** A superuser lists every blog; anyone else lists their own blog, if they
      have one, and nothing else. */
  lemma {:induction false} BlogListing(db: Db, u: User)
    requires Valid(db)
    ensures u.isSuperuser ==> BlogQueryset(db, u) == db.blogs.Keys
    ensures !u.isSuperuser ==> BlogQueryset(db, u) == match UserBlog(db, u.id) case Some(b) => {b} case None => {}
  {
    if !u.isSuperuser {
      match UserBlog(db, u.id)
      case Some(b) =>
        assert forall c :: c in BlogQueryset(db, u) ==> c == b;
      case None =>
    }
  }

  /** The ids of the posts `PostViewSet.get_queryset` lists. */
  function VisiblePosts(db: Db, u: User): (r: set<PostId>)
    ensures r <= db.posts.Keys
    ensures forall p :: p in r <==> p in db.posts && (u.isSuperuser || PostOwnedBy(db, p, u.id))
  {
    if IsSuperuser(u) then db.posts.Keys else set p | p in db.posts && PostOwnedBy(db, p, u.id)
  }

  /** `PostViewSet.get_queryset` in the default order of the table. */
  ghost function PostQueryset(db: Db, u: User): (r: seq<PostId>)
    ensures forall p :: p in r <==> p in db.posts && (u.isSuperuser || PostOwnedBy(db, p, u.id))
    ensures forall i, j :: 0 <= i < j < |r| ==> r[i] != r[j]
    ensures NewestFirstOrder(db.posts, r)
  {
    NewestFirst(db.posts, VisiblePosts(db, u))
  }

  /** The posts a user lists are exactly the posts of the blogs that user
      lists. */
  lemma {:induction false} PostsFollowBlogs(db: Db, u: User)
    requires PostsHaveBlogs(db)
    ensures forall p :: p in VisiblePosts(db, u) <==> p in db.posts && db.posts[p].blog in BlogQueryset(db, u)
  {
  }

  /** `TagViewSet.get_queryset`: every tag for a superuser; for anyone else,
      each tag holding at least one of their posts, once. */
  function TagQueryset(db: Db, u: User): (r: set<TagId>)
    ensures r <= db.tags.Keys
  {
    if IsSuperuser(u) then db.tags.Keys
    else set t | t in db.tags && exists p :: p in db.tags[t].posts && PostOwnedBy(db, p, u.id)
  }

  /** A non-superuser lists exactly the tags on which `is_owner_of_any_post`
      holds, so a tag without posts is hidden even from the owner of its blog,
      while a tag of another blog that holds one of the user's posts shows. */
  lemma {:induction false} TagListing(db: Db, u: User)
    ensures u.isSuperuser ==> TagQueryset(db, u) == db.tags.Keys
    ensures !u.isSuperuser ==> forall t :: t in TagQueryset(db, u) <==> IsOwnerOfAnyPost(db, u, TagObj(t))
    ensures !u.isSuperuser ==> forall t :: t in db.tags && db.tags[t].posts == {} ==> t !in TagQueryset(db, u)
  {
    if !u.isSuperuser {
      forall t ensures t in TagQueryset(db, u) <==> IsOwnerOfAnyPost(db, u, TagObj(t)) {
        IsOwnerOfAnyPostByKind(db, u, 0, 0, t);
      }
    }
  }

  // ---------------------------------------------------------------------------
  // Creating a blog

  /** `BlogViewSet.create`: blogs are never created through this surface. */
  function CreateBlogRest(actor: Option<User>): (r: Result<BlogId>)
    ensures r.Err?
    ensures r.error == NotAuthenticated <==> !HasPermission(IsOwnerOrAdmin, actor)
    ensures HasPermission(IsOwnerOrAdmin, actor) ==> r.error == BlogAlreadyExists
  {
    if !HasPermission(IsOwnerOrAdmin, actor) then Err(NotAuthenticated) else Err(BlogAlreadyExists)
  }

  // ---------------------------------------------------------------------------
  // Creating a post

  /** `perform_create` of a post: the post is filed, trimmed, under the
      actor's blog, which is provisioned on first use. */
  ghost function FilePost(db: Db, u: User, title: string, content: string): Effect<Reply> {
    var e := ProvisionBlog(db, u);
    match e.out
    case Err(err) => Effect(e.db, Raised(err))
    case Ok(b) => Effect(AddPost(e.db, b, Trim(title), Trim(content)), Done(e.db.nextId))
  }

  /** `PostViewSet.create`: the coarse permission check, the serializer's
      field checks, then `perform_create`. */
  ghost function CreatePostSpec(db: Db, actor: Option<User>, title: string, content: string): Effect<Reply> {
    if !HasPermission(IsBlogOwnerOrAdmin, actor) then Effect(db, Raised(NotAuthenticated))
    else if PostFieldErrors(title, content) != [] then Effect(db, Rejected(PostFieldErrors(title, content)))
    else FilePost(db, actor.value, title, content)
  }

  /** Filing a post keeps the tables consistent and never touches the tags;
      it writes nothing when it fails. */
  lemma {:induction false} FilePostValid(db: Db, u: User, title: string, content: string)
    requires Valid(db) && TextFieldOk(title, MaxPostTitle)
    ensures var e := FilePost(db, u, title, content);
      && Valid(e.db) && e.db.tags == db.tags
      && (!e.out.Done? ==> e.db == db && e.out.Raised?)
  {
    var p := ProvisionBlog(db, u);
    ProvisionBlogOutcome(db, u);
    if p.out.Ok? {
      AddPostValid(p.db, p.out.value, Trim(title), Trim(content));
    }
  }

  /** Filing a post adds a blog exactly when the user had none. */
  lemma {:induction false} FilePostBlogs(db: Db, u: User, title: string, content: string)
    requires IdsIssued(db)
    ensures var e := FilePost(db, u, title, content);
      && (UserBlog(db, u.id).Some? ==> e.db.blogs == db.blogs)
      && (UserBlog(db, u.id).None? && e.out.Done? ==>
            e.db.blogs.Keys == db.blogs.Keys + {db.nextId} && db.nextId !in db.blogs)
  {
  }

  /** A filed post is a new row that carries the trimmed fields and belongs
      to the user's blog; every other post is kept as it was. */
  lemma {:induction false} FilePostCreates(db: Db, u: User, title: string, content: string)
    requires IdsIssued(db)
    ensures var e := FilePost(db, u, title, content);
      e.out.Done? ==>
        && e.out.id !in db.posts && e.db.posts.Keys == db.posts.Keys + {e.out.id}
        && (forall p :: p in db.posts ==> e.db.posts[p] == db.posts[p])
        && PostOwnedBy(e.db, e.out.id, u.id)
        && e.db.posts[e.out.id].title == Trim(title) && e.db.posts[e.out.id].content == Trim(content)
  {
    var p := ProvisionBlog(db, u);
    ProvisionBlogFrame(db, u);
    if p.out.Ok? {
      var b, id := p.out.value, p.db.nextId;
      var e := FilePost(db, u, title, content);
      assert e == Effect(AddPost(p.db, b, Trim(title), Trim(content)), Done(id));
      AddPostRow(p.db, b, Trim(title), Trim(content));
      assert id !in db.posts;
    }
  }

  /** A request is refused, writing nothing, unless the actor is
      authenticated and the fields are valid; then the post is filed. */
  lemma {:induction false} CreatePostOutcome(db: Db, actor: Option<User>, title: string, content: string)
    requires Valid(db)
    ensures var e := CreatePostSpec(db, actor, title, content);
      && Valid(e.db)
      && (!IsAuthenticated(actor) ==> e == Effect(db, Raised(NotAuthenticated)))
      && (IsAuthenticated(actor) && PostFieldErrors(title, content) != [] ==>
            e == Effect(db, Rejected(PostFieldErrors(title, content))))
      && (IsAuthenticated(actor) && PostFieldErrors(title, content) == [] ==> e == FilePost(db, actor.value, title, content))
  {
    if IsAuthenticated(actor) && PostFieldErrors(title, content) == [] {
      FilePostValid(db, actor.value, title, content);
    }
  }

  /** The post just created heads the actor's listing. */
  lemma {:induction false} CreatedPostListedFirst(db: Db, actor: Option<User>, title: string, content: string)
    requires Valid(db)
    requires CreatePostSpec(db, actor, title, content).out.Done?
    ensures var e := CreatePostSpec(db, actor, title, content);
      |PostQueryset(e.db, actor.value)| > 0 && PostQueryset(e.db, actor.value)[0] == e.out.id
  {
    var e := CreatePostSpec(db, actor, title, content);
    var u := actor.value;
    CreatePostOutcome(db, actor, title, content);
    FilePostCreates(db, u, title, content);
    ProvisionBlogOutcome(db, u);
    var id := e.out.id;
    assert e.db.posts[id].createdAt == id;
    forall q | q in VisiblePosts(e.db, u) && q != id
      ensures e.db.posts[q].createdAt < e.db.posts[id].createdAt
    {
      assert q in db.posts;
    }
    NewestFirstHead(e.db.posts, VisiblePosts(e.db, u), id);
  }

  /** `PostViewSet.create` on the store. */
  method CreatePost(store: Store, actor: Option<User>, title: string, content: string) returns (r: Reply)
    requires store.Valid()
    modifies store
    ensures store.Valid()
    ensures Effect(store.Snapshot(), r) == CreatePostSpec(old(store.Snapshot()), actor, title, content)
  {
    CreatePostOutcome(store.Snapshot(), actor, title, content);
    if !HasPermission(IsBlogOwnerOrAdmin, actor) {
      return Raised(NotAuthenticated);
    }
    var errors := PostFieldErrors(title, content);
    if errors != [] {
      return Rejected(errors);
    }
    var blog := LegacyHelpers.GetUserBlog(store, actor.value);
    match blog
    case Err(err) =>
      r := Raised(err);
    case Ok(b) =>
      var id := store.InsertPost(b, Trim(title), Trim(content));
      r := Done(id);
  }

  // ---------------------------------------------------------------------------
  // Creating a tag

  /** Every listed id names an existing post. */
  predicate PostsExist(db: Db, posts: seq<PostId>) {
    forall i :: 0 <= i < |posts| ==> posts[i] in db.posts
  }

  /** The set of posts a list names. */
  function PostSet(posts: seq<PostId>): (r: set<PostId>)
    ensures forall p :: p in r <==> p in posts
  {
    set i | 0 <= i < |posts| :: posts[i]
  }

  /** Find-or-create of the tag in `blog`, followed by `tag.posts.add(...)`:
      the tag gains the posts `ps` and keeps those it had. */
  ghost function LinkTag(db: Db, blog: BlogId, name: string, ps: set<PostId>): Effect<Result<TagId>> {
    var e := GetOrCreateTagSpec(db, blog, name);
    match e.out
    case Err(err) => Effect(e.db, Err(err))
    case Ok(t) =>
      assert TagIs(e.db, t, blog, Normalize(name)) by {
        if FindTag(db, blog, Normalize(name)).None? {
          assert t == db.nextId;
        }
      }
      Effect(AddTagPosts(e.db, t, ps), Ok(t))
  }

  /** `tag.posts.add(*ps)` on a stored tag. */
  function AddTagPosts(db: Db, t: TagId, ps: set<PostId>): Db
    requires t in db.tags
  {
    PutTag(db, t, db.tags[t].(posts := db.tags[t].posts + ps))
  }

  lemma AddTagPostsValid(db: Db, t: TagId, ps: set<PostId>)
    requires Valid(db) && t in db.tags && ps <= db.posts.Keys
    ensures Valid(AddTagPosts(db, t, ps))
  {
    var tag := db.tags[t];
    assert TagFits(db, t, tag.(posts := tag.posts + ps));
    PutTagValid(db, t, tag.(posts := tag.posts + ps));
  }

  /** The rows linking writes, which need only the id counter to be ahead:
      the tag found or created under the normalised name gains `ps`, and
      nothing else changes. */
  lemma {:induction false} LinkTagRows(db: Db, blog: BlogId, name: string, ps: set<PostId>)
    requires IdsIssued(db) && |Normalize(name)| <= MaxTagName
    ensures var e := LinkTag(db, blog, name, ps);
      && e.out.Ok? && e.db.posts == db.posts && e.db.blogs == db.blogs
      && var t := e.out.value;
      && t in e.db.tags && e.db.tags[t].blog == blog && e.db.tags[t].name == Normalize(name)
      && e.db.tags[t].posts == (if t in db.tags then db.tags[t].posts else {}) + ps
      && (forall t' :: t' in db.tags && t' != t ==> t' in e.db.tags && e.db.tags[t'] == db.tags[t'])
  {
    var e2 := GetOrCreateTagSpec(db, blog, name);
    LinkTagSteps(db, blog, name, ps);
    GetOrCreateTagRows(db, blog, name);
    AddTagPostsRows(e2.db, e2.out.value, ps);
  }

  /** Adding posts to a tag changes nothing but that tag's post set. */
  lemma AddTagPostsRows(db: Db, t: TagId, ps: set<PostId>)
    requires t in db.tags
    ensures var r := AddTagPosts(db, t, ps);
      && r.blogs == db.blogs && r.posts == db.posts && r.nextId == db.nextId
      && r.tags == db.tags[t := Tag(db.tags[t].blog, db.tags[t].name, db.tags[t].posts + ps)]
  {
  }

  /** Linking is find-or-create followed by adding the posts to the tag found,
      which is a stored tag. */
  lemma {:induction false} LinkTagSteps(db: Db, blog: BlogId, name: string, ps: set<PostId>)
    ensures var e2 := GetOrCreateTagSpec(db, blog, name);
      && LinkTag(db, blog, name, ps).out == e2.out
      && (e2.out.Ok? ==>
            && e2.out.value in e2.db.tags
            && LinkTag(db, blog, name, ps).db == AddTagPosts(e2.db, e2.out.value, ps))
      && (e2.out.Err? ==> LinkTag(db, blog, name, ps).db == e2.db)
  {
  }

  /** Linking keeps the tables consistent. */
  lemma {:induction false} LinkTagValid(db: Db, blog: BlogId, name: string, ps: set<PostId>)
    requires Valid(db) && blog in db.blogs && |Normalize(name)| <= MaxTagName && ps <= db.posts.Keys
    ensures Valid(LinkTag(db, blog, name, ps).db)
  {
    var e2 := GetOrCreateTagSpec(db, blog, name);
    GetOrCreateTagOutcome(db, blog, name);
    var t := e2.out.value;
    assert LinkTag(db, blog, name, ps).db == AddTagPosts(e2.db, t, ps);
    AddTagPostsValid(e2.db, t, ps);
  }

  /** With a name that fits, linking always succeeds: the tag of the blog
      under the normalised name ends up with its old posts plus `ps`, no other
      tag changes, and the tables stay consistent. */
  lemma {:induction false} LinkTagOutcome(db: Db, blog: BlogId, name: string, ps: set<PostId>)
    requires Valid(db) && blog in db.blogs && |Normalize(name)| <= MaxTagName && ps <= db.posts.Keys
    ensures var e := LinkTag(db, blog, name, ps);
      && e.out.Ok? && Valid(e.db) && e.db.posts == db.posts && e.db.blogs == db.blogs
      && var t := e.out.value;
      && t in e.db.tags && e.db.tags[t].blog == blog && e.db.tags[t].name == Normalize(name)
      && e.db.tags[t].posts == (if t in db.tags then db.tags[t].posts else {}) + ps
      && (forall t' :: t' in db.tags && t' != t ==> t' in e.db.tags && e.db.tags[t'] == db.tags[t'])
  {
    LinkTagRows(db, blog, name, ps);
    LinkTagValid(db, blog, name, ps);
  }

  /** `perform_create` of a tag: the actor's blog, provisioned on first use,
      then the tag of that blog under the normalised name gains the posts. */
  ghost function FileTag(db: Db, u: User, name: string, posts: seq<PostId>): Effect<Reply> {
    var e1 := ProvisionBlog(db, u);
    match e1.out
    case Err(err) => Effect(e1.db, Raised(err))
    case Ok(b) =>
      var e2 := LinkTag(e1.db, b, name, PostSet(posts));
      match e2.out
      case Err(err) => Effect(e2.db, Raised(err))
      case Ok(t) => Effect(e2.db, Done(t))
  }

  /** `perform_create` of a tag as written: no blog is consulted, the tag is
      the first one of that normalised name in any blog, and the posts are
      added to it; with no tag of that name, creating one without a blog
      fails. */
  ghost function FileTagAsWritten(db: Db, name: string, posts: seq<PostId>): Effect<Reply> {
    var e := GetOrCreateTagByName(db, name);
    match e.out
    case Err(err) => Effect(e.db, Raised(err))
    case Ok(t) =>
      TagByNameNeverCreates(db, name);
      Effect(AddTagPosts(db, t, PostSet(posts)), Done(t))
  }

  /** As written, filing never creates a tag: it adds the posts to the first
      tag of that name, whichever blog holds it, or fails writing nothing
      when no tag has the name. */
  lemma {:induction false} FileTagAsWrittenOutcome(db: Db, name: string, posts: seq<PostId>)
    ensures var e := FileTagAsWritten(db, name, posts);
      && e.db.blogs == db.blogs && e.db.posts == db.posts && e.db.tags.Keys == db.tags.Keys
      && (e.out.Done? ==>
            && IsFirstTagNamed(db, Normalize(name), e.out.id)
            && e.db.tags[e.out.id].blog == db.tags[e.out.id].blog
            && e.db.tags[e.out.id].posts == db.tags[e.out.id].posts + PostSet(posts))
      && (!e.out.Done? ==>
            && e.db == db && e.out.Raised?
            && forall t :: t in db.tags ==> db.tags[t].name != Normalize(name))
  {
    TagByNameNeverCreates(db, name);
    var e := GetOrCreateTagByName(db, name);
    if e.out.Ok? {
      AddTagPostsRows(db, e.out.value, PostSet(posts));
    }
  }

  /** As written, user 1 tagging their own post 3 as "Django " adds it to tag 2
      of user 2's blog. */
  lemma {:induction false} FileTagAsWrittenCrossesBlogs()
    ensures var db := Db(map[0 := Blog(1, "a", ""), 1 := Blog(2, "b", "")],
                         map[3 := Post(0, "p", "c", 3)], map[2 := Tag(1, "django", {})], 4);
      var e := FileTagAsWritten(db, "Django ", [3]);
      && PostOwnedBy(db, 3, 1)
      && e.out == Done(2) && 3 in e.db.tags[2].posts
      && !BlogOwnedBy(e.db, e.db.tags[2].blog, 1)
  {
    var db := Db(map[0 := Blog(1, "a", ""), 1 := Blog(2, "b", "")],
                 map[3 := Post(0, "p", "c", 3)], map[2 := Tag(1, "django", {})], 4);
    assert IsFirstTagNamed(db, "django", 2);
    assert FirstTagNamed(db, "django") == Some(2);
    NormalizeExample();
    assert GetOrCreateTagByName(db, "Django ") == Effect(db, Ok(2));
    assert 3 in PostSet([3]);
  }

  /** `TagViewSet.create` with `perform_create`, with the tag found or created
      in the actor's own blog. The serializer resolves the post ids (an
      unknown id is a field error), checks that the actor owns every post
      (a refusal escapes as an exception even when the name is also
      invalid), and checks and trims the name. */
  ghost function CreateTagSpec(db: Db, actor: Option<User>, name: string, posts: seq<PostId>): Effect<Reply> {
    if !HasPermission(IsBlogOwnerOrAdmin, actor) then Effect(db, Raised(NotAuthenticated))
    else if !PostsExist(db, posts) then Effect(db, Rejected(TagFieldErrors(name) + [FieldInvalid(PostsField)]))
    else if OwnsPostsVerdict(db, actor.value, posts).Err? then
      Effect(db, Raised(OwnsPostsVerdict(db, actor.value, posts).error))
    else if TagFieldErrors(name) != [] then Effect(db, Rejected(TagFieldErrors(name)))
    else FileTag(db, actor.value, Trim(name), posts)
  }

  /** A non-superuser naming a post that is not theirs is refused with that
      post's title before anything is found or created. */
  lemma {:induction false} CreateTagRefusesForeignPosts(db: Db, actor: Option<User>, name: string, posts: seq<PostId>, i: nat)
    requires IsAuthenticated(actor) && !actor.value.isSuperuser
    requires PostsExist(db, posts) && i < |posts| && !PostOwnedBy(db, posts[i], actor.value.id)
    ensures var e := CreateTagSpec(db, actor, name, posts);
      e.db == db && e.out.Raised? && e.out.error.PostNotOwned?
  {
  }

  /** Filing a tag: it lies in the user's blog under the normalised name and
      ends up with its old posts plus the given ones; no post is removed and
      no other tag changes. It fails, writing nothing, only when the user's
      blog cannot be provisioned. */
  lemma {:induction false} FileTagOutcome(db: Db, u: User, name: string, posts: seq<PostId>)
    requires Valid(db) && TextFieldOk(name, MaxTagName) && PostsExist(db, posts)
    ensures var e := FileTag(db, u, Trim(name), posts);
      && Valid(e.db) && e.db.posts == db.posts
      && (!e.out.Done? ==> e.db == db && e.out == Raised(ValueTooLong))
      && (e.out.Done? ==>
            && var t := e.out.id;
            && t in e.db.tags
            && BlogOwnedBy(e.db, e.db.tags[t].blog, u.id)
            && e.db.tags[t].name == Normalize(name)
            && e.db.tags[t].posts == (if t in db.tags then db.tags[t].posts else {}) + PostSet(posts)
            && (forall t' :: t' in db.tags && t' != t ==> t' in e.db.tags && e.db.tags[t'] == db.tags[t']))
  {
    var e1 := ProvisionBlog(db, u);
    ProvisionBlogOutcome(db, u);
    if e1.out.Ok? {
      var n := Trim(name);
      TrimOfTrimmed(n);
      assert Normalize(n) == Normalize(name);
      LinkTagOutcome(e1.db, e1.out.value, n, PostSet(posts));
    }
  }

  /** A request is refused, writing nothing, unless the actor is
      authenticated, every post exists and may be used, and the name is
      valid; then the tag is filed. */
  lemma {:induction false} CreateTagOutcome(db: Db, actor: Option<User>, name: string, posts: seq<PostId>)
    requires Valid(db)
    ensures var e := CreateTagSpec(db, actor, name, posts);
      && Valid(e.db)
      && (!IsAuthenticated(actor) ==> e == Effect(db, Raised(NotAuthenticated)))
      && (IsAuthenticated(actor) && !PostsExist(db, posts) ==> e.db == db && e.out.Rejected?)
      && ((IsAuthenticated(actor) && PostsExist(db, posts) && !actor.value.isSuperuser
           && exists i :: 0 <= i < |posts| && !PostOwnedBy(db, posts[i], actor.value.id)) ==>
            e.db == db && e.out.Raised?)
      && ((IsAuthenticated(actor) && PostsExist(db, posts) && OwnsPostsVerdict(db, actor.value, posts).Ok?
           && TagFieldErrors(name) == []) ==> e == FileTag(db, actor.value, Trim(name), posts))
  {
    if IsAuthenticated(actor) && PostsExist(db, posts) && OwnsPostsVerdict(db, actor.value, posts).Ok?
       && TagFieldErrors(name) == [] {
      FileTagOutcome(db, actor.value, name, posts);
    }
  }

  /** `TagViewSet.create` on the store. */
  method CreateTag(store: Store, actor: Option<User>, name: string, posts: seq<PostId>) returns (r: Reply)
    requires store.Valid()
    modifies store
    ensures store.Valid()
    ensures Effect(store.Snapshot(), r) == CreateTagSpec(old(store.Snapshot()), actor, name, posts)
  {
    CreateTagOutcome(store.Snapshot(), actor, name, posts);
    if !HasPermission(IsBlogOwnerOrAdmin, actor) {
      return Raised(NotAuthenticated);
    }
    if exists i | 0 <= i < |posts| :: posts[i] !in store.posts {
      return Rejected(TagFieldErrors(name) + [FieldInvalid(PostsField)]);
    }
    var owns := ValidateUserOwnsPosts(store.Snapshot(), actor.value, posts);
    if owns.Err? {
      return Raised(owns.error);
    }
    var errors := TagFieldErrors(name);
    if errors != [] {
      return Rejected(errors);
    }
    r := FileTagOn(store, actor.value, Trim(name), posts);
  }

  /** `perform_create` of a tag on the store. */
  method FileTagOn(store: Store, u: User, name: string, posts: seq<PostId>) returns (r: Reply)
    requires store.Valid() && |Normalize(name)| <= MaxTagName && PostSet(posts) <= store.posts.Keys
    modifies store
    ensures store.Valid()
    ensures Effect(store.Snapshot(), r) == FileTag(old(store.Snapshot()), u, name, posts)
  {
    ghost var db0 := store.Snapshot();
    ProvisionBlogFrame(db0, u);
    var blog := LegacyHelpers.GetUserBlog(store, u);
    if blog.Err? {
      return Raised(blog.error);
    }
    ghost var db1 := store.Snapshot();
    ghost var ps := PostSet(posts);
    LinkTagValid(db1, blog.value, name, ps);
    LinkTagSteps(db1, blog.value, name, ps);
    var found := GetOrCreateTag(store, blog.value, name);
    assert found.Ok?;
    var t := found.value;
    var tag := store.tags[t];
    store.SaveTag(t, tag.(posts := tag.posts + PostSet(posts)));
    assert store.Snapshot() == LinkTag(db1, blog.value, name, ps).db;
    assert FileTag(db0, u, name, posts) == Effect(LinkTag(db1, blog.value, name, ps).db, Done(t));
    r := Done(t);
  }
}
