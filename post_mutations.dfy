/** The GraphQL mutations on posts: create, update and delete. The ownership
    check of update and delete is `validate_posts_for_user` on the one post
    id, as its three-parameter signature requires; the source calls it with
    two arguments (`post_mutations.py:41`, `:69`, `:107`), which would raise
    a `TypeError`, so the model follows the evident intent. */
module PostMutations {
  import opened Constants
  import opened Text
  import opened Models
  import opened Database
  import opened AuthHelpers
  import opened BlogHelpers

  /** The existing tags among the requested ids (`Tag.objects.filter(id__in=...)`).
      CreatePost's source filters Post rows by these ids instead
      (`post_mutations.py:40`); the model reads them as Tag ids. */
  function ExistingTags(db: Db, tagIds: seq<TagId>): (r: set<TagId>)
    ensures forall t :: t in r <==> t in tagIds && t in db.tags
  {
    set t | t in tagIds && t in db.tags
  }

  // ---------------------------------------------------------------------------
  // CreatePost

  /** `CreatePost.mutate`: the actor needs a blog (none is created here); the
      serializer checks the fields; the post is inserted trimmed under the
      actor's blog and, when tag ids are given, placed in exactly the
      existing tags among them. The source filters Post rows by the tag ids
      and checks those rows, not the tags; the model reads the ids as Tag ids
      and applies no ownership check to them. */
  ghost function CreatePostSpec(db: Db, actor: Option<User>, title: string, content: string, tagIds: seq<TagId>): Effect<Reply> {
    match CheckUserAuthenticated(actor)
    case Err(e) => Effect(db, Raised(e))
    case Ok(u) =>
      match GetUserBlog(db, u)
      case Err(e) => Effect(db, Rejected([e]))
      case Ok(b) =>
        if PostFieldErrors(title, content) != [] then Effect(db, Rejected(PostFieldErrors(title, content)))
        else
          Effect(FileNewPost(db, b, Trim(title), Trim(content), tagIds), Done(db.nextId))
  }

  /** The writes of a created post: the row, then its tags when ids are given. */
  ghost function FileNewPost(db: Db, b: BlogId, title: string, content: string, tagIds: seq<TagId>): Db {
    var db1 := AddPost(db, b, title, content);
    if tagIds == [] then db1 else SetPostTags(db1, db.nextId, ExistingTags(db, tagIds))
  }

  /** Filing a post adds exactly the new row under the next id and places it
      in exactly the existing tags among the ids; blogs are untouched. */
  lemma {:induction false} FileNewPostRows(db: Db, b: BlogId, title: string, content: string, tagIds: seq<TagId>)
    requires IdsIssued(db) && TagPostsExist(db)
    ensures var r := FileNewPost(db, b, title, content, tagIds);
      && r.blogs == db.blogs && db.nextId !in db.posts
      && r.posts == db.posts[db.nextId := Post(b, title, content, db.nextId)]
      && TagsOfPost(r, db.nextId) == ExistingTags(db, tagIds)
  {
    var id := db.nextId;
    var db1 := AddPost(db, b, title, content);
    AddPostRow(db, b, title, content);
    assert TagsOfPost(db1, id) == {} by {
      forall t | t in db1.tags ensures id !in db1.tags[t].posts {
        assert db1.tags[t].posts <= db.posts.Keys;
      }
    }
    if tagIds != [] {
      SetPostTagsEffect(db1, id, ExistingTags(db, tagIds));
    }
  }

  /** Filing a post in an existing blog with a title that fits keeps the
      tables consistent. */
  lemma {:induction false} FileNewPostValid(db: Db, b: BlogId, title: string, content: string, tagIds: seq<TagId>)
    requires Valid(db) && b in db.blogs && |title| <= MaxPostTitle
    ensures Valid(FileNewPost(db, b, title, content, tagIds))
  {
    AddPostValid(db, b, title, content);
    if tagIds != [] {
      SetPostTagsValid(AddPost(db, b, title, content), db.nextId, ExistingTags(db, tagIds));
    }
  }

  /** Without a blog the actor is sent to create one and nothing is written. */
  lemma {:induction false} CreatePostNeedsBlog(db: Db, actor: Option<User>, title: string, content: string, tagIds: seq<TagId>)
    requires IsAuthenticated(actor) && forall b :: !BlogOwnedBy(db, b, actor.value.id)
    ensures CreatePostSpec(db, actor, title, content, tagIds) == Effect(db, Rejected([NeedCreateBlog]))
  {
  }

  /** A created post is a new row in the actor's blog carrying the trimmed
      fields; its tags are the existing tags among the ids given (none when
      no ids are given); no blog and no other post changes; a refusal writes
      nothing; the tables stay consistent. */
  lemma {:induction false} CreatePostOutcome(db: Db, actor: Option<User>, title: string, content: string, tagIds: seq<TagId>)
    requires Valid(db)
    ensures var e := CreatePostSpec(db, actor, title, content, tagIds);
      && Valid(e.db) && e.db.blogs == db.blogs
      && (!e.out.Done? ==> e.db == db)
      && (e.out.Done? ==>
            && IsAuthenticated(actor) && UserBlog(db, actor.value.id).Some?
            && var id := e.out.id;
            && id !in db.posts
            && e.db.posts == db.posts[id := Post(UserBlog(db, actor.value.id).value, Trim(title), Trim(content), id)]
            && PostOwnedBy(e.db, id, actor.value.id)
            && TagsOfPost(e.db, id) == ExistingTags(db, tagIds))
  {
    var e := CreatePostSpec(db, actor, title, content, tagIds);
    if e.out.Done? {
      var b := UserBlog(db, actor.value.id).value;
      assert e.db == FileNewPost(db, b, Trim(title), Trim(content), tagIds);
      FileNewPostRows(db, b, Trim(title), Trim(content), tagIds);
      FileNewPostValid(db, b, Trim(title), Trim(content), tagIds);
    }
  }

  /** `CreatePost.mutate` on the store. */
  method CreatePost(store: Store, actor: Option<User>, title: string, content: string, tagIds: seq<TagId>) returns (r: Reply)
    requires store.Valid()
    modifies store
    ensures store.Valid()
    ensures Effect(store.Snapshot(), r) == CreatePostSpec(old(store.Snapshot()), actor, title, content, tagIds)
  {
    CreatePostOutcome(store.Snapshot(), actor, title, content, tagIds);
    var checked := CheckUserAuthenticated(actor);
    if checked.Err? {
      return Raised(checked.error);
    }
    var u := checked.value;
    if b :| b in store.blogs && store.blogs[b].user == u.id {
      UserBlogUnique(store.Snapshot(), u.id, b);
      var errors := PostFieldErrors(title, content);
      if errors != [] {
        return Rejected(errors);
      }
      var tags := ExistingTags(store.Snapshot(), tagIds);
      var id := store.InsertPost(b, Trim(title), Trim(content));
      if tagIds != [] {
        store.SetPostTags(id, tags);
      }
      r := Done(id);
    } else {
      r := Rejected([NeedCreateBlog]);
    }
  }

  // ---------------------------------------------------------------------------
  // UpdatePost

  /** The ownership check of update and delete on post `p`. */
  function CheckPostOwner(db: Db, u: User, p: PostId): (r: Result<()>)
    ensures r.Ok? <==> p in db.posts && (u.isSuperuser || PostOwnedBy(db, p, u.id))
    ensures r.Err? ==> r.error == TagPostsNotFound
  {
    ValidatePostsForIds(db, u, multiset{p});
    ValidatePostsForUser(db, u, multiset{p}, PostsWithIds(db, multiset{p}))
  }

  /** `UpdatePost.mutate`: an unknown id is reported; a post the actor may not
      use is refused; an omitted title or content keeps the stored one; the
      serializer checks the fields; the post is saved trimmed; and, only when
      tag ids are given, its tags become exactly the existing tags among
      them. */
  ghost function UpdatePostSpec(db: Db, actor: Option<User>, p: PostId, title: Option<string>, content: Option<string>,
                                tagIds: Option<seq<TagId>>): Effect<Reply> {
    match CheckUserAuthenticated(actor)
    case Err(e) => Effect(db, Raised(e))
    case Ok(u) =>
      if p !in db.posts then Effect(db, Rejected([PostNotFound]))
      else if CheckPostOwner(db, u, p).Err? then Effect(db, Raised(CheckPostOwner(db, u, p).error))
      else
        var newTitle := OrStored(title, db.posts[p].title);
        var newContent := OrStored(content, db.posts[p].content);
        if PostFieldErrors(newTitle, newContent) != [] then Effect(db, Rejected(PostFieldErrors(newTitle, newContent)))
        else Effect(SaveEdits(db, p, Trim(newTitle), Trim(newContent), tagIds), Done(p))
  }

  /** A partial update's value of a field: the given one, or the stored one. */
  function OrStored(given: Option<string>, stored: string): (r: string)
    ensures given.Some? ==> r == given.value
    ensures given.None? ==> r == stored
  {
    if given.Some? then given.value else stored
  }

  /** The writes of an update: the post row, then its tags when ids are given. */
  ghost function SaveEdits(db: Db, p: PostId, title: string, content: string, tagIds: Option<seq<TagId>>): Db
    requires p in db.posts
  {
    var db1 := PutPost(db, p, db.posts[p].(title := title, content := content));
    match tagIds
    case None => db1
    case Some(ts) => SetPostTags(db1, p, ExistingTags(db, ts))
  }

  /** Saving edits rewrites only the title and content of the post, and its
      tags only when ids are given; every other post keeps its row and tags. */
  lemma {:induction false} SaveEditsRows(db: Db, p: PostId, title: string, content: string, tagIds: Option<seq<TagId>>)
    requires p in db.posts
    ensures var r := SaveEdits(db, p, title, content, tagIds);
      && r.blogs == db.blogs
      && r.posts == db.posts[p := Post(db.posts[p].blog, title, content, db.posts[p].createdAt)]
      && TagsOfPost(r, p) == (if tagIds.Some? then ExistingTags(db, tagIds.value) else TagsOfPost(db, p))
      && (forall q :: q != p ==> TagsOfPost(r, q) == TagsOfPost(db, q))
  {
    var db1 := PutPost(db, p, db.posts[p].(title := title, content := content));
    assert db1.tags == db.tags;
    if tagIds.Some? {
      SetPostTagsEffect(db1, p, ExistingTags(db, tagIds.value));
    }
  }

  /** Saving edits with a title that fits keeps the tables consistent. */
  lemma {:induction false} SaveEditsValid(db: Db, p: PostId, title: string, content: string, tagIds: Option<seq<TagId>>)
    requires Valid(db) && p in db.posts && |title| <= MaxPostTitle
    ensures Valid(SaveEdits(db, p, title, content, tagIds))
  {
    var post := db.posts[p].(title := title, content := content);
    PutPostValid(db, p, post);
    if tagIds.Some? {
      SetPostTagsValid(PutPost(db, p, post), p, ExistingTags(db, tagIds.value));
    }
  }

  /** Who is refused: the anonymous actor, an unknown id (reported, not
      raised), and a non-superuser who does not own the post; none of them
      writes anything. */
  lemma {:induction false} UpdatePostRefusals(db: Db, actor: Option<User>, p: PostId, title: Option<string>,
                                              content: Option<string>, tagIds: Option<seq<TagId>>)
    ensures var e := UpdatePostSpec(db, actor, p, title, content, tagIds);
      && (!IsAuthenticated(actor) ==> e == Effect(db, Raised(NotAuthenticated)))
      && (IsAuthenticated(actor) && p !in db.posts ==> e == Effect(db, Rejected([PostNotFound])))
      && (IsAuthenticated(actor) && p in db.posts && !actor.value.isSuperuser && !PostOwnedBy(db, p, actor.value.id) ==>
            e == Effect(db, Raised(TagPostsNotFound)))
      && (e.out.Done? ==> IsAuthenticated(actor) && (actor.value.isSuperuser || PostOwnedBy(db, p, actor.value.id)))
  {
  }

  /** An update keeps the post in its blog with its creation stamp, stores the
      given or the old title and content, trimmed, and leaves every other post
      alone; the post's tags change only when tag ids are given, and then
      become exactly the existing tags among them. */
  lemma {:induction false} UpdatePostOutcome(db: Db, actor: Option<User>, p: PostId, title: Option<string>,
                                             content: Option<string>, tagIds: Option<seq<TagId>>)
    requires Valid(db)
    ensures var e := UpdatePostSpec(db, actor, p, title, content, tagIds);
      && Valid(e.db) && e.db.blogs == db.blogs
      && (!e.out.Done? ==> e.db == db)
      && (e.out.Done? ==>
            && e.out.id == p && p in db.posts
            && e.db.posts == db.posts[p := Post(db.posts[p].blog, Trim(OrStored(title, db.posts[p].title)),
                                                Trim(OrStored(content, db.posts[p].content)), db.posts[p].createdAt)]
            && TagsOfPost(e.db, p) == (if tagIds.Some? then ExistingTags(db, tagIds.value) else TagsOfPost(db, p))
            && (forall q :: q != p ==> TagsOfPost(e.db, q) == TagsOfPost(db, q)))
  {
    var e := UpdatePostSpec(db, actor, p, title, content, tagIds);
    if e.out.Done? {
      var newTitle := Trim(OrStored(title, db.posts[p].title));
      var newContent := Trim(OrStored(content, db.posts[p].content));
      assert e.db == SaveEdits(db, p, newTitle, newContent, tagIds);
      SaveEditsRows(db, p, newTitle, newContent, tagIds);
      SaveEditsValid(db, p, newTitle, newContent, tagIds);
    }
  }

  /** `UpdatePost.mutate` on the store. */
  method UpdatePost(store: Store, actor: Option<User>, p: PostId, title: Option<string>, content: Option<string>,
                    tagIds: Option<seq<TagId>>) returns (r: Reply)
    requires store.Valid()
    modifies store
    ensures store.Valid()
    ensures Effect(store.Snapshot(), r) == UpdatePostSpec(old(store.Snapshot()), actor, p, title, content, tagIds)
  {
    UpdatePostOutcome(store.Snapshot(), actor, p, title, content, tagIds);
    var checked := CheckUserAuthenticated(actor);
    if checked.Err? {
      return Raised(checked.error);
    }
    var u := checked.value;
    if p !in store.posts {
      return Rejected([PostNotFound]);
    }
    var owner := CheckPostOwner(store.Snapshot(), u, p);
    if owner.Err? {
      return Raised(owner.error);
    }
    var post := store.posts[p];
    var newTitle := OrStored(title, post.title);
    var newContent := OrStored(content, post.content);
    var errors := PostFieldErrors(newTitle, newContent);
    if errors != [] {
      return Rejected(errors);
    }
    var tags := if tagIds.Some? then ExistingTags(store.Snapshot(), tagIds.value) else {};
    store.SavePost(p, post.(title := Trim(newTitle), content := Trim(newContent)));
    if tagIds.Some? {
      store.SetPostTags(p, tags);
    }
    r := Done(p);
  }

  // ---------------------------------------------------------------------------
  // DeletePost

  /** `DeletePost.mutate`: an unknown id gives `ok = false` with the
      not-found error; a post the actor may not use is refused; otherwise the
      post and its links to tags are deleted. */
  ghost function DeletePostSpec(db: Db, actor: Option<User>, p: PostId): Effect<Reply> {
    match CheckUserAuthenticated(actor)
    case Err(e) => Effect(db, Raised(e))
    case Ok(u) =>
      if p !in db.posts then Effect(db, Rejected([PostNotFound]))
      else if CheckPostOwner(db, u, p).Err? then Effect(db, Raised(CheckPostOwner(db, u, p).error))
      else Effect(RemovePost(db, p), Done(p))
  }

  /** A deletion removes exactly that post, and no tag keeps a link to it;
      blogs, the other posts and the tags themselves remain. It succeeds
      exactly for a superuser or the owner of an existing post. */
  lemma {:induction false} DeletePostOutcome(db: Db, actor: Option<User>, p: PostId)
    requires Valid(db)
    ensures var e := DeletePostSpec(db, actor, p);
      && Valid(e.db)
      && (e.out.Done? <==> IsAuthenticated(actor) && p in db.posts && (actor.value.isSuperuser || PostOwnedBy(db, p, actor.value.id)))
      && (IsAuthenticated(actor) && p !in db.posts ==> e == Effect(db, Rejected([PostNotFound])))
      && (!e.out.Done? ==> e.db == db)
      && (e.out.Done? ==>
            && e.db.posts == db.posts - {p} && e.db.blogs == db.blogs
            && e.db.tags.Keys == db.tags.Keys && TagsOfPost(e.db, p) == {}
            && (forall t :: t in db.tags ==> e.db.tags[t].posts == db.tags[t].posts - {p}))
  {
    RemovePostValid(db, p);
  }

  /** `DeletePost.mutate` on the store. */
  method DeletePost(store: Store, actor: Option<User>, p: PostId) returns (r: Reply)
    requires store.Valid()
    modifies store
    ensures store.Valid()
    ensures Effect(store.Snapshot(), r) == DeletePostSpec(old(store.Snapshot()), actor, p)
  {
    DeletePostOutcome(store.Snapshot(), actor, p);
    var checked := CheckUserAuthenticated(actor);
    if checked.Err? {
      return Raised(checked.error);
    }
    var u := checked.value;
    if p !in store.posts {
      return Rejected([PostNotFound]);
    }
    var owner := CheckPostOwner(store.Snapshot(), u, p);
    if owner.Err? {
      return Raised(owner.error);
    }
    store.DeletePost(p);
    r := Done(p);
  }
}
