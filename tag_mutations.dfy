/** The GraphQL mutations on tags: create, update and delete. Every ownership
    check is `validate_posts_for_user` with ids and rows: the requested ids
    with their rows when posts are assigned, and the tag's own posts when an
    existing tag is changed. The source passes only two arguments
    (`tag_mutations.py:34`, `:61`, `:69`, `:90`), which would raise a
    `TypeError`; the model follows the evident intent. */
module TagMutations {
  import opened Constants
  import opened Text
  import opened Models
  import opened Database
  import opened AuthHelpers
  import opened BlogHelpers

  /** The ownership check of a list of requested post ids. */
  function CheckRequestedPosts(db: Db, u: User, postIds: seq<PostId>): (r: Result<()>)
    ensures r.Ok? <==>
      && postIds != [] && Distinct(multiset(postIds))
      && forall p :: p in postIds ==> p in db.posts && (u.isSuperuser || PostOwnedBy(db, p, u.id))
    ensures postIds == [] ==> r == Err(PostIsRequired)
    ensures postIds != [] && r.Err? ==> r.error == TagPostsNotFound
  {
    ValidatePostsForIds(db, u, multiset(postIds));
    assert postIds == [] <==> multiset(postIds) == multiset{};
    ValidatePostsForUser(db, u, multiset(postIds), PostsWithIds(db, multiset(postIds)))
  }

  /** The ownership check of the posts a tag already holds. */
  function CheckTagPosts(db: Db, u: User, t: TagId): (r: Result<()>)
    requires t in db.tags && db.tags[t].posts <= db.posts.Keys
    ensures r.Ok? <==>
      db.tags[t].posts != {} && (u.isSuperuser || forall p :: p in db.tags[t].posts ==> PostOwnedBy(db, p, u.id))
    ensures r.Err? ==> r.error == PostIsRequired || r.error == TagPostsNotFound
  {
    ValidateTagPosts(db, u, db.tags[t].posts);
    ValidatePostsForUser(db, u, multiset(db.tags[t].posts), db.tags[t].posts)
  }

  /** `tag.posts.set(posts)`: the tag's post set becomes `posts`. */
  function SetTagPosts(db: Db, t: TagId, posts: set<PostId>): (r: Db)
    requires t in db.tags
    ensures r.blogs == db.blogs && r.posts == db.posts && r.tags.Keys == db.tags.Keys
    ensures r.tags[t] == Tag(db.tags[t].blog, db.tags[t].name, posts)
    ensures forall t' :: t' in db.tags && t' != t ==> r.tags[t'] == db.tags[t']
  {
    PutTag(db, t, db.tags[t].(posts := posts))
  }

  /** Replacing the post set with existing posts keeps the tables consistent. */
  lemma SetTagPostsValid(db: Db, t: TagId, posts: set<PostId>)
    requires Valid(db) && t in db.tags && posts <= db.posts.Keys
    ensures Valid(SetTagPosts(db, t, posts))
  {
    PutTagValid(db, t, db.tags[t].(posts := posts));
  }

  // ---------------------------------------------------------------------------
  // CreateTag

  /** `CreateTag.mutate`: the actor needs a blog; the requested posts must be
      non-empty, distinct, existing and (for a non-superuser) the actor's;
      then the tag of the blog under the normalised name is found or created
      and its posts become exactly the requested ones. */
  ghost function CreateTagSpec(db: Db, actor: Option<User>, name: string, postIds: seq<PostId>): Effect<Reply> {
    match CheckUserAuthenticated(actor)
    case Err(e) => Effect(db, Raised(e))
    case Ok(u) =>
      match GetUserBlog(db, u)
      case Err(e) => Effect(db, Rejected([e]))
      case Ok(b) =>
        match CheckRequestedPosts(db, u, postIds)
        case Err(e) => Effect(db, Raised(e))
        case Ok(_) => FillTag(db, b, name, postIds)
  }

  /** The writes of a tag creation once the posts are checked. */
  ghost function FillTag(db: Db, b: BlogId, name: string, postIds: seq<PostId>): Effect<Reply> {
    var found := GetOrCreateTagSpec(db, b, name);
    match found.out
    case Err(e) => Effect(db, Raised(e))
    case Ok(t) =>
      assert t in found.db.tags by {
        if FindTag(db, b, Normalize(name)).None? {
          assert t == db.nextId;
        }
      }
      Effect(SetTagPosts(found.db, t, PostsWithIds(db, multiset(postIds))), Done(t))
  }

  /** Filling a tag of an existing blog yields the blog's tag under the
      normalised name holding exactly the requested existing posts; blogs,
      posts and every other tag are unchanged; the tables stay consistent. */
  lemma {:induction false} FillTagOutcome(db: Db, b: BlogId, name: string, postIds: seq<PostId>)
    requires Valid(db) && b in db.blogs
    ensures var e := FillTag(db, b, name, postIds);
      && Valid(e.db) && e.db.blogs == db.blogs && e.db.posts == db.posts
      && (!e.out.Done? ==> e.db == db && e.out == Raised(ValueTooLong))
      && (e.out.Done? ==>
            && TagIs(e.db, e.out.id, b, Normalize(name))
            && (forall p :: p in e.db.tags[e.out.id].posts <==> p in postIds && p in db.posts)
            && (forall t :: t in db.tags && t != e.out.id ==> t in e.db.tags && e.db.tags[t] == db.tags[t])
            && e.db.tags.Keys <= db.tags.Keys + {e.out.id})
  {
    var found := GetOrCreateTagSpec(db, b, name);
    GetOrCreateTagOutcome(db, b, name);
    GetOrCreateTagKeepsOthers(db, b, name);
    if found.out.Ok? {
      SetTagPostsValid(found.db, found.out.value, PostsWithIds(db, multiset(postIds)));
    }
  }

  /** Find-or-create touches no existing tag but the one it returns, and
      adds at most that one. */
  lemma {:induction false} GetOrCreateTagKeepsOthers(db: Db, b: BlogId, name: string)
    ensures var e := GetOrCreateTagSpec(db, b, name);
      && (e.out.Ok? ==> e.out.value in e.db.tags && e.db.tags.Keys <= db.tags.Keys + {e.out.value})
      && (e.out.Ok? ==> forall t :: t in db.tags && t != e.out.value ==> t in e.db.tags && e.db.tags[t] == db.tags[t])
      && (e.out.Err? ==> e.db == db && e.out.error == ValueTooLong)
  {
  }

  /** The gate of a tag creation: an authenticated actor with a blog and
      acceptable posts reaches the writes; anyone else writes nothing. */
  lemma {:induction false} CreateTagSteps(db: Db, actor: Option<User>, name: string, postIds: seq<PostId>)
    ensures var e := CreateTagSpec(db, actor, name, postIds);
      if IsAuthenticated(actor) && UserBlog(db, actor.value.id).Some?
         && CheckRequestedPosts(db, actor.value, postIds).Ok?
      then e == FillTag(db, UserBlog(db, actor.value.id).value, name, postIds)
      else e.db == db && !e.out.Done?
  {
    if IsAuthenticated(actor) {
      var u := actor.value;
      assert CheckUserAuthenticated(actor) == Ok(u);
      match UserBlog(db, u.id)
      case Some(b) => assert GetUserBlog(db, u) == Ok(b);
      case None => assert GetUserBlog(db, u) == Err(NeedCreateBlog);
    }
  }

  /** Who is refused: the anonymous actor, an actor without a blog (told to
      create one), and a list of posts that is empty, repeats an id, names a
      missing post or (for a non-superuser) a post of another blog; no
      refusal writes anything. */
  lemma {:induction false} CreateTagRefusals(db: Db, actor: Option<User>, name: string, postIds: seq<PostId>)
    requires Valid(db)
    ensures var e := CreateTagSpec(db, actor, name, postIds);
      && (!IsAuthenticated(actor) ==> e == Effect(db, Raised(NotAuthenticated)))
      && (IsAuthenticated(actor) && UserBlog(db, actor.value.id).None? ==> e == Effect(db, Rejected([NeedCreateBlog])))
      && (IsAuthenticated(actor) && UserBlog(db, actor.value.id).Some? && postIds == [] ==>
            e == Effect(db, Raised(PostIsRequired)))
      && ((IsAuthenticated(actor) && UserBlog(db, actor.value.id).Some? && !actor.value.isSuperuser
           && exists p :: p in postIds && !PostOwnedBy(db, p, actor.value.id)) ==>
            e == Effect(db, Raised(TagPostsNotFound)))
      && (!e.out.Done? ==> e.db == db)
  {
    CreateTagSteps(db, actor, name, postIds);
    if IsAuthenticated(actor) && UserBlog(db, actor.value.id).Some? {
      var u := actor.value;
      var b := UserBlog(db, u.id).value;
      assert CheckUserAuthenticated(actor) == Ok(u);
      assert GetUserBlog(db, u) == Ok(b);
      var checked := CheckRequestedPosts(db, u, postIds);
      if checked.Ok? {
        FillTagOutcome(db, b, name, postIds);
      } else {
        assert CreateTagSpec(db, actor, name, postIds) == Effect(db, Raised(checked.error));
      }
    }
  }

  /** A created tag belongs to the actor's blog, carries the normalised name,
      and holds exactly the requested posts, each of which exists and is the
      actor's unless the actor is a superuser; no other tag changes. */
  lemma {:induction false} CreateTagOutcome(db: Db, actor: Option<User>, name: string, postIds: seq<PostId>)
    requires Valid(db)
    ensures var e := CreateTagSpec(db, actor, name, postIds);
      && Valid(e.db) && e.db.blogs == db.blogs && e.db.posts == db.posts
      && (e.out.Done? ==>
            && IsAuthenticated(actor) && UserBlog(db, actor.value.id).Some?
            && TagIs(e.db, e.out.id, UserBlog(db, actor.value.id).value, Normalize(name))
            && postIds != []
            && (forall p :: p in e.db.tags[e.out.id].posts <==> p in postIds)
            && (forall p :: p in postIds ==> p in db.posts && (actor.value.isSuperuser || PostOwnedBy(db, p, actor.value.id)))
            && (forall t :: t in db.tags && t != e.out.id ==> t in e.db.tags && e.db.tags[t] == db.tags[t]))
  {
    CreateTagSteps(db, actor, name, postIds);
    if IsAuthenticated(actor) && UserBlog(db, actor.value.id).Some?
       && CheckRequestedPosts(db, actor.value, postIds).Ok? {
      FillTagOutcome(db, UserBlog(db, actor.value.id).value, name, postIds);
    }
  }

  /** Repeating a tag creation with the same arguments returns the same tag
      and writes nothing more. */
  lemma {:induction false} CreateTagTwice(db: Db, actor: Option<User>, name: string, postIds: seq<PostId>)
    requires Valid(db)
    ensures var e1 := CreateTagSpec(db, actor, name, postIds);
      var e2 := CreateTagSpec(e1.db, actor, name, postIds);
      e1.out.Done? ==> e2 == e1
  {
    var e1 := CreateTagSpec(db, actor, name, postIds);
    CreateTagSteps(db, actor, name, postIds);
    if e1.out.Done? {
      var u := actor.value;
      var b := UserBlog(db, u.id).value;
      var t := e1.out.id;
      CreateTagOutcome(db, actor, name, postIds);
      assert UserBlog(e1.db, u.id) == Some(b) by {
        UserBlogUnique(e1.db, u.id, b);
      }
      assert CheckRequestedPosts(e1.db, u, postIds).Ok?;
      CreateTagSteps(e1.db, actor, name, postIds);
      FillTagAgain(e1.db, b, name, postIds, t);
      assert CreateTagSpec(e1.db, actor, name, postIds) == FillTag(e1.db, b, name, postIds);
    }
  }

  /** Filling a tag that already holds exactly the requested existing posts
      finds it and writes nothing. */
  lemma {:induction false} FillTagAgain(db: Db, b: BlogId, name: string, postIds: seq<PostId>, t: TagId)
    requires TagNamesUnique(db) && TagIs(db, t, b, Normalize(name))
    requires forall p :: p in db.tags[t].posts <==> p in postIds && p in db.posts
    ensures FillTag(db, b, name, postIds) == Effect(db, Done(t))
  {
    FindTagUnique(db, b, Normalize(name), t);
    assert GetOrCreateTagSpec(db, b, name) == Effect(db, Ok(t));
    var qs := PostsWithIds(db, multiset(postIds));
    assert qs == db.tags[t].posts by {
      forall p ensures p in qs <==> p in db.tags[t].posts {
        assert p in multiset(postIds) <==> p in postIds;
      }
    }
    SetTagPostsUnchanged(db, t);
  }

  /** Setting a tag's posts to the ones it holds writes nothing. */
  lemma SetTagPostsUnchanged(db: Db, t: TagId)
    requires t in db.tags
    ensures SetTagPosts(db, t, db.tags[t].posts) == db
  {
    assert db.tags[t := db.tags[t]] == db.tags;
  }

  /** `CreateTag.mutate` on the store. */
  method CreateTag(store: Store, actor: Option<User>, name: string, postIds: seq<PostId>) returns (r: Reply)
    requires store.Valid()
    modifies store
    ensures store.Valid()
    ensures Effect(store.Snapshot(), r) == CreateTagSpec(old(store.Snapshot()), actor, name, postIds)
  {
    CreateTagOutcome(store.Snapshot(), actor, name, postIds);
    var checked := CheckUserAuthenticated(actor);
    if checked.Err? {
      return Raised(checked.error);
    }
    var u := checked.value;
    if b :| b in store.blogs && store.blogs[b].user == u.id {
      UserBlogUnique(store.Snapshot(), u.id, b);
      var posts := CheckRequestedPosts(store.Snapshot(), u, postIds);
      if posts.Err? {
        return Raised(posts.error);
      }
      r := FillTagOn(store, b, name, postIds);
    } else {
      r := Rejected([NeedCreateBlog]);
    }
  }

  /** The writes of `CreateTag.mutate` on the store. */
  method FillTagOn(store: Store, b: BlogId, name: string, postIds: seq<PostId>) returns (r: Reply)
    requires store.Valid() && b in store.blogs
    modifies store
    ensures store.Valid()
    ensures Effect(store.Snapshot(), r) == FillTag(old(store.Snapshot()), b, name, postIds)
  {
    FillTagOutcome(store.Snapshot(), b, name, postIds);
    var posts := PostsWithIds(store.Snapshot(), multiset(postIds));
    var found := GetOrCreateTag(store, b, name);
    if found.Err? {
      return Raised(found.error);
    }
    var t := found.value;
    assert t in store.tags;
    store.SaveTag(t, store.tags[t].(posts := posts));
    r := Done(t);
  }

  // ---------------------------------------------------------------------------
  // UpdateTag

  /** `tag.name = name; tag.save()`: the name is stored as given, neither
      trimmed nor lower-cased; the database refuses a name wider than the
      column or one another tag of the blog already has. */
  ghost function RenameTag(db: Db, t: TagId, name: string): Effect<Result<()>>
    requires t in db.tags
  {
    if |name| > MaxTagName then Effect(db, Err(ValueTooLong))
    else if exists t' :: t' in db.tags && t' != t && db.tags[t'].blog == db.tags[t].blog && db.tags[t'].name == name then
      Effect(db, Err(IntegrityError))
    else Effect(PutTag(db, t, db.tags[t].(name := name)), Ok(()))
  }

  lemma {:induction false} RenameTagOutcome(db: Db, t: TagId, name: string)
    requires Valid(db) && t in db.tags
    ensures var e := RenameTag(db, t, name);
      && Valid(e.db) && e.db.blogs == db.blogs && e.db.posts == db.posts && e.db.tags.Keys == db.tags.Keys
      && (e.out.Err? ==> e.db == db)
      && (e.out.Ok? ==> e.db.tags == db.tags[t := Tag(db.tags[t].blog, name, db.tags[t].posts)])
  {
    var e := RenameTag(db, t, name);
    if e.out.Ok? {
      PutTagValid(db, t, db.tags[t].(name := name));
    }
  }

  /** `UpdateTag.mutate`: an unknown id is reported; the tag's own posts must
      be non-empty and (for a non-superuser) the actor's; a non-empty name
      is saved as given; then, when post ids are given, they are checked as
      in creation and become the tag's posts. The rename is saved before the
      post check, and nothing undoes it when that check raises. */
  ghost function UpdateTagSpec(db: Db, actor: Option<User>, t: TagId, name: Option<string>,
                               postIds: Option<seq<PostId>>): Effect<Reply>
    requires TagPostsExist(db)
  {
    match CheckUserAuthenticated(actor)
    case Err(e) => Effect(db, Raised(e))
    case Ok(u) =>
      if t !in db.tags then Effect(db, Rejected([TagNotFound]))
      else match CheckTagPosts(db, u, t)
      case Err(e) => Effect(db, Raised(e))
      case Ok(_) =>
        var renamed := RenameStep(db, t, name);
        match renamed.out
        case Err(e) => Effect(db, Raised(e))
        case Ok(_) => AssignPosts(renamed.db, u, t, postIds)
  }

  /** The last step of an update: when post ids are given, they are checked
      as in creation and become the tag's posts. */
  ghost function AssignPosts(db: Db, u: User, t: TagId, postIds: Option<seq<PostId>>): Effect<Reply>
    requires t in db.tags
  {
    match postIds
    case None => Effect(db, Done(t))
    case Some(ids) =>
      match CheckRequestedPosts(db, u, ids)
      case Err(e) => Effect(db, Raised(e))
      case Ok(_) => Effect(SetTagPosts(db, t, PostsWithIds(db, multiset(ids))), Done(t))
  }

  /** Assigning posts changes only the post set of the tag, to exactly the
      requested posts. */
  lemma {:induction false} AssignPostsRows(db: Db, u: User, t: TagId, postIds: Option<seq<PostId>>)
    requires t in db.tags
    ensures var e := AssignPosts(db, u, t, postIds);
      && e.db.blogs == db.blogs && e.db.posts == db.posts && e.db.tags.Keys == db.tags.Keys
      && !e.out.Rejected?
      && (e.out.Raised? ==> e.db == db && postIds.Some?)
      && (e.out.Done? ==> e.out.id == t)
      && e.db.tags[t].blog == db.tags[t].blog && e.db.tags[t].name == db.tags[t].name
      && (forall t' :: t' in db.tags && t' != t ==> e.db.tags[t'] == db.tags[t'])
      && (postIds.None? ==> e.db == db)
      && (e.out.Done? && postIds.Some? ==> forall p :: p in e.db.tags[t].posts <==> p in postIds.value)
  {
    if postIds.Some? {
      match CheckRequestedPosts(db, u, postIds.value)
      case Err(err) =>
        assert AssignPosts(db, u, t, postIds) == Effect(db, Raised(err));
      case Ok(_) =>
        var qs := PostsWithIds(db, multiset(postIds.value));
        assert AssignPosts(db, u, t, postIds) == Effect(SetTagPosts(db, t, qs), Done(t));
    }
  }

  /** Assigning posts changes only the post set of the tag, to exactly the
      requested posts, and keeps the tables consistent. */
  lemma {:induction false} AssignPostsOutcome(db: Db, u: User, t: TagId, postIds: Option<seq<PostId>>)
    requires Valid(db) && t in db.tags
    ensures var e := AssignPosts(db, u, t, postIds);
      && Valid(e.db) && e.db.blogs == db.blogs && e.db.posts == db.posts && e.db.tags.Keys == db.tags.Keys
      && !e.out.Rejected?
      && (e.out.Raised? ==> e.db == db && postIds.Some?)
      && (e.out.Done? ==> e.out.id == t)
      && e.db.tags[t].blog == db.tags[t].blog && e.db.tags[t].name == db.tags[t].name
      && (forall t' :: t' in db.tags && t' != t ==> e.db.tags[t'] == db.tags[t'])
      && (postIds.None? ==> e.db == db)
      && (e.out.Done? && postIds.Some? ==> forall p :: p in e.db.tags[t].posts <==> p in postIds.value)
  {
    AssignPostsRows(db, u, t, postIds);
    if postIds.Some? && CheckRequestedPosts(db, u, postIds.value).Ok? {
      SetTagPostsValid(db, t, PostsWithIds(db, multiset(postIds.value)));
    }
  }

  /** The rename step of an update: a non-empty name is saved as given, an
      absent or empty one leaves the tag alone. */
  ghost function RenameStep(db: Db, t: TagId, name: Option<string>): Effect<Result<()>>
    requires t in db.tags
  {
    if name.Some? && name.value != [] then RenameTag(db, t, name.value) else Effect(db, Ok(()))
  }

  /** The rename step changes at most the name of the tag, to the given
      non-empty name; refused, it writes nothing. */
  lemma {:induction false} RenameStepRows(db: Db, t: TagId, name: Option<string>)
    requires t in db.tags
    ensures var e := RenameStep(db, t, name);
      && e.db.blogs == db.blogs && e.db.posts == db.posts && e.db.tags.Keys == db.tags.Keys
      && (e.out.Err? ==> e.db == db && name.Some? && name.value != [])
      && (e.out.Ok? ==>
            e.db.tags == db.tags[t := Tag(db.tags[t].blog,
                                          if name.Some? && name.value != [] then name.value else db.tags[t].name,
                                          db.tags[t].posts)])
  {
    if !(name.Some? && name.value != []) {
      assert db.tags[t := db.tags[t]] == db.tags;
    }
  }

  /** The rename step keeps the tables consistent. */
  lemma {:induction false} RenameStepValid(db: Db, t: TagId, name: Option<string>)
    requires Valid(db) && t in db.tags
    ensures Valid(RenameStep(db, t, name).db)
  {
    if name.Some? && name.value != [] {
      RenameTagOutcome(db, t, name.value);
    }
  }

  /** How an update proceeds: past the gate (an authenticated actor, an
      existing tag, its own posts acceptable) comes the rename step, and after
      a successful rename the post assignment; a refused rename raises with
      nothing written, and a refusal at the gate writes nothing. */
  lemma {:induction false} UpdateTagSteps(db: Db, actor: Option<User>, t: TagId, name: Option<string>,
                                          postIds: Option<seq<PostId>>)
    requires TagPostsExist(db)
    ensures var e := UpdateTagSpec(db, actor, t, name, postIds);
      if IsAuthenticated(actor) && t in db.tags && CheckTagPosts(db, actor.value, t).Ok? then
        var renamed := RenameStep(db, t, name);
        if renamed.out.Ok? then e == AssignPosts(renamed.db, actor.value, t, postIds)
        else e == Effect(db, Raised(renamed.out.error))
      else e.db == db && !e.out.Done?
  {
    if IsAuthenticated(actor) {
      assert CheckUserAuthenticated(actor) == Ok(actor.value);
    }
  }

  /** Who may change a tag: an authenticated actor, on an existing tag that
      holds posts, all of them the actor's unless the actor is a superuser.
      A tag without posts can never be updated, not even by a superuser. */
  lemma {:induction false} UpdateTagGate(db: Db, actor: Option<User>, t: TagId, name: Option<string>,
                                         postIds: Option<seq<PostId>>)
    requires Valid(db)
    ensures var e := UpdateTagSpec(db, actor, t, name, postIds);
      && (!IsAuthenticated(actor) ==> e == Effect(db, Raised(NotAuthenticated)))
      && (IsAuthenticated(actor) && t !in db.tags ==> e == Effect(db, Rejected([TagNotFound])))
      && (IsAuthenticated(actor) && t in db.tags && db.tags[t].posts == {} ==> e == Effect(db, Raised(PostIsRequired)))
      && (e.out.Done? ==>
            && IsAuthenticated(actor) && t in db.tags && db.tags[t].posts != {}
            && (actor.value.isSuperuser || forall p :: p in db.tags[t].posts ==> PostOwnedBy(db, p, actor.value.id)))
  {
  }

  /** An update keeps the tables consistent. */
  lemma {:induction false} UpdateTagValid(db: Db, actor: Option<User>, t: TagId, name: Option<string>,
                                          postIds: Option<seq<PostId>>)
    requires Valid(db)
    ensures Valid(UpdateTagSpec(db, actor, t, name, postIds).db)
  {
    UpdateTagSteps(db, actor, t, name, postIds);
    if IsAuthenticated(actor) && t in db.tags && CheckTagPosts(db, actor.value, t).Ok? {
      var renamed := RenameStep(db, t, name);
      RenameStepValid(db, t, name);
      RenameStepRows(db, t, name);
      if renamed.out.Ok? {
        AssignPostsOutcome(renamed.db, actor.value, t, postIds);
      }
    }
  }

  /** An update touches only the one tag:
      no other tag, no post and no blog changes; a reported refusal writes
      nothing. */
  lemma {:induction false} UpdateTagFrame(db: Db, actor: Option<User>, t: TagId, name: Option<string>,
                                          postIds: Option<seq<PostId>>)
    requires TagPostsExist(db)
    ensures var e := UpdateTagSpec(db, actor, t, name, postIds);
      && e.db.blogs == db.blogs && e.db.posts == db.posts && e.db.tags.Keys == db.tags.Keys
      && (forall t' :: t' in db.tags && t' != t ==> e.db.tags[t'] == db.tags[t'])
      && (e.out.Rejected? ==> e.db == db)
  {
    UpdateTagSteps(db, actor, t, name, postIds);
    if IsAuthenticated(actor) && t in db.tags && CheckTagPosts(db, actor.value, t).Ok? {
      var renamed := RenameStep(db, t, name);
      RenameStepRows(db, t, name);
      if renamed.out.Ok? {
        AssignPostsRows(renamed.db, actor.value, t, postIds);
      }
    }
  }

  /** What a successful update writes: the tag keeps its blog; its name
      becomes the given non-empty one, as given; its posts become the
      requested ones only when post ids are given. */
  lemma {:induction false} UpdateTagOutcome(db: Db, actor: Option<User>, t: TagId, name: Option<string>,
                                            postIds: Option<seq<PostId>>)
    requires TagPostsExist(db)
    ensures var e := UpdateTagSpec(db, actor, t, name, postIds);
      e.out.Done? ==>
        && t in db.tags && e.out.id == t && e.db.tags[t].blog == db.tags[t].blog
        && e.db.tags[t].name == (if name.Some? && name.value != [] then name.value else db.tags[t].name)
        && (postIds.None? ==> e.db.tags[t].posts == db.tags[t].posts)
        && (postIds.Some? ==> forall p :: p in e.db.tags[t].posts <==> p in postIds.value)
  {
    UpdateTagSteps(db, actor, t, name, postIds);
    if IsAuthenticated(actor) && t in db.tags && CheckTagPosts(db, actor.value, t).Ok? {
      var renamed := RenameStep(db, t, name);
      RenameStepRows(db, t, name);
      if renamed.out.Ok? {
        AssignPostsRows(renamed.db, actor.value, t, postIds);
      }
    }
  }

  /** An update that raises writes at most the rename: the only raised
      update that changes the tables is a valid rename followed by a refused
      post list, and it leaves the tag renamed. */
  lemma {:induction false} UpdateTagRaisedWrites(db: Db, actor: Option<User>, t: TagId, name: Option<string>,
                                                 postIds: Option<seq<PostId>>)
    requires TagPostsExist(db)
    ensures var e := UpdateTagSpec(db, actor, t, name, postIds);
      e.out.Raised? && e.db != db ==>
        && t in db.tags && name.Some? && name.value != [] && postIds.Some?
        && e.db.tags == db.tags[t := Tag(db.tags[t].blog, name.value, db.tags[t].posts)]
  {
    UpdateTagSteps(db, actor, t, name, postIds);
    if IsAuthenticated(actor) && t in db.tags && CheckTagPosts(db, actor.value, t).Ok? {
      var renamed := RenameStep(db, t, name);
      RenameStepRows(db, t, name);
      if renamed.out.Ok? {
        AssignPostsRows(renamed.db, actor.value, t, postIds);
      }
    }
  }

  /** A valid rename followed by a refused post list leaves the tag renamed
      although the actor is told the update failed. */
  lemma {:induction false} UpdateTagKeepsRenameOnRefusal(db: Db, u: User, t: TagId, name: string)
    requires Valid(db) && u.isAuthenticated && t in db.tags && db.tags[t].posts != {}
    requires u.isSuperuser || forall p :: p in db.tags[t].posts ==> PostOwnedBy(db, p, u.id)
    requires name != [] && name != db.tags[t].name && RenameTag(db, t, name).out.Ok?
    ensures var e := UpdateTagSpec(db, Some(u), t, Some(name), Some([]));
      e.out == Raised(PostIsRequired) && e.db != db && e.db.tags[t].name == name
  {
    RenameTagOutcome(db, t, name);
  }

  /** `UpdateTag.mutate` on the store. */
  method UpdateTag(store: Store, actor: Option<User>, t: TagId, name: Option<string>,
                   postIds: Option<seq<PostId>>) returns (r: Reply)
    requires store.Valid()
    modifies store
    ensures store.Valid()
    ensures Effect(store.Snapshot(), r) == UpdateTagSpec(old(store.Snapshot()), actor, t, name, postIds)
  {
    ghost var db0 := store.Snapshot();
    UpdateTagSteps(db0, actor, t, name, postIds);
    var checked := CheckUserAuthenticated(actor);
    if checked.Err? {
      return Raised(checked.error);
    }
    var u := checked.value;
    if t !in store.tags {
      return Rejected([TagNotFound]);
    }
    var own := CheckTagPosts(store.Snapshot(), u, t);
    if own.Err? {
      return Raised(own.error);
    }
    RenameStepRows(db0, t, name);
    if name.Some? && name.value != [] {
      var renamed := RenameTagOn(store, t, name.value);
      if renamed.Err? {
        return Raised(renamed.error);
      }
      assert RenameStep(db0, t, name) == RenameTag(db0, t, name.value);
    } else {
      assert RenameStep(db0, t, name) == Effect(db0, Ok(()));
    }
    r := AssignPostsOn(store, u, t, postIds);
  }

  /** `tag.name = name; tag.save()` on the store. */
  method RenameTagOn(store: Store, t: TagId, name: string) returns (r: Result<()>)
    requires store.Valid() && t in store.tags
    modifies store
    ensures store.Valid()
    ensures Effect(store.Snapshot(), r) == RenameTag(old(store.Snapshot()), t, name)
  {
    RenameTagOutcome(store.Snapshot(), t, name);
    var tag := store.tags[t];
    if |name| > MaxTagName {
      return Err(ValueTooLong);
    }
    if t' :| t' in store.tags && t' != t && store.tags[t'].blog == tag.blog && store.tags[t'].name == name {
      return Err(IntegrityError);
    }
    store.SaveTag(t, tag.(name := name));
    r := Ok(());
  }

  /** The post assignment of an update on the store. */
  method AssignPostsOn(store: Store, u: User, t: TagId, postIds: Option<seq<PostId>>) returns (r: Reply)
    requires store.Valid() && t in store.tags
    modifies store
    ensures store.Valid()
    ensures Effect(store.Snapshot(), r) == AssignPosts(old(store.Snapshot()), u, t, postIds)
  {
    AssignPostsOutcome(store.Snapshot(), u, t, postIds);
    if postIds.Some? {
      var posts := CheckRequestedPosts(store.Snapshot(), u, postIds.value);
      if posts.Err? {
        return Raised(posts.error);
      }
      var qs := PostsWithIds(store.Snapshot(), multiset(postIds.value));
      store.SaveTag(t, store.tags[t].(posts := qs));
    }
    r := Done(t);
  }

  // ---------------------------------------------------------------------------
  // DeleteTag

  /** `DeleteTag.mutate`: an unknown id gives `ok = false` with the not-found
      error; the tag's own posts are checked as in an update; then the tag
      and its links to posts are deleted. */
  ghost function DeleteTagSpec(db: Db, actor: Option<User>, t: TagId): Effect<Reply>
    requires TagPostsExist(db)
  {
    match CheckUserAuthenticated(actor)
    case Err(e) => Effect(db, Raised(e))
    case Ok(u) =>
      if t !in db.tags then Effect(db, Rejected([TagNotFound]))
      else match CheckTagPosts(db, u, t)
      case Err(e) => Effect(db, Raised(e))
      case Ok(_) => Effect(RemoveTag(db, t), Done(t))
  }

  /** A deletion succeeds exactly for an authenticated actor on an existing
      tag that holds posts, all of them the actor's unless the actor is a
      superuser; it removes that tag alone and keeps the tables consistent. */
  lemma {:induction false} DeleteTagOutcome(db: Db, actor: Option<User>, t: TagId)
    requires Valid(db)
    ensures var e := DeleteTagSpec(db, actor, t);
      && Valid(e.db)
      && (e.out.Done? <==>
            && IsAuthenticated(actor) && t in db.tags && db.tags[t].posts != {}
            && (actor.value.isSuperuser || forall p :: p in db.tags[t].posts ==> PostOwnedBy(db, p, actor.value.id)))
      && (IsAuthenticated(actor) && t !in db.tags ==> e == Effect(db, Rejected([TagNotFound])))
      && (!e.out.Done? ==> e.db == db)
      && (e.out.Done? ==> e.db.tags == db.tags - {t} && e.db.posts == db.posts && e.db.blogs == db.blogs)
  {
    RemoveTagValid(db, t);
  }

  /** `DeleteTag.mutate` on the store. */
  method DeleteTag(store: Store, actor: Option<User>, t: TagId) returns (r: Reply)
    requires store.Valid()
    modifies store
    ensures store.Valid()
    ensures Effect(store.Snapshot(), r) == DeleteTagSpec(old(store.Snapshot()), actor, t)
  {
    DeleteTagOutcome(store.Snapshot(), actor, t);
    var checked := CheckUserAuthenticated(actor);
    if checked.Err? {
      return Raised(checked.error);
    }
    var u := checked.value;
    if t !in store.tags {
      return Rejected([TagNotFound]);
    }
    var own := CheckTagPosts(store.Snapshot(), u, t);
    if own.Err? {
      return Raised(own.error);
    }
    store.DeleteTag(t);
    r := Done(t);
  }
}
