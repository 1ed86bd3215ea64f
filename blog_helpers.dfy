/** The blog-scoped helpers of the GraphQL mutations: the actor's blog
    (never created here), the check that a list of post ids names posts the
    actor may use, and find-or-create of a tag by normalised name within one
    blog. */
module BlogHelpers {
  import opened Constants
  import opened Text
  import opened Models
  import opened Database

  /** `get_user_blog`: the actor's blog, or the "create a blog first" error. */
  ghost function GetUserBlog(db: Db, u: User): (r: Result<BlogId>)
    ensures r.Ok? ==> BlogOwnedBy(db, r.value, u.id)
    ensures r.Err? ==> r.error == NeedCreateBlog && forall b :: !BlogOwnedBy(db, b, u.id)
  {
    match UserBlog(db, u.id)
    case Some(b) => Ok(b)
    case None => Err(NeedCreateBlog)
  }

  /** `Post.objects.filter(id__in=ids)`: the existing posts among the ids. */
  function PostsWithIds(db: Db, ids: multiset<PostId>): (r: set<PostId>)
    ensures forall p :: p in r <==> p in ids && p in db.posts
  {
    set p | p in ids && p in db.posts
  }

  /** `qs.filter(blog__user=user)`. */
  function OwnedAmong(db: Db, u: User, qs: set<PostId>): (r: set<PostId>)
    ensures forall p :: p in r <==> p in qs && PostOwnedBy(db, p, u.id)
  {
    set p | p in qs && PostOwnedBy(db, p, u.id)
  }

  /** `validate_posts_for_user(user, post_ids, posts_qs)`: an empty id list is
      refused; otherwise the rows of `posts_qs` (only the actor's, for a
      non-superuser) must be as many as the ids given, duplicates included. */
  function ValidatePostsForUser(db: Db, u: User, postIds: multiset<PostId>, postsQs: set<PostId>): (r: Result<()>)
    ensures postIds == multiset{} ==> r == Err(PostIsRequired)
    ensures postIds != multiset{} && r.Err? ==> r.error == TagPostsNotFound
  {
    if postIds == multiset{} then Err(PostIsRequired)
    else
      var counted := if u.isSuperuser then postsQs else OwnedAmong(db, u, postsQs);
      if |counted| != |postIds| then Err(TagPostsNotFound) else Ok(())
  }

  /** Every id of the list occurs once. */
  ghost predicate Distinct(ids: multiset<PostId>) {
    forall p :: p in ids ==> ids[p] == 1
  }

  function Support(ids: multiset<PostId>): (r: set<PostId>)
    ensures forall p :: p in r <==> p in ids
  {
    set p | p in ids
  }

  /** A list has at most as many distinct ids as entries, and as many exactly
      when no id repeats. */
  lemma {:induction false} SupportCard(ids: multiset<PostId>)
    ensures |Support(ids)| <= |ids|
    ensures |Support(ids)| == |ids| <==> Distinct(ids)
    decreases |ids|
  {
    if ids != multiset{} {
      var x :| x in ids;
      var rest := ids - multiset{x};
      SupportCard(rest);
      if ids[x] == 1 {
        assert Support(ids) == Support(rest) + {x};
        assert x !in Support(rest);
        assert Distinct(ids) <==> Distinct(rest);
      } else {
        assert Support(ids) == Support(rest);
        assert !Distinct(ids);
      }
    }
  }

  lemma SubsetCard(a: set<PostId>, b: set<PostId>)
    requires a <= b
    ensures |a| <= |b| && (|a| == |b| ==> a == b)
  {
    assert b == a + (b - a);
    assert a * (b - a) == {};
    if |a| == |b| {
      assert |b - a| == 0;
    }
  }

  /** The intended use, `posts_qs = Post.objects.filter(id__in=post_ids)`:
      the ids pass exactly when there is at least one, none repeats, each
      names an existing post, and (for a non-superuser) each post's blog is
      the actor's. */
  lemma {:induction false} ValidatePostsForIds(db: Db, u: User, ids: multiset<PostId>)
    ensures ValidatePostsForUser(db, u, ids, PostsWithIds(db, ids)).Ok? <==>
      && ids != multiset{}
      && Distinct(ids)
      && (forall p :: p in ids ==> p in db.posts && (u.isSuperuser || PostOwnedBy(db, p, u.id)))
  {
    var qs := PostsWithIds(db, ids);
    var counted := if u.isSuperuser then qs else OwnedAmong(db, u, qs);
    SupportCard(ids);
    SubsetCard(counted, Support(ids));
    if counted == Support(ids) {
      assert forall p :: p in ids ==> p in counted;
    }
  }

  /** The check run on a tag's own posts (`tag.posts.all()` both as ids and as
      rows): it passes exactly when the tag has posts and, for a non-superuser,
      all of them are the actor's. */
  lemma {:induction false} ValidateTagPosts(db: Db, u: User, posts: set<PostId>)
    requires posts <= db.posts.Keys
    ensures ValidatePostsForUser(db, u, multiset(posts), posts).Ok? <==>
      posts != {} && (u.isSuperuser || forall p :: p in posts ==> PostOwnedBy(db, p, u.id))
  {
    assert PostsWithIds(db, multiset(posts)) == posts;
    ValidatePostsForIds(db, u, multiset(posts));
    assert Distinct(multiset(posts));
    assert posts == {} <==> multiset(posts) == multiset{};
  }

  // ---------------------------------------------------------------------------
  // Find-or-create of a tag within one blog

  predicate TagIs(db: Db, t: TagId, blog: BlogId, name: string) {
    t in db.tags && db.tags[t].blog == blog && db.tags[t].name == name
  }

  /** The tag of `blog` named `name`, if there is one. */
  ghost function FindTag(db: Db, blog: BlogId, name: string): (r: Option<TagId>)
    ensures r.Some? ==> TagIs(db, r.value, blog, name)
    ensures r.None? ==> forall t :: !TagIs(db, t, blog, name)
  {
    if exists t :: TagIs(db, t, blog, name) then
      var t :| TagIs(db, t, blog, name); Some(t)
    else None
  }

  lemma FindTagUnique(db: Db, blog: BlogId, name: string, t: TagId)
    requires TagNamesUnique(db) && TagIs(db, t, blog, name)
    ensures FindTag(db, blog, name) == Some(t)
  {
  }

  /** `get_or_create_tag`: the name is trimmed and lower-cased, then the tag
      of that name in the blog is returned, or a new empty one is created (a
      name wider than the column is refused by the database). */
  ghost function GetOrCreateTagSpec(db: Db, blog: BlogId, name: string): Effect<Result<TagId>> {
    var n := Normalize(name);
    match FindTag(db, blog, n)
    case Some(t) => Effect(db, Ok(t))
    case None =>
      if |n| > MaxTagName then Effect(db, Err(ValueTooLong))
      else Effect(AddTag(db, Tag(blog, n, {})), Ok(db.nextId))
  }

  /** What find-or-create returns and writes: a tag of the blog under the
      normalised name; an existing one leaves the tables alone, otherwise
      exactly one empty tag is added; the tables stay consistent. */
  lemma {:induction false} GetOrCreateTagOutcome(db: Db, blog: BlogId, name: string)
    requires Valid(db) && blog in db.blogs
    ensures var e := GetOrCreateTagSpec(db, blog, name);
      && Valid(e.db) && e.db.blogs == db.blogs && e.db.posts == db.posts
      && (e.out.Ok? ==> TagIs(e.db, e.out.value, blog, Normalize(name)))
      && (e.out.Err? ==> e.out == Err(ValueTooLong) && e.db == db)
      && (FindTag(db, blog, Normalize(name)).Some? ==> e.db == db)
      && (FindTag(db, blog, Normalize(name)).None? && e.out.Ok? ==>
            e.db == AddTag(db, Tag(blog, Normalize(name), {})) && e.out.value == db.nextId)
  {
    var n := Normalize(name);
    if FindTag(db, blog, n).None? && |n| <= MaxTagName {
      assert forall t :: t in db.tags ==> !TagIs(db, t, blog, n);
      AddTagValid(db, Tag(blog, n, {}));
    }
  }

  /** The rows find-or-create leaves, which need only the id counter to be
      ahead: with a name that fits it returns the blog's tag under the
      normalised name, an existing one as it was or a new one without posts,
      and every other tag is kept. */
  lemma {:induction false} GetOrCreateTagRows(db: Db, blog: BlogId, name: string)
    requires IdsIssued(db) && |Normalize(name)| <= MaxTagName
    ensures var e := GetOrCreateTagSpec(db, blog, name);
      && e.out.Ok? && e.db.blogs == db.blogs && e.db.posts == db.posts
      && TagIs(e.db, e.out.value, blog, Normalize(name))
      && e.db.tags[e.out.value].posts == (if e.out.value in db.tags then db.tags[e.out.value].posts else {})
      && (forall t :: t in db.tags && t != e.out.value ==> t in e.db.tags && e.db.tags[t] == db.tags[t])
  {
    var n := Normalize(name);
    match FindTag(db, blog, n)
    case Some(t) =>
      assert GetOrCreateTagSpec(db, blog, name) == Effect(db, Ok(t));
    case None =>
      assert GetOrCreateTagSpec(db, blog, name) == Effect(AddTag(db, Tag(blog, n, {})), Ok(db.nextId));
      assert db.nextId !in db.tags;
  }

  /** Find-or-create is idempotent: a second call with a name that normalises
      the same way returns the same tag and writes nothing. */
  lemma {:induction false} GetOrCreateTagIdempotent(db: Db, blog: BlogId, name: string, again: string)
    requires Valid(db) && blog in db.blogs && Normalize(again) == Normalize(name)
    ensures var e1 := GetOrCreateTagSpec(db, blog, name);
      var e2 := GetOrCreateTagSpec(e1.db, blog, again);
      e2.db == e1.db && e2.out == e1.out
  {
    var n := Normalize(name);
    var e1 := GetOrCreateTagSpec(db, blog, name);
    GetOrCreateTagOutcome(db, blog, name);
    if e1.out.Ok? {
      FindTagUnique(e1.db, blog, n, e1.out.value);
    }
  }

  /** `get_or_create_tag` on the store. */
  method GetOrCreateTag(store: Store, blog: BlogId, name: string) returns (r: Result<TagId>)
    requires store.Valid() && blog in store.blogs
    modifies store
    ensures store.Valid()
    ensures Effect(store.Snapshot(), r) == GetOrCreateTagSpec(old(store.Snapshot()), blog, name)
  {
    GetOrCreateTagOutcome(store.Snapshot(), blog, name);
    var n := Normalize(name);
    if t :| t in store.tags && store.tags[t].blog == blog && store.tags[t].name == n {
      FindTagUnique(store.Snapshot(), blog, n, t);
      r := Ok(t);
    } else if |n| > MaxTagName {
      r := Err(ValueTooLong);
    } else {
      var id := store.InsertTag(Tag(blog, n, {}));
      r := Ok(id);
    }
  }
}
