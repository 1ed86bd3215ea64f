/** The helpers of the REST surface (`blog_app/helpers.py`, repeated in
    `blog_app/api.py`): a blog provisioned on first use, the loop that checks
    post ownership, and the global find-or-create of a tag by name. */
module LegacyHelpers {
  import opened Constants
  import opened Text
  import opened Models
  import opened Database
  import opened AuthHelpers

  // ---------------------------------------------------------------------------
  // The actor's blog, created on first use

  /** `get_user_blog`: `get_or_create` on the user link. An existing blog is
      returned as it is; otherwise a blog titled after the username with the
      automatic description is inserted (a title wider than the column is
      refused by the database). */
  ghost function ProvisionBlog(db: Db, u: User): Effect<Result<BlogId>> {
    match UserBlog(db, u.id)
    case Some(b) => Effect(db, Ok(b))
    case None =>
      if |AutoBlogTitle(u.username)| > MaxBlogTitle then Effect(db, Err(ValueTooLong))
      else Effect(AddBlog(db, Blog(u.id, AutoBlogTitle(u.username), AutoBlogDescription)), Ok(db.nextId))
  }

  /** Provisioning touches only the blog table and the counter, and what it
      returns is a blog of the user. */
  lemma {:induction false} ProvisionBlogFrame(db: Db, u: User)
    ensures var e := ProvisionBlog(db, u);
      && e.db.posts == db.posts && e.db.tags == db.tags && db.nextId <= e.db.nextId
      && (e.out.Ok? ==> BlogOwnedBy(e.db, e.out.value, u.id))
      && (e.out.Err? ==> e.db == db)
  {
    var e := ProvisionBlog(db, u);
    match UserBlog(db, u.id)
    case Some(b) =>
      assert e == Effect(db, Ok(b));
    case None =>
      if |AutoBlogTitle(u.username)| > MaxBlogTitle {
        assert e == Effect(db, Err(ValueTooLong));
      } else {
        assert e.db == AddBlog(db, Blog(u.id, AutoBlogTitle(u.username), AutoBlogDescription));
      }
  }

  /** What provisioning returns and writes: the user's blog; an existing one
      leaves the tables alone; otherwise exactly one blog, owned by the user
      and titled after the username, is added; the tables stay consistent. */
  lemma {:induction false} ProvisionBlogOutcome(db: Db, u: User)
    requires Valid(db)
    ensures var e := ProvisionBlog(db, u);
      && Valid(e.db) && e.db.posts == db.posts && e.db.tags == db.tags
      && (e.out.Ok? ==> BlogOwnedBy(e.db, e.out.value, u.id) && UserBlog(e.db, u.id) == Some(e.out.value))
      && (UserBlog(db, u.id).Some? ==> e.db == db && e.out == Ok(UserBlog(db, u.id).value))
      && (UserBlog(db, u.id).None? && e.out.Ok? ==>
            && e.out.value == db.nextId
            && e.db.blogs == db.blogs[db.nextId := Blog(u.id, AutoBlogTitle(u.username), AutoBlogDescription)])
      && (e.out.Err? ==> e.db == db && e.out.error == ValueTooLong && |u.username| > MaxBlogTitle - 8)
  {
    var e := ProvisionBlog(db, u);
    ProvisionBlogFrame(db, u);
    if UserBlog(db, u.id).None? && |AutoBlogTitle(u.username)| <= MaxBlogTitle {
      AddBlogValid(db, Blog(u.id, AutoBlogTitle(u.username), AutoBlogDescription));
      UserBlogUnique(e.db, u.id, db.nextId);
    }
    if e.out.Ok? && UserBlog(db, u.id).Some? {
      UserBlogUnique(db, u.id, e.out.value);
    }
  }

  /** Provisioning twice gives the same blog, and the second call writes
      nothing, so the user never ends up with two blogs. */
  lemma {:induction false} ProvisionBlogTwice(db: Db, u: User)
    requires Valid(db)
    ensures var e1 := ProvisionBlog(db, u);
      var e2 := ProvisionBlog(e1.db, u);
      e2.db == e1.db && e2.out == e1.out
  {
    var e1 := ProvisionBlog(db, u);
    ProvisionBlogOutcome(db, u);
    if e1.out.Ok? {
      UserBlogUnique(e1.db, u.id, e1.out.value);
    }
  }

  /** `get_user_blog` on the store. */
  method GetUserBlog(store: Store, u: User) returns (r: Result<BlogId>)
    requires store.Valid()
    modifies store
    ensures store.Valid()
    ensures Effect(store.Snapshot(), r) == ProvisionBlog(old(store.Snapshot()), u)
  {
    ProvisionBlogOutcome(store.Snapshot(), u);
    if b :| b in store.blogs && store.blogs[b].user == u.id {
      UserBlogUnique(store.Snapshot(), u.id, b);
      r := Ok(b);
    } else if |AutoBlogTitle(u.username)| > MaxBlogTitle {
      r := Err(ValueTooLong);
    } else {
      var id := store.InsertBlog(Blog(u.id, AutoBlogTitle(u.username), AutoBlogDescription));
      r := Ok(id);
    }
  }

  // ---------------------------------------------------------------------------
  // The ownership loop over posts

  /** The position of the first post in `posts` the user does not own. */
  function FirstNotOwned(db: Db, u: User, posts: seq<PostId>): (r: Option<nat>)
    ensures r.Some? ==>
      && r.value < |posts| && !PostOwnedBy(db, posts[r.value], u.id)
      && forall j :: 0 <= j < r.value ==> PostOwnedBy(db, posts[j], u.id)
    ensures r.None? ==> forall i :: 0 <= i < |posts| ==> PostOwnedBy(db, posts[i], u.id)
  {
    if posts == [] then None
    else if !PostOwnedBy(db, posts[0], u.id) then Some(0)
    else match FirstNotOwned(db, u, posts[1..])
      case None => None
      case Some(k) => Some(k + 1)
  }

  /** The outcome of `validate_user_owns_posts`: a superuser always passes;
      anyone else passes exactly when every post is theirs, and otherwise is
      refused with the title of the first post, in list order, that is not. */
  function OwnsPostsVerdict(db: Db, u: User, posts: seq<PostId>): (r: Result<()>)
    requires forall i :: 0 <= i < |posts| ==> posts[i] in db.posts
    ensures r.Ok? <==> u.isSuperuser || forall i :: 0 <= i < |posts| ==> PostOwnedBy(db, posts[i], u.id)
    ensures posts == [] ==> r.Ok?
    ensures r.Err? ==> exists i ::
      && 0 <= i < |posts| && r.error == PostNotOwned(db.posts[posts[i]].title)
      && !PostOwnedBy(db, posts[i], u.id)
      && forall j :: 0 <= j < i ==> PostOwnedBy(db, posts[j], u.id)
  {
    if IsSuperuser(u) then Ok(())
    else match FirstNotOwned(db, u, posts)
      case None => Ok(())
      case Some(k) => Err(PostNotOwned(db.posts[posts[k]].title))
  }

  /** `validate_user_owns_posts`: walks the posts in order and stops at the
      first one the actor may not use. It only reads the tables. */
  method ValidateUserOwnsPosts(db: Db, u: User, posts: seq<PostId>) returns (r: Result<()>)
    requires forall i :: 0 <= i < |posts| ==> posts[i] in db.posts
    ensures r == OwnsPostsVerdict(db, u, posts)
  {
    var i := 0;
    while i < |posts|
      invariant 0 <= i <= |posts|
      invariant u.isSuperuser || forall j :: 0 <= j < i ==> PostOwnedBy(db, posts[j], u.id)
    {
      var p := posts[i];
      if !(db.posts[p].blog in db.blogs && db.blogs[db.posts[p].blog].user == u.id) && !IsSuperuser(u) {
        assert FirstNotOwned(db, u, posts) == Some(i) by {
          FirstNotOwnedAt(db, u, posts, i);
        }
        return Err(PostNotOwned(db.posts[p].title));
      }
      i := i + 1;
    }
    r := Ok(());
  }

  /** The first unowned post is at `i` when every post before it is owned. */
  lemma {:induction false} FirstNotOwnedAt(db: Db, u: User, posts: seq<PostId>, i: nat)
    requires i < |posts| && !PostOwnedBy(db, posts[i], u.id)
    requires forall j :: 0 <= j < i ==> PostOwnedBy(db, posts[j], u.id)
    ensures FirstNotOwned(db, u, posts) == Some(i)
    decreases i
  {
    if i > 0 {
      FirstNotOwnedAt(db, u, posts[1..], i - 1);
    }
  }

  // ---------------------------------------------------------------------------
  // Find-or-create of a tag by name alone

  /** `t` is the tag `.first()` returns among those named `name`: the one with
      the smallest id. */
  ghost predicate IsFirstTagNamed(db: Db, name: string, t: TagId) {
    t in db.tags && db.tags[t].name == name
    && forall t' :: t' in db.tags && db.tags[t'].name == name ==> t <= t'
  }

  /** `t` is the least id of `ids`. */
  ghost predicate IsLeast(ids: set<TagId>, t: TagId) {
    t in ids && forall t' :: t' in ids ==> t <= t'
  }

  lemma {:induction false} LeastExists(ids: set<TagId>)
    requires ids != {}
    ensures exists t :: IsLeast(ids, t)
    decreases ids
  {
    var x :| x in ids;
    if ids == {x} {
      assert IsLeast(ids, x);
    } else {
      LeastExists(ids - {x});
      var m :| IsLeast(ids - {x}, m);
      var least := if x < m then x else m;
      forall t' | t' in ids ensures least <= t' {
        if t' != x {
          assert t' in ids - {x};
        }
      }
      assert IsLeast(ids, least);
    }
  }

  ghost function Least(ids: set<TagId>): (r: TagId)
    requires ids != {}
    ensures IsLeast(ids, r)
  {
    LeastExists(ids);
    var t :| IsLeast(ids, t); t
  }

  /** `Tag.objects.filter(name=name).first()`, over every blog. */
  ghost function FirstTagNamed(db: Db, name: string): (r: Option<TagId>)
    ensures r.Some? ==> IsFirstTagNamed(db, name, r.value)
    ensures r.None? ==> forall t :: t in db.tags ==> db.tags[t].name != name
  {
    var ids := set t | t in db.tags && db.tags[t].name == name;
    assert forall t :: t in db.tags && db.tags[t].name == name ==> t in ids;
    if ids == {} then None else Some(Least(ids))
  }

  /** `get_or_create_tag_by_name` as written: the name is normalised and the
      first tag of that name in ANY blog is returned; the tag it would create
      has no blog, which the required foreign key refuses. */
  ghost function GetOrCreateTagByName(db: Db, name: string): Effect<Result<TagId>> {
    var n := Normalize(name);
    match FirstTagNamed(db, n)
    case Some(t) => Effect(db, Ok(t))
    case None => Effect(db, if |n| > MaxTagName then Err(ValueTooLong) else Err(IntegrityError))
  }

  /** The global lookup never creates a tag: it returns the first tag with the
      normalised name, whichever blog it is in, or fails. */
  lemma {:induction false} TagByNameNeverCreates(db: Db, name: string)
    ensures var e := GetOrCreateTagByName(db, name);
      && e.db == db
      && (e.out.Ok? ==> IsFirstTagNamed(db, Normalize(name), e.out.value))
      && (e.out.Err? ==> forall t :: t in db.tags ==> db.tags[t].name != Normalize(name))
  {
  }

  /** The global lookup hands one user's request another user's tag: user 1
      asks for "Django " and receives the tag of user 2's blog. */
  lemma {:induction false} TagByNameCrossesBlogs()
    ensures var db := Db(map[0 := Blog(1, "a", ""), 1 := Blog(2, "b", "")], map[], map[2 := Tag(1, "django", {})], 3);
      && GetOrCreateTagByName(db, "Django ").out == Ok(2)
      && !BlogOwnedBy(db, db.tags[2].blog, 1)
  {
    var db := Db(map[0 := Blog(1, "a", ""), 1 := Blog(2, "b", "")], map[], map[2 := Tag(1, "django", {})], 3);
    assert IsFirstTagNamed(db, "django", 2);
    assert FirstTagNamed(db, "django") == Some(2);
    NormalizeExample();
    assert GetOrCreateTagByName(db, "Django ") == Effect(db, Ok(2));
  }
}
