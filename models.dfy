/** The three persisted entities (Blog, Post, Tag), the users that own them,
    the constraints the tables keep, the cascades of deletion, the default
    post ordering, and the field checks a model serializer derives from the
    field declarations. */
module Models {
  import opened Constants
  import opened Text

  type UserId = nat
  type BlogId = nat
  type PostId = nat
  type TagId = nat

  /** Column widths of the character fields. */
  const MaxBlogTitle := 100
  const MaxPostTitle := 150
  const MaxTagName := 50

  /** A user of the authentication framework: identity and the three flags
      the core reads. */
  datatype User = User(id: UserId, username: string, isAuthenticated: bool, isSuperuser: bool, isStaff: bool)

  /** A blog and its one-to-one owner. */
  datatype Blog = Blog(user: UserId, title: string, description: string)

  /** A post; `createdAt` is a creation stamp drawn from the id counter. */
  datatype Post = Post(blog: BlogId, title: string, content: string, createdAt: nat)

  /** A tag of one blog; `posts` is the many-to-many link to posts. */
  datatype Tag = Tag(blog: BlogId, name: string, posts: set<PostId>)

  /** The three tables and the counter that issues ids and creation stamps. */
  datatype Db = Db(blogs: map<BlogId, Blog>, posts: map<PostId, Post>, tags: map<TagId, Tag>, nextId: nat)

  /** The tables after an operation, and what the operation returned. */
  datatype Effect<+T> = Effect(db: Db, out: T)

  // ---------------------------------------------------------------------------
  // Table constraints

  /** The user link is one-to-one: no two blogs share an owner. */
  ghost predicate OneBlogPerUser(db: Db) {
    forall b1, b2 :: b1 in db.blogs && b2 in db.blogs && db.blogs[b1].user == db.blogs[b2].user ==> b1 == b2
  }

  /** Every post's blog exists (a required foreign key). */
  ghost predicate PostsHaveBlogs(db: Db) {
    forall p :: p in db.posts ==> db.posts[p].blog in db.blogs
  }

  /** Every tag's blog exists (a required foreign key). */
  ghost predicate TagsHaveBlogs(db: Db) {
    forall t :: t in db.tags ==> db.tags[t].blog in db.blogs
  }

  /** Every post a tag links to exists. */
  ghost predicate TagPostsExist(db: Db) {
    forall t :: t in db.tags ==> db.tags[t].posts <= db.posts.Keys
  }

  /** The unique constraint on (blog, name). */
  ghost predicate TagNamesUnique(db: Db) {
    forall t1, t2 ::
      (t1 in db.tags && t2 in db.tags && db.tags[t1].blog == db.tags[t2].blog && db.tags[t1].name == db.tags[t2].name)
      ==> t1 == t2
  }

  /** The widths of the character columns. */
  ghost predicate WithinBounds(db: Db) {
    && (forall b :: b in db.blogs ==> |db.blogs[b].title| <= MaxBlogTitle)
    && (forall p :: p in db.posts ==> |db.posts[p].title| <= MaxPostTitle)
    && (forall t :: t in db.tags ==> |db.tags[t].name| <= MaxTagName)
  }

  /** Every id and creation stamp in use was issued by the counter. */
  ghost predicate IdsIssued(db: Db) {
    && (forall b :: b in db.blogs ==> b < db.nextId)
    && (forall p :: p in db.posts ==> p < db.nextId && db.posts[p].createdAt < db.nextId)
    && (forall t :: t in db.tags ==> t < db.nextId)
  }

  ghost predicate Valid(db: Db) {
    && OneBlogPerUser(db) && PostsHaveBlogs(db) && TagsHaveBlogs(db) && TagPostsExist(db)
    && TagNamesUnique(db) && WithinBounds(db) && IdsIssued(db)
  }

  // ---------------------------------------------------------------------------
  // Ownership through the foreign keys

  predicate BlogOwnedBy(db: Db, b: BlogId, u: UserId) {
    b in db.blogs && db.blogs[b].user == u
  }

  /** `post.blog.user == user`. */
  predicate PostOwnedBy(db: Db, p: PostId, u: UserId) {
    p in db.posts && BlogOwnedBy(db, db.posts[p].blog, u)
  }

  /** `user.blog`: the blog on the reverse side of the one-to-one link. */
  ghost function UserBlog(db: Db, u: UserId): (r: Option<BlogId>)
    ensures r.Some? ==> BlogOwnedBy(db, r.value, u)
    ensures r.None? ==> forall b :: !BlogOwnedBy(db, b, u)
  {
    if exists b :: BlogOwnedBy(db, b, u) then
      var b :| BlogOwnedBy(db, b, u); Some(b)
    else None
  }

  lemma UserBlogUnique(db: Db, u: UserId, b: BlogId)
    requires OneBlogPerUser(db) && BlogOwnedBy(db, b, u)
    ensures UserBlog(db, u) == Some(b)
  {
  }

  /** `post.tags`: the tags whose post set holds the post. */
  function TagsOfPost(db: Db, p: PostId): set<TagId> {
    set t | t in db.tags && p in db.tags[t].posts
  }

  // ---------------------------------------------------------------------------
  // Row operations of the tables

  /** `Blog.objects.create(...)`. */
  function AddBlog(db: Db, b: Blog): Db {
    db.(blogs := db.blogs[db.nextId := b], nextId := db.nextId + 1)
  }

  /** `Post.objects.create(...)`, stamped with the counter. */
  function AddPost(db: Db, blog: BlogId, title: string, content: string): Db {
    db.(posts := db.posts[db.nextId := Post(blog, title, content, db.nextId)], nextId := db.nextId + 1)
  }

  /** `Tag.objects.create(...)`. */
  function AddTag(db: Db, t: Tag): Db {
    db.(tags := db.tags[db.nextId := t], nextId := db.nextId + 1)
  }

  /** `post.save()` of a changed post. */
  function PutPost(db: Db, p: PostId, post: Post): Db {
    db.(posts := db.posts[p := post])
  }

  /** `tag.save()` of a changed tag, or a change of its post set. */
  function PutTag(db: Db, t: TagId, tag: Tag): Db {
    db.(tags := db.tags[t := tag])
  }

  /** `post.delete()`: the row and its links to tags. */
  function RemovePost(db: Db, p: PostId): Db {
    db.(posts := db.posts - {p},
        tags := map t | t in db.tags :: db.tags[t].(posts := db.tags[t].posts - {p}))
  }

  /** `tag.delete()`: the row and its links to posts. */
  function RemoveTag(db: Db, t: TagId): Db {
    db.(tags := db.tags - {t})
  }

  /** `post.tags.set(ts)`: the post joins the tags in `ts` and leaves all others. */
  function SetPostTags(db: Db, p: PostId, ts: set<TagId>): Db {
    db.(tags := map t | t in db.tags ::
          db.tags[t].(posts := if t in ts then db.tags[t].posts + {p} else db.tags[t].posts - {p}))
  }

  /** Deleting blogs: the cascade removes their posts and tags and the links
      of the removed posts. */
  function DeleteBlogs(db: Db, doomed: set<BlogId>): Db {
    var gone := set p | p in db.posts && db.posts[p].blog in doomed;
    db.(blogs := map b | b in db.blogs && b !in doomed :: db.blogs[b],
        posts := map p | p in db.posts && db.posts[p].blog !in doomed :: db.posts[p],
        tags := map t | t in db.tags && db.tags[t].blog !in doomed :: db.tags[t].(posts := db.tags[t].posts - gone))
  }

  /** Deleting a user cascades to the user's blog. */
  function DeleteUser(db: Db, u: UserId): Db {
    DeleteBlogs(db, set b | b in db.blogs && db.blogs[b].user == u)
  }

  // ---------------------------------------------------------------------------
  // Properties of the row operations

  lemma AddBlogValid(db: Db, b: Blog)
    requires Valid(db) && UserBlog(db, b.user).None? && |b.title| <= MaxBlogTitle
    ensures Valid(AddBlog(db, b))
  {
    var r := AddBlog(db, b);
    forall b1, b2 | b1 in r.blogs && b2 in r.blogs && r.blogs[b1].user == r.blogs[b2].user ensures b1 == b2 {
      assert !BlogOwnedBy(db, b1, b.user) && !BlogOwnedBy(db, b2, b.user);
    }
  }

  lemma AddPostValid(db: Db, blog: BlogId, title: string, content: string)
    requires Valid(db) && blog in db.blogs && |title| <= MaxPostTitle
    ensures Valid(AddPost(db, blog, title, content))
  {
  }

  /** Creating a post adds exactly one row, under the next id, and keeps
      every other row. */
  lemma AddPostRow(db: Db, blog: BlogId, title: string, content: string)
    ensures var r := AddPost(db, blog, title, content);
      && r.posts.Keys == db.posts.Keys + {db.nextId}
      && r.posts[db.nextId] == Post(blog, title, content, db.nextId)
      && (forall p :: p in db.posts && p != db.nextId ==> r.posts[p] == db.posts[p])
      && r.blogs == db.blogs && r.tags == db.tags
  {
  }

  lemma PutPostValid(db: Db, p: PostId, post: Post)
    requires Valid(db) && p in db.posts && post.blog in db.blogs
    requires |post.title| <= MaxPostTitle && post.createdAt < db.nextId
    ensures Valid(PutPost(db, p, post))
  {
  }

  /** A tag row may be added or rewritten when its blog and posts exist, its
      name fits, and no other tag of the blog has the name. */
  ghost predicate TagFits(db: Db, t: TagId, tag: Tag) {
    && tag.blog in db.blogs && tag.posts <= db.posts.Keys && |tag.name| <= MaxTagName
    && forall t' :: t' in db.tags && t' != t && db.tags[t'].blog == tag.blog ==> db.tags[t'].name != tag.name
  }

  lemma AddTagValid(db: Db, tag: Tag)
    requires Valid(db) && TagFits(db, db.nextId, tag)
    ensures Valid(AddTag(db, tag))
  {
  }

  lemma PutTagValid(db: Db, t: TagId, tag: Tag)
    requires Valid(db) && t in db.tags && TagFits(db, t, tag)
    ensures Valid(PutTag(db, t, tag))
  {
  }

  lemma RemovePostValid(db: Db, p: PostId)
    requires Valid(db)
    ensures Valid(RemovePost(db, p))
  {
  }

  lemma RemoveTagValid(db: Db, t: TagId)
    requires Valid(db)
    ensures Valid(RemoveTag(db, t))
  {
  }

  lemma SetPostTagsValid(db: Db, p: PostId, ts: set<TagId>)
    requires Valid(db) && p in db.posts
    ensures Valid(SetPostTags(db, p, ts))
  {
  }

  /** After `post.tags.set(ts)` the post's tags are exactly the existing tags
      in `ts`, and every other post keeps its tags. */
  lemma {:induction false} SetPostTagsEffect(db: Db, p: PostId, ts: set<TagId>)
    ensures TagsOfPost(SetPostTags(db, p, ts), p) == ts * db.tags.Keys
    ensures forall q :: q != p ==> TagsOfPost(SetPostTags(db, p, ts), q) == TagsOfPost(db, q)
    ensures SetPostTags(db, p, ts).posts == db.posts && SetPostTags(db, p, ts).blogs == db.blogs
  {
    var r := SetPostTags(db, p, ts);
    assert TagsOfPost(r, p) == ts * db.tags.Keys by {
      forall t ensures t in TagsOfPost(r, p) <==> t in ts * db.tags.Keys {
        if t in db.tags {
          assert r.tags[t].posts == if t in ts then db.tags[t].posts + {p} else db.tags[t].posts - {p};
        }
      }
    }
    forall q | q != p ensures TagsOfPost(r, q) == TagsOfPost(db, q) {
      forall t ensures t in TagsOfPost(r, q) <==> t in TagsOfPost(db, q) {
        if t in db.tags {
          assert r.tags[t].posts == if t in ts then db.tags[t].posts + {p} else db.tags[t].posts - {p};
        }
      }
    }
  }

  /** The rows left by deleting blogs: none that belongs to a deleted blog,
      every row of the other blogs, and the surviving tags lose only their
      links to the deleted posts. */
  lemma {:induction false} DeleteBlogsRows(db: Db, doomed: set<BlogId>)
    requires TagPostsExist(db)
    ensures var r := DeleteBlogs(db, doomed);
      && r.blogs.Keys == db.blogs.Keys - doomed
      && (forall b :: b in r.blogs ==> r.blogs[b] == db.blogs[b])
      && (forall p :: p in r.posts <==> p in db.posts && db.posts[p].blog !in doomed)
      && (forall t :: t in r.tags <==> t in db.tags && db.tags[t].blog !in doomed)
      && (forall p :: p in r.posts ==> r.posts[p] == db.posts[p])
      && (forall t :: t in r.tags ==>
            (r.tags[t].blog == db.tags[t].blog && r.tags[t].name == db.tags[t].name
             && r.tags[t].posts == db.tags[t].posts * r.posts.Keys))
  {
    var r := DeleteBlogs(db, doomed);
    var gone := set p | p in db.posts && db.posts[p].blog in doomed;
    forall t | t in r.tags ensures r.tags[t].posts == db.tags[t].posts * r.posts.Keys {
      assert r.tags[t].posts == db.tags[t].posts - gone;
      forall p ensures p in db.tags[t].posts - gone <==> p in db.tags[t].posts * r.posts.Keys {
        if p in db.tags[t].posts {
          assert p in db.posts;
        }
      }
    }
  }

  /** Deleting blogs keeps the tables consistent, leaves no row that belongs
      to a deleted blog, and keeps every row of the other blogs; the surviving
      tags lose only their links to the deleted posts. */
  lemma {:induction false} DeleteBlogsCascade(db: Db, doomed: set<BlogId>)
    requires Valid(db)
    ensures var r := DeleteBlogs(db, doomed);
      && Valid(r)
      && r.blogs.Keys == db.blogs.Keys - doomed
      && (forall p :: p in r.posts <==> p in db.posts && db.posts[p].blog !in doomed)
      && (forall t :: t in r.tags <==> t in db.tags && db.tags[t].blog !in doomed)
      && (forall p :: p in r.posts ==> r.posts[p] == db.posts[p])
      && (forall t :: t in r.tags ==>
            (r.tags[t].blog == db.tags[t].blog && r.tags[t].name == db.tags[t].name
             && r.tags[t].posts == db.tags[t].posts * r.posts.Keys))
  {
    var r := DeleteBlogs(db, doomed);
    DeleteBlogsRows(db, doomed);
    assert TagPostsExist(r);
    assert OneBlogPerUser(r);
    assert TagNamesUnique(r);
    assert PostsHaveBlogs(r) && TagsHaveBlogs(r);
    assert WithinBounds(r) && IdsIssued(r);
  }

  /** Deleting a user leaves that user no blog and keeps every other user's blog. */
  lemma DeleteUserRemovesBlog(db: Db, u: UserId)
    requires Valid(db)
    ensures var r := DeleteUser(db, u);
      && Valid(r)
      && UserBlog(r, u).None?
      && (forall b :: b in db.blogs && db.blogs[b].user != u ==> b in r.blogs && r.blogs[b] == db.blogs[b])
  {
    DeleteBlogsCascade(db, set b | b in db.blogs && db.blogs[b].user == u);
  }

  /** The constraint is on the pair: two blogs may each have a tag of the same name. */
  lemma SameNameInTwoBlogs()
    ensures Valid(Db(map[0 := Blog(1, "a", ""), 1 := Blog(2, "b", "")], map[],
                     map[2 := Tag(0, "django", {}), 3 := Tag(1, "django", {})], 4))
  {
  }

  // ---------------------------------------------------------------------------
  // Default ordering of posts: newest created first

  /** `s` lists posts newest first. */
  ghost predicate NewestFirstOrder(posts: map<PostId, Post>, s: seq<PostId>) {
    && (forall i :: 0 <= i < |s| ==> s[i] in posts)
    && (forall i, j :: 0 <= i < j < |s| ==> posts[s[i]].createdAt >= posts[s[j]].createdAt)
  }

  ghost predicate IsNewest(posts: map<PostId, Post>, ids: set<PostId>, p: PostId)
    requires ids <= posts.Keys
  {
    p in ids && forall q :: q in ids ==> posts[q].createdAt <= posts[p].createdAt
  }

  lemma {:induction false} NewestExists(posts: map<PostId, Post>, ids: set<PostId>)
    requires ids != {} && ids <= posts.Keys
    ensures exists p :: IsNewest(posts, ids, p)
    decreases ids
  {
    var x :| x in ids;
    if ids != {x} {
      NewestExists(posts, ids - {x});
      var q :| IsNewest(posts, ids - {x}, q);
      if posts[x].createdAt >= posts[q].createdAt {
        assert IsNewest(posts, ids, x);
      } else {
        assert IsNewest(posts, ids, q);
      }
    } else {
      assert IsNewest(posts, ids, x);
    }
  }

  /** The rows `ids` in the default order of the Post table. */
  ghost function NewestFirst(posts: map<PostId, Post>, ids: set<PostId>): (r: seq<PostId>)
    requires ids <= posts.Keys
    ensures |r| == |ids| && (forall p :: p in r <==> p in ids)
    ensures forall i, j :: 0 <= i < j < |r| ==> r[i] != r[j]
    ensures NewestFirstOrder(posts, r)
    decreases ids
  {
    if ids == {} then []
    else
      NewestExists(posts, ids);
      var p :| IsNewest(posts, ids, p);
      var rest := NewestFirst(posts, ids - {p});
      PrependNewest(posts, ids, p, rest);
      [p] + rest
  }

  /** Putting the newest post in front of the others listed newest first
      lists them all newest first. */
  lemma {:induction false} PrependNewest(posts: map<PostId, Post>, ids: set<PostId>, p: PostId, rest: seq<PostId>)
    requires ids <= posts.Keys && IsNewest(posts, ids, p)
    requires |rest| == |ids - {p}| && (forall q :: q in rest <==> q in ids - {p})
    requires forall i, j :: 0 <= i < j < |rest| ==> rest[i] != rest[j]
    requires NewestFirstOrder(posts, rest)
    ensures var r := [p] + rest;
      && |r| == |ids| && (forall q :: q in r <==> q in ids)
      && (forall i, j :: 0 <= i < j < |r| ==> r[i] != r[j])
      && NewestFirstOrder(posts, r)
  {
    var r := [p] + rest;
    assert ids == (ids - {p}) + {p};
    forall i, j | 0 <= i < j < |r| ensures r[i] != r[j] && posts[r[i]].createdAt >= posts[r[j]].createdAt {
      assert r[j] == rest[j - 1] && r[j] in ids - {p};
      if i > 0 {
        assert r[i] == rest[i - 1];
      }
    }
  }

  /** A post created after every other listed post comes first. */
  lemma NewestFirstHead(posts: map<PostId, Post>, ids: set<PostId>, p: PostId)
    requires ids <= posts.Keys && p in ids
    requires forall q :: q in ids && q != p ==> posts[q].createdAt < posts[p].createdAt
    ensures NewestFirst(posts, ids)[0] == p
  {
    var r := NewestFirst(posts, ids);
    var k :| 0 <= k < |r| && r[k] == p;
  }

  // ---------------------------------------------------------------------------
  // Field checks of the model serializers

  /** A required character field of at most `max` characters, as a model
      serializer checks it after trimming: not blank and not too long. */
  predicate TextFieldOk(s: string, max: nat) {
    Trim(s) != [] && |Trim(s)| <= max
  }

  /** Errors of a Blog serializer for the given title. */
  function BlogFieldErrors(title: string): (r: seq<Error>)
    ensures r == [] <==> TextFieldOk(title, MaxBlogTitle)
    ensures r != [] ==> r == [FieldInvalid(TitleField)]
  {
    if TextFieldOk(title, MaxBlogTitle) then [] else [FieldInvalid(TitleField)]
  }

  /** Errors of a Post serializer for the given title and content (content
      is a text field: required, not blank, no width). */
  function PostFieldErrors(title: string, content: string): (r: seq<Error>)
    ensures r == [] <==> TextFieldOk(title, MaxPostTitle) && Trim(content) != []
    ensures forall i :: 0 <= i < |r| ==> r[i].FieldInvalid?
    ensures FieldInvalid(TitleField) in r <==> !TextFieldOk(title, MaxPostTitle)
    ensures FieldInvalid(ContentField) in r <==> Trim(content) == []
  {
    if !TextFieldOk(title, MaxPostTitle) then
      if Trim(content) != [] then [FieldInvalid(TitleField)]
      else [FieldInvalid(TitleField), FieldInvalid(ContentField)]
    else if Trim(content) != [] then []
    else [FieldInvalid(ContentField)]
  }

  /** Errors of a Tag serializer for the given name. */
  function TagFieldErrors(name: string): (r: seq<Error>)
    ensures r == [] <==> TextFieldOk(name, MaxTagName)
    ensures r != [] ==> r == [FieldInvalid(NameField)]
  {
    if TextFieldOk(name, MaxTagName) then [] else [FieldInvalid(NameField)]
  }

  /** The blog serializer judges the stripped title: stripping a title
      first changes nothing, and a title is accepted exactly when the
      stripped title is non-blank and fits the column. */
  lemma {:induction false} BlogTitleJudgedStripped(title: string)
    ensures BlogFieldErrors(Trim(title)) == BlogFieldErrors(title)
    ensures BlogFieldErrors(title) == [] <==> Trim(title) != [] && |Trim(title)| <= MaxBlogTitle
  {
    StrippedTwice(title, MaxBlogTitle);
  }

  /** The post serializer judges the stripped title and content. */
  lemma {:induction false} PostFieldsJudgedStripped(title: string, content: string)
    ensures PostFieldErrors(Trim(title), Trim(content)) == PostFieldErrors(title, content)
  {
    StrippedTwice(title, MaxPostTitle);
    StrippedTwice(content, |content|);
    assert (Trim(Trim(content)) != []) == (Trim(content) != []);
  }

  /** The tag serializer judges the stripped name: stripping a name first
      changes nothing, and a name is accepted exactly when the stripped name
      is non-blank and fits the column. */
  lemma {:induction false} TagNameJudgedStripped(name: string)
    ensures TagFieldErrors(Trim(name)) == TagFieldErrors(name)
    ensures TagFieldErrors(name) == [] <==> Trim(name) != [] && |Trim(name)| <= MaxTagName
  {
    StrippedTwice(name, MaxTagName);
  }

  /** A field check sees the same stripped value whether or not the value
      was stripped before. */
  lemma {:induction false} StrippedTwice(s: string, max: nat)
    ensures TextFieldOk(Trim(s), max) == TextFieldOk(s, max)
  {
    var t := Trim(s);
    TrimOfTrimmed(t);
  }
}
