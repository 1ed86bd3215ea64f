/** The GraphQL list resolvers: each refuses an anonymous actor and otherwise
    lists the same rows as the matching REST view set. */
module Queries {
  import opened Constants
  import opened Models
  import opened AuthHelpers
  import opened Api

  /** `resolve_all_blogs`. */
  function ResolveAllBlogs(db: Db, actor: Option<User>): (r: Result<set<BlogId>>)
    ensures r.Err? <==> !IsAuthenticated(actor)
    ensures r.Err? ==> r.error == NotAuthenticated
  {
    match CheckUserAuthenticated(actor)
    case Err(e) => Err(e)
    case Ok(u) => Ok(BlogQueryset(db, u))
  }

  /** `resolve_all_posts`. */
  ghost function ResolveAllPosts(db: Db, actor: Option<User>): (r: Result<seq<PostId>>)
    ensures r.Err? <==> !IsAuthenticated(actor)
    ensures r.Err? ==> r.error == NotAuthenticated
  {
    match CheckUserAuthenticated(actor)
    case Err(e) => Err(e)
    case Ok(u) => Ok(PostQueryset(db, u))
  }

  /** `resolve_all_tags`. */
  function ResolveAllTags(db: Db, actor: Option<User>): (r: Result<set<TagId>>)
    ensures r.Err? <==> !IsAuthenticated(actor)
    ensures r.Err? ==> r.error == NotAuthenticated
  {
    match CheckUserAuthenticated(actor)
    case Err(e) => Err(e)
    case Ok(u) => Ok(TagQueryset(db, u))
  }

  /** A superuser receives the whole of each table. */
  lemma {:induction false} SuperuserSeesAll(db: Db, u: User)
    requires u.isAuthenticated && u.isSuperuser
    ensures ResolveAllBlogs(db, Some(u)) == Ok(db.blogs.Keys)
    ensures ResolveAllTags(db, Some(u)) == Ok(db.tags.Keys)
    ensures forall p :: p in ResolveAllPosts(db, Some(u)).value <==> p in db.posts
  {
  }

  /** Anyone else receives at most their own blog, the posts of their own
      blog, and the tags holding at least one of those posts; every result
      lies within its table. */
  lemma {:induction false} OthersSeeTheirOwn(db: Db, u: User)
    requires Valid(db) && u.isAuthenticated && !u.isSuperuser
    ensures var blogs := ResolveAllBlogs(db, Some(u)).value;
      && blogs <= db.blogs.Keys && |blogs| <= 1
      && forall b :: b in blogs <==> BlogOwnedBy(db, b, u.id)
    ensures forall p :: p in ResolveAllPosts(db, Some(u)).value <==> PostOwnedBy(db, p, u.id)
    ensures var tags := ResolveAllTags(db, Some(u)).value;
      && tags <= db.tags.Keys
      && forall t :: t in tags <==> t in db.tags && exists p :: p in db.tags[t].posts && PostOwnedBy(db, p, u.id)
  {
    BlogListing(db, u);
    TagListing(db, u);
    forall t ensures t in TagQueryset(db, u) <==> t in db.tags && exists p :: p in db.tags[t].posts && PostOwnedBy(db, p, u.id) {
      IsOwnerOfAnyPostByKind(db, u, 0, 0, t);
    }
  }
}
