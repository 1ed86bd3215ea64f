/** The three permission policies of the REST surface. Each is a pair of
    yes/no decisions: a coarse one about the request (may this actor call the
    endpoint at all) and a fine one about one object. */
module Permissions {
  import opened Constants
  import opened Models
  import opened AuthHelpers

  datatype Policy = IsOwnerOrAdmin | IsBlogOwnerOrAdmin | IsAuthenticatedOrReadOnlyOwner

  /** `has_permission`: the same for all three, the actor must be authenticated. */
  predicate HasPermission(policy: Policy, actor: Option<User>) {
    match policy
    case IsOwnerOrAdmin => IsAuthenticated(actor)
    case IsBlogOwnerOrAdmin => IsAuthenticated(actor)
    case IsAuthenticatedOrReadOnlyOwner => IsAuthenticated(actor)
  }

  /** `has_object_permission`. */
  predicate HasObjectPermission(policy: Policy, db: Db, u: User, r: Resource) {
    match policy
    case IsOwnerOrAdmin =>
      IsSuperuser(u) || IsOwner(db, u, r)
    case IsBlogOwnerOrAdmin =>
      if IsSuperuser(u) then true
      else if BlogAttr(db, r).Some? then IsOwner(db, u, r)
      else if PostsAttr(db, r).Some? then IsOwnerOfAnyPost(db, u, r)
      else false
    case IsAuthenticatedOrReadOnlyOwner =>
      if IsSuperuser(u) then true else IsOwner(db, u, r)
  }

  /** The coarse check of every policy is exactly "the actor is authenticated". */
  lemma CoarseCheckIsAuthentication(policy: Policy, actor: Option<User>)
    ensures HasPermission(policy, actor) <==> actor.Some? && actor.value.isAuthenticated
  {
  }

  /** Owner-or-admin allows an object exactly to a superuser or its owner. */
  lemma OwnerOrAdminDecision(db: Db, u: User, r: Resource)
    ensures HasObjectPermission(IsOwnerOrAdmin, db, u, r) <==> u.isSuperuser || IsOwner(db, u, r)
  {
  }

  /** Blog-owner-or-admin always allows a superuser. */
  lemma BlogOwnerOrAdminSuperuser(db: Db, u: User, r: Resource)
    requires u.isSuperuser
    ensures HasObjectPermission(IsBlogOwnerOrAdmin, db, u, r)
  {
  }

  /** For anyone else blog-owner-or-admin tries, in order: the blog of the
      object, then its posts; an object with neither is refused. */
  lemma BlogOwnerOrAdminBranches(db: Db, u: User, r: Resource)
    requires !u.isSuperuser
    ensures BlogAttr(db, r).Some? ==>
      (HasObjectPermission(IsBlogOwnerOrAdmin, db, u, r) <==> IsOwner(db, u, r))
    ensures BlogAttr(db, r).None? && PostsAttr(db, r).Some? ==>
      (HasObjectPermission(IsBlogOwnerOrAdmin, db, u, r) <==> IsOwnerOfAnyPost(db, u, r))
    ensures BlogAttr(db, r).None? && PostsAttr(db, r).None? ==>
      !HasObjectPermission(IsBlogOwnerOrAdmin, db, u, r)
  {
  }

  /** A tag has a blog, so blog-owner-or-admin decides it by the tag's blog;
      whose posts the tag holds does not matter. */
  lemma {:induction false} BlogOwnerOrAdminOnTag(db: Db, u: User, t: TagId)
    requires !u.isSuperuser && t in db.tags
    ensures HasObjectPermission(IsBlogOwnerOrAdmin, db, u, TagObj(t)) <==> BlogOwnedBy(db, db.tags[t].blog, u.id)
  {
    IsOwnerByKind(db, u, 0, 0, t);
  }

  /** A blog has no `blog` attribute but has its posts, so blog-owner-or-admin
      lets a non-superuser act on a blog only when the blog is theirs AND holds
      at least one post: an owner of an empty blog is refused. */
  lemma {:induction false} BlogOwnerOrAdminOnBlog(db: Db, u: User, b: BlogId)
    requires !u.isSuperuser
    ensures HasObjectPermission(IsBlogOwnerOrAdmin, db, u, BlogObj(b)) <==>
      BlogOwnedBy(db, b, u.id) && exists p :: p in db.posts && db.posts[p].blog == b
  {
    IsOwnerOfAnyPostByKind(db, u, b, 0, 0);
  }

  /** The third policy decides every object exactly as owner-or-admin does. */
  lemma ReadOnlyOwnerMatchesOwnerOrAdmin(db: Db, u: User, r: Resource)
    ensures HasObjectPermission(IsAuthenticatedOrReadOnlyOwner, db, u, r) ==
            HasObjectPermission(IsOwnerOrAdmin, db, u, r)
  {
  }

  /** Making the actor a superuser never turns an allow into a deny. */
  lemma SuperuserMonotone(policy: Policy, db: Db, u: User, r: Resource)
    requires HasObjectPermission(policy, db, u, r)
    ensures HasObjectPermission(policy, db, u.(isSuperuser := true), r)
  {
  }
}
