/** User helpers of the authentication app: who is authenticated, who owns a
    resource, the authentication gate of the GraphQL resolvers, and the grant
    of admin permissions to staff users. */
module AuthHelpers {
  import opened Constants
  import opened Models

  /** `user and user.is_authenticated`: a missing user is not authenticated. */
  predicate IsAuthenticated(actor: Option<User>) {
    actor.Some? && actor.value.isAuthenticated
  }

  predicate IsSuperuser(u: User) {
    u.isSuperuser
  }

  /** An object handed to an ownership check. Which attributes it has is
      decided by its kind (`UserAttr`, `BlogAttr`, `PostsAttr`), in place of
      probing the object for attributes at run time. */
  datatype Resource = BlogObj(id: BlogId) | PostObj(id: PostId) | TagObj(id: TagId) | OtherObj

  /** `obj.user`, for the objects that have one: a blog. */
  function UserAttr(db: Db, r: Resource): Option<UserId> {
    match r
    case BlogObj(b) => if b in db.blogs then Some(db.blogs[b].user) else None
    case _ => None
  }

  /** `obj.blog`, for the objects that have one: a post and a tag. */
  function BlogAttr(db: Db, r: Resource): Option<BlogId> {
    match r
    case PostObj(p) => if p in db.posts then Some(db.posts[p].blog) else None
    case TagObj(t) => if t in db.tags then Some(db.tags[t].blog) else None
    case _ => None
  }

  /** `obj.posts`, for the objects that have one: a tag (its linked posts) and
      a blog (the reverse side of `Post.blog`). */
  function PostsAttr(db: Db, r: Resource): Option<set<PostId>> {
    match r
    case BlogObj(b) => Some(set p | p in db.posts && db.posts[p].blog == b)
    case TagObj(t) => if t in db.tags then Some(db.tags[t].posts) else None
    case _ => None
  }

  /** `is_owner`: the direct user is compared if there is one, otherwise the
      owner of the blog; any other object is owned by nobody. */
  predicate IsOwner(db: Db, u: User, r: Resource) {
    match UserAttr(db, r)
    case Some(owner) => owner == u.id
    case None =>
      match BlogAttr(db, r)
      case Some(b) => BlogOwnedBy(db, b, u.id)
      case None => false
  }

  /** `is_owner_of_any_post`: some associated post's blog belongs to the user. */
  predicate IsOwnerOfAnyPost(db: Db, u: User, r: Resource) {
    match PostsAttr(db, r)
    case Some(ps) => exists p :: p in ps && PostOwnedBy(db, p, u.id)
    case None => false
  }

  /** `check_user_authenticated`: refuses a missing or anonymous user and
      otherwise hands back that same user. */
  function CheckUserAuthenticated(actor: Option<User>): (r: Result<User>)
    ensures r.Ok? <==> IsAuthenticated(actor)
    ensures r.Ok? ==> actor == Some(r.value) && r.value.isAuthenticated
    ensures r.Err? ==> r.error == NotAuthenticated
  {
    if actor.None? || !actor.value.isAuthenticated then Err(NotAuthenticated) else Ok(actor.value)
  }

  // ---------------------------------------------------------------------------
  // Properties of the ownership predicates

  /** An object with a direct user is owned exactly by that user. */
  lemma IsOwnerDirect(db: Db, u: User, r: Resource)
    requires UserAttr(db, r).Some?
    ensures IsOwner(db, u, r) <==> UserAttr(db, r).value == u.id
  {
  }

  /** Without a direct user, an object with a blog is owned by the blog's owner. */
  lemma IsOwnerThroughBlog(db: Db, u: User, r: Resource)
    requires UserAttr(db, r).None? && BlogAttr(db, r).Some?
    ensures IsOwner(db, u, r) <==> BlogOwnedBy(db, BlogAttr(db, r).value, u.id)
  {
  }

  /** An object with neither a user nor a blog is owned by nobody. */
  lemma IsOwnerNeither(db: Db, u: User, r: Resource)
    requires UserAttr(db, r).None? && BlogAttr(db, r).None?
    ensures !IsOwner(db, u, r)
  {
  }

  /** What `is_owner` decides for each kind of object: a blog by its user, a
      post and a tag by the owner of their blog (a tag's posts play no part). */
  lemma {:induction false} IsOwnerByKind(db: Db, u: User, b: BlogId, p: PostId, t: TagId)
    ensures IsOwner(db, u, BlogObj(b)) <==> BlogOwnedBy(db, b, u.id)
    ensures IsOwner(db, u, PostObj(p)) <==> PostOwnedBy(db, p, u.id)
    ensures IsOwner(db, u, TagObj(t)) <==> t in db.tags && BlogOwnedBy(db, db.tags[t].blog, u.id)
    ensures !IsOwner(db, u, OtherObj)
  {
  }

  /** `is_owner_of_any_post` on a tag asks whether one of its posts is the
      user's; on an object without posts it is false. */
  lemma {:induction false} IsOwnerOfAnyPostByKind(db: Db, u: User, b: BlogId, p: PostId, t: TagId)
    ensures IsOwnerOfAnyPost(db, u, TagObj(t)) <==>
      t in db.tags && exists q :: q in db.tags[t].posts && PostOwnedBy(db, q, u.id)
    ensures IsOwnerOfAnyPost(db, u, BlogObj(b)) <==>
      BlogOwnedBy(db, b, u.id) && exists q :: q in db.posts && db.posts[q].blog == b
    ensures !IsOwnerOfAnyPost(db, u, PostObj(p)) && !IsOwnerOfAnyPost(db, u, OtherObj)
  {
    if BlogOwnedBy(db, b, u.id) && exists q :: q in db.posts && db.posts[q].blog == b {
      var q :| q in db.posts && db.posts[q].blog == b;
      assert q in PostsAttr(db, BlogObj(b)).value && PostOwnedBy(db, q, u.id);
    }
  }

  // ---------------------------------------------------------------------------
  // Admin permissions

  /** The models a permission can name: the three of the blog application,
      and any model of another application (such as `auth.user`). */
  datatype ModelKind = BlogModel | PostModel | TagModel | OtherModel(name: string)
  datatype Action = View | Add | Change | Delete

  /** A model permission of the framework, such as `view_blog`. */
  datatype Permission = Permission(model: ModelKind, action: Action)

  /** The codenames listed for one model: view, change, add and delete. */
  function ModelPermissions(m: ModelKind): (r: set<Permission>)
    ensures forall p :: p in r <==> p.model == m
  {
    var r := {Permission(m, View), Permission(m, Change), Permission(m, Add), Permission(m, Delete)};
    assert forall p: Permission :: p.action == View || p.action == Add || p.action == Change || p.action == Delete;
    assert forall p: Permission :: p.model == m ==> p == Permission(m, p.action);
    r
  }

  /** The blog application's models, the ones the admin grant covers. */
  predicate IsBlogAppModel(m: ModelKind) {
    m == BlogModel || m == PostModel || m == TagModel
  }

  /** The models in the order the grant walks them. */
  const AdminModels: seq<ModelKind> := [BlogModel, PostModel, TagModel]

  /** The permissions of the first `n` models. */
  function GrantedFor(models: seq<ModelKind>, n: nat): (r: set<Permission>)
    requires n <= |models|
    ensures forall p :: p in r <==> p.model in models[..n]
  {
    if n == 0 then {} else
      assert models[..n] == models[..n - 1] + [models[n - 1]];
      GrantedFor(models, n - 1) + ModelPermissions(models[n - 1])
  }

  /** Everything the admin grant adds: the four actions on each of Blog, Post and Tag. */
  function AdminGrant(): (r: set<Permission>)
    ensures forall p: Permission :: p in r <==> IsBlogAppModel(p.model)
  {
    assert AdminModels[..|AdminModels|] == AdminModels;
    assert AdminModels[0] == BlogModel && AdminModels[1] == PostModel && AdminModels[2] == TagModel;
    GrantedFor(AdminModels, |AdminModels|)
  }

  /** `user.user_permissions`, the permission set of one user. */
  class UserPermissions {
    var granted: set<Permission>

    constructor (initial: set<Permission>)
      ensures granted == initial
    {
      granted := initial;
    }
  }

  /** `admin_permissions`: refuses a non-staff user before granting anything;
      otherwise adds the admin grant to the user's permissions by union, so
      that a repeated grant changes nothing. */
  method AdminPermissions(user: User, perms: UserPermissions) returns (r: Result<()>)
    modifies perms
    ensures !user.isStaff ==> r == Err(OnlyStaffCanHaveAdmin) && perms.granted == old(perms.granted)
    ensures user.isStaff ==> r == Ok(()) && perms.granted == old(perms.granted) + AdminGrant()
  {
    if !user.isStaff {
      return Err(OnlyStaffCanHaveAdmin);
    }
    var i := 0;
    while i < |AdminModels|
      invariant 0 <= i <= |AdminModels|
      invariant perms.granted == old(perms.granted) + GrantedFor(AdminModels, i)
    {
      perms.granted := perms.granted + ModelPermissions(AdminModels[i]);
      i := i + 1;
    }
    r := Ok(());
  }

  /** A second grant to a staff user leaves the permissions as the first
      left them, and the grant never takes away a permission the user held,
      least of all one on another application's model. */
  lemma AdminGrantTwice(granted: set<Permission>)
    ensures AdminGrant() <= granted + AdminGrant()
    ensures granted <= granted + AdminGrant()
    ensures forall p: Permission :: !IsBlogAppModel(p.model) ==> (p in granted + AdminGrant() <==> p in granted)
    ensures (granted + AdminGrant()) + AdminGrant() == granted + AdminGrant()
  {
  }

  /** A staff user who may already view users keeps that permission after the
      grant, and gains `view_blog`: the grant adds, it does not overwrite. */
  lemma {:induction false} AdminGrantKeepsOtherApps()
    ensures var viewUser := Permission(OtherModel("user"), View);
      && viewUser in {viewUser} + AdminGrant()
      && {viewUser} + AdminGrant() != AdminGrant()
      && Permission(BlogModel, View) in {viewUser} + AdminGrant()
  {
    var viewUser := Permission(OtherModel("user"), View);
    assert viewUser !in AdminGrant();
  }
}
