/** The GraphQL mutation that creates a blog. */
module BlogMutations {
  import opened Constants
  import opened Text
  import opened Models
  import opened Database
  import opened AuthHelpers

  /** The description stored when the argument is missing or empty. */
  function DescriptionOrDefault(description: Option<string>): (r: string)
    ensures description.None? || description.value == [] ==> r == DefaultBlogDescription
    ensures description.Some? && description.value != [] ==> r == description.value
  {
    match description
    case Some(d) => if d == [] then DefaultBlogDescription else d
    case None => DefaultBlogDescription
  }

  /** `CreateBlog.mutate`: an anonymous actor is refused; a non-superuser who
      already has a blog is told so; otherwise the serializer checks the
      title, and the blog is inserted with the trimmed fields. The one-blog
      check is skipped for a superuser, but the one-to-one link still refuses
      a second blog at the database. */
  ghost function CreateBlogSpec(db: Db, actor: Option<User>, title: string, description: Option<string>): Effect<Reply> {
    match CheckUserAuthenticated(actor)
    case Err(e) => Effect(db, Raised(e))
    case Ok(u) =>
      if !u.isSuperuser && UserBlog(db, u.id).Some? then Effect(db, Rejected([BlogUserHasBlog]))
      else if BlogFieldErrors(title) != [] then Effect(db, Rejected(BlogFieldErrors(title)))
      else if UserBlog(db, u.id).Some? then Effect(db, Raised(IntegrityError))
      else Effect(AddBlog(db, NewBlog(u.id, title, description)), Done(db.nextId))
  }

  /** The row `CreateBlog.mutate` inserts: the trimmed title and the trimmed
      description or its default. */
  function NewBlog(u: UserId, title: string, description: Option<string>): Blog {
    Blog(u, Trim(title), Trim(DescriptionOrDefault(description)))
  }

  /** The only way to succeed: an authenticated actor without a blog and a
      valid title; the blog is then inserted under the next id. */
  lemma {:induction false} CreateBlogDone(db: Db, actor: Option<User>, title: string, description: Option<string>)
    requires CreateBlogSpec(db, actor, title, description).out.Done?
    ensures IsAuthenticated(actor) && UserBlog(db, actor.value.id).None? && TextFieldOk(title, MaxBlogTitle)
    ensures CreateBlogSpec(db, actor, title, description)
      == Effect(AddBlog(db, NewBlog(actor.value.id, title, description)), Done(db.nextId))
  {
  }

  /** What creating a blog does: on success exactly one blog is added, owned
      by the actor, with the trimmed title and the description or its
      default, and it becomes the actor's blog; every refusal writes nothing;
      the tables stay consistent, so no user ever holds two blogs. */
  lemma {:induction false} CreateBlogOutcome(db: Db, actor: Option<User>, title: string, description: Option<string>)
    requires Valid(db)
    ensures var e := CreateBlogSpec(db, actor, title, description);
      && Valid(e.db) && e.db.posts == db.posts && e.db.tags == db.tags
      && (!e.out.Done? ==> e.db == db)
      && (e.out.Done? ==>
            && IsAuthenticated(actor)
            && e.out.id !in db.blogs
            && e.db.blogs == db.blogs[e.out.id := Blog(actor.value.id, Trim(title), Trim(DescriptionOrDefault(description)))]
            && UserBlog(db, actor.value.id).None?
            && UserBlog(e.db, actor.value.id) == Some(e.out.id))
  {
    var e := CreateBlogSpec(db, actor, title, description);
    if e.out.Done? {
      CreateBlogDone(db, actor, title, description);
      var u := actor.value;
      AddBlogValid(db, NewBlog(u.id, title, description));
      UserBlogUnique(e.db, u.id, db.nextId);
    }
  }

  /** Who is refused, and how: the anonymous actor, a non-superuser with a
      blog (with the "already has a blog" error), an invalid title (with the
      field error), and a superuser with a blog (by the database). A valid
      request from an actor without a blog succeeds. */
  lemma {:induction false} CreateBlogRefusals(db: Db, actor: Option<User>, title: string, description: Option<string>)
    ensures var e := CreateBlogSpec(db, actor, title, description);
      && (!IsAuthenticated(actor) ==> e == Effect(db, Raised(NotAuthenticated)))
      && (IsAuthenticated(actor) && !actor.value.isSuperuser && UserBlog(db, actor.value.id).Some? ==>
            e == Effect(db, Rejected([BlogUserHasBlog])))
      && (IsAuthenticated(actor) && UserBlog(db, actor.value.id).None? && !TextFieldOk(title, MaxBlogTitle) ==>
            e == Effect(db, Rejected([FieldInvalid(TitleField)])))
      && ((IsAuthenticated(actor) && actor.value.isSuperuser && UserBlog(db, actor.value.id).Some?
           && TextFieldOk(title, MaxBlogTitle)) ==> e == Effect(db, Raised(IntegrityError)))
      && (IsAuthenticated(actor) && UserBlog(db, actor.value.id).None? && TextFieldOk(title, MaxBlogTitle) ==>
            e.out == Done(db.nextId))
  {
  }

  /** A missing or empty description is stored as the default one. */
  lemma {:induction false} CreateBlogDefaultDescription(db: Db, actor: Option<User>, title: string, description: Option<string>)
    requires description.None? || description.value == []
    requires CreateBlogSpec(db, actor, title, description).out.Done?
    ensures var e := CreateBlogSpec(db, actor, title, description);
      e.db.blogs[e.out.id].description == DefaultBlogDescription
  {
    CreateBlogDone(db, actor, title, description);
    var e := CreateBlogSpec(db, actor, title, description);
    assert e.db.blogs[e.out.id] == NewBlog(actor.value.id, title, description);
    assert DescriptionOrDefault(description) == DefaultBlogDescription;
    DefaultDescriptionTrimmed();
  }

  /** The default description has no surrounding white space to strip. */
  lemma DefaultDescriptionTrimmed()
    ensures Trim(DefaultBlogDescription) == DefaultBlogDescription
  {
    assert DefaultBlogDescription[0] == 'B' && DefaultBlogDescription[|DefaultBlogDescription| - 1] == 'g';
    TrimOfTrimmed(DefaultBlogDescription);
  }

  /** `CreateBlog.mutate` on the store. */
  method CreateBlog(store: Store, actor: Option<User>, title: string, description: Option<string>) returns (r: Reply)
    requires store.Valid()
    modifies store
    ensures store.Valid()
    ensures Effect(store.Snapshot(), r) == CreateBlogSpec(old(store.Snapshot()), actor, title, description)
  {
    CreateBlogOutcome(store.Snapshot(), actor, title, description);
    var checked := CheckUserAuthenticated(actor);
    if checked.Err? {
      return Raised(checked.error);
    }
    var u := checked.value;
    var hasBlog := exists b | b in store.blogs :: store.blogs[b].user == u.id;
    if hasBlog {
      ghost var b :| b in store.blogs && store.blogs[b].user == u.id;
      assert BlogOwnedBy(store.Snapshot(), b, u.id);
    }
    if !u.isSuperuser && hasBlog {
      return Rejected([BlogUserHasBlog]);
    }
    var errors := BlogFieldErrors(title);
    if errors != [] {
      return Rejected(errors);
    }
    if hasBlog {
      return Raised(IntegrityError);
    }
    var id := store.InsertBlog(NewBlog(u.id, title, description));
    r := Done(id);
  }
}
