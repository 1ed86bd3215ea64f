/** Error tags, reply shapes and default values shared by the REST and
    GraphQL surfaces. The message literals of the constants files are
    modelled as opaque tags: only which error is reported matters. */
module Constants {

  /** Which serializer field a validation error is about. */
  datatype Field = TitleField | ContentField | NameField | PostsField

  datatype Error =
    | NotAuthenticated        // "must log in to use GraphQL"
    | OnlyStaffCanHaveAdmin   // admin permissions for a non-staff user
    | BlogUserHasBlog         // the actor already has a blog (GraphQL)
    | BlogAlreadyExists       // manual blog creation over REST
    | NeedCreateBlog          // the actor has no blog yet
    | PostIsRequired          // an empty list of post ids
    | TagPostsNotFound        // some ids do not resolve to (owned) posts
    | PostNotOwned(title: string)  // names the first post the actor does not own
    | PostNotFound
    | TagNotFound
    | FieldInvalid(field: Field)   // a serializer field error
    | IntegrityError          // a unique or not-null constraint of the database
    | ValueTooLong            // a value longer than its column allows

  datatype Option<+T> = None | Some(value: T)

  /** The outcome of a read-only helper: a value, or the exception it raises. */
  datatype Result<+T> = Ok(value: T) | Err(error: Error)

  /** The outcome of a mutation. `Done(id)` is a payload carrying the object
      (or `ok = true`) with no errors, `Rejected(es)` a payload without the
      object (or `ok = false`) listing the errors, and `Raised(e)` an exception
      that escapes the resolver. */
  datatype Reply = Done(id: nat) | Rejected(errors: seq<Error>) | Raised(error: Error)

  /** Description given by the GraphQL blog creation when none is supplied. */
  const DefaultBlogDescription: string := "Blog"

  /** Description of a blog provisioned automatically on first use. */
  const AutoBlogDescription: string := "Blog creado automáticamente."

  /** Title of a blog provisioned automatically on first use. */
  function AutoBlogTitle(username: string): (r: string)
    ensures |r| == 8 + |username| && r[..8] == "Blog de " && r[8..] == username
  {
    "Blog de " + username
  }
}
