# Blog ownership and authorization, in Dafny

This project models the ownership and authorization core of a small
multi-user blog backend built on Django. It has a REST surface of view sets
and a GraphQL surface of queries and mutations. Users carry three flags:
authenticated, superuser and staff. Each user has at most one Blog. Each
Post belongs to one Blog. Each Tag belongs to one Blog and holds a set of
Posts.

The model covers:

- the constraints of the three tables;
- the ownership predicates and the three permission policies;
- the list filters of both surfaces;
- every create, update and delete handler, together with the helpers they call.

How the model is built:

- The three tables and the id counter form a `Db` value (`Models`). The
  object-relational layer is the `Database.Store` class. Its fields are the
  tables, and each of its methods performs one write.
- Each handler is written twice:
  - a specification function on `Db`, returning an `Effect` (the new tables
    and a `Reply`);
  - a method on the `Store`, proved to agree with that function.
- The properties are lemmas about the specification functions. Each
  outcome lemma states that the tables stay consistent (`Models.Valid`).
- `Reply` has three cases:
  - `Done(id)`: a payload carrying the object;
  - `Rejected(errors)`: a payload carrying only errors;
  - `Raised(e)`: an exception that escapes the resolver or view.
- Ownership of an object is decided on an explicit `Resource` datatype, in
  place of probing objects for attributes:
  - a Blog has a user and (reverse) posts;
  - a Post has a blog;
  - a Tag has a blog and posts.

There are two helper modules:

- `BlogHelpers` (`blog_app/utils/helpers.py`) scopes tags to a blog. The
  GraphQL mutations use it.
- `LegacyHelpers` (`blog_app/helpers.py`, repeated in `blog_app/api.py`)
  provisions a blog on first use and looks tags up by name across all
  blogs. The global lookup cannot work (see Findings). The REST tag
  creation is modelled twice: as written (`Api.FileTagAsWritten`), and
  corrected, with the blog-scoped find-or-create in the actor's provisioned
  blog (`Api.FileTag`, `Api.CreateTagSpec`).

Creation order is an id counter shared by all tables; a post's creation
stamp is the id it receives. The database is assumed to enforce the widths
of character columns (`ValueTooLong`) and the unique and not-null
constraints (`IntegrityError`). No request is atomic: a write made before a
later step raises is kept.

## Model

| member | source | states |
|---|---|---|
| Constants.AutoBlogTitle | blog/blog_app/constants.py:15 | the automatic blog title is "Blog de " followed by the username, 8 characters longer than it |
| Text.TrimStartSkipsSpace | blog/blog_app/utils/helpers.py:34 | the leading part `strip()` drops is all white space |
| Text.TrimEndSkipsSpace | blog/blog_app/utils/helpers.py:34 | the trailing part `strip()` drops is all white space |
| Text.TrimRemovesOnlyOuterSpace | blog/blog_app/utils/helpers.py:34 | `strip()` returns the run of the text between its leading and trailing white space, character for character, with only white space before and after it in the text |
| Text.Lower | blog/blog_app/utils/helpers.py:34 | `lower()` keeps the length, leaves no capital letter, and each character agrees with the input's up to case |
| Text.NormalizeIsStrippedLowerCase | blog/blog_app/utils/helpers.py:34 | the normalised name is the stripped name up to letter case, with no capital letter and no outer white space |
| Text.NormalizeIgnoresCase | blog/blog_app/utils/helpers.py:34 | names that differ only in letter case normalise alike |
| Text.TrimAppendSpace | blog/blog_app/utils/helpers.py:34 | white space added at the end is stripped with the rest |
| Text.NormalizeIgnoresOuterSpace | blog/blog_app/utils/helpers.py:34 | names that differ only in added leading or trailing white space normalise alike |
| Text.TrimOfTrimmed | blog/blog_app/utils/helpers.py:34 | stripping text that has no outer white space changes nothing |
| Text.LowerTwice | blog/blog_app/utils/helpers.py:34 | lower-casing is idempotent |
| Text.NormalizeIdempotent | blog/blog_app/utils/helpers.py:34 | normalising a normalised name changes nothing, so names compare by their normal form |
| Text.NormalizeExample | blog/blog_app/utils/helpers.py:34 | "Django " and "django" normalise to the same name, "django" |
| Models.UserBlog | blog/blog_app/models.py:7 | the reverse side of the one-to-one link gives a blog owned by the user, or none exists |
| Models.UserBlogUnique | blog/blog_app/models.py:7 | under the one-to-one constraint, a blog the user owns is the user's blog |
| Models.AddBlogValid | blog/blog_app/models.py:6-9 | inserting a blog for a user without one, with a title within 100, keeps every constraint |
| Models.AddPostValid | blog/blog_app/models.py:16-19 | inserting a post into an existing blog, with a title within 150, keeps every constraint |
| Models.AddPostRow | blog/blog_app/models.py:16-21 | creating a post adds exactly one row, under the next id and stamped with it, and keeps every other row |
| Models.PutPostValid | blog/blog_app/models.py:16-19 | saving a post that stays in an existing blog with a title within 150 keeps every constraint |
| Models.AddTagValid | blog/blog_app/models.py:32-46 | inserting a tag whose blog and posts exist, whose name fits and is new in its blog keeps every constraint |
| Models.PutTagValid | blog/blog_app/models.py:32-46 | saving a tag under the same conditions keeps every constraint |
| Models.RemovePostValid | blog/blog_app/models.py:41 | deleting a post with its tag links keeps every constraint |
| Models.RemoveTagValid | blog/blog_app/models.py:41 | deleting a tag keeps every constraint |
| Models.SetPostTagsValid | blog/blog_app/models.py:41 | replacing the tags of an existing post keeps every constraint |
| Models.SetPostTagsEffect | blog/blog_app/models.py:41 | after `post.tags.set(ts)` the post's tags, read as the tags whose post set holds it, are exactly the existing tags in `ts`; every other post keeps its tags |
| Models.DeleteBlogsCascade | blog/blog_app/models.py:17-37 | deleting blogs removes exactly their posts and tags, keeps every row of other blogs, strips only links to removed posts, and keeps every constraint |
| Models.DeleteBlogsRows | blog/blog_app/models.py:17-37 | the rows left by deleting blogs: none of a deleted blog, every row of the other blogs unchanged, and surviving tags stripped only of links to deleted posts |
| Models.DeleteUserRemovesBlog | blog/blog_app/models.py:7 | deleting a user leaves the user no blog and keeps every other user's blog |
| Models.SameNameInTwoBlogs | blog/blog_app/models.py:43-46 | the uniqueness is per (blog, name): two blogs may each have a tag "django" |
| Models.NewestFirst | blog/blog_app/models.py:24-25 | the default order lists exactly the given posts, each once, newest created first |
| Models.PrependNewest | blog/blog_app/models.py:24-25 | the newest post followed by the others, listed newest first, lists all of them newest first, each once |
| Models.NewestFirstHead | blog/blog_app/models.py:24-25 | a post created after all the others heads the default order |
| Models.BlogTitleJudgedStripped | blog/blog_app/models.py:8 | the blog serializer accepts a title exactly when the stripped title is non-blank and within 100, and stripping it beforehand changes no verdict |
| Models.PostFieldErrors | blog/blog_app/models.py:18-19 | the post serializer accepts exactly a non-blank title within 150 and non-blank content; every error is a field error; the title is named exactly when it is blank or too long, the content exactly when it is blank |
| Models.PostFieldsJudgedStripped | blog/blog_app/models.py:18-19 | stripping title and content beforehand changes none of the post serializer's errors |
| Models.TagNameJudgedStripped | blog/blog_app/models.py:38-40 | the tag serializer accepts a name exactly when the stripped name is non-blank and within 50, and stripping it beforehand changes no verdict |
| AuthHelpers.CheckUserAuthenticated | blog/auth_app/utils/helpers.py:41-45 | fails with the not-authenticated error exactly for a missing or anonymous user, and otherwise returns that same user |
| AuthHelpers.IsOwnerDirect | blog/auth_app/utils/helpers.py:26-27 | an object with a user is owned exactly by that user |
| AuthHelpers.IsOwnerThroughBlog | blog/auth_app/utils/helpers.py:28-29 | without a user, an object with a blog is owned exactly by the blog's owner |
| AuthHelpers.IsOwnerNeither | blog/auth_app/utils/helpers.py:30 | an object with neither is owned by nobody |
| AuthHelpers.IsOwnerByKind | blog/auth_app/utils/helpers.py:24-30 | a blog is owned by its user, a post and a tag by their blog's owner (the user branch comes first), anything else by nobody |
| AuthHelpers.IsOwnerOfAnyPostByKind | blog/auth_app/utils/helpers.py:33-37 | a tag passes exactly when one of its posts is the user's, a blog when it is the user's and has a post; a post has no post collection and never passes |
| AuthHelpers.ModelPermissions | blog/auth_app/utils/helpers.py:71-75 | the codenames listed for a model are exactly its view, add, change and delete permissions |
| AuthHelpers.GrantedFor | blog/auth_app/utils/helpers.py:78-83 | after the loop has walked the first n models, exactly their permissions are granted |
| AuthHelpers.AdminGrant | blog/auth_app/utils/helpers.py:71-83 | the grant holds exactly the permissions on Blog, Post and Tag, and none on another application's model |
| AuthHelpers.AdminPermissions | blog/auth_app/utils/helpers.py:63-83 | a non-staff user is refused and nothing is granted; a staff user's permissions grow by exactly the admin grant |
| AuthHelpers.AdminGrantTwice | blog/auth_app/utils/helpers.py:78-83 | the grant only adds: every permission held before is kept, those on other applications' models are exactly the ones held before, and a second grant changes nothing |
| AuthHelpers.AdminGrantKeepsOtherApps | blog/auth_app/utils/helpers.py:83 | a user holding `view_user` keeps it after the grant and gains `view_blog`, so `add` is not an overwrite |
| Permissions.CoarseCheckIsAuthentication | blog/auth_app/permissions.py:10-41 | the coarse check of each of the three policies is exactly "a user is present and authenticated" |
| Permissions.OwnerOrAdminDecision | blog/auth_app/permissions.py:13-15 | IsOwnerOrAdmin allows an object exactly for a superuser or its owner |
| Permissions.BlogOwnerOrAdminSuperuser | blog/auth_app/permissions.py:27-28 | IsBlogOwnerOrAdmin allows a superuser on every object |
| Permissions.BlogOwnerOrAdminBranches | blog/auth_app/permissions.py:29-33 | for anyone else it defers to ownership when the object has a blog, else to any-post ownership when it has posts, else denies |
| Permissions.BlogOwnerOrAdminOnTag | blog/auth_app/permissions.py:29-30 | on a tag, which has a blog, the blog branch decides: the tag's posts play no part |
| Permissions.BlogOwnerOrAdminOnBlog | blog/auth_app/permissions.py:31-32 | on a blog, which has posts but no blog, a non-superuser passes exactly when the blog is theirs and has a post |
| Permissions.ReadOnlyOwnerMatchesOwnerOrAdmin | blog/auth_app/permissions.py:43-47 | IsAuthenticatedOrReadOnlyOwner decides every object as IsOwnerOrAdmin does |
| Permissions.SuperuserMonotone | blog/auth_app/permissions.py:13-47 | making the actor a superuser never turns an allow into a deny, under any policy |
| BlogHelpers.GetUserBlog | blog/blog_app/utils/helpers.py:13-17 | returns a blog the user owns, or the "create a blog first" error when the user owns none |
| BlogHelpers.ValidatePostsForUser | blog/blog_app/utils/helpers.py:20-29 | an empty id list fails with "at least one post"; any other failure is "posts not found" |
| BlogHelpers.ValidatePostsForIds | blog/blog_app/utils/helpers.py:20-29 | with the rows of the ids, the check passes exactly when there is an id, none repeats, and each names an existing post that is the user's unless the user is a superuser |
| BlogHelpers.ValidateTagPosts | blog/blog_app/utils/helpers.py:20-29 | run on a tag's own posts, it passes exactly when the tag has posts and, for a non-superuser, all are the user's |
| BlogHelpers.FindTag | blog/blog_app/utils/helpers.py:35 | finds a tag of the blog with that name, or reports that none exists |
| BlogHelpers.FindTagUnique | blog/blog_app/models.py:43-46 | under the unique constraint, the tag found is the one with that blog and name |
| BlogHelpers.GetOrCreateTagOutcome | blog/blog_app/utils/helpers.py:32-36 | returns the blog's tag under the normalised name; an existing one writes nothing, otherwise exactly one empty tag is added; a name over 50 is refused without writing |
| BlogHelpers.GetOrCreateTagRows | blog/blog_app/utils/helpers.py:32-36 | with a name that fits, find-or-create returns the blog's tag under the normalised name, an existing one as it was or a new one without posts, and keeps every other tag |
| BlogHelpers.GetOrCreateTagIdempotent | blog/blog_app/utils/helpers.py:32-36 | a second call with a name of the same normal form returns the same tag and adds no row |
| BlogHelpers.GetOrCreateTag | blog/blog_app/utils/helpers.py:32-36 | on the store: does what the find-or-create specification says |
| LegacyHelpers.ProvisionBlogFrame | blog/blog_app/helpers.py:14-23 | provisioning writes only the blog table, returns a blog of the user, and writes nothing when it fails |
| LegacyHelpers.ProvisionBlogOutcome | blog/blog_app/helpers.py:14-23 | an existing blog is returned untouched; otherwise exactly one blog, owned by the user, titled "Blog de {username}", with the automatic description, is added and becomes the user's |
| LegacyHelpers.ProvisionBlogTwice | blog/blog_app/helpers.py:16-22 | provisioning twice returns the same blog and the second call writes nothing |
| LegacyHelpers.GetUserBlog | blog/blog_app/helpers.py:14-23 | on the store: does what the provisioning specification says |
| LegacyHelpers.FirstNotOwned | blog/blog_app/helpers.py:28-29 | gives the position of the first post the user does not own, with every earlier post owned, or reports that all are owned |
| LegacyHelpers.OwnsPostsVerdict | blog/blog_app/helpers.py:26-30 | passes exactly for a superuser or when every post is the user's (an empty list passes); a refusal names the first unowned post, in order |
| LegacyHelpers.ValidateUserOwnsPosts | blog/blog_app/helpers.py:26-30 | the loop returns the verdict above, stopping at the first post the actor may not use; it takes the tables as a value, so that it writes nothing holds by construction |
| LegacyHelpers.FirstNotOwnedAt | blog/blog_app/helpers.py:28-30 | the loop's first offender is the position the specification names |
| LegacyHelpers.FirstTagNamed | blog/blog_app/helpers.py:36 | `.first()` gives the tag with the smallest id among those named so, in any blog, or none |
| LegacyHelpers.TagByNameNeverCreates | blog/blog_app/helpers.py:33-39 | the global lookup never writes: it returns the first tag with the normalised name, whatever its blog, or fails |
| LegacyHelpers.TagByNameCrossesBlogs | blog/blog_app/helpers.py:33-39 | a user asking for "Django " receives a tag of another user's blog |
| Api.BlogListing | blog/blog_app/api.py:61-65 | a superuser lists the whole table; anyone else lists their one blog or nothing |
| Api.PostQueryset | blog/blog_app/api.py:85-90 | the listing holds those posts, each once, newest first |
| Api.PostsFollowBlogs | blog/blog_app/api.py:85-90 | the posts a user lists are exactly the posts of the blogs that user lists |
| Api.TagQueryset | blog/blog_app/api.py:112-118 | the tag listing lies within the table |
| Api.TagListing | blog/blog_app/api.py:112-118 | a superuser lists every tag; anyone else lists exactly the tags with a post of theirs, so a tag without posts is hidden even from its owner |
| Api.CreateBlogRest | blog/blog_app/api.py:67-69 | creating a blog over REST always fails: not authenticated exactly when the coarse check fails, otherwise "a blog already exists" |
| Api.FilePostValid | blog/blog_app/api.py:92-96 | filing a post keeps every constraint, never touches tags, and writes nothing when it fails |
| Api.FilePostBlogs | blog/blog_app/api.py:92-96 | filing adds a blog exactly when the user had none |
| Api.FilePostCreates | blog/blog_app/api.py:92-96 | a filed post is one new row in the user's blog with the trimmed fields; every other post is kept |
| Api.CreatePostOutcome | blog/blog_app/api.py:92-96 | an anonymous actor is refused and invalid fields are rejected, both without writing; otherwise the post is filed |
| Api.CreatedPostListedFirst | blog/blog_app/api.py:92-96 | the post just created heads the actor's listing |
| Api.CreatePost | blog/blog_app/api.py:92-96 | on the store: does what the post creation specification says |
| Api.LinkTagSteps | blog/blog_app/api.py:130-132 | linking is find-or-create followed by adding the posts to the stored tag it returns; a failed find-or-create adds nothing |
| Api.AddTagPostsRows | blog/blog_app/api.py:132 | `tag.posts.add` changes only that tag's post set, to its old posts plus the new ones |
| Api.AddTagPostsValid | blog/blog_app/api.py:132 | adding existing posts to a tag keeps every constraint |
| Api.LinkTagRows | blog/blog_app/api.py:130-132 | with a name that fits, linking succeeds: the blog's tag under the normalised name ends with its old posts plus the given ones, and no other tag, post or blog changes |
| Api.LinkTagValid | blog/blog_app/api.py:130-132 | linking existing posts keeps every constraint |
| Api.LinkTagOutcome | blog/blog_app/api.py:130-132 | the blog's tag under the normalised name gains the given posts, with none removed, and no other tag changes |
| Api.CreateTagRefusesForeignPosts | blog/blog_app/api.py:128 | a non-superuser naming any post that is not theirs is refused, naming a post, before any tag is found or created |
| Api.FileTagAsWrittenOutcome | blog/blog_app/api.py:120-134 | as written, filing never creates a tag: the posts are added to the first tag of the normalised name in any blog, or the request fails writing nothing when no tag has that name |
| Api.FileTagAsWrittenCrossesBlogs | blog/blog_app/api.py:128-132 | as written, a user tagging their own post adds it to a tag of another user's blog |
| Api.FileTagOutcome | blog/blog_app/api.py:120-134 | the tag lies in the actor's blog under the normalised name and ends with its old posts plus the given ones |
| Api.CreateTagOutcome | blog/blog_app/api.py:120-134 | anonymous, unknown-post and foreign-post requests are refused without writing; a valid one files the tag |
| Api.CreateTag | blog/blog_app/api.py:120-134 | on the store: does what the tag creation specification says |
| Api.FileTagOn | blog/blog_app/api.py:120-134 | on the store: does what the filing specification says |
| Queries.ResolveAllBlogs | blog/blog_app/schema/queries.py:13-17 | refuses exactly the anonymous actor, with the not-authenticated error |
| Queries.ResolveAllPosts | blog/blog_app/schema/queries.py:19-23 | refuses exactly the anonymous actor, with the not-authenticated error |
| Queries.ResolveAllTags | blog/blog_app/schema/queries.py:25-29 | refuses exactly the anonymous actor, with the not-authenticated error |
| Queries.SuperuserSeesAll | blog/blog_app/schema/queries.py:15-28 | a superuser receives the whole blog, post and tag tables |
| Queries.OthersSeeTheirOwn | blog/blog_app/schema/queries.py:17-29 | anyone else receives at most their one blog, exactly the posts of their blog, and exactly the tags holding one of those posts, each within its table |
| BlogMutations.CreateBlogOutcome | blog/blog_app/schema/mutations/blog_mutations.py:22-38 | a success adds exactly one blog, owned by the actor, with the trimmed fields, and it becomes the actor's only blog; a refusal writes nothing |
| BlogMutations.CreateBlogDone | blog/blog_app/schema/mutations/blog_mutations.py:22-38 | a creation succeeds only for an authenticated actor without a blog and with a valid title, and then inserts the trimmed blog under the next id |
| BlogMutations.CreateBlogRefusals | blog/blog_app/schema/mutations/blog_mutations.py:23-43 | the anonymous actor is refused; a non-superuser with a blog gets "already has a blog"; an invalid title gets the field error; a superuser with a blog is stopped by the one-to-one constraint; a valid request without a blog succeeds |
| BlogMutations.CreateBlogDefaultDescription | blog/blog_app/schema/mutations/blog_mutations.py:31 | a missing or empty description is stored as "Blog" |
| BlogMutations.DefaultDescriptionTrimmed | blog/blog_app/schema/mutations/blog_mutations.py:31 | the default description "Blog" is unchanged by trimming |
| BlogMutations.CreateBlog | blog/blog_app/schema/mutations/blog_mutations.py:22-43 | on the store: does what the blog creation specification says |
| PostMutations.FileNewPostRows | blog/blog_app/schema/mutations/post_mutations.py:35-42 | the new post is one new row under the next id, and its tags are exactly the existing tags among the ids given |
| PostMutations.FileNewPostValid | blog/blog_app/schema/mutations/post_mutations.py:35-42 | filing it keeps every constraint |
| PostMutations.CreatePostNeedsBlog | blog/blog_app/schema/mutations/post_mutations.py:25-28 | an actor without a blog is told to create one and nothing is written |
| PostMutations.CreatePostOutcome | blog/blog_app/schema/mutations/post_mutations.py:21-44 | a created post is a new row in the actor's blog with the trimmed fields, tagged with exactly the existing requested tags; no blog changes; a refusal writes nothing |
| PostMutations.CreatePost | blog/blog_app/schema/mutations/post_mutations.py:21-47 | on the store: does what the post creation specification says |
| PostMutations.CheckPostOwner | blog/blog_app/schema/mutations/post_mutations.py:69 | the ownership check passes exactly for an existing post that is the actor's, or any existing post when the actor is a superuser |
| PostMutations.SaveEditsRows | blog/blog_app/schema/mutations/post_mutations.py:76-83 | saving rewrites only the post's title and content, keeping its blog and creation stamp, and its tags only when ids are given; other posts keep their rows and tags |
| PostMutations.SaveEditsValid | blog/blog_app/schema/mutations/post_mutations.py:76-83 | saving keeps every constraint |
| PostMutations.UpdatePostRefusals | blog/blog_app/schema/mutations/post_mutations.py:60-69 | the anonymous actor is refused; an unknown id gets "post not found"; a non-owner non-superuser is refused; none of them writes anything |
| PostMutations.UpdatePostOutcome | blog/blog_app/schema/mutations/post_mutations.py:60-88 | the post keeps its blog and stamp and stores the given or old title and content, trimmed; its tags become the existing requested tags only when ids are given |
| PostMutations.UpdatePost | blog/blog_app/schema/mutations/post_mutations.py:60-88 | on the store: does what the post update specification says |
| PostMutations.DeletePostOutcome | blog/blog_app/schema/mutations/post_mutations.py:98-110 | succeeds exactly for the owner of an existing post, or a superuser; removes exactly that post and its tag links; an unknown id gets "post not found" |
| PostMutations.DeletePost | blog/blog_app/schema/mutations/post_mutations.py:98-110 | on the store: does what the post deletion specification says |
| TagMutations.CheckRequestedPosts | blog/blog_app/schema/mutations/tag_mutations.py:33-34 | the requested ids pass exactly when there is one, none repeats, and each names an existing post that is the actor's unless the actor is a superuser; an empty list fails with "at least one post", any other failure is "posts not found" |
| TagMutations.CheckTagPosts | blog/blog_app/schema/mutations/tag_mutations.py:61 | a tag's own posts pass exactly when there is one and all are the actor's, unless the actor is a superuser |
| TagMutations.SetTagPostsValid | blog/blog_app/schema/mutations/tag_mutations.py:38 | replacing a tag's posts with existing posts keeps every constraint |
| TagMutations.FillTagOutcome | blog/blog_app/schema/mutations/tag_mutations.py:37-38 | the blog's tag under the normalised name ends with exactly the requested existing posts; no other tag changes |
| TagMutations.GetOrCreateTagKeepsOthers | blog/blog_app/utils/helpers.py:32-36 | find-or-create changes no tag but the one it returns |
| TagMutations.CreateTagSteps | blog/blog_app/schema/mutations/tag_mutations.py:23-38 | an authenticated actor with a blog and acceptable posts reaches the find-or-create and the post assignment; every other request writes nothing and does not succeed |
| TagMutations.FillTagAgain | blog/blog_app/schema/mutations/tag_mutations.py:37-38 | filling the blog's tag that already holds exactly the requested existing posts finds it and writes nothing |
| TagMutations.SetTagPostsUnchanged | blog/blog_app/schema/mutations/tag_mutations.py:38 | setting a tag's posts to the ones it holds writes nothing |
| TagMutations.CreateTagRefusals | blog/blog_app/schema/mutations/tag_mutations.py:23-34 | the anonymous actor, an actor without a blog, an empty list and a foreign post are each refused before any tag is found or created, writing nothing |
| TagMutations.CreateTagOutcome | blog/blog_app/schema/mutations/tag_mutations.py:23-40 | a created tag is in the actor's blog under the normalised name and holds exactly the requested posts, all usable by the actor |
| TagMutations.CreateTagTwice | blog/blog_app/schema/mutations/tag_mutations.py:37-38 | repeating a successful creation returns the same tag and leaves the tables unchanged |
| TagMutations.CreateTag | blog/blog_app/schema/mutations/tag_mutations.py:23-40 | on the store: does what the tag creation specification says |
| TagMutations.FillTagOn | blog/blog_app/schema/mutations/tag_mutations.py:37-40 | on the store: does what the tag filling specification says |
| TagMutations.RenameTagOutcome | blog/blog_app/schema/mutations/tag_mutations.py:63-65 | a rename stores the name as given, not normalised, or is refused (too long, or taken in the blog) without writing |
| TagMutations.RenameStepRows | blog/blog_app/schema/mutations/tag_mutations.py:63-65 | a non-empty name replaces only the tag's name, an absent or empty one leaves the tables alone, and a refused rename writes nothing |
| TagMutations.RenameStepValid | blog/blog_app/schema/mutations/tag_mutations.py:63-65 | the rename step keeps every constraint |
| TagMutations.AssignPostsOutcome | blog/blog_app/schema/mutations/tag_mutations.py:67-70 | the post set changes only when ids are given, and then to exactly the requested posts once they pass the check |
| TagMutations.AssignPostsRows | blog/blog_app/schema/mutations/tag_mutations.py:67-70 | assigning changes only the tag's post set, to exactly the requested posts, and a refused list writes nothing |
| TagMutations.UpdateTagSteps | blog/blog_app/schema/mutations/tag_mutations.py:52-72 | past the authentication, existence and own-posts checks comes the rename, then, after a successful rename, the post assignment; a refused rename raises without writing; a refusal at the gate writes nothing |
| TagMutations.UpdateTagGate | blog/blog_app/schema/mutations/tag_mutations.py:52-61 | anonymous and unknown-id requests are refused; a tag without posts can never be updated; a success needs the tag's posts to be usable by the actor |
| TagMutations.UpdateTagValid | blog/blog_app/schema/mutations/tag_mutations.py:52-72 | an update keeps every constraint |
| TagMutations.UpdateTagFrame | blog/blog_app/schema/mutations/tag_mutations.py:52-72 | an update changes no other tag, no post and no blog; "tag not found" writes nothing |
| TagMutations.UpdateTagOutcome | blog/blog_app/schema/mutations/tag_mutations.py:63-72 | the tag keeps its blog; the name changes only for a non-empty name; the posts change only when ids are given |
| TagMutations.UpdateTagRaisedWrites | blog/blog_app/schema/mutations/tag_mutations.py:60-72 | the only raised update that writes is a valid rename followed by a refused post list |
| TagMutations.UpdateTagKeepsRenameOnRefusal | blog/blog_app/schema/mutations/tag_mutations.py:63-70 | after such a refusal the tag stays renamed although the actor is told the update failed |
| TagMutations.UpdateTag | blog/blog_app/schema/mutations/tag_mutations.py:52-72 | on the store: does what the tag update specification says |
| TagMutations.RenameTagOn | blog/blog_app/schema/mutations/tag_mutations.py:63-65 | on the store: does what the rename specification says |
| TagMutations.AssignPostsOn | blog/blog_app/schema/mutations/tag_mutations.py:67-70 | on the store: does what the assignment specification says |
| TagMutations.DeleteTagOutcome | blog/blog_app/schema/mutations/tag_mutations.py:82-93 | succeeds exactly on an existing tag with posts, all usable by the actor; removes that tag alone; an unknown id gets "tag not found" |
| TagMutations.DeleteTag | blog/blog_app/schema/mutations/tag_mutations.py:82-93 | on the store: does what the tag deletion specification says |

## Left out

- Seven call sites pass two arguments to the three-parameter
  `validate_posts_for_user`, which would raise a `TypeError`. They are
  `tag_mutations.py:34`, `:61`, `:69` and `:90`, and `post_mutations.py:41`,
  `:69` and `:107`. Each is modelled by its evident intent. Requested ids are
  passed with their rows. An existing tag's check is run on its own posts.
  UpdatePost and DeletePost check the one post id.
- `CreatePost.mutate` filters Post rows by `tag_ids` and sets them as the
  new post's tags (`post_mutations.py:40-42`). This is modelled by intent:
  the ids are Tag ids, and the post joins the existing tags among them. The
  as-written check at `post_mutations.py:41` runs on the Post rows whose ids
  equal the given tag ids, which never include the new post. The model
  drops that check: a new post may join any existing tag, including a tag of
  another user's blog, as UpdatePost's unchecked
  `Tag.objects.filter(id__in=tag_ids)` at `post_mutations.py:82-83` allows.
- `blog_app/utils/helpers.py:8` imports `ERROR_TAG_NOT_FOUND_POSTS_IDS`,
  but `blog_app/utils/constants.py` defines `ERROR_TAG_POSTS_NOT_FOUND`.
  The model uses the latter's error, `TagPostsNotFound`.
- Some imports name things missing from the modelled files:
  - `blog_mutations.py:1`, `post_mutations.py:1`, `tag_mutations.py:1`,
    `blog/blog_app/helpers.py:1` and `blog/auth_app/permissions.py:3`
    (`from .helpers import ...`) import `auth_app.helpers`, which is not
    part of this model; `blog/auth_app/utils/helpers.py` stands in for it
    in all five.
  - `schema/mutations/__init__.py:3` imports an `UpdateBlog` that is not
    defined anywhere.
- `CreateBlog.mutate`'s error path passes an undeclared `success_message`
  argument (`blog_mutations.py:41-43`). This is modelled as the intended
  payload with field errors (`Rejected`).
- DeleteTag's literal "Tag no encontrado" and the constant "Tag no
  encontrado." are the same error tag in the model, because message texts
  are not modelled.
- Message texts, and the "field: message" formatting of serializer errors,
  are not modelled. Errors are tags, and `PostNotOwned` carries the post
  title.
- Users are not modelled in depth: only their id, username and three flags.
  Left out are `create_user`, password hashing, registration, JWT tokens,
  the admin site, `__str__` and the image and `updated_at` fields.
- Timestamps become a shared id counter. Two posts created at the same
  instant cannot tie.
- Concurrency is not modelled, including the check-then-insert race in
  `get_or_create`. Each request runs alone.
- Text handling covers only ASCII. White space is the ten ASCII characters
  `str.isspace()` accepts (codes 9-13, 28-31 and 32), and lower-casing maps
  only `A`–`Z`. Unicode `strip`/`lower` is not modelled.
- Serializer validation is not modelled beyond the field checks the
  handlers rely on: required, not blank after trimming, and column width.
- Which database engine runs is not part of the source. The model assumes
  one that refuses over-long values, which SQLite would store.
- Api.FileTag, Api.CreateTagSpec: these model a corrected REST tag
  creation that differs from `api.py:120-134` in two ways. The tag is found
  or created within one blog, in place of the global lookup by name. That
  blog is the actor's, provisioned on first use as `get_user_blog` does,
  although `perform_create` never calls `get_user_blog`; the provisioning is
  the model's addition, needed because every tag belongs to a blog. The
  as-written flow is `Api.FileTagAsWritten` (see Findings).
- Trim: its own contract states only that the result has no outer white
  space and is no longer than the input. That only outer white space is
  removed is stated by Text.TrimRemovesOnlyOuterSpace, kept apart because
  every caller of the function would otherwise carry it.
- Normalize: its own contract states only that the result has no outer
  white space and is no longer than the input. That it is the stripped name
  in lower case is stated by Text.NormalizeIsStrippedLowerCase, kept apart
  for the same reason.
- Api.TagQueryset: its own contract states only that the listing lies
  within the table. The membership property is stated by Api.TagListing.
- Queries.ResolveAllBlogs, Queries.ResolveAllPosts and
  Queries.ResolveAllTags: their own contracts state only the
  authentication gate. What each lists is stated by Queries.SuperuserSeesAll
  and Queries.OthersSeeTheirOwn.

## Findings

| source | as written | input that shows it | evidently intended | confidence | as-written member | corrected member |
|---|---|---|---|---|---|---|
| blog/blog_app/api.py:120-134 | the REST tag creation adds the posts to the first tag of that name in any blog, and fails when no tag has the name | user 1 owns blog 0 with post 3 and user 2 owns blog 1, which has tag 2 "django"; user 1 creates tag "Django " with post 3, and post 3 is added to tag 2 of user 2's blog | file the tag in the actor's own blog under the normalised name, creating it there when missing | not executed | Api.FileTagAsWrittenCrossesBlogs | Api.FileTagOutcome |
| blog/blog_app/helpers.py:33-39 | the tag is looked up by name across every blog, and created without a blog | user 1 owns blog 0 and user 2 owns blog 1, which has tag 2 "django"; user 1 asks for "Django " and receives tag 2 of user 2's blog; with no tag named so, `Tag.objects.create(name=...)` violates the required blog foreign key | find or create the tag in the actor's own blog under the normalised name, as the unique (blog, name) constraint implies | not executed | LegacyHelpers.TagByNameCrossesBlogs | BlogHelpers.GetOrCreateTagOutcome |
