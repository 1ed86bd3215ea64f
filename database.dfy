/** The relational store behind `Blog.objects`, `Post.objects` and
    `Tag.objects`: three tables held as maps from ids to rows, and the counter
    that issues ids. Each method is one write of the object-relational
    mapper, and says what the tables are afterwards in terms of the row
    operations of `Models`. */
module Database {
  import opened Models

  class Store {
    var blogs: map<BlogId, Blog>
    var posts: map<PostId, Post>
    var tags: map<TagId, Tag>
    var nextId: nat

    /** The tables as a value. */
    function Snapshot(): Db
      reads this
    {
      Db(blogs, posts, tags, nextId)
    }

    ghost predicate Valid()
      reads this
    {
      Models.Valid(Snapshot())
    }

    constructor ()
      ensures Snapshot() == Db(map[], map[], map[], 0) && Valid()
    {
      blogs, posts, tags, nextId := map[], map[], map[], 0;
    }

    method InsertBlog(b: Blog) returns (id: BlogId)
      modifies this
      ensures id == old(nextId) && Snapshot() == AddBlog(old(Snapshot()), b)
    {
      id := nextId;
      blogs := blogs[id := b];
      nextId := nextId + 1;
    }

    method InsertPost(blog: BlogId, title: string, content: string) returns (id: PostId)
      modifies this
      ensures id == old(nextId) && Snapshot() == AddPost(old(Snapshot()), blog, title, content)
    {
      id := nextId;
      posts := posts[id := Post(blog, title, content, id)];
      nextId := nextId + 1;
    }

    method InsertTag(t: Tag) returns (id: TagId)
      modifies this
      ensures id == old(nextId) && Snapshot() == AddTag(old(Snapshot()), t)
    {
      id := nextId;
      tags := tags[id := t];
      nextId := nextId + 1;
    }

    method SavePost(p: PostId, post: Post)
      modifies this
      ensures Snapshot() == PutPost(old(Snapshot()), p, post)
    {
      posts := posts[p := post];
    }

    method SaveTag(t: TagId, tag: Tag)
      modifies this
      ensures Snapshot() == PutTag(old(Snapshot()), t, tag)
    {
      tags := tags[t := tag];
    }

    method DeletePost(p: PostId)
      modifies this
      ensures Snapshot() == RemovePost(old(Snapshot()), p)
    {
      posts := posts - {p};
      tags := map t | t in tags :: tags[t].(posts := tags[t].posts - {p});
    }

    method DeleteTag(t: TagId)
      modifies this
      ensures Snapshot() == RemoveTag(old(Snapshot()), t)
    {
      tags := tags - {t};
    }

    method SetPostTags(p: PostId, ts: set<TagId>)
      modifies this
      ensures Snapshot() == Models.SetPostTags(old(Snapshot()), p, ts)
    {
      tags := map t | t in tags :: tags[t].(posts := if t in ts then tags[t].posts + {p} else tags[t].posts - {p});
    }
  }
}
