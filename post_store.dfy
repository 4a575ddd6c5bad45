/** The blog controller over the post collection: the published listing with its tag,
    author and search filters, reading a post (which counts a view), create, update,
    delete with its comments, the like and bookmark toggles, and the bookmark listing. */
module PostStore {
  import opened Common
  import opened Seqs
  import opened CommentModel
  import opened PostModel
  import opened ErrorHandler
  import Paging
  import Toggle
  import Text
  import CommentStore

  function PostIdOf(p: Post): int { p.id }
  function PostCreatedAtOf(p: Post): int { p.createdAt }

  /** The collection invariant: every post obeys the schema, ids and creation times were
      issued before the counters and strictly increase in collection order. */
  ghost predicate WellFormed(ps: seq<Post>, nextId: nat, clock: nat) {
    && (forall p :: p in ps ==> PostOk(p) && p.id < nextId && p.createdAt < clock)
    && IncreasingBy(PostIdOf, ps)
    && IncreasingBy(PostCreatedAtOf, ps)
  }

  /** BlogPost.findById: the position of the post with that id. */
  function IndexOf(ps: seq<Post>, id: Id): (r: Option<nat>)
    ensures r.Some? ==> r.value < |ps| && ps[r.value].id == id
    ensures r.None? ==> forall p :: p in ps ==> p.id != id
    decreases |ps|
  {
    if ps == [] then None
    else if ps[0].id == id then Some(0)
    else match IndexOf(ps[1..], id)
      case Some(i) => Some(i + 1)
      case None => None
  }

  /** The query string of the listing; None is a parameter the request does not carry
      (or, for page and limit, one parseInt cannot read). */
  datatype ListQuery = ListQuery(
    page: Option<int>,
    limit: Option<int>,
    search: Option<string>,
    tags: Option<string>,
    author: Option<Id>,
    sortOrder: Option<string>)

  /** tags.split(',').map(tag => tag.trim().toLowerCase()) */
  function TagList(raw: string): (r: seq<string>)
    ensures var pieces := Text.Split(raw, ',');
      |r| == |pieces| && forall i :: 0 <= i < |r| ==> r[i] == NormalizeTag(pieces[i])
  {
    var pieces := Text.Split(raw, ',');
    seq(|pieces|, i requires 0 <= i < |pieces| => NormalizeTag(pieces[i]))
  }

  function Present(o: Option<string>): bool {
    o.Some? && o.value != []
  }

  /** The filter the listing builds: published, then the $text search, the tag $in and
      the author when the query carries them. A search is decided by the text index,
      given here as textMatch. */
  predicate Selected(q: ListQuery, textMatch: Post -> bool, p: Post): (b: bool)
    ensures b ==> p.status == Published
    ensures !Present(q.search) && !Present(q.tags) && q.author.None? ==> (b <==> p.status == Published)
    ensures Present(q.tags) && (forall t :: t in p.tags ==> t !in TagList(q.tags.value)) ==> !b
  {
    && p.status == Published
    && (Present(q.search) ==> textMatch(p))
    && (Present(q.tags) ==> exists t :: t in p.tags && t in TagList(q.tags.value))
    && (q.author.Some? ==> p.author == q.author.value)
  }

  function SelectedBy(q: ListQuery, textMatch: Post -> bool): (keep: Post -> bool)
    ensures forall p :: keep(p) ==> p.status == Published
    ensures forall p :: keep(p) <==> Selected(q, textMatch, p)
  {
    (p: Post) => Selected(q, textMatch, p)
  }

  function Bookmarker(who: Id): Post -> bool {
    (p: Post) => p.status == Published && who in p.bookmarks
  }

  /** A listed post with its commentsCount virtual. */
  datatype Listed = Listed(post: Post, commentsCount: nat)

  datatype PostPage = PostPage(count: nat, total: nat, page: int, limit: int, pages: int, data: seq<Listed>)

  /** A read post with its comments virtual, newest first. */
  datatype PostDetail = PostDetail(post: Post, comments: seq<Comment>)

  datatype BookmarkResult = BookmarkResult(bookmarked: bool, bookmarksCount: nat)

  function WithCounts(window: seq<Post>, comments: seq<Comment>): (r: seq<Listed>)
    ensures |r| == |window|
    ensures forall k :: 0 <= k < |r| ==> r[k] == Listed(window[k], CommentsCount(window[k].id, comments))
  {
    seq(|window|, k requires 0 <= k < |window| => Listed(window[k], CommentsCount(window[k].id, comments)))
  }

  /** The sort of the listing: ascending creation time when sortOrder is 'asc', and
      descending otherwise. */
  function Ordered(matching: seq<Post>, sortOrder: Option<string>): seq<Post> {
    if sortOrder == Some("asc") then matching else Reverse(matching)
  }

  /** One page of a filtered listing. */
  function Page(ps: seq<Post>, keep: Post -> bool, sortOrder: Option<string>, page: int, limit: int, comments: seq<Comment>): (r: PostPage)
    requires (page - 1) * limit >= 0 && limit != 0
    ensures r.page == page && r.limit == limit && r.total == |Filter(keep, ps)|
    ensures r.count == |r.data| <= Paging.Abs(limit)
    ensures (page - 1) * limit >= r.total ==> r.data == []
  {
    var matching := Filter(keep, ps);
    var data := WithCounts(Window(Ordered(matching, sortOrder), (page - 1) * limit, Paging.Abs(limit)), comments);
    PostPage(|data|, |matching|, page, limit, Paging.CeilDiv(|matching|, limit), data)
  }

  /** A window of a filtered, sorted collection holds only posts the filter keeps, in
      increasing creation time when ascending and decreasing otherwise. */
  lemma OrderedWindow(ps: seq<Post>, keep: Post -> bool, sortOrder: Option<string>, skip: nat, n: nat)
    requires IncreasingBy(PostCreatedAtOf, ps)
    ensures var w := Window(Ordered(Filter(keep, ps), sortOrder), skip, n);
      && (forall x :: x in w ==> x in ps && keep(x))
      && (sortOrder == Some("asc") ==> IncreasingBy(PostCreatedAtOf, w))
      && (sortOrder != Some("asc") ==> DecreasingBy(PostCreatedAtOf, w))
  {
    var matching := Filter(keep, ps);
    FilterIncreasing(keep, PostCreatedAtOf, ps);
    ReverseDecreasing(PostCreatedAtOf, matching);
    var ordered := Ordered(matching, sortOrder);
    var w := Window(ordered, skip, n);
    assert forall k :: 0 <= k < |w| ==> w[k] == ordered[skip + k];
    assert forall x :: x in ordered ==> x in matching;
  }

  /** What a page of a listing holds: at most limit posts, each kept by the filter and
      counted with its comments; total counts every post the filter keeps. */
  lemma PageContents(ps: seq<Post>, keep: Post -> bool, sortOrder: Option<string>, page: int, limit: int, comments: seq<Comment>)
    requires (page - 1) * limit >= 0 && limit != 0
    ensures var r := Page(ps, keep, sortOrder, page, limit, comments);
      && r.count == |r.data| <= Paging.Abs(limit)
      && r.total == |Filter(keep, ps)|
      && r.pages == Paging.CeilDiv(r.total, limit)
      && (forall k :: 0 <= k < |r.data| ==> r.data[k].post in ps && keep(r.data[k].post))
      && (forall k :: 0 <= k < |r.data| ==> r.data[k].commentsCount == CommentsCount(r.data[k].post.id, comments))
  {
    var skip: nat := (page - 1) * limit;
    var matching := Filter(keep, ps);
    var ordered := Ordered(matching, sortOrder);
    var w := Window(ordered, skip, Paging.Abs(limit));
    ReverseWithin(matching);
    WindowWithin(ordered, skip, Paging.Abs(limit));
    var data := WithCounts(w, comments);
    assert Page(ps, keep, sortOrder, page, limit, comments).data == data;
    forall k | 0 <= k < |data| ensures data[k].post in ps && keep(data[k].post) {
      assert data[k].post == w[k] && w[k] in w;
    }
  }

  /** The page is sorted by creation time: increasing when sortOrder is 'asc',
      decreasing otherwise. */
  lemma PageOrder(ps: seq<Post>, nextId: nat, clock: nat, keep: Post -> bool, sortOrder: Option<string>, page: int, limit: int, comments: seq<Comment>)
    requires WellFormed(ps, nextId, clock)
    requires (page - 1) * limit >= 0 && limit != 0
    ensures var r := Page(ps, keep, sortOrder, page, limit, comments);
      && (sortOrder == Some("asc") ==> forall k, l :: 0 <= k < l < |r.data| ==> r.data[k].post.createdAt < r.data[l].post.createdAt)
      && (sortOrder != Some("asc") ==> forall k, l :: 0 <= k < l < |r.data| ==> r.data[k].post.createdAt > r.data[l].post.createdAt)
  {
    var skip: nat := (page - 1) * limit;
    OrderedWindow(ps, keep, sortOrder, skip, Paging.Abs(limit));
  }

  /** Replacing a post by a valid one with the same id and creation time keeps the
      collection well formed. */
  lemma ReplaceWellFormed(ps: seq<Post>, i: nat, p: Post, nextId: nat, clock: nat)
    requires WellFormed(ps, nextId, clock) && i < |ps|
    requires p.id == ps[i].id && p.createdAt == ps[i].createdAt && PostOk(p)
    ensures WellFormed(ps[i := p], nextId, clock)
  {
    var r := ps[i := p];
    forall x | x in r ensures PostOk(x) && x.id < nextId && x.createdAt < clock {
      var k :| 0 <= k < |r| && r[k] == x;
      if k != i { assert x == ps[k]; } else { assert ps[i] in ps; }
    }
  }

  /** Appending a valid post carrying the next id and the current time keeps the
      collection well formed under the advanced counters. */
  lemma AppendWellFormed(ps: seq<Post>, p: Post, nextId: nat, clock: nat)
    requires WellFormed(ps, nextId, clock)
    requires p.id == nextId && p.createdAt == clock && PostOk(p)
    ensures WellFormed(ps + [p], nextId + 1, clock + 1)
  {
    var r := ps + [p];
    forall i, j | 0 <= i < j < |r| ensures PostIdOf(r[i]) < PostIdOf(r[j]) && PostCreatedAtOf(r[i]) < PostCreatedAtOf(r[j]) {
      if j < |ps| { assert r[i] == ps[i] && r[j] == ps[j]; }
      else { assert r[i] == ps[i] && ps[i] in ps; }
    }
  }

  /** Removing posts keeps the collection well formed. */
  lemma FilterWellFormed(keep: Post -> bool, ps: seq<Post>, nextId: nat, clock: nat)
    requires WellFormed(ps, nextId, clock)
    ensures WellFormed(Filter(keep, ps), nextId, clock)
  {
    FilterIncreasing(keep, PostIdOf, ps);
    FilterIncreasing(keep, PostCreatedAtOf, ps);
  }

  function OtherPost(id: Id): Post -> bool {
    (p: Post) => p.id != id
  }

  /** After the delete cascade no comment of the post remains and its comment count is
      zero, while every other post keeps all of its comments. */
  lemma CascadeClearsPost(cs: seq<Comment>, id: Id, other: Id)
    requires other != id
    ensures CommentsCount(id, Filter(OffPost(id), cs)) == 0
    ensures CommentsOf(other, Filter(OffPost(id), cs)) == CommentsOf(other, cs)
  {
    FilterNone(OnPost(id), Filter(OffPost(id), cs));
    FilterFilter(OnPost(other), OffPost(id), cs);
    FilterCongruent((x: Comment) => OffPost(id)(x) && OnPost(other)(x), OnPost(other), cs);
  }

  /** A post's comments read newest first from a well-formed comment collection: exactly
      the comments on the post, in strictly decreasing creation time. */
  lemma CommentsNewestFirst(cs: seq<Comment>, nextId: nat, clock: nat, id: Id)
    requires CommentStore.WellFormed(cs, nextId, clock)
    ensures var r := Reverse(CommentsOf(id, cs));
      && (forall c :: c in r <==> c in cs && c.post == id)
      && (forall k, l :: 0 <= k < l < |r| ==> r[k].createdAt > r[l].createdAt)
  {
    var mine := CommentsOf(id, cs);
    FilterIncreasing(OnPost(id), CommentStore.CreatedAtOf, cs);
    ReverseDecreasing(CommentStore.CreatedAtOf, mine);
    ReverseSame(mine);
    var r := Reverse(mine);
    forall k, l | 0 <= k < l < |r| ensures r[k].createdAt > r[l].createdAt {
      assert CommentStore.CreatedAtOf(r[k]) > CommentStore.CreatedAtOf(r[l]);
    }
  }

  /** Every comment belongs to a stored post. */
  predicate Attached(ps: seq<Post>, cs: seq<Comment>) {
    forall c :: c in cs ==> IndexOf(ps, c.post).Some?
  }

  /** Removing a post together with its comments leaves every remaining comment on a
      remaining post. */
  lemma AttachedAfterCascade(ps: seq<Post>, cs: seq<Comment>, id: Id)
    requires Attached(ps, cs)
    ensures Attached(Filter(OtherPost(id), ps), Filter(OffPost(id), cs))
  {
    var kept := Filter(OtherPost(id), ps);
    forall c | c in Filter(OffPost(id), cs) ensures IndexOf(kept, c.post).Some? {
      var p := ps[IndexOf(ps, c.post).value];
      assert p in ps && OtherPost(id)(p);
      assert p in kept;
    }
  }

  class PostCollection {
    var posts: seq<Post>
    var nextId: nat
    var clock: nat

    ghost predicate Valid()
      reads this
    {
      WellFormed(posts, nextId, clock)
    }

    constructor ()
      ensures Valid() && posts == []
    {
      posts, nextId, clock := [], 0, 0;
    }

    /** The ids of the stored posts (what BlogPost.findById can find). */
    function Ids(): (ids: set<Id>)
      reads this
      ensures forall id :: id in ids <==> IndexOf(posts, id).Some?
    {
      set p | p in posts :: p.id
    }

    /** getBlogPosts: published posts matching the query, sorted by creation time
        (ascending only for sortOrder 'asc'), paginated by offset (defaults page 1,
        limit 10), each with its comment count. */
    method GetBlogPosts(q: ListQuery, textMatch: Post -> bool, store: CommentStore.CommentCollection) returns (r: Reply<PostPage>)
      requires Valid()
      ensures var page := Paging.ParamOr(q.page, 1); var limit := Paging.ParamOr(q.limit, 10);
        && (r.Ok? <==> (page - 1) * limit >= 0)
        && (!r.Ok? ==> r.Raised?)
        && (r.Ok? ==> r.status == 200 && r.value == Page(posts, SelectedBy(q, textMatch), q.sortOrder, page, limit, store.comments))
      ensures r.Ok? ==>
        var data := r.value.data;
        && r.value.total == |Filter(SelectedBy(q, textMatch), posts)|
        && (forall k :: 0 <= k < |data| ==> data[k].post in posts && Selected(q, textMatch, data[k].post))
        && (q.sortOrder == Some("asc") ==> forall k, l :: 0 <= k < l < |data| ==> data[k].post.createdAt < data[l].post.createdAt)
        && (q.sortOrder != Some("asc") ==> forall k, l :: 0 <= k < l < |data| ==> data[k].post.createdAt > data[l].post.createdAt)
    {
      var page := Paging.ParamOr(q.page, 1);
      var limit := Paging.ParamOr(q.limit, 10);
      if (page - 1) * limit < 0 {
        return Raised(StoreError("BSON field 'skip' value must be >= 0"));
      }
      var keep := SelectedBy(q, textMatch);
      PageContents(posts, keep, q.sortOrder, page, limit, store.comments);
      PageOrder(posts, nextId, clock, keep, q.sortOrder, page, limit, store.comments);
      r := Ok(200, Page(posts, keep, q.sortOrder, page, limit, store.comments));
    }

    /** getBookmarkedPosts: the published posts the caller bookmarked, newest first,
        paginated by offset (defaults page 1, limit 10). */
    method GetBookmarkedPosts(who: Principal, pageRaw: Option<int>, limitRaw: Option<int>, store: CommentStore.CommentCollection) returns (r: Reply<PostPage>)
      requires Valid()
      ensures var page := Paging.ParamOr(pageRaw, 1); var limit := Paging.ParamOr(limitRaw, 10);
        && (r.Ok? <==> (page - 1) * limit >= 0)
        && (!r.Ok? ==> r.Raised?)
        && (r.Ok? ==> r.status == 200 && r.value == Page(posts, Bookmarker(who.id), None, page, limit, store.comments))
      ensures r.Ok? ==>
        var data := r.value.data;
        && r.value.total == |Filter(Bookmarker(who.id), posts)|
        && (forall k :: 0 <= k < |data| ==> data[k].post in posts && data[k].post.status == Published && who.id in data[k].post.bookmarks)
        && (forall k, l :: 0 <= k < l < |data| ==> data[k].post.createdAt > data[l].post.createdAt)
    {
      var page := Paging.ParamOr(pageRaw, 1);
      var limit := Paging.ParamOr(limitRaw, 10);
      if (page - 1) * limit < 0 {
        return Raised(StoreError("BSON field 'skip' value must be >= 0"));
      }
      PageContents(posts, Bookmarker(who.id), None, page, limit, store.comments);
      PageOrder(posts, nextId, clock, Bookmarker(who.id), None, page, limit, store.comments);
      r := Ok(200, Page(posts, Bookmarker(who.id), None, page, limit, store.comments));
    }

    /** getBlogPost: counts one more view and saves (the pre-save hook runs, validation
        does not), answering with the post and its comments newest first. */
    method GetBlogPost(id: Id, store: CommentStore.CommentCollection) returns (r: Reply<PostDetail>)
      requires Valid() && store.Valid()
      modifies this
      ensures Valid()
      ensures nextId == old(nextId) && clock == old(clock)
      ensures IndexOf(old(posts), id).None? ==> r == Refused(404, "Blog post not found") && posts == old(posts)
      ensures IndexOf(old(posts), id).Some? ==>
        var i := IndexOf(old(posts), id).value;
        var p := old(posts)[i];
        && r.Ok? && r.status == 200
        && r.value.post.views == p.views + 1
        && r.value.post == PreSave(p.(views := p.views + 1))
        && r.value.comments == Reverse(CommentsOf(id, store.comments))
        && (forall c :: c in r.value.comments <==> c in store.comments && c.post == id)
        && (forall k, l :: 0 <= k < l < |r.value.comments| ==> r.value.comments[k].createdAt > r.value.comments[l].createdAt)
        && posts == old(posts)[i := r.value.post]
    {
      var found := IndexOf(posts, id);
      if found.None? {
        return Refused(404, "Blog post not found");
      }
      var i := found.value;
      var p := posts[i];
      assert p in posts;
      var saved := PreSave(p.(views := p.views + 1));
      ReplaceWellFormed(posts, i, saved, nextId, clock);
      posts := posts[i := saved];
      CommentsNewestFirst(store.comments, store.nextId, store.clock, id);
      r := Ok(200, PostDetail(saved, Reverse(CommentsOf(id, store.comments))));
    }

    /** createBlogPost: the author is always the caller, whatever the body says. */
    method Create(input: PostInput, who: Principal) returns (r: Reply<Post>)
      requires Valid()
      modifies this
      ensures Valid()
      ensures !Accepted(input, true) ==>
        r == Raised(ValidationFailure("BlogPost validation failed", InputFailures(input, true)))
        && posts == old(posts) && nextId == old(nextId) && clock == old(clock)
      ensures Accepted(input, true) ==>
        && r.Ok? && r.status == 201
        && r.value == NewPost(old(nextId), input, who.id, old(clock))
        && r.value.author == who.id
        && posts == old(posts) + [r.value]
        && nextId == old(nextId) + 1 && clock == old(clock) + 1
    {
      var failures := InputFailures(input, true);
      if failures != [] {
        return Raised(ValidationFailure("BlogPost validation failed", failures));
      }
      var p := NewPost(nextId, input, who.id, clock);
      Save(p);
      r := Ok(201, p);
    }

    /** The save of a new document that passed validation: it carries the next id and
        the current time and goes to the end of the collection. */
    method Save(p: Post)
      requires Valid() && PostOk(p) && p.id == nextId && p.createdAt == clock
      modifies this
      ensures Valid()
      ensures posts == old(posts) + [p] && nextId == old(nextId) + 1 && clock == old(clock) + 1
    {
      AppendWellFormed(posts, p, nextId, clock);
      posts := posts + [p];
      nextId, clock := nextId + 1, clock + 1;
    }

    /** updateBlogPost: 404 for a missing post, then 401 unless the caller owns it or is
        an administrator; otherwise the body is applied with the update validators. */
    method Update(id: Id, who: Principal, input: PostInput) returns (r: Reply<Post>)
      requires Valid()
      modifies this
      ensures Valid()
      ensures nextId == old(nextId) && clock == old(clock)
      ensures IndexOf(old(posts), id).None? ==> r == Refused(404, "Blog post not found")
      ensures IndexOf(old(posts), id).Some? && !CanMutate(who, old(posts)[IndexOf(old(posts), id).value].author) ==>
        r == Refused(401, "Not authorized to update this post")
      ensures IndexOf(old(posts), id).Some? && CanMutate(who, old(posts)[IndexOf(old(posts), id).value].author) && !Accepted(input, false) ==>
        r == Raised(ValidationFailure("Validation failed", InputFailures(input, false)))
      ensures !r.Ok? ==> posts == old(posts)
      ensures r.Ok? <==>
        && IndexOf(old(posts), id).Some?
        && CanMutate(who, old(posts)[IndexOf(old(posts), id).value].author)
        && Accepted(input, false)
      ensures r.Ok? ==>
        var i := IndexOf(old(posts), id).value;
        && CanMutate(who, old(posts)[i].author) && Accepted(input, false)
        && r.status == 200
        && r.value == Patched(old(posts)[i], input)
        && posts == old(posts)[i := r.value]
    {
      var found := IndexOf(posts, id);
      if found.None? {
        return Refused(404, "Blog post not found");
      }
      var i := found.value;
      if !CanMutate(who, posts[i].author) {
        return Refused(401, "Not authorized to update this post");
      }
      var failures := InputFailures(input, false);
      if failures != [] {
        return Raised(ValidationFailure("Validation failed", failures));
      }
      assert posts[i] in posts;
      var q := Patched(posts[i], input);
      ReplaceWellFormed(posts, i, q, nextId, clock);
      posts := posts[i := q];
      r := Ok(200, q);
    }

    /** deleteBlogPost: after the same 404 and 401 checks, removes every comment on the
        post and then the post. */
    method Delete(id: Id, who: Principal, store: CommentStore.CommentCollection) returns (r: Reply<string>)
      requires Valid() && store.Valid()
      modifies this, store
      ensures Valid() && store.Valid()
      ensures nextId == old(nextId) && clock == old(clock)
      ensures store.nextId == old(store.nextId) && store.clock == old(store.clock)
      ensures IndexOf(old(posts), id).None? ==> r == Refused(404, "Blog post not found")
      ensures IndexOf(old(posts), id).Some? && !CanMutate(who, old(posts)[IndexOf(old(posts), id).value].author) ==>
        r == Refused(401, "Not authorized to delete this post")
      ensures !r.Ok? ==> posts == old(posts) && store.comments == old(store.comments)
      ensures r.Ok? <==>
        IndexOf(old(posts), id).Some? && CanMutate(who, old(posts)[IndexOf(old(posts), id).value].author)
      ensures r.Ok? ==>
        && CanMutate(who, old(posts)[IndexOf(old(posts), id).value].author)
        && r == Ok(200, "Blog post deleted successfully")
        && posts == Filter(OtherPost(id), old(posts))
        && store.comments == Filter(OffPost(id), old(store.comments))
      ensures Attached(old(posts), old(store.comments)) ==> Attached(posts, store.comments)
    {
      var found := IndexOf(posts, id);
      if found.None? {
        return Refused(404, "Blog post not found");
      }
      if !CanMutate(who, posts[found.value].author) {
        return Refused(401, "Not authorized to delete this post");
      }
      if Attached(posts, store.comments) {
        AttachedAfterCascade(posts, store.comments, id);
      }
      store.DeleteForPost(id);
      FilterWellFormed(OtherPost(id), posts, nextId, clock);
      posts := Filter(OtherPost(id), posts);
      r := Ok(200, "Blog post deleted successfully");
    }

    /** createComment as the request reaches the stores: the post is looked up in this
        collection, then the comment collection checks the parent and the content. */
    method CreateComment(blogId: Id, who: Principal, content: string, parent: Option<Id>, store: CommentStore.CommentCollection) returns (r: Reply<Comment>)
      requires Valid() && store.Valid()
      modifies store
      ensures store.Valid()
      ensures IndexOf(posts, blogId).None? ==> r == Refused(404, "Blog post not found")
      ensures IndexOf(posts, blogId).Some? && parent.Some? && CommentStore.IndexOf(old(store.comments), parent.value).None? ==>
        r == Refused(404, "Parent comment not found")
      ensures
        && IndexOf(posts, blogId).Some?
        && (parent.None? || CommentStore.IndexOf(old(store.comments), parent.value).Some?)
        && CommentModel.ContentFailures(content) != []
        ==>
        r == Raised(ValidationFailure("Comment validation failed", CommentModel.ContentFailures(content)))
      ensures !r.Ok? ==> store.comments == old(store.comments) && store.nextId == old(store.nextId) && store.clock == old(store.clock)
      ensures r.Ok? <==>
        && IndexOf(posts, blogId).Some?
        && (parent.None? || CommentStore.IndexOf(old(store.comments), parent.value).Some?)
        && CommentModel.ContentFailures(content) == []
      ensures r.Ok? ==>
        && r.status == 201
        && r.value == NewComment(old(store.nextId), content, who.id, blogId, parent, old(store.clock))
        && r.value.post == blogId && r.value.author == who.id
        && store.comments == old(store.comments) + [r.value]
        && store.nextId == old(store.nextId) + 1 && store.clock == old(store.clock) + 1
      ensures Attached(posts, old(store.comments)) ==> Attached(posts, store.comments)
    {
      r := store.Create(blogId, who, content, parent, Ids());
    }

    /** likeBlogPost: toggles the caller in the post's likes and saves (the pre-save
        hook runs); bookmarks are untouched. */
    method Like(id: Id, who: Principal) returns (r: Reply<CommentStore.LikeResult>)
      requires Valid()
      modifies this
      ensures Valid()
      ensures nextId == old(nextId) && clock == old(clock)
      ensures IndexOf(old(posts), id).None? ==> r == Refused(404, "Blog post not found") && posts == old(posts)
      ensures IndexOf(old(posts), id).Some? ==>
        var i := IndexOf(old(posts), id).value;
        var p := old(posts)[i];
        var t := Toggle.Toggle(p.likes, who.id);
        && r == Ok(200, CommentStore.LikeResult(t.on, |t.list|))
        && posts == old(posts)[i := PreSave(p.(likes := t.list))]
        && posts[i].bookmarks == p.bookmarks
    {
      var found := IndexOf(posts, id);
      if found.None? {
        return Refused(404, "Blog post not found");
      }
      var i := found.value;
      var p := posts[i];
      assert p in posts;
      var t := Toggle.Toggle(p.likes, who.id);
      var saved := PreSave(p.(likes := t.list));
      ReplaceWellFormed(posts, i, saved, nextId, clock);
      posts := posts[i := saved];
      r := Ok(200, CommentStore.LikeResult(t.on, |t.list|));
    }

    /** bookmarkBlogPost: toggles the caller in the post's bookmarks and saves; likes
        are untouched. */
    method Bookmark(id: Id, who: Principal) returns (r: Reply<BookmarkResult>)
      requires Valid()
      modifies this
      ensures Valid()
      ensures nextId == old(nextId) && clock == old(clock)
      ensures IndexOf(old(posts), id).None? ==> r == Refused(404, "Blog post not found") && posts == old(posts)
      ensures IndexOf(old(posts), id).Some? ==>
        var i := IndexOf(old(posts), id).value;
        var p := old(posts)[i];
        var t := Toggle.Toggle(p.bookmarks, who.id);
        && r == Ok(200, BookmarkResult(t.on, |t.list|))
        && posts == old(posts)[i := PreSave(p.(bookmarks := t.list))]
        && posts[i].likes == p.likes
    {
      var found := IndexOf(posts, id);
      if found.None? {
        return Refused(404, "Blog post not found");
      }
      var i := found.value;
      var p := posts[i];
      assert p in posts;
      var t := Toggle.Toggle(p.bookmarks, who.id);
      var saved := PreSave(p.(bookmarks := t.list));
      ReplaceWellFormed(posts, i, saved, nextId, clock);
      posts := posts[i := saved];
      r := Ok(200, BookmarkResult(t.on, |t.list|));
    }
  }
}
