/** The client-side blog store: the posts and comments it caches from the API, the
    mapping of API records to client records, the search and lookup helpers it offers
    to components, and the rule that every mutator does nothing without a signed-in
    user. */
module BlogContext {
  import opened Common
  import opened Seqs
  import Text

  /** An author as the API returns it once populated. */
  datatype ApiAuthor = ApiAuthor(id: Id, name: string, email: string, bio: string, avatar: string, createdAt: nat)

  /** A post of GET /blogs; commentsCount is None when the payload omits it. */
  datatype ApiPost = ApiPost(
    id: Id, title: string, content: string, excerpt: string, tags: seq<string>, image: string,
    author: ApiAuthor, createdAt: nat, updatedAt: nat, likes: seq<Id>, bookmarks: seq<Id>,
    commentsCount: Option<nat>)

  /** A comment of GET /comments/:blogId. */
  datatype ApiComment = ApiComment(
    id: Id, content: string, author: ApiAuthor, post: Id, parent: Option<Id>, createdAt: nat, likes: seq<Id>)

  datatype ClientAuthor = ClientAuthor(id: Id, name: string, email: string, bio: string, avatar: string, joinDate: nat)

  datatype ClientPost = ClientPost(
    id: Id, title: string, content: string, excerpt: string, tags: seq<string>, image: string,
    author: ClientAuthor, createdAt: nat, updatedAt: nat, likes: seq<Id>, bookmarks: seq<Id>,
    commentsCount: nat)

  datatype ClientComment = ClientComment(
    id: Id, content: string, author: ClientAuthor, postId: Id, parentId: Option<Id>, createdAt: nat, likes: seq<Id>)

  /** The body the post form submits. */
  datatype PostData = PostData(title: string, content: string, excerpt: string, tags: seq<string>, image: string)

  /** The API calls the store issues. */
  datatype Request =
    | ListPosts
    | CreatePostCall(data: PostData)
    | UpdatePostCall(id: Id, data: PostData)
    | DeletePostCall(id: Id)
    | LikePostCall(id: Id)
    | BookmarkPostCall(id: Id)
    | CreateCommentCall(postId: Id, content: string)
    | LikeCommentCall(id: Id)
    | ListComments(postId: Id)

  function ToClientAuthor(a: ApiAuthor): (r: ClientAuthor)
    ensures r.id == a.id && r.joinDate == a.createdAt
    ensures r.name == a.name && r.email == a.email && r.bio == a.bio && r.avatar == a.avatar
  {
    ClientAuthor(a.id, a.name, a.email, a.bio, a.avatar, a.createdAt)
  }

  /** The loadPosts mapping of one post: the API id becomes id, the author is renamed
      field by field, and a missing commentsCount becomes 0. */
  function ToClientPost(p: ApiPost): (r: ClientPost)
    ensures r.id == p.id && r.author == ToClientAuthor(p.author)
    ensures r.title == p.title && r.content == p.content && r.excerpt == p.excerpt && r.tags == p.tags
    ensures r.likes == p.likes && r.bookmarks == p.bookmarks && r.createdAt == p.createdAt
    ensures r.image == p.image && r.updatedAt == p.updatedAt
    ensures p.commentsCount.None? ==> r.commentsCount == 0
    ensures p.commentsCount.Some? ==> r.commentsCount == p.commentsCount.value
  {
    ClientPost(p.id, p.title, p.content, p.excerpt, p.tags, p.image, ToClientAuthor(p.author),
      p.createdAt, p.updatedAt, p.likes, p.bookmarks, GetOr(p.commentsCount, 0))
  }

  function ToClientPosts(ps: seq<ApiPost>): (r: seq<ClientPost>)
    ensures |r| == |ps|
    ensures forall i :: 0 <= i < |ps| ==> r[i] == ToClientPost(ps[i])
  {
    seq(|ps|, i requires 0 <= i < |ps| => ToClientPost(ps[i]))
  }

  /** The loadComments mapping of one comment: post becomes postId, parent parentId. */
  function ToClientComment(c: ApiComment): (r: ClientComment)
    ensures r.id == c.id && r.postId == c.post && r.parentId == c.parent
    ensures r.content == c.content && r.author == ToClientAuthor(c.author)
    ensures r.createdAt == c.createdAt && r.likes == c.likes
  {
    ClientComment(c.id, c.content, ToClientAuthor(c.author), c.post, c.parent, c.createdAt, c.likes)
  }

  function ToClientComments(cs: seq<ApiComment>): (r: seq<ClientComment>)
    ensures |r| == |cs|
    ensures forall i :: 0 <= i < |cs| ==> r[i] == ToClientComment(cs[i])
  {
    seq(|cs|, i requires 0 <= i < |cs| => ToClientComment(cs[i]))
  }

  /** Some tag contains q. */
  predicate TagMatches(tags: seq<string>, q: string) {
    exists i :: 0 <= i < |tags| && Text.Contains(Text.Lower(tags[i]), q)
  }

  /** The search test for an already lower-cased query. */
  predicate PostMatches(p: ClientPost, q: string) {
    || Text.Contains(Text.Lower(p.title), q)
    || Text.Contains(Text.Lower(p.content), q)
    || TagMatches(p.tags, q)
  }

  function Matching(q: string): ClientPost -> bool {
    (p: ClientPost) => PostMatches(p, q)
  }

  /** searchPosts: a query that is blank once trimmed gives the posts back as they are;
      any other query keeps, in their order, exactly the posts whose lower-cased title,
      content or some tag contains the lower-cased (untrimmed) query. */
  function SearchPosts(posts: seq<ClientPost>, query: string): (r: seq<ClientPost>)
    ensures Text.AllSpace(query) ==> r == posts
    ensures !Text.AllSpace(query) ==> r == Filter(Matching(Text.Lower(query)), posts)
  {
    Text.TrimEmptyIffBlank(query);
    if Text.Trim(query) == [] then posts else Filter(Matching(Text.Lower(query)), posts)
  }

  /** What a search finds: every post for a blank query, otherwise exactly the matching
      posts. */
  lemma SearchFinds(posts: seq<ClientPost>, query: string, p: ClientPost)
    ensures p in SearchPosts(posts, query) <==> p in posts && (Text.AllSpace(query) || PostMatches(p, Text.Lower(query)))
  {
  }

  /** Searching the result of a search with the same query changes nothing. */
  lemma SearchIdempotent(posts: seq<ClientPost>, query: string)
    ensures SearchPosts(SearchPosts(posts, query), query) == SearchPosts(posts, query)
  {
    if !Text.AllSpace(query) {
      FilterIdempotent(Matching(Text.Lower(query)), posts);
    }
  }

  /** The case of the query does not matter. */
  lemma SearchIgnoresCase(posts: seq<ClientPost>, query: string)
    ensures SearchPosts(posts, Text.Lower(query)) == SearchPosts(posts, query)
  {
    Text.LowerTrimCommute(query);
    Text.LowerIsLower(query);
    Text.TrimEmptyIffBlank(query);
    Text.TrimEmptyIffBlank(Text.Lower(query));
    assert |Text.Lower(Text.Trim(query))| == |Text.Trim(query)|;
  }

  /** A longer query finds fewer posts: when the lower-cased query q1 contains the
      lower-cased q2, every post found for q1 is found for q2. */
  lemma SearchNarrows(posts: seq<ClientPost>, q1: string, q2: string)
    requires !Text.AllSpace(q1)
    requires Text.Contains(Text.Lower(q1), Text.Lower(q2))
    ensures forall p :: p in SearchPosts(posts, q1) ==> p in SearchPosts(posts, q2)
  {
    var l1, l2 := Text.Lower(q1), Text.Lower(q2);
    forall p | p in SearchPosts(posts, q1) ensures p in SearchPosts(posts, q2) {
      SearchFinds(posts, q1, p);
      SearchFinds(posts, q2, p);
      if !Text.AllSpace(q2) {
        if Text.Contains(Text.Lower(p.title), l1) {
          Text.ContainsTransitive(Text.Lower(p.title), l1, l2);
        } else if Text.Contains(Text.Lower(p.content), l1) {
          Text.ContainsTransitive(Text.Lower(p.content), l1, l2);
        } else {
          var i :| 0 <= i < |p.tags| && Text.Contains(Text.Lower(p.tags[i]), l1);
          Text.ContainsTransitive(Text.Lower(p.tags[i]), l1, l2);
        }
      }
    }
  }

  function HasId(id: Id): ClientPost -> bool {
    (p: ClientPost) => p.id == id
  }

  /** getPostById: the first post with the id, or None when there is none. */
  function GetPostById(posts: seq<ClientPost>, id: Id): (r: Option<ClientPost>)
    ensures r.None? <==> forall p :: p in posts ==> p.id != id
    ensures r.Some? ==> r.value in posts && r.value.id == id
    decreases |posts|
  {
    if posts == [] then None
    else if posts[0].id == id then Some(posts[0])
    else GetPostById(posts[1..], id)
  }

  /** The post found is the first of the posts with that id. */
  lemma {:induction false} GetPostByIdIsFirst(posts: seq<ClientPost>, id: Id)
    ensures var m := Filter(HasId(id), posts);
      GetPostById(posts, id) == if m == [] then None else Some(m[0])
    decreases |posts|
  {
    if posts != [] {
      GetPostByIdIsFirst(posts[1..], id);
    }
  }

  function ByAuthor(authorId: Id): ClientPost -> bool {
    (p: ClientPost) => p.author.id == authorId
  }

  /** getPostsByAuthor: exactly the author's posts, in their order. */
  function GetPostsByAuthor(posts: seq<ClientPost>, authorId: Id): (r: seq<ClientPost>)
    ensures forall p :: p in r <==> p in posts && p.author.id == authorId
  {
    Filter(ByAuthor(authorId), posts)
  }

  /** Restricting to one author and searching can be done in either order. */
  lemma AuthorSearchCommute(posts: seq<ClientPost>, authorId: Id, query: string)
    ensures GetPostsByAuthor(SearchPosts(posts, query), authorId) == SearchPosts(GetPostsByAuthor(posts, authorId), query)
  {
    if !Text.AllSpace(query) {
      FilterCommute(ByAuthor(authorId), Matching(Text.Lower(query)), posts);
    }
  }

  /** After loadPosts, every post of the response is found by its API id. */
  lemma LoadedPostFound(response: seq<ApiPost>, i: nat)
    requires i < |response|
    ensures GetPostById(ToClientPosts(response), response[i].id).Some?
    ensures GetPostById(ToClientPosts(response), response[i].id).value.id == response[i].id
  {
    assert ToClientPosts(response)[i] in ToClientPosts(response);
  }

  function OnPost(postId: Id): ClientComment -> bool {
    (c: ClientComment) => c.postId == postId
  }

  /** The cached comments on a post, in cache order. */
  function CommentsOnPost(comments: seq<ClientComment>, postId: Id): (r: seq<ClientComment>)
    ensures forall c :: c in r <==> c in comments && c.postId == postId
  {
    Filter(OnPost(postId), comments)
  }

  /** Comments loaded for a post all belong to that post when the API returned only its
      comments, and then getCommentsByPost hands back the whole cache. */
  lemma LoadedCommentsKept(response: seq<ApiComment>, postId: Id)
    requires forall c :: c in response ==> c.post == postId
    ensures CommentsOnPost(ToClientComments(response), postId) == ToClientComments(response)
  {
    var cs := ToClientComments(response);
    forall c | c in cs ensures c.postId == postId {
      var i :| 0 <= i < |cs| && cs[i] == c;
      assert response[i] in response;
    }
    FilterAll(OnPost(postId), cs);
  }

  /** The provider's state. The user is the signed-in account id, if any; requests is
      the sequence of API calls issued, whose responses arrive as separate steps. */
  class BlogProvider {
    var posts: seq<ClientPost>
    var comments: seq<ClientComment>
    var user: Option<Id>
    var requests: seq<Request>

    /** Mounting starts with empty caches and issues loadPosts. */
    constructor(user: Option<Id>)
      ensures this.user == user && posts == [] && comments == [] && requests == [ListPosts]
    {
      this.user := user;
      posts := [];
      comments := [];
      requests := [ListPosts];
    }

    /** The calls a mutator issues: its own when a user is signed in, none otherwise. */
    function IfSignedIn(call: Request): (r: seq<Request>)
      reads this
      ensures user.None? <==> r == []
    {
      if user.Some? then [call] else []
    }

    method Send(call: Request)
      modifies this
      ensures requests == old(requests) + IfSignedIn(call)
      ensures posts == old(posts) && comments == old(comments) && user == old(user)
    {
      if user.Some? {
        requests := requests + [call];
      }
    }

    method CreatePost(data: PostData)
      modifies this
      ensures requests == old(requests) + IfSignedIn(CreatePostCall(data))
      ensures posts == old(posts) && comments == old(comments) && user == old(user)
    {
      Send(CreatePostCall(data));
    }

    method UpdatePost(id: Id, data: PostData)
      modifies this
      ensures requests == old(requests) + IfSignedIn(UpdatePostCall(id, data))
      ensures posts == old(posts) && comments == old(comments) && user == old(user)
    {
      Send(UpdatePostCall(id, data));
    }

    method DeletePost(id: Id)
      modifies this
      ensures requests == old(requests) + IfSignedIn(DeletePostCall(id))
      ensures posts == old(posts) && comments == old(comments) && user == old(user)
    {
      Send(DeletePostCall(id));
    }

    method LikePost(id: Id)
      modifies this
      ensures requests == old(requests) + IfSignedIn(LikePostCall(id))
      ensures posts == old(posts) && comments == old(comments) && user == old(user)
    {
      Send(LikePostCall(id));
    }

    method BookmarkPost(id: Id)
      modifies this
      ensures requests == old(requests) + IfSignedIn(BookmarkPostCall(id))
      ensures posts == old(posts) && comments == old(comments) && user == old(user)
    {
      Send(BookmarkPostCall(id));
    }

    /** addComment sends only the content to the post's comment endpoint. */
    method AddComment(postId: Id, content: string)
      modifies this
      ensures requests == old(requests) + IfSignedIn(CreateCommentCall(postId, content))
      ensures posts == old(posts) && comments == old(comments) && user == old(user)
    {
      Send(CreateCommentCall(postId, content));
    }

    method LikeComment(id: Id)
      modifies this
      ensures requests == old(requests) + IfSignedIn(LikeCommentCall(id))
      ensures posts == old(posts) && comments == old(comments) && user == old(user)
    {
      Send(LikeCommentCall(id));
    }

    /** The loadPosts response: a successful one replaces the cache with the mapped
      posts; a failed one (None) leaves it. */
    method PostsLoaded(response: Option<seq<ApiPost>>)
      modifies this
      ensures response.Some? ==> posts == ToClientPosts(response.value)
      ensures response.None? ==> posts == old(posts)
      ensures comments == old(comments) && user == old(user) && requests == old(requests)
    {
      if response.Some? {
        posts := ToClientPosts(response.value);
      }
    }

    /** The loadComments response, likewise for the comment cache. */
    method CommentsLoaded(response: Option<seq<ApiComment>>)
      modifies this
      ensures response.Some? ==> comments == ToClientComments(response.value)
      ensures response.None? ==> comments == old(comments)
      ensures posts == old(posts) && user == old(user) && requests == old(requests)
    {
      if response.Some? {
        comments := ToClientComments(response.value);
      }
    }

    /** getCommentsByPost: issues loadComments for the post (whatever the user) and
      returns the comments on that post already in the cache. */
    method GetCommentsByPost(postId: Id) returns (r: seq<ClientComment>)
      modifies this
      ensures r == CommentsOnPost(old(comments), postId)
      ensures requests == old(requests) + [ListComments(postId)]
      ensures posts == old(posts) && comments == old(comments) && user == old(user)
    {
      requests := requests + [ListComments(postId)];
      r := CommentsOnPost(comments, postId);
    }
  }
}
