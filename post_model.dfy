/** The BlogPost schema: field rules, tag setters, the readTime default, the status
    enum, the pre-save auto-excerpt and the commentsCount virtual. */
module PostModel {
  import opened Common
  import opened Seqs
  import opened CommentModel
  import Paging
  import Text

  const MaxTitleLength: nat := 200
  const MinContentLength: nat := 10
  const MaxExcerptLength: nat := 300
  const ExcerptSourceLength: nat := 150
  const WordsPerMinute: nat := 200

  datatype Status = Draft | Published

  /** A stored post. An absent excerpt is the empty string; createdAt is a tick of the
      store's logical clock. */
  datatype Post = Post(
    id: Id,
    title: string,
    content: string,
    excerpt: string,
    tags: seq<string>,
    image: string,
    author: Id,
    likes: seq<Id>,
    bookmarks: seq<Id>,
    status: Status,
    readTime: int,
    views: int,
    createdAt: nat)

  /** The request body fields the controllers pass to create and findByIdAndUpdate;
      None is a field the body does not carry. */
  datatype PostInput = PostInput(
    title: Option<string>,
    content: Option<string>,
    excerpt: Option<string>,
    tags: Option<seq<string>>,
    image: Option<string>,
    status: Option<string>,
    readTime: Option<int>,
    views: Option<int>,
    author: Option<Id>)

  /** The status enum: 'draft' or 'published'. */
  function ParseStatus(s: string): (r: Option<Status>)
    ensures r == Some(Draft) <==> s == "draft"
    ensures r == Some(Published) <==> s == "published"
  {
    if s == "draft" then Some(Draft) else if s == "published" then Some(Published) else None
  }

  /** The tag setters: trim and lowercase. */
  function NormalizeTag(t: string): (r: string)
    ensures Text.IsTrimmed(r) && Text.IsLower(r)
    ensures r == Text.Trim(Text.Lower(t))
  {
    Text.LowerTrimCommute(t);
    Text.Lower(Text.Trim(t))
  }

  function NormalizeTags(tags: seq<string>): (r: seq<string>)
    ensures |r| == |tags|
    ensures forall i :: 0 <= i < |r| ==> r[i] == NormalizeTag(tags[i])
  {
    seq(|tags|, i requires 0 <= i < |tags| => NormalizeTag(tags[i]))
  }

  predicate TagsNormalized(tags: seq<string>) {
    forall i :: 0 <= i < |tags| ==> Text.IsTrimmed(tags[i]) && Text.IsLower(tags[i])
  }

  /** Validation of a title already through its trim setter. */
  function TitleFailures(title: string): seq<(string, string)> {
    if title == [] then [("title", "Please provide a title")]
    else if |title| > MaxTitleLength then [("title", "Title cannot be more than 200 characters")]
    else []
  }

  function ContentFailures(content: string): seq<(string, string)> {
    if content == [] then [("content", "Please provide content")]
    else if |content| < MinContentLength then [("content", "Content must be at least 10 characters")]
    else []
  }

  function ExcerptFailures(excerpt: string): seq<(string, string)> {
    if |excerpt| > MaxExcerptLength then [("excerpt", "Excerpt cannot be more than 300 characters")] else []
  }

  function StatusFailures(status: string): seq<(string, string)> {
    if ParseStatus(status).None? then [("status", "`" + status + "` is not a valid enum value for path `status`.")] else []
  }

  /** The body passes validation: on create the title and content are present; every
      field present obeys its schema rule. */
  predicate Accepted(input: PostInput, creating: bool) {
    && (input.title.Some? || !creating) && (input.content.Some? || !creating)
    && (input.title.Some? ==> var t := Text.Trim(input.title.value); t != [] && |t| <= MaxTitleLength)
    && (input.content.Some? ==> |input.content.value| >= MinContentLength)
    && (input.excerpt.Some? ==> |input.excerpt.value| <= MaxExcerptLength)
    && (input.status.Some? ==> ParseStatus(input.status.value).Some?)
  }

  /** The validation errors of a body, one per failing path in schema order. On create
      a missing title or content fails its required rule; on an update only the paths
      the body carries are validated. */
  function InputFailures(input: PostInput, creating: bool): (f: seq<(string, string)>)
    ensures f == [] <==> Accepted(input, creating)
  {
    (match input.title
      case Some(t) => TitleFailures(Text.Trim(t))
      case None => if creating then [("title", "Please provide a title")] else [])
    + (match input.content
      case Some(c) => ContentFailures(c)
      case None => if creating then [("content", "Please provide content")] else [])
    + (match input.excerpt
      case Some(e) => ExcerptFailures(e)
      case None => [])
    + (match input.status
      case Some(s) => StatusFailures(s)
      case None => [])
  }

  /** The readTime default: Math.ceil(words / 200) with words the number of pieces of
      content.split(' '), and 0 for empty content. */
  function ReadTime(content: string): (minutes: int)
    ensures content == [] ==> minutes == 0
  {
    if content == [] then 0 else Paging.CeilDiv(|Text.Split(content, ' ')|, WordsPerMinute as int)
  }

  /** A non-empty content reads in the least whole number of minutes that covers its
      words at 200 words a minute, which is at least one. */
  lemma ReadTimeBounds(content: string)
    requires content != []
    ensures var words := Text.CountChar(content, ' ') + 1;
      && (ReadTime(content) - 1) * 200 < words <= ReadTime(content) * 200
      && ReadTime(content) >= 1
  {
    Text.SplitLength(content, ' ');
  }

  /** The excerpt the pre-save hook generates: the first 150 characters and "...". */
  function AutoExcerpt(content: string): (e: string)
    ensures |e| <= ExcerptSourceLength + 3 && |e| <= MaxExcerptLength
    ensures e == Text.Prefix(content, ExcerptSourceLength) + "..."
    ensures e[..|e| - 3] == content[..|e| - 3]
  {
    Text.Prefix(content, ExcerptSourceLength) + "..."
  }

  /** pre('save'): fill an empty excerpt from a non-empty content; change nothing else. */
  function PreSave(p: Post): (q: Post)
    ensures p.excerpt != [] ==> q == p
    ensures p.excerpt == [] && p.content != [] ==> q == p.(excerpt := AutoExcerpt(p.content))
    ensures p.content == [] ==> q == p
    ensures q.(excerpt := p.excerpt) == p
  {
    if p.excerpt == [] && p.content != [] then p.(excerpt := AutoExcerpt(p.content)) else p
  }

  /** Running the hook again changes nothing, and a saved post with content always has
      an excerpt within the schema's bound when it had one before. */
  lemma PreSaveIdempotent(p: Post)
    ensures PreSave(PreSave(p)) == PreSave(p)
    ensures p.content != [] ==> PreSave(p).excerpt != []
    ensures |p.excerpt| <= MaxExcerptLength ==> |PreSave(p).excerpt| <= MaxExcerptLength
  {
  }

  /** What every stored post satisfies. */
  predicate PostOk(p: Post) {
    && p.title != [] && Text.IsTrimmed(p.title) && |p.title| <= MaxTitleLength
    && |p.content| >= MinContentLength
    && |p.excerpt| <= MaxExcerptLength
    && TagsNormalized(p.tags)
    && NoDup(p.likes) && NoDup(p.bookmarks)
  }

  /** The document BlogPost.create saves: setters, defaults (status published, views 0,
      readTime from the content, image ''), no likes or bookmarks, then the pre-save hook. */
  function NewPost(id: Id, input: PostInput, author: Id, now: nat): (p: Post)
    requires Accepted(input, true)
    ensures PostOk(p)
    ensures p.id == id && p.author == author && p.createdAt == now
    ensures p.title == Text.Trim(input.title.value) && p.content == input.content.value
    ensures p.likes == [] && p.bookmarks == []
    ensures input.status.None? ==> p.status == Published
    ensures input.views.None? ==> p.views == 0
    ensures input.readTime.None? ==> p.readTime == ReadTime(p.content) && p.readTime >= 1
    ensures input.excerpt.Some? && input.excerpt.value != [] ==> p.excerpt == input.excerpt.value
    ensures input.excerpt.None? || input.excerpt.value == [] ==> p.excerpt == AutoExcerpt(p.content)
    ensures p.tags == NormalizeTags(GetOr(input.tags, [])) && p.image == GetOr(input.image, [])
    ensures p.status == if input.status.Some? then ParseStatus(input.status.value).value else Published
    ensures p.views == GetOr(input.views, 0) && p.readTime == GetOr(input.readTime, ReadTime(p.content))
  {
    var content := input.content.value;
    var title := Text.Trim(input.title.value);
    var excerpt := GetOr(input.excerpt, []);
    var tags := NormalizeTags(GetOr(input.tags, []));
    ReadTimeBounds(content);
    assert TagsNormalized(tags);
    assert |content| >= MinContentLength && |excerpt| <= MaxExcerptLength;
    assert title != [] && |title| <= MaxTitleLength;
    var p := Post(
      id,
      title,
      content,
      excerpt,
      tags,
      GetOr(input.image, []),
      author,
      [], [],
      if input.status.Some? then ParseStatus(input.status.value).value else Published,
      GetOr(input.readTime, ReadTime(content)),
      GetOr(input.views, 0),
      now);
    assert PostOk(p);
    PreSaveIdempotent(p);
    PreSave(p)
  }

  /** findByIdAndUpdate with the body: every field the body carries is set (through the
      setters), including author; the hooks and defaults do not run. */
  function Patched(p: Post, input: PostInput): (q: Post)
    requires PostOk(p) && Accepted(input, false)
    ensures PostOk(q)
    ensures q.id == p.id && q.likes == p.likes && q.bookmarks == p.bookmarks && q.createdAt == p.createdAt
    ensures q.title == if input.title.Some? then Text.Trim(input.title.value) else p.title
    ensures q.content == if input.content.Some? then input.content.value else p.content
    ensures q.excerpt == if input.excerpt.Some? then input.excerpt.value else p.excerpt
    ensures q.author == if input.author.Some? then input.author.value else p.author
    ensures q.readTime == if input.readTime.Some? then input.readTime.value else p.readTime
    ensures q.tags == if input.tags.Some? then NormalizeTags(input.tags.value) else p.tags
    ensures q.image == GetOr(input.image, p.image) && q.views == GetOr(input.views, p.views)
    ensures q.status == if input.status.Some? then ParseStatus(input.status.value).value else p.status
  {
    var title := if input.title.Some? then Text.Trim(input.title.value) else p.title;
    var content := GetOr(input.content, p.content);
    var excerpt := GetOr(input.excerpt, p.excerpt);
    var tags := if input.tags.Some? then NormalizeTags(input.tags.value) else p.tags;
    assert TagsNormalized(tags);
    assert |content| >= MinContentLength && |excerpt| <= MaxExcerptLength;
    assert title != [] && |title| <= MaxTitleLength;
    Post(
      p.id, title, content, excerpt, tags,
      GetOr(input.image, p.image),
      GetOr(input.author, p.author),
      p.likes, p.bookmarks,
      if input.status.Some? then ParseStatus(input.status.value).value else p.status,
      GetOr(input.readTime, p.readTime),
      GetOr(input.views, p.views),
      p.createdAt)
  }

  /** The comments virtual: the comments on the post, in collection order. */
  function CommentsOf(postId: Id, comments: seq<Comment>): (r: seq<Comment>)
    ensures forall c :: c in r <==> c in comments && c.post == postId
  {
    Filter(OnPost(postId), comments)
  }

  /** The commentsCount virtual. */
  function CommentsCount(postId: Id, comments: seq<Comment>): nat {
    |CommentsOf(postId, comments)|
  }

  /** commentsCount counts each comment on the post once: adding a comment raises the
      count of its own post by one and leaves every other post's count alone. */
  lemma CommentsCountAppend(postId: Id, comments: seq<Comment>, c: Comment)
    ensures CommentsCount(postId, comments + [c]) == CommentsCount(postId, comments) + (if c.post == postId then 1 else 0)
  {
    FilterConcat(OnPost(postId), comments, [c]);
    assert Filter(OnPost(postId), [c]) == if c.post == postId then [c] else [];
  }

  /** Every comment is counted for its own post: the comments on the post and the
      comments elsewhere together make up the whole collection. */
  lemma {:induction false} CommentsCountPartition(postId: Id, comments: seq<Comment>)
    ensures CommentsCount(postId, comments) + |Filter(OffPost(postId), comments)| == |comments|
    decreases |comments|
  {
    if comments != [] {
      CommentsCountPartition(postId, comments[1..]);
    }
  }
}
