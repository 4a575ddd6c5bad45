/** The Comment schema: a comment on a post, optionally a reply to another comment,
    with a like list and an edited flag. */
module CommentModel {
  import opened Common
  import opened Seqs
  import Text

  const MaxContentLength: nat := 1000

  /** A stored comment. parent == None is a top-level comment; createdAt and editedAt
      are ticks of the store's logical clock. */
  datatype Comment = Comment(
    id: Id,
    content: string,
    author: Id,
    post: Id,
    parent: Option<Id>,
    likes: seq<Id>,
    isEdited: bool,
    editedAt: Option<nat>,
    createdAt: nat)

  /** The content rules of the schema, checked on the value after the trim setter. */
  predicate ContentAccepted(content: string) {
    content != [] && Text.IsTrimmed(content) && |content| <= MaxContentLength
  }

  /** Validation of the content path: required first, then maxlength, one message at most. */
  function ContentFailures(raw: string): (f: seq<(string, string)>)
    ensures f == [] <==> ContentAccepted(Text.Trim(raw))
    ensures |f| <= 1
    ensures Text.Trim(raw) == [] ==> f == [("content", "Please provide comment content")]
  {
    var content := Text.Trim(raw);
    if content == [] then [("content", "Please provide comment content")]
    else if |content| > MaxContentLength then [("content", "Comment cannot be more than 1000 characters")]
    else []
  }

  /** The document Comment.create builds: content trimmed, no likes, not edited,
      parent null unless given. */
  function NewComment(id: Id, raw: string, author: Id, post: Id, parent: Option<Id>, now: nat): (c: Comment)
    requires ContentFailures(raw) == []
    ensures ContentAccepted(c.content) && c.content == Text.Trim(raw)
    ensures c.id == id && c.author == author && c.post == post && c.parent == parent
    ensures c.likes == [] && !c.isEdited && c.editedAt == None && c.createdAt == now
  {
    Comment(id, Text.Trim(raw), author, post, parent, [], false, None, now)
  }

  /** The replies virtual: the comments whose parent is c, in collection order. */
  function Replies(c: Comment, all: seq<Comment>): (r: seq<Comment>)
    ensures forall x :: x in r <==> x in all && x.parent == Some(c.id)
    ensures |r| <= |all|
  {
    Filter((x: Comment) => x.parent == Some(c.id), all)
  }

  predicate IsTopLevel(c: Comment) {
    c.parent == None
  }

  function OnPost(postId: Id): Comment -> bool {
    (c: Comment) => c.post == postId
  }

  function OffPost(postId: Id): Comment -> bool {
    (c: Comment) => c.post != postId
  }
}
