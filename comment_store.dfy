/** The comment controller over the comment collection: list top-level comments of a post
    with their replies, create a comment or reply, edit, delete with its direct replies,
    and toggle a like. */
module CommentStore {
  import opened Common
  import opened Seqs
  import opened CommentModel
  import opened ErrorHandler
  import Paging
  import Toggle
  import Text

  function IdOf(c: Comment): int { c.id }
  function CreatedAtOf(c: Comment): int { c.createdAt }

  /** What every stored comment satisfies: the schema rules, a duplicate-free like list,
      an id and timestamps issued before the current counters, and a parent id that was
      issued before its own (a parent must exist when a reply is created). */
  predicate CommentOk(c: Comment, nextId: nat, clock: nat) {
    && ContentAccepted(c.content)
    && NoDup(c.likes)
    && c.id < nextId
    && c.createdAt < clock
    && (c.editedAt.Some? ==> c.editedAt.value < clock)
    && (c.parent.Some? ==> c.parent.value < c.id)
  }

  /** The collection invariant: ids and creation times strictly increase in collection order. */
  ghost predicate WellFormed(cs: seq<Comment>, nextId: nat, clock: nat) {
    && (forall c :: c in cs ==> CommentOk(c, nextId, clock))
    && IncreasingBy(IdOf, cs)
    && IncreasingBy(CreatedAtOf, cs)
  }

  /** Comment.findById: the position of the comment with that id. */
  function IndexOf(cs: seq<Comment>, id: Id): (r: Option<nat>)
    ensures r.Some? ==> r.value < |cs| && cs[r.value].id == id
    ensures r.None? ==> forall c :: c in cs ==> c.id != id
    decreases |cs|
  {
    if cs == [] then None
    else if cs[0].id == id then Some(0)
    else match IndexOf(cs[1..], id)
      case Some(i) => Some(i + 1)
      case None => None
  }

  /** An edited comment: new (trimmed) content, flagged as edited at time now; author,
      post, parent, likes, id and creation time are kept. */
  function Edited(c: Comment, raw: string, now: nat): (e: Comment)
    ensures e.content == Text.Trim(raw) && e.isEdited && e.editedAt == Some(now)
    ensures e.id == c.id && e.author == c.author && e.post == c.post && e.parent == c.parent
    ensures e.likes == c.likes && e.createdAt == c.createdAt
  {
    c.(content := Text.Trim(raw), isEdited := true, editedAt := Some(now))
  }

  function Survives(id: Id): Comment -> bool {
    (c: Comment) => c.id != id && c.parent != Some(id)
  }

  /** The collection after deleteMany({ parent: id }) and deleteOne of comment id. */
  function AfterDelete(cs: seq<Comment>, id: Id): (r: seq<Comment>)
    ensures forall c :: c in r <==> c in cs && c.id != id && c.parent != Some(id)
  {
    Filter(Survives(id), cs)
  }

  function TopLevelOn(blogId: Id): Comment -> bool {
    (c: Comment) => c.post == blogId && c.parent == None
  }

  /** Comment.find({ post: blogId, parent: null }) in collection (creation) order. */
  function TopLevelOf(cs: seq<Comment>, blogId: Id): (r: seq<Comment>)
    ensures forall c :: c in r <==> c in cs && c.post == blogId && c.parent == None
  {
    Filter(TopLevelOn(blogId), cs)
  }

  /** A listed comment with its populated replies. */
  datatype Thread = Thread(comment: Comment, replies: seq<Comment>)

  datatype CommentPage = CommentPage(count: nat, total: nat, page: int, limit: int, pages: int, data: seq<Thread>)

  datatype LikeResult = LikeResult(liked: bool, likesCount: nat)

  /** Removing comments keeps the collection well formed. */
  lemma FilterWellFormed(p: Comment -> bool, cs: seq<Comment>, nextId: nat, clock: nat)
    requires WellFormed(cs, nextId, clock)
    ensures WellFormed(Filter(p, cs), nextId, clock)
  {
    FilterIncreasing(p, IdOf, cs);
    FilterIncreasing(p, CreatedAtOf, cs);
  }

  /** Replacing a comment by one with the same id and creation time keeps the
      collection well formed when the new one is itself valid. */
  lemma ReplaceWellFormed(cs: seq<Comment>, i: nat, c: Comment, nextId: nat, clock: nat)
    requires WellFormed(cs, nextId, clock) && i < |cs|
    requires c.id == cs[i].id && c.createdAt == cs[i].createdAt && CommentOk(c, nextId, clock)
    ensures WellFormed(cs[i := c], nextId, clock)
  {
    var r := cs[i := c];
    forall x | x in r ensures CommentOk(x, nextId, clock) {
      var k :| 0 <= k < |r| && r[k] == x;
      if k != i { assert x == cs[k]; }
    }
  }

  /** Appending a valid comment carrying the next id and the current time keeps the
      collection well formed under the advanced counters. */
  lemma AppendWellFormed(cs: seq<Comment>, c: Comment, nextId: nat, clock: nat)
    requires WellFormed(cs, nextId, clock)
    requires c.id == nextId && c.createdAt == clock && CommentOk(c, nextId + 1, clock + 1)
    ensures WellFormed(cs + [c], nextId + 1, clock + 1)
  {
    AdvanceWellFormed(cs, nextId, clock, nextId + 1, clock + 1);
    var r := cs + [c];
    forall i, j | 0 <= i < j < |r| ensures IdOf(r[i]) < IdOf(r[j]) && CreatedAtOf(r[i]) < CreatedAtOf(r[j]) {
      assert CommentOk(r[i], nextId + 1, clock + 1);
      if j < |cs| { assert r[i] == cs[i] && r[j] == cs[j]; }
      else { assert r[i] == cs[i] && CommentOk(cs[i], nextId, clock); }
    }
  }

  /** Every counter bound still holds after the counters advance. */
  lemma AdvanceWellFormed(cs: seq<Comment>, nextId: nat, clock: nat, nextId': nat, clock': nat)
    requires WellFormed(cs, nextId, clock) && nextId <= nextId' && clock <= clock'
    ensures WellFormed(cs, nextId', clock')
  {
    forall x | x in cs ensures CommentOk(x, nextId', clock') {
      assert CommentOk(x, nextId, clock);
    }
  }

  /** Each listed comment with its replies. */
  function Threads(window: seq<Comment>, all: seq<Comment>): (r: seq<Thread>)
    ensures |r| == |window|
    ensures forall k :: 0 <= k < |r| ==> r[k].comment == window[k] && r[k].replies == Replies(window[k], all)
  {
    seq(|window|, k requires 0 <= k < |window| => Thread(window[k], Replies(window[k], all)))
  }

  /** A page of a post's top-level comments, newest first: every entry is a top-level
      comment of that post, creation times strictly decrease along the page, and each
      entry's replies come oldest first. */
  lemma NewestWindow(cs: seq<Comment>, nextId: nat, clock: nat, blogId: Id, skip: nat, n: nat)
    requires WellFormed(cs, nextId, clock)
    ensures var data := Threads(Window(Reverse(TopLevelOf(cs, blogId)), skip, n), cs);
      && |data| <= n
      && (forall k :: 0 <= k < |data| ==> data[k].comment in cs && data[k].comment.post == blogId && data[k].comment.parent == None)
      && (forall k, l :: 0 <= k < l < |data| ==> data[k].comment.createdAt > data[l].comment.createdAt)
      && (forall k :: 0 <= k < |data| ==> IncreasingBy(CreatedAtOf, data[k].replies))
  {
    var top := TopLevelOf(cs, blogId);
    FilterIncreasing(TopLevelOn(blogId), CreatedAtOf, cs);
    ReverseDecreasing(CreatedAtOf, top);
    var window := Window(Reverse(top), skip, n);
    WindowDecreasing(CreatedAtOf, Reverse(top), skip, n);
    WindowWithin(Reverse(top), skip, n);
    ReverseWithin(top);
    var data := Threads(window, cs);
    forall k | 0 <= k < |data|
      ensures data[k].comment in cs && data[k].comment.post == blogId && data[k].comment.parent == None
      ensures IncreasingBy(CreatedAtOf, data[k].replies)
    {
      assert data[k].comment == window[k] && window[k] in window;
      RepliesOldestFirst(window[k], cs, nextId, clock);
    }
    forall k, l | 0 <= k < l < |data| ensures data[k].comment.createdAt > data[l].comment.createdAt {
      assert CreatedAtOf(window[k]) > CreatedAtOf(window[l]);
    }
  }

  /** Replies of any comment come oldest first, because the collection is in creation order. */
  lemma RepliesOldestFirst(c: Comment, cs: seq<Comment>, nextId: nat, clock: nat)
    requires WellFormed(cs, nextId, clock)
    ensures IncreasingBy(CreatedAtOf, Replies(c, cs))
  {
    FilterIncreasing((x: Comment) => x.parent == Some(c.id), CreatedAtOf, cs);
  }

  /** Deleting a comment removes it and its direct replies and nothing else; a reply to
      one of those replies survives with a parent that no longer exists. */
  lemma DeleteLeavesGrandchildren(cs: seq<Comment>, nextId: nat, clock: nat, id: Id, child: Comment, grandchild: Comment)
    requires WellFormed(cs, nextId, clock)
    requires child in cs && child.parent == Some(id)
    requires grandchild in cs && grandchild.parent == Some(child.id)
    ensures child !in AfterDelete(cs, id)
    ensures grandchild in AfterDelete(cs, id)
    ensures forall c :: c in AfterDelete(cs, id) ==> c.id != child.id
  {
    assert CommentOk(child, nextId, clock) && CommentOk(grandchild, nextId, clock);
  }

  /** Following parent links only ever reaches smaller ids, so no comment is its own
      ancestor. */
  lemma ParentIsOlder(cs: seq<Comment>, nextId: nat, clock: nat, c: Comment)
    requires WellFormed(cs, nextId, clock) && c in cs && c.parent.Some?
    ensures c.parent.value < c.id
  {
    assert CommentOk(c, nextId, clock);
  }

  class CommentCollection {
    var comments: seq<Comment>
    var nextId: nat
    var clock: nat

    ghost predicate Valid()
      reads this
    {
      WellFormed(comments, nextId, clock)
    }

    constructor ()
      ensures Valid() && comments == []
    {
      comments, nextId, clock := [], 0, 0;
    }

    /** getComments: the top-level comments of a post, newest first, paginated by
        offset, each with its replies oldest first. */
    method GetComments(blogId: Id, pageRaw: Option<int>, limitRaw: Option<int>) returns (r: Reply<CommentPage>)
      requires Valid()
      ensures var page := Paging.ParamOr(pageRaw, 1); var limit := Paging.ParamOr(limitRaw, 20);
        r.Ok? <==> (page - 1) * limit >= 0
      ensures r.Ok? ==>
        var page := Paging.ParamOr(pageRaw, 1); var limit := Paging.ParamOr(limitRaw, 20);
        var top := TopLevelOf(comments, blogId);
        var data := r.value.data;
        && r.status == 200
        && r.value.total == |top| && r.value.page == page && r.value.limit == limit
        && r.value.pages == Paging.CeilDiv(|top|, limit)
        && r.value.count == |data| <= Paging.Abs(limit)
        && data == Threads(Window(Reverse(top), (page - 1) * limit, Paging.Abs(limit)), comments)
        && (forall k :: 0 <= k < |data| ==> data[k].comment in comments && data[k].comment.post == blogId && data[k].comment.parent == None)
        && (forall k, l :: 0 <= k < l < |data| ==> data[k].comment.createdAt > data[l].comment.createdAt)
        && (forall k :: 0 <= k < |data| ==> IncreasingBy(CreatedAtOf, data[k].replies))
    {
      var page := Paging.ParamOr(pageRaw, 1);
      var limit := Paging.ParamOr(limitRaw, 20);
      var skip := (page - 1) * limit;
      if skip < 0 {
        return Raised(StoreError("BSON field 'skip' value must be >= 0"));
      }
      var top := TopLevelOf(comments, blogId);
      var data := Threads(Window(Reverse(top), skip, Paging.Abs(limit)), comments);
      NewestWindow(comments, nextId, clock, blogId, skip, Paging.Abs(limit));
      r := Ok(200, CommentPage(|data|, |top|, page, limit, Paging.CeilDiv(|top|, limit), data));
    }

    /** createComment: the post must exist, and so must the parent when one is given
        (on any post); the new comment gets the caller as author. */
    method Create(blogId: Id, who: Principal, content: string, parent: Option<Id>, postIds: set<Id>) returns (r: Reply<Comment>)
      requires Valid()
      modifies this
      ensures Valid()
      ensures blogId !in postIds ==> r == Refused(404, "Blog post not found")
      ensures blogId in postIds && parent.Some? && IndexOf(old(comments), parent.value).None? ==>
        r == Refused(404, "Parent comment not found")
      ensures blogId in postIds && (parent.None? || IndexOf(old(comments), parent.value).Some?) && ContentFailures(content) != [] ==>
        r == Raised(ValidationFailure("Comment validation failed", ContentFailures(content)))
      ensures !r.Ok? ==> comments == old(comments) && nextId == old(nextId) && clock == old(clock)
      ensures r.Ok? <==> blogId in postIds && (parent.None? || IndexOf(old(comments), parent.value).Some?) && ContentFailures(content) == []
      ensures r.Ok? ==>
        && r.status == 201
        && r.value == NewComment(old(nextId), content, who.id, blogId, parent, old(clock))
        && comments == old(comments) + [r.value]
        && nextId == old(nextId) + 1 && clock == old(clock) + 1
    {
      if blogId !in postIds {
        return Refused(404, "Blog post not found");
      }
      if parent.Some? && IndexOf(comments, parent.value).None? {
        return Refused(404, "Parent comment not found");
      }
      var failures := ContentFailures(content);
      if failures != [] {
        return Raised(ValidationFailure("Comment validation failed", failures));
      }
      var c := NewComment(nextId, content, who.id, blogId, parent, clock);
      if parent.Some? {
        var p := IndexOf(comments, parent.value).value;
        assert CommentOk(comments[p], nextId, clock);
      }
      Save(c);
      r := Ok(201, c);
    }

    /** The save of a new comment that passed validation: it carries the next id and
        the current time and goes to the end of the collection. */
    method Save(c: Comment)
      requires Valid() && c.id == nextId && c.createdAt == clock && CommentOk(c, nextId + 1, clock + 1)
      modifies this
      ensures Valid()
      ensures comments == old(comments) + [c] && nextId == old(nextId) + 1 && clock == old(clock) + 1
    {
      AppendWellFormed(comments, c, nextId, clock);
      comments := comments + [c];
      nextId, clock := nextId + 1, clock + 1;
    }

    /** updateComment: 404 for a missing comment, then 401 unless the caller owns it or
        is an administrator; otherwise the content is replaced and the comment marked edited. */
    method Update(id: Id, who: Principal, content: string) returns (r: Reply<Comment>)
      requires Valid()
      modifies this
      ensures Valid()
      ensures nextId == old(nextId)
      ensures IndexOf(old(comments), id).None? ==> r == Refused(404, "Comment not found")
      ensures IndexOf(old(comments), id).Some? && !CanMutate(who, old(comments)[IndexOf(old(comments), id).value].author) ==>
        r == Refused(401, "Not authorized to update this comment")
      ensures IndexOf(old(comments), id).Some? && CanMutate(who, old(comments)[IndexOf(old(comments), id).value].author) && ContentFailures(content) != [] ==>
        r == Raised(ValidationFailure("Validation failed", ContentFailures(content)))
      ensures !r.Ok? ==> comments == old(comments) && clock == old(clock)
      ensures r.Ok? <==>
        && IndexOf(old(comments), id).Some?
        && CanMutate(who, old(comments)[IndexOf(old(comments), id).value].author)
        && ContentFailures(content) == []
      ensures r.Ok? ==>
        var i := IndexOf(old(comments), id).value;
        && CanMutate(who, old(comments)[i].author) && ContentFailures(content) == []
        && r.status == 200
        && r.value == Edited(old(comments)[i], content, old(clock))
        && comments == old(comments)[i := r.value]
        && clock == old(clock) + 1
    {
      var found := IndexOf(comments, id);
      if found.None? {
        return Refused(404, "Comment not found");
      }
      var i := found.value;
      if !CanMutate(who, comments[i].author) {
        return Refused(401, "Not authorized to update this comment");
      }
      var failures := ContentFailures(content);
      if failures != [] {
        return Raised(ValidationFailure("Validation failed", failures));
      }
      var e := Edited(comments[i], content, clock);
      assert CommentOk(comments[i], nextId, clock);
      AdvanceWellFormed(comments, nextId, clock, nextId, clock + 1);
      ReplaceWellFormed(comments, i, e, nextId, clock + 1);
      comments := comments[i := e];
      clock := clock + 1;
      r := Ok(200, e);
    }

    /** deleteComment: after the same 404 and 401 checks, removes the comment and every
        comment whose parent is it. */
    method Delete(id: Id, who: Principal) returns (r: Reply<string>)
      requires Valid()
      modifies this
      ensures Valid()
      ensures nextId == old(nextId) && clock == old(clock)
      ensures IndexOf(old(comments), id).None? ==> r == Refused(404, "Comment not found")
      ensures IndexOf(old(comments), id).Some? && !CanMutate(who, old(comments)[IndexOf(old(comments), id).value].author) ==>
        r == Refused(401, "Not authorized to delete this comment")
      ensures !r.Ok? ==> comments == old(comments)
      ensures r.Ok? <==>
        IndexOf(old(comments), id).Some? && CanMutate(who, old(comments)[IndexOf(old(comments), id).value].author)
      ensures r.Ok? ==>
        && CanMutate(who, old(comments)[IndexOf(old(comments), id).value].author)
        && r == Ok(200, "Comment deleted successfully")
        && comments == AfterDelete(old(comments), id)
    {
      var found := IndexOf(comments, id);
      if found.None? {
        return Refused(404, "Comment not found");
      }
      if !CanMutate(who, comments[found.value].author) {
        return Refused(401, "Not authorized to delete this comment");
      }
      FilterWellFormed(Survives(id), comments, nextId, clock);
      comments := AfterDelete(comments, id);
      r := Ok(200, "Comment deleted successfully");
    }

    /** Comment.deleteMany({ post: postId }), the cascade of a post deletion. */
    method DeleteForPost(postId: Id)
      requires Valid()
      modifies this
      ensures Valid()
      ensures nextId == old(nextId) && clock == old(clock)
      ensures comments == Filter(OffPost(postId), old(comments))
    {
      FilterWellFormed(OffPost(postId), comments, nextId, clock);
      comments := Filter(OffPost(postId), comments);
    }

    /** likeComment: toggles the caller in the comment's like list and reports the new
        membership and count. */
    method Like(id: Id, who: Principal) returns (r: Reply<LikeResult>)
      requires Valid()
      modifies this
      ensures Valid()
      ensures nextId == old(nextId) && clock == old(clock)
      ensures IndexOf(old(comments), id).None? ==> r == Refused(404, "Comment not found") && comments == old(comments)
      ensures IndexOf(old(comments), id).Some? ==>
        var i := IndexOf(old(comments), id).value;
        var t := Toggle.Toggle(old(comments)[i].likes, who.id);
        && r == Ok(200, LikeResult(t.on, |t.list|))
        && comments == old(comments)[i := old(comments)[i].(likes := t.list)]
    {
      var found := IndexOf(comments, id);
      if found.None? {
        return Refused(404, "Comment not found");
      }
      var i := found.value;
      var c := comments[i];
      var t := Toggle.Toggle(c.likes, who.id);
      assert CommentOk(c, nextId, clock);
      ReplaceWellFormed(comments, i, c.(likes := t.list), nextId, clock);
      comments := comments[i := c.(likes := t.list)];
      r := Ok(200, LikeResult(t.on, |t.list|));
    }
  }
}
