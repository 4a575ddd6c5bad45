/** The paginated post grid: six posts a page, the page count, the page-change handler
    that ignores pages out of range, and what the grid renders. */
module BlogList {
  import opened Common
  import opened Seqs
  import Paging

  const PostsPerPage: nat := 6
  const EmptyMessage := "No posts found."

  /** Math.ceil(count / 6): the fewest pages of six that hold count posts. */
  function TotalPages(count: nat): (t: nat)
    ensures (t - 1) * PostsPerPage < count <= t * PostsPerPage
    ensures t == 0 <==> count == 0
  {
    var q := Paging.CeilDiv(count, PostsPerPage as int);
    assert q >= 0;
    q
  }

  /** The posts on a page: posts.slice((page - 1) * 6, (page - 1) * 6 + 6). */
  function PagePosts<T>(posts: seq<T>, page: nat): (r: seq<T>)
    requires page >= 1
    ensures |r| <= PostsPerPage
    ensures forall i :: 0 <= i < |r| ==> (page - 1) * PostsPerPage + i < |posts| && r[i] == posts[(page - 1) * PostsPerPage + i]
    ensures page <= TotalPages(|posts|) ==> r != []
    ensures page < TotalPages(|posts|) ==> |r| == PostsPerPage
    ensures page > TotalPages(|posts|) ==> r == []
  {
    Window(posts, (page - 1) * PostsPerPage, PostsPerPage)
  }

  /** Pages first..last, one after the other. */
  function PagesThrough<T>(posts: seq<T>, first: nat, last: nat): seq<T>
    requires first >= 1
    decreases last + 1 - first
  {
    if first > last then [] else PagePosts(posts, first) + PagesThrough(posts, first + 1, last)
  }

  lemma {:induction false} PagesThroughFrom<T>(posts: seq<T>, k: nat)
    requires 1 <= k <= TotalPages(|posts|) + 1
    ensures PagesThrough(posts, k, TotalPages(|posts|)) == PagesFrom(posts, PostsPerPage, k - 1)
    decreases TotalPages(|posts|) + 1 - k
  {
    var t := TotalPages(|posts|);
    if k <= t {
      assert (k - 1) * PostsPerPage <= (t - 1) * PostsPerPage;
      assert k * PostsPerPage == (k - 1) * PostsPerPage + PostsPerPage;
      PagesThroughFrom(posts, k + 1);
    }
  }

  /** Reading pages 1 to totalPages in turn shows every post once, in order. */
  lemma PagesCoverPosts<T>(posts: seq<T>)
    ensures PagesThrough(posts, 1, TotalPages(|posts|)) == posts
  {
    PagesThroughFrom(posts, 1);
    PagesFromCover(posts, PostsPerPage, 0);
  }

  /** The pagination bar: Previous, the page buttons 1..totalPages, Next. */
  datatype Controls = Controls(prevDisabled: bool, nextDisabled: bool, pageButtons: seq<int>, current: nat)

  datatype View<T> = Empty(message: string) | Grid(cards: seq<T>, controls: Option<Controls>)

  /** What the list renders: the empty message for no posts, otherwise the current
      page's cards and, when there is more than one page, the pagination bar. */
  function Render<T>(posts: seq<T>, currentPage: nat): (v: View<T>)
    requires currentPage >= 1
    ensures v.Empty? <==> posts == []
    ensures v.Empty? ==> v.message == EmptyMessage
    ensures v.Grid? ==> v.cards == PagePosts(posts, currentPage)
    ensures v.Grid? ==> (v.controls.Some? <==> |posts| > PostsPerPage)
    ensures v.Grid? && v.controls.Some? ==>
      && v.controls.value.current == currentPage
      && (v.controls.value.prevDisabled <==> currentPage == 1)
      && (v.controls.value.nextDisabled <==> currentPage == TotalPages(|posts|))
      && |v.controls.value.pageButtons| == TotalPages(|posts|)
      && forall i :: 0 <= i < |v.controls.value.pageButtons| ==> v.controls.value.pageButtons[i] == i + 1
  {
    if |posts| == 0 then Empty(EmptyMessage)
    else
      var t := TotalPages(|posts|);
      var bar := if t > 1 then Some(Controls(currentPage == 1, currentPage == t, seq(t, i => i + 1), currentPage)) else None;
      Grid(PagePosts(posts, currentPage), bar)
  }

  /** The component's state: the current page, starting at 1. */
  class Pagination {
    var currentPage: int

    predicate Valid()
      reads this
    {
      currentPage >= 1
    }

    constructor()
      ensures Valid() && currentPage == 1
    {
      currentPage := 1;
    }

    /** handlePageChange: a page below 1 or past the last is ignored; any other page
        becomes current and the window scrolls to the top (scrolled). */
    method HandlePageChange(page: int, postCount: nat) returns (scrolled: bool)
      requires Valid()
      modifies this
      ensures Valid()
      ensures scrolled <==> 1 <= page <= TotalPages(postCount)
      ensures currentPage == if scrolled then page else old(currentPage)
    {
      if page < 1 || page > TotalPages(postCount) {
        return false;
      }
      currentPage := page;
      scrolled := true;
    }
  }

  /** Every button of the bar names a page the handler accepts, and from any accepted
      page the grid shows a non-empty page. */
  lemma ButtonsAccepted<T>(posts: seq<T>, currentPage: nat, i: nat)
    requires currentPage >= 1
    requires Render(posts, currentPage).Grid? && Render(posts, currentPage).controls.Some?
    requires i < |Render(posts, currentPage).controls.value.pageButtons|
    ensures var p := Render(posts, currentPage).controls.value.pageButtons[i];
      1 <= p <= TotalPages(|posts|) && PagePosts(posts, p) != []
  {
  }
}
