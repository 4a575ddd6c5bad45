/** The navigation bar's search box: the suggestion list filtered from the suggestion
    data, and the state the typing, focus, blur, search, suggestion, logo, logout and
    menu handlers update. */
module Navbar {
  import opened Common
  import opened Seqs
  import Text

  const MaxSuggestions: nat := 5

  /** The suggestion test for an already lower-cased query. */
  function MatchesQuery(q: string): string -> bool {
    (item: string) => Text.Contains(Text.Lower(item), q)
  }

  /** The suggestion data that matches the query, in order, before the cut to five. */
  function Matches(items: seq<string>, query: string): (r: seq<string>)
    ensures forall s :: s in r <==> s in items && Text.Contains(Text.Lower(s), Text.Lower(query))
  {
    Filter(MatchesQuery(Text.Lower(query)), items)
  }

  /** filteredSuggestions: the first five matches. */
  function FilteredSuggestions(items: seq<string>, query: string): (r: seq<string>)
    ensures |r| <= MaxSuggestions
    ensures |r| == if |Matches(items, query)| < MaxSuggestions then |Matches(items, query)| else MaxSuggestions
    ensures r == Matches(items, query)[..|r|]
  {
    var m := Matches(items, query);
    var r := Window(m, 0, MaxSuggestions);
    assert r == m[..|r|];
    r
  }

  /** Every suggestion is an item that contains the query, ignoring case; when there
      are at most five such items, they are all suggested. */
  lemma SuggestionsExact(items: seq<string>, query: string, s: string)
    ensures s in FilteredSuggestions(items, query) ==> s in items && Text.Contains(Text.Lower(s), Text.Lower(query))
    ensures |Matches(items, query)| <= MaxSuggestions ==>
      (s in FilteredSuggestions(items, query) <==> s in items && Text.Contains(Text.Lower(s), Text.Lower(query)))
  {
    var m := Matches(items, query);
    var r := FilteredSuggestions(items, query);
    if s in r {
      var i :| 0 <= i < |r| && r[i] == s;
      assert m[i] in m;
    }
    if |m| <= MaxSuggestions {
      assert r == m;
    }
  }

  /** The empty query suggests the first five items (all of them when fewer). */
  lemma EmptyQuerySuggestsFirstFive(items: seq<string>)
    ensures FilteredSuggestions(items, []) == items[..if |items| < MaxSuggestions then |items| else MaxSuggestions]
  {
    assert Text.Lower([]) == [];
    forall s | s in items ensures MatchesQuery([])(s) {
      Text.ContainsEmpty(Text.Lower(s));
    }
    FilterAll(MatchesQuery([]), items);
  }

  /** There is something to suggest exactly when some item contains the query. */
  lemma SuggestionsNonEmptyIff(items: seq<string>, query: string)
    ensures |FilteredSuggestions(items, query)| > 0 <==>
      exists i :: 0 <= i < |items| && Text.Contains(Text.Lower(items[i]), Text.Lower(query))
  {
    var m := Matches(items, query);
    if |m| > 0 {
      assert m[0] in m;
      var i :| 0 <= i < |items| && items[i] == m[0];
    } else {
      forall i | 0 <= i < |items| ensures !Text.Contains(Text.Lower(items[i]), Text.Lower(query)) {
        assert items[i] in items && items[i] !in m;
      }
    }
  }

  /** The case of the query does not matter. */
  lemma SuggestionsIgnoreCase(items: seq<string>, query: string)
    ensures FilteredSuggestions(items, Text.Lower(query)) == FilteredSuggestions(items, query)
  {
    Text.LowerIsLower(query);
  }

  /** Typing more narrows the matches: when the lower-cased q1 contains the lower-cased
      q2, every item matching q1 matches q2. */
  lemma MatchesNarrow(items: seq<string>, q1: string, q2: string)
    requires Text.Contains(Text.Lower(q1), Text.Lower(q2))
    ensures forall s :: s in Matches(items, q1) ==> s in Matches(items, q2)
  {
    forall s | s in Matches(items, q1) ensures s in Matches(items, q2) {
      Text.ContainsTransitive(Text.Lower(s), Text.Lower(q1), Text.Lower(q2));
    }
  }

  /** The bar's state; searches lists the values passed to onSearch and navigations the
      paths navigated to, oldest first. */
  class NavbarState {
    var searchQuery: string
    var isMenuOpen: bool
    var showSuggestions: bool
    var searches: seq<string>
    var navigations: seq<string>
    var logouts: nat

    constructor()
      ensures searchQuery == [] && !isMenuOpen && !showSuggestions
      ensures searches == [] && navigations == [] && logouts == 0
    {
      searchQuery := [];
      isMenuOpen := false;
      showSuggestions := false;
      searches := [];
      navigations := [];
      logouts := 0;
    }

    /** The dropdown renders when suggestions are shown and there is one to show. */
    predicate DropdownVisible(items: seq<string>): (b: bool)
      reads this
      ensures b <==> showSuggestions && exists i :: 0 <= i < |items| && Text.Contains(Text.Lower(items[i]), Text.Lower(searchQuery))
    {
      SuggestionsNonEmptyIff(items, searchQuery);
      showSuggestions && |FilteredSuggestions(items, searchQuery)| > 0
    }

    /** onChange: the query becomes the text, suggestions are shown, and onSearch gets
        the text. */
    method Type(text: string)
      modifies this
      ensures searchQuery == text && showSuggestions
      ensures searches == old(searches) + [text]
      ensures isMenuOpen == old(isMenuOpen) && navigations == old(navigations) && logouts == old(logouts)
      ensures forall items :: DropdownVisible(items) <==> |FilteredSuggestions(items, text)| > 0
    {
      searchQuery := text;
      showSuggestions := true;
      searches := searches + [text];
    }

    /** onFocus: suggestions are shown exactly when there are some. */
    method Focus(items: seq<string>)
      modifies this
      ensures showSuggestions <==> |FilteredSuggestions(items, searchQuery)| > 0
      ensures DropdownVisible(items) == showSuggestions
      ensures searchQuery == old(searchQuery) && searches == old(searches)
      ensures isMenuOpen == old(isMenuOpen) && navigations == old(navigations) && logouts == old(logouts)
    {
      showSuggestions := |FilteredSuggestions(items, searchQuery)| > 0;
    }

    /** handleBlur: focus moving to an element inside the search container keeps the
        suggestions; anywhere else hides them. */
    method Blur(focusStaysInside: bool)
      modifies this
      ensures showSuggestions == (old(showSuggestions) && focusStaysInside)
      ensures searchQuery == old(searchQuery) && searches == old(searches)
      ensures isMenuOpen == old(isMenuOpen) && navigations == old(navigations) && logouts == old(logouts)
    {
      if !focusStaysInside {
        showSuggestions := false;
      }
    }

    /** handleSearch: onSearch gets the current query and the suggestions close. */
    method Search()
      modifies this
      ensures searches == old(searches) + [old(searchQuery)] && !showSuggestions
      ensures searchQuery == old(searchQuery)
      ensures isMenuOpen == old(isMenuOpen) && navigations == old(navigations) && logouts == old(logouts)
    {
      searches := searches + [searchQuery];
      showSuggestions := false;
    }

    /** handleSuggestionClick: the suggestion becomes the query, goes to onSearch, and
        the dropdown closes. */
    method SuggestionClick(suggestion: string)
      modifies this
      ensures searchQuery == suggestion && !showSuggestions
      ensures searches == old(searches) + [suggestion]
      ensures forall items :: !DropdownVisible(items)
      ensures isMenuOpen == old(isMenuOpen) && navigations == old(navigations) && logouts == old(logouts)
    {
      searchQuery := suggestion;
      searches := searches + [suggestion];
      showSuggestions := false;
    }

    /** handlePage (the logo): the query is cleared, onSearch gets the empty query, the
        bar navigates home and the menu closes. */
    method LogoClick()
      modifies this
      ensures searchQuery == [] && searches == old(searches) + [[]]
      ensures navigations == old(navigations) + ["/"] && !isMenuOpen
      ensures showSuggestions == old(showSuggestions) && logouts == old(logouts)
    {
      searchQuery := [];
      searches := searches + [[]];
      navigations := navigations + ["/"];
      isMenuOpen := false;
    }

    /** handleLogout: log out, navigate home, close the menu; the query stays. */
    method Logout()
      modifies this
      ensures logouts == old(logouts) + 1 && navigations == old(navigations) + ["/"] && !isMenuOpen
      ensures searchQuery == old(searchQuery) && searches == old(searches) && showSuggestions == old(showSuggestions)
    {
      logouts := logouts + 1;
      navigations := navigations + ["/"];
      isMenuOpen := false;
    }

    /** The mobile menu button flips the menu. */
    method ToggleMenu()
      modifies this
      ensures isMenuOpen == !old(isMenuOpen)
      ensures searchQuery == old(searchQuery) && searches == old(searches) && showSuggestions == old(showSuggestions)
      ensures navigations == old(navigations) && logouts == old(logouts)
    {
      isMenuOpen := !isMenuOpen;
    }
  }
}
