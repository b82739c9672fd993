/** `src/components/views/home/link-list.tsx`: the home list's search and
    category filter. The trash and cold-storage views test links with the
    same search predicate. */
module LinkList {
  import opened Types
  import opened Text
  import opened Seqs
  import QuickFilterTabs

  /** The search test: an empty query matches everything, otherwise the
      lower-cased query must occur in the lower-cased title, note or url, so
      at least one of them is as long as the query. */
  predicate MatchesSearch(link: SavedLink, searchQuery: string): (r: bool)
    ensures searchQuery == "" ==> r
    ensures r && searchQuery != "" ==>
      |searchQuery| <= |link.title| || |searchQuery| <= |link.note| || |searchQuery| <= |link.url|
  {
    searchQuery == "" ||
    var query := ToLower(searchQuery);
    Includes(ToLower(link.title), query) || Includes(ToLower(link.note), query) || Includes(ToLower(link.url), query)
  }

  /** A query matches exactly when it occurs, ignoring case, at some position
      of the title, the note or the url. */
  lemma SearchIff(link: SavedLink, searchQuery: string)
    requires searchQuery != ""
    ensures MatchesSearch(link, searchQuery) <==>
      || (exists i :: OccursAt(ToLower(link.title), ToLower(searchQuery), i))
      || (exists i :: OccursAt(ToLower(link.note), ToLower(searchQuery), i))
      || (exists i :: OccursAt(ToLower(link.url), ToLower(searchQuery), i))
  {
    var query := ToLower(searchQuery);
    IncludesAt(ToLower(link.title), query);
    IncludesAt(ToLower(link.note), query);
    IncludesAt(ToLower(link.url), query);
    if Includes(ToLower(link.title), query) {
      assert exists i :: OccursAt(ToLower(link.title), ToLower(searchQuery), i);
      assert MatchesSearch(link, searchQuery);
    } else if Includes(ToLower(link.note), query) {
      assert exists i :: OccursAt(ToLower(link.note), ToLower(searchQuery), i);
      assert MatchesSearch(link, searchQuery);
    } else if Includes(ToLower(link.url), query) {
      assert exists i :: OccursAt(ToLower(link.url), ToLower(searchQuery), i);
      assert MatchesSearch(link, searchQuery);
    } else {
      assert !MatchesSearch(link, searchQuery);
    }
  }

  /** Some selected id is listed in the link's categories. */
  predicate HasSelectedCategory(link: SavedLink, selectedCategories: seq<string>)
  {
    exists i :: 0 <= i < |selectedCategories| && HasCategory(link, selectedCategories[i])
  }

  /** The category test, which only applies when some category is selected. */
  predicate MatchesCategories(link: SavedLink, selectedCategories: seq<string>)
  {
    |selectedCategories| > 0 ==> HasSelectedCategory(link, selectedCategories)
  }

  /** The whole `filter` callback. */
  predicate Kept(link: SavedLink, searchQuery: string, selectedCategories: seq<string>)
  {
    MatchesSearch(link, searchQuery) && MatchesCategories(link, selectedCategories)
  }

  /** The links that pass both tests, in their original order. */
  function SearchAndCategoryFilter(links: seq<SavedLink>, searchQuery: string, selectedCategories: seq<string>): (r: seq<SavedLink>)
    ensures forall l :: l in r <==> && l in links && MatchesSearch(l, searchQuery)
                                    && (|selectedCategories| > 0 ==> exists i :: 0 <= i < |selectedCategories| && HasCategory(l, selectedCategories[i]))
    ensures forall l :: multiset(r)[l] == if Kept(l, searchQuery, selectedCategories) then multiset(links)[l] else 0
    ensures IsSubsequence(r, links)
  {
    FilterIsSubsequence(links, l => Kept(l, searchQuery, selectedCategories));
    Filter(links, l => Kept(l, searchQuery, selectedCategories))
  }

  /** `filteredLinks`. The quick-filter selection is accepted and not applied. */
  function FilteredLinks(links: seq<SavedLink>, searchQuery: string, selectedFilter: Option<QuickFilterTabs.QuickFilter>,
                         selectedCategories: seq<string>): (r: seq<SavedLink>)
    ensures forall l :: l in r <==> l in links && Kept(l, searchQuery, selectedCategories)
    ensures forall l :: multiset(r)[l] == if Kept(l, searchQuery, selectedCategories) then multiset(links)[l] else 0
    ensures IsSubsequence(r, links)
  {
    SearchAndCategoryFilter(links, searchQuery, selectedCategories)
  }

  /** With no query and no selected category every link is listed. */
  lemma NoFilterKeepsAll(links: seq<SavedLink>, selectedFilter: Option<QuickFilterTabs.QuickFilter>)
    ensures FilteredLinks(links, "", selectedFilter, []) == links
  {
    FilterKeepsAll(links, l => Kept(l, "", []));
  }

  /** With a category selected, a link without categories is never listed. */
  lemma UncategorizedDropped(link: SavedLink, searchQuery: string, selectedCategories: seq<string>)
    requires |selectedCategories| > 0 && CategoryIds(link) == []
    ensures !Kept(link, searchQuery, selectedCategories)
  {
  }

  /** The result does not depend on the quick-filter selection. */
  lemma QuickFilterIgnored(links: seq<SavedLink>, searchQuery: string, selectedCategories: seq<string>,
                           f: Option<QuickFilterTabs.QuickFilter>, g: Option<QuickFilterTabs.QuickFilter>)
    ensures FilteredLinks(links, searchQuery, f, selectedCategories) == FilteredLinks(links, searchQuery, g, selectedCategories)
  {
  }

  /** The two tests combine conjunctively: the list is the search result
      narrowed by the category test. */
  lemma FiltersCompose(links: seq<SavedLink>, searchQuery: string, selectedCategories: seq<string>)
    ensures SearchAndCategoryFilter(links, searchQuery, selectedCategories) ==
      Filter(SearchAndCategoryFilter(links, searchQuery, []), l => MatchesCategories(l, selectedCategories))
  {
    var all := l => Kept(l, searchQuery, selectedCategories);
    var search := l => Kept(l, searchQuery, []);
    var cats := l => MatchesCategories(l, selectedCategories);
    FilterAnd(links, search, cats, all);
  }
}
