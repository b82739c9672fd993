/** `src/components/views/cold-storage/index.tsx`: the archive list's search
    and its newest-archived-first order. */
module ColdStorage {
  import opened Types
  import opened Seqs
  import LinkList

  /** `filteredLinks`: the archived links matching the search, in order. */
  function FilteredLinks(archivedLinks: seq<SavedLink>, searchQuery: string): (r: seq<SavedLink>)
    ensures forall l :: l in r <==> l in archivedLinks && LinkList.MatchesSearch(l, searchQuery)
    ensures forall l :: multiset(r)[l] == if LinkList.MatchesSearch(l, searchQuery) then multiset(archivedLinks)[l] else 0
    ensures IsSubsequence(r, archivedLinks)
  {
    FilterIsSubsequence(archivedLinks, l => LinkList.MatchesSearch(l, searchQuery));
    Filter(archivedLinks, l => LinkList.MatchesSearch(l, searchQuery))
  }

  /** An empty search lists every archived link. */
  lemma EmptyQueryKeepsAll(archivedLinks: seq<SavedLink>)
    ensures FilteredLinks(archivedLinks, "") == archivedLinks
  {
    FilterKeepsAll(archivedLinks, l => LinkList.MatchesSearch(l, ""));
  }

  /** The sort key `link.archivedAt || 0`. */
  function ArchivedKey(link: SavedLink): int
  {
    if link.archivedAt.Some? then link.archivedAt.value else 0
  }

  /** Non-increasing in the sort key. */
  predicate NewestFirst(s: seq<SavedLink>)
  {
    forall i, j :: 0 <= i < j < |s| ==> ArchivedKey(s[i]) >= ArchivedKey(s[j])
  }

  /** Places `link` before the first element with a key not above its own. */
  function Insert(link: SavedLink, sorted: seq<SavedLink>): (r: seq<SavedLink>)
    requires NewestFirst(sorted)
    ensures NewestFirst(r)
    ensures multiset(r) == multiset(sorted) + multiset{link}
    decreases |sorted|
  {
    if sorted == [] || ArchivedKey(link) >= ArchivedKey(sorted[0]) then [link] + sorted
    else
      var rest := Insert(link, sorted[1..]);
      assert sorted == [sorted[0]] + sorted[1..];
      BoundedByHead(sorted, link, rest);
      PrependKeepsOrder(sorted[0], rest);
      [sorted[0]] + rest
  }

  /** Every element of a rearrangement of `sorted[1..]` plus a `link` with a
      smaller key has a key no greater than the head's. */
  lemma BoundedByHead(sorted: seq<SavedLink>, link: SavedLink, rest: seq<SavedLink>)
    requires sorted != [] && NewestFirst(sorted)
    requires ArchivedKey(link) < ArchivedKey(sorted[0])
    requires multiset(rest) == multiset(sorted[1..]) + multiset{link}
    ensures forall i :: 0 <= i < |rest| ==> ArchivedKey(sorted[0]) >= ArchivedKey(rest[i])
  {
    forall i | 0 <= i < |rest|
      ensures ArchivedKey(sorted[0]) >= ArchivedKey(rest[i])
    {
      assert rest[i] in multiset(rest);
      if rest[i] != link {
        assert rest[i] in multiset(sorted[1..]);
        var j :| 0 <= j < |sorted[1..]| && sorted[1..][j] == rest[i];
        assert sorted[j + 1] == rest[i];
      }
    }
  }

  lemma PrependKeepsOrder(link: SavedLink, sorted: seq<SavedLink>)
    requires NewestFirst(sorted)
    requires forall i :: 0 <= i < |sorted| ==> ArchivedKey(link) >= ArchivedKey(sorted[i])
    ensures NewestFirst([link] + sorted)
  {
    var r := [link] + sorted;
    forall i, j | 0 <= i < j < |r|
      ensures ArchivedKey(r[i]) >= ArchivedKey(r[j])
    {
      assert r[j] == sorted[j - 1];
      if i > 0 {
        assert r[i] == sorted[i - 1];
      }
    }
  }

  /** `sortedLinks`: a copy of the list, newest archived first. The
      comparator subtracts the two `archivedAt` values (a missing one counting
      as 0), and `Array.prototype.sort` is stable, so links with equal keys
      keep their list order. */
  function SortedLinks(filteredLinks: seq<SavedLink>): (r: seq<SavedLink>)
    ensures NewestFirst(r)
    ensures multiset(r) == multiset(filteredLinks)
    ensures |r| == |filteredLinks|
    decreases |filteredLinks|
  {
    if filteredLinks == [] then []
    else
      assert filteredLinks == [filteredLinks[0]] + filteredLinks[1..];
      Insert(filteredLinks[0], SortedLinks(filteredLinks[1..]))
  }

  /** The links whose sort key is `k`. */
  function WithKey(k: int): SavedLink -> bool
  {
    l => ArchivedKey(l) == k
  }

  lemma {:induction false} InsertKeepsTies(link: SavedLink, sorted: seq<SavedLink>, k: int)
    requires NewestFirst(sorted)
    ensures Filter(Insert(link, sorted), WithKey(k)) == Filter([link] + sorted, WithKey(k))
    decreases |sorted|
  {
    if !(sorted == [] || ArchivedKey(link) >= ArchivedKey(sorted[0])) {
      var p := WithKey(k);
      var rest := sorted[1..];
      InsertKeepsTies(link, rest, k);
      assert Insert(link, sorted) == [sorted[0]] + Insert(link, rest);
      assert sorted == [sorted[0]] + rest;
      FilterCons(sorted[0], Insert(link, rest), p);
      FilterCons(link, rest, p);
      FilterCons(link, sorted, p);
      FilterCons(sorted[0], rest, p);
      // The head and the inserted link differ in key, so at most one is kept.
      assert !(p(link) && p(sorted[0]));
    }
  }

  /** The sort is stable: links sharing a key keep their relative order. */
  lemma {:induction false} SortIsStable(filteredLinks: seq<SavedLink>, k: int)
    ensures Filter(SortedLinks(filteredLinks), WithKey(k)) == Filter(filteredLinks, WithKey(k))
    decreases |filteredLinks|
  {
    if filteredLinks != [] {
      var rest := filteredLinks[1..];
      SortIsStable(rest, k);
      InsertKeepsTies(filteredLinks[0], SortedLinks(rest), k);
      assert ([filteredLinks[0]] + SortedLinks(rest))[1..] == SortedLinks(rest);
    }
  }

  /** A list already newest first is left as it is. */
  lemma {:induction false} SortedInputUnchanged(filteredLinks: seq<SavedLink>)
    requires NewestFirst(filteredLinks)
    ensures SortedLinks(filteredLinks) == filteredLinks
    decreases |filteredLinks|
  {
    if filteredLinks != [] {
      var rest := filteredLinks[1..];
      assert NewestFirst(rest);
      SortedInputUnchanged(rest);
      assert filteredLinks == [filteredLinks[0]] + rest;
    }
  }
}
