/** `src/lib/archive.ts`: which links the daily sweep archives, and which ones
    the pre-archive notice warns about. The clock is the parameter `now`. */
module Archive {
  import opened Types
  import opened Seqs

  const DEFAULT_ARCHIVE_DAYS: int := 30

  /** The link lists a category id that is in a non-empty exclusion list. The
      length guard changes nothing: an empty list contains no id. */
  predicate HasExcludedCategory(link: SavedLink, excludedCategories: seq<string>): (r: bool)
    ensures r <==> exists id :: id in CategoryIds(link) && id in excludedCategories
  {
    && |excludedCategories| > 0
    && link.categories.Some?
    && exists id :: id in link.categories.value && id in excludedCategories
  }

  /** The guards both policies share: not archived, not deleted, not pinned,
      and no excluded category. */
  predicate Eligible(link: SavedLink, excludedCategories: seq<string>)
  {
    && !Flag(link.isArchived)
    && !Flag(link.isDeleted)
    && !Flag(link.isPinned)
    && !HasExcludedCategory(link, excludedCategories)
  }

  /** `checkLinkShouldBeArchived`: an eligible link whose last activity lies
      strictly before `now` minus `archiveDays` days. */
  function ShouldBeArchived(link: SavedLink, archiveDays: int, excludedCategories: seq<string>, now: int): (r: bool)
    ensures r <==> Eligible(link, excludedCategories) && LastActivity(link) < now - archiveDays * DAY_MS
  {
    if Flag(link.isArchived) || Flag(link.isDeleted) then false
    else if Flag(link.isPinned) then false
    else if HasExcludedCategory(link, excludedCategories) then false
    else
      var archiveThreshold := now - archiveDays * DAY_MS;
      LastActivity(link) < archiveThreshold
  }

  /** An archived, deleted or pinned link is never archived, however old. */
  lemma InactiveOrPinnedNeverArchived(link: SavedLink, archiveDays: int, excludedCategories: seq<string>, now: int)
    requires Flag(link.isArchived) || Flag(link.isDeleted) || Flag(link.isPinned)
    ensures !ShouldBeArchived(link, archiveDays, excludedCategories, now)
  {
  }

  /** A link carrying an excluded category id is never archived. */
  lemma ExcludedNeverArchived(link: SavedLink, archiveDays: int, excludedCategories: seq<string>, now: int, id: string)
    requires id in CategoryIds(link) && id in excludedCategories
    ensures !ShouldBeArchived(link, archiveDays, excludedCategories, now)
  {
  }

  /** An empty exclusion list excludes nothing: only the flags and the age decide. */
  lemma EmptyExclusionsExcludeNothing(link: SavedLink, archiveDays: int, now: int)
    ensures ShouldBeArchived(link, archiveDays, [], now) <==>
      && !Flag(link.isArchived) && !Flag(link.isDeleted) && !Flag(link.isPinned)
      && LastActivity(link) < now - archiveDays * DAY_MS
  {
  }

  /** A link that qualifies at `now` still qualifies at any later time. */
  lemma ArchiveMonotone(link: SavedLink, archiveDays: int, excludedCategories: seq<string>, now: int, later: int)
    requires now <= later
    requires ShouldBeArchived(link, archiveDays, excludedCategories, now)
    ensures ShouldBeArchived(link, archiveDays, excludedCategories, later)
  {
  }

  /** The filter predicate of `getLinksToBeArchivedSoon`: eligible, and last
      active in `[now - archiveDays days, now - (archiveDays - daysThreshold) days)`. */
  predicate ArchivedSoon(link: SavedLink, archiveDays: int, excludedCategories: seq<string>, daysThreshold: int, now: int): (r: bool)
    ensures r <==> && Eligible(link, excludedCategories)
                   && now - archiveDays * DAY_MS <= LastActivity(link) < now - (archiveDays - daysThreshold) * DAY_MS
    ensures r ==> !ShouldBeArchived(link, archiveDays, excludedCategories, now)
  {
    var soonThreshold := now - (archiveDays - daysThreshold) * DAY_MS;
    var archiveThreshold := now - archiveDays * DAY_MS;
    if Flag(link.isArchived) || Flag(link.isDeleted) || Flag(link.isPinned) then false
    else if HasExcludedCategory(link, excludedCategories) then false
    else LastActivity(link) < soonThreshold && LastActivity(link) >= archiveThreshold
  }

  /** `getLinksToBeArchivedSoon`: the input links in the warning window, in
      input order. */
  function LinksToBeArchivedSoon(links: seq<SavedLink>, archiveDays: int, excludedCategories: seq<string>,
                                 daysThreshold: int, now: int): (r: seq<SavedLink>)
    ensures IsSubsequence(r, links)
    ensures forall l :: l in r <==> l in links && ArchivedSoon(l, archiveDays, excludedCategories, daysThreshold, now)
    ensures forall l :: multiset(r)[l] == if ArchivedSoon(l, archiveDays, excludedCategories, daysThreshold, now) then multiset(links)[l] else 0
  {
    var p := (l: SavedLink) => ArchivedSoon(l, archiveDays, excludedCategories, daysThreshold, now);
    FilterIsSubsequence(links, p);
    Filter(links, p)
  }

  /** The two windows are disjoint: no link in the warning window is one the
      sweep would archive now. */
  lemma SoonWindowDisjoint(links: seq<SavedLink>, archiveDays: int, excludedCategories: seq<string>,
                           daysThreshold: int, now: int, link: SavedLink)
    requires link in LinksToBeArchivedSoon(links, archiveDays, excludedCategories, daysThreshold, now)
    ensures !ShouldBeArchived(link, archiveDays, excludedCategories, now)
  {
  }

  /** Every link in the warning window passes the sweep's eligibility guards. */
  lemma SoonWindowEligible(links: seq<SavedLink>, archiveDays: int, excludedCategories: seq<string>,
                           daysThreshold: int, now: int, link: SavedLink)
    requires link in LinksToBeArchivedSoon(links, archiveDays, excludedCategories, daysThreshold, now)
    ensures Eligible(link, excludedCategories)
    ensures now - archiveDays * DAY_MS <= LastActivity(link) < now - (archiveDays - daysThreshold) * DAY_MS
  {
  }

  /** A warning window of zero or fewer days holds nothing. */
  lemma SoonWindowEmpty(links: seq<SavedLink>, archiveDays: int, excludedCategories: seq<string>,
                        daysThreshold: int, now: int)
    requires daysThreshold <= 0
    ensures LinksToBeArchivedSoon(links, archiveDays, excludedCategories, daysThreshold, now) == []
  {
  }
}
