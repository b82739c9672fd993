/** `src/lib/reminder.ts`: the "needs attention" test and the filter, count
    and text choice that drive the toolbar badge. */
module Reminder {
  import opened Types
  import opened Seqs
  import opened Text

  /** `checkLinkNeedsAttention`, evaluated at time `now`. Its two arms are one
      comparison: a reminder is set (non-zero) and the last activity lies
      strictly before `now` minus that many days. */
  predicate NeedsAttention(link: SavedLink, now: int): (r: bool)
    ensures r <==> NumSet(link.reminderDays) && LastActivity(link) < now - link.reminderDays.value * DAY_MS
  {
    if !NumSet(link.reminderDays) then false
    else
      var reminderThreshold := now - link.reminderDays.value * DAY_MS;
      || (NumSet(link.lastOpenedAt) && link.lastOpenedAt.value < reminderThreshold)
      || (!NumSet(link.lastOpenedAt) && link.timestamp < reminderThreshold)
  }

  /** No reminder, or a reminder of 0 days, never needs attention. */
  lemma UnsetNeverNeedsAttention(link: SavedLink, now: int)
    requires link.reminderDays == None || link.reminderDays == Some(0)
    ensures !NeedsAttention(link, now)
  {
  }

  /** Once a link needs attention it keeps needing it as time passes. */
  lemma AttentionMonotone(link: SavedLink, now: int, later: int)
    requires now <= later && NeedsAttention(link, now)
    ensures NeedsAttention(link, later)
  {
  }

  /** Opening a link with a positive reminder clears its attention at that
      instant (`now` is a real clock reading, so it is not the falsy 0). */
  lemma OpeningClearsAttention(link: SavedLink, now: int)
    requires link.reminderDays.Some? && link.reminderDays.value > 0
    requires now != 0
    ensures !NeedsAttention(link.(lastOpenedAt := Some(now)), now)
  {
  }

  /** The filter in `updateBadge`: a link without a (non-zero) reminder or
      flagged deleted is dropped, otherwise `checkLinkNeedsAttention` decides. */
  function LinksNeedingAttention(links: seq<SavedLink>, now: int): (r: seq<SavedLink>)
    ensures forall l :: l in r <==> l in links && !Flag(l.isDeleted) && NeedsAttention(l, now)
    ensures forall l :: multiset(r)[l] == if !Flag(l.isDeleted) && NeedsAttention(l, now) then multiset(links)[l] else 0
    ensures IsSubsequence(r, links)
  {
    var p := (l: SavedLink) => !(!NumSet(l.reminderDays) || Flag(l.isDeleted)) && NeedsAttention(l, now);
    FilterIsSubsequence(links, p);
    Filter(links, p)
  }

  /** Reference count: one for each link that is not deleted and needs attention. */
  function CountNeedingAttention(links: seq<SavedLink>, now: int): nat
  {
    if links == [] then 0
    else (if !Flag(links[0].isDeleted) && NeedsAttention(links[0], now) then 1 else 0)
         + CountNeedingAttention(links[1..], now)
  }

  /** `linksNeedingAttention.length` is the reference count. */
  lemma {:induction false} AttentionCountIsReference(links: seq<SavedLink>, now: int)
    ensures |LinksNeedingAttention(links, now)| == CountNeedingAttention(links, now)
  {
    if links != [] {
      AttentionCountIsReference(links[1..], now);
    }
  }

  /** Adding a deleted link never changes the count. */
  lemma {:induction false} DeletedNeverCounted(links: seq<SavedLink>, now: int, deleted: SavedLink)
    requires Flag(deleted.isDeleted)
    ensures CountNeedingAttention(links + [deleted], now) == CountNeedingAttention(links, now)
  {
    if links == [] {
      assert [deleted][1..] == [];
    } else {
      assert (links + [deleted])[1..] == links[1..] + [deleted];
      DeletedNeverCounted(links[1..], now, deleted);
    }
  }

  /** The badge text: the decimal count when positive, the empty string (which
      clears the badge) when zero. */
  function BadgeText(links: seq<SavedLink>, now: int): (text: string)
    ensures text == "" <==> CountNeedingAttention(links, now) == 0
    ensures text != "" ==> IsDigits(text) && ParseDecimal(text) == CountNeedingAttention(links, now)
    ensures text != "" ==> text[0] != '0'
  {
    var count := |LinksNeedingAttention(links, now)|;
    AttentionCountIsReference(links, now);
    ParseNatToString(count);
    if count > 0 then NatToString(count) else ""
  }
}
