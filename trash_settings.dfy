/** `src/lib/hooks/use-trash-settings.ts`: the trash settings record, its
    setters, and the retention purge. */
module TrashSettings {
  import opened Types
  import opened Seqs

  const DEFAULT_TRASH_RETENTION_DAYS: int := 7

  datatype TrashSettings = TrashSettings(retentionDays: int, autoDeleteEnabled: bool)

  /** The value used while nothing is stored. */
  const DefaultTrashSettings: TrashSettings := TrashSettings(DEFAULT_TRASH_RETENTION_DAYS, true)

  /** The settings with only the retention period replaced. */
  function SetRetentionDays(settings: TrashSettings, days: int): (r: TrashSettings)
    ensures r.retentionDays == days && r.autoDeleteEnabled == settings.autoDeleteEnabled
  {
    settings.(retentionDays := days)
  }

  /** The settings with only the auto-delete switch replaced. */
  function SetAutoDeleteEnabled(settings: TrashSettings, enabled: bool): (r: TrashSettings)
    ensures r.autoDeleteEnabled == enabled && r.retentionDays == settings.retentionDays
  {
    settings.(autoDeleteEnabled := enabled)
  }

  /** The purge's filter predicate: a link without a (non-zero) `deletedAt` is
      kept, otherwise it is kept while fewer than `retentionDays` days (as a
      real quotient) have passed since deletion. The quotient test is the
      integer comparison `now - deletedAt < retentionDays * DAY_MS`. */
  predicate KeptInTrash(link: SavedLink, retentionDays: int, now: int): (r: bool)
    ensures r <==> !NumSet(link.deletedAt) || now - link.deletedAt.value < retentionDays * DAY_MS
  {
    if !NumSet(link.deletedAt) then true
    else
      var elapsed := (now - link.deletedAt.value) as real;
      var daysInTrash := elapsed / (DAY_MS as real);
      assert daysInTrash * (DAY_MS as real) == elapsed;
      daysInTrash < retentionDays as real
  }

  /** The links that survive the purge at `now`, in their original order. */
  function PurgeOldTrash(links: seq<SavedLink>, retentionDays: int, now: int): (r: seq<SavedLink>)
    ensures forall l :: l in r <==> l in links && KeptInTrash(l, retentionDays, now)
    ensures forall l :: multiset(r)[l] == if KeptInTrash(l, retentionDays, now) then multiset(links)[l] else 0
    ensures IsSubsequence(r, links)
  {
    var p := (l: SavedLink) => KeptInTrash(l, retentionDays, now);
    FilterIsSubsequence(links, p);
    Filter(links, p)
  }

  /** A purged link stays purged as time passes. */
  lemma PurgeMonotone(link: SavedLink, retentionDays: int, now: int, later: int)
    requires now <= later && !KeptInTrash(link, retentionDays, now)
    ensures !KeptInTrash(link, retentionDays, later)
  {
  }

  /** Running the purge again at the same time removes nothing more. */
  lemma PurgeIdempotent(links: seq<SavedLink>, retentionDays: int, now: int)
    ensures PurgeOldTrash(PurgeOldTrash(links, retentionDays, now), retentionDays, now)
         == PurgeOldTrash(links, retentionDays, now)
  {
    FilterIdempotent(links, (l: SavedLink) => KeptInTrash(l, retentionDays, now));
  }

  /** `checkAndDeleteOldTrash`: with auto-delete off nothing is written
      (`None`); otherwise the purged list is written. */
  function CheckAndDeleteOldTrash(settings: TrashSettings, links: seq<SavedLink>, now: int): (written: Option<seq<SavedLink>>)
    ensures written.None? <==> !settings.autoDeleteEnabled
    ensures written.Some? ==> forall l :: l in links && !NumSet(l.deletedAt) ==> l in written.value
    ensures written.Some? ==> written.value == PurgeOldTrash(links, settings.retentionDays, now)
  {
    if !settings.autoDeleteEnabled then None
    else Some(PurgeOldTrash(links, settings.retentionDays, now))
  }
}
