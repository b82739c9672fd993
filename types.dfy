/** The records of `src/lib/types.ts`, with JavaScript's optional fields made
    explicit, and the truthiness tests the code applies to them. */
module Types {

  datatype Option<T> = None | Some(value: T)

  /** One day in milliseconds, `24 * 60 * 60 * 1000`, as the policies write it. */
  const DAY_MS: int := 24 * 60 * 60 * 1000

  /** A user-defined label. `color` and `icon` are optional keys: `None` is an
      absent key. */
  datatype Category = Category(id: string, name: string, color: Option<string>, icon: Option<string>)

  /** A saved link. Besides the fields `types.ts` declares, the record carries
      the `isArchived`/`archivedAt` fields the archive and cold-storage code read
      and the `tags` field the popup writes. */
  datatype SavedLink = SavedLink(
    url: string,
    title: string,
    note: string,
    timestamp: int,
    categories: Option<seq<string>>,
    tags: Option<seq<string>>,
    isPinned: Option<bool>,
    lastOpenedAt: Option<int>,
    deletedAt: Option<int>,
    isDeleted: Option<bool>,
    position: Option<int>,
    reminderDays: Option<int>,
    isArchived: Option<bool>,
    archivedAt: Option<int>)

  /** The truthiness of an optional boolean field: `if (link.isPinned)`. */
  predicate Flag(b: Option<bool>)
  {
    b == Some(true)
  }

  /** The truthiness of an optional number field: absent and `0` are falsy. */
  predicate NumSet(n: Option<int>)
  {
    n.Some? && n.value != 0
  }

  /** The last activity: `lastOpenedAt` when it is set and non-zero, else the
      save `timestamp`. */
  function LastActivity(link: SavedLink): int
  {
    if NumSet(link.lastOpenedAt) then link.lastOpenedAt.value else link.timestamp
  }

  /** The link's category ids, or none when the field is absent. */
  function CategoryIds(link: SavedLink): seq<string>
  {
    if link.categories.Some? then link.categories.value else []
  }

  /** `link.categories?.includes(id)` read as a boolean. */
  predicate HasCategory(link: SavedLink, id: string)
  {
    link.categories.Some? && id in link.categories.value
  }

  /** A record holding only the four required fields. */
  function NewLink(url: string, title: string, note: string, timestamp: int): SavedLink
  {
    SavedLink(url, title, note, timestamp, None, None, None, None, None, None, None, None, None, None)
  }
}
