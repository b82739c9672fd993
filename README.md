# why-did-i-save-this, modelled in Dafny

"Why did I save this" is a browser extension for saving links with a note.
Each saved link can carry categories and tags. After a period without being
opened, a link is archived to cold storage, it can go to a trash that is
purged after a retention period, and it can carry a reminder. A reminder
makes the link "need attention" and counts towards the toolbar badge.

This project models the logic of the extension that does not depend on the
browser or on rendering, and proves properties about that model.

- **Lifecycle policies** (`Archive`, `Reminder`, `TrashSettings`):
  - auto-archive eligibility and the "archived soon" warning window;
  - the reminder test, and the badge count and text;
  - the trash settings, their setters and the retention purge.

  The clock is the parameter `now` (milliseconds). JavaScript truthiness is
  written out: a `0` in `lastOpenedAt`, `deletedAt` or `reminderDays` counts
  as absent.
- **Stores** (`Storage`, `Links`, `Categories`):
  - `Storage.Store` is a class holding the two arrays kept under the keys
    `"saved_links"` and `"categories"`;
  - `saveLink`, `deleteLink`, `saveCategory` and `deleteCategory` are methods
    that read the array, change it and write it back;
  - `getLinkByUrl` is a function.

  Each method is tied to a specification function (`Upsert`, `WithoutUrl`,
  `UpsertCategory`, `WithoutId`). Lemmas prove the append/replace shape, that
  unique keys stay unique, and delete idempotence.
- **Backup** (`Backup`):
  - the record `exportData` builds;
  - `importData`'s validation and its section-by-section merge;
  - the section-by-section merge is stated over a small JSON datatype, because
    the stored values are untyped.
- **Forms**:
  - `CategoryDialog` is the create/edit dialog: name required, case-insensitive
    uniqueness that skips the edited category, and the record it builds;
  - `PopupCategoryManager` is the popup's quick-create form and its icon
    search;
  - `Popup` is the popup's save form: tag parsing, the url/title choice, the
    edit toggle, and saving into the store.

  The dialogs' React state is a class per component and the handlers are
  methods.
- **View logic**:
  - `LinkList`: search and category filtering, shared by home, trash and cold
    storage;
  - `TrashView`: the categories in use in the trash;
  - `ColdStorage`: the newest-archived-first sort;
  - `SavedLinksView`: grouping into a map, as a method with loops over the
    links and their ids, proved against the specification function `Bucket`;
  - `Selection`: the toggle updater five views share;
  - `CategorySelector`: resolving selected ids to pills;
  - `LinkCard`: the chip row with its `+N` overflow;
  - `QuickFilterTabs`: the quick-filter tabs;
  - `Reorder`: the reorder mode.
- `Seqs` and `Text` model the JavaScript primitives the code calls:
  - `findIndex`, `filter` and order-preserving subsequences;
  - `toLowerCase`, `includes`, `trim`, `split(",")` and `Number.toString`.

Inputs the code takes from the environment are parameters:

- `Date.now()` is `now`;
- `crypto.randomUUID()` is `freshId`;
- the active tab is `Popup.Tab`;
- the answer to the overwrite confirmation is `overwrite`.

In a few places the code departs from the extension's intended behaviour.
The model follows the code:

- **Archive last activity.** The intended last activity of a link is the
  later of `lastOpenedAt` and `timestamp`. The code uses `lastOpenedAt`
  whenever it is set and non-zero, even when it is earlier
  (src/lib/archive.ts:27).
- **Backup conflicts.** An imported backup is meant to prefer existing data
  on conflict, as the backup dialog's copy also says. The code lets every non-empty backup section
  replace the stored one (src/lib/hooks/use-backup.ts:91-108).
- **Duplicate saves.** A duplicate save is meant to hand back a
  deferred-commit thunk. The `saveLink` shown awaits a boolean answer and returns a
  boolean (src/lib/hooks/use-links.ts:38-44).
- **Trash retention.** Links deleted "within" the retention period are meant
  to be kept. The code keeps a link only while strictly fewer days have
  passed (src/lib/hooks/use-trash-settings.ts:47).

## Model

| member | source | states |
|---|---|---|
| Archive.ShouldBeArchived | src/lib/archive.ts:9-30 | True iff the link is not archived, deleted or pinned, carries no excluded category, and its last activity is strictly before `now - archiveDays` days. |
| Archive.HasExcludedCategory | src/lib/archive.ts:18-23 | True iff the link lists an id that is in the exclusion list; the length guard changes nothing. |
| Archive.InactiveOrPinnedNeverArchived | src/lib/archive.ts:14-16 | An archived, deleted or pinned link is never archived, whatever its age. |
| Archive.ExcludedNeverArchived | src/lib/archive.ts:18-23 | A link that lists an excluded category id is never archived. |
| Archive.EmptyExclusionsExcludeNothing | src/lib/archive.ts:18-23 | With no exclusions, only the flags and the age decide. This is both directions of the iff. |
| Archive.ArchiveMonotone | src/lib/archive.ts:25-29 | A link that qualifies at `now` qualifies at every later time. |
| Archive.ArchivedSoon | src/lib/archive.ts:45-57 | True iff the link passes the sweep's guards and its last activity lies in `[now - archiveDays d, now - (archiveDays - daysThreshold) d)`; such a link is never archived at the same `now`. |
| Archive.LinksToBeArchivedSoon | src/lib/archive.ts:35-59 | The result is an order-preserving subsequence of the input. It holds exactly the input links that pass the guards and whose last activity lies in the warning window. Each kept element occurs as often as in the input. |
| Archive.SoonWindowDisjoint | src/lib/archive.ts:43-57 | No link in the warning window is archived by the sweep at the same `now`. |
| Archive.SoonWindowEligible | src/lib/archive.ts:46-57 | Every link in the window passes the sweep's guards, and its last activity lies in `[now - archiveDays d, now - (archiveDays - daysThreshold) d)`. |
| Archive.SoonWindowEmpty | src/lib/archive.ts:41-57 | With `daysThreshold <= 0` the warning window is empty. |
| Reminder.NeedsAttention | src/lib/reminder.ts:4-17 | `checkLinkNeedsAttention` holds iff a non-zero reminder is set and the last activity is strictly before `now - reminderDays` days; its two arms are this one comparison. |
| Reminder.UnsetNeverNeedsAttention | src/lib/reminder.ts:5 | An absent or zero reminder never needs attention. |
| Reminder.AttentionMonotone | src/lib/reminder.ts:7-13 | Once a link needs attention it keeps needing it as time passes. |
| Reminder.OpeningClearsAttention | src/lib/reminder.ts:11 | With a positive reminder, setting `lastOpenedAt := now` clears attention at that `now`. |
| Reminder.LinksNeedingAttention | src/lib/reminder.ts:40-43 | An order-preserving subsequence holding exactly the links that are not flagged deleted and need attention. Each kept element occurs as often as in the input. |
| Reminder.AttentionCountIsReference | src/lib/reminder.ts:46 | The filtered list's length equals an independent count of non-deleted links needing attention. |
| Reminder.DeletedNeverCounted | src/lib/reminder.ts:41 | Adding a deleted link never changes the count. |
| Reminder.BadgeText | src/lib/reminder.ts:46-53 | Empty iff the count is 0. Otherwise it is decimal digits without a leading zero that read back as the count, which is the one string `count.toString()` gives. |
| TrashSettings.SetRetentionDays | src/lib/hooks/use-trash-settings.ts:27-29 | Sets `retentionDays` and keeps `autoDeleteEnabled`. |
| TrashSettings.SetAutoDeleteEnabled | src/lib/hooks/use-trash-settings.ts:31-33 | Sets `autoDeleteEnabled` and keeps `retentionDays`. |
| TrashSettings.KeptInTrash | src/lib/hooks/use-trash-settings.ts:43-47 | A link is kept iff it has no non-zero `deletedAt` or the real-quotient days test holds, which is the integer test `now - deletedAt < retentionDays * 86400000`. |
| TrashSettings.PurgeOldTrash | src/lib/hooks/use-trash-settings.ts:42-48 | The result is an order-preserving subsequence. It holds exactly the links without a non-zero `deletedAt` or still inside the retention period. Each kept element occurs as often as in the input. |
| TrashSettings.PurgeMonotone | src/lib/hooks/use-trash-settings.ts:44-47 | A link purged at `now` is purged at every later time. |
| TrashSettings.PurgeIdempotent | src/lib/hooks/use-trash-settings.ts:42-48 | Purging twice at the same `now` equals purging once. |
| TrashSettings.CheckAndDeleteOldTrash | src/lib/hooks/use-trash-settings.ts:35-51 | Writes nothing iff auto-delete is off. Otherwise it writes the purge, which keeps every link never deleted. |
| Seqs.FindIndex | src/lib/hooks/use-links.ts:30 | `findIndex`, shared by links (by URL) and categories (by id): the first index whose element satisfies the test, or -1 iff none does. |
| Links.Upsert | src/lib/hooks/use-links.ts:30-52 | After a save the record is stored, every stored record is the saved one or an old one, and no record with another URL is lost. |
| Links.UpsertAbsentAppends | src/lib/hooks/use-links.ts:49-52 | Saving an absent URL appends the record and leaves the earlier entries unchanged. |
| Links.UpsertPresentReplaces | src/lib/hooks/use-links.ts:35-48 | Saving an existing URL replaces the first match wholesale (timestamp included). Length and the other entries are unchanged. |
| Links.UpsertKeepsUnique | src/lib/hooks/use-links.ts:30-52 | Unique URLs stay unique after a save. |
| Links.GetLinkByUrl | src/lib/hooks/use-links.ts:79-90 | Finds a record iff one has that URL; the record found is the first one with that URL, as `find` returns. |
| Links.GetAfterUpsert | src/lib/hooks/use-links.ts:48-52 | After a save, looking the URL up yields the saved record. |
| Links.SaveLink | src/lib/hooks/use-links.ts:20-65 | Fails iff the URL is present and the callback answers no. On success the store holds `Upsert` of the old array; on failure it is unchanged. |
| Seqs.Filter | src/lib/hooks/use-links.ts:70 | `filter`, shared by every list filter: at most as long as its input, only elements satisfying the test, and each element satisfying it exactly as often as in the input. |
| Seqs.FilterCharacterised | src/lib/hooks/use-links.ts:70 | The filter's contract pins it down: any subsequence of the input with those multiplicities is the filter itself. |
| Links.WithoutUrl | src/lib/hooks/use-links.ts:70 | An order-preserving subsequence holding exactly the records with a different URL. Each kept element occurs as often as in the input. |
| Links.DeleteAbsentUnchanged | src/lib/hooks/use-links.ts:70 | Deleting an absent URL changes nothing. |
| Links.DeleteIdempotent | src/lib/hooks/use-links.ts:70 | Deleting twice is deleting once. |
| Links.DeleteLink | src/lib/hooks/use-links.ts:67-77 | The store holds `WithoutUrl` of the old array. |
| Categories.UpsertCategory | src/lib/hooks/use-categories.ts:22-28 | After a save the category is stored, every stored category is the saved one or an old one, and no category with another id is lost. |
| Categories.UpsertNewIdAppends | src/lib/hooks/use-categories.ts:26-28 | A new id is appended at the end. |
| Categories.UpsertExistingIdReplaces | src/lib/hooks/use-categories.ts:22-25 | An existing id is replaced at the same index. Nothing else changes. |
| Categories.UpsertKeepsUniqueIds | src/lib/hooks/use-categories.ts:22-28 | Unique ids stay unique. |
| Categories.SaveCategory | src/lib/hooks/use-categories.ts:18-38 | The store holds `UpsertCategory` of the old array. The returned list is the written one, contains the category, and keeps ids unique. |
| Categories.WithoutId | src/lib/hooks/use-categories.ts:44-46 | An order-preserving subsequence holding exactly the categories with a different id. Each kept element occurs as often as in the input. |
| Categories.DeleteCategoryIdempotent | src/lib/hooks/use-categories.ts:44-46 | Deleting twice is deleting once. |
| Categories.DeleteCategory | src/lib/hooks/use-categories.ts:40-55 | The store holds `WithoutId` of the old array. The saved links are not touched (no cascade). |
| Backup.OrDefault | src/lib/hooks/use-backup.ts:95-107 | The stored value when it is truthy, else the fallback. |
| Backup.ExportData | src/lib/hooks/use-backup.ts:30-39 | The record has version `"1.0.0"`, the timestamp `now`, and a `data` object holding each of the four sections as stored, or `[]` for absent links and `{}` for any other absent section. |
| Backup.ExportSections | src/lib/hooks/use-backup.ts:33-38 | The `data` object has exactly the four section keys, no section is falsy, and the links are an array when the stored links are. |
| Backup.ImportData | src/lib/hooks/use-backup.ts:66-117 | Imports iff the file is an object with a truthy `version`, `timestamp` and `data`, an array `data.links`, and no `categories`, `archiveSettings` or `trashSettings` section that is absent or `null`. Otherwise it rejects with the source's error: `TypeError` for a `null` file, `InvalidBackupFormat` for any other file without that header, `InvalidLinksData` for non-array links, and `TypeError` for an absent or `null` section. Each written section is decided from that section alone: a non-empty backup section wins, else the current value or `[]`/`{}`. |
| Backup.MergeSection | src/lib/hooks/use-backup.ts:96-107 | `Object.keys` throws iff the section is `undefined` or `null`. A section with a key is written as is; otherwise the written value is truthy or the empty default. |
| Backup.NonEmptyBackupLinksWin | src/lib/hooks/use-backup.ts:92-95 | A non-empty backup links array replaces the stored links entirely. |
| Backup.EmptySectionKeepsCurrent | src/lib/hooks/use-backup.ts:96-107 | An empty backup section keeps the current value, or writes `{}` when nothing truthy is stored. |
| Backup.ExportImportRoundTrip | src/lib/hooks/use-backup.ts:30-39 | Importing a fresh export into the same storage writes every section back unchanged, absent sections becoming `[]`/`{}`. |
| Backup.ExportImportIntoEmpty | src/lib/hooks/use-backup.ts:91-108 | Importing a fresh export into empty storage reproduces the exported links. |
| CategoryDialog.FindDuplicateName | src/components/dialogs/category-manager.tsx:91-95 | A result is a stored category with the colliding name and another id. No result means every colliding category is the one being edited. |
| CategoryDialog.OwnNameIsNotDuplicate | src/components/dialogs/category-manager.tsx:94 | Keeping an edited category's own name is not a duplicate. |
| CategoryDialog.SubmitError | src/components/dialogs/category-manager.tsx:86-100 | "Category name is required" iff the name is blank. "Category name already exists" iff a collision with another id exists. No error otherwise. Each direction is proved. |
| CategoryDialog.WhitespaceNameRefused | src/components/dialogs/category-manager.tsx:86-89 | A name made only of whitespace is refused as required. |
| CategoryDialog.DuplicateIgnoresCase | src/components/dialogs/category-manager.tsx:91-100 | An existing name differing only in case and surrounding spaces is refused. |
| CategoryDialog.BuildCategory | src/components/dialogs/category-manager.tsx:102-107 | The name is trimmed. The id is the edited one when non-empty, else fresh. `color`/`icon` are present iff set and non-empty. |
| CategoryDialog.CategoryDialog.constructor | src/components/dialogs/category-manager.tsx:67-70 | The form starts on the edited category's fields, or empty. |
| CategoryDialog.CategoryDialog.HandleClose | src/components/dialogs/category-manager.tsx:113-119 | Clears name, colour, icon and error, and closes. |
| CategoryDialog.CategoryDialog.HandleSubmit | src/components/dialogs/category-manager.tsx:81-111 | On an error nothing is saved, the error is shown, and the form is kept. Otherwise exactly one `BuildCategory` record is saved, then the form is reset and closed. |
| PopupCategoryManager.FilterIcons | src/components/popup/category-manager.tsx:76-78 | Exactly the presets containing the query, ignoring case, in preset order. |
| PopupCategoryManager.EmptyQueryShowsAll | src/components/popup/category-manager.tsx:76-78 | An empty query lists all presets. |
| PopupCategoryManager.QueryCaseIgnored | src/components/popup/category-manager.tsx:77 | Lower-casing the query changes nothing. |
| PopupCategoryManager.CategoryManager.constructor | src/components/popup/category-manager.tsx:52-56 | All fields start empty and closed. |
| PopupCategoryManager.CategoryManager.FilteredIcons | src/components/popup/category-manager.tsx:76-78 | The icons for the current search query. |
| PopupCategoryManager.CategoryManager.HandleSubmit | src/components/popup/category-manager.tsx:58-74 | A blank name changes nothing and saves nothing. Otherwise it saves `BuildCategory` with a fresh id, clears name/colour/icon and closes. |
| LinkList.MatchesSearch | src/components/views/home/link-list.tsx:22-29 | An empty query keeps every link. A link kept by a non-empty query has a title, note or url at least as long as the query. |
| LinkList.SearchIff | src/components/views/home/link-list.tsx:23-27 | A non-empty query keeps a link iff it occurs, lower-cased, at some position of the lower-cased title, note or url. |
| LinkList.FilteredLinks | src/components/views/home/link-list.tsx:21-42 | An order-preserving subsequence holding exactly the links that match the search and the selected categories. Each kept element occurs as often as in the input. |
| LinkList.NoFilterKeepsAll | src/components/views/home/link-list.tsx:21-42 | An empty query with no selected categories keeps every link. |
| LinkList.UncategorizedDropped | src/components/views/home/link-list.tsx:31-36 | With categories selected, a link without categories is dropped. |
| LinkList.QuickFilterIgnored | src/components/views/home/link-list.tsx:38-39 | The result does not depend on the quick filter. |
| LinkList.FiltersCompose | src/components/views/home/link-list.tsx:21-42 | The combined filter is the category filter applied after the search filter. |
| LinkList.SearchAndCategoryFilter | src/components/views/trash/index.tsx:53-71 | An order-preserving subsequence holding exactly the links matching both the search and the category condition. Each kept element occurs as often as in the input. |
| TrashView.UsedCategoryIds | src/components/views/trash/index.tsx:24-26 | Contains an id iff some trashed link lists it. |
| TrashView.AvailableCategories | src/components/views/trash/index.tsx:23-28 | The sub-list, in category order, of the categories whose id some trashed link lists. Each kept element occurs as often as in the input. |
| TrashView.OrphanIdsAddNothing | src/components/views/trash/index.tsx:27 | A trashed link with only unknown ids adds no category. |
| TrashView.EmptyTrashOffersNothing | src/components/views/trash/index.tsx:23-28 | An empty trash offers no category. |
| ColdStorage.FilteredLinks | src/components/views/cold-storage/index.tsx:45-54 | An order-preserving subsequence holding exactly the archived links that match the search. Each kept element occurs as often as in the input. |
| ColdStorage.EmptyQueryKeepsAll | src/components/views/cold-storage/index.tsx:46 | An empty query keeps every archived link. |
| ColdStorage.Insert | src/components/views/cold-storage/index.tsx:56-58 | Inserting into a newest-first list keeps it newest-first and adds exactly that link. |
| ColdStorage.SortedLinks | src/components/views/cold-storage/index.tsx:56-58 | Non-increasing in `archivedAt` (missing is 0), and a permutation of the input. |
| ColdStorage.InsertKeepsTies | src/components/views/cold-storage/index.tsx:56-58 | Insertion keeps equal-key links in their order. |
| ColdStorage.SortIsStable | src/components/views/cold-storage/index.tsx:56-58 | For every key, the links with that key keep their input order. |
| ColdStorage.SortedInputUnchanged | src/components/views/cold-storage/index.tsx:56 | An already newest-first list comes back unchanged. |
| SavedLinksView.Targets | src/components/popup/saved-links-view.tsx:34-41 | A link without categories goes to `"uncategorized"` once. Otherwise it goes to each listed id, once per occurrence. |
| SavedLinksView.InitGroups | src/components/popup/saved-links-view.tsx:22-30 | Every category id and `"uncategorized"` get an empty group, there are no other keys, and the keys are distinct. |
| SavedLinksView.UncategorizedStep | src/components/popup/saved-links-view.tsx:34-35 | Pushing a link without categories to `"uncategorized"` keeps every group equal to its `Bucket`. |
| SavedLinksView.SortIn | src/components/popup/saved-links-view.tsx:33-42 | One link is sorted in: the map stays well formed, every group is its `Bucket` of the links so far, no key is lost, every key stays accounted for, and the total grows by the link's entry count. |
| SavedLinksView.PushToEachCategory | src/components/popup/saved-links-view.tsx:37-41 | Pushing a link to each listed id keeps the map well formed and grouped; unknown ids get new groups, and the total grows by the number of ids. |
| SavedLinksView.PushStep | src/components/popup/saved-links-view.tsx:38-40 | One `get`/`push`/`set` adds exactly one copy of the link to that id's group. |
| SavedLinksView.LinksByCategory | src/components/popup/saved-links-view.tsx:21-46 | Every category and `"uncategorized"` have a group, and every targeted id has one. Every key is one of these. Every group equals `Bucket(links, id)`. Total entries equal the sum of max(1, ids per link). |
| SavedLinksView.BucketNonEmptyIff | src/components/popup/saved-links-view.tsx:76 | A group is non-empty iff some link targets it. |
| SavedLinksView.VisibleGroups | src/components/popup/saved-links-view.tsx:74-76 | The shown groups are exactly the non-empty ones, in key order. |
| Selection.Toggle | src/components/views/home/index.tsx:23-29 | Toggling flips membership of the id and keeps every other id's membership (the one toggle all five views use). |
| Selection.ToggleShape | src/components/views/save-link/category-selector.tsx:39-45 | An absent id is appended at the end. A present id is removed everywhere, leaving a subsequence. |
| Selection.ToggleKeepsOthersInOrder | src/components/popup/category-selector.tsx:34-39 | The other ids keep their relative order and multiplicity. |
| Selection.ToggleTwiceRestores | src/components/popup/saved-links-view.tsx:48-54 | For an absent id, toggling twice restores the list (here, the expanded groups). |
| Selection.ToggleKeepsDistinct | src/components/views/trash/index.tsx:45-51 | A duplicate-free selection stays duplicate-free. |
| CategorySelector.FindCategory | src/components/views/save-link/category-selector.tsx:150 | A result is the first category with that id, as `find` returns, and there is no result iff none has it. |
| CategorySelector.ResolvePills | src/components/views/save-link/category-selector.tsx:149-151 | Every pill is a known category whose id is selected, with at most one pill per entry of the selection (a repeated id gives a repeated pill), and each pill is the first category with its id. |
| CategorySelector.PillsInSelectionOrder | src/components/views/save-link/category-selector.tsx:149-151 | The pills' ids are exactly the known selected ids, in selection order. |
| CategorySelector.OrphanRendersNothing | src/components/popup/category-selector.tsx:107-109 | A selected id with no category adds no pill. |
| CategorySelector.NoSelectionNoPills | src/components/popup/category-selector.tsx:105 | No selection shows no pills. |
| LinkCard.LinkCategories | src/components/shared/link-card.tsx:23-25 | The sub-list, in category order, of the categories whose id the link lists. Each kept element occurs as often as in the input. |
| LinkCard.NoCategoriesNoChips | src/components/views/home/link-card.tsx:11-13 | A link without categories has no chips. |
| LinkCard.ExtraIdsAddNothing | src/components/shared/link-card.tsx:23-25 | Repeated or unknown ids in the link add no chip. |
| LinkCard.Chips | src/components/shared/link-card.tsx:60-78 | No row iff no categories. At most the first two are shown. The `+N` label is present iff there are more than two. Without it, all are shown. |
| LinkCard.ChipsCoverAll | src/components/views/home/link-card.tsx:28-46 | The chips plus the `+N` count equal the number of categories. A label appears only beside two chips and is at least 1. |
| Popup.TrimAllAt | src/pages/popup/Popup.tsx:55 | Each mapped piece is the trimmed piece at the same position. |
| Popup.TrimmedPieces | src/pages/popup/Popup.tsx:55 | One trimmed piece per comma plus one. |
| Popup.ParseTags | src/pages/popup/Popup.tsx:55 | The tags are exactly the non-empty trimmed pieces, as a subsequence in source order, with each repeated tag kept as often as it is written. No tag is empty, and there are at most commas + 1 of them. |
| Popup.DuplicateTagsKept | src/pages/popup/Popup.tsx:55 | A tag written twice is stored twice: `"a, a"` parses to `["a", "a"]`. |
| Popup.TagsAreClean | src/pages/popup/Popup.tsx:55 | No tag contains a comma or starts or ends with whitespace. |
| Popup.PieceClean | src/pages/popup/Popup.tsx:55 | A trimmed piece has no comma, and a non-empty one has no whitespace at either end. |
| Popup.SingleTag | src/pages/popup/Popup.tsx:55 | Input without commas gives its trimmed self as the tag, or nothing when blank. |
| Popup.NoteData | src/pages/popup/Popup.tsx:51-57 | url and title come from the edited fields when editing, else from the tab. The note, `now` and the parsed tags are stored. Every other optional field is absent. |
| Popup.ResaveResetsLink | src/lib/hooks/use-links.ts:48 | Re-saving a stored URL from the popup replaces its record, so the stored link has no categories, pin, reminder, trash or archive state. |
| Popup.PopupForm.constructor | src/pages/popup/Popup.tsx:14-22 | The form starts empty, without a tab, not editing. |
| Popup.PopupForm.SetActiveTab | src/pages/popup/Popup.tsx:33-41 | A tab with non-empty url and title becomes current and seeds the edited fields. Otherwise nothing changes. |
| Popup.PopupForm.HandleEditToggle | src/pages/popup/Popup.tsx:89-98 | Flips `isEditing`. Leaving edit mode with a tab resets the edited title and url to the tab's. |
| Popup.PopupForm.HandleSave | src/pages/popup/Popup.tsx:47-75 | Without a tab nothing happens. Otherwise it saves `NoteData` through `SaveLink` with the user's answer. On success it clears note and tags and leaves edit mode; on failure the form is kept. |
| QuickFilterTabs.OnFilterClick | src/components/views/home/quick-filter-tabs.tsx:44-46 | Clicking the selected filter clears the selection. Clicking another selects exactly it. |
| QuickFilterTabs.AtMostOneHighlighted | src/components/views/home/quick-filter-tabs.tsx:39-42 | At most one of the three tabs is highlighted. |
| QuickFilterTabs.ClickSelectsOnlyClicked | src/components/views/home/quick-filter-tabs.tsx:44-46 | After a click, no other tab is highlighted. |
| QuickFilterTabs.ClickTwice | src/components/views/home/quick-filter-tabs.tsx:44-46 | Clicking the same tab twice from no selection returns to no selection, and from another selection it clears it. |
| Reorder.StartReordering | src/lib/hooks/use-reorder.ts:12 | `setReorderState("reordering")`: yields reordering whatever the old state. |
| Reorder.StopReordering | src/lib/hooks/use-reorder.ts:13 | `setReorderState("viewing")`: yields viewing whatever the old state. |
| Reorder.ToggleReordering | src/lib/hooks/use-reorder.ts:14-15 | Swaps the two states. |
| Reorder.ToggleTwice | src/lib/hooks/use-reorder.ts:14-15 | Toggling twice is the identity. |
| Reorder.DefaultIsViewing | src/lib/hooks/use-reorder.ts:7 | The default state is viewing, not reordering. |
| Text.ToLower | src/components/views/home/link-list.tsx:23-27 | Same length. Each character is lower-cased (ASCII letters). |
| Text.Includes | src/components/views/home/link-list.tsx:25-27 | `includes` holds only when the substring is no longer than the string, and always for the empty substring. |
| Text.IncludesAt | src/components/views/home/link-list.tsx:25-27 | `includes` holds iff the substring occurs at some index. |
| Text.TrimEmptyIff | src/components/dialogs/category-manager.tsx:86 | The trimmed name is empty iff every character is whitespace. |
| Text.Trim | src/pages/popup/Popup.tsx:55 | The trimmed string is no longer than the input and neither starts nor ends with whitespace. `Text.TrimCut` adds that only whitespace is cut on either side. |
| Text.TrimAddsNothing | src/pages/popup/Popup.tsx:55 | A character absent from a string is absent from its trim. |
| Text.TrimUnique | src/pages/popup/Popup.tsx:55 | These facts determine the trim: any piece of the input with only whitespace around it and no whitespace at its ends is the trimmed string. |
| Text.TrimCut | src/pages/popup/Popup.tsx:55 | The trimmed string starts right after the leading whitespace, and only whitespace follows it. |
| Text.TrimShape | src/components/dialogs/category-manager.tsx:104 | The trimmed name is a contiguous piece of the input that neither starts nor ends with whitespace. It starts right after the leading whitespace, and only whitespace follows it. |
| Text.Split | src/pages/popup/Popup.tsx:55 | One more piece than commas, and no piece contains a comma. |
| Text.JoinSplit | src/pages/popup/Popup.tsx:55 | Joining the pieces with commas restores the input. |
| Text.ParseNatToString | src/lib/reminder.ts:48-49 | The decimal rendering of the count reads back as the count. |
| Text.NatToString | src/lib/reminder.ts:48-49 | At least one digit, and a leading `0` only for the number 0. |

## Left out

- Browser storage I/O, its `try`/`catch` fallbacks and `console` logging are not modelled. Each store operation is one atomic read-modify-write on `Storage.Store` and always succeeds.
- Concurrency is not modelled. The code's un-locked read-modify-writes can lose a write, and the operations here are atomic.
- Rendering, styling, toasts, drag-and-drop, popovers and dialogs are not modelled.
- The duplicate-confirmation dialog state of the popup (`showConfirm`, `pendingSave`, `window.confirmResolve`) is reduced to the user's answer, the `overwrite` parameter.
- Links.SaveLink: its own contract states the new collection as `Upsert` of the old one. The lookup-after-save and unique-URL properties are the lemmas `Links.GetAfterUpsert` and `Links.UpsertKeepsUnique` about `Upsert`, not clauses of the method.
- `exportData`'s serialisation and download, and `importData`'s `file.text()` and `JSON.parse`, are I/O. The parsed file is a `Backup.Json` value, and its numbers are integers.
- Three storage keys are imported but defined nowhere: `LINKS_KEY` (imported by `use-trash-settings.ts` and `use-backup.ts`; `use-links.ts` keeps its key as the private `STORAGE_KEY`), `CATEGORIES_KEY` (`use-categories.ts` keeps its key as the private `STORAGE_KEY`) and `ARCHIVE_SETTINGS_KEY` (`use-archive-settings.ts` exports only `ARCHIVE_DAYS_KEY`, `ARCHIVE_EXCLUDED_CATEGORIES_KEY` and `AUTO_ARCHIVE_ENABLED_KEY`). If they were `undefined`, the export's `get` and the import's computed keys in `mergedData` would all name the one key `"undefined"`, and the links, categories and archive settings would overwrite each other. The model assumes four distinct storage keys: `Backup.Sections` has four independent fields, and each written section is decided from that section alone. The purge and the import work on values passed in, and no key is invented.
- Archive.LinksToBeArchivedSoon: `getLinksToBeArchivedSoon` reads `Date.now()` twice, once per threshold. The model reads one `now` for both. Its default arguments (`archiveDays = DEFAULT_ARCHIVE_DAYS`, `excludedCategories = []`, `daysThreshold = 1`) are not modelled as defaults: every argument is explicit, and the constant `Archive.DEFAULT_ARCHIVE_DAYS` is not applied. The same holds for the defaults of `checkLinkShouldBeArchived`, modelled by `Archive.ShouldBeArchived`.
- Operations other files call but the shown hooks do not define are not modelled: `moveToTrash`, `restoreFromTrash`, `emptyTrash`, `updateLink` and `trashedLinks`/`archivedLinks`. The trash and cold-storage views take their lists as parameters.
- `useCategories` as shown returns no `categories` list, yet the category dialog and the trash view read one. The model passes that list in as a parameter.
- The badge reads the storage key `"links"` while the store writes `"saved_links"`. The badge logic works on a list passed in, and the keys are not reconciled.
- The backup dialog's copy says existing data wins on conflict; it is not modelled. The model follows the code, where non-empty backup sections win.
- `use-archive-settings.ts`, `use-reminder.ts`, `use-onboarding.ts` and the settings views are thin wrappers over storage. They are not part of this model.
- Text.ToLower: lower-cases ASCII letters only, not the full Unicode mapping of `toLowerCase`.
- `trim` strips the ECMAScript WhiteSpace and LineTerminator characters, without any other Unicode handling.
- TrashSettings.KeptInTrash: the days quotient is exact real division, not IEEE floating point.
- SavedLinksView.LinksByCategory: the order of the `Map`'s keys is not stated beyond their being distinct. The order of the links within each group is stated exactly.
- `URL` parsing in the save-link forms and `crypto.randomUUID` are foreign code. The fresh id is the parameter `freshId`.
- The background scheduler, timers and `storage.onChanged` listener are not modelled.
