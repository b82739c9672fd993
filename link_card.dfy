/** The category chips of a link card, shared by
    `src/components/shared/link-card.tsx` and
    `src/components/views/home/link-card.tsx`: the link's known categories in
    category order, at most two chips, then a `+N` label for the rest. */
module LinkCard {
  import opened Types
  import opened Seqs

  /** `linkCategories`: the categories the link refers to, in the order of
      `categories`. */
  function LinkCategories(link: SavedLink, categories: seq<Category>): (r: seq<Category>)
    ensures IsSubsequence(r, categories)
    ensures forall c :: c in r <==> c in categories && link.categories.Some? && c.id in link.categories.value
    ensures forall c :: multiset(r)[c] == if HasCategory(link, c.id) then multiset(categories)[c] else 0
  {
    FilterIsSubsequence(categories, (c: Category) => HasCategory(link, c.id));
    Filter(categories, (c: Category) => HasCategory(link, c.id))
  }

  /** A link without categories has no chips. */
  lemma NoCategoriesNoChips(link: SavedLink, categories: seq<Category>)
    requires CategoryIds(link) == []
    ensures LinkCategories(link, categories) == []
  {
  }

  /** Ids the link lists a second time, or that name no category, add no chip:
      a chip is drawn once per category, not once per id. */
  lemma ExtraIdsAddNothing(link: SavedLink, categories: seq<Category>, extra: seq<string>)
    requires forall id :: id in extra ==> id in CategoryIds(link) || forall i :: 0 <= i < |categories| ==> categories[i].id != id
    ensures LinkCategories(link.(categories := Some(CategoryIds(link) + extra)), categories) == LinkCategories(link, categories)
  {
    var more := link.(categories := Some(CategoryIds(link) + extra));
    FilterAgree(categories, (c: Category) => HasCategory(more, c.id), (c: Category) => HasCategory(link, c.id));
  }

  /** What the card draws below the note when the link has categories. */
  datatype ChipRow = ChipRow(chips: seq<Category>, overflow: Option<nat>)

  /** `linkCategories.length > 0 && ...`: nothing without categories,
      otherwise the first two chips and, past two, the `+N` count. */
  function Chips(linkCategories: seq<Category>): (r: Option<ChipRow>)
    ensures r.None? <==> linkCategories == []
    ensures r.Some? ==> |r.value.chips| <= 2 && |r.value.chips| <= |linkCategories|
    ensures r.Some? ==> r.value.chips == linkCategories[..|r.value.chips|]
    ensures r.Some? ==> (r.value.overflow.Some? <==> |linkCategories| > 2)
    ensures r.Some? && r.value.overflow.None? ==> r.value.chips == linkCategories
  {
    if |linkCategories| > 0 then
      var shown := if |linkCategories| <= 2 then linkCategories else linkCategories[..2];
      Some(ChipRow(shown, if |linkCategories| > 2 then Some(|linkCategories| - 2) else None))
    else None
  }

  /** The chips and the `+N` label together account for every category, and
      a label appears only beside two chips. */
  lemma ChipsCoverAll(linkCategories: seq<Category>)
    requires linkCategories != []
    ensures var row := Chips(linkCategories).value;
      |row.chips| + (if row.overflow.Some? then row.overflow.value else 0) == |linkCategories|
    ensures var row := Chips(linkCategories).value;
      row.overflow.Some? ==> |row.chips| == 2 && row.overflow.value >= 1
  {
  }
}
