/** `src/components/views/trash/index.tsx`: the category chips offered in the
    trash and the trash list's filter. The filter is the home list's
    `LinkList.SearchAndCategoryFilter`, and the chip toggle is
    `Selection.Toggle`. */
module TrashView {
  import opened Types
  import opened Seqs

  /** The category ids of all trashed links, flattened in order, with
      repetitions (the set built from them in the view). */
  function UsedCategoryIds(trashedLinks: seq<SavedLink>): (r: seq<string>)
    ensures forall id :: id in r <==> exists i :: 0 <= i < |trashedLinks| && id in CategoryIds(trashedLinks[i])
    decreases |trashedLinks|
  {
    if trashedLinks == [] then []
    else
      var rest := UsedCategoryIds(trashedLinks[1..]);
      assert forall id :: (exists i :: 1 <= i < |trashedLinks| && id in CategoryIds(trashedLinks[i])) ==> id in rest by {
        forall id | exists i :: 1 <= i < |trashedLinks| && id in CategoryIds(trashedLinks[i])
          ensures id in rest
        {
          var i :| 1 <= i < |trashedLinks| && id in CategoryIds(trashedLinks[i]);
          assert trashedLinks[1..][i - 1] == trashedLinks[i];
        }
      }
      CategoryIds(trashedLinks[0]) + rest
  }

  /** Some trashed link refers to category `id`: `usedCategoryIds.has(id)`. */
  predicate InUse(trashedLinks: seq<SavedLink>, id: string)
  {
    id in UsedCategoryIds(trashedLinks)
  }

  /** `availableCategories`: the categories some trashed link refers to, in the
      order of `categories`. */
  function AvailableCategories(trashedLinks: seq<SavedLink>, categories: seq<Category>): (r: seq<Category>)
    ensures IsSubsequence(r, categories)
    ensures forall c :: c in r <==> c in categories && exists i :: 0 <= i < |trashedLinks| && c.id in CategoryIds(trashedLinks[i])
    ensures forall c :: multiset(r)[c] == if InUse(trashedLinks, c.id) then multiset(categories)[c] else 0
  {
    FilterIsSubsequence(categories, (c: Category) => InUse(trashedLinks, c.id));
    Filter(categories, (c: Category) => InUse(trashedLinks, c.id))
  }

  /** A trashed link whose ids name no known category adds no chip. */
  lemma {:induction false} OrphanIdsAddNothing(trashedLinks: seq<SavedLink>, categories: seq<Category>, orphan: SavedLink)
    requires forall i :: 0 <= i < |categories| ==> categories[i].id !in CategoryIds(orphan)
    ensures AvailableCategories(trashedLinks + [orphan], categories) == AvailableCategories(trashedLinks, categories)
  {
    var more := trashedLinks + [orphan];
    forall i | 0 <= i < |categories|
      ensures InUse(more, categories[i].id) == InUse(trashedLinks, categories[i].id)
    {
      var id := categories[i].id;
      if InUse(more, id) {
        var j :| 0 <= j < |more| && id in CategoryIds(more[j]);
        assert j < |trashedLinks|;
        assert more[j] == trashedLinks[j];
      }
      if InUse(trashedLinks, id) {
        var j :| 0 <= j < |trashedLinks| && id in CategoryIds(trashedLinks[j]);
        assert more[j] == trashedLinks[j];
      }
    }
    FilterAgree(categories, (c: Category) => InUse(more, c.id), (c: Category) => InUse(trashedLinks, c.id));
  }

  /** With nothing in the trash no chip is offered. */
  lemma EmptyTrashOffersNothing(categories: seq<Category>)
    ensures AvailableCategories([], categories) == []
  {
  }
}
