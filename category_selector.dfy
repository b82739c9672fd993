/** The selected-category pills under both category selectors
    (`src/components/views/save-link/category-selector.tsx` and
    `src/components/popup/category-selector.tsx`): one pill per selected id
    that names a known category, in selection order. Their `toggleCategory`
    is `Selection.Toggle`. */
module CategorySelector {
  import opened Types
  import opened Seqs

  /** Some category has id `id`. */
  predicate Known(categories: seq<Category>, id: string)
  {
    exists i :: 0 <= i < |categories| && categories[i].id == id
  }

  /** `categories.find(c => c.id === id)`: the first category with that id. */
  function FindCategory(categories: seq<Category>, id: string): (r: Option<Category>)
    ensures r.Some? ==> exists i :: 0 <= i < |categories| && categories[i] == r.value && r.value.id == id
                                    && forall j :: 0 <= j < i ==> categories[j].id != id
    ensures r.None? <==> !Known(categories, id)
  {
    var i := FindIndex(categories, (c: Category) => c.id == id);
    if i == -1 then None else Some(categories[i])
  }

  /** The ids of a list of categories. */
  function Ids(cs: seq<Category>): (r: seq<string>)
    ensures |r| == |cs|
    decreases |cs|
  {
    if cs == [] then [] else [cs[0].id] + Ids(cs[1..])
  }

  /** The pills drawn for `selectedCategories`: every pill is a known
      category that is selected, there is at most one per selected id, and the
      pill for an id is the first category with that id. */
  function ResolvePills(selectedCategories: seq<string>, categories: seq<Category>): (r: seq<Category>)
    ensures |r| <= |selectedCategories|
    ensures forall c :: c in r ==> c in categories && c.id in selectedCategories
    ensures forall k :: 0 <= k < |r| ==> FindCategory(categories, r[k].id) == Some(r[k])
    decreases |selectedCategories|
  {
    if selectedCategories == [] then []
    else
      var rest := ResolvePills(selectedCategories[1..], categories);
      match FindCategory(categories, selectedCategories[0])
      case Some(category) => [category] + rest
      case None => rest
  }

  /** The pills' ids are exactly the selected ids that name a category, in
      selection order. */
  lemma {:induction false} PillsInSelectionOrder(selectedCategories: seq<string>, categories: seq<Category>)
    ensures Ids(ResolvePills(selectedCategories, categories)) == Filter(selectedCategories, id => Known(categories, id))
    decreases |selectedCategories|
  {
    if selectedCategories != [] {
      var rest := ResolvePills(selectedCategories[1..], categories);
      PillsInSelectionOrder(selectedCategories[1..], categories);
      match FindCategory(categories, selectedCategories[0])
      case Some(category) =>
        assert ([category] + rest)[1..] == rest;
      case None =>
    }
  }

  /** A selected id that names no category renders nothing. */
  lemma {:induction false} OrphanRendersNothing(selectedCategories: seq<string>, categories: seq<Category>, orphan: string)
    requires !Known(categories, orphan)
    ensures ResolvePills(selectedCategories + [orphan], categories) == ResolvePills(selectedCategories, categories)
    decreases |selectedCategories|
  {
    var more := selectedCategories + [orphan];
    if selectedCategories == [] {
      assert more[1..] == [];
    } else {
      OrphanRendersNothing(selectedCategories[1..], categories, orphan);
      assert more[0] == selectedCategories[0];
      assert more[1..] == selectedCategories[1..] + [orphan];
    }
  }

  /** With nothing selected no pill is drawn. */
  lemma NoSelectionNoPills(categories: seq<Category>)
    ensures ResolvePills([], categories) == []
  {
  }
}
