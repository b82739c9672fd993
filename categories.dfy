/** `src/lib/hooks/use-categories.ts`: the category collection, keyed by id. */
module Categories {
  import opened Types
  import opened Seqs
  import opened Storage

  /** `categories.findIndex(c => c.id === category.id)`. */
  function FindCategoryIndex(cats: seq<Category>, id: string): int
  {
    FindIndex(cats, (c: Category) => c.id == id)
  }

  predicate UniqueIds(cats: seq<Category>)
  {
    forall i, j :: 0 <= i < j < |cats| ==> cats[i].id != cats[j].id
  }

  /** The collection after `saveCategory`: replace the first entry with the same
      id in place, or push the new category. */
  function UpsertCategory(cats: seq<Category>, category: Category): (r: seq<Category>)
    ensures category in r
    ensures forall c :: c in r ==> c == category || c in cats
    ensures forall c :: c in cats && c.id != category.id ==> c in r
  {
    var existingIndex := FindCategoryIndex(cats, category.id);
    if existingIndex != -1 then
      var r := cats[existingIndex := category];
      assert r[existingIndex] == category;
      assert forall j :: 0 <= j < |cats| && cats[j].id != category.id ==> r[j] == cats[j];
      r
    else cats + [category]
  }

  /** A new id is appended at the end. */
  lemma UpsertNewIdAppends(cats: seq<Category>, category: Category)
    requires forall j :: 0 <= j < |cats| ==> cats[j].id != category.id
    ensures var r := UpsertCategory(cats, category);
      |r| == |cats| + 1 && r[..|cats|] == cats && r[|cats|] == category
  {
  }

  /** An existing id is replaced at the same index; nothing else moves. */
  lemma UpsertExistingIdReplaces(cats: seq<Category>, category: Category, i: int)
    requires 0 <= i < |cats| && cats[i].id == category.id
    requires forall j :: 0 <= j < i ==> cats[j].id != category.id
    ensures var r := UpsertCategory(cats, category);
      |r| == |cats| && r[i] == category && forall j :: 0 <= j < |cats| && j != i ==> r[j] == cats[j]
  {
  }

  /** Ids stay unique. */
  lemma UpsertKeepsUniqueIds(cats: seq<Category>, category: Category)
    requires UniqueIds(cats)
    ensures UniqueIds(UpsertCategory(cats, category))
  {
  }

  /** The categories whose id differs, in order. */
  function WithoutId(cats: seq<Category>, id: string): (r: seq<Category>)
    ensures forall c :: c in r <==> c in cats && c.id != id
    ensures forall c :: multiset(r)[c] == if c.id != id then multiset(cats)[c] else 0
    ensures IsSubsequence(r, cats)
  {
    var p := (c: Category) => c.id != id;
    FilterIsSubsequence(cats, p);
    Filter(cats, p)
  }

  /** Deleting a category twice is deleting it once. */
  lemma DeleteCategoryIdempotent(cats: seq<Category>, id: string)
    ensures WithoutId(WithoutId(cats, id), id) == WithoutId(cats, id)
  {
    FilterIdempotent(cats, (c: Category) => c.id != id);
  }

  /** `saveCategory(category)`: the returned list is the one written. */
  method SaveCategory(st: Store, category: Category) returns (written: seq<Category>)
    modifies st`categories
    ensures st.categories == UpsertCategory(old(st.categories), category)
    ensures written == st.categories
    ensures category in written
    ensures UniqueIds(old(st.categories)) ==> UniqueIds(written)
  {
    var categories := st.categories;
    var existingIndex := FindCategoryIndex(categories, category.id);
    if existingIndex != -1 {
      categories := categories[existingIndex := category];
      assert categories[existingIndex] == category;
    } else {
      categories := categories + [category];
      assert categories[|categories| - 1] == category;
    }
    if UniqueIds(st.categories) {
      UpsertKeepsUniqueIds(st.categories, category);
    }
    st.categories := categories;
    return categories;
  }

  /** `deleteCategory(id)`: only the categories key is written, so links that
      still reference the id keep it (no cascade). */
  method DeleteCategory(st: Store, categoryId: string) returns (ok: bool)
    modifies st`categories
    ensures ok && st.categories == WithoutId(old(st.categories), categoryId)
    ensures st.savedLinks == old(st.savedLinks)
  {
    var categories := st.categories;
    var filteredCategories := WithoutId(categories, categoryId);
    st.categories := filteredCategories;
    return true;
  }
}
