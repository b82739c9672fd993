/** `src/components/popup/category-manager.tsx`: the popup's "Add Category"
    form. `crypto.randomUUID()` is the parameter `freshId`. */
module PopupCategoryManager {
  import opened Types
  import opened Text
  import opened Seqs
  import CategoryDialog

  /** The icon names the picker offers, in display order. */
  const PRESET_ICONS: seq<string> := [
    "Bookmark", "Book", "Code", "Coffee", "Film", "Folder", "Heart", "Image",
    "Link", "Music", "Package", "ShoppingBag", "Star", "Video", "Zap"]

  /** The picker's test for one icon name. */
  predicate IconMatches(query: string, iconName: string)
  {
    Includes(ToLower(iconName), ToLower(query))
  }

  /** `filteredIcons`: the preset names containing the query, ignoring case,
      in preset order. */
  function FilterIcons(query: string): (r: seq<string>)
    ensures forall n :: n in r <==> n in PRESET_ICONS && Includes(ToLower(n), ToLower(query))
    ensures IsSubsequence(r, PRESET_ICONS)
  {
    FilterIsSubsequence(PRESET_ICONS, n => IconMatches(query, n));
    Filter(PRESET_ICONS, n => IconMatches(query, n))
  }

  /** An empty search shows every preset icon. */
  lemma EmptyQueryShowsAll()
    ensures FilterIcons("") == PRESET_ICONS
  {
    forall i | 0 <= i < |PRESET_ICONS|
      ensures IconMatches("", PRESET_ICONS[i])
    {
    }
    FilterKeepsAll(PRESET_ICONS, n => IconMatches("", n));
  }

  /** The search ignores the case of the query. */
  lemma QueryCaseIgnored(query: string)
    ensures FilterIcons(ToLower(query)) == FilterIcons(query)
  {
    ToLowerIdempotent(query);
    FilterAgree(PRESET_ICONS, n => IconMatches(ToLower(query), n), n => IconMatches(query, n));
  }

  class CategoryManager {
    var name: string
    var color: Option<string>
    var icon: Option<string>
    var isOpen: bool
    var searchQuery: string

    constructor ()
      ensures name == "" && color == None && icon == None && !isOpen && searchQuery == ""
    {
      name := "";
      color := None;
      icon := None;
      isOpen := false;
      searchQuery := "";
    }

    /** The icons shown for the current search text. */
    function FilteredIcons(): (r: seq<string>)
      reads this
      ensures forall n :: n in r <==> n in PRESET_ICONS && Includes(ToLower(n), ToLower(searchQuery))
    {
      FilterIcons(searchQuery)
    }

    /** `handleSubmit`. `saved` is the category handed to `onSaveCategory`,
        with a fresh id; a blank name changes nothing. */
    method HandleSubmit(freshId: string) returns (saved: Option<Category>)
      modifies this
      ensures CategoryDialog.IsBlank(old(name)) ==>
        && saved == None
        && name == old(name) && color == old(color) && icon == old(icon) && isOpen == old(isOpen)
      ensures !CategoryDialog.IsBlank(old(name)) ==>
        && saved == Some(CategoryDialog.BuildCategory(old(name), old(color), old(icon), None, freshId))
        && saved.value.id == freshId
        && name == "" && color == None && icon == None && !isOpen
      ensures searchQuery == old(searchQuery)
    {
      var typed := name;
      if CategoryDialog.IsBlank(typed) {
        saved := None;
      } else {
        saved := Some(CategoryDialog.BuildCategory(typed, color, icon, None, freshId));
        name := "";
        color := None;
        icon := None;
        isOpen := false;
      }
    }
  }
}
