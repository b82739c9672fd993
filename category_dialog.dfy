/** `src/components/dialogs/category-manager.tsx`: the create/edit category
    dialog's form state and its submit and close handlers. The categories the
    duplicate check consults are a parameter (the `useCategories` shown in
    `use-categories.ts` does not return a `categories` list), and
    `crypto.randomUUID()` is the parameter `freshId`. */
module CategoryDialog {
  import opened Types
  import opened Text

  const NAME_REQUIRED: string := "Category name is required"
  const NAME_EXISTS: string := "Category name already exists"

  /** `!name.trim()`. */
  predicate IsBlank(name: string)
  {
    Trim(name) == ""
  }

  /** Two names collide when their lower-cased forms are equal. */
  predicate SameName(stored: string, typed: string)
  {
    ToLower(stored) == ToLower(Trim(typed))
  }

  /** The duplicate lookup of `handleSubmit`: the first category whose
      lower-cased name equals the lower-cased trimmed input and whose id is not
      the edited category's. */
  function FindDuplicateName(categories: seq<Category>, name: string, editingId: Option<string>): (r: Option<Category>)
    ensures r.Some? ==> && r.value in categories && SameName(r.value.name, name)
                        && (editingId.Some? ==> r.value.id != editingId.value)
    ensures r.None? ==> forall c :: c in categories && SameName(c.name, name) ==>
                          editingId.Some? && c.id == editingId.value
  {
    if categories == [] then None
    else
      var c := categories[0];
      if SameName(c.name, name) && (editingId.None? || c.id != editingId.value) then Some(c)
      else FindDuplicateName(categories[1..], name, editingId)
  }

  /** Keeping a category's own name while editing it is not a duplicate, as
      long as no other category has that name. */
  lemma OwnNameIsNotDuplicate(categories: seq<Category>, edited: Category)
    requires forall c :: c in categories && c.id != edited.id ==> !SameName(c.name, edited.name)
    ensures FindDuplicateName(categories, edited.name, Some(edited.id)).None?
  {
  }

  /** `categoryToEdit?.id`. */
  function EditingId(categoryToEdit: Option<Category>): Option<string>
  {
    if categoryToEdit.Some? then Some(categoryToEdit.value.id) else None
  }

  /** The message `handleSubmit` shows, checked in the code's order: a blank
      name first, then a name another category already has. */
  function SubmitError(categories: seq<Category>, name: string, editingId: Option<string>): (e: Option<string>)
    ensures e == Some(NAME_REQUIRED) <==> IsBlank(name)
    ensures e == Some(NAME_EXISTS) <==> !IsBlank(name) && FindDuplicateName(categories, name, editingId).Some?
    ensures e.None? <==> !IsBlank(name) && forall c :: c in categories && SameName(c.name, name) ==>
                                             editingId.Some? && c.id == editingId.value
  {
    if IsBlank(name) then Some(NAME_REQUIRED)
    else if FindDuplicateName(categories, name, editingId).Some? then Some(NAME_EXISTS)
    else None
  }

  /** A name of spaces only is refused whatever the stored categories are. */
  lemma WhitespaceNameRefused(categories: seq<Category>, name: string, editingId: Option<string>)
    requires forall i :: 0 <= i < |name| ==> IsWhitespace(name[i])
    ensures SubmitError(categories, name, editingId) == Some(NAME_REQUIRED)
  {
    TrimEmptyIff(name);
  }

  /** The duplicate check ignores case and the spaces around the typed name. */
  lemma DuplicateIgnoresCase(categories: seq<Category>, name: string, editingId: Option<string>)
    requires !IsBlank(name)
    requires exists c :: c in categories && ToLower(c.name) == ToLower(Trim(name)) && (editingId.None? || c.id != editingId.value)
    ensures SubmitError(categories, name, editingId) == Some(NAME_EXISTS)
  {
  }

  /** The record `handleSubmit` hands over: the edited category's id when it is
      non-empty, else a fresh one; the trimmed name; and `color` and `icon`
      only when they are set to a non-empty string. */
  function BuildCategory(name: string, color: Option<string>, icon: Option<string>,
                         categoryToEdit: Option<Category>, freshId: string): (c: Category)
    ensures c.name == Trim(name)
    ensures c.id == (if categoryToEdit.Some? && categoryToEdit.value.id != "" then categoryToEdit.value.id else freshId)
    ensures c.color.Some? <==> color.Some? && color.value != ""
    ensures c.color.Some? ==> c.color == color
    ensures c.icon.Some? <==> icon.Some? && icon.value != ""
    ensures c.icon.Some? ==> c.icon == icon
  {
    var id := if categoryToEdit.Some? && categoryToEdit.value.id != "" then categoryToEdit.value.id else freshId;
    Category(id, Trim(name),
             if color.Some? && color.value != "" then color else None,
             if icon.Some? && icon.value != "" then icon else None)
  }

  class CategoryDialog {
    var name: string
    var color: Option<string>
    var icon: Option<string>
    var error: string
    var isOpen: bool

    /** The form opened on `categoryToEdit`, or empty for a new category. */
    constructor (categoryToEdit: Option<Category>, open: bool)
      ensures name == (if categoryToEdit.Some? then categoryToEdit.value.name else "")
      ensures color == (if categoryToEdit.Some? then categoryToEdit.value.color else None)
      ensures icon == (if categoryToEdit.Some? then categoryToEdit.value.icon else None)
      ensures error == "" && isOpen == open
    {
      name := if categoryToEdit.Some? then categoryToEdit.value.name else "";
      color := if categoryToEdit.Some? then categoryToEdit.value.color else None;
      icon := if categoryToEdit.Some? then categoryToEdit.value.icon else None;
      error := "";
      isOpen := open;
    }

    /** `handleClose`: clears the form and closes the dialog. */
    method HandleClose()
      modifies this
      ensures name == "" && color == None && icon == None && error == "" && !isOpen
    {
      name := "";
      color := None;
      icon := None;
      error := "";
      isOpen := false;
    }

    /** `handleSubmit`. `saved` is the one category handed to `onSaveCategory`
        (`None` when it is not called); a rejected submit only sets `error`. */
    method HandleSubmit(categories: seq<Category>, categoryToEdit: Option<Category>, freshId: string)
      returns (saved: Option<Category>)
      modifies this
      ensures var problem := SubmitError(categories, old(name), EditingId(categoryToEdit));
        problem.Some? ==>
          && saved == None && error == problem.value
          && name == old(name) && color == old(color) && icon == old(icon) && isOpen == old(isOpen)
      ensures SubmitError(categories, old(name), EditingId(categoryToEdit)).None? ==>
        && saved == Some(BuildCategory(old(name), old(color), old(icon), categoryToEdit, freshId))
        && name == "" && color == None && icon == None && error == "" && !isOpen
    {
      error := "";
      var typed := name;
      var problem := SubmitError(categories, typed, EditingId(categoryToEdit));
      if problem.Some? {
        error := problem.value;
        saved := None;
      } else {
        saved := Some(BuildCategory(typed, color, icon, categoryToEdit, freshId));
        HandleClose();
      }
    }
  }
}
