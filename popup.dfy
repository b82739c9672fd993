/** `src/pages/popup/Popup.tsx`: the browser-action popup that saves the
    current tab with a note and tags. The active tab is handed in once it is
    known, `Date.now()` is the parameter `now`, and the answer the user gives
    in the overwrite dialog is the parameter `overwrite`. */
module Popup {
  import opened Types
  import opened Text
  import opened Seqs
  import opened Storage
  import Links

  /** The url and title of the active tab. */
  datatype Tab = Tab(url: string, title: string)

  /** `parts.map(tag => tag.trim())`. */
  function TrimAll(parts: seq<string>): (r: seq<string>)
    ensures |r| == |parts|
    decreases |parts|
  {
    if parts == [] then [] else [Trim(parts[0])] + TrimAll(parts[1..])
  }

  lemma {:induction false} TrimAllAt(parts: seq<string>, i: int)
    requires 0 <= i < |parts|
    ensures TrimAll(parts)[i] == Trim(parts[i])
    decreases |parts|
  {
    if i > 0 {
      TrimAllAt(parts[1..], i - 1);
    }
  }

  /** The comma-separated pieces of the tags field, each trimmed. */
  function TrimmedPieces(tags: string): (r: seq<string>)
    ensures |r| == CountChar(tags, ',') + 1
  {
    TrimAll(Split(tags, ','))
  }

  /** The tags `handleSave` stores: the trimmed pieces that are not empty. */
  function ParseTags(tags: string): (r: seq<string>)
    ensures forall i :: 0 <= i < |r| ==> r[i] != ""
    ensures forall t :: t in r <==> t in TrimmedPieces(tags) && t != ""
    ensures forall t :: multiset(r)[t] == if t != "" then multiset(TrimmedPieces(tags))[t] else 0
    ensures IsSubsequence(r, TrimmedPieces(tags))
    ensures |r| <= CountChar(tags, ',') + 1
  {
    var pieces := TrimmedPieces(tags);
    FilterIsSubsequence(pieces, (t: string) => t != "");
    Filter(pieces, (t: string) => t != "")
  }

  /** No tag contains a comma, and none starts or ends with whitespace. */
  lemma TagsAreClean(tags: string)
    ensures forall t :: t in ParseTags(tags) ==> ',' !in t && !IsWhitespace(t[0]) && !IsWhitespace(t[|t| - 1])
  {
    var pieces := TrimmedPieces(tags);
    forall t | t in ParseTags(tags)
      ensures ',' !in t && !IsWhitespace(t[0]) && !IsWhitespace(t[|t| - 1])
    {
      assert t in pieces && t != "";
      var i :| 0 <= i < |pieces| && pieces[i] == t;
      PieceClean(tags, i);
    }
  }

  /** One trimmed piece has no comma and no whitespace at its ends. */
  lemma PieceClean(tags: string, i: int)
    requires 0 <= i < |TrimmedPieces(tags)|
    ensures var t := TrimmedPieces(tags)[i];
      ',' !in t && (t == [] || (!IsWhitespace(t[0]) && !IsWhitespace(t[|t| - 1])))
  {
    var parts := Split(tags, ',');
    TrimAllAt(parts, i);
    TrimAddsNothing(parts[i], ',');
  }

  /** A string with no commas is one tag, trimmed, or no tag when blank. */
  lemma SingleTag(tags: string)
    requires CountChar(tags, ',') == 0
    ensures ParseTags(tags) == if Trim(tags) == "" then [] else [Trim(tags)]
  {
    var parts := Split(tags, ',');
    JoinSplit(tags, ',');
    assert |parts| == 1;
    assert parts[0] == tags;
    var pieces := TrimmedPieces(tags);
    TrimAllAt(parts, 0);
    assert |pieces| == 1 && pieces[0] == Trim(tags);
    assert pieces[1..] == [];
    var p := (t: string) => t != "";
    assert Filter(pieces, p) == (if p(pieces[0]) then [pieces[0]] else []) + Filter(pieces[1..], p);
  }

  /** A tag written twice is stored twice: `"a, a"` gives `["a", "a"]`. */
  lemma DuplicateTagsKept()
    ensures ParseTags("a, a") == ["a", "a"]
  {
    assert "a, a"[1..] == ", a" && ", a"[1..] == " a" && " a"[1..] == "a" && "a"[1..] == "";
    assert Split("", ',') == [""] && [""][1..] == [];
    assert [' '] + "a" == " a" && ['a'] + "" == "a";
    assert Split("a", ',') == ["a"];
    assert Split(" a", ',') == [" a"];
    assert Split(", a", ',') == ["", " a"];
    assert Split("a, a", ',') == ["a", " a"];
    assert "a"[..0] == "";
    assert TrimStart(" a") == "a" && TrimEnd("a") == "a";
    assert Trim("a") == "a" && Trim(" a") == "a";
    assert ["a", " a"][1..] == [" a"];
    assert TrimAll([" a"]) == ["a"];
    assert TrimmedPieces("a, a") == ["a", "a"];
    var p := (t: string) => t != "";
    assert ["a", "a"][1..] == ["a"] && ["a"][1..] == [];
    assert Filter(["a"], p) == ["a"];
  }

  /** The record `handleSave` builds: the edited url and title while editing,
      the tab's otherwise. */
  function NoteData(tab: Tab, isEditing: bool, editedUrl: string, editedTitle: string,
                    note: string, tags: string, now: int): (r: SavedLink)
    ensures r.url == (if isEditing then editedUrl else tab.url)
    ensures r.title == (if isEditing then editedTitle else tab.title)
    ensures r.note == note && r.timestamp == now && r.tags == Some(ParseTags(tags))
    ensures r.categories.None? && r.isPinned.None? && r.lastOpenedAt.None?
    ensures r.deletedAt.None? && r.isDeleted.None? && r.position.None?
    ensures r.reminderDays.None? && r.isArchived.None? && r.archivedAt.None?
  {
    NewLink(if isEditing then editedUrl else tab.url, if isEditing then editedTitle else tab.title, note, now)
      .(tags := Some(ParseTags(tags)))
  }

  /** Saving a URL that is already stored replaces its record wholesale, so the
      stored link loses its categories, pin, reminder and trash and archive
      state. */
  lemma ResaveResetsLink(links: seq<SavedLink>, tab: Tab, isEditing: bool, editedUrl: string,
                         editedTitle: string, note: string, tags: string, now: int)
    ensures var saved := NoteData(tab, isEditing, editedUrl, editedTitle, note, tags, now);
      var found := Links.GetLinkByUrl(Links.Upsert(links, saved), saved.url);
      && found.Some? && found.value.categories.None? && found.value.isPinned.None?
      && found.value.reminderDays.None? && found.value.isDeleted.None? && found.value.deletedAt.None?
      && found.value.isArchived.None? && found.value.archivedAt.None?
  {
    var saved := NoteData(tab, isEditing, editedUrl, editedTitle, note, tags, now);
    Links.GetAfterUpsert(links, saved);
  }

  class PopupForm {
    var note: string
    var tags: string
    var currentTab: Option<Tab>
    var isEditing: bool
    var editedTitle: string
    var editedUrl: string

    constructor ()
      ensures note == "" && tags == "" && currentTab == None
      ensures !isEditing && editedTitle == "" && editedUrl == ""
    {
      note := "";
      tags := "";
      currentTab := None;
      isEditing := false;
      editedTitle := "";
      editedUrl := "";
    }

    /** The `useEffect` that reads the active tab: a tab with a url and a
        title becomes the current tab and the starting point for editing. */
    method SetActiveTab(activeTab: Option<Tab>)
      modifies this
      ensures activeTab.Some? && activeTab.value.url != "" && activeTab.value.title != "" ==>
        && currentTab == activeTab && editedTitle == activeTab.value.title && editedUrl == activeTab.value.url
      ensures !(activeTab.Some? && activeTab.value.url != "" && activeTab.value.title != "") ==>
        && currentTab == old(currentTab) && editedTitle == old(editedTitle) && editedUrl == old(editedUrl)
      ensures note == old(note) && tags == old(tags) && isEditing == old(isEditing)
    {
      if activeTab.Some? && activeTab.value.url != "" && activeTab.value.title != "" {
        currentTab := activeTab;
        editedTitle := activeTab.value.title;
        editedUrl := activeTab.value.url;
      }
    }

    /** `handleEditToggle`: leaving edit mode restores the tab's title and url. */
    method HandleEditToggle()
      modifies this
      ensures isEditing == !old(isEditing)
      ensures old(isEditing) && currentTab.Some? ==>
        editedTitle == currentTab.value.title && editedUrl == currentTab.value.url
      ensures !(old(isEditing) && currentTab.Some?) ==>
        editedTitle == old(editedTitle) && editedUrl == old(editedUrl)
      ensures note == old(note) && tags == old(tags) && currentTab == old(currentTab)
    {
      if isEditing {
        if currentTab.Some? {
          editedTitle := currentTab.value.title;
          editedUrl := currentTab.value.url;
        }
      }
      isEditing := !isEditing;
    }

    /** `handleSave`: saves through `Links.SaveLink`, which asks about an
        existing URL (so `Links.GetAfterUpsert` applies to a successful save);
        a successful save clears the note and tags and leaves edit mode.
        Without a current tab nothing happens. */
    method HandleSave(st: Store, now: int, overwrite: bool) returns (success: bool)
      modifies this, st`savedLinks
      ensures old(currentTab).None? ==> !success && st.savedLinks == old(st.savedLinks)
      ensures old(currentTab).Some? ==>
        var noteData := NoteData(old(currentTab).value, old(isEditing), old(editedUrl), old(editedTitle),
                                 old(note), old(tags), now);
        && (success <==> !(Links.FindLinkIndex(old(st.savedLinks), noteData.url) != -1 && !overwrite))
        && st.savedLinks == (if success then Links.Upsert(old(st.savedLinks), noteData) else old(st.savedLinks))
      ensures success ==> note == "" && tags == "" && !isEditing
      ensures !success ==> note == old(note) && tags == old(tags) && isEditing == old(isEditing)
      ensures currentTab == old(currentTab) && editedTitle == old(editedTitle) && editedUrl == old(editedUrl)
    {
      if currentTab.None? {
        success := false;
      } else {
        var noteData := NoteData(currentTab.value, isEditing, editedUrl, editedTitle, note, tags, now);
        ghost var before := st.savedLinks;
        success := Links.SaveLink(st, noteData, Some(overwrite));
        assert success <==> !(Links.FindLinkIndex(before, noteData.url) != -1 && !overwrite);
        if success {
          note := "";
          tags := "";
          isEditing := false;
        }
      }
    }
  }
}
