/** `src/components/views/home/quick-filter-tabs.tsx`: the three quick-filter
    tabs, of which at most one is selected. */
module QuickFilterTabs {
  import opened Types

  datatype QuickFilter = Pinned | NeedsAttention | Recent

  /** The tabs in display order. */
  const QUICK_FILTERS: seq<QuickFilter> := [Pinned, NeedsAttention, Recent]

  /** The selection after clicking the tab for `clicked`: the selected tab
      deselects itself, any other tab takes over the selection. */
  function OnFilterClick(selected: Option<QuickFilter>, clicked: QuickFilter): (r: Option<QuickFilter>)
    ensures selected == Some(clicked) ==> r == None
    ensures selected != Some(clicked) ==> r == Some(clicked)
  {
    if selected == Some(clicked) then None else Some(clicked)
  }

  /** A tab is drawn as selected when it is the selection. */
  predicate Highlighted(selected: Option<QuickFilter>, tab: QuickFilter)
  {
    selected == Some(tab)
  }

  /** At most one tab is ever highlighted. */
  lemma AtMostOneHighlighted(selected: Option<QuickFilter>)
    ensures forall i, j :: 0 <= i < j < |QUICK_FILTERS| && Highlighted(selected, QUICK_FILTERS[i]) ==>
                           !Highlighted(selected, QUICK_FILTERS[j])
  {
  }

  /** After a click either nothing or the clicked tab is selected. */
  lemma ClickSelectsOnlyClicked(selected: Option<QuickFilter>, clicked: QuickFilter, other: QuickFilter)
    requires other != clicked
    ensures !Highlighted(OnFilterClick(selected, clicked), other)
  {
  }

  /** Two clicks on the same tab undo each other when that tab or no tab was
      selected; from another tab's selection they end with none. */
  lemma ClickTwice(selected: Option<QuickFilter>, clicked: QuickFilter)
    ensures OnFilterClick(OnFilterClick(selected, clicked), clicked) ==
      if selected == None || selected == Some(clicked) then selected else None
  {
  }
}
