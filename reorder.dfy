/** `src/lib/hooks/use-reorder.ts` and the `ReorderState` of
    `src/lib/types.ts`: the home list is either being viewed or reordered. */
module Reorder {

  datatype ReorderState = Viewing | Reordering

  /** The stored state when nothing has been stored yet. */
  const DEFAULT_REORDER_STATE: ReorderState := Viewing

  /** `reorderState === "reordering"`. */
  predicate IsReordering(s: ReorderState)
  {
    s == Reordering
  }

  /** `startReordering`, i.e. `setReorderState("reordering")`: the state `s`
      it replaces plays no part. */
  function StartReordering(s: ReorderState): (r: ReorderState)
    ensures IsReordering(r)
  {
    Reordering
  }

  /** `stopReordering`, i.e. `setReorderState("viewing")`: the state `s` it
      replaces plays no part. */
  function StopReordering(s: ReorderState): (r: ReorderState)
    ensures r == Viewing && !IsReordering(r)
  {
    Viewing
  }

  /** Swaps the two states. */
  function ToggleReordering(s: ReorderState): (r: ReorderState)
    ensures IsReordering(r) <==> !IsReordering(s)
  {
    if s == Reordering then Viewing else Reordering
  }

  /** Toggling twice is the identity. */
  lemma ToggleTwice(s: ReorderState)
    ensures ToggleReordering(ToggleReordering(s)) == s
  {
  }

  /** The list starts out not being reordered. */
  lemma DefaultIsViewing()
    ensures !IsReordering(DEFAULT_REORDER_STATE)
  {
  }
}
