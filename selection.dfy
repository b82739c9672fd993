/** The toggle updater that five views share (home, trash, the popup's group
    list and both category selectors): a selected id is filtered out, any
    other id is appended at the end. */
module Selection {
  import opened Seqs

  /** The selection a view starts with. */
  const InitialSelection: seq<string> := []

  /** Toggling flips the membership of `id` and keeps every other id's. */
  function Toggle(selected: seq<string>, id: string): (r: seq<string>)
    ensures id in r <==> id !in selected
    ensures forall x :: x != id ==> (x in r <==> x in selected)
  {
    if id in selected then Filter(selected, (x: string) => x != id) else selected + [id]
  }

  /** An absent id is appended at the end; a present id loses every occurrence
      and the remaining ids keep their order. */
  lemma ToggleShape(selected: seq<string>, id: string)
    ensures id !in selected ==> Toggle(selected, id) == selected + [id]
    ensures id in selected ==> IsSubsequence(Toggle(selected, id), selected) && id !in Toggle(selected, id)
  {
    FilterIsSubsequence(selected, (x: string) => x != id);
  }

  /** The other ids appear in the same order before and after a toggle. */
  lemma {:induction false} ToggleKeepsOthersInOrder(selected: seq<string>, id: string)
    ensures Filter(Toggle(selected, id), (x: string) => x != id) == Filter(selected, (x: string) => x != id)
  {
    var p := (x: string) => x != id;
    if id in selected {
      FilterIdempotent(selected, p);
    } else {
      FilterConcat(selected, [id], p);
      assert Filter([id], p) == [] by {
        assert [id][1..] == [];
      }
      assert selected + [] == selected;
    }
  }

  /** Toggling an absent id twice restores the original selection. */
  lemma {:induction false} ToggleTwiceRestores(selected: seq<string>, id: string)
    requires id !in selected
    ensures Toggle(Toggle(selected, id), id) == selected
  {
    var p := (x: string) => x != id;
    assert id in selected + [id];
    FilterConcat(selected, [id], p);
    FilterKeepsAll(selected, p);
    assert Filter([id], p) == [] by {
      assert [id][1..] == [];
    }
    assert selected + [] == selected;
  }

  /** A duplicate-free selection stays duplicate-free. */
  lemma ToggleKeepsDistinct(selected: seq<string>, id: string)
    requires Distinct(selected)
    ensures Distinct(Toggle(selected, id))
  {
    if id in selected {
      DistinctFilter(selected, (x: string) => x != id);
    }
  }

  lemma {:induction false} DistinctFilter(s: seq<string>, p: string -> bool)
    requires Distinct(s)
    ensures Distinct(Filter(s, p))
  {
    if s != [] {
      assert Distinct(s[1..]);
      DistinctFilter(s[1..], p);
      assert s[0] !in s[1..];
    }
  }
}
