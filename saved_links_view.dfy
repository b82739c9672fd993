/** `src/components/popup/saved-links-view.tsx`: the popup's links grouped by
    category. The JavaScript `Map` is modelled as its keys in insertion order
    together with a `map` from key to group; the expanded-groups toggle is
    `Selection.Toggle`. */
module SavedLinksView {
  import opened Types
  import opened Seqs

  /** The key of the group for links without categories. */
  const UNCATEGORIZED: string := "uncategorized"

  /** The groups a link is pushed to, once per entry: `"uncategorized"` when
      `link.categories?.length` is falsy, else each listed id. */
  function Targets(link: SavedLink): (r: seq<string>)
    ensures |r| == (if |CategoryIds(link)| == 0 then 1 else |CategoryIds(link)|)
    ensures CategoryIds(link) == [] ==> r == [UNCATEGORIZED]
    ensures CategoryIds(link) != [] ==> r == CategoryIds(link)
  {
    if CategoryIds(link) == [] then [UNCATEGORIZED] else CategoryIds(link)
  }

  /** How often `x` occurs in `s`. */
  function Occurrences(s: seq<string>, x: string): nat
    decreases |s|
  {
    if s == [] then 0 else Occurrences(s[..|s| - 1], x) + (if s[|s| - 1] == x then 1 else 0)
  }

  /** `n` copies of `link`. */
  function Copies(link: SavedLink, n: nat): (r: seq<SavedLink>)
    ensures |r| == n && forall i :: 0 <= i < n ==> r[i] == link
  {
    seq(n, _ => link)
  }

  /** The group `id` should hold: the links in input order, each once per
      time it targets `id`. */
  function Bucket(links: seq<SavedLink>, id: string): seq<SavedLink>
    decreases |links|
  {
    if links == [] then []
    else
      var last := links[|links| - 1];
      Bucket(links[..|links| - 1], id) + Copies(last, Occurrences(Targets(last), id))
  }

  /** The number of entries over all groups: one per link without categories,
      one per listed id otherwise. */
  function EntryCount(links: seq<SavedLink>): nat
    decreases |links|
  {
    if links == [] then 0
    else
      var last := links[|links| - 1];
      EntryCount(links[..|links| - 1]) + (if |CategoryIds(last)| == 0 then 1 else |CategoryIds(last)|)
  }

  /** The total size of the groups under `keys`. */
  function SumSizes(keys: seq<string>, groups: map<string, seq<SavedLink>>): nat
    requires forall k :: k in keys ==> k in groups
    decreases |keys|
  {
    if keys == [] then 0
    else SumSizes(keys[..|keys| - 1], groups) + |groups[keys[|keys| - 1]]|
  }

  lemma {:induction false} SumSizesFrame(keys: seq<string>, g: map<string, seq<SavedLink>>, h: map<string, seq<SavedLink>>)
    requires forall k :: k in keys ==> k in g && k in h && |g[k]| == |h[k]|
    ensures SumSizes(keys, g) == SumSizes(keys, h)
    decreases |keys|
  {
    if keys != [] {
      SumSizesFrame(keys[..|keys| - 1], g, h);
    }
  }

  /** Growing one group by one entry grows the total by one. */
  lemma {:induction false} SumSizesGrow(keys: seq<string>, groups: map<string, seq<SavedLink>>, k: string, v: seq<SavedLink>)
    requires Distinct(keys) && k in keys && forall x :: x in keys ==> x in groups
    requires |v| == |groups[k]| + 1
    ensures SumSizes(keys, groups[k := v]) == SumSizes(keys, groups) + 1
    decreases |keys|
  {
    var init := keys[..|keys| - 1];
    var last := keys[|keys| - 1];
    if last == k {
      assert forall j :: 0 <= j < |init| ==> init[j] == keys[j];
      assert k !in init;
      SumSizesFrame(init, groups[k := v], groups);
    } else {
      assert k in init by {
        var j :| 0 <= j < |keys| && keys[j] == k;
        assert j < |keys| - 1;
        assert init[j] == k;
      }
      assert Distinct(init);
      SumSizesGrow(init, groups, k, v);
    }
  }

  /** Setting an existing key to an empty group, where every group is empty,
      leaves the total at zero. */
  lemma {:induction false} SumSizesAllEmpty(keys: seq<string>, groups: map<string, seq<SavedLink>>)
    requires forall x :: x in keys ==> x in groups && groups[x] == []
    ensures SumSizes(keys, groups) == 0
    decreases |keys|
  {
    if keys != [] {
      SumSizesAllEmpty(keys[..|keys| - 1], groups);
    }
  }

  /** `categorized.set(k, v)`: the key is appended when it is new. */
  lemma AddKey(keys: seq<string>, groups: map<string, seq<SavedLink>>, k: string, v: seq<SavedLink>)
    requires WellFormed(keys, groups)
    ensures WellFormed(if k in groups then keys else keys + [k], groups[k := v])
  {
    if k !in groups {
      var keys' := keys + [k];
      forall i, j | 0 <= i < j < |keys'|
        ensures keys'[i] != keys'[j]
      {
        if j == |keys| {
          assert keys'[i] == keys[i];
          assert keys[i] in groups;
        }
      }
    }
  }

  /** Setting a key to its old group plus one entry adds one to the total. */
  lemma AddEntry(keys: seq<string>, groups: map<string, seq<SavedLink>>, k: string, v: seq<SavedLink>)
    requires WellFormed(keys, groups)
    requires |v| == (if k in groups then |groups[k]| else 0) + 1
    ensures var keys' := if k in groups then keys else keys + [k];
      WellFormed(keys', groups[k := v]) && SumSizes(keys', groups[k := v]) == SumSizes(keys, groups) + 1
  {
    AddKey(keys, groups, k, v);
    if k in groups {
      SumSizesGrow(keys, groups, k, v);
    } else {
      AddNewEntry(keys, groups, k, v);
    }
  }

  lemma AddNewEntry(keys: seq<string>, groups: map<string, seq<SavedLink>>, k: string, v: seq<SavedLink>)
    requires WellFormed(keys, groups) && k !in groups && |v| == 1
    ensures SumSizes(keys + [k], groups[k := v]) == SumSizes(keys, groups) + 1
  {
    assert k !in keys;
    assert (keys + [k])[..|keys|] == keys;
    SumSizesFrame(keys, groups[k := v], groups);
  }

  /** The groups in `keys` order that hold at least one link; empty groups
      are not drawn. */
  function VisibleGroups(keys: seq<string>, groups: map<string, seq<SavedLink>>): (r: seq<string>)
    ensures forall k :: k in r <==> k in keys && k in groups && |groups[k]| > 0
    ensures IsSubsequence(r, keys)
  {
    FilterIsSubsequence(keys, (k: string) => k in groups && |groups[k]| > 0);
    Filter(keys, (k: string) => k in groups && |groups[k]| > 0)
  }

  /** The map a `Map` with those keys and groups describes. */
  ghost predicate WellFormed(keys: seq<string>, groups: map<string, seq<SavedLink>>)
  {
    Distinct(keys) && forall k :: k in groups <==> k in keys
  }

  /** Every group holds what `Bucket` says for the links processed so far,
      and every id without a group has nothing to hold. */
  ghost predicate Grouped(done: seq<SavedLink>, groups: map<string, seq<SavedLink>>)
  {
    && (forall k :: k in groups ==> groups[k] == Bucket(done, k))
    && (forall k :: k !in groups ==> Bucket(done, k) == [])
  }

  /** The same, part-way through pushing `link` to the ids `ids[..j]`. */
  ghost predicate PartlyGrouped(before: seq<SavedLink>, link: SavedLink, ids: seq<string>, j: int,
                                groups: map<string, seq<SavedLink>>)
    requires 0 <= j <= |ids|
  {
    && (forall k :: k in groups ==> groups[k] == Bucket(before, k) + Copies(link, Occurrences(ids[..j], k)))
    && (forall k :: k !in groups ==> Bucket(before, k) == [] && Occurrences(ids[..j], k) == 0)
  }

  /** Every key is `"uncategorized"`, a category's id, or holds a link. */
  ghost predicate KeysAccounted(groups: map<string, seq<SavedLink>>, categories: seq<Category>)
  {
    forall k :: k in groups ==>
      k == UNCATEGORIZED || (exists i :: 0 <= i < |categories| && categories[i].id == k) || groups[k] != []
  }

  /** `h` keeps every group of `g`, none of them shorter, and its new groups
      are non-empty. */
  ghost predicate GrowsFrom(g: map<string, seq<SavedLink>>, h: map<string, seq<SavedLink>>)
  {
    && (forall k :: k in g ==> k in h && |h[k]| >= |g[k]|)
    && (forall k :: k in h ==> k in g || h[k] != [])
  }

  /** Setting one group to something longer than it was keeps growing. */
  lemma GrowOne(g: map<string, seq<SavedLink>>, h: map<string, seq<SavedLink>>, k: string, v: seq<SavedLink>)
    requires GrowsFrom(g, h)
    requires |v| > (if k in h then |h[k]| else 0)
    ensures GrowsFrom(g, h[k := v])
  {
  }

  /** Growing groups and adding non-empty ones keeps every key accounted for. */
  lemma AccountedGrow(g: map<string, seq<SavedLink>>, h: map<string, seq<SavedLink>>, categories: seq<Category>)
    requires KeysAccounted(g, categories) && GrowsFrom(g, h)
    ensures KeysAccounted(h, categories)
  {
    forall k | k in h && k in g && g[k] != []
      ensures h[k] != []
    {
      assert |h[k]| >= |g[k]| > 0;
    }
  }

  /** `linksByCategory`. */
  method LinksByCategory(links: seq<SavedLink>, categories: seq<Category>)
    returns (keys: seq<string>, groups: map<string, seq<SavedLink>>)
    ensures WellFormed(keys, groups)
    ensures forall i :: 0 <= i < |categories| ==> categories[i].id in groups
    ensures UNCATEGORIZED in groups
    ensures forall k :: k in groups ==> groups[k] == Bucket(links, k)
    ensures forall k :: k !in groups ==> Bucket(links, k) == []
    ensures SumSizes(keys, groups) == EntryCount(links)
    ensures forall i, k :: 0 <= i < |links| && k in Targets(links[i]) ==> k in groups
    ensures forall k :: k in groups ==>
      || k == UNCATEGORIZED
      || (exists i :: 0 <= i < |categories| && categories[i].id == k)
      || (exists i :: 0 <= i < |links| && k in Targets(links[i]))
  {
    keys, groups := InitGroups(categories);
    SumSizesAllEmpty(keys, groups);
    assert Grouped(links[..0], groups);

    // Sort links into categories
    var n := 0;
    while n < |links|
      invariant 0 <= n <= |links|
      invariant WellFormed(keys, groups)
      invariant forall i :: 0 <= i < |categories| ==> categories[i].id in groups
      invariant UNCATEGORIZED in groups
      invariant Grouped(links[..n], groups)
      invariant SumSizes(keys, groups) == EntryCount(links[..n])
      invariant KeysAccounted(groups, categories)
    {
      var link := links[n];
      PrefixStep(links, n);
      keys, groups := SortIn(links[..n], link, categories, keys, groups);
      n := n + 1;
    }
    assert links[..n] == links;
    forall i, k | 0 <= i < |links| && k in Targets(links[i])
      ensures k in groups
    {
      BucketNonEmptyIff(links, k);
    }
    AccountedTargets(links, categories, groups);
  }

  /** One turn of the outer loop: `link` goes to `"uncategorized"` when it
      has no categories, and to each listed id otherwise. */
  method SortIn(before: seq<SavedLink>, link: SavedLink, categories: seq<Category>,
                keys0: seq<string>, groups0: map<string, seq<SavedLink>>)
    returns (keys: seq<string>, groups: map<string, seq<SavedLink>>)
    requires WellFormed(keys0, groups0) && UNCATEGORIZED in groups0
    requires Grouped(before, groups0) && KeysAccounted(groups0, categories)
    ensures WellFormed(keys, groups) && Grouped(before + [link], groups) && KeysAccounted(groups, categories)
    ensures forall k :: k in groups0 ==> k in groups
    ensures SumSizes(keys, groups) == SumSizes(keys0, groups0) + (if |CategoryIds(link)| == 0 then 1 else |CategoryIds(link)|)
  {
    if CategoryIds(link) == [] {
      AddEntry(keys0, groups0, UNCATEGORIZED, groups0[UNCATEGORIZED] + [link]);
      UncategorizedStep(before, link, groups0);
      AccountedGrow(groups0, groups0[UNCATEGORIZED := groups0[UNCATEGORIZED] + [link]], categories);
      keys, groups := keys0, groups0[UNCATEGORIZED := groups0[UNCATEGORIZED] + [link]];
    } else {
      keys, groups := PushToEachCategory(before, link, keys0, groups0);
      AccountedGrow(groups0, groups, categories);
    }
  }

  lemma PrefixStep(links: seq<SavedLink>, n: int)
    requires 0 <= n < |links|
    ensures links[..n] + [links[n]] == links[..n + 1]
  {
  }

  /** Once every group is its `Bucket`, a key that is neither
      `"uncategorized"` nor a category's id is targeted by some link. */
  lemma AccountedTargets(links: seq<SavedLink>, categories: seq<Category>, groups: map<string, seq<SavedLink>>)
    requires KeysAccounted(groups, categories)
    requires forall k :: k in groups ==> groups[k] == Bucket(links, k)
    ensures forall k :: k in groups ==>
      || k == UNCATEGORIZED
      || (exists i :: 0 <= i < |categories| && categories[i].id == k)
      || (exists i :: 0 <= i < |links| && k in Targets(links[i]))
  {
    forall k | k in groups
      ensures || k == UNCATEGORIZED
              || (exists i :: 0 <= i < |categories| && categories[i].id == k)
              || (exists i :: 0 <= i < |links| && k in Targets(links[i]))
    {
      BucketNonEmptyIff(links, k);
    }
  }

  /** The `Map` before any link is sorted in: an empty group for every
      category id, then the `"uncategorized"` group. */
  method InitGroups(categories: seq<Category>) returns (keys: seq<string>, groups: map<string, seq<SavedLink>>)
    ensures WellFormed(keys, groups)
    ensures forall i :: 0 <= i < |categories| ==> categories[i].id in groups
    ensures UNCATEGORIZED in groups
    ensures forall k :: k in groups ==> groups[k] == []
    ensures forall k :: k in groups ==> k == UNCATEGORIZED || exists i :: 0 <= i < |categories| && categories[i].id == k
  {
    keys := [];
    groups := map[];

    // Initialize with all categories
    var c := 0;
    while c < |categories|
      invariant 0 <= c <= |categories|
      invariant WellFormed(keys, groups)
      invariant forall i :: 0 <= i < c ==> categories[i].id in groups
      invariant forall k :: k in groups ==> groups[k] == []
      invariant forall k :: k in groups ==> exists i :: 0 <= i < c && categories[i].id == k
    {
      var id := categories[c].id;
      AddKey(keys, groups, id, []);
      keys := if id in groups then keys else keys + [id];
      groups := groups[id := []];
      c := c + 1;
    }

    // Add uncategorized group
    AddKey(keys, groups, UNCATEGORIZED, []);
    keys := if UNCATEGORIZED in groups then keys else keys + [UNCATEGORIZED];
    groups := groups[UNCATEGORIZED := []];
  }

  lemma UncategorizedStep(before: seq<SavedLink>, link: SavedLink, groups: map<string, seq<SavedLink>>)
    requires CategoryIds(link) == [] && UNCATEGORIZED in groups && Grouped(before, groups)
    ensures Grouped(before + [link], groups[UNCATEGORIZED := groups[UNCATEGORIZED] + [link]])
  {
    var after := before + [link];
    var g := groups[UNCATEGORIZED := groups[UNCATEGORIZED] + [link]];
    assert after[..|after| - 1] == before;
    assert [UNCATEGORIZED][..0] == [];
    assert Targets(link) == [UNCATEGORIZED];
    forall k
      ensures Bucket(after, k) == Bucket(before, k) + Copies(link, if k == UNCATEGORIZED then 1 else 0)
    {
      assert Occurrences([UNCATEGORIZED], k) == if k == UNCATEGORIZED then 1 else 0;
    }
    assert Copies(link, 1) == [link];
    assert Copies(link, 0) == [];
  }

  /** `link.categories.forEach(...)`: pushes `link` to the group of each id it
      lists, creating a group for an id seen for the first time. */
  method PushToEachCategory(before: seq<SavedLink>, link: SavedLink, keys0: seq<string>, groups0: map<string, seq<SavedLink>>)
    returns (keys: seq<string>, groups: map<string, seq<SavedLink>>)
    requires CategoryIds(link) != []
    requires WellFormed(keys0, groups0) && Grouped(before, groups0)
    ensures WellFormed(keys, groups) && Grouped(before + [link], groups)
    ensures SumSizes(keys, groups) == SumSizes(keys0, groups0) + |CategoryIds(link)|
    ensures GrowsFrom(groups0, groups)
  {
    keys, groups := keys0, groups0;
    var ids := link.categories.value;
    assert ids[..0] == [];
    var j := 0;
    while j < |ids|
      invariant 0 <= j <= |ids|
      invariant WellFormed(keys, groups)
      invariant GrowsFrom(groups0, groups)
      invariant PartlyGrouped(before, link, ids, j, groups)
      invariant SumSizes(keys, groups) == SumSizes(keys0, groups0) + j
    {
      var catId := ids[j];
      var categoryLinks := if catId in groups then groups[catId] else [];
      PushStep(before, link, ids, j, groups);
      AddEntry(keys, groups, catId, categoryLinks + [link]);
      GrowOne(groups0, groups, catId, categoryLinks + [link]);
      keys := if catId in groups then keys else keys + [catId];
      groups := groups[catId := categoryLinks + [link]];
      j := j + 1;
    }
    assert ids[..j] == ids;
    FinishPush(before, link, groups);
  }

  lemma PushStep(before: seq<SavedLink>, link: SavedLink, ids: seq<string>, j: int, groups: map<string, seq<SavedLink>>)
    requires 0 <= j < |ids| && PartlyGrouped(before, link, ids, j, groups)
    ensures var categoryLinks := if ids[j] in groups then groups[ids[j]] else [];
      PartlyGrouped(before, link, ids, j + 1, groups[ids[j] := categoryLinks + [link]])
  {
    var catId := ids[j];
    assert ids[..j + 1][..j] == ids[..j];
    var categoryLinks := if catId in groups then groups[catId] else [];
    var groups' := groups[catId := categoryLinks + [link]];
    assert Copies(link, Occurrences(ids[..j + 1], catId)) == Copies(link, Occurrences(ids[..j], catId)) + [link];
    forall k | k in groups'
      ensures groups'[k] == Bucket(before, k) + Copies(link, Occurrences(ids[..j + 1], k))
    {
      if k != catId {
        assert Occurrences(ids[..j + 1], k) == Occurrences(ids[..j], k);
      }
    }
    forall k | k !in groups'
      ensures Bucket(before, k) == [] && Occurrences(ids[..j + 1], k) == 0
    {
      assert Occurrences(ids[..j + 1], k) == Occurrences(ids[..j], k);
    }
  }

  lemma FinishPush(before: seq<SavedLink>, link: SavedLink, groups: map<string, seq<SavedLink>>)
    requires CategoryIds(link) != []
    requires PartlyGrouped(before, link, link.categories.value, |link.categories.value|, groups)
    ensures Grouped(before + [link], groups)
  {
    var ids := link.categories.value;
    assert ids[..|ids|] == ids;
    var after := before + [link];
    assert after[..|after| - 1] == before;
  }

  /** A group shows up exactly when some link targets it. */
  lemma {:induction false} BucketNonEmptyIff(links: seq<SavedLink>, id: string)
    ensures Bucket(links, id) != [] <==> exists i :: 0 <= i < |links| && id in Targets(links[i])
    decreases |links|
  {
    if links != [] {
      var init := links[..|links| - 1];
      var last := links[|links| - 1];
      BucketNonEmptyIff(init, id);
      OccurrencesPositive(Targets(last), id);
      if exists i :: 0 <= i < |links| && id in Targets(links[i]) {
        var i :| 0 <= i < |links| && id in Targets(links[i]);
        if i < |links| - 1 {
          assert init[i] == links[i];
        }
      }
      if exists i :: 0 <= i < |init| && id in Targets(init[i]) {
        var i :| 0 <= i < |init| && id in Targets(init[i]);
        assert links[i] == init[i];
      }
    }
  }

  lemma {:induction false} OccurrencesPositive(s: seq<string>, x: string)
    ensures Occurrences(s, x) > 0 <==> x in s
    decreases |s|
  {
    if s != [] {
      OccurrencesPositive(s[..|s| - 1], x);
      assert s == s[..|s| - 1] + [s[|s| - 1]];
    }
  }
}
