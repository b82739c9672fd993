/** `src/lib/hooks/use-links.ts`: the saved-link collection, keyed by URL. */
module Links {
  import opened Types
  import opened Seqs
  import opened Storage

  /** `links.findIndex(link => link.url === url)`. */
  function FindLinkIndex(links: seq<SavedLink>, url: string): int
  {
    FindIndex(links, (l: SavedLink) => l.url == url)
  }

  predicate UniqueUrls(links: seq<SavedLink>)
  {
    forall i, j :: 0 <= i < j < |links| ==> links[i].url != links[j].url
  }

  /** The collection after a committed save: the first record with the same
      URL is replaced (`links[existingIndex] = note`), or the record is pushed. */
  function Upsert(links: seq<SavedLink>, note: SavedLink): (r: seq<SavedLink>)
    ensures note in r
    ensures forall l :: l in r ==> l == note || l in links
    ensures forall l :: l in links && l.url != note.url ==> l in r
  {
    var existingIndex := FindLinkIndex(links, note.url);
    if existingIndex != -1 then
      var r := links[existingIndex := note];
      assert r[existingIndex] == note;
      assert forall j :: 0 <= j < |links| && links[j].url != note.url ==> r[j] == links[j];
      r
    else links + [note]
  }

  /** Saving an absent URL appends at the end and leaves the earlier entries alone. */
  lemma UpsertAbsentAppends(links: seq<SavedLink>, note: SavedLink)
    requires forall j :: 0 <= j < |links| ==> links[j].url != note.url
    ensures var r := Upsert(links, note);
      |r| == |links| + 1 && r[..|links|] == links && r[|links|] == note
  {
  }

  /** Saving an existing URL replaces the first record with that URL wholesale
      (its `timestamp` included); length and every other entry are unchanged. */
  lemma UpsertPresentReplaces(links: seq<SavedLink>, note: SavedLink, i: int)
    requires 0 <= i < |links| && links[i].url == note.url
    requires forall j :: 0 <= j < i ==> links[j].url != note.url
    ensures var r := Upsert(links, note);
      |r| == |links| && r[i] == note && forall j :: 0 <= j < |links| && j != i ==> r[j] == links[j]
  {
  }

  /** Unique URLs stay unique. */
  lemma UpsertKeepsUnique(links: seq<SavedLink>, note: SavedLink)
    requires UniqueUrls(links)
    ensures UniqueUrls(Upsert(links, note))
  {
  }

  /** `getLinkByUrl`: the first record with that URL, if any. */
  function GetLinkByUrl(links: seq<SavedLink>, url: string): (r: Option<SavedLink>)
    ensures r.Some? <==> exists j :: 0 <= j < |links| && links[j].url == url
    ensures r.Some? ==> exists i :: 0 <= i < |links| && links[i] == r.value && r.value.url == url
                                    && forall j :: 0 <= j < i ==> links[j].url != url
  {
    var i := FindLinkIndex(links, url);
    if i == -1 then None else Some(links[i])
  }

  /** After a save, looking the URL up yields the saved record, with or without
      earlier duplicates. */
  lemma GetAfterUpsert(links: seq<SavedLink>, note: SavedLink)
    ensures GetLinkByUrl(Upsert(links, note), note.url) == Some(note)
  {
    var i := FindLinkIndex(links, note.url);
    var r := Upsert(links, note);
    if i == -1 {
      assert r[|links|] == note;
      assert FindLinkIndex(r, note.url) == |links|;
    } else {
      assert r[i] == note;
      assert FindLinkIndex(r, note.url) == i;
    }
  }

  /** The records whose URL differs, in order. */
  function WithoutUrl(links: seq<SavedLink>, url: string): (r: seq<SavedLink>)
    ensures forall l :: l in r <==> l in links && l.url != url
    ensures forall l :: multiset(r)[l] == if l.url != url then multiset(links)[l] else 0
    ensures IsSubsequence(r, links)
  {
    var p := (l: SavedLink) => l.url != url;
    FilterIsSubsequence(links, p);
    Filter(links, p)
  }

  /** Deleting an absent URL changes nothing. */
  lemma DeleteAbsentUnchanged(links: seq<SavedLink>, url: string)
    requires forall j :: 0 <= j < |links| ==> links[j].url != url
    ensures WithoutUrl(links, url) == links
  {
    FilterKeepsAll(links, (l: SavedLink) => l.url != url);
  }

  /** Deleting twice is deleting once. */
  lemma DeleteIdempotent(links: seq<SavedLink>, url: string)
    ensures WithoutUrl(WithoutUrl(links, url), url) == WithoutUrl(links, url)
  {
    FilterIdempotent(links, (l: SavedLink) => l.url != url);
  }

  /** `saveLink(note, onDuplicateFound)`. The optional callback is represented
      by the answer it gives (`None` when no callback is passed); it is consulted
      only when the URL is already saved. The store is written only on success,
      and then holds `Upsert` of what it held, so `GetAfterUpsert` and
      `UpsertKeepsUnique` describe the new collection. */
  method SaveLink(st: Store, note: SavedLink, onDuplicateFound: Option<bool>) returns (ok: bool)
    modifies st`savedLinks
    ensures ok <==> !(FindLinkIndex(old(st.savedLinks), note.url) != -1 && onDuplicateFound == Some(false))
    ensures st.savedLinks == if ok then Upsert(old(st.savedLinks), note) else old(st.savedLinks)
  {
    var links := st.savedLinks;
    var existingIndex := FindLinkIndex(links, note.url);
    if existingIndex != -1 {
      if onDuplicateFound.Some? {
        var shouldUpdate := onDuplicateFound.value;
        if !shouldUpdate {
          return false;
        }
      }
      links := links[existingIndex := note];
    } else {
      links := links + [note];
    }
    st.savedLinks := links;
    return true;
  }

  /** `deleteLink(url)`: writes back the collection without that URL. */
  method DeleteLink(st: Store, url: string) returns (ok: bool)
    modifies st`savedLinks
    ensures ok && st.savedLinks == WithoutUrl(old(st.savedLinks), url)
  {
    var links := st.savedLinks;
    var filteredLinks := WithoutUrl(links, url);
    st.savedLinks := filteredLinks;
    return true;
  }
}
