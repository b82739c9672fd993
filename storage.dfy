/** The part of `browser.storage.local` that the link and category stores own.
    Each key holds one whole array that every operation reads, transforms and
    writes back; an absent key reads as `[]`. */
module Storage {
  import opened Types

  class Store {
    /** The array under key `"saved_links"`. */
    var savedLinks: seq<SavedLink>
    /** The array under key `"categories"`. */
    var categories: seq<Category>

    constructor (links: seq<SavedLink>, cats: seq<Category>)
      ensures savedLinks == links && categories == cats
    {
      savedLinks := links;
      categories := cats;
    }
  }
}
