/** The records that flow through the crawl: raw search-result entries, the same
    entries tagged with the search that produced them, the deduplicated crawl
    frontier, the detail payload of one listing page and the resolved property. */
module Listings {
  import opened Wrappers

  /** A named saved search; `params` are the query parameters sent with every page. */
  datatype SearchConfig = SearchConfig(name: string, params: map<string, string>)

  /** One entry of a search-result feed. Only `token` matters to the pipeline;
      the other JSON fields are carried along untouched. */
  datatype RawListing = RawListing(token: Option<string>, fields: map<string, string>)

  /** A raw entry after `run_multi_search` set its `search_config` key. */
  datatype TaggedListing = TaggedListing(listing: RawListing, searchConfig: string)

  /** An element of the deduplicated frontier: the first tagged entry carrying a
      token, plus its `found_in_searches` list. */
  datatype FrontierRef = FrontierRef(tagged: TaggedListing, foundInSearches: seq<string>) {
    function Token(): string {
      TokenOf(tagged)
    }
  }

  /** A JSON value that may be absent, `null` or a string. */
  datatype JsonText = Absent | Null | Text(s: string)

  /** One element of the `images` array of a listing page. Objects map keys to
      string or `null` values; any other JSON value is `ImageOther`. */
  datatype ImageEntry =
    | ImageUrl(url: string)
    | ImageObject(keys: map<string, Option<string>>)
    | ImageOther

  /** The `listing_data` object found in a listing page. `images` is `None` when
      the JSON value there is not an array. `fields` stands for the flat
      projection of the remaining keys; it is `None` when building that
      projection raises: a JSON `null` where `metaData`, `address`, `dates`,
      `additionalDetails`, `inProperty` or one of their nested objects is read
      with `.get`, or a `null` `images` or `videos` array given to `len`. */
  datatype ListingData = ListingData(
    token: string,
    images: Option<seq<ImageEntry>>,
    entranceDate: JsonText,
    fields: Option<map<string, string>>)

  /** A resolved property record, one row of the combined table. Image values
      are `None` where the page held `null`. */
  datatype Property = Property(
    listingId: string,
    entryDate: string,
    images: seq<Option<string>>,
    link: string,
    fields: map<string, string>,
    foundInSearches: seq<string>,
    searchTimestamp: Option<string>)

  /** The string a token stands for; `""` when the key is missing or null. A token
      is truthy exactly when this is non-empty. */
  function TokenOf(l: TaggedListing): string {
    match l.listing.token
    case Some(t) => t
    case None => ""
  }

  predicate HasToken(l: TaggedListing) {
    TokenOf(l) != ""
  }

  /** The listing ids of a batch of rows, in row order. */
  function Ids(rows: seq<Property>): (ids: seq<string>)
    ensures |ids| == |rows|
    ensures forall i | 0 <= i < |rows| :: ids[i] == rows[i].listingId
  {
    seq(|rows|, i requires 0 <= i < |rows| => rows[i].listingId)
  }
}
