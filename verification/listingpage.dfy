/** The logic of `scrape_listing_page` once the page has been fetched and its
    embedded JSON located: image URLs are normalised, the entrance date is cut
    at its time part, and the property record is assembled. */
module ListingPage {
  import opened Wrappers
  import opened Listings

  /** Listing pages live under this prefix, followed by the token. */
  const BaseItemUrl: string := "https://www.yad2.co.il/realestate/item/"

  function ItemUrl(token: string): string {
    BaseItemUrl + token
  }

  /** The keys tried, in this order, for the URL of an image object. */
  const UrlKeys: seq<string> := ["url", "src", "href", "link"]

  /** `img.get(k)`: the value under `k`, `None` standing for absent and `null`. */
  function Get(keys: map<string, Option<string>>, k: string): Option<string> {
    if k in keys then keys[k] else None
  }

  predicate Truthy(v: Option<string>) {
    v.Some? && v.value != ""
  }

  /** Position in `names` of the first key whose value is truthy, `|names|` if none:
      the operand that `img.get('url') or img.get('src') or ...` settles on. */
  function FirstTruthyKey(keys: map<string, Option<string>>, names: seq<string>): (i: nat)
    ensures i <= |names|
    ensures i < |names| ==> Truthy(Get(keys, names[i]))
    ensures forall j | 0 <= j < i :: !Truthy(Get(keys, names[j]))
  {
    if |names| == 0 then 0
    else if Truthy(Get(keys, names[0])) then 0
    else 1 + FirstTruthyKey(keys, names[1..])
  }

  /** What one `images` element contributes: `None` when it is dropped, otherwise
      the appended value (itself `None` for a JSON `null`). */
  function ImageChoice(img: ImageEntry): Option<Option<string>> {
    match img
    case ImageUrl(u) => Some(Some(u))
    case ImageObject(keys) =>
      var i := FirstTruthyKey(keys, UrlKeys);
      if i < |UrlKeys| then Some(Get(keys, UrlKeys[i]))
      else if "original" in keys then Some(keys["original"])
      else if "large" in keys then Some(keys["large"])
      else None
    case ImageOther => None
  }

  function ChoiceSeq(c: Option<Option<string>>): seq<Option<string>> {
    if c.Some? then [c.value] else []
  }

  /** The image loop of `scrape_listing_page` over an `images` array. */
  function ImageValues(entries: seq<ImageEntry>): (r: seq<Option<string>>)
    ensures |r| <= |entries|
  {
    if |entries| == 0 then []
    else ImageValues(entries[..|entries| - 1]) + ChoiceSeq(ImageChoice(entries[|entries| - 1]))
  }

  /** `image_urls`: empty when `images` is not an array. */
  function ExtractImages(images: Option<seq<ImageEntry>>): (r: seq<Option<string>>)
    ensures images.None? ==> r == []
    ensures images.Some? ==> |r| <= |images.value|
  {
    if images.Some? then ImageValues(images.value) else []
  }

  /** An element is dropped exactly when it is neither a string nor an object
      offering a truthy `url`/`src`/`href`/`link`, an `original` or a `large` key. */
  lemma ImageDroppedIff(img: ImageEntry)
    ensures ImageChoice(img).None? <==>
      || img.ImageOther?
      || (img.ImageObject?
          && (forall j | 0 <= j < |UrlKeys| :: !Truthy(Get(img.keys, UrlKeys[j])))
          && "original" !in img.keys && "large" !in img.keys)
  {
    if img.ImageObject? {
      var i := FirstTruthyKey(img.keys, UrlKeys);
      if i < |UrlKeys| {
        assert Truthy(Get(img.keys, UrlKeys[i]));
      }
    }
  }

  /** A value taken from the `url`/`src`/`href`/`link` chain is a non-empty string
      and belongs to the first key of the chain that has one. */
  lemma ImageUrlKeyPriority(keys: map<string, Option<string>>, j: nat)
    requires j < |UrlKeys| && Truthy(Get(keys, UrlKeys[j]))
    requires forall i | 0 <= i < j :: !Truthy(Get(keys, UrlKeys[i]))
    ensures ImageChoice(ImageObject(keys)) == Some(Get(keys, UrlKeys[j]))
    ensures ImageChoice(ImageObject(keys)).value.value != ""
  {
  }

  /** The images are processed element by element, in order: the result for a
      concatenation is the concatenation of the results. */
  lemma {:induction false} ImageValuesAppend(a: seq<ImageEntry>, b: seq<ImageEntry>)
    ensures ImageValues(a + b) == ImageValues(a) + ImageValues(b)
  {
    if |b| == 0 {
      assert a + b == a;
    } else {
      var b' := b[..|b| - 1];
      assert (a + b)[..|a + b| - 1] == a + b';
      ImageValuesAppend(a, b');
    }
  }

  /** String elements are kept as they are: an array of strings maps to itself. */
  lemma {:induction false} ImageValuesOfStrings(entries: seq<ImageEntry>)
    requires forall i | 0 <= i < |entries| :: entries[i].ImageUrl?
    ensures |ImageValues(entries)| == |entries|
    ensures forall i | 0 <= i < |entries| :: ImageValues(entries)[i] == Some(entries[i].url)
  {
    if |entries| > 0 {
      ImageValuesOfStrings(entries[..|entries| - 1]);
    }
  }

  /** `s.split(sep)[0]`: the text before the first `sep`, or all of `s`. */
  function SplitHead(s: string, sep: char): (r: string)
    ensures |r| <= |s| && r == s[..|r|]
    ensures sep !in r
    ensures |r| < |s| ==> s[|r|] == sep
  {
    if |s| == 0 || s[0] == sep then "" else [s[0]] + SplitHead(s[1..], sep)
  }

  /** The `entry_date` field: the entrance date cut before its `T`. A missing
      `entranceDate` (or `additionalDetails`) gives `""`; a `null` one makes
      `.split` raise. */
  function EntryDate(v: JsonText): (r: Result<string>)
    ensures r.Raised? <==> v.Null?
    ensures v.Absent? ==> r == Ok("")
    ensures v.Text? ==> r.Ok? && 'T' !in r.value && r.value <= v.s
    ensures v.Text? && |r.value| < |v.s| ==> v.s[|r.value|] == 'T'
  {
    match v
    case Absent => Ok("")
    case Null => Raised
    case Text(s) => Ok(SplitHead(s, 'T'))
  }

  /** Cutting an already cut date changes nothing. */
  lemma EntryDateIdempotent(s: string)
    ensures EntryDate(Text(EntryDate(Text(s)).value)) == EntryDate(Text(s))
  {
    SplitHeadWithoutSep(SplitHead(s, 'T'), 'T');
  }

  /** A text without `sep` is its own head. */
  lemma {:induction false} SplitHeadWithoutSep(s: string, sep: char)
    requires sep !in s
    ensures SplitHead(s, sep) == s
  {
    if |s| > 0 {
      SplitHeadWithoutSep(s[1..], sep);
    }
  }

  /** What fetching one listing page gives: `PageRaised` when an exception
      escapes before `listing_data` is known (the request or its status check
      fails, or the embedded JSON does not decode: `json.JSONDecodeError` is a
      `ValueError`, which the handler around the lookup does not catch),
      otherwise the `listing_data` found, `None` when it is missing or falsy. */
  datatype DetailOutcome = DetailPage(data: Option<ListingData>) | PageRaised

  /** `scrape_listing_page` without the field projection itself. It raises
      exactly when fetching or decoding the page raised, or the listing data has
      a `null` entrance date or a projection that raises; it yields no record
      exactly when no listing data was found; otherwise the record carries the
      page's token and URL, its projected fields, its extracted images and its
      cut entrance date, with no searches and no timestamp yet. */
  function ScrapeListingPage(outcome: DetailOutcome, url: string): (r: Result<Option<Property>>)
    ensures r.Raised? <==>
              || outcome.PageRaised?
              || (outcome.data.Some? && (outcome.data.value.entranceDate.Null? || outcome.data.value.fields.None?))
    ensures r == Ok(None) <==> outcome == DetailPage(None)
    ensures r.Ok? && r.value.Some? ==>
              var d := outcome.data.value;
              var p := r.value.value;
              && p.listingId == d.token && p.link == url && Some(p.fields) == d.fields
              && p.images == ExtractImages(d.images) && Ok(p.entryDate) == EntryDate(d.entranceDate)
              && p.foundInSearches == [] && p.searchTimestamp == None
  {
    match outcome
    case PageRaised => Raised
    case DetailPage(None) => Ok(None)
    case DetailPage(Some(d)) =>
      match EntryDate(d.entranceDate)
      case Raised => Raised
      case Ok(date) =>
        if d.fields.None? then Raised
        else Ok(Some(Property(d.token, date, ExtractImages(d.images), url, d.fields.value, [], None)))
  }

  /** A scraped record carries everything needed to scrape it again: its
      `entry_date` has no time part left, and a page rebuilt from the record's
      own token, image values, date and fields yields the same record. */
  lemma ScrapeRoundTrip(outcome: DetailOutcome, url: string)
    requires ScrapeListingPage(outcome, url).Ok? && ScrapeListingPage(outcome, url).value.Some?
    ensures var p := ScrapeListingPage(outcome, url).value.value;
            && 'T' !in p.entryDate
            && ScrapeListingPage(DetailPage(Some(ListingData(p.listingId, Some(ImagesFor(p.images)), Text(p.entryDate), Some(p.fields)))), url)
               == Ok(Some(p))
  {
    var p := ScrapeListingPage(outcome, url).value.value;
    SplitHeadWithoutSep(p.entryDate, 'T');
    ImageValuesRebuilt(p.images);
    assert EntryDate(Text(p.entryDate)) == Ok(p.entryDate);
  }

  /** The image element that stands for one extracted value: the URL string
      itself, or an object whose `original` key is `null`. */
  function ImageFor(v: Option<string>): (e: ImageEntry)
    ensures ImageChoice(e) == Some(v)
  {
    if v.Some? then ImageUrl(v.value)
    else
      var keys := map["original" := None];
      assert forall j | 0 <= j < |UrlKeys| :: !Truthy(Get(keys, UrlKeys[j]));
      ImageObject(keys)
  }

  /** One image element per value. */
  function ImagesFor(vs: seq<Option<string>>): (es: seq<ImageEntry>)
    ensures |es| == |vs|
    ensures forall i | 0 <= i < |vs| :: es[i] == ImageFor(vs[i])
  {
    seq(|vs|, i requires 0 <= i < |vs| => ImageFor(vs[i]))
  }

  /** Extraction undoes `ImagesFor`: every list of extracted values is the
      extraction of some `images` array. */
  lemma {:induction false} ImageValuesRebuilt(vs: seq<Option<string>>)
    ensures ImageValues(ImagesFor(vs)) == vs
  {
    if |vs| > 0 {
      var vs' := vs[..|vs| - 1];
      ImageValuesRebuilt(vs');
      var es := ImagesFor(vs);
      assert es[..|es| - 1] == ImagesFor(vs');
      assert vs == vs' + [vs[|vs| - 1]];
    }
  }
}
