/** The shapes of the data the plugin handles: the Bangumi API's JSON
    objects, the plugin's normalised book dictionaries of both revisions,
    the host's metadata record and the two configuration numbers. */
module Records {
  import opened Wrappers

  /** An infobox value: a scalar, or a list of `{v: ...}` objects. */
  datatype InfoValue = Scalar(text: string) | Items(vs: seq<string>)

  datatype InfoEntry = InfoEntry(key: string, value: InfoValue)

  datatype Tag = Tag(name: string, count: int)

  /** One element of `GET /subjects/{id}/subjects`. */
  datatype RelatedItem = RelatedItem(id: int, kind: int)

  /** One element of the `data` list of `POST /search/subjects`. */
  datatype SearchHit = SearchHit(id: int)

  /** A subject as `GET /subjects/{id}` returns it. Keys read with `.get`
      carry their default when absent (`infobox`, `tags` -> [], `summary`
      -> "", `rating.score` -> 0, `images.large` -> None); `date` is None
      when the API sends null. */
  datatype RawSubject = RawSubject(
    id: int,
    name: string,
    nameCn: string,
    date: Option<string>,
    infobox: seq<InfoEntry>,
    coverLarge: Option<string>,
    tags: seq<Tag>,
    summary: string,
    ratingScore: real)

  /** `CONFIG`: minimum tagger count of a valid tag, maximum tags kept. */
  datatype Config = Config(tagUserCount: int, tagCount: int)

  /** The book dictionary of the root revision's `_parse_data`. The
      single-value fields hold None where the source stores the empty list
      that `_parse_infobox(..., only_first=True)` returns for no match;
      `pubdate` holds the text handed to the host's date parser. */
  datatype Book = Book(
    title: string,
    titleCn: string,
    authors: seq<string>,
    cover: Option<string>,
    tags: seq<string>,
    pubdate: Option<string>,
    publisher: Option<string>,
    comments: string,
    rating: real,
    isbn: Option<string>,
    bgmId: int)

  /** The book dictionary of the earlier revision (src/): one merged title,
      no cover, the raw rating score. */
  datatype SrcBook = SrcBook(
    title: string,
    authors: seq<string>,
    tags: seq<string>,
    pubdate: Option<string>,
    publisher: Option<string>,
    comments: string,
    rating: real,
    isbn: Option<string>,
    bgmId: int)

  /** The host's metadata object, as far as the plugin fills it in. */
  datatype Metadata = Metadata(
    title: string,
    authors: seq<string>,
    cover: Option<string>,
    tags: seq<string>,
    pubdate: Option<string>,
    publisher: Option<string>,
    comments: string,
    rating: real,
    isbn: Option<string>,
    identifiers: map<string, string>)

  /** Python truthiness of an optional string: present and non-empty. */
  predicate Present(o: Option<string>)
  {
    o.Some? && o.value != ""
  }
}
