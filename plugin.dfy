/** The current revision of the plugin (`__init__.py`): subject parsing,
    the mapping to host metadata, the URL and cached-cover rules, and
    `identify`, which looks a book up by its `bgm` identifier or searches
    by title, expands the candidates through related subjects, ranks them
    and emits at most ten records. */
module Plugin {
  import opened Wrappers
  import opened PyText
  import opened Seqs
  import opened Records
  import opened Infobox
  import opened Tags
  import opened Api
  import opened Related
  import opened Ranking

  const AuthorKeys: seq<string> := ["作者", "原作", "作画", "插图", "插画"]
  const ReleaseDateKey: string := "发售日"
  const PublisherKey: string := "出版社"
  const IsbnKey: string := "ISBN"
  const BaseUrl: string := "https://bangumi.tv"

  // ----- _parse_data -----

  function ParseData(data: RawSubject, cfg: Config): Book
  {
    Book(
      title := data.name,
      titleCn := data.nameCn,
      authors := Values(data.infobox, AuthorKeys),
      cover := data.coverLarge,
      tags := KeptTags(data.tags, cfg.tagUserCount, cfg.tagCount),
      pubdate := if Present(data.date) then data.date else FirstValue(data.infobox, [ReleaseDateKey]),
      publisher := FirstValue(data.infobox, [PublisherKey]),
      comments := data.summary,
      rating := data.ratingScore / 2.0,
      isbn := FirstValue(data.infobox, [IsbnKey]),
      bgmId := data.id)
  }

  /** Head of the last value stored under `key`, if any. */
  function LastFirst(infobox: seq<InfoEntry>, key: string): Option<string>
  {
    if LastValue(infobox, key) == [] then None else Some(LastValue(infobox, key)[0])
  }

  /** What the parsed book holds, in terms of the key-ordered reading of the
      infobox: authors from the five author keys in priority order, single
      fields from the last entry of their key, the publication date from
      `date` unless it is empty, the subject id always, and at most
      `tag_count` tags each counted by at least `tag_user_count` users. */
  lemma ParsedBook(data: RawSubject, cfg: Config)
    ensures var b := ParseData(data, cfg);
      b.bgmId == data.id && b.title == data.name && b.titleCn == data.nameCn &&
      b.authors == ByKeyOrder(data.infobox, AuthorKeys) &&
      b.publisher == LastFirst(data.infobox, PublisherKey) &&
      b.isbn == LastFirst(data.infobox, IsbnKey) &&
      b.pubdate == (if Present(data.date) then data.date else LastFirst(data.infobox, ReleaseDateKey)) &&
      (cfg.tagCount >= 0 ==> |b.tags| <= cfg.tagCount) &&
      (forall t :: t in b.tags ==>
        exists i :: 0 <= i < |data.tags| && data.tags[i].name == t && data.tags[i].count >= cfg.tagUserCount)
  {
    ValuesByKeyOrder(data.infobox, AuthorKeys);
    FirstValueOfKey(data.infobox, PublisherKey);
    FirstValueOfKey(data.infobox, IsbnKey);
    FirstValueOfKey(data.infobox, ReleaseDateKey);
    KeptTagsExact(data.tags, cfg.tagUserCount, cfg.tagCount);
    var tags := KeptTags(data.tags, cfg.tagUserCount, cfg.tagCount);
    var idx := Picked(data.tags, Qualifies(cfg.tagUserCount));
    forall t | t in tags
      ensures exists i :: 0 <= i < |data.tags| && data.tags[i].name == t && data.tags[i].count >= cfg.tagUserCount
    {
      var k :| 0 <= k < |tags| && tags[k] == t;
      assert data.tags[idx[k]].name == t;
    }
  }

  // ----- _to_metadata -----

  function ToMetadata(book: Book): (mi: Metadata)
    ensures mi.title == if book.titleCn != "" then book.titleCn else book.title
    ensures "bgm" in mi.identifiers && mi.identifiers["bgm"] == IntToStr(book.bgmId)
    ensures "isbn" in mi.identifiers <==> Present(book.isbn)
    ensures Present(book.isbn) ==> mi.identifiers["isbn"] == book.isbn.value && mi.isbn == book.isbn
    ensures !Present(book.isbn) ==> mi.isbn == None
    ensures mi.identifiers.Keys <= {"bgm", "isbn"}
    ensures mi.cover == book.cover && mi.authors == book.authors && mi.tags == book.tags
    ensures mi.pubdate == book.pubdate && mi.publisher == book.publisher &&
      mi.comments == book.comments && mi.rating == book.rating
  {
    var identifiers := map["bgm" := IntToStr(book.bgmId)];
    Metadata(
      title := if Truthy(book.titleCn) then book.titleCn else book.title,
      authors := book.authors,
      cover := book.cover,
      tags := book.tags,
      pubdate := book.pubdate,
      publisher := book.publisher,
      comments := book.comments,
      rating := book.rating,
      isbn := if Present(book.isbn) then book.isbn else None,
      identifiers := if Present(book.isbn) then identifiers["isbn" := book.isbn.value] else identifiers)
  }

  /** From subject to record: the localised name wins unless it is empty,
      and the `bgm` identifier is the subject id and tells subjects apart. */
  lemma SubjectToRecord(data: RawSubject, other: RawSubject, cfg: Config)
    ensures ToMetadata(ParseData(data, cfg)).title == if data.nameCn != "" then data.nameCn else data.name
    ensures ToMetadata(ParseData(data, cfg)).identifiers["bgm"] == IntToStr(data.id)
    ensures ToMetadata(ParseData(data, cfg)).identifiers["bgm"] == ToMetadata(ParseData(other, cfg)).identifiers["bgm"]
      ==> data.id == other.id
  {
    if IntToStr(data.id) == IntToStr(other.id) {
      IntToStrInjective(data.id, other.id);
    }
  }

  // ----- get_book_url, get_cached_cover_url -----

  datatype BookUrl = BookUrl(source: string, id: string, url: string)

  function GetBookUrl(identifiers: map<string, string>): (r: Option<BookUrl>)
    ensures r.Some? <==> "bgm" in identifiers
    ensures r.Some? ==> r.value.source == "Bangumi" && r.value.id == identifiers["bgm"]
    ensures r.Some? ==>
      StartsWith(r.value.url, "https://bangumi.tv/subject/") &&
      r.value.url[|"https://bangumi.tv/subject/"|..] == identifiers["bgm"]
  {
    if "bgm" in identifiers then
      var id := identifiers["bgm"];
      Some(BookUrl("Bangumi", id, BaseUrl + "/subject/" + id))
    else None
  }

  function Lookup(m: map<string, string>, key: string): Option<string>
  {
    if key in m then Some(m[key]) else None
  }

  /** The cover URL cached for a book: through its `bgm` identifier when it
      has one, otherwise through the id cached for its ISBN. */
  function GetCachedCoverUrl(identifiers: map<string, string>, isbnToId: map<string, string>,
                             idToCover: map<string, string>): (url: Option<string>)
    ensures url.Some? ==> url.value in idToCover.Values
    ensures "bgm" in identifiers ==> url == Lookup(idToCover, identifiers["bgm"])
    ensures "bgm" !in identifiers && "isbn" !in identifiers ==> url == None
    ensures "bgm" !in identifiers && "isbn" in identifiers && identifiers["isbn"] !in isbnToId ==> url == None
    ensures "bgm" !in identifiers && "isbn" in identifiers && identifiers["isbn"] in isbnToId ==>
      url == Lookup(idToCover, isbnToId[identifiers["isbn"]])
  {
    if "bgm" in identifiers then
      Lookup(idToCover, identifiers["bgm"])
    else if "isbn" in identifiers then
      match Lookup(isbnToId, identifiers["isbn"])
      case None => None
      case Some(id) => Lookup(idToCover, id)
    else
      None
  }

  // ----- the host's caches -----

  /** The host-side caches the plugin writes after each emitted record. */
  class HostCache {
    var isbnToId: map<string, string>
    var idToCover: map<string, string>

    constructor ()
      ensures isbnToId == map[] && idToCover == map[]
    {
      isbnToId := map[];
      idToCover := map[];
    }

    method CacheIsbnToIdentifier(isbn: string, id: string)
      modifies this
      ensures isbnToId == old(isbnToId)[isbn := id] && idToCover == old(idToCover)
    {
      isbnToId := isbnToId[isbn := id];
    }

    method CacheIdentifierToCoverUrl(id: string, url: string)
      modifies this
      ensures idToCover == old(idToCover)[id := url] && isbnToId == old(isbnToId)
    {
      idToCover := idToCover[id := url];
    }
  }

  function BgmOf(mi: Metadata): Option<string>
  {
    Lookup(mi.identifiers, "bgm")
  }

  /** The ISBN cache after the records are emitted in order. */
  function IsbnWrites(m: map<string, string>, records: seq<Metadata>): map<string, string>
  {
    if records == [] then m
    else
      var before := IsbnWrites(m, records[..|records| - 1]);
      var mi := records[|records| - 1];
      if Present(mi.isbn) && BgmOf(mi).Some? then before[mi.isbn.value := BgmOf(mi).value] else before
  }

  /** The cover cache after the records are emitted in order. */
  function CoverWrites(m: map<string, string>, records: seq<Metadata>): map<string, string>
  {
    if records == [] then m
    else
      var before := CoverWrites(m, records[..|records| - 1]);
      var mi := records[|records| - 1];
      if Present(mi.cover) && BgmOf(mi).Some? then before[BgmOf(mi).value := mi.cover.value] else before
  }

  function ToMetadataAll(books: seq<Book>): (records: seq<Metadata>)
    ensures |records| == |books| && forall i :: 0 <= i < |books| ==> records[i] == ToMetadata(books[i])
  {
    if books == [] then [] else ToMetadataAll(books[..|books| - 1]) + [ToMetadata(books[|books| - 1])]
  }

  lemma CacheWritesStep(isbnToId: map<string, string>, idToCover: map<string, string>, records: seq<Metadata>, mi: Metadata)
    ensures IsbnWrites(isbnToId, records + [mi]) ==
      var before := IsbnWrites(isbnToId, records);
      if Present(mi.isbn) && BgmOf(mi).Some? then before[mi.isbn.value := BgmOf(mi).value] else before
    ensures CoverWrites(idToCover, records + [mi]) ==
      var before := CoverWrites(idToCover, records);
      if Present(mi.cover) && BgmOf(mi).Some? then before[BgmOf(mi).value := mi.cover.value] else before
  {
    assert (records + [mi])[..|records|] == records;
  }

  /** The body of the final loop of `identify` for one record: the ISBN and
      the cover, when present, are cached under the record's `bgm` id. */
  method CacheRecord(cache: HostCache, mi: Metadata)
    requires "bgm" in mi.identifiers
    modifies cache
    ensures cache.isbnToId ==
      if Present(mi.isbn) then old(cache.isbnToId)[mi.isbn.value := mi.identifiers["bgm"]] else old(cache.isbnToId)
    ensures cache.idToCover ==
      if Present(mi.cover) then old(cache.idToCover)[mi.identifiers["bgm"] := mi.cover.value] else old(cache.idToCover)
  {
    var bangumiId := mi.identifiers["bgm"];
    if mi.isbn.Some? && mi.isbn.value != "" {
      cache.CacheIsbnToIdentifier(mi.isbn.value, bangumiId);
    }
    if mi.cover.Some? && mi.cover.value != "" {
      cache.CacheIdentifierToCoverUrl(bangumiId, mi.cover.value);
    }
  }

  /** The final loop of `identify`: map each selected book, feed the caches,
      put the record on the result queue. */
  method Emit(cache: HostCache, valid: seq<Book>) returns (emitted: seq<Metadata>)
    modifies cache
    ensures emitted == ToMetadataAll(valid)
    ensures cache.isbnToId == IsbnWrites(old(cache.isbnToId), emitted)
    ensures cache.idToCover == CoverWrites(old(cache.idToCover), emitted)
  {
    ghost var isbnToId0, idToCover0 := cache.isbnToId, cache.idToCover;
    emitted := [];
    var i := 0;
    while i < |valid|
      invariant 0 <= i <= |valid|
      invariant emitted == ToMetadataAll(valid[..i])
      invariant cache.isbnToId == IsbnWrites(isbnToId0, emitted)
      invariant cache.idToCover == CoverWrites(idToCover0, emitted)
    {
      assert valid[..i + 1][..i] == valid[..i];
      var mi := ToMetadata(valid[i]);
      CacheWritesStep(isbnToId0, idToCover0, emitted, mi);
      assert BgmOf(mi) == Some(mi.identifiers["bgm"]);
      CacheRecord(cache, mi);
      emitted := emitted + [mi];
      i := i + 1;
    }
    assert valid[..i] == valid;
  }

  lemma {:induction false} CoverWritesLast(m: map<string, string>, records: seq<Metadata>, i: nat)
    requires i < |records| && BgmOf(records[i]).Some? && Present(records[i].cover)
    requires forall j :: i < j < |records| ==> BgmOf(records[j]) != BgmOf(records[i])
    ensures Lookup(CoverWrites(m, records), BgmOf(records[i]).value) == records[i].cover
  {
    if i < |records| - 1 {
      var init := records[..|records| - 1];
      assert init[i] == records[i];
      CoverWritesLast(m, init, i);
    }
  }

  lemma {:induction false} IsbnWritesLast(m: map<string, string>, records: seq<Metadata>, i: nat)
    requires i < |records| && BgmOf(records[i]).Some? && Present(records[i].isbn)
    requires forall j :: i < j < |records| ==> records[j].isbn != records[i].isbn
    ensures Lookup(IsbnWrites(m, records), records[i].isbn.value) == BgmOf(records[i])
  {
    if i < |records| - 1 {
      var init := records[..|records| - 1];
      assert init[i] == records[i];
      IsbnWritesLast(m, init, i);
    }
  }

  /** After a record with a cover is emitted (and no later record shares its
      `bgm` identifier), the cover lookup finds that cover both through the
      record's own identifiers and, when it has an ISBN that no later record
      shares, through the ISBN alone. */
  lemma CachedCoverAfterEmit(isbnToId: map<string, string>, idToCover: map<string, string>,
                             records: seq<Metadata>, i: nat)
    requires i < |records| && BgmOf(records[i]).Some? && Present(records[i].cover)
    requires forall j :: i < j < |records| ==> BgmOf(records[j]) != BgmOf(records[i])
    ensures GetCachedCoverUrl(records[i].identifiers, IsbnWrites(isbnToId, records), CoverWrites(idToCover, records))
      == records[i].cover
    ensures Present(records[i].isbn) && (forall j :: i < j < |records| ==> records[j].isbn != records[i].isbn) ==>
      GetCachedCoverUrl(map["isbn" := records[i].isbn.value], IsbnWrites(isbnToId, records), CoverWrites(idToCover, records))
      == records[i].cover
  {
    CoverWritesLast(idToCover, records, i);
    if Present(records[i].isbn) && (forall j :: i < j < |records| ==> records[j].isbn != records[i].isbn) {
      IsbnWritesLast(isbnToId, records, i);
    }
  }

  // ----- the requests of identify -----

  /** `_query_subject`'s result: the parsed book, or None on a failed request. */
  function SubjectBook(subjects: string -> Option<RawSubject>, cfg: Config, id: string): Option<Book>
  {
    match subjects(id)
    case None => None
    case Some(data) => Some(ParseData(data, cfg))
  }

  function FetchedBooks(subjects: string -> Option<RawSubject>, cfg: Config, order: seq<int>): (books: seq<Option<Book>>)
    ensures |books| == |order| && forall i :: 0 <= i < |order| ==> books[i] == SubjectBook(subjects, cfg, IntToStr(order[i]))
  {
    if order == [] then []
    else FetchedBooks(subjects, cfg, order[..|order| - 1]) + [SubjectBook(subjects, cfg, IntToStr(order[|order| - 1]))]
  }

  lemma FetchedBooksAppend(subjects: string -> Option<RawSubject>, cfg: Config, order: seq<int>, id: int)
    ensures FetchedBooks(subjects, cfg, order + [id]) ==
      FetchedBooks(subjects, cfg, order) + [SubjectBook(subjects, cfg, IntToStr(id))]
  {
    assert (order + [id])[..|order|] == order;
  }

  method QuerySubject(api: Server, cfg: Config, id: string) returns (book: Option<Book>)
    modifies api`log
    ensures book == SubjectBook(api.subjects, cfg, id)
    ensures api.log == old(api.log) + [SubjectRequest(id)]
  {
    var response := api.GetSubject(id);
    if response == None {
      return None;
    }
    book := Some(ParseData(response.value, cfg));
  }

  /** `_search_by_title`: the ids of the hits, [] for a failed request. */
  method SearchByTitle(api: Server, title: Option<string>) returns (ids: seq<int>)
    modifies api`log
    ensures ids == SearchIds(api.search(title))
    ensures api.log == old(api.log) + [SearchRequest(title)]
  {
    var response := api.Search(title);
    if response == None {
      return [];
    }
    ids := SearchIds(response);
  }

  /** One subject request per candidate, in the unspecified order in which
      the set is iterated; `order` records that order. */
  method QuerySubjects(api: Server, cfg: Config, ids: set<int>) returns (books: seq<Option<Book>>, ghost order: seq<int>)
    modifies api`log
    ensures IsEnumeration(order, ids)
    ensures books == FetchedBooks(api.subjects, cfg, order)
    ensures api.log == old(api.log) + SubjectRequests(order)
  {
    var remaining := ids;
    books, order := [], [];
    while remaining != {}
      invariant remaining <= ids
      invariant IsEnumeration(order, ids - remaining)
      invariant books == FetchedBooks(api.subjects, cfg, order)
      invariant api.log == old(api.log) + SubjectRequests(order)
      decreases remaining
    {
      var id := PickOne(remaining);
      var book := QuerySubject(api, cfg, IntToStr(id));
      FetchedBooksAppend(api.subjects, cfg, order, id);
      SubjectRequestsAppend(order, id);
      EnumerationStep(order, ids - remaining, id);
      assert (ids - remaining) + {id} == ids - (remaining - {id});
      books := books + [book];
      order := order + [id];
      remaining := remaining - {id};
    }
    assert ids - remaining == ids;
  }

  /** The requests of `identify` up to the ranking. With a `bgm`
      identifier: one subject request and no search. Otherwise: one search,
      one relations request per hit, one subject request per candidate (the
      hits and their type-1 related ids), in set order. */
  method FetchCandidates(api: Server, cfg: Config, title: Option<string>, identifiers: map<string, string>)
    returns (books: seq<Option<Book>>, ghost order: seq<int>)
    modifies api`log
    ensures "bgm" in identifiers ==>
      api.log == old(api.log) + [SubjectRequest(identifiers["bgm"])] &&
      books == [SubjectBook(api.subjects, cfg, identifiers["bgm"])]
    ensures "bgm" !in identifiers ==>
      var ids := SearchIds(api.search(title));
      IsEnumeration(order, Expanded(ids, RelatedLists(api.related, ids))) &&
      api.log == old(api.log) + [SearchRequest(title)] + RelatedRequests(ids) + SubjectRequests(order) &&
      books == FetchedBooks(api.subjects, cfg, order)
    ensures "bgm" !in identifiers && SearchIds(api.search(title)) == [] ==>
      books == [] && api.log == old(api.log) + [SearchRequest(title)]
  {
    order := [];
    if "bgm" in identifiers {
      var book := QuerySubject(api, cfg, identifiers["bgm"]);
      books := [book];
    } else {
      var ids := SearchByTitle(api, title);
      var lists := QueryRelations(api, ids);
      var childIds := UnionRelated(ids, lists);
      books, order := QuerySubjects(api, cfg, childIds);
      if ids == [] {
        assert childIds == {};
        EnumerationSize(order, childIds);
      }
    }
  }

  /** `identify`: fetch the candidates, select at most ten books and emit
      them, feeding the host's caches. A failed subject request on the `bgm`
      path emits nothing, and so does a search without hits. */
  method Identify(api: Server, cache: HostCache, cfg: Config, title: Option<string>, identifiers: map<string, string>,
                  lower: string -> string, ratio: (string, string) -> real)
    returns (emitted: seq<Metadata>, ghost order: seq<int>)
    requires RatioBounded(ratio)
    modifies api`log, cache
    ensures "bgm" in identifiers ==>
      api.log == old(api.log) + [SubjectRequest(identifiers["bgm"])] &&
      emitted == ToMetadataAll(Selected(title, [SubjectBook(api.subjects, cfg, identifiers["bgm"])], lower, ratio))
    ensures "bgm" in identifiers && api.subjects(identifiers["bgm"]) == None ==> emitted == []
    ensures "bgm" !in identifiers ==>
      var ids := SearchIds(api.search(title));
      IsEnumeration(order, Expanded(ids, RelatedLists(api.related, ids))) &&
      api.log == old(api.log) + [SearchRequest(title)] + RelatedRequests(ids) + SubjectRequests(order) &&
      emitted == ToMetadataAll(Selected(title, FetchedBooks(api.subjects, cfg, order), lower, ratio))
    ensures "bgm" !in identifiers && SearchIds(api.search(title)) == [] ==>
      emitted == [] && api.log == old(api.log) + [SearchRequest(title)]
    ensures |emitted| <= 10
    ensures cache.isbnToId == IsbnWrites(old(cache.isbnToId), emitted)
    ensures cache.idToCover == CoverWrites(old(cache.idToCover), emitted)
  {
    var books;
    books, order := FetchCandidates(api, cfg, title, identifiers);
    var valid := Rank(title, books, lower, ratio);
    SelectedFromInput(title, books, lower, ratio);
    if "bgm" in identifiers && api.subjects(identifiers["bgm"]) == None {
      FailedFetchSelectsNothing(title, lower, ratio);
    }
    emitted := Emit(cache, valid);
  }
}
