/** The earlier revision of the plugin (`src/__init__.py`): one merged
    title, no cover, the raw rating score, a tag threshold read from
    `tag_count`, the candidate expansion inside `_search_by_title`, and an
    `identify` that emits one record per fetched book without ranking. */
module PluginSrc {
  import opened Wrappers
  import opened PyText
  import opened Seqs
  import opened Records
  import opened Infobox
  import opened Tags
  import opened Api
  import opened Related
  import Plugin

  const BaseUrl: string := "https://bangumi.tv/"
  const SubjectUrl: string := BaseUrl + "subject/"

  // ----- _parse_data -----

  function ParseData(data: RawSubject, cfg: Config): SrcBook
  {
    SrcBook(
      title := if Truthy(data.nameCn) then data.nameCn else data.name,
      authors := Values(data.infobox, Plugin.AuthorKeys),
      tags := KeptTags(data.tags, cfg.tagCount, cfg.tagCount),
      pubdate := if Present(data.date) then data.date else FirstValue(data.infobox, [Plugin.ReleaseDateKey]),
      publisher := FirstValue(data.infobox, [Plugin.PublisherKey]),
      comments := data.summary,
      rating := data.ratingScore,
      isbn := FirstValue(data.infobox, [Plugin.IsbnKey]),
      bgmId := data.id)
  }

  /** The parsed book: the localised name unless it is empty, the subject
      id, authors in author-key priority order, and at most `tag_count`
      tags, each counted by at least `tag_count` users (the threshold of
      this revision). */
  lemma ParsedBook(data: RawSubject, cfg: Config)
    ensures var b := ParseData(data, cfg);
      b.title == (if data.nameCn != "" then data.nameCn else data.name) &&
      b.bgmId == data.id &&
      b.authors == ByKeyOrder(data.infobox, Plugin.AuthorKeys) &&
      b.isbn == Plugin.LastFirst(data.infobox, Plugin.IsbnKey) &&
      b.publisher == Plugin.LastFirst(data.infobox, Plugin.PublisherKey) &&
      b.pubdate == (if Present(data.date) then data.date else Plugin.LastFirst(data.infobox, Plugin.ReleaseDateKey)) &&
      (cfg.tagCount >= 0 ==> |b.tags| <= cfg.tagCount) &&
      (forall t :: t in b.tags ==>
        exists i :: 0 <= i < |data.tags| && data.tags[i].name == t && data.tags[i].count >= cfg.tagCount)
  {
    ValuesByKeyOrder(data.infobox, Plugin.AuthorKeys);
    FirstValueOfKey(data.infobox, Plugin.PublisherKey);
    FirstValueOfKey(data.infobox, Plugin.IsbnKey);
    FirstValueOfKey(data.infobox, Plugin.ReleaseDateKey);
    KeptTagsExact(data.tags, cfg.tagCount, cfg.tagCount);
    var tags := KeptTags(data.tags, cfg.tagCount, cfg.tagCount);
    var idx := Picked(data.tags, Qualifies(cfg.tagCount));
    forall t | t in tags
      ensures exists i :: 0 <= i < |data.tags| && data.tags[i].name == t && data.tags[i].count >= cfg.tagCount
    {
      var k :| 0 <= k < |tags| && tags[k] == t;
      assert data.tags[idx[k]].name == t;
    }
  }

  // ----- _to_metadata -----

  function ToMetadata(book: SrcBook): (mi: Metadata)
    ensures mi.title == book.title && mi.authors == book.authors && mi.tags == book.tags
    ensures "bgm" in mi.identifiers && mi.identifiers["bgm"] == IntToStr(book.bgmId)
    ensures "isbn" in mi.identifiers <==> Present(book.isbn)
    ensures Present(book.isbn) ==> mi.identifiers["isbn"] == book.isbn.value
    ensures mi.identifiers.Keys <= {"bgm", "isbn"}
    ensures mi.cover == None && mi.isbn == None
    ensures mi.pubdate == book.pubdate && mi.publisher == book.publisher &&
      mi.comments == book.comments && mi.rating == book.rating
  {
    var identifiers := map["bgm" := IntToStr(book.bgmId)];
    Metadata(
      title := book.title,
      authors := book.authors,
      cover := None,
      tags := book.tags,
      pubdate := book.pubdate,
      publisher := book.publisher,
      comments := book.comments,
      rating := book.rating,
      isbn := None,
      identifiers := if Present(book.isbn) then identifiers["isbn" := book.isbn.value] else identifiers)
  }

  // ----- get_book_url -----

  function GetBookUrl(identifiers: map<string, string>): (r: Option<Plugin.BookUrl>)
    ensures r.Some? <==> "bgm" in identifiers
    ensures r.Some? ==> r.value.source == "Bangumi" && r.value.id == identifiers["bgm"]
    ensures r.Some? ==>
      StartsWith(r.value.url, "https://bangumi.tv/subject/") &&
      r.value.url[|"https://bangumi.tv/subject/"|..] == identifiers["bgm"]
  {
    if "bgm" in identifiers then
      var id := identifiers["bgm"];
      Some(Plugin.BookUrl("Bangumi", id, SubjectUrl + id))
    else None
  }

  /** Both revisions give every book the same URL. */
  lemma SameBookUrl(identifiers: map<string, string>)
    ensures GetBookUrl(identifiers) == Plugin.GetBookUrl(identifiers)
  {
    if "bgm" in identifiers {
      var id := identifiers["bgm"];
      assert SubjectUrl + id == Plugin.BaseUrl + "/subject/" + id;
    }
  }

  /** For one subject the two revisions agree on the record's title,
      authors, identifiers, publication date, publisher and summary, and on
      the tags when both configuration
      numbers are equal; the current revision halves the rating and adds the
      cover and the ISBN field. */
  lemma RevisionsAgree(data: RawSubject, cfg: Config)
    ensures var now := Plugin.ToMetadata(Plugin.ParseData(data, cfg));
      var before := ToMetadata(ParseData(data, cfg));
      now.title == before.title && now.authors == before.authors &&
      now.identifiers == before.identifiers &&
      now.pubdate == before.pubdate && now.publisher == before.publisher &&
      now.comments == before.comments &&
      now.rating == before.rating / 2.0 &&
      (cfg.tagUserCount == cfg.tagCount ==> now.tags == before.tags)
  {
  }

  // ----- the requests -----

  /** `_query_subject`'s result: the parsed book, or None on a failed request. */
  function SubjectBook(subjects: string -> Option<RawSubject>, cfg: Config, id: string): Option<SrcBook>
  {
    match subjects(id)
    case None => None
    case Some(data) => Some(ParseData(data, cfg))
  }

  function FetchedBooks(subjects: string -> Option<RawSubject>, cfg: Config, order: seq<int>): (books: seq<Option<SrcBook>>)
    ensures |books| == |order|
    ensures forall i :: 0 <= i < |order| ==> books[i] == SubjectBook(subjects, cfg, IntToStr(order[i]))
  {
    if order == [] then []
    else FetchedBooks(subjects, cfg, order[..|order| - 1]) + [SubjectBook(subjects, cfg, IntToStr(order[|order| - 1]))]
  }

  lemma FetchedBooksAppend(subjects: string -> Option<RawSubject>, cfg: Config, order: seq<int>, id: int)
    ensures FetchedBooks(subjects, cfg, order + [id]) ==
      FetchedBooks(subjects, cfg, order) + [SubjectBook(subjects, cfg, IntToStr(id))]
  {
    assert (order + [id])[..|order|] == order;
  }

  method QuerySubject(api: Server, cfg: Config, id: string) returns (book: Option<SrcBook>)
    modifies api`log
    ensures book == SubjectBook(api.subjects, cfg, id)
    ensures api.log == old(api.log) + [SubjectRequest(id)]
  {
    var response := api.GetSubject(id);
    if response == None {
      return None;
    }
    book := Some(ParseData(response.value, cfg));
  }

  /** `expanded_ids = set(bangumi_ids)` followed by
      `expanded_ids.update(rel_id for sublist in related_ids for rel_id in sublist)`. */
  method ExpandIds(ids: seq<int>, lists: seq<seq<int>>) returns (expanded: set<int>)
    ensures expanded == Expanded(ids, lists)
  {
    expanded := set x | x in ids;
    var i := 0;
    while i < |lists|
      invariant 0 <= i <= |lists|
      invariant expanded == Elements(ids) + UnionOf(lists[..i])
    {
      assert lists[..i + 1][..i] == lists[..i];
      var sublist := lists[i];
      var j := 0;
      while j < |sublist|
        invariant 0 <= j <= |sublist|
        invariant expanded == Elements(ids) + UnionOf(lists[..i]) + Elements(sublist[..j])
      {
        assert Elements(sublist[..j + 1]) == Elements(sublist[..j]) + {sublist[j]} by {
          assert sublist[..j + 1] == sublist[..j] + [sublist[j]];
        }
        expanded := expanded + {sublist[j]};
        j := j + 1;
      }
      assert sublist[..j] == sublist;
      i := i + 1;
    }
    assert lists[..i] == lists;
  }

  /** One subject request per candidate, in the unspecified order in which
      the set is iterated; `order` records that order. */
  method QuerySubjects(api: Server, cfg: Config, ids: set<int>) returns (books: seq<Option<SrcBook>>, ghost order: seq<int>)
    modifies api`log
    ensures IsEnumeration(order, ids)
    ensures books == FetchedBooks(api.subjects, cfg, order)
    ensures api.log == old(api.log) + SubjectRequests(order)
  {
    var remaining := ids;
    books, order := [], [];
    while remaining != {}
      invariant remaining <= ids
      invariant IsEnumeration(order, ids - remaining)
      invariant books == FetchedBooks(api.subjects, cfg, order)
      invariant api.log == old(api.log) + SubjectRequests(order)
      decreases remaining
    {
      var id := PickOne(remaining);
      var book := QuerySubject(api, cfg, IntToStr(id));
      FetchedBooksAppend(api.subjects, cfg, order, id);
      SubjectRequestsAppend(order, id);
      EnumerationStep(order, ids - remaining, id);
      assert (ids - remaining) + {id} == ids - (remaining - {id});
      books := books + [book];
      order := order + [id];
      remaining := remaining - {id};
    }
    assert ids - remaining == ids;
  }

  /** `_search_by_title`: a failed search or one without hits returns []
      and sends nothing more; otherwise one relations request per hit and
      one subject request per candidate (the hits and their type-1 related
      ids), whose books are returned. */
  method SearchByTitle(api: Server, cfg: Config, title: Option<string>)
    returns (books: seq<Option<SrcBook>>, ghost order: seq<int>)
    modifies api`log
    ensures var ids := SearchIds(api.search(title));
      ids == [] ==> books == [] && order == [] && api.log == old(api.log) + [SearchRequest(title)]
    ensures var ids := SearchIds(api.search(title));
      ids != [] ==>
        IsEnumeration(order, Expanded(ids, RelatedLists(api.related, ids))) &&
        api.log == old(api.log) + [SearchRequest(title)] + RelatedRequests(ids) + SubjectRequests(order) &&
        books == FetchedBooks(api.subjects, cfg, order)
  {
    order := [];
    var response := api.Search(title);
    if response == None {
      return [], [];
    }
    var ids := SearchIds(response);
    if ids == [] {
      return [], [];
    }
    var lists := QueryRelations(api, ids);
    var expanded := ExpandIds(ids, lists);
    books, order := QuerySubjects(api, cfg, expanded);
  }

  // ----- identify -----

  /** What the emission loop of `identify` leaves behind: the records put
      on the result queue, and whether it stopped with an exception. */
  datatype Emission = Emission(records: seq<Metadata>, raised: bool)

  /** The loop as written: `_to_metadata(book)` for every book, so a failed
      fetch (None) raises a TypeError and ends the loop. */
  function EmitAsWritten(books: seq<Option<SrcBook>>): Emission
  {
    if books == [] then Emission([], false)
    else
      var before := EmitAsWritten(books[..|books| - 1]);
      if before.raised then before
      else match books[|books| - 1]
        case None => Emission(before.records, true)
        case Some(b) => Emission(before.records + [ToMetadata(b)], false)
  }

  /** The intended loop: one record per fetched book, in order, skipping
      the failed fetches as the current revision does. */
  function EmitRecords(books: seq<Option<SrcBook>>): seq<Metadata>
  {
    if books == [] then []
    else
      var before := EmitRecords(books[..|books| - 1]);
      match books[|books| - 1]
      case None => before
      case Some(b) => before + [ToMetadata(b)]
  }

  /** No fetch failed. */
  predicate AllFetched(books: seq<Option<SrcBook>>)
  {
    forall i :: 0 <= i < |books| ==> books[i].Some?
  }

  /** Index of the first failed fetch, |books| when there is none. */
  function FirstFailure(books: seq<Option<SrcBook>>): (k: nat)
    ensures k <= |books|
    ensures forall i :: 0 <= i < k ==> books[i].Some?
    ensures k < |books| ==> books[k] == None
  {
    if books == [] then 0
    else if FirstFailure(books[..|books| - 1]) < |books| - 1 then FirstFailure(books[..|books| - 1])
    else if books[|books| - 1] == None then |books| - 1
    else |books|
  }

  /** The loop as written stops at the first failed fetch, having emitted
      what the intended loop emits for the books before it. */
  lemma {:induction false} AsWrittenStopsAt(books: seq<Option<SrcBook>>)
    ensures EmitAsWritten(books).raised == (FirstFailure(books) < |books|)
    ensures EmitAsWritten(books).records == EmitRecords(books[..FirstFailure(books)])
  {
    if books != [] {
      var init := books[..|books| - 1];
      AsWrittenStopsAt(init);
      var k := FirstFailure(init);
      assert init[..k] == books[..k];
      if k == |init| {
        assert init[..k] == init;
        assert books[..|books|] == books;
      }
    }
  }

  /** The loop as written raises exactly when some fetch failed, and what
      it emitted by then is what the intended loop emits for the books
      before the first failure. */
  lemma AsWrittenStopsAtFailure(books: seq<Option<SrcBook>>)
    ensures EmitAsWritten(books).raised <==> !AllFetched(books)
    ensures EmitAsWritten(books).records == EmitRecords(books[..FirstFailure(books)])
  {
    AsWrittenStopsAt(books);
  }

  /** Without a failed fetch both loops emit the same records. */
  lemma AsWrittenAgreesWithoutFailures(books: seq<Option<SrcBook>>)
    requires AllFetched(books)
    ensures EmitAsWritten(books) == Emission(EmitRecords(books), false)
  {
    AsWrittenStopsAtFailure(books);
    assert books[..|books|] == books;
  }

  /** The input that shows it: a `bgm` lookup whose request fails. The
      loop as written raises on it; the intended loop emits nothing. */
  lemma FailedLookupRaises()
    ensures EmitAsWritten([None]) == Emission([], true)
    ensures EmitRecords([None]) == []
  {
    var failed: seq<Option<SrcBook>> := [None];
    assert failed[..0] == [];
  }

  /** At most one record per book. */
  lemma {:induction false} EmitRecordsSize(books: seq<Option<SrcBook>>)
    ensures |EmitRecords(books)| <= |books|
  {
    if books != [] {
      EmitRecordsSize(books[..|books| - 1]);
    }
  }

  /** With no failed fetch, exactly one record per book, the i-th mapping
      the i-th book. */
  lemma {:induction false} EmitRecordsInOrder(books: seq<Option<SrcBook>>)
    requires AllFetched(books)
    ensures |EmitRecords(books)| == |books|
    ensures forall i :: 0 <= i < |books| ==> EmitRecords(books)[i] == ToMetadata(books[i].value)
  {
    if books != [] {
      var init := books[..|books| - 1];
      assert AllFetched(init) by {
        forall i | 0 <= i < |init|
          ensures init[i].Some?
        {
          assert init[i] == books[i];
        }
      }
      EmitRecordsInOrder(init);
      assert books[|books| - 1].Some?;
    }
  }

  function IsFetched(o: Option<SrcBook>): bool
  {
    o.Some?
  }

  /** For any mix of failed and successful fetches: one record per fetched
      book, the k-th mapping the book at the k-th fetched position, at
      increasing positions, and no fetched book missed. */
  lemma {:induction false} EmitRecordsPicked(books: seq<Option<SrcBook>>)
    ensures |EmitRecords(books)| == |Picked(books, IsFetched)|
    ensures forall k :: 0 <= k < |Picked(books, IsFetched)| ==>
      Picked(books, IsFetched)[k] < |books| && books[Picked(books, IsFetched)[k]].Some? &&
      EmitRecords(books)[k] == ToMetadata(books[Picked(books, IsFetched)[k]].value)
    ensures Increasing(Picked(books, IsFetched))
    ensures forall i :: 0 <= i < |books| && books[i].Some? ==> i in Picked(books, IsFetched)
  {
    PickedSound(books, IsFetched);
    PickedComplete(books, IsFetched);
    if books != [] {
      var init := books[..|books| - 1];
      EmitRecordsPicked(init);
      var idx := Picked(books, IsFetched);
      var idx0 := Picked(init, IsFetched);
      forall k | 0 <= k < |idx|
        ensures EmitRecords(books)[k] == ToMetadata(books[idx[k]].value)
      {
        if k < |idx0| {
          assert idx[k] == idx0[k];
          assert books[idx0[k]] == init[idx0[k]];
        }
      }
    }
  }

  /** Every record emitted maps some fetched book. */
  lemma {:induction false} EmitRecordsFromBooks(books: seq<Option<SrcBook>>, mi: Metadata)
    requires mi in EmitRecords(books)
    ensures exists i :: 0 <= i < |books| && books[i].Some? && mi == ToMetadata(books[i].value)
  {
    var init := books[..|books| - 1];
    if mi in EmitRecords(init) {
      EmitRecordsFromBooks(init, mi);
      var i :| 0 <= i < |init| && init[i].Some? && mi == ToMetadata(init[i].value);
      assert books[i] == init[i];
    } else {
      assert books[|books| - 1].Some? && mi == ToMetadata(books[|books| - 1].value);
    }
  }

  /** The emission loop of `identify` with the failed fetches skipped. */
  method Emit(books: seq<Option<SrcBook>>) returns (emitted: seq<Metadata>)
    ensures emitted == EmitRecords(books)
  {
    emitted := [];
    var i := 0;
    while i < |books|
      invariant 0 <= i <= |books|
      invariant emitted == EmitRecords(books[..i])
    {
      assert books[..i + 1][..i] == books[..i];
      if books[i] == None {
        i := i + 1;
        continue;
      }
      var mi := ToMetadata(books[i].value);
      emitted := emitted + [mi];
      i := i + 1;
    }
    assert books[..i] == books;
  }

  /** `identify`. With a `bgm` identifier: a single subject lookup and no
      search. Otherwise: the search of `_search_by_title`. Then one record
      per fetched book, in order. */
  method Identify(api: Server, cfg: Config, title: Option<string>, identifiers: map<string, string>)
    returns (emitted: seq<Metadata>, ghost order: seq<int>)
    modifies api`log
    ensures "bgm" in identifiers ==>
      api.log == old(api.log) + [SubjectRequest(identifiers["bgm"])] &&
      emitted == EmitRecords([SubjectBook(api.subjects, cfg, identifiers["bgm"])])
    ensures "bgm" !in identifiers ==>
      var ids := SearchIds(api.search(title));
      (ids == [] ==> emitted == [] && api.log == old(api.log) + [SearchRequest(title)]) &&
      (ids != [] ==>
        IsEnumeration(order, Expanded(ids, RelatedLists(api.related, ids))) &&
        api.log == old(api.log) + [SearchRequest(title)] + RelatedRequests(ids) + SubjectRequests(order) &&
        emitted == EmitRecords(FetchedBooks(api.subjects, cfg, order)))
  {
    var books: seq<Option<SrcBook>>;
    order := [];
    if "bgm" in identifiers {
      var book := QuerySubject(api, cfg, identifiers["bgm"]);
      books := [book];
    } else {
      books, order := SearchByTitle(api, cfg, title);
    }
    emitted := Emit(books);
  }
}
