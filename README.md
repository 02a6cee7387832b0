# Bangumi metadata source for calibre — a verified model

This project models the core of the Bangumi metadata-source plugin for the
calibre e-book manager. The plugin exists in two revisions: the current one
(`__init__.py`) and an earlier one (`src/__init__.py`). Both turn Bangumi API
subjects into calibre metadata records. The model covers:

- reading the subject's infobox (`_parse_infobox`);
- filtering tags (`_parse_tags`);
- normalising a subject into a book (`_parse_data`);
- mapping a book to a metadata record (`_to_metadata`);
- keeping only the type-1 (book) related subjects;
- expanding the candidate set from the search hits and their related books;
- ranking and selecting the candidates (current revision);
- the URL rule (`get_book_url`) and the cached-cover rule (`get_cached_cover_url`);
- `identify`, which dispatches on a `bgm` identifier or searches by title.

The HTTP API is an `Api.Server` object. Its three endpoints are fixed total
functions: a response is `None` for a non-200 status. Its `log` field records
every request sent, in order, so the contracts can state how many requests
go out and which. The host's two caches (ISBN → Bangumi id, Bangumi id →
cover URL) are the map fields of `Plugin.HostCache`. The similarity ratio
(`difflib`) and `str.lower` are function parameters. The ratio is only
assumed to lie in `[0, 1]` (`Ranking.RatioBounded`).

Modules, one per file:

| module | file | contents |
|---|---|---|
| `Wrappers` | wrappers.dfy | `Option` |
| `PyText` | pytext.dfy | Python's `str(int)`, the slice `s[:n]` (negative `n` included), `in` on strings, truthiness |
| `Seqs` | seqs.dfy | order-preserving filter-and-map with the indices it keeps; enumerations of a set |
| `Records` | records.dfy | API JSON shapes, the two revisions' book dictionaries, the host record, the configuration |
| `Infobox` | infobox.dfy | `_parse_infobox` (the same in both revisions) and an independent key-ordered reading |
| `Tags` | tags.dfy | `_parse_tags`, with the threshold and the cap as parameters |
| `Api` | api.dfy | the HTTP endpoints and the request log |
| `Related` | related.dfy | search ids, the type-1 filter, the relations requests, the candidate set |
| `Ranking` | ranking.dfy | score, stable descending sort, top-ten selection |
| `Plugin` | plugin.dfy | the current revision: parsing, mapping, URL/cover rules, caches, `identify` |
| `PluginSrc` | plugin_src.dfy | the earlier revision, with the two revisions compared |

Python's set iteration order is unspecified. Wherever `identify` iterates
over the candidate set, the model picks elements in an unspecified order.
That order is returned as a ghost `order`, which the contracts only
constrain to list every candidate exactly once (`Seqs.IsEnumeration`).

## Model

| member | source | states |
|---|---|---|
| Infobox.ParseInfobox | __init__.py:81-106 | the two loops return exactly `Extract`: `[]` for an empty infobox, otherwise the flattened values of the requested keys in the caller's key order, or with `only_first` their first element when there is one (src/__init__.py:78-103 is the same code) |
| Infobox.ValuesByKeyOrder | __init__.py:87-101 | the result is the concatenation, over the caller's keys in order, of the last value stored under each key; infobox order does not matter |
| Infobox.MatchesLastWins | __init__.py:87-93 | after the first loop a requested key is in `matches` exactly when some entry carries it, and it then holds the flattened value of the last such entry |
| Infobox.LastEntryWins | __init__.py:87-93 | with duplicate keys, the value returned for a key is the value of its last entry |
| Infobox.ByKeyOrderAppend | __init__.py:96-101 | asking for two key lists returns the two results concatenated |
| Infobox.NoMatchGivesEmpty | __init__.py:84-85 | an empty infobox, or one carrying none of the keys, gives `[]` with or without `only_first` |
| Infobox.FirstIsHead | __init__.py:103-106 | with `only_first`, the result is the head of the key-ordered list when that list is non-empty, else `[]` |
| Infobox.FirstValue | __init__.py:103-106 | `None` exactly when `only_first` returns `[]`; otherwise the element that `only_first` returns |
| Infobox.FirstValueOfKey | __init__.py:129-140 | a single-key `only_first` lookup (publisher, ISBN, release date) gives the head of that key's last value, or `None` when the key's last value is empty or the key is absent |
| Tags.ParseTags | __init__.py:108-117 | the loop returns `KeptTags`: `[]` for no tags, else the names of the qualifying tags cut with `[:tag_count]` |
| Tags.KeptTagsExact | __init__.py:112-117 | the kept names are, in input order, the names of the first qualifying tags; every tag with `count >= threshold` is among the qualifying ones; for `cap >= 0` there are `min(cap, qualifying)` names |
| Tags.KeptTagsBounds | __init__.py:108-117 | at most `tag_count` names, each the name of a tag counted by at least the threshold |
| PyText.SliceTo | __init__.py:117 | Python's `s[:n]`: a prefix of `s`, of length `min(n, len s)` for `n >= 0` and `max(0, len s + n)` for negative `n` |
| PyText.NatToStr | __init__.py:153 | `str` of a natural number: at least one character, all decimal digits, a single digit exactly below 10 |
| PyText.NatToStrValue | __init__.py:153 | the digits of `str(n)` read back in base ten give `n` |
| PyText.NoLeadingZero | __init__.py:153 | `str(n)` starts with `0` only for `n == 0`, so it is the canonical numeral |
| PyText.IntToStrInjective | __init__.py:153 | distinct ids print differently, so the `bgm` identifier determines the subject id |
| Api.Server.GetSubject | __init__.py:160-171 | returns the endpoint's response and appends one subject request to the log |
| Api.Server.GetRelated | __init__.py:179-187 | returns the endpoint's response and appends one relations request to the log |
| Api.Server.Search | __init__.py:198-216 | returns the endpoint's response and appends one search request carrying the title to the log |
| Api.SubjectRequests | __init__.py:287-290 | one subject request per id, the i-th for `str(ids[i])` |
| Api.RelatedRequests | __init__.py:279-282 | one relations request per search id, the i-th for `str(ids[i])` |
| Related.SearchIds | __init__.py:212-225 | a failed search gives `[]`; otherwise the hits' ids, one per hit, in order |
| Related.FilterRelatedBooks | __init__.py:183-196 | the loop returns `[]` for a failed request, else the ids of the type-1 items in order (`_query_related_subjects`, src/__init__.py:169-186, is the same filter) |
| Related.RelatedBookIdsExact | __init__.py:192-196 | exactly the type-1 items are kept, in increasing input position, each giving its id; a failed request gives `[]` |
| Related.RelatedLists | __init__.py:279-282 | the i-th list holds the related book ids of the i-th search id |
| Related.QueryRelations | __init__.py:279-282 | one relations request per search id, in order; the results are `RelatedLists` |
| Related.UnionRelated | __init__.py:277-285 | `set(ids)` updated with each non-empty sublist gives `Expanded(ids, lists)` |
| Related.CandidatesExact | __init__.py:277-285 | an id is a candidate exactly when it is a search id or a type-1 related id of some search id |
| Related.OneRequestPerCandidate | __init__.py:287-290 | fetching in an enumeration order sends as many subject requests as there are candidates, and one for an id exactly when it is a candidate |
| Seqs.EnumerationSize | __init__.py:287-290 | an enumeration of a set has one entry per element |
| Seqs.MapFilterExact | __init__.py:192-194 | filter-and-map keeps exactly the elements satisfying the test, in order, and maps each of them |
| Ranking.Score | __init__.py:302-313 | the score lies in `[0, 1]`, is 1.0 when the lowercased query occurs in either lowercased title, is at least both ratios, and otherwise equals one of them: the larger of the two ratios |
| Ranking.ScoreAllMembers | __init__.py:298-315 | every scored entry is a present input book with its own score, and every present input book is scored |
| Ranking.SortDescCorrect | __init__.py:317 | the sort returns a permutation of its input, in non-increasing score order, and keeps the input order among equal scores (Python's sort is stable) |
| Ranking.Rank | __init__.py:294-321 | the scoring loop, the sort and the cut compute `Selected` |
| Ranking.SelectedFromInput | __init__.py:294-321 | at most ten books are selected, and each is a non-`None` input book |
| Ranking.FailedFetchSelectsNothing | __init__.py:298-321 | a single failed fetch selects nothing, with or without a title: the `None` is skipped by the scoring loop and by the untitled filter |
| Ranking.SelectedIsTopTen | __init__.py:317-319 | with a title, the selected books come in non-increasing score order; if a present book is left out, ten books were selected and it scores no higher than any of them |
| Ranking.ContainmentWins | __init__.py:310-311 | if some book's title contains the query, the selection is non-empty and its first book scores 1.0 |
| Ranking.UntitledKeepsOrder | __init__.py:298-321 | without a title, failed fetches are dropped and the first `min(10, k)` of the `k` fetched books are selected in their original order: the i-th selected book is the book at the i-th present position, and the present positions are increasing and include every fetched book |
| Plugin.ParsedBook | __init__.py:119-143 | the parsed book holds: the subject id; both names; the authors from the five author keys in priority order; the last publisher entry and the last ISBN entry; the `date` unless it is empty, else the release-date entry; at most `tag_count` tags, each counted by at least `tag_user_count` users |
| Plugin.ToMetadata | __init__.py:145-158 | the title is `title_cn` unless it is empty, else `title`; `bgm` is always `str(id)`; `isbn` is set, both as an identifier and as the field, exactly when the ISBN is truthy; there are no other identifiers; cover, authors, tags, date, publisher, summary and rating are copied from the book |
| Plugin.SubjectToRecord | __init__.py:119-158 | from subject to record: the localised name wins unless it is empty, and the `bgm` identifier is `str(id)`, so two subjects with the same `bgm` are the same subject |
| Plugin.GetBookUrl | __init__.py:227-230 | a URL exactly when there is a `bgm` identifier: source `Bangumi`, that id, and `https://bangumi.tv/subject/` followed by the id |
| Plugin.GetCachedCoverUrl | __init__.py:232-243 | a found URL is a cached cover; with `bgm` the result is the cover cached for it; otherwise, for an ISBN with a cached id, it is the cover cached for that id; with neither identifier, or an uncached ISBN, the result is `None` |
| Plugin.HostCache.CacheIsbnToIdentifier | __init__.py:327-328 | stores the id under the ISBN; the cover cache is unchanged |
| Plugin.HostCache.CacheIdentifierToCoverUrl | __init__.py:329-330 | stores the cover under the id; the ISBN cache is unchanged |
| Plugin.CacheRecord | __init__.py:326-330 | for one record, a truthy ISBN is cached under its `bgm` id, and so is a truthy cover |
| Plugin.Emit | __init__.py:323-333 | one record per selected book, in order, while both caches receive the writes |
| Plugin.CachedCoverAfterEmit | __init__.py:232-243 | after emission, the cover lookup of a record whose `bgm` no later record shares finds its cover through its identifiers; if no later record shares its ISBN, the lookup through the ISBN alone finds it too |
| Plugin.QuerySubject | __init__.py:160-177 | one subject request; the parsed book, or `None` when the request failed |
| Plugin.SearchByTitle | __init__.py:198-225 | one search request; the hits' ids, or `[]` |
| Plugin.QuerySubjects | __init__.py:287-290 | one subject request per candidate, in an enumeration order of the set; the books fetched in that order |
| Plugin.FetchCandidates | __init__.py:257-290 | with `bgm`, a single subject request and no search; otherwise one search, one relations request per hit, then one subject request per candidate; no hits means no request after the search |
| Plugin.Identify | __init__.py:245-333 | the requests of `FetchCandidates`, then the records of `Selected`, at most ten; nothing is emitted on a failed `bgm` lookup or a search without hits; the caches end up with the writes of the emitted records in order |
| PluginSrc.ParsedBook | src/__init__.py:105-138 | the title is `name_cn` unless it is empty, else `name`; the subject id; the authors in author-key order; the last publisher and ISBN entries; `date` when it is truthy, else the last release-date entry; at most `tag_count` tags, each counted by at least `tag_count` users |
| PluginSrc.ToMetadata | src/__init__.py:140-151 | title and authors from the book; `bgm` is always `str(id)`; `isbn` is an identifier exactly when it is truthy; no cover and no ISBN field; tags, date, publisher, summary and rating are copied from the book |
| PluginSrc.GetBookUrl | src/__init__.py:231-234 | a URL exactly when there is a `bgm` identifier: `https://bangumi.tv/subject/` followed by the id |
| PluginSrc.SameBookUrl | src/__init__.py:231-234 | both revisions compute the same URL for every identifier map |
| PluginSrc.RevisionsAgree | src/__init__.py:116-151 | for one subject, the revisions agree on the record's title, authors, identifiers, publication date, publisher and summary; they agree on the tags when both configuration numbers are equal; the current revision's rating is half the earlier one's |
| PluginSrc.QuerySubject | src/__init__.py:153-167 | one subject request; the parsed book, or `None` when the request failed |
| PluginSrc.ExpandIds | src/__init__.py:214-220 | the generator update of `expanded_ids` gives the search ids together with every related id |
| PluginSrc.QuerySubjects | src/__init__.py:224-227 | one subject request per candidate, in an enumeration order of the set; the books fetched in that order |
| PluginSrc.SearchByTitle | src/__init__.py:188-229 | a failed search, or one without ids, returns `[]` and sends nothing more; otherwise one relations request per hit and one subject request per candidate, returning the fetched books |
| PluginSrc.AsWrittenStopsAtFailure | src/__init__.py:263-266 | the loop as written raises exactly when some fetch failed; the records it emitted by then are those of the books before the first failure |
| PluginSrc.FailedLookupRaises | src/__init__.py:248-266 | a `bgm` lookup whose request fails makes the loop as written raise, while the corrected loop emits nothing |
| PluginSrc.AsWrittenAgreesWithoutFailures | src/__init__.py:263-266 | without a failed fetch, the loop as written and the corrected loop emit the same records and do not raise |
| PluginSrc.Emit | src/__init__.py:263-266 | the corrected loop emits `EmitRecords`: one record per fetched book, failed fetches skipped (`PluginSrc.EmitRecordsPicked`) |
| PluginSrc.EmitRecordsPicked | src/__init__.py:263-266 | for any mix of failed and successful fetches, the corrected loop emits one record per fetched book: the k-th record maps the book at the k-th fetched position, the positions are increasing, and every fetched book is among them |
| PluginSrc.EmitRecordsInOrder | src/__init__.py:263-266 | with no failed fetch, exactly one record per book, the i-th mapping the i-th book |
| PluginSrc.EmitRecordsSize | src/__init__.py:263-266 | never more records than books |
| PluginSrc.EmitRecordsFromBooks | src/__init__.py:263-266 | every emitted record maps some fetched book |
| PluginSrc.Identify | src/__init__.py:236-266 | with `bgm`, a single subject request and no search; otherwise the requests of `SearchByTitle`; then one record per successfully fetched book, in order, failed fetches skipped (`PluginSrc.EmitRecordsPicked`): this is the corrected emission loop, since the loop as written raises on a failed fetch (see Findings, `PluginSrc.EmitAsWritten`) |

## Left out

- HTTP and JSON are not modelled beyond the endpoint functions. A response is `None` for a non-200 status (__init__.py:164-171, src/__init__.py:159-162). urllib's `urlopen` raises `HTTPError` for 4xx and 5xx statuses, so that branch is reached only with a 2xx status other than 200. Exceptions raised by `urlopen` are not modelled, and neither are the search payload's type/nsfw filter and `limit=3`.
- JSON keys read with `data[...]` are assumed present: `date`, `id`, `key`, `count`, `type`, `name_cn`, the infobox entry's `value` (__init__.py:89) and each list item's `v` (__init__.py:91), the tag's `name` (__init__.py:115), `name` (src/__init__.py:119) and the search hit's `id` (__init__.py:220). So the `KeyError` path is not modelled. Keys read with `.get` take their defaults. An infobox scalar is a string, and a JSON `null` `date` is `None`.
- `parse_date` belongs to calibre. `pubdate` holds the value handed to it.
- The rating is a `real`; floating-point rounding of `float(...) / 2` is not modelled.
- `difflib.SequenceMatcher.ratio` and `str.lower` are abstract parameters. The ratio is assumed to lie in `[0, 1]`.
- `ThreadPoolExecutor` is modelled as a sequential map. `executor.map` returns results in input order, and the modelled requests are sent in that order. Concurrency is not modelled.
- The iteration order of `child_ids` and `expanded_ids` is unconstrained beyond listing each candidate once.
- `log` messages, `clean_downloaded_metadata`, the `abort` flag and `timeout` are not modelled (the source ignores the last two). `result_queue` is the returned sequence of records.
- `download_cover`, `__init__` with `prefs`, the `CONFIG` globals (shipped as 5 and 10) and the `__main__` self-test block are not modelled. The threshold and the cap are parameters (`Records.Config`).
- calibre's `Metadata` object is filled by field assignment; the model builds it as a value (`Records.Metadata`), with the fields the plugin sets.
- `Plugin.Identify`: the set iteration order is returned as a ghost enumeration, so the contract does not say which subject is requested first.
- `Plugin.GetCachedCoverUrl`: for an ISBN with no cached id the source passes `None` to `cached_identifier_to_cover_url` (__init__.py:240-241) and relies on the host returning `None` for it. The model's host caches are string maps with no `None` key, so it returns `None` directly and does not model the call with `None`.

## Findings

| source | as written | input that shows it | evidently intended | confidence | as-written member | corrected member |
|---|---|---|---|---|---|---|
| src/__init__.py:263-266 | `identify` calls `_to_metadata(book)` for every book, including the `None` that `_query_subject` returns for a failed request; `None["title"]` raises `TypeError`, so a failed lookup ends `identify` with an exception and drops the records after it | identifiers `{"bgm": id}` whose subject request gets a 2xx response other than 200, so that `books == [None]` | skip failed fetches, as the current revision does (`if book is None: continue` and `if book is not None`) | not executed | PluginSrc.AsWrittenStopsAtFailure, PluginSrc.FailedLookupRaises | PluginSrc.Emit, PluginSrc.EmitRecordsPicked |
