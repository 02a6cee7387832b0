/** The Bangumi HTTP API as the plugin sees it: each endpoint is a total
    function from the request to its decoded body, None for a non-200
    status; `log` records the requests sent, in order. */
module Api {
  import opened Wrappers
  import opened PyText
  import opened Records

  datatype Request =
    | SearchRequest(keyword: Option<string>)   // POST /search/subjects
    | SubjectRequest(id: string)               // GET /subjects/{id}
    | RelatedRequest(id: string)               // GET /subjects/{id}/subjects

  class Server {
    const subjects: string -> Option<RawSubject>
    const related: string -> Option<seq<RelatedItem>>
    const search: Option<string> -> Option<seq<SearchHit>>
    var log: seq<Request>

    constructor (subjects: string -> Option<RawSubject>,
                 related: string -> Option<seq<RelatedItem>>,
                 search: Option<string> -> Option<seq<SearchHit>>)
      ensures this.subjects == subjects && this.related == related && this.search == search
      ensures log == []
    {
      this.subjects := subjects;
      this.related := related;
      this.search := search;
      log := [];
    }

    method GetSubject(id: string) returns (r: Option<RawSubject>)
      modifies this`log
      ensures r == subjects(id)
      ensures log == old(log) + [SubjectRequest(id)]
    {
      r := subjects(id);
      log := log + [SubjectRequest(id)];
    }

    method GetRelated(id: string) returns (r: Option<seq<RelatedItem>>)
      modifies this`log
      ensures r == related(id)
      ensures log == old(log) + [RelatedRequest(id)]
    {
      r := related(id);
      log := log + [RelatedRequest(id)];
    }

    method Search(keyword: Option<string>) returns (r: Option<seq<SearchHit>>)
      modifies this`log
      ensures r == search(keyword)
      ensures log == old(log) + [SearchRequest(keyword)]
    {
      r := search(keyword);
      log := log + [SearchRequest(keyword)];
    }
  }

  /** One subject request per id, in the given order. */
  function SubjectRequests(ids: seq<int>): (r: seq<Request>)
    ensures |r| == |ids|
    ensures forall i :: 0 <= i < |ids| ==> r[i] == SubjectRequest(IntToStr(ids[i]))
  {
    if ids == [] then [] else SubjectRequests(ids[..|ids| - 1]) + [SubjectRequest(IntToStr(ids[|ids| - 1]))]
  }

  /** One related-subjects request per id, in the given order. */
  function RelatedRequests(ids: seq<int>): (r: seq<Request>)
    ensures |r| == |ids|
    ensures forall i :: 0 <= i < |ids| ==> r[i] == RelatedRequest(IntToStr(ids[i]))
  {
    if ids == [] then [] else RelatedRequests(ids[..|ids| - 1]) + [RelatedRequest(IntToStr(ids[|ids| - 1]))]
  }

  lemma SubjectRequestsAppend(ids: seq<int>, id: int)
    ensures SubjectRequests(ids + [id]) == SubjectRequests(ids) + [SubjectRequest(IntToStr(id))]
  {
    assert (ids + [id])[..|ids|] == ids;
  }
}
