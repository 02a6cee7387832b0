/** Candidate discovery shared by both revisions: the ids of a search
    response, the type-1 filter over a subject's related subjects
    (`_query_subject_relations` / `_query_related_subjects`), and the
    candidate set: search ids together with all their related book ids. */
module Related {
  import opened Wrappers
  import opened PyText
  import opened Seqs
  import opened Records
  import opened Api

  // ----- search response -----

  /** `[item["id"] for item in data.get("data", [])]`, or [] for a failed
      request. */
  function SearchIds(response: Option<seq<SearchHit>>): (ids: seq<int>)
    ensures response == None ==> ids == []
    ensures response.Some? ==>
      |ids| == |response.value| && forall i :: 0 <= i < |ids| ==> ids[i] == response.value[i].id
  {
    match response
    case None => []
    case Some(hits) => HitIds(hits)
  }

  function HitIds(hits: seq<SearchHit>): (ids: seq<int>)
    ensures |ids| == |hits| && forall i :: 0 <= i < |ids| ==> ids[i] == hits[i].id
  {
    if hits == [] then [] else HitIds(hits[..|hits| - 1]) + [hits[|hits| - 1].id]
  }

  // ----- the type filter over related subjects -----

  function IsBook(item: RelatedItem): bool
  {
    item.kind == 1
  }

  function ItemId(item: RelatedItem): int
  {
    item.id
  }

  /** The ids of the related items of type 1, in order; [] when the
      request failed. */
  function RelatedBookIds(response: Option<seq<RelatedItem>>): seq<int>
  {
    match response
    case None => []
    case Some(items) => MapFilter(items, IsBook, ItemId)
  }

  /** The body of `_query_subject_relations` after the request. */
  method FilterRelatedBooks(response: Option<seq<RelatedItem>>) returns (ids: seq<int>)
    ensures ids == RelatedBookIds(response)
  {
    if response == None {
      return [];
    }
    var items := response.value;
    ids := [];
    var i := 0;
    while i < |items|
      invariant 0 <= i <= |items|
      invariant ids == MapFilter(items[..i], IsBook, ItemId)
    {
      assert items[..i + 1][..i] == items[..i];
      if items[i].kind == 1 {
        ids := ids + [items[i].id];
      }
      i := i + 1;
    }
    assert items[..i] == items;
  }

  /** Exactly the type-1 items are kept, in input order; a failed request
      gives []. */
  lemma RelatedBookIdsExact(items: seq<RelatedItem>)
    ensures var ids := RelatedBookIds(Some(items));
      var idx := Picked(items, IsBook);
      |ids| == |idx| && Increasing(idx) &&
      (forall k :: 0 <= k < |ids| ==> idx[k] < |items| && items[idx[k]].kind == 1 && ids[k] == items[idx[k]].id) &&
      (forall i :: 0 <= i < |items| && items[i].kind == 1 ==> i in idx)
    ensures RelatedBookIds(None) == []
  {
    MapFilterExact(items, IsBook, ItemId);
  }

  /** The related book ids of each search id, as `executor.map` returns
      them (in the order of the search ids). */
  function RelatedLists(related: string -> Option<seq<RelatedItem>>, ids: seq<int>): (lists: seq<seq<int>>)
    ensures |lists| == |ids|
    ensures forall i :: 0 <= i < |ids| ==> lists[i] == RelatedBookIds(related(IntToStr(ids[i])))
  {
    if ids == [] then []
    else RelatedLists(related, ids[..|ids| - 1]) + [RelatedBookIds(related(IntToStr(ids[|ids| - 1])))]
  }

  /** One relations request per search id, results in the same order. */
  method QueryRelations(api: Server, ids: seq<int>) returns (lists: seq<seq<int>>)
    modifies api`log
    ensures lists == RelatedLists(api.related, ids)
    ensures api.log == old(api.log) + RelatedRequests(ids)
  {
    lists := [];
    var i := 0;
    while i < |ids|
      invariant 0 <= i <= |ids|
      invariant lists == RelatedLists(api.related, ids[..i])
      invariant api.log == old(api.log) + RelatedRequests(ids[..i])
    {
      assert ids[..i + 1][..i] == ids[..i];
      var response := api.GetRelated(IntToStr(ids[i]));
      var sublist := FilterRelatedBooks(response);
      lists := lists + [sublist];
      i := i + 1;
    }
    assert ids[..i] == ids;
  }

  // ----- the candidate set -----

  function Elements(s: seq<int>): set<int>
  {
    set x | x in s
  }

  function UnionOf(lists: seq<seq<int>>): set<int>
  {
    if lists == [] then {} else UnionOf(lists[..|lists| - 1]) + Elements(lists[|lists| - 1])
  }

  /** `set(ids)` updated with every related id. */
  function Expanded(ids: seq<int>, lists: seq<seq<int>>): set<int>
  {
    Elements(ids) + UnionOf(lists)
  }

  /** The loop of the root revision: `child_ids = set(bangumi_ids)`, then
      `child_ids.update(sublist)` for each non-empty sublist. */
  method UnionRelated(ids: seq<int>, lists: seq<seq<int>>) returns (childIds: set<int>)
    ensures childIds == Expanded(ids, lists)
  {
    childIds := set x | x in ids;
    var i := 0;
    while i < |lists|
      invariant 0 <= i <= |lists|
      invariant childIds == Elements(ids) + UnionOf(lists[..i])
    {
      assert lists[..i + 1][..i] == lists[..i];
      var sublist := lists[i];
      if |sublist| > 0 {
        childIds := childIds + set x | x in sublist;
      }
      i := i + 1;
    }
    assert lists[..i] == lists;
  }

  lemma {:induction false} UnionOfMembers(lists: seq<seq<int>>, x: int)
    ensures x in UnionOf(lists) <==> exists i :: 0 <= i < |lists| && x in lists[i]
  {
    if lists != [] {
      var init := lists[..|lists| - 1];
      UnionOfMembers(init, x);
      if exists i :: 0 <= i < |init| && x in init[i] {
        var i :| 0 <= i < |init| && x in init[i];
        assert x in lists[i];
      }
      if exists i :: 0 <= i < |lists| && x in lists[i] {
        var i :| 0 <= i < |lists| && x in lists[i];
        if i < |init| {
          assert x in init[i];
        }
      }
    }
  }

  /** A candidate is a search id or a type-1 related id of some search id,
      and every such id is a candidate. */
  lemma CandidatesExact(related: string -> Option<seq<RelatedItem>>, ids: seq<int>, x: int)
    ensures x in Expanded(ids, RelatedLists(related, ids)) <==>
      x in ids || exists i :: 0 <= i < |ids| && x in RelatedBookIds(related(IntToStr(ids[i])))
  {
    var lists := RelatedLists(related, ids);
    UnionOfMembers(lists, x);
    if exists i :: 0 <= i < |ids| && x in RelatedBookIds(related(IntToStr(ids[i]))) {
      var i :| 0 <= i < |ids| && x in RelatedBookIds(related(IntToStr(ids[i])));
      assert x in lists[i];
    }
  }

  /** Fetching the candidates in an enumeration order sends exactly one
      subject request per candidate: as many requests as candidates, and a
      request for an id exactly when the id is a candidate. */
  lemma OneRequestPerCandidate(order: seq<int>, candidates: set<int>, x: int)
    requires IsEnumeration(order, candidates)
    ensures |SubjectRequests(order)| == |candidates|
    ensures SubjectRequest(IntToStr(x)) in SubjectRequests(order) <==> x in candidates
  {
    EnumerationSize(order, candidates);
    var reqs := SubjectRequests(order);
    if SubjectRequest(IntToStr(x)) in reqs {
      var k :| 0 <= k < |reqs| && reqs[k] == SubjectRequest(IntToStr(x));
      IntToStrInjective(order[k], x);
      assert order[k] in candidates;
    }
    if x in candidates {
      var k :| 0 <= k < |order| && order[k] == x;
      assert reqs[k] == SubjectRequest(IntToStr(x));
    }
  }
}
