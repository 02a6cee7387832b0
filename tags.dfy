/** `_parse_tags`: the names of the tags whose tagger count reaches a
    threshold, in the API's order, cut to a maximum number. The root
    revision passes `tag_user_count` as the threshold, the src/ revision
    `tag_count`; both cut at `tag_count`. */
module Tags {
  import opened PyText
  import opened Seqs
  import opened Records

  function Qualifies(minCount: int): Tag -> bool
  {
    (t: Tag) => t.count >= minCount
  }

  function Min(a: int, b: int): int
  {
    if a <= b then a else b
  }

  function Name(t: Tag): string
  {
    t.name
  }

  /** The names of all tags counted by at least `minCount` users. */
  function QualifyingNames(tags: seq<Tag>, minCount: int): seq<string>
  {
    MapFilter(tags, Qualifies(minCount), Name)
  }

  /** The returned list: `result[:cap]`, and [] for no tags. */
  function KeptTags(tags: seq<Tag>, minCount: int, cap: int): seq<string>
  {
    if tags == [] then [] else SliceTo(QualifyingNames(tags, minCount), cap)
  }

  method ParseTags(tags: seq<Tag>, minCount: int, cap: int) returns (names: seq<string>)
    ensures names == KeptTags(tags, minCount, cap)
  {
    if |tags| == 0 {
      return [];
    }
    var result: seq<string> := [];
    var i := 0;
    while i < |tags|
      invariant 0 <= i <= |tags|
      invariant result == QualifyingNames(tags[..i], minCount)
    {
      assert tags[..i + 1][..i] == tags[..i];
      if tags[i].count >= minCount {
        result := result + [tags[i].name];
      }
      i := i + 1;
    }
    assert tags[..i] == tags;
    names := SliceTo(result, cap);
  }

  /** The kept names are those of the first qualifying tags, in order: the
      k-th kept name is that of tag `idx[k]`, the indices increase, every
      such tag reaches the threshold, and no qualifying tag before the last
      kept one is skipped. At most `cap` are kept (for `cap >= 0`), and all
      qualifying tags when there are fewer than `cap`. */
  lemma KeptTagsExact(tags: seq<Tag>, minCount: int, cap: int)
    ensures |KeptTags(tags, minCount, cap)| <= |Picked(tags, Qualifies(minCount))|
    ensures Increasing(Picked(tags, Qualifies(minCount)))
    ensures forall k :: 0 <= k < |KeptTags(tags, minCount, cap)| ==>
      Picked(tags, Qualifies(minCount))[k] < |tags| &&
      tags[Picked(tags, Qualifies(minCount))[k]].count >= minCount &&
      KeptTags(tags, minCount, cap)[k] == tags[Picked(tags, Qualifies(minCount))[k]].name
    ensures forall i :: 0 <= i < |tags| && tags[i].count >= minCount ==> i in Picked(tags, Qualifies(minCount))
    ensures cap >= 0 ==>
      |KeptTags(tags, minCount, cap)| == Min(cap, |Picked(tags, Qualifies(minCount))|)
  {
    var keep := Qualifies(minCount);
    var q := QualifyingNames(tags, minCount);
    var idx := Picked(tags, keep);
    var kept := KeptTags(tags, minCount, cap);
    MapFilterExact(tags, keep, Name);
    assert |q| == |idx|;
    forall i | 0 <= i < |tags| && tags[i].count >= minCount
      ensures i in idx
    {
      assert keep(tags[i]);
    }
    if tags == [] {
      assert idx == [];
    } else {
      assert kept == SliceTo(q, cap);
      forall k | 0 <= k < |kept|
        ensures idx[k] < |tags| && tags[idx[k]].count >= minCount && kept[k] == tags[idx[k]].name
      {
        assert kept[k] == q[k];
        assert keep(tags[idx[k]]);
      }
    }
  }

  /** The bounds the configuration promises: no more than `tag_count` tags,
      each counted by at least the threshold. */
  lemma KeptTagsBounds(tags: seq<Tag>, minCount: int, cap: int)
    requires cap >= 0
    ensures |KeptTags(tags, minCount, cap)| <= cap
    ensures forall name :: name in KeptTags(tags, minCount, cap) ==>
      exists i :: 0 <= i < |tags| && tags[i].name == name && tags[i].count >= minCount
  {
    var kept := KeptTags(tags, minCount, cap);
    KeptTagsExact(tags, minCount, cap);
    var idx := Picked(tags, Qualifies(minCount));
    forall name | name in kept
      ensures exists i :: 0 <= i < |tags| && tags[i].name == name && tags[i].count >= minCount
    {
      var k :| 0 <= k < |kept| && kept[k] == name;
      assert tags[idx[k]].name == name;
    }
  }
}
