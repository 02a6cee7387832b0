/** `_parse_infobox` (identical in both revisions): collect the values of
    the requested infobox keys, in the caller's key order, flattening list
    values; optionally only the first of them. */
module Infobox {
  import opened Wrappers
  import opened Records

  /** A value as the result list receives it: a list is spliced in with
      `extend`, a scalar `append`ed. */
  function Flat(v: InfoValue): seq<string>
  {
    match v
    case Scalar(t) => [t]
    case Items(vs) => vs
  }

  /** The `matches` dict after the first loop: requested keys map to the
      value of the entry seen last. */
  function Matches(infobox: seq<InfoEntry>, keys: seq<string>): map<string, InfoValue>
  {
    if infobox == [] then map[]
    else
      var m := Matches(infobox[..|infobox| - 1], keys);
      var info := infobox[|infobox| - 1];
      if info.key in keys then m[info.key := info.value] else m
  }

  /** The `result` list after the second loop, which walks `keys`. */
  function Gather(keys: seq<string>, matches: map<string, InfoValue>): seq<string>
  {
    if keys == [] then []
    else
      var key := keys[|keys| - 1];
      Gather(keys[..|keys| - 1], matches) + (if key in matches then Flat(matches[key]) else [])
  }

  /** The flattened result list; an empty infobox returns early. */
  function Values(infobox: seq<InfoEntry>, keys: seq<string>): seq<string>
  {
    if infobox == [] then [] else Gather(keys, Matches(infobox, keys))
  }

  /** What `_parse_infobox` returns: the list, or its first element. */
  datatype Extracted = All(values: seq<string>) | First(value: string)

  function Extract(infobox: seq<InfoEntry>, keys: seq<string>, onlyFirst: bool): Extracted
  {
    var result := Values(infobox, keys);
    if result != [] && onlyFirst then First(result[0]) else All(result)
  }

  /** The `only_first=True` call as `_parse_data` stores it: None stands for
      the empty list returned when nothing was found. */
  function FirstValue(infobox: seq<InfoEntry>, keys: seq<string>): (r: Option<string>)
    ensures r == None <==> Extract(infobox, keys, true) == All([])
    ensures r.Some? ==> Extract(infobox, keys, true) == First(r.value)
  {
    match Extract(infobox, keys, true)
    case First(x) => Some(x)
    case All(_) => None
  }

  method ParseInfobox(infobox: seq<InfoEntry>, keys: seq<string>, onlyFirst: bool) returns (r: Extracted)
    ensures r == Extract(infobox, keys, onlyFirst)
  {
    if |infobox| == 0 {
      return All([]);
    }
    var matches: map<string, InfoValue> := map[];
    var i := 0;
    while i < |infobox|
      invariant 0 <= i <= |infobox|
      invariant matches == Matches(infobox[..i], keys)
    {
      var info := infobox[i];
      assert infobox[..i + 1][..i] == infobox[..i];
      if info.key in keys {
        matches := matches[info.key := info.value];
      }
      i := i + 1;
    }
    assert infobox[..i] == infobox;
    var result: seq<string> := [];
    var j := 0;
    while j < |keys|
      invariant 0 <= j <= |keys|
      invariant result == Gather(keys[..j], matches)
    {
      var key := keys[j];
      assert keys[..j + 1][..j] == keys[..j];
      if key in matches {
        match matches[key]
        case Items(vs) => result := result + vs;
        case Scalar(t) => result := result + [t];
      }
      j := j + 1;
    }
    assert keys[..j] == keys;
    if |result| > 0 && onlyFirst {
      r := First(result[0]);
    } else {
      r := All(result);
    }
  }

  // ----- An independent description of the same result -----

  /** The flattened value of the last entry carrying `key`, or [] if none. */
  function LastValue(infobox: seq<InfoEntry>, key: string): seq<string>
  {
    if infobox == [] then []
    else if infobox[|infobox| - 1].key == key then Flat(infobox[|infobox| - 1].value)
    else LastValue(infobox[..|infobox| - 1], key)
  }

  /** Concatenation, over the requested keys in the caller's order, of the
      last value stored under each key. */
  function ByKeyOrder(infobox: seq<InfoEntry>, keys: seq<string>): seq<string>
  {
    if keys == [] then []
    else ByKeyOrder(infobox, keys[..|keys| - 1]) + LastValue(infobox, keys[|keys| - 1])
  }

  /** A requested key is in `matches` iff some entry carries it, and then
      it holds that key's last value. */
  lemma {:induction false} MatchesLastWins(infobox: seq<InfoEntry>, keys: seq<string>, key: string)
    requires key in keys
    ensures key in Matches(infobox, keys) <==> exists i :: 0 <= i < |infobox| && infobox[i].key == key
    ensures key in Matches(infobox, keys) ==> Flat(Matches(infobox, keys)[key]) == LastValue(infobox, key)
    ensures key !in Matches(infobox, keys) ==> LastValue(infobox, key) == []
  {
    if infobox != [] {
      var init := infobox[..|infobox| - 1];
      MatchesLastWins(init, keys, key);
      if infobox[|infobox| - 1].key != key {
        forall i | 0 <= i < |infobox| - 1 && infobox[i].key == key
          ensures exists j :: 0 <= j < |init| && init[j].key == key
        {
          assert init[i].key == key;
        }
        if exists i :: 0 <= i < |init| && init[i].key == key {
          var i :| 0 <= i < |init| && init[i].key == key;
          assert infobox[i].key == key;
        }
      }
    }
  }

  /** The result is ordered by the caller's key list, not by the infobox:
      each requested key contributes the last value stored under it. */
  lemma {:induction false} ValuesByKeyOrder(infobox: seq<InfoEntry>, keys: seq<string>)
    ensures Values(infobox, keys) == ByKeyOrder(infobox, keys)
  {
    if infobox == [] {
      EmptyByKeyOrder(keys);
    } else {
      GatherByKeyOrder(infobox, keys, keys);
      assert keys[..|keys|] == keys;
    }
  }

  lemma {:induction false} EmptyByKeyOrder(keys: seq<string>)
    ensures ByKeyOrder([], keys) == []
  {
    if keys != [] {
      EmptyByKeyOrder(keys[..|keys| - 1]);
    }
  }

  lemma {:induction false} GatherByKeyOrder(infobox: seq<InfoEntry>, keys: seq<string>, prefix: seq<string>)
    requires forall k :: k in prefix ==> k in keys
    ensures Gather(prefix, Matches(infobox, keys)) == ByKeyOrder(infobox, prefix)
  {
    if prefix != [] {
      var key := prefix[|prefix| - 1];
      GatherByKeyOrder(infobox, keys, prefix[..|prefix| - 1]);
      MatchesLastWins(infobox, keys, key);
    }
  }

  /** Asking for two key lists in turn gives the two results one after the
      other. */
  lemma {:induction false} ByKeyOrderAppend(infobox: seq<InfoEntry>, keys1: seq<string>, keys2: seq<string>)
    ensures ByKeyOrder(infobox, keys1 + keys2) == ByKeyOrder(infobox, keys1) + ByKeyOrder(infobox, keys2)
    decreases |keys2|
  {
    if keys2 == [] {
      assert keys1 + keys2 == keys1;
    } else {
      var all := keys1 + keys2;
      assert all[..|all| - 1] == keys1 + keys2[..|keys2| - 1];
      assert all[|all| - 1] == keys2[|keys2| - 1];
      ByKeyOrderAppend(infobox, keys1, keys2[..|keys2| - 1]);
    }
  }

  /** With duplicate keys in the infobox the last entry wins: a later entry
      overwrites an earlier one in `matches`. */
  lemma {:induction false} LastEntryWins(infobox: seq<InfoEntry>, i: nat)
    requires i < |infobox|
    requires forall j :: i < j < |infobox| ==> infobox[j].key != infobox[i].key
    ensures LastValue(infobox, infobox[i].key) == Flat(infobox[i].value)
    ensures Values(infobox, [infobox[i].key]) == Flat(infobox[i].value)
  {
    var key := infobox[i].key;
    if i < |infobox| - 1 {
      var init := infobox[..|infobox| - 1];
      assert init[i] == infobox[i];
      LastEntryWins(init, i);
    }
    ValuesByKeyOrder(infobox, [key]);
    assert [key][..0] == [];
  }

  /** An empty infobox, or one without any requested key, gives [] in both
      modes. */
  lemma NoMatchGivesEmpty(infobox: seq<InfoEntry>, keys: seq<string>, onlyFirst: bool)
    requires forall i :: 0 <= i < |infobox| ==> infobox[i].key !in keys
    ensures Extract(infobox, keys, onlyFirst) == All([])
  {
    if infobox != [] {
      NoMatchGather(keys, Matches(infobox, keys), infobox, keys);
    }
  }

  lemma {:induction false} NoMatchGather(prefix: seq<string>, m: map<string, InfoValue>, infobox: seq<InfoEntry>, keys: seq<string>)
    requires m == Matches(infobox, keys)
    requires forall i :: 0 <= i < |infobox| ==> infobox[i].key !in keys
    requires forall k :: k in prefix ==> k in keys
    ensures Gather(prefix, m) == []
  {
    if prefix != [] {
      NoMatchGather(prefix[..|prefix| - 1], m, infobox, keys);
      MatchesLastWins(infobox, keys, prefix[|prefix| - 1]);
    }
  }

  /** With `only_first` the result is the head of the key-ordered list when
      there is one, and the empty list otherwise; without it, the list
      itself. */
  lemma FirstIsHead(infobox: seq<InfoEntry>, keys: seq<string>)
    ensures var all := ByKeyOrder(infobox, keys);
      (all == [] ==> Extract(infobox, keys, true) == All([])) &&
      (all != [] ==> Extract(infobox, keys, true) == First(all[0])) &&
      Extract(infobox, keys, false) == All(all)
  {
    ValuesByKeyOrder(infobox, keys);
  }

  /** A single-key `only_first` lookup gives the head of that key's last
      value, or nothing. */
  lemma FirstValueOfKey(infobox: seq<InfoEntry>, key: string)
    ensures LastValue(infobox, key) == [] ==> FirstValue(infobox, [key]) == None
    ensures LastValue(infobox, key) != [] ==> FirstValue(infobox, [key]) == Some(LastValue(infobox, key)[0])
  {
    ValuesByKeyOrder(infobox, [key]);
    assert [key][..0] == [];
  }
}
