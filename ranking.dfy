/** Ranking of candidate books in the root revision's `identify`: each
    book is scored against the lowercased query, the scored list is sorted
    by descending score with Python's stable sort, and the first ten are
    kept. Lowercasing and the similarity ratio of `difflib` are parameters;
    the ratio is only known to lie in [0, 1]. */
module Ranking {
  import opened Wrappers
  import opened PyText
  import opened Seqs
  import opened Records

  datatype Scored = Scored(score: real, book: Book)

  ghost predicate RatioBounded(ratio: (string, string) -> real)
  {
    forall a, b :: 0.0 <= ratio(a, b) <= 1.0
  }

  /** The score of one book: 1.0 when the query occurs in either lowercased
      title, otherwise the larger of the two similarity ratios. */
  function Score(query: string, book: Book, lower: string -> string, ratio: (string, string) -> real): (score: real)
    requires RatioBounded(ratio)
    ensures 0.0 <= score <= 1.0
    ensures Contains(lower(book.title), query) || Contains(lower(book.titleCn), query) ==> score == 1.0
    ensures ratio(query, lower(book.title)) <= score && ratio(query, lower(book.titleCn)) <= score
    ensures !Contains(lower(book.title), query) && !Contains(lower(book.titleCn), query) ==>
      score == ratio(query, lower(book.title)) || score == ratio(query, lower(book.titleCn))
  {
    var titleOrig := lower(book.title);
    var titleCn := lower(book.titleCn);
    var scoreOrig := ratio(query, titleOrig);
    var scoreCn := ratio(query, titleCn);
    if Contains(titleOrig, query) || Contains(titleCn, query) then 1.0
    else if scoreCn > scoreOrig then scoreCn else scoreOrig
  }

  /** `scored_books` after the loop: `None` books skipped. */
  function ScoreAll(query: string, books: seq<Option<Book>>, lower: string -> string, ratio: (string, string) -> real): seq<Scored>
    requires RatioBounded(ratio)
  {
    if books == [] then []
    else
      var last := books[|books| - 1];
      ScoreAll(query, books[..|books| - 1], lower, ratio) +
      (if last.Some? then [Scored(Score(query, last.value, lower, ratio), last.value)] else [])
  }

  // ----- list.sort(key=score, reverse=True) -----

  /** Insert `x` before the first element whose score does not exceed its
      own: `x` precedes every equal-scored element, as it came first. */
  function Insert(x: Scored, s: seq<Scored>): seq<Scored>
  {
    if s == [] || s[0].score <= x.score then [x] + s else [s[0]] + Insert(x, s[1..])
  }

  function SortDesc(s: seq<Scored>): seq<Scored>
  {
    if s == [] then [] else Insert(s[0], SortDesc(s[1..]))
  }

  predicate NonIncreasing(s: seq<Scored>)
  {
    forall i, j :: 0 <= i < j < |s| ==> s[i].score >= s[j].score
  }

  /** The elements of `s` with score `k`, in order. */
  function WithScore(s: seq<Scored>, k: real): seq<Scored>
  {
    if s == [] then [] else (if s[0].score == k then [s[0]] else []) + WithScore(s[1..], k)
  }

  lemma {:induction false} InsertPermutes(x: Scored, s: seq<Scored>)
    ensures multiset(Insert(x, s)) == multiset{x} + multiset(s)
  {
    if s != [] && s[0].score > x.score {
      InsertPermutes(x, s[1..]);
      assert s == [s[0]] + s[1..];
    }
  }

  lemma {:induction false} InsertSorted(x: Scored, s: seq<Scored>)
    requires NonIncreasing(s)
    ensures NonIncreasing(Insert(x, s))
  {
    if s != [] && s[0].score > x.score {
      var rest := Insert(x, s[1..]);
      InsertSorted(x, s[1..]);
      InsertPermutes(x, s[1..]);
      forall j | 0 <= j < |rest|
        ensures s[0].score >= rest[j].score
      {
        assert rest[j] in multiset(rest);
        if rest[j] != x {
          assert rest[j] in multiset(s[1..]);
          var m :| 0 <= m < |s[1..]| && s[1..][m] == rest[j];
          assert s[m + 1] == rest[j];
        }
      }
    }
  }

  lemma {:induction false} InsertStable(x: Scored, s: seq<Scored>, k: real)
    ensures WithScore(Insert(x, s), k) == if x.score == k then [x] + WithScore(s, k) else WithScore(s, k)
  {
    if s != [] && s[0].score > x.score {
      InsertStable(x, s[1..], k);
      if x.score == k {
        assert s[0].score != k;
      }
    }
  }

  /** The sort returns a permutation of its input, ordered by non-increasing
      score, in which equal-scored elements keep their relative order. */
  lemma {:induction false} SortDescCorrect(s: seq<Scored>)
    ensures multiset(SortDesc(s)) == multiset(s)
    ensures NonIncreasing(SortDesc(s))
    ensures forall k :: WithScore(SortDesc(s), k) == WithScore(s, k)
  {
    if s != [] {
      SortDescCorrect(s[1..]);
      InsertPermutes(s[0], SortDesc(s[1..]));
      InsertSorted(s[0], SortDesc(s[1..]));
      assert s == [s[0]] + s[1..];
      forall k
        ensures WithScore(SortDesc(s), k) == WithScore(s, k)
      {
        InsertStable(s[0], SortDesc(s[1..]), k);
      }
    }
  }

  // ----- selection -----

  function BooksOf(s: seq<Scored>): (books: seq<Book>)
    ensures |books| == |s| && forall i :: 0 <= i < |s| ==> books[i] == s[i].book
  {
    if s == [] then [] else BooksOf(s[..|s| - 1]) + [s[|s| - 1].book]
  }

  /** `[book for book in books if book is not None]`. */
  function PresentBooks(books: seq<Option<Book>>): seq<Book>
  {
    if books == [] then []
    else PresentBooks(books[..|books| - 1]) + (if books[|books| - 1].Some? then [books[|books| - 1].value] else [])
  }

  predicate TitleGiven(title: Option<string>)
  {
    title.Some? && Truthy(title.value)
  }

  /** `valid_books`: with a title and at least one book, the ten best
      scored; otherwise the first ten present books. */
  function Selected(title: Option<string>, books: seq<Option<Book>>, lower: string -> string, ratio: (string, string) -> real): seq<Book>
    requires RatioBounded(ratio)
  {
    if TitleGiven(title) && books != [] then
      BooksOf(SliceTo(SortDesc(ScoreAll(lower(title.value), books, lower, ratio)), 10))
    else
      SliceTo(PresentBooks(books), 10)
  }

  /** The scoring loop of `identify`, followed by the sort and the cut. */
  method Rank(title: Option<string>, books: seq<Option<Book>>, lower: string -> string, ratio: (string, string) -> real)
    returns (valid: seq<Book>)
    requires RatioBounded(ratio)
    ensures valid == Selected(title, books, lower, ratio)
  {
    if title.Some? && title.value != "" && |books| > 0 {
      var searchTitle := lower(title.value);
      var scored: seq<Scored> := [];
      var i := 0;
      while i < |books|
        invariant 0 <= i <= |books|
        invariant scored == ScoreAll(searchTitle, books[..i], lower, ratio)
      {
        assert books[..i + 1][..i] == books[..i];
        var book := books[i];
        i := i + 1;
        if book == None {
          continue;
        }
        var score := Score(searchTitle, book.value, lower, ratio);
        scored := scored + [Scored(score, book.value)];
      }
      assert books[..i] == books;
      var sorted := SortDesc(scored);
      valid := BooksOf(SliceTo(sorted, 10));
    } else {
      valid := SliceTo(PresentBooks(books), 10);
    }
  }

  // ----- properties of the selection -----

  lemma {:induction false} ScoreAllMembers(query: string, books: seq<Option<Book>>, lower: string -> string, ratio: (string, string) -> real)
    requires RatioBounded(ratio)
    ensures forall e :: e in ScoreAll(query, books, lower, ratio) ==>
      Some(e.book) in books && e.score == Score(query, e.book, lower, ratio)
    ensures forall b :: Some(b) in books ==> Scored(Score(query, b, lower, ratio), b) in ScoreAll(query, books, lower, ratio)
  {
    if books != [] {
      var init := books[..|books| - 1];
      ScoreAllMembers(query, init, lower, ratio);
      assert books == init + [books[|books| - 1]];
    }
  }

  lemma {:induction false} PresentBooksMembers(books: seq<Option<Book>>)
    ensures forall b :: b in PresentBooks(books) <==> Some(b) in books
  {
    if books != [] {
      var init := books[..|books| - 1];
      PresentBooksMembers(init);
      assert books == init + [books[|books| - 1]];
    }
  }

  /** At most ten books are selected, each a non-None input book. */
  lemma SelectedFromInput(title: Option<string>, books: seq<Option<Book>>, lower: string -> string, ratio: (string, string) -> real)
    requires RatioBounded(ratio)
    ensures |Selected(title, books, lower, ratio)| <= 10
    ensures forall b :: b in Selected(title, books, lower, ratio) ==> Some(b) in books
  {
    var sel := Selected(title, books, lower, ratio);
    if TitleGiven(title) && books != [] {
      var q := lower(title.value);
      var all := ScoreAll(q, books, lower, ratio);
      var sorted := SortDesc(all);
      var cut := SliceTo(sorted, 10);
      SortDescCorrect(all);
      ScoreAllMembers(q, books, lower, ratio);
      forall b | b in sel
        ensures Some(b) in books
      {
        var i :| 0 <= i < |sel| && sel[i] == b;
        assert cut[i] == sorted[i];
        assert sorted[i] in multiset(all);
      }
    } else {
      PresentBooksMembers(books);
    }
  }

  /** A single failed fetch selects nothing. */
  lemma FailedFetchSelectsNothing(title: Option<string>, lower: string -> string, ratio: (string, string) -> real)
    requires RatioBounded(ratio)
    ensures Selected(title, [None], lower, ratio) == []
  {
    var failed: seq<Option<Book>> := [None];
    assert failed[..0] == [];
    assert PresentBooks(failed) == [];
    if TitleGiven(title) {
      assert ScoreAll(lower(title.value), failed, lower, ratio) == [];
    }
  }

  /** The sorted scored list: ordered, each entry carrying its own book's
      score, and holding every present input book. */
  lemma {:induction false} RankedFacts(query: string, books: seq<Option<Book>>, lower: string -> string, ratio: (string, string) -> real)
    requires RatioBounded(ratio)
    ensures NonIncreasing(SortDesc(ScoreAll(query, books, lower, ratio)))
    ensures forall e :: e in SortDesc(ScoreAll(query, books, lower, ratio)) ==>
      e.score == Score(query, e.book, lower, ratio) && Some(e.book) in books
    ensures forall b :: Some(b) in books ==> Scored(Score(query, b, lower, ratio), b) in SortDesc(ScoreAll(query, books, lower, ratio))
  {
    var all := ScoreAll(query, books, lower, ratio);
    SortDescCorrect(all);
    ScoreAllMembers(query, books, lower, ratio);
    assert forall e :: e in SortDesc(all) <==> e in multiset(all);
  }

  /** The selection with a title and books, as the first entries of the
      sorted scored list. */
  lemma {:induction false} SelectedPrefix(title: Option<string>, books: seq<Option<Book>>, lower: string -> string, ratio: (string, string) -> real)
    requires RatioBounded(ratio)
    requires TitleGiven(title) && books != []
    ensures var sorted := SortDesc(ScoreAll(lower(title.value), books, lower, ratio));
      var sel := Selected(title, books, lower, ratio);
      |sel| == (if |sorted| <= 10 then |sorted| else 10) &&
      forall i :: 0 <= i < |sel| ==> sel[i] == sorted[i].book
  {
    var sorted := SortDesc(ScoreAll(lower(title.value), books, lower, ratio));
    var cut := SliceTo(sorted, 10);
    assert forall i :: 0 <= i < |cut| ==> cut[i] == sorted[i];
  }

  /** With a title, the selected books come in non-increasing score order,
      and a present book left out scores no higher than any selected one,
      which happens only when ten were selected. */
  lemma SelectedIsTopTen(title: Option<string>, books: seq<Option<Book>>, lower: string -> string, ratio: (string, string) -> real)
    requires RatioBounded(ratio)
    requires TitleGiven(title)
    ensures forall i, j :: 0 <= i < j < |Selected(title, books, lower, ratio)| ==>
      Score(lower(title.value), Selected(title, books, lower, ratio)[i], lower, ratio) >=
      Score(lower(title.value), Selected(title, books, lower, ratio)[j], lower, ratio)
    ensures forall b :: Some(b) in books && b !in Selected(title, books, lower, ratio) ==>
      |Selected(title, books, lower, ratio)| == 10 &&
      forall s :: s in Selected(title, books, lower, ratio) ==>
        Score(lower(title.value), b, lower, ratio) <= Score(lower(title.value), s, lower, ratio)
  {
    var q := lower(title.value);
    var sel := Selected(title, books, lower, ratio);
    if books != [] {
      var sorted := SortDesc(ScoreAll(q, books, lower, ratio));
      RankedFacts(q, books, lower, ratio);
      SelectedPrefix(title, books, lower, ratio);
      forall i | 0 <= i < |sel|
        ensures sorted[i].score == Score(q, sel[i], lower, ratio)
      {
        assert sorted[i] in sorted;
      }
      forall b | Some(b) in books && b !in sel
        ensures |sel| == 10 && forall s :: s in sel ==> Score(q, b, lower, ratio) <= Score(q, s, lower, ratio)
      {
        var e := Scored(Score(q, b, lower, ratio), b);
        var j :| 0 <= j < |sorted| && sorted[j] == e;
        forall s | s in sel
          ensures Score(q, b, lower, ratio) <= Score(q, s, lower, ratio)
        {
          var i :| 0 <= i < |sel| && sel[i] == s;
          assert sorted[i].score >= sorted[j].score;
        }
      }
    }
  }

  /** A book whose title contains the query always tops the ranking. */
  lemma ContainmentWins(title: Option<string>, books: seq<Option<Book>>, lower: string -> string, ratio: (string, string) -> real, b: Book)
    requires RatioBounded(ratio)
    requires TitleGiven(title)
    requires Some(b) in books
    requires Contains(lower(b.title), lower(title.value)) || Contains(lower(b.titleCn), lower(title.value))
    ensures Selected(title, books, lower, ratio) != []
    ensures Score(lower(title.value), Selected(title, books, lower, ratio)[0], lower, ratio) == 1.0
  {
    var q := lower(title.value);
    var sel := Selected(title, books, lower, ratio);
    SelectedIsTopTen(title, books, lower, ratio);
    if b in sel {
      var i :| 0 <= i < |sel| && sel[i] == b;
    }
  }

  function IsPresent(o: Option<Book>): bool
  {
    o.Some?
  }

  /** The present books are the books at the picked positions, in order:
      one per position that holds a book, at increasing positions, and none
      of them missed. */
  lemma {:induction false} PresentBooksPicked(books: seq<Option<Book>>)
    ensures |PresentBooks(books)| == |Picked(books, IsPresent)|
    ensures forall k :: 0 <= k < |Picked(books, IsPresent)| ==>
      Picked(books, IsPresent)[k] < |books| && Some(PresentBooks(books)[k]) == books[Picked(books, IsPresent)[k]]
  {
    if books != [] {
      var init := books[..|books| - 1];
      PresentBooksPicked(init);
      var idx := Picked(books, IsPresent);
      var idx0 := Picked(init, IsPresent);
      forall k | 0 <= k < |idx|
        ensures idx[k] < |books| && Some(PresentBooks(books)[k]) == books[idx[k]]
      {
        if k < |idx0| {
          assert idx[k] == idx0[k];
          assert books[idx0[k]] == init[idx0[k]];
        }
      }
    }
  }

  /** Without a title, the selection is the first ten present books in
      their original order: the books at the first `min(10, n)` positions
      that hold a book, where those positions increase and include every
      position holding a book. */
  lemma UntitledKeepsOrder(title: Option<string>, books: seq<Option<Book>>, lower: string -> string, ratio: (string, string) -> real)
    requires RatioBounded(ratio)
    requires !TitleGiven(title)
    ensures var idx := Picked(books, IsPresent);
      |Selected(title, books, lower, ratio)| == if |idx| <= 10 then |idx| else 10
    ensures var idx := Picked(books, IsPresent);
      forall i :: 0 <= i < |Selected(title, books, lower, ratio)| ==>
        idx[i] < |books| && Some(Selected(title, books, lower, ratio)[i]) == books[idx[i]]
    ensures Increasing(Picked(books, IsPresent))
    ensures forall i :: 0 <= i < |books| && books[i].Some? ==> i in Picked(books, IsPresent)
  {
    PresentBooksPicked(books);
    MapFilterExact(books, IsPresent, IsPresent);
  }
}
