/** set_rating: a book's stored rating becomes the average of its relations' present
    rates, and is left alone when that average is None or zero. */
module Rating {
  import opened Wrappers
  import opened Seqs
  import opened Models

  /** The relations of `book` that carry a rate. */
  function RatedRelationOf(book: BookId): Relation -> bool {
    (rel: Relation) => rel.book == book && rel.rate.Some?
  }

  /** The present rates of the book's relations, in table order; SQL AVG skips nulls. */
  function PresentRates(relations: seq<Relation>, book: BookId): (rates: seq<int>)
    ensures |rates| == Count(relations, RatedRelationOf(book))
  {
    if |relations| == 0 then []
    else
      var last := relations[|relations| - 1];
      PresentRates(relations[..|relations| - 1], book)
        + (if last.book == book && last.rate.Some? then [last.rate.value] else [])
  }

  function Sum(xs: seq<int>): int {
    if |xs| == 0 then 0 else Sum(xs[..|xs| - 1]) + xs[|xs| - 1]
  }

  /** The aggregate Avg('rate') over the book's relations: None when no rate is present,
      otherwise the number whose product with the count is the sum. */
  function Average(relations: seq<Relation>, book: BookId): (avg: Option<real>)
    ensures avg.None? <==> |PresentRates(relations, book)| == 0
    ensures avg.Some? ==>
      avg.value * (|PresentRates(relations, book)| as real) == Sum(PresentRates(relations, book)) as real
  {
    var rates := PresentRates(relations, book);
    if |rates| == 0 then None else Some(Sum(rates) as real / |rates| as real)
  }

  /** Python truthiness of the aggregate: None and zero are false. */
  predicate Truthy(avg: Option<real>) {
    avg.Some? && avg.value != 0.0
  }

  /** set_rating(book): when the average is truthy it replaces the book's rating; nothing
      else in the store changes. */
  function SetRating(s: Store, book: BookId): (r: Store)
    ensures r.users == s.users && r.relations == s.relations
    ensures |r.books| == |s.books|
    ensures forall i :: 0 <= i < |s.books| ==> r.books[i] == s.books[i].(rating := r.books[i].rating)
    ensures forall i :: 0 <= i < |s.books| && s.books[i].id != book ==> r.books[i] == s.books[i]
    ensures forall i :: 0 <= i < |s.books| && s.books[i].id == book ==>
      r.books[i].rating == (if Truthy(Average(s.relations, book)) then Average(s.relations, book) else s.books[i].rating)
  {
    var avg := Average(s.relations, book);
    if Truthy(avg) then
      s.(books := seq(|s.books|, i requires 0 <= i < |s.books| =>
        if s.books[i].id == book then s.books[i].(rating := avg) else s.books[i]))
    else s
  }

  /** When every stored rate is valid, each present rate lies in 1..5. */
  lemma {:induction false} PresentRatesInRange(relations: seq<Relation>, book: BookId)
    requires RatesValid(relations)
    ensures forall i :: 0 <= i < |PresentRates(relations, book)| ==> 1 <= PresentRates(relations, book)[i] <= 5
    decreases |relations|
  {
    if |relations| > 0 {
      var init := relations[..|relations| - 1];
      var last := relations[|relations| - 1];
      assert forall i :: 0 <= i < |init| ==> init[i] == relations[i];
      PresentRatesInRange(init, book);
      if last.rate.Some? {
        RatingChoicesAreOneToFive(last.rate.value);
      }
    }
  }

  lemma {:induction false} SumBounds(xs: seq<int>, lo: int, hi: int)
    requires forall i :: 0 <= i < |xs| ==> lo <= xs[i] <= hi
    ensures lo * |xs| <= Sum(xs) <= hi * |xs|
    decreases |xs|
  {
    if |xs| > 0 {
      var init := xs[..|xs| - 1];
      assert forall i :: 0 <= i < |init| ==> init[i] == xs[i];
      SumBounds(init, lo, hi);
    }
  }

  /** With valid rates the average lies between 1 and 5, so it is truthy whenever a
      rate is present. */
  lemma AverageInRange(relations: seq<Relation>, book: BookId)
    requires RatesValid(relations)
    requires Average(relations, book).Some?
    ensures 1.0 <= Average(relations, book).value <= 5.0
    ensures Truthy(Average(relations, book))
  {
    var rates := PresentRates(relations, book);
    PresentRatesInRange(relations, book);
    SumBounds(rates, 1, 5);
    var n := |rates| as real;
    MeanBounds(Sum(rates) as real, n, Average(relations, book).value);
  }

  lemma MeanBounds(sum: real, n: real, m: real)
    requires n > 0.0 && m * n == sum && n <= sum <= 5.0 * n
    ensures 1.0 <= m <= 5.0
  {
  }

  /** A book with at least one valid present rate gets the average as its rating. */
  lemma RatedBookGetsAverage(s: Store, book: BookId)
    requires RatesValid(s.relations)
    requires |PresentRates(s.relations, book)| > 0
    ensures forall i :: 0 <= i < |s.books| && s.books[i].id == book ==>
      SetRating(s, book).books[i].rating == Average(s.relations, book)
    ensures 1.0 <= Average(s.relations, book).value <= 5.0
  {
    AverageInRange(s.relations, book);
  }

  /** A book with no present rate keeps whatever rating it had: set_rating never clears it. */
  lemma UnratedBookUnchanged(s: Store, book: BookId)
    requires |PresentRates(s.relations, book)| == 0
    ensures SetRating(s, book) == s
  {
  }

  /** Recomputing from an unchanged relation set changes nothing more. */
  lemma SetRatingIdempotent(s: Store, book: BookId)
    ensures SetRating(SetRating(s, book), book) == SetRating(s, book)
  {
    var once := SetRating(s, book);
    var twice := SetRating(once, book);
    assert |twice.books| == |once.books|;
    forall i | 0 <= i < |once.books|
      ensures twice.books[i] == once.books[i]
    {
    }
  }

  /** Only the book's own relations contribute to its present rates. */
  lemma {:induction false} PresentRatesOfOwnRelations(relations: seq<Relation>, book: BookId)
    ensures PresentRates(relations, book) == PresentRates(Select(relations, (rel: Relation) => rel.book == book), book)
    decreases |relations|
  {
    if |relations| > 0 {
      var init := relations[..|relations| - 1];
      var last := relations[|relations| - 1];
      var p := (rel: Relation) => rel.book == book;
      PresentRatesOfOwnRelations(init, book);
      if p(last) {
        var sel := Select(init, p) + [last];
        assert Select(relations, p) == sel;
        assert sel[..|sel| - 1] == Select(init, p);
      }
    }
  }

  /** Null rates are left out of the average, not counted as zero. */
  lemma {:induction false} PresentRatesSkipNulls(relations: seq<Relation>, book: BookId)
    ensures PresentRates(relations, book) == PresentRates(Select(relations, (rel: Relation) => rel.rate.Some?), book)
    decreases |relations|
  {
    if |relations| > 0 {
      var init := relations[..|relations| - 1];
      var last := relations[|relations| - 1];
      var p := (rel: Relation) => rel.rate.Some?;
      PresentRatesSkipNulls(init, book);
      if p(last) {
        var sel := Select(init, p) + [last];
        assert Select(relations, p) == sel;
        assert sel[..|sel| - 1] == Select(init, p);
      }
    }
  }

  /** Three relations of book 1, rates 5, 4 and null, and one of book 2. */
  const ExampleRelations: seq<Relation> := [
    Relation(1, 1, 1, Some(5), true, true),
    Relation(2, 2, 1, Some(4), true, true),
    Relation(3, 3, 2, Some(3), true, false),
    Relation(4, 3, 1, None, false, false)]

  lemma ExampleAverage()
    ensures PresentRates(ExampleRelations, 1) == [5, 4]
    ensures Average(ExampleRelations, 1) == Some(4.5)
  {
    var rels := ExampleRelations;
    assert rels[..3][..2][..1][..0] == [];
    assert rels[..3][..2][..1] == [rels[0]];
    assert PresentRates(rels[..3][..2][..1], 1) == [5];
    assert rels[..3][..2] == [rels[0], rels[1]];
    assert PresentRates(rels[..3][..2], 1) == [5, 4];
    assert rels[..3] == [rels[0], rels[1], rels[2]];
    assert PresentRates(rels[..3], 1) == [5, 4];
    assert PresentRates(rels, 1) == [5, 4];
    assert [5, 4][..1] == [5] && [5][..0] == [];
    assert Sum([5, 4]) == 9;
  }

  /** Rates 5 and 4 plus a relation without a rate give a rating of 4.5; the relation of
      another book is ignored. */
  lemma FiveAndFourGiveFourAndAHalf()
    ensures var s := Store(map[1 := "user_1", 2 := "user_2", 3 := "user_3"],
                           [Book(1, "Test srl1", 100.0, "author1", Some(1), Some(0.5), None)],
                           ExampleRelations);
            SetRating(s, 1).books[0].rating == Some(4.5)
  {
    ExampleAverage();
  }
}
