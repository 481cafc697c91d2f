/** BookViewSet: the list endpoint's exact price filter, search over name and author,
    and ordering by id or price, applied on top of the annotated queryset; creation with
    the caller as owner; deletion with its cascade. */
module BookViews {
  import opened Wrappers
  import opened Seqs
  import opened Models
  import opened BookQuery

  // ---------------------------------------------------------------- search

  /** ASCII lower-casing, the case folding of a case-insensitive LIKE. */
  function Lower(c: char): char {
    if 'A' <= c <= 'Z' then (c as int + 32) as char else c
  }

  function Fold(s: string): (r: string)
    ensures |r| == |s| && forall i :: 0 <= i < |s| ==> r[i] == Lower(s[i])
  {
    seq(|s|, i requires 0 <= i < |s| => Lower(s[i]))
  }

  /** `needle` is a substring of `hay`: a prefix of it or of one of its suffixes. */
  predicate Contains(hay: string, needle: string)
    decreases |hay|
  {
    needle <= hay || (|hay| > 0 && Contains(hay[1..], needle))
  }

  /** `needle` occurs in `hay` starting at position `i`. */
  predicate OccursAt(hay: string, needle: string, i: int) {
    0 <= i && i + |needle| <= |hay| && hay[i..i + |needle|] == needle
  }

  /** Contains agrees with the positional definition of a substring. */
  lemma {:induction false} ContainsIffOccurs(hay: string, needle: string)
    ensures Contains(hay, needle) <==> exists i :: OccursAt(hay, needle, i)
    decreases |hay|
  {
    if needle <= hay {
      assert OccursAt(hay, needle, 0);
    } else if |hay| > 0 {
      ContainsIffOccurs(hay[1..], needle);
      if Contains(hay[1..], needle) {
        var i :| OccursAt(hay[1..], needle, i);
        assert hay[i + 1..i + 1 + |needle|] == hay[1..][i..i + |needle|];
        assert OccursAt(hay, needle, i + 1);
      }
      if i :| OccursAt(hay, needle, i) {
        assert i != 0;
        assert hay[1..][i - 1..i - 1 + |needle|] == hay[i..i + |needle|];
        assert OccursAt(hay[1..], needle, i - 1);
      }
    }
  }

  /** Folding both sides keeps an occurrence. */
  lemma ContainsFolded(hay: string, needle: string)
    requires Contains(hay, needle)
    ensures Contains(Fold(hay), Fold(needle))
  {
    ContainsIffOccurs(hay, needle);
    var i :| OccursAt(hay, needle, i);
    assert Fold(hay)[i..i + |needle|] == Fold(needle);
    assert OccursAt(Fold(hay), Fold(needle), i);
    ContainsIffOccurs(Fold(hay), Fold(needle));
  }

  /** A book matches a search term when the term occurs, ignoring case, in its name or
      its author. */
  predicate MatchesTerm(book: Book, term: string) {
    Contains(Fold(book.name), Fold(term)) || Contains(Fold(book.author), Fold(term))
  }

  /** Every term of the search must match (no terms: every book matches). */
  function MatchesAll(terms: seq<string>): Book -> bool {
    (book: Book) => forall i :: 0 <= i < |terms| ==> MatchesTerm(book, terms[i])
  }

  /** The search filter over `name` and `author`. */
  function Search(rows: seq<Row>, terms: seq<string>): (r: seq<Row>)
    ensures forall i :: 0 <= i < |r| ==> r[i] in rows && MatchesAll(terms)(r[i].book)
    ensures forall i :: 0 <= i < |rows| && MatchesAll(terms)(rows[i].book) ==> rows[i] in r
  {
    Select(rows, OnBook(MatchesAll(terms)))
  }

  /** A term written exactly as it appears in a book's name or author finds the book,
      and so does the same term in other letter case. */
  lemma SearchFindsVerbatimTerm(rows: seq<Row>, i: int, term: string)
    requires 0 <= i < |rows|
    requires Contains(rows[i].book.name, term) || Contains(rows[i].book.author, term)
    ensures rows[i] in Search(rows, [term])
    ensures rows[i] in Search(rows, [Fold(term)])
  {
    var book := rows[i].book;
    if Contains(book.name, term) {
      ContainsFolded(book.name, term);
    } else {
      ContainsFolded(book.author, term);
    }
    assert Fold(Fold(term)) == Fold(term);
    assert MatchesAll([term])(book);
    assert MatchesAll([Fold(term)])(book);
  }

  /** An empty search keeps every row. */
  lemma EmptySearchKeepsAll(rows: seq<Row>)
    ensures Search(rows, []) == rows
  {
    SelectAll(rows, OnBook(MatchesAll([])));
  }

  // ---------------------------------------------------------------- ordering

  datatype OrderField = ById | ByPrice

  /** An `ordering` query parameter: a field and a direction. */
  datatype Ordering = Ordering(field: OrderField, descending: bool)

  /** The fields `ordering` may name are `id` and `price`, either one optionally
      prefixed by `-`; anything else leaves the queryset unordered. */
  function ParseOrdering(param: string): (o: Option<Ordering>)
    ensures o.Some? <==> param in {"id", "-id", "price", "-price"}
  {
    if param == "id" then Some(Ordering(ById, false))
    else if param == "-id" then Some(Ordering(ById, true))
    else if param == "price" then Some(Ordering(ByPrice, false))
    else if param == "-price" then Some(Ordering(ByPrice, true))
    else None
  }

  function RenderOrdering(o: Ordering): string {
    (if o.descending then "-" else "") + (if o.field == ById then "id" else "price")
  }

  /** Every ordering has a parameter spelling that parses back to it. */
  lemma ParseRendersBack(o: Ordering)
    ensures ParseOrdering(RenderOrdering(o)) == Some(o)
  {
  }

  function Key(row: Row, field: OrderField): real {
    if field == ById then row.book.id as real else row.book.price
  }

  /** `a` may come before `b` under ordering `o`. */
  predicate InOrder(a: Row, b: Row, o: Ordering) {
    if o.descending then Key(a, o.field) >= Key(b, o.field) else Key(a, o.field) <= Key(b, o.field)
  }

  predicate Sorted(rows: seq<Row>, o: Ordering) {
    forall i, j :: 0 <= i < j < |rows| ==> InOrder(rows[i], rows[j], o)
  }

  lemma ConsSorted(h: Row, t: seq<Row>, o: Ordering)
    requires Sorted(t, o)
    requires forall k :: 0 <= k < |t| ==> InOrder(h, t[k], o)
    ensures Sorted([h] + t, o)
  {
  }

  function Insert(x: Row, rows: seq<Row>, o: Ordering): (r: seq<Row>)
    requires Sorted(rows, o)
    ensures Sorted(r, o)
    ensures multiset(r) == multiset(rows) + multiset{x}
    ensures forall k :: 0 <= k < |r| ==> r[k] == x || r[k] in rows
    decreases |rows|
  {
    if |rows| == 0 then [x]
    else if InOrder(x, rows[0], o) then [x] + rows
    else
      var rest := Insert(x, rows[1..], o);
      assert rows == [rows[0]] + rows[1..];
      assert InOrder(rows[0], x, o);
      assert forall k :: 0 <= k < |rest| ==> rest[k] == x || rest[k] in rows[1..];
      assert forall k :: 0 <= k < |rest| ==> InOrder(rows[0], rest[k], o);
      ConsSorted(rows[0], rest, o);
      [rows[0]] + rest
  }

  /** Ordering: the same rows, sorted by the field in the direction asked for. */
  function Sort(rows: seq<Row>, o: Ordering): (r: seq<Row>)
    ensures Sorted(r, o)
    ensures multiset(r) == multiset(rows)
    decreases |rows|
  {
    if |rows| == 0 then []
    else
      assert rows == [rows[0]] + rows[1..];
      Insert(rows[0], Sort(rows[1..], o), o)
  }

  function Order(rows: seq<Row>, ordering: Option<Ordering>): seq<Row> {
    match ordering
    case None => rows
    case Some(o) => Sort(rows, o)
  }

  // ---------------------------------------------------------------- listing

  /** The exact-match filter on `price`, or no filter. */
  function PriceWanted(price: Option<real>): Book -> bool {
    (book: Book) => price.None? || book.price == price.value
  }

  function FilterPrice(rows: seq<Row>, price: Option<real>): seq<Row> {
    Select(rows, OnBook(PriceWanted(price)))
  }

  /** The query parameters of the list endpoint: `price`, the search terms, `ordering`. */
  datatype Query = Query(price: Option<real>, terms: seq<string>, ordering: Option<Ordering>)

  /** The books a query asks for: the price matches and every term matches. */
  function Wanted(q: Query): Book -> bool {
    (book: Book) => PriceWanted(q.price)(book) && MatchesAll(q.terms)(book)
  }

  /** The list endpoint: the annotated queryset, filtered, searched, then ordered, in the
      order the filter backends are declared. */
  function List(s: Store, q: Query): seq<Row> {
    Order(Search(FilterPrice(Project(s.books, s.relations, s.users), q.price), q.terms), q.ordering)
  }

  /** Listing yields exactly the annotated rows of the wanted books: in table order
      without an ordering, sorted and with the same rows when one is given. */
  lemma ListIsProjectionOfWantedBooks(s: Store, q: Query)
    ensures q.ordering.None? ==> List(s, q) == Project(Select(s.books, Wanted(q)), s.relations, s.users)
    ensures multiset(List(s, q)) == multiset(Project(Select(s.books, Wanted(q)), s.relations, s.users))
    ensures q.ordering.Some? ==> Sorted(List(s, q), q.ordering.value)
  {
    var p1 := PriceWanted(q.price);
    var p2 := MatchesAll(q.terms);
    var rows := Project(s.books, s.relations, s.users);
    var wanted := Select(s.books, Wanted(q));
    ProjectCommutesWithSelect(s.books, s.relations, s.users, p1);
    assert FilterPrice(rows, q.price) == Project(Select(s.books, p1), s.relations, s.users);
    ProjectCommutesWithSelect(Select(s.books, p1), s.relations, s.users, p2);
    SelectSelect(s.books, p1, p2, Wanted(q));
    var searched := Search(FilterPrice(rows, q.price), q.terms);
    assert searched == Project(wanted, s.relations, s.users);
  }

  // ---------------------------------------------------------------- create and destroy

  /** The writable fields of a new book. */
  datatype BookInput = BookInput(name: string, price: real, author: string, discount: Option<real>)

  datatype ViewError = PermissionDenied | NotFound | Invalid

  /** What the serializer accepts: non-blank name and author of at most 150 characters,
      a price and a discount that fit their decimal columns. */
  predicate ValidInput(input: BookInput) {
    && 0 < |input.name| <= 150
    && 0 < |input.author| <= 150
    && ValidPrice(input.price)
    && ValidDiscount(input.discount)
  }

  /** Creating a book: the permission decision comes first, then validation; the new
      book gets a fresh id, the caller as owner and no rating. */
  function CreateBook(s: Store, caller: UserId, allowed: bool, input: BookInput): (r: Result<Store, ViewError>)
    ensures !allowed ==> r == Failure(PermissionDenied)
    ensures allowed && !ValidInput(input) ==> r == Failure(Invalid)
    ensures r.Success? <==> allowed && ValidInput(input)
    ensures r.Success? ==>
      && r.value.users == s.users
      && r.value.relations == s.relations
      && |r.value.books| == |s.books| + 1
      && r.value.books[..|s.books|] == s.books
    ensures r.Success? ==>
      var book := r.value.books[|s.books|];
      && book.owner == Some(caller)
      && book.rating.None?
      && book.name == input.name && book.price == input.price
      && book.author == input.author && book.discount == input.discount
      && !HasBook(s.books, book.id)
  {
    if !allowed then Failure(PermissionDenied)
    else if !ValidInput(input) then Failure(Invalid)
    else
      var id := NextId(BookIds(s.books));
      var book := Book(id, input.name, input.price, input.author, Some(caller), input.discount, None);
      Success(s.(books := s.books + [book]))
  }

  /** Creation keeps book ids unique and foreign keys intact, and the new book lists
      with no likes, no bookmarks, no rating and the caller's name as owner. */
  lemma CreatedBookRow(s: Store, caller: UserId, input: BookInput)
    requires UniqueBookIds(s.books) && RelationsReferToBooks(s)
    requires ValidInput(input)
    ensures var t := CreateBook(s, caller, true, input).value;
            var row := Project(t.books, t.relations, t.users)[|s.books|];
            && UniqueBookIds(t.books)
            && RelationsReferToBooks(t)
            && row.countLikes == 0 && row.countBookmarks == 0
            && row.book.rating.None?
            && row.ownerName == (if caller in s.users then Some(s.users[caller]) else None)
  {
    var t := CreateBook(s, caller, true, input).value;
    var book := t.books[|s.books|];
    forall i | 0 <= i < |t.relations|
      ensures t.relations[i].book != book.id && HasBook(t.books, t.relations[i].book)
    {
      var j :| 0 <= j < |s.books| && s.books[j].id == t.relations[i].book;
      assert t.books[j] == s.books[j];
    }
  }

  /** Deleting a book: a missing book is reported before the permission decision; the
      book's relations go with it (CASCADE). */
  function DeleteBook(s: Store, id: BookId, allowed: bool): (r: Result<Store, ViewError>)
    ensures !HasBook(s.books, id) ==> r == Failure(NotFound)
    ensures HasBook(s.books, id) && !allowed ==> r == Failure(PermissionDenied)
    ensures r.Success? <==> HasBook(s.books, id) && allowed
    ensures r.Success? ==>
      && r.value.users == s.users
      && !HasBook(r.value.books, id)
      && (forall i :: 0 <= i < |r.value.relations| ==> r.value.relations[i].book != id)
      && (forall i :: 0 <= i < |s.books| && s.books[i].id != id ==> s.books[i] in r.value.books)
      && (forall i :: 0 <= i < |s.relations| && s.relations[i].book != id ==> s.relations[i] in r.value.relations)
      && (forall b :: b in r.value.books ==> b in s.books)
      && (forall rel :: rel in r.value.relations ==> rel in s.relations)
  {
    if !HasBook(s.books, id) then Failure(NotFound)
    else if !allowed then Failure(PermissionDenied)
    else
      Success(Store(s.users,
                    Select(s.books, (book: Book) => book.id != id),
                    Select(s.relations, (rel: Relation) => rel.book != id)))
  }

  /** The cascade leaves no relation pointing at the deleted book, so every remaining
      relation still points at a stored book. */
  lemma DeleteBookKeepsReferences(s: Store, id: BookId)
    requires RelationsReferToBooks(s)
    requires DeleteBook(s, id, true).Success?
    ensures RelationsReferToBooks(DeleteBook(s, id, true).value)
  {
    var t := DeleteBook(s, id, true).value;
    forall i | 0 <= i < |t.relations|
      ensures HasBook(t.books, t.relations[i].book)
    {
      var rel := t.relations[i];
      var k :| 0 <= k < |s.relations| && s.relations[k] == rel;
      var j :| 0 <= j < |s.books| && s.books[j].id == rel.book;
      assert s.books[j] in t.books;
      var m :| 0 <= m < |t.books| && t.books[m] == s.books[j];
    }
  }
}
