/** get_books_queryset: every book annotated with its like count, bookmark count,
    owner's username and discounted price, computed at query time. */
module BookQuery {
  import opened Wrappers
  import opened Seqs
  import opened Models

  /** One row of the annotated queryset. */
  datatype Row = Row(
    book: Book,
    countLikes: nat,
    countBookmarks: nat,
    ownerName: Option<string>,
    endPrice: real)

  function RelationOf(book: BookId): Relation -> bool {
    (rel: Relation) => rel.book == book
  }

  function LikeOf(book: BookId): Relation -> bool {
    (rel: Relation) => rel.book == book && rel.like
  }

  function BookmarkOf(book: BookId): Relation -> bool {
    (rel: Relation) => rel.book == book && rel.isBookmark
  }

  /** `end_price`: the price less the discount when the discount is positive, the price
      itself when the discount is null, zero or negative. */
  function EndPrice(price: real, discount: Option<real>): (r: real)
    ensures discount.Some? && discount.value > 0.0 ==> r == price * (1.0 - discount.value)
    ensures discount.None? || discount.value <= 0.0 ==> r == price
  {
    match discount
    case Some(d) => if d > 0.0 then price * (1.0 - d) else price
    case None => price
  }

  /** `owner_name`: the owner's username through a left join, null when the book has no
      owner. */
  function OwnerName(users: map<UserId, string>, owner: Option<UserId>): (r: Option<string>)
    ensures r.Some? <==> owner.Some? && owner.value in users
    ensures r.Some? ==> r.value == users[owner.value]
  {
    if owner.Some? && owner.value in users then Some(users[owner.value]) else None
  }

  /** The row of one book: counts over its own relations, its owner's name, its end price. */
  function Annotate(book: Book, relations: seq<Relation>, users: map<UserId, string>): (row: Row)
    ensures row.book == book
    ensures row.countLikes == Count(relations, LikeOf(book.id))
    ensures row.countBookmarks == Count(relations, BookmarkOf(book.id))
    ensures row.countLikes <= Count(relations, RelationOf(book.id))
    ensures row.countBookmarks <= Count(relations, RelationOf(book.id))
    ensures row.ownerName == OwnerName(users, book.owner)
    ensures row.endPrice == EndPrice(book.price, book.discount)
  {
    CountMonotone(relations, LikeOf(book.id), RelationOf(book.id));
    CountMonotone(relations, BookmarkOf(book.id), RelationOf(book.id));
    Row(book,
        Count(relations, LikeOf(book.id)),
        Count(relations, BookmarkOf(book.id)),
        OwnerName(users, book.owner),
        EndPrice(book.price, book.discount))
  }

  /** The annotated queryset: one row per book, in the books' order, the books themselves
      unaltered. */
  function Project(books: seq<Book>, relations: seq<Relation>, users: map<UserId, string>): (rows: seq<Row>)
    ensures |rows| == |books|
    ensures forall i :: 0 <= i < |books| ==> rows[i].book == books[i]
    ensures forall i :: 0 <= i < |books| ==> rows[i] == Annotate(books[i], relations, users)
  {
    seq(|books|, i requires 0 <= i < |books| => Annotate(books[i], relations, users))
  }

  /** Lifts a condition on books to the rows that carry them. */
  function OnBook(p: Book -> bool): Row -> bool {
    (row: Row) => p(row.book)
  }

  lemma ProjectAppend(a: seq<Book>, b: seq<Book>, relations: seq<Relation>, users: map<UserId, string>)
    ensures Project(a + b, relations, users) == Project(a, relations, users) + Project(b, relations, users)
  {
  }

  /** Projection and selection commute on a single book. */
  lemma ProjectSelectSingle(book: Book, relations: seq<Relation>, users: map<UserId, string>, p: Book -> bool)
    ensures Project(Select([book], p), relations, users) == Select(Project([book], relations, users), OnBook(p))
  {
    var row := Annotate(book, relations, users);
    assert [book][..0] == [];
    assert Project([book], relations, users) == [row];
    assert [row][..0] == [];
    if p(book) {
      assert Select([book], p) == [book];
      assert Select([row], OnBook(p)) == [row];
    } else {
      assert Select([book], p) == [];
      assert Select([row], OnBook(p)) == [];
    }
  }

  /** Projection and selection of books commute: filtering the annotated rows on a
      property of the book gives the rows of the filtered books, so a filter can be
      pushed below the annotation. */
  lemma {:induction false} ProjectCommutesWithSelect(
    books: seq<Book>, relations: seq<Relation>, users: map<UserId, string>, p: Book -> bool)
    ensures Project(Select(books, p), relations, users)
         == Select(Project(books, relations, users), OnBook(p))
    decreases |books|
  {
    if |books| == 0 {
      assert Project(books, relations, users) == [];
    } else {
      var init := books[..|books| - 1];
      var last := books[|books| - 1];
      assert books == init + [last];
      ProjectCommutesWithSelect(init, relations, users, p);
      ProjectSelectSingle(last, relations, users, p);
      SelectAppend(init, [last], p);
      ProjectAppend(init, [last], relations, users);
      SelectAppend(Project(init, relations, users), Project([last], relations, users), OnBook(p));
      ProjectAppend(Select(init, p), Select([last], p), relations, users);
    }
  }

  /** With the discount in (0, 1] and a non-negative price, the end price lies between
      zero and the price. */
  lemma EndPriceWithinPrice(price: real, discount: real)
    requires price >= 0.0 && 0.0 < discount <= 1.0
    ensures 0.0 <= EndPrice(price, Some(discount)) <= price
  {
    assert price * (1.0 - discount) == price - price * discount;
    assert price * discount >= 0.0;
    assert price * discount <= price * 1.0;
  }

  /** The discount column admits values above 1, and those make the end price negative,
      so no bound holds for every storable discount. */
  lemma EndPriceCanBeNegative()
    ensures ValidDiscount(Some(2.0)) && ValidPrice(100.0)
    ensures EndPrice(100.0, Some(2.0)) == -100.0
  {
  }

  /** A book at 100 with discount 0.5, liked and bookmarked by two users, one of whom
      is its owner user_1: count_likes 2, count_bookmarks 2, owner_name user_1, end_price 50. */
  lemma HalfPriceBookRow()
    ensures var book := Book(1, "Test srl1", 100.0, "author1", Some(1), Some(0.5), None);
            var rels := [Relation(1, 1, 1, Some(5), true, true),
                         Relation(2, 2, 1, Some(4), true, true),
                         Relation(3, 3, 3, Some(3), true, false)];
            Annotate(book, rels, map[1 := "user_1", 2 := "user_2", 3 := "user_3"])
              == Row(book, 2, 2, Some("user_1"), 50.0)
  {
    var r1 := Relation(1, 1, 1, Some(5), true, true);
    var r2 := Relation(2, 2, 1, Some(4), true, true);
    var r3 := Relation(3, 3, 3, Some(3), true, false);
    assert [r1][..0] == [] && [r1, r2][..1] == [r1] && [r1, r2, r3][..2] == [r1, r2];
    assert Count([r1, r2, r3], LikeOf(1)) == 2;
    assert Count([r1, r2, r3], BookmarkOf(1)) == 2;
  }

  /** A book without relations or discount: both counts are zero and the end price is the price. */
  lemma BareBookRow(book: Book, users: map<UserId, string>)
    requires book.discount.None?
    ensures Annotate(book, [], users).countLikes == 0
    ensures Annotate(book, [], users).countBookmarks == 0
    ensures Annotate(book, [], users).endPrice == book.price
  {
  }

  /** After a user is deleted, the books they owned list without an owner name, every
      other book keeps its owner name, and no book's rating moves, although the deleted
      user's rates are gone from the relations. */
  lemma DeletedOwnerHasNoName(s: Store, user: UserId)
    ensures var t := DeleteUser(s, user);
            var before := Project(s.books, s.relations, s.users);
            var after := Project(t.books, t.relations, t.users);
            forall i :: 0 <= i < |s.books| ==>
              && after[i].ownerName == (if s.books[i].owner == Some(user) then None else before[i].ownerName)
              && after[i].book.rating == s.books[i].rating
  {
  }
}
