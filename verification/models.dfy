/** The two tables of the store app, Book and UserBookRelation, the user table they
    point at, the RATING choices, the field defaults, and what deleting a user does. */
module Models {
  import opened Wrappers
  import opened Seqs

  type UserId = nat
  type BookId = nat
  type RelationId = nat

  /** A Book row. `price`, `discount` and `rating` are exact decimals; `owner` is null
      once the owning user is deleted. */
  datatype Book = Book(
    id: BookId,
    name: string,
    price: real,
    author: string,
    owner: Option<UserId>,
    discount: Option<real>,
    rating: Option<real>)

  /** A UserBookRelation row: one user's rate, like and bookmark on one book. */
  datatype Relation = Relation(
    id: RelationId,
    user: UserId,
    book: BookId,
    rate: Option<int>,
    like: bool,
    isBookmark: bool)

  /** The persisted state: usernames by user id, the books and the relations. */
  datatype Store = Store(users: map<UserId, string>, books: seq<Book>, relations: seq<Relation>)

  /** The RATING choices of the `rate` column, value and label. */
  const RatingChoices: seq<(int, string)> :=
    [(1, "Bad"), (2, "Not bad"), (3, "Normal"), (4, "Good"), (5, "Excellent")]

  predicate IsRatingChoice(v: int) {
    exists i :: 0 <= i < |RatingChoices| && RatingChoices[i].0 == v
  }

  /** The RATING choices are exactly the integers 1 to 5. */
  lemma RatingChoicesAreOneToFive(v: int)
    ensures IsRatingChoice(v) <==> 1 <= v <= 5
  {
    if 1 <= v <= 5 {
      assert RatingChoices[v - 1].0 == v;
    }
  }

  /** A rate the serializer accepts: null, or one of the RATING choices. */
  predicate ValidRate(rate: Option<int>) {
    rate.None? || IsRatingChoice(rate.value)
  }

  /** The relation the ORM creates from its two keys alone, every other field at its default. */
  function DefaultRelation(id: RelationId, user: UserId, book: BookId): (r: Relation)
    ensures r.id == id && r.user == user && r.book == book
    ensures r.rate.None? && !r.like && !r.isBookmark
    ensures ValidRate(r.rate)
  {
    Relation(id, user, book, None, false, false)
  }

  function Pow10(n: nat): (r: nat)
    ensures r >= 1
  {
    if n == 0 then 1 else 10 * Pow10(n - 1)
  }

  /** A value a DecimalField(max_digits, decimal_places) can hold exactly. */
  predicate FitsDecimal(x: real, maxDigits: nat, places: nat) {
    var scaled := x * Pow10(places) as real;
    && scaled.Floor as real == scaled
    && -(Pow10(maxDigits) as real) < scaled < Pow10(maxDigits) as real
  }

  /** `price` is DecimalField(max_digits=7, decimal_places=2). */
  predicate ValidPrice(price: real) {
    FitsDecimal(price, 7, 2)
  }

  /** `discount` is a nullable DecimalField(max_digits=3, decimal_places=2). */
  predicate ValidDiscount(discount: Option<real>) {
    discount.None? || FitsDecimal(discount.value, 3, 2)
  }

  /** The largest discount the column can hold is 9.99, well above 1. */
  lemma DiscountColumnAllowsAboveOne()
    ensures ValidDiscount(Some(9.99))
    ensures !ValidDiscount(Some(10.0))
  {
    assert (9.99 * 100.0).Floor == 999;
  }

  predicate UniqueBookIds(books: seq<Book>) {
    forall i, j :: 0 <= i < j < |books| ==> books[i].id != books[j].id
  }

  predicate UniqueRelationIds(relations: seq<Relation>) {
    forall i, j :: 0 <= i < j < |relations| ==> relations[i].id != relations[j].id
  }

  /** Every stored rate is null or a RATING choice. */
  predicate RatesValid(relations: seq<Relation>) {
    forall i :: 0 <= i < |relations| ==> ValidRate(relations[i].rate)
  }

  /** At most one relation per (user, book) pair; the app relies on it, the schema does not enforce it. */
  predicate OnePerPair(relations: seq<Relation>) {
    forall i, j :: 0 <= i < j < |relations| ==>
      relations[i].user != relations[j].user || relations[i].book != relations[j].book
  }

  predicate HasBook(books: seq<Book>, id: BookId) {
    exists i :: 0 <= i < |books| && books[i].id == id
  }

  /** Every relation points at a stored book, as the foreign key demands. */
  predicate RelationsReferToBooks(s: Store) {
    forall i :: 0 <= i < |s.relations| ==> HasBook(s.books, s.relations[i].book)
  }

  /** An id larger than every id in use, the way an auto-increment key picks the next one. */
  function NextId(ids: seq<nat>): (id: nat)
    ensures forall i :: 0 <= i < |ids| ==> ids[i] < id
  {
    if |ids| == 0 then 1
    else
      var rest := NextId(ids[..|ids| - 1]);
      if ids[|ids| - 1] < rest then rest else ids[|ids| - 1] + 1
  }

  function BookIds(books: seq<Book>): (ids: seq<nat>)
    ensures |ids| == |books| && forall i :: 0 <= i < |books| ==> ids[i] == books[i].id
  {
    seq(|books|, i requires 0 <= i < |books| => books[i].id)
  }

  /** The id the database gives a new relation row: above every id in use. */
  function NextRelationId(relations: seq<Relation>): (id: nat)
    ensures forall i :: 0 <= i < |relations| ==> relations[i].id < id
  {
    var ids := seq(|relations|, i requires 0 <= i < |relations| => relations[i].id);
    assert forall i :: 0 <= i < |relations| ==> ids[i] == relations[i].id;
    NextId(ids)
  }

  /** Deleting a user: the owner of their books is set to null (SET_NULL) and their
      relations are deleted (CASCADE). A cascade is a bulk delete that never calls
      UserBookRelation.save, so no book's rating is recomputed. */
  function DeleteUser(s: Store, user: UserId): (r: Store)
    ensures user !in r.users && r.users == s.users - {user}
    ensures |r.books| == |s.books|
    ensures forall i :: 0 <= i < |s.books| ==>
      && r.books[i] == s.books[i].(owner := r.books[i].owner)
      && (r.books[i].owner == if s.books[i].owner == Some(user) then None else s.books[i].owner)
    ensures forall i :: 0 <= i < |r.relations| ==> r.relations[i].user != user
    ensures forall i :: 0 <= i < |s.relations| && s.relations[i].user != user ==> s.relations[i] in r.relations
    ensures forall i :: 0 <= i < |r.relations| ==> r.relations[i] in s.relations
  {
    var books := seq(|s.books|, i requires 0 <= i < |s.books| =>
      if s.books[i].owner == Some(user) then s.books[i].(owner := None) else s.books[i]);
    Store(s.users - {user}, books, Select(s.relations, (rel: Relation) => rel.user != user))
  }
}
