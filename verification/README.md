# Store app: rating aggregation, change detection, book projection, relation upsert

This project is a Dafny model of the core of a small Django book catalogue (`store` app).
Users list, search and order books, create books they then own, and keep one relation per
book holding their like, their bookmark and a 1–5 rate. The model covers four pieces of that app:

- **Change detector** (`UserBookRelation.save` and `_monitor_update_rate`), module `RateMonitor`.
  Each relation instance remembers the last rate it observed. A save sets `update_rate` when
  the new rate is present and differs from that memory. It sets `set_rating_done`, and
  recomputes the book's rating, when the save is a creation or `update_rate` is set.
- **Rating aggregator** (`set_rating`), module `Rating`. It takes the SQL average of the
  book's non-null rates. It overwrites the book's rating only when that average is truthy,
  that is present and non-zero.
- **Read-model projection** (`BookMixin.get_books_queryset`), module `BookQuery`. Every book
  gets `count_likes`, `count_bookmarks`, `owner_name` and `end_price`. Module `BookViews`
  then applies the list endpoint's price filter, its name/author search and its id/price
  ordering on top, and models book creation (the caller becomes the owner) and book deletion.
- **Relation upsert and patch** (`UserBookRelationView.get_object` plus the partial update
  it serves), module `RelationView`. The row is found or created, keyed on the URL's book id
  and the caller's id. The patch is then validated and saved through the change detector.

The tables are `Models.Store`: usernames by id, a sequence of `Book` rows and a sequence
of `Relation` rows. Deleting a user follows the schema's `on_delete` rules. Prices,
discounts and averages are exact `real`s. Ids of new rows are one past the largest id in
use. Module `Seqs` holds the list meaning of the ORM's `COUNT(CASE WHEN …)`, `WHERE` and
`ORDER BY`: `Count`, `Select` and their lemmas.

Some behaviours of the code differ from what the app is described as doing, or are easy to miss. The model follows the code in each case:

- A request always saves a relation instance whose memory holds no rate. The instance was
  either just fetched or just created with a null rate. So a PATCH recomputes the rating
  exactly when the patched relation has a rate, even when the PATCH only toggles `like`
  (`RelationView.PatchRecomputesIffRatePresent`). "Like-only saves do not recompute" holds
  only for repeated saves of one in-memory instance (`RateMonitor.LikeThenRateScenario`).
- Setting a rate back to null never recomputes the rating, so the stored rating can differ
  from the average of the remaining rates (`RelationView.ClearingRateKeepsStaleRating`).
  Deleting a user removes their relations without any save, so no rating is recomputed
  then either (`BookQuery.DeletedOwnerHasNoName`).
- `get_object` runs before the serializer validates the patch. A PATCH with rate 10 is
  rejected, yet the caller's relation row it created stays in the table
  (`RelationView.InvalidRateStillCreatesRow`). A row is created here, not withheld.
- The schema has no uniqueness constraint on (user, book). Two rows for one pair make the
  lookup fail (`MultipleRelations`). A book id that names no book fails the creation, and
  nothing is written (`MissingBook`).
- `set_rating` tests the average for truthiness, not for presence. With valid rates
  (1..5) the two agree (`Rating.AverageInRange`).

## Model

| member | source | states |
|---|---|---|
| `Models.RatingChoicesAreOneToFive` | src/store/models.py:42-48 | the RATING choices are exactly the integers 1 to 5 |
| `Models.DefaultRelation` | src/store/models.py:57-63 | a relation created from its keys alone has a null rate, `like` false and `is_bookmark` false, and that rate is valid |
| `Models.DiscountColumnAllowsAboveOne` | src/store/models.py:23-29 | the discount column, DecimalField(3, 2), holds 9.99 but not 10 |
| `Models.DeleteUser` | src/store/models.py:12-17 | deleting a user sets the owner of their books to null and keeps every other field of every book, and removes exactly their relations (CASCADE, lines 49-52) |
| `RateMonitor.Save` | src/store/models.py:68-90 | `update_rate` iff the rate is present and differs from the remembered one; `set_rating_done` iff the save is a creation or `update_rate`; a present rate is remembered, a null rate leaves the memory alone |
| `RateMonitor.SlotIsLastPresentRate` | src/store/models.py:83-90 | after any run of saves the remembered rate is the last present rate saved, or the earlier memory when every saved rate was null |
| `RateMonitor.UpdateRateIffRateChanged` | src/store/models.py:68-90 | on an instance saved with a given history, the next save sets `update_rate` iff its rate is present and differs from the last present rate of that history; it recomputes iff it is the first save or that holds |
| `RateMonitor.LoadedInstanceReportsStoredRate` | src/store/models.py:86-90 | a freshly fetched instance has observed nothing: its first save with any present rate sets both flags, with a null rate neither |
| `RateMonitor.SameRateTwice` | src/store/models.py:88-90 | saving the same present rate twice in a row: the second save sets neither flag |
| `RateMonitor.LikeThenRateScenario` | src/store/tests/test_serializer.py:133-154 | create with no rate, toggle like, set rate 3, toggle like: flags (false, true), (false, false), (true, true), (false, false) |
| `Rating.Average` | src/store/utils.py:7-9 | the aggregate is None iff the book has no present rate, otherwise its product with the number of present rates is their sum |
| `Rating.SetRating` | src/store/utils.py:6-13 | only the given book's rating can change; it becomes the average when that is truthy and stays otherwise; users, relations and other books are untouched |
| `Rating.PresentRatesInRange` | src/store/utils.py:7-8 | with every stored rate valid, every present rate of a book lies in 1..5 |
| `Rating.AverageInRange` | src/store/utils.py:8-11 | with valid rates the average lies in [1, 5], hence is truthy whenever a rate is present |
| `Rating.RatedBookGetsAverage` | src/store/utils.py:11-13 | a book with a present valid rate gets the average of its present rates as its rating |
| `Rating.UnratedBookUnchanged` | src/store/utils.py:9-11 | a book with no present rate leaves the store unchanged, so a previous rating is never cleared |
| `Rating.SetRatingIdempotent` | src/store/utils.py:6-13 | recomputing a second time from the same relations changes nothing |
| `Rating.PresentRatesOfOwnRelations` | src/store/utils.py:7-8 | a book's present rates come from its own relations only: filtering the table to that book first gives the same rates |
| `Rating.PresentRatesSkipNulls` | src/store/utils.py:7-8 | null rates are skipped, not averaged as zero: dropping the relations without a rate gives the same rates |
| `Rating.ExampleAverage` | src/store/tests/test_serializer.py:41-64 | rates 5, 4 and null on a book, and 3 on another book, give the rates [5, 4] and the average 4.5 |
| `Rating.FiveAndFourGiveFourAndAHalf` | src/store/tests/test_serializer.py:66-73 | those relations give the book the rating 4.5 |
| `BookQuery.EndPrice` | src/store/mixins/book.py:24-29 | the end price is price times (1 - discount) when the discount is positive, and the price when it is null, zero or negative |
| `BookQuery.OwnerName` | src/store/mixins/book.py:22 | the owner name is present iff the book has an owner that is a stored user, and is then that user's username |
| `BookQuery.Annotate` | src/store/mixins/book.py:12-29 | a row carries the book unchanged, counts the book's liked and bookmarked relations, each count at most the book's relation count, plus the owner name and end price |
| `BookQuery.Project` | src/store/mixins/book.py:10-32 | exactly one row per book, in the books' order, carrying the book unaltered |
| `BookQuery.ProjectCommutesWithSelect` | src/store/mixins/book.py:10-32 | selecting rows by a condition on their book equals projecting the selected books, so filters commute with the annotation |
| `BookQuery.EndPriceWithinPrice` | src/store/mixins/book.py:24-29 | with a non-negative price and a discount in (0, 1] the end price lies in [0, price] |
| `BookQuery.EndPriceCanBeNegative` | src/store/models.py:23-29 | a storable discount of 2 on a price of 100 gives end price -100, so no bound holds in general |
| `BookQuery.HalfPriceBookRow` | src/store/tests/test_serializer.py:66-88 | price 100, discount 0.5, two liking and bookmarking users: counts 2 and 2, owner user_1, end price 50 |
| `BookQuery.BareBookRow` | src/store/tests/test_serializer.py:89-106 | a book without relations or discount: both counts 0, end price equal to the price |
| `BookQuery.DeletedOwnerHasNoName` | src/store/models.py:12-17 | after deleting a user, their books list with no owner name, other books keep theirs, and no rating moves |
| `BookViews.ContainsIffOccurs` | src/store/views.py:20 | the substring test used by search holds iff the term occurs at some position of the text |
| `BookViews.Search` | src/store/views.py:17-20 | the search keeps exactly the rows whose book matches every term in name or author, ignoring case |
| `BookViews.SearchFindsVerbatimTerm` | src/store/tests/test_api.py:86-105 | a term occurring in a book's name or author finds that book, in its own or lower case |
| `BookViews.EmptySearchKeepsAll` | src/store/views.py:20 | a search without terms keeps every row |
| `BookViews.ParseOrdering` | src/store/views.py:21 | an ordering is recognised iff the parameter is id, -id, price or -price |
| `BookViews.ParseRendersBack` | src/store/views.py:21 | every ordering's parameter spelling parses back to that ordering |
| `BookViews.Insert` | src/store/views.py:21 | inserting into sorted rows gives sorted rows with one more element, the inserted one |
| `BookViews.Sort` | src/store/views.py:21 | ordering gives a permutation of the rows, sorted on id or price in the direction asked |
| `BookViews.ListIsProjectionOfWantedBooks` | src/store/views.py:15-24 | listing gives exactly the rows of the books matching the price filter and every search term, in table order (one order the database may return) or sorted by the ordering |
| `BookViews.CreateBook` | src/store/views.py:26-28 | creation is refused without permission and rejected for invalid fields; otherwise it appends one book with a fresh id, the caller as owner, no rating and the given fields, and changes nothing else |
| `BookViews.CreatedBookRow` | src/store/views.py:26-28 | after creation ids stay unique and foreign keys intact; the new book lists with no likes, no bookmarks, no rating and the caller's username |
| `BookViews.DeleteBook` | src/store/models.py:53-56 | deletion reports a missing book, then a refused permission; otherwise the book and all its relations are gone, all other books and relations stay, and the result holds no row that was not stored before |
| `BookViews.DeleteBookKeepsReferences` | src/store/models.py:53-56 | after the cascade every remaining relation still points at a stored book |
| `RelationView.SaveRelation` | src/store/models.py:68-81 | the row is inserted or written back first; the rating of its book is recomputed, over the relations including that row, exactly when the save's `set_rating_done` is set |
| `RelationView.Resolve` | src/store/views.py:38-48 | unauthenticated callers are refused; two or more rows for the pair fail with MultipleRelations; exactly one row succeeds without creating; no row succeeds by creating iff the book exists and fails with MissingBook otherwise; a success is keyed on (URL book, caller); a found row leaves the store unchanged; a created row has a fresh id and default fields, the pair had no row, the book exists, and its rating is recomputed; earlier rows are untouched |
| `RelationView.ApplyPatch` | src/store/tests/test_api.py:291-315 | a patched relation keeps its id, user and book, and takes each field the patch carries |
| `RelationView.PatchError` | src/store/models.py:57-61 | a patch is accepted iff it carries no rate, a null rate, or a RATING choice |
| `RelationView.PatchRelation` | src/store/views.py:31-48 | a failed lookup changes nothing; an invalid patch keeps what the lookup wrote and fails; a valid patch after a successful lookup succeeds, returns the patched relation of the caller and that book, and leaves the store that saving it on the fetched instance gives |
| `RelationView.MissingPairIsCreated` | src/store/views.py:44 | when the caller has no row for an existing book, the lookup appends a default row for the pair (null rate, no like, no bookmark) with an id no stored row has |
| `RelationView.PatchKeepsOtherRows` | src/store/views.py:38-48 | with relation ids unique, a PATCH leaves every row of another (user, book) pair and every other book in place and unchanged, and keeps the users |
| `RelationView.ResolveKeepsInvariant` | src/store/views.py:38-44 | lookup keeps relation ids unique, one relation per pair, rates valid and book references intact |
| `RelationView.ResolveFindsExisting` | src/store/views.py:44 | when the caller's relation exists, it is returned as it is and nothing is written |
| `RelationView.PatchStoresPatchedValues` | src/store/tests/test_api.py:262-281 | after a valid patch the stored relation holds the patched like, bookmark or rate |
| `RelationView.InvalidRateChangesNoRate` | src/store/tests/test_api.py:283-289 | a rate outside 1..5 is rejected, every earlier row is unchanged, and any row the lookup added has a null rate |
| `RelationView.AppendKeepsTable` | src/store/views.py:44 | appending a row with a fresh id, a fresh pair and a valid rate keeps ids unique, one row per pair and rates valid |
| `RelationView.ReplaceKeepsTable` | src/store/models.py:68-70 | writing a row back with its keys and a valid rate keeps those invariants and every book reference |
| `RelationView.PatchKeepsInvariant` | src/store/views.py:31-48 | any patch request carrying rate, like or is_bookmark, failed or not, keeps the table invariant, in particular every stored rate in 1..5 |
| `RelationView.PatchRecomputesIffRatePresent` | src/store/models.py:68-90 | the save of a patch recomputes the rating iff the patched relation has a rate, even when that rate did not change |
| `RelationView.RatedWriteRefreshesRating` | src/store/models.py:68-79 | writing back a fetched row with a valid rate sets its book's rating to the average of the book's present rates |
| `RelationView.PatchWithRateRefreshesRating` | src/store/views.py:38-48 | after a successful patch leaving a rate, the book's rating is the average of its present rates |
| `RelationView.ClearRateWritesRow` | src/store/models.py:83-90 | clearing a rate on an existing relation writes the null rate and does not touch the book |
| `RelationView.ClearingRateKeepsStaleRating` | src/store/models.py:88 | with rates 5 and 4, clearing the 4 leaves the stored 4.5 although the remaining rates average 5 |
| `RelationView.InvalidRateStillCreatesRow` | src/store/views.py:38-44 | a rate of 10 from a caller without a relation is rejected, yet the default row get_object created stays |

## Left out

- HTTP routing, the DRF viewset machinery, the GitHub OAuth login and `auth_github`: transport and identity-provider code. The caller reaches the model as a user id, or as None when unauthenticated.
- The body of `IsOwnerOrStaffOrReadOnly` (src/store/permissions.py is not part of this model): create and delete take its decision as a boolean.
- Book update (PUT/PATCH on a book): plain field writes through DRF, with no logic of the app's own.
- Concurrency, transactions and the atomicity of `get_or_create`: the model is sequential. Duplicate rows for a pair are modelled only through the `MultipleRelations` error they cause.
- `select_related`/`prefetch_related` and the serializer's `reader` list: query-count and output shaping only.
- Rating.SetRating: stores the exact average; the rounding of `rating` to two decimal places by its column is not modelled.
- BookQuery.EndPrice: the exact product; the serializer's rounding to two decimal places is not modelled.
- BookViews.Search: takes the search text already split into terms; DRF's splitting of the parameter on whitespace and commas is not modelled. Case folding covers ASCII letters only.
- BookViews.ParseOrdering: one ordering field only; a comma-separated list of fields is not modelled.
- BookViews.CreateBook: promises a null rating, but the book serializer leaves `rating` writable, so a client-supplied rating is not modelled (see the next line).
- BookViews.ValidInput: blank/length checks and decimal fit only; DRF's whitespace trimming, and the `rating` field the book serializer leaves writable, are not modelled.
- BookViews.ListIsProjectionOfWantedBooks: without `ordering` the queryset has no ORDER BY (views.py:21 sets no default and `Book` has no `Meta.ordering`), so the database may return rows in any order; the model's table order is one admissible order, not a promise of the program.
- RelationView.RelationPatch: the `book` field that the relation serializer also accepts is not modelled; the patch carries rate, like and is_bookmark. A PATCH that moves the caller's row to a book they already have a row for would leave two rows for one pair (no unique constraint exists), so `OnePerPair` would break and every later lookup of that pair would fail with MultipleRelations.
- The `price` filter takes an already parsed decimal; a malformed filter value is not modelled.
- Creating a book as an anonymous user: the permission decision is taken to exclude it.
- Id allocation is modelled as one past the largest id in use; the database's sequence is not modelled.
