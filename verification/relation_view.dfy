/** UserBookRelationView: a PATCH on a book's relation finds or creates the caller's own
    relation to that book (get_object), validates the patch, writes it and lets the
    change detector decide whether the book's rating is recomputed. */
module RelationView {
  import opened Wrappers
  import opened Seqs
  import opened Models
  import opened RateMonitor
  import opened Rating

  datatype RelationError =
    | NotAuthenticated        // rejected by IsAuthenticated before any lookup
    | MissingBook             // the book id of the URL names no book
    | MultipleRelations       // get() found more than one row for the pair
    | InvalidRate(rate: int)  // not one of the RATING choices

  /** The relations keyed on (user, book). */
  function PairOf(user: UserId, book: BookId): Relation -> bool {
    (rel: Relation) => rel.user == user && rel.book == book
  }

  /** Writes an existing row back: every row with its id takes the new field values. */
  function Replace(relations: seq<Relation>, rel: Relation): (r: seq<Relation>)
    ensures |r| == |relations|
    ensures forall i :: 0 <= i < |relations| ==> r[i] == if relations[i].id == rel.id then rel else relations[i]
  {
    seq(|relations|, i requires 0 <= i < |relations| => if relations[i].id == rel.id then rel else relations[i])
  }

  /** UserBookRelation.save on an instance with memory `m`: the row is inserted (no key
      yet) or written back, then the detector runs and, when it fires, the rating of the
      relation's book is recomputed from the relations including the row just written. */
  function SaveRelation(s: Store, rel: Relation, m: Monitor): (r: (Store, SaveResult))
    ensures r.1 == Save(m, rel.rate)
    ensures r.0.users == s.users
    ensures r.0.relations == if m.persisted then Replace(s.relations, rel) else s.relations + [rel]
    ensures r.1.setRatingDone ==> r.0.books == SetRating(s.(relations := r.0.relations), rel.book).books
    ensures !r.1.setRatingDone ==> r.0.books == s.books
  {
    var written := if m.persisted then s.(relations := Replace(s.relations, rel)) else s.(relations := s.relations + [rel]);
    var out := Save(m, rel.rate);
    (if out.setRatingDone then SetRating(written, rel.book) else written, out)
  }

  /** The outcome of get_object: the store afterwards, the caller's relation and the
      memory of the instance that holds it. */
  datatype Resolved = Resolved(store: Store, relation: Relation, monitor: Monitor, created: bool)

  /** get_object: get_or_create keyed on the URL's book id and the caller's id. A found
      row is fetched as a fresh instance; a missing one is created with default fields
      through save, which as a creation always recomputes the book's rating. */
  function Resolve(s: Store, book: BookId, caller: Option<UserId>): (r: Result<Resolved, RelationError>)
    ensures caller.None? ==> r == Failure(NotAuthenticated)
    ensures caller.Some? && Count(s.relations, PairOf(caller.value, book)) > 1 ==> r == Failure(MultipleRelations)
    ensures caller.Some? && Count(s.relations, PairOf(caller.value, book)) == 1 ==> r.Success? && !r.value.created
    ensures caller.Some? && Count(s.relations, PairOf(caller.value, book)) == 0 ==>
      && (r.Success? <==> HasBook(s.books, book))
      && (r.Success? ==> r.value.created)
      && (r.Failure? ==> r.error == MissingBook)
    ensures r.Success? ==> r.value.relation.user == caller.value && r.value.relation.book == book
    ensures r.Success? ==> r.value.store.users == s.users
    ensures r.Success? ==> |r.value.store.relations| >= |s.relations|
    ensures r.Success? ==> r.value.store.relations[..|s.relations|] == s.relations
    ensures r.Success? && !r.value.created ==> r.value.store == s && r.value.relation in s.relations
    ensures r.Success? && r.value.created ==>
      && HasBook(s.books, book)
      && r.value.relation == DefaultRelation(r.value.relation.id, caller.value, book)
      && r.value.store.relations == s.relations + [r.value.relation]
      && r.value.store.books == SetRating(s.(relations := r.value.store.relations), book).books
      && (forall i :: 0 <= i < |s.relations| ==> s.relations[i].id != r.value.relation.id)
      && (forall i :: 0 <= i < |s.relations| ==> !PairOf(caller.value, book)(s.relations[i]))
    ensures r.Success? ==> r.value.monitor == Loaded
  {
    if caller.None? then Failure(NotAuthenticated)
    else
      var user := caller.value;
      var matches := Select(s.relations, PairOf(user, book));
      if |matches| > 1 then Failure(MultipleRelations)
      else if |matches| == 1 then Success(Resolved(s, matches[0], Loaded, false))
      else if !HasBook(s.books, book) then Failure(MissingBook)
      else
        var rel := DefaultRelation(NextRelationId(s.relations), user, book);
        var (t, out) := SaveRelation(s, rel, Unsaved);
        Success(Resolved(t, rel, out.monitor, true))
  }

  /** The creating direction of get_or_create: when the caller has no relation to an
      existing book, the lookup inserts a default row for the pair, with a fresh id. */
  lemma MissingPairIsCreated(s: Store, book: BookId, user: UserId)
    requires HasBook(s.books, book)
    requires forall i :: 0 <= i < |s.relations| ==> !PairOf(user, book)(s.relations[i])
    ensures var r := Resolve(s, book, Some(user));
            && r.Success? && r.value.created
            && r.value.relation.rate.None? && !r.value.relation.like && !r.value.relation.isBookmark
            && r.value.store.relations == s.relations + [r.value.relation]
            && (forall i :: 0 <= i < |s.relations| ==> s.relations[i].id != r.value.relation.id)
  {
    assert Count(s.relations, PairOf(user, book)) == 0;
  }

  /** The fields a PATCH may carry; an absent field is left as it is. `rate` may be set
      to null. */
  datatype RelationPatch = RelationPatch(rate: Option<Option<int>>, like: Option<bool>, isBookmark: Option<bool>)

  function ApplyPatch(rel: Relation, patch: RelationPatch): (r: Relation)
    ensures r.id == rel.id && r.user == rel.user && r.book == rel.book
    ensures r.rate == if patch.rate.Some? then patch.rate.value else rel.rate
    ensures r.like == patch.like.GetOr(rel.like)
    ensures r.isBookmark == patch.isBookmark.GetOr(rel.isBookmark)
  {
    rel.(rate := patch.rate.GetOr(rel.rate),
         like := patch.like.GetOr(rel.like),
         isBookmark := patch.isBookmark.GetOr(rel.isBookmark))
  }

  /** What the serializer rejects: a rate that is not a RATING choice. */
  function PatchError(patch: RelationPatch): (e: Option<RelationError>)
    ensures e.None? <==> patch.rate.None? || ValidRate(patch.rate.value)
  {
    if patch.rate.Some? && patch.rate.value.Some? && !IsRatingChoice(patch.rate.value.value)
    then Some(InvalidRate(patch.rate.value.value))
    else None
  }

  /** A request's effect: the store it leaves behind (effects already committed stay even
      when the request fails) and its result. */
  datatype Response = Response(store: Store, result: Result<Relation, RelationError>)

  /** A PATCH on the caller's relation to `book`: resolve (possibly creating the row),
      validate, then apply and save on the resolved instance. */
  function PatchRelation(s: Store, book: BookId, caller: Option<UserId>, patch: RelationPatch): (r: Response)
    ensures Resolve(s, book, caller).Failure? ==> r == Response(s, Failure(Resolve(s, book, caller).error))
    ensures Resolve(s, book, caller).Success? && PatchError(patch).Some? ==>
      r == Response(Resolve(s, book, caller).value.store, Failure(PatchError(patch).value))
    ensures r.result.Success? ==>
      && r.result.value == ApplyPatch(Resolve(s, book, caller).value.relation, patch)
      && r.result.value.user == caller.value && r.result.value.book == book
      && r.store.users == s.users
    ensures Resolve(s, book, caller).Success? && PatchError(patch).None? ==>
      && r.result.Success?
      && r.store == SaveRelation(Resolve(s, book, caller).value.store, r.result.value, Loaded).0
  {
    match Resolve(s, book, caller)
    case Failure(e) => Response(s, Failure(e))
    case Success(res) =>
      match PatchError(patch)
      case Some(e) => Response(res.store, Failure(e))
      case None =>
        var rel := ApplyPatch(res.relation, patch);
        var (t, _) := SaveRelation(res.store, rel, res.monitor);
        Response(t, Success(rel))
  }

  // ---------------------------------------------------------------- properties

  /** Invariants of the relation table that the write path keeps. */
  predicate TableInvariant(s: Store) {
    && UniqueRelationIds(s.relations)
    && OnePerPair(s.relations)
    && RatesValid(s.relations)
    && RelationsReferToBooks(s)
  }

  lemma SetRatingKeepsBookIds(s: Store, book: BookId, id: BookId)
    ensures HasBook(SetRating(s, book).books, id) <==> HasBook(s.books, id)
  {
    var t := SetRating(s, book);
    if HasBook(s.books, id) {
      var i :| 0 <= i < |s.books| && s.books[i].id == id;
      assert t.books[i].id == id;
    }
    if HasBook(t.books, id) {
      var i :| 0 <= i < |t.books| && t.books[i].id == id;
      assert s.books[i].id == id;
    }
  }

  /** Appending a row with a fresh id, a fresh pair and a valid rate keeps ids unique,
      one relation per pair and every rate valid. */
  lemma AppendKeepsTable(relations: seq<Relation>, rel: Relation)
    requires UniqueRelationIds(relations) && OnePerPair(relations) && RatesValid(relations)
    requires forall i :: 0 <= i < |relations| ==> relations[i].id != rel.id
    requires forall i :: 0 <= i < |relations| ==> !PairOf(rel.user, rel.book)(relations[i])
    requires ValidRate(rel.rate)
    ensures var r := relations + [rel];
            UniqueRelationIds(r) && OnePerPair(r) && RatesValid(r)
  {
  }

  /** get_object keeps ids unique, at most one relation per pair, every rate valid and
      every relation pointing at a book. */
  lemma ResolveKeepsInvariant(s: Store, book: BookId, caller: Option<UserId>)
    requires TableInvariant(s)
    requires Resolve(s, book, caller).Success?
    ensures TableInvariant(Resolve(s, book, caller).value.store)
  {
    var res := Resolve(s, book, caller).value;
    if res.created {
      var t := res.store;
      var rels := t.relations;
      AppendKeepsTable(s.relations, res.relation);
      assert rels == s.relations + [res.relation];
      forall i | 0 <= i < |rels|
        ensures HasBook(t.books, rels[i].book)
      {
        if i < |s.relations| {
          assert rels[i] == s.relations[i];
        }
        assert HasBook(s.books, rels[i].book);
        SetRatingKeepsBookIds(s.(relations := rels), book, rels[i].book);
      }
    }
  }

  /** A relation that exists is returned as it is and nothing is written. */
  lemma ResolveFindsExisting(s: Store, book: BookId, user: UserId, i: int)
    requires OnePerPair(s.relations)
    requires 0 <= i < |s.relations| && s.relations[i].user == user && s.relations[i].book == book
    ensures Resolve(s, book, Some(user)) == Success(Resolved(s, s.relations[i], Loaded, false))
  {
    var p := PairOf(user, book);
    var matches := Select(s.relations, p);
    assert s.relations[i] in matches;
    CountAtMostOne(s.relations, p);
    assert |matches| == 1;
    var j :| 0 <= j < |s.relations| && s.relations[j] == matches[0];
    assert j == i;
  }

  /** A valid patch leaves the relation holding the patched values, stored in the table. */
  lemma PatchStoresPatchedValues(s: Store, book: BookId, user: UserId, patch: RelationPatch)
    requires Resolve(s, book, Some(user)).Success?
    requires PatchError(patch).None?
    ensures var r := PatchRelation(s, book, Some(user), patch);
            && r.result.Success?
            && r.result.value in r.store.relations
            && (patch.rate.Some? ==> r.result.value.rate == patch.rate.value)
            && (patch.like.Some? ==> r.result.value.like == patch.like.value)
            && (patch.isBookmark.Some? ==> r.result.value.isBookmark == patch.isBookmark.value)
  {
    var res := Resolve(s, book, Some(user)).value;
    var rel := ApplyPatch(res.relation, patch);
    var t := SaveRelation(res.store, rel, res.monitor).0;
    assert res.relation in res.store.relations by {
      if res.created {
        assert res.store.relations[|res.store.relations| - 1] == res.relation;
      }
    }
    var i :| 0 <= i < |res.store.relations| && res.store.relations[i] == res.relation;
    assert t.relations[i] == rel;
  }

  /** A patch with a rate outside 1..5 is rejected and no stored rate changes, though
      get_object may already have created the caller's relation with a null rate. */
  lemma InvalidRateChangesNoRate(s: Store, book: BookId, user: UserId, patch: RelationPatch)
    requires Resolve(s, book, Some(user)).Success?
    requires patch.rate.Some? && patch.rate.value.Some? && !(1 <= patch.rate.value.value <= 5)
    ensures var r := PatchRelation(s, book, Some(user), patch);
            && r.result == Failure(InvalidRate(patch.rate.value.value))
            && |r.store.relations| >= |s.relations|
            && (forall i :: 0 <= i < |s.relations| ==> r.store.relations[i] == s.relations[i])
            && (forall i :: |s.relations| <= i < |r.store.relations| ==>
                  r.store.relations[i].rate.None? && r.store.relations[i].user == user)
  {
    var v := patch.rate.value.value;
    RatingChoicesAreOneToFive(v);
    assert PatchError(patch) == Some(InvalidRate(v));
    var res := Resolve(s, book, Some(user)).value;
    assert PatchRelation(s, book, Some(user), patch) == Response(res.store, Failure(InvalidRate(v)));
    if res.created {
      assert res.store.relations == s.relations + [DefaultRelation(res.relation.id, user, book)];
    } else {
      assert res.store == s;
    }
  }

  /** Writing back a row under its own id and keys, with a valid rate, keeps ids unique,
      one relation per pair, every rate valid and every book reference. */
  lemma ReplaceKeepsTable(relations: seq<Relation>, prior: Relation, rel: Relation)
    requires UniqueRelationIds(relations) && OnePerPair(relations) && RatesValid(relations)
    requires prior in relations
    requires rel.id == prior.id && rel.user == prior.user && rel.book == prior.book
    requires ValidRate(rel.rate)
    ensures var r := Replace(relations, rel);
            && UniqueRelationIds(r) && OnePerPair(r) && RatesValid(r)
            && forall i :: 0 <= i < |r| ==> r[i].book == relations[i].book
  {
    var r := Replace(relations, rel);
    forall i | 0 <= i < |r|
      ensures r[i].id == relations[i].id && r[i].user == relations[i].user && r[i].book == relations[i].book
      ensures ValidRate(r[i].rate)
    {
      if relations[i].id == rel.id {
        var k :| 0 <= k < |relations| && relations[k] == prior;
        assert k == i;
      }
    }
  }

  /** Every rate written through this endpoint is valid, so the table keeps its invariant. */
  lemma PatchKeepsInvariant(s: Store, book: BookId, caller: Option<UserId>, patch: RelationPatch)
    requires TableInvariant(s)
    ensures TableInvariant(PatchRelation(s, book, caller, patch).store)
  {
    if Resolve(s, book, caller).Success? {
      ResolveKeepsInvariant(s, book, caller);
      var res := Resolve(s, book, caller).value;
      if PatchError(patch).None? {
        var rel := ApplyPatch(res.relation, patch);
        var before := res.store.relations;
        assert res.relation in before by {
          if res.created {
            assert before[|before| - 1] == res.relation;
          }
        }
        ReplaceKeepsTable(before, res.relation, rel);
        var written := res.store.(relations := Replace(before, rel));
        var t := PatchRelation(s, book, caller, patch).store;
        assert t.relations == written.relations;
        forall i | 0 <= i < |t.relations|
          ensures HasBook(t.books, t.relations[i].book)
        {
          assert HasBook(res.store.books, before[i].book);
          SetRatingKeepsBookIds(written, book, t.relations[i].book);
        }
      }
    }
  }

  /** The instance a patch saves has observed no rate (it was fetched, or created with a
      null rate), so the patch recomputes the rating exactly when the patched relation
      has a rate, whether or not that rate changed. */
  lemma PatchRecomputesIffRatePresent(s: Store, book: BookId, caller: Option<UserId>, patch: RelationPatch)
    requires Resolve(s, book, caller).Success?
    ensures var res := Resolve(s, book, caller).value;
            var rate := ApplyPatch(res.relation, patch).rate;
            Save(res.monitor, rate).setRatingDone <==> rate.Some?
  {
  }

  /** Writing back a fetched row with a valid present rate recomputes its book's rating
      as the average of the book's present rates. */
  lemma RatedWriteRefreshesRating(st: Store, prior: Relation, rel: Relation)
    requires UniqueRelationIds(st.relations) && OnePerPair(st.relations) && RatesValid(st.relations)
    requires prior in st.relations
    requires rel.id == prior.id && rel.user == prior.user && rel.book == prior.book
    requires rel.rate.Some? && ValidRate(rel.rate)
    ensures var t := SaveRelation(st, rel, Loaded).0;
            && Average(t.relations, rel.book).Some?
            && forall i :: 0 <= i < |t.books| && t.books[i].id == rel.book ==>
                 t.books[i].rating == Average(t.relations, rel.book)
  {
    ReplaceKeepsTable(st.relations, prior, rel);
    var written := st.(relations := Replace(st.relations, rel));
    var k :| 0 <= k < |st.relations| && st.relations[k] == prior;
    assert written.relations[k] == rel;
    CountPositive(written.relations, RatedRelationOf(rel.book), k);
    RatedBookGetsAverage(written, rel.book);
  }

  /** After a successful patch that leaves the relation with a rate, the book's rating is
      the average of its present rates. */
  lemma PatchWithRateRefreshesRating(s: Store, book: BookId, user: UserId, patch: RelationPatch)
    requires TableInvariant(s)
    requires Resolve(s, book, Some(user)).Success?
    requires PatchError(patch).None?
    requires ApplyPatch(Resolve(s, book, Some(user)).value.relation, patch).rate.Some?
    ensures var r := PatchRelation(s, book, Some(user), patch);
            && Average(r.store.relations, book).Some?
            && forall i :: 0 <= i < |r.store.books| && r.store.books[i].id == book ==>
                 r.store.books[i].rating == Average(r.store.relations, book)
  {
    var res := Resolve(s, book, Some(user)).value;
    ResolveKeepsInvariant(s, book, Some(user));
    var rel := ApplyPatch(res.relation, patch);
    assert res.relation in res.store.relations by {
      if res.created {
        assert res.store.relations[|res.store.relations| - 1] == res.relation;
      }
    }
    assert PatchRelation(s, book, Some(user), patch).store == SaveRelation(res.store, rel, Loaded).0;
    RatedWriteRefreshesRating(res.store, res.relation, rel);
  }

  /** A PATCH touches only the caller's relation to the book and that book's rating:
      every other relation row (ids are primary keys) and every other book keeps its
      place and its value, so no request writes another user's relation. */
  lemma PatchKeepsOtherRows(s: Store, book: BookId, user: UserId, patch: RelationPatch)
    requires UniqueRelationIds(s.relations)
    ensures var r := PatchRelation(s, book, Some(user), patch);
            && r.store.users == s.users
            && |r.store.relations| >= |s.relations|
            && (forall i :: 0 <= i < |s.relations| && !PairOf(user, book)(s.relations[i]) ==>
                  r.store.relations[i] == s.relations[i])
            && |r.store.books| == |s.books|
            && (forall i :: 0 <= i < |s.books| && s.books[i].id != book ==> r.store.books[i] == s.books[i])
  {
    var r := PatchRelation(s, book, Some(user), patch);
    if Resolve(s, book, Some(user)).Success? && PatchError(patch).None? {
      var res := Resolve(s, book, Some(user)).value;
      var rel := ApplyPatch(res.relation, patch);
      assert r.store == SaveRelation(res.store, rel, Loaded).0;
      assert r.store.relations == Replace(res.store.relations, rel);
      forall i | 0 <= i < |s.relations| && !PairOf(user, book)(s.relations[i])
        ensures r.store.relations[i] == s.relations[i]
      {
        assert res.store.relations[i] == s.relations[i];
        if !res.created {
          var k :| 0 <= k < |s.relations| && s.relations[k] == res.relation;
          assert k != i;
        }
        assert s.relations[i].id != rel.id;
      }
    }
  }

  /** Two users rated book 1 with 5 and 4, and its stored rating is 4.5. */
  const RatedStore: Store := Store(
    map[1 := "user_1", 2 := "user_2"],
    [Book(1, "Test srl1", 100.0, "author1", Some(1), Some(0.5), Some(4.5))],
    [Relation(1, 1, 1, Some(5), true, true), Relation(2, 2, 1, Some(4), true, true)])

  /** The second user sets their rate back to null. */
  const ClearRate: RelationPatch := RelationPatch(Some(None), None, None)

  lemma ClearRateWritesRow()
    ensures PatchRelation(RatedStore, 1, Some(2), ClearRate)
         == Response(RatedStore.(relations := [RatedStore.relations[0], Relation(2, 2, 1, None, true, true)]),
                     Success(Relation(2, 2, 1, None, true, true)))
  {
    var s := RatedStore;
    ResolveFindsExisting(s, 1, 2, 1);
    var r2' := Relation(2, 2, 1, None, true, true);
    assert ApplyPatch(s.relations[1], ClearRate) == r2';
    assert PatchError(ClearRate).None?;
    var saved := SaveRelation(s, r2', Loaded);
    assert !saved.1.setRatingDone;
    assert Replace(s.relations, r2') == [s.relations[0], r2'];
  }

  /** After the clear, the one remaining rate of book 1 is 5. */
  lemma RemainingRateAveragesFive()
    ensures Average([RatedStore.relations[0], Relation(2, 2, 1, None, true, true)], 1) == Some(5.0)
  {
    var rels := [RatedStore.relations[0], Relation(2, 2, 1, None, true, true)];
    assert rels[..1] == [rels[0]] && rels[..1][..0] == [];
    assert PresentRates(rels, 1) == [5];
    assert Sum([5]) == 5;
  }

  /** Setting a rate back to null does not recompute the rating: with rates 5 and 4 the
      stored 4.5 stays although the one remaining rate averages 5. */
  lemma ClearingRateKeepsStaleRating()
    ensures var r := PatchRelation(RatedStore, 1, Some(2), ClearRate);
            && r.result.Success?
            && r.store.books[0].rating == Some(4.5)
            && Average(r.store.relations, 1) == Some(5.0)
  {
    ClearRateWritesRow();
    RemainingRateAveragesFive();
  }

  /** A rate of 10 on a book the caller has no relation to yet is rejected, but the
      relation get_object created before validation stays, with a null rate. */
  lemma InvalidRateStillCreatesRow()
    ensures var s := Store(map[3 := "user3"], [Book(3, "Book 3", 121.0, "Author3", Some(3), None, None)], []);
            var r := PatchRelation(s, 3, Some(3), RelationPatch(Some(Some(10)), None, None));
            && r.result == Failure(InvalidRate(10))
            && |r.store.relations| == 1
            && r.store.relations[0] == DefaultRelation(r.store.relations[0].id, 3, 3)
  {
    var s := Store(map[3 := "user3"], [Book(3, "Book 3", 121.0, "Author3", Some(3), None, None)], []);
    assert HasBook(s.books, 3) by {
      assert s.books[0].id == 3;
    }
    RatingChoicesAreOneToFive(10);
  }
}
