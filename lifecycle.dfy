/**
 The rental lifecycle across several requests: checkout and return on the same pair.
 */
module Lifecycle {
  import opened Store
  import opened Rentals
  import opened Returns

  /** A second checkout of a pair that was just granted is refused and takes no stock. */
  lemma CheckoutTwice(db: Tables, customerId: Id, movieId: Id, now1: Time, now2: Time, commit2: bool)
    requires WellFormed(db) && Invariant(db)
    requires Checkout(db, customerId, movieId, now1, true).0.Ok?
    ensures var first := Checkout(db, customerId, movieId, now1, true);
      var second := Checkout(first.1, customerId, movieId, now2, commit2);
      var db1, r2, db2 := first.1, second.0, second.1;
      && r2 == (if db.movies[movieId].numberInStock == 1 then MovieNotInStock else RentalAlreadyProcessed)
      && db2 == db1
      && db2.movies[movieId].numberInStock == db.movies[movieId].numberInStock - 1
  {
    var out := Checkout(db, customerId, movieId, now1, true);
    var r1, db1 := out.0, out.1;
    GrantedMeansNoOpenRental(db, customerId, movieId, now1, true);
    CheckoutCommitted(db, customerId, movieId, now1);
    CheckoutPreservesInvariant(db, customerId, movieId, now1, true);
    if db1.movies[movieId].numberInStock != 0 {
      CheckoutAlreadyRented(db1, customerId, movieId, now2, commit2, r1.id);
    }
  }

  /** Returning a pair twice puts one copy back in total; the second return is refused. */
  lemma ReturnTwice(db: Tables, customerId: Id, movieId: Id, now1: Time, fee1: int, now2: Time, fee2: int, commit2: bool)
    requires WellFormed(db) && Invariant(db)
    requires ReturnRental(db, customerId, movieId, now1, fee1, true).0.Ok?
    ensures var first := ReturnRental(db, customerId, movieId, now1, fee1, true);
      var second := ReturnRental(first.1, customerId, movieId, now2, fee2, commit2);
      var db1, r2, db2 := first.1, second.0, second.1;
      && r2 == ReturnAlreadyProcessed
      && db2 == db1
      && (movieId in db.movies ==>
            db2.movies[movieId].numberInStock == db.movies[movieId].numberInStock + 1)
  {
    var out := ReturnRental(db, customerId, movieId, now1, fee1, true);
    var r1, db1 := out.0, out.1;
    var id := Lookup(db, customerId, movieId).value;
    ReturnCommitted(db, customerId, movieId, now1, fee1, id);
    ReturnPreservesInvariant(db, customerId, movieId, now1, fee1, true);
    ReturnAlreadyReturned(db1, customerId, movieId, now2, fee2, commit2, id);
  }

  /** A granted checkout found no open rental of the pair. */
  lemma GrantedMeansNoOpenRental(db: Tables, customerId: Id, movieId: Id, now: Time, commit: bool)
    requires WellFormed(db) && OneRentalPerPair(db.rentals)
    requires Checkout(db, customerId, movieId, now, commit).0.Ok?
    ensures customerId in db.customers && movieId in db.movies
    ensures NoOpenRental(db.rentals, customerId, movieId)
  {
    if !NoOpenRental(db.rentals, customerId, movieId) {
      var id :| id in db.rentals && Matches(db.rentals[id], customerId, movieId) && IsOpen(db.rentals[id]);
      CheckoutAlreadyRented(db, customerId, movieId, now, commit, id);
    }
  }

  /** Changing only rentals of the pair leaves the ledger without the pair as it was. */
  lemma WithoutPairIgnoresPair(a: map<Id, Rental>, b: map<Id, Rental>, customerId: Id, movieId: Id)
    requires forall k :: k in a && !Matches(a[k], customerId, movieId) ==> k in b && b[k] == a[k]
    requires forall k :: k in b && !Matches(b[k], customerId, movieId) ==> k in a && a[k] == b[k]
    ensures WithoutPair(a, customerId, movieId) == WithoutPair(b, customerId, movieId)
  {
  }

  /**
   Checkout, return, checkout again on one pair: all three are granted, the first rental is
   closed by the return and replaced by the second, and the movie ends one copy down.
   */
  lemma CheckoutReturnCheckout(db: Tables, customerId: Id, movieId: Id, t1: Time, t2: Time, fee: int, t3: Time)
    requires WellFormed(db) && Invariant(db)
    requires customerId in db.customers && movieId in db.movies
    requires db.movies[movieId].numberInStock != 0
    requires NoOpenRental(db.rentals, customerId, movieId)
    ensures Checkout(db, customerId, movieId, t1, true).0.Ok?
    ensures var first := Checkout(db, customerId, movieId, t1, true);
      var back := ReturnRental(first.1, customerId, movieId, t2, fee, true);
      back.0 == Ok(first.0.id, Close(first.0.rental, t2, fee))
    ensures var back := ReturnRental(Checkout(db, customerId, movieId, t1, true).1, customerId, movieId, t2, fee, true);
      var again := Checkout(back.1, customerId, movieId, t3, true);
      && again.0.Ok?
      && back.0.id !in again.1.rentals
      && again.1.rentals == WithoutPair(db.rentals, customerId, movieId)[again.0.id := again.0.rental]
      && again.1.movies[movieId].numberInStock == db.movies[movieId].numberInStock - 1
  {
    var first := Checkout(db, customerId, movieId, t1, true);
    CheckoutCommitted(db, customerId, movieId, t1);
    CheckoutPreservesInvariant(db, customerId, movieId, t1, true);
    var id1, db1 := first.0.id, first.1;
    var back := ReturnRental(db1, customerId, movieId, t2, fee, true);
    ReturnCommitted(db1, customerId, movieId, t2, fee, id1);
    ReturnPreservesInvariant(db1, customerId, movieId, t2, fee, true);
    var db2 := back.1;
    assert NoOpenRental(db2.rentals, customerId, movieId) by {
      forall k | k in db2.rentals && Matches(db2.rentals[k], customerId, movieId)
        ensures !IsOpen(db2.rentals[k])
      {
        assert SamePair(db2.rentals[k], db2.rentals[id1]);
      }
    }
    CheckoutCommitted(db2, customerId, movieId, t3);
    RoundTripKeepsOtherRentals(db, customerId, movieId, t1, t2, fee);
  }

  /** A checkout and the return of its rental leave every rental of other pairs as it was. */
  lemma RoundTripKeepsOtherRentals(db: Tables, customerId: Id, movieId: Id, t1: Time, t2: Time, fee: int)
    requires WellFormed(db) && Invariant(db)
    requires customerId in db.customers && movieId in db.movies
    requires db.movies[movieId].numberInStock != 0
    requires NoOpenRental(db.rentals, customerId, movieId)
    ensures var db1 := Checkout(db, customerId, movieId, t1, true).1;
      WithoutPair(ReturnRental(db1, customerId, movieId, t2, fee, true).1.rentals, customerId, movieId)
      == WithoutPair(db.rentals, customerId, movieId)
  {
    var first := Checkout(db, customerId, movieId, t1, true);
    CheckoutCommitted(db, customerId, movieId, t1);
    var id1, db1 := first.0.id, first.1;
    ReturnCommitted(db1, customerId, movieId, t2, fee, id1);
    var db2 := ReturnRental(db1, customerId, movieId, t2, fee, true).1;
    WithoutPairIgnoresPair(db.rentals, db1.rentals, customerId, movieId);
    WithoutPairIgnoresPair(db1.rentals, db2.rentals, customerId, movieId);
  }
}
