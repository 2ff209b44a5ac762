/**
 Return, the `POST /api/returns` handler: look up the pair's rental, refuse a missing or
 already closed one, close it, then one transaction that saves the closed rental and puts
 one copy of the live movie back in stock.
 */
module Returns {
  import opened Store

  /** The movies after `$inc: { numberInStock: 1 }` on `movieId`; an unknown id matches nothing. */
  function Restock(movies: map<Id, Movie>, movieId: Id): (r: map<Id, Movie>)
    ensures r.Keys == movies.Keys
    ensures forall id :: id in movies ==>
      r[id] == AdjustStock(movies[id], if id == movieId then 1 else 0)
  {
    if movieId in movies then movies[movieId := AdjustStock(movies[movieId], 1)] else movies
  }

  /**
   The reply and the new tables after a return request for (customerId, movieId) at time
   `now`; `fee` is the fee `rental.return()` computes, `commit` whether the transaction commits.
   */
  function ReturnRental(db: Tables, customerId: Id, movieId: Id, now: Time, fee: int, commit: bool)
    : (out: (Response, Tables))
    requires WellFormed(db)
    ensures WellFormed(out.1)
    ensures out.1.customers == db.customers && out.1.nextId == db.nextId
    ensures out.1.rentals.Keys == db.rentals.Keys
    ensures out.1.movies.Keys == db.movies.Keys
    ensures forall id :: id in db.movies ==>
      out.1.movies[id] == AdjustStock(db.movies[id], if id == movieId && out.0.Ok? then 1 else 0)
    ensures !commit ==> out.1 == db
  {
    match Lookup(db, customerId, movieId)
    case None => (RentalNotFound, db)
    case Some(id) =>
      var rental := db.rentals[id];
      if rental.dateReturned.Some? then (ReturnAlreadyProcessed, db)
      else
        var closed := Close(rental, now, fee);
        if commit then
          (Ok(id, closed), db.(rentals := db.rentals[id := closed], movies := Restock(db.movies, movieId)))
        else
          (SomethingFailed, db)
  }

  /** The handler itself, step by step over the database. */
  method HandleReturn(db: Database, customerId: Id, movieId: Id, now: Time, fee: int, commit: bool)
    returns (resp: Response)
    requires db.Valid()
    modifies db
    ensures db.Valid()
    ensures (resp, db.State()) == ReturnRental(old(db.State()), customerId, movieId, now, fee, commit)
    ensures Invariant(old(db.State())) ==> Invariant(db.State())
  {
    ghost var before := db.State();
    if Invariant(before) {
      ReturnPreservesInvariant(before, customerId, movieId, now, fee, commit);
    }
    var found := Lookup(db.State(), customerId, movieId);
    if found.None? {
      return RentalNotFound;
    }
    var id := found.value;
    var rental := db.rentals[id];
    if rental.dateReturned.Some? {
      return ReturnAlreadyProcessed;
    }
    rental := Close(rental, now, fee);
    // The transaction's two writes, staged until it commits.
    var stagedRentals := db.rentals[id := rental];
    var stagedMovies := db.movies;
    if movieId in stagedMovies {
      stagedMovies := stagedMovies[movieId := AdjustStock(stagedMovies[movieId], 1)];
    }
    if commit {
      db.rentals, db.movies := stagedRentals, stagedMovies;
      resp := Ok(id, rental);
    } else {
      resp := SomethingFailed;
    }
  }

  /** With no rental of the pair, the return is refused and nothing changes. */
  lemma ReturnNotFound(db: Tables, customerId: Id, movieId: Id, now: Time, fee: int, commit: bool)
    requires WellFormed(db)
    requires forall id :: id in db.rentals ==> !Matches(db.rentals[id], customerId, movieId)
    ensures ReturnRental(db, customerId, movieId, now, fee, commit) == (RentalNotFound, db)
  {
  }

  /** When the pair's rental is already closed, the return is refused and nothing changes. */
  lemma ReturnAlreadyReturned(db: Tables, customerId: Id, movieId: Id, now: Time, fee: int, commit: bool, id: Id)
    requires WellFormed(db) && OneRentalPerPair(db.rentals)
    requires id in db.rentals && Matches(db.rentals[id], customerId, movieId) && !IsOpen(db.rentals[id])
    ensures ReturnRental(db, customerId, movieId, now, fee, commit) == (ReturnAlreadyProcessed, db)
  {
    LookupFindsOnlyRental(db, customerId, movieId, id);
  }

  /**
   A return of the pair's open rental that commits: the reply carries that rental, now closed
   at `now` with its snapshots and checkout date untouched; no other rental changes; the live
   movie with the requested id gets one copy back.
   */
  lemma ReturnCommitted(db: Tables, customerId: Id, movieId: Id, now: Time, fee: int, id: Id)
    requires WellFormed(db) && OneRentalPerPair(db.rentals)
    requires id in db.rentals && Matches(db.rentals[id], customerId, movieId) && IsOpen(db.rentals[id])
    ensures var out := ReturnRental(db, customerId, movieId, now, fee, true);
      var resp, db' := out.0, out.1;
      var before := db.rentals[id];
      && resp.Ok? && resp.id == id && db'.rentals[id] == resp.rental
      && resp.rental.dateReturned == Some(now) && resp.rental.rentalFee == Some(fee)
      && resp.rental.customer == before.customer && resp.rental.movie == before.movie
      && resp.rental.dateOut == before.dateOut
      && (forall k :: k in db.rentals && k != id ==> db'.rentals[k] == db.rentals[k])
      && (movieId in db.movies ==>
            db'.movies[movieId].numberInStock == db.movies[movieId].numberInStock + 1)
  {
    LookupFindsOnlyRental(db, customerId, movieId, id);
  }

  /** A return of an open rental whose transaction aborts: "Something failed.", the rental stays open. */
  lemma ReturnAborted(db: Tables, customerId: Id, movieId: Id, now: Time, fee: int, id: Id)
    requires WellFormed(db) && OneRentalPerPair(db.rentals)
    requires id in db.rentals && Matches(db.rentals[id], customerId, movieId) && IsOpen(db.rentals[id])
    ensures ReturnRental(db, customerId, movieId, now, fee, false) == (SomethingFailed, db)
  {
    LookupFindsOnlyRental(db, customerId, movieId, id);
  }

  /** Return keeps stock non-negative and the ledger at one rental per pair. */
  lemma ReturnPreservesInvariant(db: Tables, customerId: Id, movieId: Id, now: Time, fee: int, commit: bool)
    requires WellFormed(db) && Invariant(db)
    ensures Invariant(ReturnRental(db, customerId, movieId, now, fee, commit).1)
  {
    var out := ReturnRental(db, customerId, movieId, now, fee, commit);
    var resp, db' := out.0, out.1;
    if resp.Ok? {
      forall i, j | i in db'.rentals && j in db'.rentals && SamePair(db'.rentals[i], db'.rentals[j])
        ensures i == j
      {
        assert SamePair(db'.rentals[i], db.rentals[i]) && SamePair(db'.rentals[j], db.rentals[j]);
      }
    }
  }
}
