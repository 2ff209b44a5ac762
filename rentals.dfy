/**
 Checkout, the `POST /api/rentals` handler: four guards, removal of a stale closed
 rental of the pair, then one transaction that inserts a snapshot rental and takes one
 copy of the movie out of stock.
 */
module Rentals {
  import opened Store

  /** The rental checkout creates: copies of the customer and movie fields, open, no fee. */
  function NewRental(customerId: Id, customer: Customer, movieId: Id, movie: Movie, now: Time): (r: Rental)
    ensures Matches(r, customerId, movieId) && IsOpen(r) && r.rentalFee.None? && r.dateOut == now
    ensures r.customer.name == customer.name && r.customer.phone == customer.phone
    ensures r.movie.title == movie.title && r.movie.dailyRentalRate == movie.dailyRentalRate
  {
    Rental(
      CustomerRef(customerId, customer.name, customer.phone),
      MovieRef(movieId, movie.title, movie.dailyRentalRate),
      now, None, None)
  }

  /**
   The reply and the new tables after a checkout request for (customerId, movieId) at
   time `now`; `commit` says whether the transaction commits or aborts.
   */
  function Checkout(db: Tables, customerId: Id, movieId: Id, now: Time, commit: bool): (out: (Response, Tables))
    requires WellFormed(db)
    ensures WellFormed(out.1)
    ensures out.1.customers == db.customers
    ensures out.1.movies.Keys == db.movies.Keys
    ensures forall id :: id in db.movies ==>
      out.1.movies[id] == AdjustStock(db.movies[id], if id == movieId && out.0.Ok? then -1 else 0)
    ensures out.0.Ok? ==> commit && movieId in db.movies && db.movies[movieId].numberInStock != 0
  {
    if customerId !in db.customers then (InvalidCustomer, db)
    else if movieId !in db.movies then (InvalidMovie, db)
    else
      var customer := db.customers[customerId];
      var movie := db.movies[movieId];
      if movie.numberInStock == 0 then (MovieNotInStock, db)
      else
        var found := Lookup(db, customerId, movieId);
        if found.Some? && IsOpen(db.rentals[found.value]) then (RentalAlreadyProcessed, db)
        else
          var rentals := if found.Some? then db.rentals - {found.value} else db.rentals;
          var rental := NewRental(customerId, customer, movieId, movie, now);
          if commit then
            (Ok(db.nextId, rental),
             db.(rentals := rentals[db.nextId := rental],
                 movies := db.movies[movieId := AdjustStock(movie, -1)],
                 nextId := db.nextId + 1))
          else
            (SomethingFailed, db.(rentals := rentals))
  }

  /** The handler itself, step by step over the database. */
  method HandleCheckout(db: Database, customerId: Id, movieId: Id, now: Time, commit: bool) returns (resp: Response)
    requires db.Valid()
    modifies db
    ensures db.Valid()
    ensures (resp, db.State()) == Checkout(old(db.State()), customerId, movieId, now, commit)
    ensures Invariant(old(db.State())) ==> Invariant(db.State())
  {
    ghost var before := db.State();
    if Invariant(before) {
      CheckoutPreservesInvariant(before, customerId, movieId, now, commit);
    }
    if customerId !in db.customers {
      return InvalidCustomer;
    }
    var customer := db.customers[customerId];
    if movieId !in db.movies {
      return InvalidMovie;
    }
    var movie := db.movies[movieId];
    if movie.numberInStock == 0 {
      return MovieNotInStock;
    }
    var found := Lookup(db.State(), customerId, movieId);
    if found.Some? && IsOpen(db.rentals[found.value]) {
      return RentalAlreadyProcessed;
    }
    if found.Some? {
      // The stale closed rental is deleted before, and outside, the transaction.
      db.rentals := db.rentals - {found.value};
    }
    var id := db.nextId;
    var rental := NewRental(customerId, customer, movieId, movie, now);
    // The transaction's two writes, staged until it commits.
    var stagedRentals := db.rentals[id := rental];
    movie := AdjustStock(movie, -1);
    var stagedMovies := db.movies[movieId := movie];
    if commit {
      db.rentals, db.movies, db.nextId := stagedRentals, stagedMovies, id + 1;
      resp := Ok(id, rental);
    } else {
      resp := SomethingFailed;
    }
  }

  /** An unknown customer is refused first, whatever the movie, and nothing changes. */
  lemma CheckoutInvalidCustomer(db: Tables, customerId: Id, movieId: Id, now: Time, commit: bool)
    requires WellFormed(db) && customerId !in db.customers
    ensures Checkout(db, customerId, movieId, now, commit) == (InvalidCustomer, db)
  {
  }

  /** A known customer with an unknown movie is refused and nothing changes. */
  lemma CheckoutInvalidMovie(db: Tables, customerId: Id, movieId: Id, now: Time, commit: bool)
    requires WellFormed(db) && customerId in db.customers && movieId !in db.movies
    ensures Checkout(db, customerId, movieId, now, commit) == (InvalidMovie, db)
  {
  }

  /** A movie with no copy in stock is refused, whatever the ledger holds, and nothing changes. */
  lemma CheckoutNotInStock(db: Tables, customerId: Id, movieId: Id, now: Time, commit: bool)
    requires WellFormed(db) && customerId in db.customers && movieId in db.movies
    requires db.movies[movieId].numberInStock == 0
    ensures Checkout(db, customerId, movieId, now, commit) == (MovieNotInStock, db)
  {
  }

  /** An open rental of the pair is refused and no stock is taken. */
  lemma CheckoutAlreadyRented(db: Tables, customerId: Id, movieId: Id, now: Time, commit: bool, id: Id)
    requires WellFormed(db) && OneRentalPerPair(db.rentals)
    requires customerId in db.customers && movieId in db.movies
    requires db.movies[movieId].numberInStock != 0
    requires id in db.rentals && Matches(db.rentals[id], customerId, movieId) && IsOpen(db.rentals[id])
    ensures Checkout(db, customerId, movieId, now, commit) == (RentalAlreadyProcessed, db)
  {
    LookupFindsOnlyRental(db, customerId, movieId, id);
  }

  /** Past the guards, the ledger minus the lookup's closed rental is the ledger without the pair. */
  lemma StaleRentalRemoved(db: Tables, customerId: Id, movieId: Id)
    requires WellFormed(db) && OneRentalPerPair(db.rentals)
    requires NoOpenRental(db.rentals, customerId, movieId)
    ensures var found := Lookup(db, customerId, movieId);
      (if found.Some? then db.rentals - {found.value} else db.rentals)
      == WithoutPair(db.rentals, customerId, movieId)
  {
    var found := Lookup(db, customerId, movieId);
    var rentals := if found.Some? then db.rentals - {found.value} else db.rentals;
    forall k | k in db.rentals
      ensures k in rentals <==> !Matches(db.rentals[k], customerId, movieId)
    {
      if Matches(db.rentals[k], customerId, movieId) {
        LookupFindsOnlyRental(db, customerId, movieId, k);
      }
    }
  }

  /**
   A granted checkout that commits: the reply carries the new open rental, which copies the
   customer's id, name and phone and the movie's id, title and rate; the ledger holds it, under
   a fresh id, in place of any closed rental of the pair; that movie has one copy fewer.
   */
  lemma CheckoutCommitted(db: Tables, customerId: Id, movieId: Id, now: Time)
    requires WellFormed(db) && OneRentalPerPair(db.rentals)
    requires customerId in db.customers && movieId in db.movies
    requires db.movies[movieId].numberInStock != 0
    requires NoOpenRental(db.rentals, customerId, movieId)
    ensures var out := Checkout(db, customerId, movieId, now, true);
      var resp, db' := out.0, out.1;
      var customer, movie := db.customers[customerId], db.movies[movieId];
      && resp.Ok?
      && resp.id == db.nextId && resp.id !in db.rentals
      && resp.rental.customer == CustomerRef(customerId, customer.name, customer.phone)
      && resp.rental.movie == MovieRef(movieId, movie.title, movie.dailyRentalRate)
      && resp.rental.dateOut == now
      && IsOpen(resp.rental) && resp.rental.rentalFee.None?
      && db'.rentals == WithoutPair(db.rentals, customerId, movieId)[resp.id := resp.rental]
      && db'.movies[movieId].numberInStock == movie.numberInStock - 1
  {
    StaleRentalRemoved(db, customerId, movieId);
  }

  /**
   A granted checkout whose transaction aborts: "Something failed.", no rental inserted, no
   stock taken; a closed rental of the pair that was deleted before the transaction stays deleted.
   */
  lemma CheckoutAborted(db: Tables, customerId: Id, movieId: Id, now: Time)
    requires WellFormed(db) && OneRentalPerPair(db.rentals)
    requires customerId in db.customers && movieId in db.movies
    requires db.movies[movieId].numberInStock != 0
    requires NoOpenRental(db.rentals, customerId, movieId)
    ensures Checkout(db, customerId, movieId, now, false)
      == (SomethingFailed, db.(rentals := WithoutPair(db.rentals, customerId, movieId)))
  {
    StaleRentalRemoved(db, customerId, movieId);
  }

  /** Checkout keeps stock non-negative and the ledger at one rental per pair. */
  lemma CheckoutPreservesInvariant(db: Tables, customerId: Id, movieId: Id, now: Time, commit: bool)
    requires WellFormed(db) && Invariant(db)
    ensures Invariant(Checkout(db, customerId, movieId, now, commit).1)
  {
    var out := Checkout(db, customerId, movieId, now, commit);
    var resp, db' := out.0, out.1;
    if customerId in db.customers && movieId in db.movies && db.movies[movieId].numberInStock != 0
      && NoOpenRental(db.rentals, customerId, movieId)
    {
      if commit {
        CheckoutCommitted(db, customerId, movieId, now);
        forall i, j | i in db'.rentals && j in db'.rentals && SamePair(db'.rentals[i], db'.rentals[j])
          ensures i == j
        {
          if i != resp.id && j != resp.id {
            assert db'.rentals[i] == db.rentals[i] && db'.rentals[j] == db.rentals[j];
          }
        }
      } else {
        CheckoutAborted(db, customerId, movieId, now);
      }
    } else if customerId in db.customers && movieId in db.movies && db.movies[movieId].numberInStock != 0 {
      var id :| id in db.rentals && Matches(db.rentals[id], customerId, movieId) && IsOpen(db.rentals[id]);
      CheckoutAlreadyRented(db, customerId, movieId, now, commit, id);
    }
  }
}
