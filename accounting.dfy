/**
 Stock accounting: a movie's stock (`numberInStock`) plus its open rentals stays the same.
 Checkout moves one copy from the shelf to a new open rental, return moves it back, and every
 refused or aborted request moves nothing.
 */
module Accounting {
  import opened Store
  import opened Rentals
  import opened Returns

  /** The rental stored under `id` is open and is a rental of the movie `movieId`. */
  predicate OpenFor(rentals: map<Id, Rental>, id: Id, movieId: Id) {
    id in rentals && IsOpen(rentals[id]) && rentals[id].movie.id == movieId
  }

  /** The number of open rentals of `movieId` among the ids below `n`. */
  function OpenBelow(rentals: map<Id, Rental>, movieId: Id, n: nat): (count: nat)
    ensures count <= n
    ensures count == 0 <==> forall k: Id :: k < n ==> !OpenFor(rentals, k, movieId)
    decreases n
  {
    if n == 0 then 0
    else OpenBelow(rentals, movieId, n - 1) + (if OpenFor(rentals, n - 1, movieId) then 1 else 0)
  }

  /** The copies of `movieId` out on open rentals. */
  function OpenRentals(db: Tables, movieId: Id): nat {
    OpenBelow(db.rentals, movieId, db.nextId)
  }

  /**
   Two ledgers that agree on which ids below `n` are open rentals of the movie, except perhaps
   at `id`, have counts that differ by exactly what they hold at `id`.
   */
  lemma {:induction false} OpenBelowExcept(a: map<Id, Rental>, b: map<Id, Rental>, movieId: Id, n: nat, id: Id)
    requires forall k: Id :: k < n && k != id ==> (OpenFor(a, k, movieId) <==> OpenFor(b, k, movieId))
    ensures OpenBelow(b, movieId, n) + (if id < n && OpenFor(a, id, movieId) then 1 else 0)
         == OpenBelow(a, movieId, n) + (if id < n && OpenFor(b, id, movieId) then 1 else 0)
    decreases n
  {
    if n > 0 {
      OpenBelowExcept(a, b, movieId, n - 1, id);
    }
  }

  /** The copies of a movie on the shelf plus the copies out on open rentals. */
  function Copies(db: Tables, movieId: Id): int
    requires movieId in db.movies
  {
    db.movies[movieId].numberInStock + OpenRentals(db, movieId)
  }

  /** Checkout, granted or not, committed or not, keeps the number of copies of every movie. */
  lemma CheckoutKeepsCopies(db: Tables, customerId: Id, movieId: Id, now: Time, commit: bool, mid: Id)
    requires WellFormed(db) && OneRentalPerPair(db.rentals)
    requires mid in db.movies
    ensures Copies(Checkout(db, customerId, movieId, now, commit).1, mid) == Copies(db, mid)
  {
    var out := Checkout(db, customerId, movieId, now, commit);
    var db' := out.1;
    if customerId in db.customers && movieId in db.movies && db.movies[movieId].numberInStock != 0 {
      if NoOpenRental(db.rentals, customerId, movieId) {
        var rest := WithoutPair(db.rentals, customerId, movieId);
        // Only a closed rental of the pair leaves the ledger, so the open count below nextId stays.
        forall k: Id | k < db.nextId
          ensures OpenFor(db.rentals, k, mid) <==> OpenFor(rest, k, mid)
        {
        }
        OpenBelowExcept(db.rentals, rest, mid, db.nextId, db.nextId);
        if commit {
          CheckoutCommitted(db, customerId, movieId, now);
          assert db'.rentals == rest[db.nextId := out.0.rental];
          OpenBelowExcept(rest, db'.rentals, mid, db.nextId, db.nextId);
        } else {
          CheckoutAborted(db, customerId, movieId, now);
        }
      } else {
        var id :| id in db.rentals && Matches(db.rentals[id], customerId, movieId) && IsOpen(db.rentals[id]);
        CheckoutAlreadyRented(db, customerId, movieId, now, commit, id);
      }
    }
  }

  /** Return, granted or not, committed or not, keeps the number of copies of every movie. */
  lemma ReturnKeepsCopies(db: Tables, customerId: Id, movieId: Id, now: Time, fee: int, commit: bool, mid: Id)
    requires WellFormed(db) && OneRentalPerPair(db.rentals)
    requires mid in db.movies
    ensures Copies(ReturnRental(db, customerId, movieId, now, fee, commit).1, mid) == Copies(db, mid)
  {
    var out := ReturnRental(db, customerId, movieId, now, fee, commit);
    var db' := out.1;
    if out.0.Ok? {
      var id := out.0.id;
      LookupFindsOnlyRental(db, customerId, movieId, id);
      ReturnCommitted(db, customerId, movieId, now, fee, id);
      OpenBelowExcept(db.rentals, db'.rentals, mid, db.nextId, id);
    }
  }

  /** One request to either handler, with the outcome of its transaction. */
  datatype Request =
    | CheckoutRequest(customerId: Id, movieId: Id, now: Time, commit: bool)
    | ReturnRequest(customerId: Id, movieId: Id, now: Time, fee: int, commit: bool)

  /** The tables after handling one request. */
  function Step(db: Tables, req: Request): (db': Tables)
    requires WellFormed(db)
    ensures WellFormed(db') && db'.movies.Keys == db.movies.Keys
  {
    match req
    case CheckoutRequest(c, m, now, commit) => Checkout(db, c, m, now, commit).1
    case ReturnRequest(c, m, now, fee, commit) => ReturnRental(db, c, m, now, fee, commit).1
  }

  /** The tables after handling the requests one after the other. */
  function Run(db: Tables, reqs: seq<Request>): (db': Tables)
    requires WellFormed(db)
    ensures WellFormed(db') && db'.movies.Keys == db.movies.Keys
    decreases |reqs|
  {
    if |reqs| == 0 then db else Run(Step(db, reqs[0]), reqs[1..])
  }

  /** Each request keeps the invariants and the number of copies of every movie. */
  lemma StepKeepsCopies(db: Tables, req: Request, mid: Id)
    requires WellFormed(db) && Invariant(db)
    requires mid in db.movies
    ensures Invariant(Step(db, req))
    ensures Copies(Step(db, req), mid) == Copies(db, mid)
  {
    match req
    case CheckoutRequest(c, m, now, commit) =>
      CheckoutPreservesInvariant(db, c, m, now, commit);
      CheckoutKeepsCopies(db, c, m, now, commit, mid);
    case ReturnRequest(c, m, now, fee, commit) =>
      ReturnPreservesInvariant(db, c, m, now, fee, commit);
      ReturnKeepsCopies(db, c, m, now, fee, commit, mid);
  }

  /**
   After any sequence of requests the invariants still hold and every movie has as many copies
   as before, so no more copies are ever out on open rentals than existed to begin with.
   */
  lemma {:induction false} RunKeepsCopies(db: Tables, reqs: seq<Request>, mid: Id)
    requires WellFormed(db) && Invariant(db)
    requires mid in db.movies
    ensures Invariant(Run(db, reqs))
    ensures Copies(Run(db, reqs), mid) == Copies(db, mid)
    ensures OpenRentals(Run(db, reqs), mid) <= Copies(db, mid)
    decreases |reqs|
  {
    if |reqs| > 0 {
      StepKeepsCopies(db, reqs[0], mid);
      RunKeepsCopies(Step(db, reqs[0]), reqs[1..], mid);
    }
  }
}
