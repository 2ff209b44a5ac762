/**
 The data shared by the rental handlers: the customers, movies and rentals
 collections, the records they hold, and the one query both handlers use,
 lookup of a rental by its (customer, movie) pair.
 */
module Store {

  datatype Option<T> = None | Some(value: T)

  /** A document id (a MongoDB ObjectId). */
  type Id = nat

  /** A point in time, in milliseconds. */
  type Time = int

  datatype Customer = Customer(name: string, phone: string, isGold: bool)

  /** A movie as stored in the catalog; the genre reference is not modelled. */
  datatype Movie = Movie(title: string, numberInStock: int, dailyRentalRate: int)

  /** The customer fields a rental copies at checkout. */
  datatype CustomerRef = CustomerRef(id: Id, name: string, phone: string)

  /** The movie fields a rental copies at checkout. */
  datatype MovieRef = MovieRef(id: Id, title: string, dailyRentalRate: int)

  /** A rental document: owned copies of the customer and the movie, and the return data. */
  datatype Rental = Rental(
    customer: CustomerRef,
    movie: MovieRef,
    dateOut: Time,
    dateReturned: Option<Time>,
    rentalFee: Option<int>)

  /**
   What a handler sends back. `Ok` is the 200 reply with the rental body; the others are
   "Invalid customer.", "Invalid movie.", "Movie not in stock.", "Rental already processed."
   (400), "Rental not found." (404), "Return already processed." (400) and "Something failed." (500).
   */
  datatype Response =
    | Ok(id: Id, rental: Rental)
    | InvalidCustomer
    | InvalidMovie
    | MovieNotInStock
    | RentalAlreadyProcessed
    | RentalNotFound
    | ReturnAlreadyProcessed
    | SomethingFailed

  /** The three collections; `nextId` is the next id the database hands to a new rental. */
  datatype Tables = Tables(
    customers: map<Id, Customer>,
    movies: map<Id, Movie>,
    rentals: map<Id, Rental>,
    nextId: Id)

  predicate Matches(r: Rental, customerId: Id, movieId: Id) {
    r.customer.id == customerId && r.movie.id == movieId
  }

  /** A rental without a return date is open; one with a return date is closed. */
  predicate IsOpen(r: Rental) {
    r.dateReturned.None?
  }

  predicate SamePair(a: Rental, b: Rental) {
    a.customer.id == b.customer.id && a.movie.id == b.movie.id
  }

  /** Every rental id was handed out before: new ids never collide with stored ones. */
  predicate WellFormed(db: Tables) {
    forall id :: id in db.rentals ==> id < db.nextId
  }

  predicate StockNonNegative(movies: map<Id, Movie>) {
    forall id :: id in movies ==> movies[id].numberInStock >= 0
  }

  /** The ledger holds at most one rental, open or closed, per (customer, movie) pair. */
  predicate OneRentalPerPair(rentals: map<Id, Rental>) {
    forall i, j :: i in rentals && j in rentals && SamePair(rentals[i], rentals[j]) ==> i == j
  }

  /** The business invariants the handlers keep. */
  predicate Invariant(db: Tables) {
    StockNonNegative(db.movies) && OneRentalPerPair(db.rentals)
  }

  predicate NoOpenRental(rentals: map<Id, Rental>, customerId: Id, movieId: Id) {
    forall id :: id in rentals && Matches(rentals[id], customerId, movieId) ==> !IsOpen(rentals[id])
  }

  /** The ledger without any rental of the pair. */
  function WithoutPair(rentals: map<Id, Rental>, customerId: Id, movieId: Id): (r: map<Id, Rental>)
    ensures forall id :: id in r <==> id in rentals && !Matches(rentals[id], customerId, movieId)
    ensures forall id :: id in r ==> r[id] == rentals[id]
  {
    map id | id in rentals && !Matches(rentals[id], customerId, movieId) :: rentals[id]
  }

  /** The movie with its stock moved by `delta`, every other field kept. */
  function AdjustStock(movie: Movie, delta: int): (r: Movie)
    ensures r.numberInStock == movie.numberInStock + delta
    ensures r.title == movie.title && r.dailyRentalRate == movie.dailyRentalRate
  {
    movie.(numberInStock := movie.numberInStock + delta)
  }

  /** The matching rental with the highest id below `n`, if any. */
  function FindBelow(rentals: map<Id, Rental>, customerId: Id, movieId: Id, n: nat): (found: Option<Id>)
    ensures found.Some? ==>
      found.value < n && found.value in rentals && Matches(rentals[found.value], customerId, movieId)
    ensures found.Some? ==>
      forall k :: found.value < k < n && k in rentals ==> !Matches(rentals[k], customerId, movieId)
    ensures found.None? ==>
      forall k :: k < n && k in rentals ==> !Matches(rentals[k], customerId, movieId)
    decreases n
  {
    if n == 0 then None
    else if n - 1 in rentals && Matches(rentals[n - 1], customerId, movieId) then Some(n - 1)
    else FindBelow(rentals, customerId, movieId, n - 1)
  }

  /**
   `Rental.lookup(customerId, movieId)`: a rental of the pair, or none. When several
   match, the most recently created one (the highest id) is chosen.
   */
  function Lookup(db: Tables, customerId: Id, movieId: Id): (found: Option<Id>)
    requires WellFormed(db)
    ensures found.Some? ==> found.value in db.rentals && Matches(db.rentals[found.value], customerId, movieId)
    ensures found.None? <==> forall k :: k in db.rentals ==> !Matches(db.rentals[k], customerId, movieId)
    ensures found.Some? ==>
      forall k :: k in db.rentals && found.value < k ==> !Matches(db.rentals[k], customerId, movieId)
  {
    FindBelow(db.rentals, customerId, movieId, db.nextId)
  }

  /** With one rental per pair, lookup returns exactly the pair's rental. */
  lemma LookupFindsOnlyRental(db: Tables, customerId: Id, movieId: Id, id: Id)
    requires WellFormed(db) && OneRentalPerPair(db.rentals)
    requires id in db.rentals && Matches(db.rentals[id], customerId, movieId)
    ensures Lookup(db, customerId, movieId) == Some(id)
  {
    var found := Lookup(db, customerId, movieId);
    assert found.Some?;
    assert SamePair(db.rentals[found.value], db.rentals[id]);
  }

  /**
   `rental.return()`: the rental closed at `now`. The fee it computes is not part of this
   model; it arrives as `fee`.
   */
  function Close(r: Rental, now: Time, fee: int): (closed: Rental)
    ensures !IsOpen(closed) && closed.dateReturned == Some(now) && closed.rentalFee == Some(fee)
    ensures SamePair(closed, r)
    ensures closed.customer == r.customer && closed.movie == r.movie && closed.dateOut == r.dateOut
  {
    r.(dateReturned := Some(now), rentalFee := Some(fee))
  }

  /** The database the handlers read and write, one map per collection. */
  class Database {
    var customers: map<Id, Customer>
    var movies: map<Id, Movie>
    var rentals: map<Id, Rental>
    var nextId: Id

    function State(): Tables
      reads this
    {
      Tables(customers, movies, rentals, nextId)
    }

    predicate Valid()
      reads this
    {
      WellFormed(State())
    }

    /** A database holding the given collections and an empty ledger. */
    constructor (customers: map<Id, Customer>, movies: map<Id, Movie>)
      ensures Valid()
      ensures State() == Tables(customers, movies, map[], 0)
    {
      this.customers := customers;
      this.movies := movies;
      this.rentals := map[];
      this.nextId := 0;
    }
  }
}
