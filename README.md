# Vidly rental lifecycle in Dafny

This is a model of the rental lifecycle of the vidly movie-rental backend. It covers two
handlers:

- Checkout, `POST /api/rentals`, gives a customer a copy of a movie.
- Return, `POST /api/returns`, takes the copy back.

Between them they keep three collections consistent. `customers` is read only. `movies`
holds the stock counts. `rentals` is the ledger, one record per (customer, movie) pair, each
holding copies of the customer's and the movie's fields.

The project has five modules:

- `Store` (store.dfy) holds the records, the `Tables` value with the three collections, the
  business invariants, `Lookup` (the `Rental.lookup` query) and a `Database` class with one map
  field per collection.
- `Rentals` (rentals.dfy) models checkout. `Checkout` is a function giving the reply and the new
  tables. `HandleCheckout` is a method that works step by step on a `Database`, and its contract
  says it ends in the state `Checkout` describes.
- `Returns` (returns.dfy) models return in the same two forms: `ReturnRental` and `HandleReturn`.
- `Lifecycle` (lifecycle.dfy) relates several requests on one pair.
- `Accounting` (accounting.dfy) proves that each movie's stock plus its open rentals is the same
  after any sequence of requests.

Each handler's transaction is one atomic update. A `commit` parameter says whether it commits or
aborts.

Three consequences of the handlers' code are worth stating:

- Checkout deletes the pair's closed rental at routes/rentals.js:30, before and outside the
  transaction, so that rental stays deleted when the transaction aborts.
- The stock guard (routes/rentals.js:22) runs before the open-rental guard
  (routes/rentals.js:27). A second checkout of a pair whose first checkout took the last copy is
  therefore refused with "Movie not in stock.", not "Rental already processed.".
- The replies are the handlers' own message strings ("Invalid customer.", "Return already
  processed.", …) with their status codes.

## Model

| member | source | states |
|---|---|---|
| Store.FindBelow | routes/rentals.js:25 | the match found below `n` is a stored rental of the pair with no matching id between it and `n`; none is returned only when no id below `n` matches |
| Store.Lookup | routes/returns.js:10 | lookup returns a stored rental of the pair and none is a newer match; it returns none exactly when the ledger holds no rental of the pair |
| Store.LookupFindsOnlyRental | routes/rentals.js:25-27 | with one rental per pair, lookup returns exactly that rental |
| Store.AdjustStock | routes/rentals.js:47 | the movie with its stock moved by exactly `delta`, title and rate kept; its effect on checkout is stated by Rentals.CheckoutCommitted |
| Store.Close | routes/returns.js:17 | `rental.return()`: the rental becomes closed at `now` with the given fee, customer and movie snapshots and checkout date kept; its effect on return is stated by Returns.ReturnCommitted |
| Store.WithoutPair | routes/rentals.js:30 | the ledger without the pair keeps every other rental unchanged and drops every rental of the pair |
| Rentals.NewRental | routes/rentals.js:32-39 | the new rental is an open rental of the pair with no fee, dated `now`, copying the customer's id, name and phone and the movie's id, title and rate; its place in the ledger is stated by Rentals.CheckoutCommitted |
| Rentals.Checkout | routes/rentals.js:15-60 | checkout keeps the customers and the set of movies; it changes no movie's stock except the requested one, which drops by one only on a granted reply; a granted reply needs a commit and a stocked, existing movie |
| Rentals.HandleCheckout | routes/rentals.js:15-60 | the step-by-step handler ends in the reply and the state `Checkout` gives, keeps every rental id below the next id, and keeps non-negative stock and one rental per pair |
| Rentals.CheckoutInvalidCustomer | routes/rentals.js:16-17 | an unknown customer gets "Invalid customer." whatever the movie, and nothing changes |
| Rentals.CheckoutInvalidMovie | routes/rentals.js:19-20 | a known customer with an unknown movie gets "Invalid movie." and nothing changes |
| Rentals.CheckoutNotInStock | routes/rentals.js:22-23 | a movie with stock 0 gets "Movie not in stock." whatever the ledger holds, and nothing changes |
| Rentals.CheckoutAlreadyRented | routes/rentals.js:25-28 | an open rental of the pair gets "Rental already processed." and nothing changes |
| Rentals.StaleRentalRemoved | routes/rentals.js:30 | past the guards, deleting the rental lookup found leaves exactly the ledger without the pair |
| Rentals.CheckoutCommitted | routes/rentals.js:32-53 | a committed checkout replies with a new open rental under a fresh id; it copies the customer's id, name and phone and the movie's id, title and rate; the ledger becomes the ledger without the pair plus that rental; the stock drops by exactly one |
| Rentals.CheckoutAborted | routes/rentals.js:30-58 | an aborted checkout replies "Something failed."; there is no insert and no stock change, but the stale closed rental stays deleted |
| Rentals.CheckoutPreservesInvariant | routes/rentals.js:22-47 | checkout keeps all stock non-negative and the ledger at one rental per pair |
| Returns.Restock | routes/returns.js:25-29 | `$inc` adds exactly one to the movie with the requested id, changes no other movie, and does nothing when no movie has that id |
| Returns.ReturnRental | routes/returns.js:9-41 | return keeps the customers, the next id, the set of rental ids and the set of movies; only the requested movie's stock changes, by exactly one more and only on a granted reply; an abort changes nothing |
| Returns.HandleReturn | routes/returns.js:9-41 | the step-by-step handler ends in the reply and the state `ReturnRental` gives, keeps every rental id below the next id, and keeps non-negative stock and one rental per pair |
| Returns.ReturnNotFound | routes/returns.js:10-12 | with no rental of the pair, return gets "Rental not found." and nothing changes |
| Returns.ReturnAlreadyReturned | routes/returns.js:14-15 | when the pair's rental is closed, return gets "Return already processed." and nothing changes |
| Returns.ReturnCommitted | routes/returns.js:17-34 | a committed return replies with that rental closed at the given time with the given fee; its snapshots and checkout date are kept, every other rental is unchanged, and the existing movie gets exactly one copy back |
| Returns.ReturnAborted | routes/returns.js:35-39 | an aborted return replies "Something failed." and nothing changes; the rental stays open |
| Returns.ReturnPreservesInvariant | routes/returns.js:17-29 | return keeps all stock non-negative and the ledger at one rental per pair |
| Lifecycle.CheckoutTwice | routes/rentals.js:22-28 | a second checkout right after a granted one is refused ("Movie not in stock." if the first took the last copy, else "Rental already processed."); it changes nothing, so stock drops by one in total |
| Lifecycle.ReturnTwice | routes/returns.js:14-29 | a second return right after a granted one gets "Return already processed." and changes nothing, so stock rises by one in total |
| Lifecycle.GrantedMeansNoOpenRental | routes/rentals.js:16-28 | a granted checkout had an existing customer and movie and no open rental of the pair |
| Lifecycle.WithoutPairIgnoresPair | routes/rentals.js:30-45 | two ledgers that agree off the pair are the same once the pair is removed |
| Lifecycle.CheckoutReturnCheckout | routes/rentals.js:25-48 | checkout, return and checkout on one pair are all granted; the return closes the first rental; the second checkout replaces it, leaving the other rentals unchanged; stock ends one lower |
| Lifecycle.RoundTripKeepsOtherRentals | routes/returns.js:17-23 | a checkout and the return of its rental leave every rental of other pairs as it was |
| Accounting.OpenBelow | routes/rentals.js:45 | the open-rental count of a movie: the count below `n` is at most `n`, and it is zero exactly when there are none; it counts the open rentals checkout inserts here and return closes at routes/returns.js:23 |
| Accounting.OpenBelowExcept | routes/returns.js:23 | the open-rental count: two ledgers that differ at one id have counts that differ by exactly that id's contribution; used for the rental return closes here and the one checkout inserts at routes/rentals.js:45 |
| Accounting.CheckoutKeepsCopies | routes/rentals.js:44-48 | every checkout outcome keeps each movie's stock plus open rentals: a copy leaves the shelf exactly when an open rental is added |
| Accounting.ReturnKeepsCopies | routes/returns.js:22-29 | every return outcome keeps each movie's stock plus open rentals: a copy returns to the shelf exactly when an open rental closes |
| Accounting.Step | routes/rentals.js:15-60 | handling one request keeps the rental ids below the next id and the set of movies; a checkout request goes to these lines, a return request to routes/returns.js:9-41 |
| Accounting.Run | routes/rentals.js:15-60 | handling a sequence of requests keeps the rental ids below the next id and the set of movies; each request is handled by these lines or by routes/returns.js:9-41 |
| Accounting.StepKeepsCopies | routes/rentals.js:15-60 | one request of either kind keeps the invariants and each movie's stock plus open rentals; covers checkout here and return at routes/returns.js:9-41 |
| Accounting.RunKeepsCopies | routes/rentals.js:15-60 | after any sequence of requests, the invariants hold and each movie's stock plus open rentals is as before; so no more copies are out than existed; covers checkout here and return at routes/returns.js:9-41 |

## Left out

- Express routing, the `auth` and `validate` middleware and HTTP as transport are left out. The
  status codes survive only as the variants of `Response`.
- Joi request validation (`validateReturn`, routes/returns.js:43-50, and the rental schema) is
  left out. The ids arrive already parsed as numbers.
- The customers, genres and auth routes, token generation, password hashing and logging are
  left out; they are outside the rental lifecycle.
- models/rental.js is not part of this model. Two of its helpers are modelled abstractly:
  - `Rental.lookup` returns a matching rental. When several match, the model takes the one with
    the highest id, standing for the most recent. Under the one-rental-per-pair invariant there
    is at most one match, so the choice does not matter.
  - `rental.return()` sets the return date to a `now` parameter and the fee to a `fee`
    parameter. The fee formula is not modelled.
- models/movie.js is not part of this model. A movie has its title, stock and daily rate; the
  genre reference is left out.
- The default `dateOut` of a new rental is the `now` parameter of checkout.
- MongoDB ObjectIds are modelled as a counter `nextId` that only grows. It stands for "a fresh
  id never collides with a stored one".
- The clock, the fee computation and the outcome of the transaction are parameters: `now`, `fee`
  and `commit`. Any failure inside the transaction (routes/rentals.js:44-53,
  routes/returns.js:22-34) is modelled as `commit == false`. The database itself is modelled
  as the three maps, with no parameter for the driver.
- Failures of the database calls outside the transaction are not modelled. These are the reads
  `Customer.findById`, `Movie.findById` and `Rental.lookup` (routes/rentals.js:16, 19, 25 and
  routes/returns.js:10), and the stale delete `Rental.findByIdAndDelete` (routes/rentals.js:30).
  A rejection there reaches the error middleware that `express-async-errors`
  (startup/logging.js:3) installs, and the request ends in an error reply. The model always
  completes these calls. In particular, it cannot produce the outcome where the delete fails and
  the closed rental is still stored.
- Concurrency and isolation between simultaneous requests are left out. Each request is one
  sequential step, and its transaction commits or aborts as a whole.
- The GET endpoints and their `sort("-dateOut")` ordering are left out.
- Stock, daily rental rate and fee are modelled as integers. In the source they are JavaScript
  numbers, and no file in this model limits them to whole numbers; models/movie.js, which would
  hold the schema, is not part of this model. With a fractional stock such as 0.5, the `=== 0`
  guard (routes/rentals.js:22) would not stop the decrement at routes/rentals.js:47 from going
  below zero. So the non-negative stock invariant (CheckoutPreservesInvariant,
  ReturnPreservesInvariant) and the copy count (CheckoutKeepsCopies, RunKeepsCopies) hold for
  whole-number stock only.
- The upper bound of 255 on stock is left out. It is enforced only when movies are created or
  updated, which is outside this model.
- The response body is modelled as the rental's id and record, not as serialised JSON.
- `rental.return()` also changes the in-memory rental when the transaction then aborts. The
  model leaves this out: that object is discarded, and only the stored state and the reply are
  modelled.
