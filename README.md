# BookCourier server: a Dafny model of its route handlers

BookCourier is the backend of a book marketplace. Customers order books,
sellers ("librarians") list books and fulfil orders, and an admin grants roles.
Its single source file `index.js` wires an Express app to a MongoDB database
with four collections: `books_all`, `orders`, `users` and `librarianRequests`.
It also uses Stripe for checkout sessions and Firebase for identity tokens.

The logic lives in the route handlers. This project models each of them over
in-memory collections.

- `Http` (`http.dfy`) holds the status codes and the `Option` and `Result` wrappers.
- `Text` (`text.dfy`) models JavaScript's `split` on one character and its inverse `join`.
  It also gives the date part of an ISO timestamp, `split("T")[0]`.
- `Auth` (`auth.dfy`) models the `verifyJWT` middleware. The token is the second
  space-separated piece of the `Authorization` header. A missing or empty token gets 401.
  Firebase's `verifyIdToken` is an oracle parameter `verify: string -> Option<string>`.
  It maps a token to an email, or to a failure, which also gets 401.
- `Documents` (`documents.dfy`) models the MongoDB operations the handlers use.
  Documents are maps from field names to JSON-like values. Filters are equality
  conditions on dotted paths, where a null also matches a missing field.
  It covers `find`, `findOne`, `updateOne` with `$set`, `deleteOne` and projection.
  Ids are abstract keys handed out in increasing order, so "the first match"
  means "the match with the least id".
- `Server` (`server.dfy`) holds the class `BookCourier`. Its fields are the four
  collections and the id counter. It has one method per handler that writes, and
  one function per read handler. The object invariant `Valid()` says that every id
  is below the counter, that no two librarian requests carry the same email, and
  that no two users carry the same email.
  The module also has lemmas about sequences of handler calls.

The model does what the source does, and no more:

- Status updates store any value, with no transition guard.
- Cancel works from any state.
- `payment-success` writes its fields unconditionally, with no compare-and-set.
- The seller and order routes make no ownership checks.

Lemmas state these gaps as facts. `StatusUpdateReopensOrder` shows that a
cancelled or delivered order can be set back to "pending".
`SecondSessionOverwritesPayment` shows that a second session overwrites the
transaction id. The model adds no transition guard, compare-and-set or
ownership check that the code lacks.

Some properties do hold in the source, because no handler ever writes the fields
concerned:

- a paid order stays paid;
- an order's customer, seller and order date never change;
- orders are never deleted.

`HistoryKept` states these, and every order handler ensures it.

`payment-success` answers 200 even when no order has the id in the session's
metadata. The model keeps that behaviour: the update then matches nothing.

Undefined request-body fields are written as null, which is what the MongoDB
driver writes by default. `Documents.Field` gives that reading.

## Model

| member | source | states |
|---|---|---|
| `Text.Split` | index.js:66 | the pieces are separator-free, there is always at least one, and there is more than one exactly when the separator occurs |
| `Text.JoinSplit` | index.js:66 | joining the pieces of a split gives back the string |
| `Text.SplitJoin` | index.js:66 | splitting a join of separator-free pieces gives back the pieces |
| `Text.DatePart` | index.js:142 | `split("T")[0]` is the longest prefix without a "T": the whole string, or the prefix followed by "T" |
| `Text.DatePartOfTimestamp` | index.js:142 | for `date + "T" + time` with a T-free date, the order date is `date` |
| `Auth.TokenPart` | index.js:66 | `authorization?.split(" ")[1]` is defined exactly when the header exists and has a space, and it contains no space |
| `Auth.Authenticate` | index.js:65-79 | succeeds exactly when the token is present, non-empty and accepted by the provider, with the provider's email; every failure is 401 |
| `Auth.BearerToken` | index.js:66 | `scheme + " " + token` yields exactly `token`, also with further pieces after it |
| `Auth.RefusedHeaders` | index.js:66-69 | a missing header, a header without a space, and `"Bearer "` (empty token) all get 401 whatever the provider says |
| `Documents.Field` | index.js:203-207 | a body field reads as null exactly when it is absent or null, and as its value otherwise |
| `Documents.GetPath` | index.js:106 | a path that resolves starts with an existing field, passes through embedded documents only, and a one-step path is the field itself |
| `Documents.GetPathTwoSteps` | index.js:162 | `customer.email` (any two-step path) reaches a value exactly when the first field is an embedded document holding the second field |
| `Documents.Holds` | index.js:305-309 | a top-level condition holds exactly when the field, read as null when absent, equals the filter value; a non-null value must be found at the path |
| `Documents.HoldsTopLevel` | index.js:374 | `{key: v}` holds exactly when the field equals `v`, where a null `v` also matches a missing field |
| `Documents.Find` | index.js:94 | `find(q)` returns exactly the matching documents, unchanged, under their ids |
| `Documents.FindOne` | index.js:309 | `findOne(q)` returns a matching document with no matching document before it, and nothing exactly when none matches |
| `Documents.FindOneNoneIffFindEmpty` | index.js:309 | `findOne` finds nothing exactly when `find` returns nothing |
| `Documents.SetFields` | index.js:118 | `$set` writes each given field and keeps every other field |
| `Documents.UpdateById` | index.js:116-119 | `updateOne({_id}, {$set})` changes only that document, keeps the key set, and is a no-op for an unknown id |
| `Documents.UpdateOne` | index.js:349-352 | `updateOne(filter, {$set})` applies the `$set` to the first match only, and to nothing when none matches |
| `Documents.DeleteOne` | index.js:427 | `deleteOne(filter)` removes at most one document, a matching one with no match before it (the `findOne` result), and keeps every id exactly when none matches |
| `Documents.Project` | index.js:333 | a projection keeps exactly the listed fields that exist, with their values |
| `Documents.UpdateByIdIdempotent` | index.js:275-284 | repeating a `$set` of fixed values leaves the same collection as doing it once |
| `Documents.UpdateByIdLastWins` | index.js:205-208 | of two `$set`s where the later writes every field of the earlier, the later decides the result |
| `Documents.SetFieldsKeepsHolds` | index.js:278-282 | a `$set` that does not write the field a condition reads leaves the condition's verdict unchanged |
| `Server.EmailIs` | index.js:305-307 | `{email: v}` matches exactly the documents whose email is `v`; an undefined `v` also matches those without an email |
| `Server.PublishedFilter` | index.js:94 | `{status: "published"}` matches exactly the documents with that status |
| `Server.SellerIs` | index.js:106 | `{"seller.email": e}` matches exactly the documents whose `seller.email` is `e` |
| `Server.CustomerIs` | index.js:162 | `{"customer.email": e}` matches exactly the documents whose `customer.email` is `e` |
| `Server.PaidBy` | index.js:448-451 | the invoice filter matches exactly the documents with that `customer.email` and paymentStatus "paid" |
| `Server.CancelFields` | index.js:178-180 | the cancel `$set` writes only status, as "cancelled" |
| `Server.StatusFields` | index.js:203-207 | the status `$set` writes only status: the body's value verbatim, null when the body has none |
| `Server.ProfileFields` | index.js:350-351 | the profile `$set` writes exactly name and image, from the body, and never email |
| `Server.PaymentFields` | index.js:278-282 | the payment `$set` writes exactly paymentStatus "paid", transactionId = payment_intent, and totalPrice with `totalPrice * 100 == amount_total` |
| `Server.BookCourier.constructor` | index.js:52-61 | the four collections start empty and the invariant holds |
| `Server.BookCourier.AddBook` | index.js:83-88 | the body is stored unchanged under a fresh id; nothing else changes |
| `Server.BookCourier.PublishedBooks` | index.js:92-97 | exactly the books whose status is "published" |
| `Server.BookCourier.SellerBooks` | index.js:101-109 | 400 exactly when the email is missing or empty, otherwise exactly the books whose `seller.email` is that email |
| `Server.BookCourier.UpdateBook` | index.js:113-121 | only that book changes, by `$set` of the body; an unknown id changes nothing |
| `Server.BookCourier.BookDetails` | index.js:125-131 | the book with that id, or null when no book has it |
| `Server.BookCourier.DeleteBook` | index.js:471-488 | the book is removed; 200 when it existed and 404 when nothing was deleted |
| `Server.BookCourier.CreateOrder` | index.js:135-153 | 201 and a fresh order with status "pending", paymentStatus "unpaid" and orderDate the date part of `now`; every other submitted field is kept and no other order changes |
| `Server.BookCourier.CustomerOrders` | index.js:157-168 | 401 exactly when authentication fails, otherwise exactly the orders whose `customer.email` is the token's email |
| `Server.BookCourier.CancelOrder` | index.js:172-184 | only that order's status changes, to "cancelled", from any current status; an unknown id changes nothing |
| `Server.BookCourier.SellerOrders` | index.js:188-197 | 400 exactly when the email is missing or empty, otherwise exactly the orders whose `seller.email` is that email |
| `Server.BookCourier.UpdateOrderStatus` | index.js:201-211 | only that order's status changes, to the requested value verbatim; an unknown id changes nothing |
| `Server.BookCourier.PaymentSuccess` | index.js:248-294 | 500 when retrieval failed and 400 for an incomplete session, both changing nothing; for a complete session, 200, and only the order named in the metadata gets the payment fields, every other order and field untouched |
| `Server.BookCourier.ReplayPaymentSuccess` | index.js:275-284 | calling payment-success twice with one session answers the same, leaves the state of a single call, keeps the order history and allocates no id |
| `Server.BookCourier.Invoices` | index.js:443-467 | 401 exactly when authentication fails, otherwise exactly the caller's paid orders, projected to the invoice fields |
| `Server.BookCourier.UpsertUser` | index.js:298-325 | when a user with the body's email exists, only its `last_loggedIn` changes and its role is kept; otherwise the body is inserted under the next id with role "customer" and both timestamps; one user per email is preserved |
| `Server.NewUserMatchesItsEmail` | index.js:298-308 | the record a first login inserts is found by the email filter the handler looked it up with |
| `Server.BookCourier.RepeatLogin` | index.js:309-324 | of two logins with the same body, the first inserts exactly when no user has that email, and the second never inserts |
| `Server.InsertKeepsOnePerEmail` | index.js:322-323 | inserting a user whose email no user has keeps one user per email |
| `Server.EmailKeptKeepsOnePerEmail` | index.js:312-318 | rewriting a user without changing its email keeps one user per email |
| `Server.UpdateOneKeepsOnePerEmail` | index.js:349-352 | the profile `$set`, which never writes email, keeps one user per email |
| `Server.BookCourier.AllUsers` | index.js:329-340 | every user, restricted to name, email, role and photoURL |
| `Server.BookCourier.UpdateProfile` | index.js:344-357 | 401 on failed authentication with no change; otherwise the first user with the token's email gets the body's name and image |
| `Server.BookCourier.UserRole` | index.js:361-366 | 401 on failed authentication; otherwise the role of the user with the token's email (there is at most one), or undefined when there is none |
| `Server.BookCourier.BecomeLibrarian` | index.js:370-387 | 401 exactly when authentication fails; 409 exactly when a request with the caller's email exists; 200 exactly when neither holds, and then one request with email, message and createdAt is added under the next id; one request per email is preserved |
| `Server.RequestLookup` | index.js:373-377 | the lookup by email finds nothing exactly when no request carries that email, and what it finds carries it |
| `Server.BookCourier.MyLibrarianRequests` | index.js:391-402 | 401 on failed authentication; otherwise exactly the caller's requests, of which there is at most one |
| `Server.BookCourier.UpdateUserRole` | index.js:406-439 | 404 and no change for an unknown user; otherwise role = newRole, at most one request removed, and no request left carrying that user's email |
| `Server.BookCourier.AdminLibrarianRequests` | index.js:492-511 | 401 on failed authentication; all requests exactly when the caller's first user record has role "admin"; 403 otherwise |
| `Server.OrderUpdateKeepsHistory` | index.js:175-182 | a `$set` that leaves customer, seller and orderDate alone, and writes no payment status but "paid", keeps paid orders paid and those fields unchanged |
| `Server.HistoryKeptTransitive` | index.js:135-294 | the order-history guarantees of single handlers compose over any sequence of calls |
| `Server.AtMostOneRequest` | index.js:374-385 | under one request per email, the requests for an email are exactly those carrying it, and there is at most one |
| `Server.DeleteKeepsOnePerEmail` | index.js:427 | on a list with one request per email, the role update's delete keeps one request per email and leaves no request for a non-null email |
| `Server.BookCourier.RemoveRequestOf` | index.js:427 | `deleteOne({email})` on the requests keeps the invariant and, for a non-null email, leaves no request carrying it |
| `Server.PaidByMatches` | index.js:447-451 | the invoice filter matches exactly the orders with that `customer.email` and paymentStatus "paid" |
| `Server.InvoicesAreCustomerOrders` | index.js:447-451 | every invoice is one of the customer's orders |
| `Server.NewOrderIsNoInvoice` | index.js:141 | an unpaid order, as every new order is, is never an invoice |
| `Server.ConfirmedOrderIsInvoice` | index.js:275-284 | after reconciliation, an order of a customer is among that customer's invoices |
| `Server.SellerViewsDisjoint` | index.js:192-194 | two different seller emails never see the same order |
| `Server.CancelRacesStatusUpdate` | index.js:175-182 | of a cancel and a status update on one order, the later write decides the status, whichever order they come in |
| `Server.StatusUpdateReopensOrder` | index.js:205-208 | with no transition guard, a cancelled or delivered order can be set back to "pending" |
| `Server.SecondSessionOverwritesPayment` | index.js:275-284 | with no compare-and-set, a second complete session overwrites the transaction id and total of a paid order |

## Left out

- Express, CORS, dotenv, the `MongoClient` construction, the ping and `listen` (index.js:1-38, 516-533) just wire up I/O and are not modelled.
- Firebase's `verifyIdToken` is a foreign call. It is the oracle `verify`. A decoded token that carries no email is not modelled.
- `POST /create-checkout-session` (index.js:215-244) is a call into Stripe. The metadata it sets reaches the model only as `Session.orderId`. It also computes `price * 100` in floating point.
- Stripe's `sessions.retrieve` is a foreign call. Its result is the input `Option<Session>`, where None stands for any error it throws.
- JavaScript floating point is not modelled. `totalPrice` is the exact rational `amount_total / 100`.
- Clock reads (`new Date()`) are the parameter `now`. The three reads in `POST /user` are taken as one instant.
- Ids are abstract keys. Malformed ids, the exceptions `new ObjectId` throws for them, and the resulting 500 replies are not modelled. A missing `metadata.orderId` is `None`, which matches no order, as a fresh ObjectId would.
- Store failures and the 500 replies of the `catch` blocks are not modelled. The one exception is the failed session retrieval in `payment-success`.
- A request body that carries its own `_id` is not modelled: every insert gets a fresh key.
- `$set` keys that contain dots, or that name `_id`, are not modelled: they are treated as plain field names.
- JSON arrays are not part of `Value`, so MongoDB's element-wise matching on array fields is not modelled.
- Sorting by `createdAt` (index.js:396, 504) is not modelled: results are maps keyed by id.
- Response bodies beyond status codes are not modelled. The acknowledgement objects of `insertOne`/`updateOne` become the `matched` flag or the new id.
- Concurrency is not modelled. Each handler is one atomic step, and a race shows up only as the order of two calls (`CancelRacesStatusUpdate`).
- A query parameter given more than once (an array in Express) is not modelled.
- Documents.Holds: a filter value is always compared as a literal. MongoDB reads an object whose keys start with `$` as a query operator. Client-controlled values reach filters through the `POST /user` body's `email` (index.js:305-309) and through `req.query.email` (index.js:102-106, 189-193), which Express parses into an object for `?email[$ne]=x`. Such operator injection is not modelled. For example, a body email `{"$ne": null}` matches the first user with an email in the source, while the model looks for that literal object and inserts.
- Documents.Holds: equality on embedded documents is map equality. MongoDB's equality on embedded documents also depends on field order, which is not modelled.
- `console.log` output is not modelled.
