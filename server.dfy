/** The route handlers of the BookCourier server over its four collections:
    books (`books_all`), orders, users and librarian requests. Every handler that
    writes is a method of `BookCourier`; every read filter is a function of it. */
module Server {
  import opened Http
  import opened Documents
  import Text
  import Auth

  /** A checkout session as the payment provider's `sessions.retrieve` returns it:
      its status, `payment_intent`, `amount_total` in cents and `metadata.orderId`. */
  datatype Session = Session(status: string, paymentIntent: Value, amountTotal: int, orderId: Option<Id>)

  // The filter documents the handlers send to the store.

  /** `{email}`: the documents whose email is `v`; for an undefined `v`, also those
      without an email. */
  function EmailIs(v: Value): (q: Query)
    ensures forall d :: Matches(d, q) <==> Field(d, "email") == v
  {
    MatchesSingle(Eq(["email"], v));
    [Eq(["email"], v)]
  }

  /** `{status: "published"}`. */
  function PublishedFilter(): (q: Query)
    ensures forall d :: Matches(d, q) <==> Field(d, "status") == Str("published")
  {
    MatchesSingle(Eq(["status"], Str("published")));
    [Eq(["status"], Str("published"))]
  }

  /** `{"seller.email": email}`. */
  function SellerIs(email: string): (q: Query)
    ensures forall d :: Matches(d, q) <==> SellerEmail(d) == Some(Str(email))
  {
    MatchesSingle(Eq(["seller", "email"], Str(email)));
    [Eq(["seller", "email"], Str(email))]
  }

  /** `{"customer.email": email}`. */
  function CustomerIs(email: string): (q: Query)
    ensures forall d :: Matches(d, q) <==> CustomerEmail(d) == Some(Str(email))
  {
    MatchesSingle(Eq(["customer", "email"], Str(email)));
    [Eq(["customer", "email"], Str(email))]
  }

  /** `{"customer.email": email, paymentStatus: "paid"}`. */
  function PaidBy(email: string): (q: Query)
    ensures forall d :: Matches(d, q) <==>
              CustomerEmail(d) == Some(Str(email)) && Field(d, "paymentStatus") == Str("paid")
  {
    var customer := Eq(["customer", "email"], Str(email));
    var paid := Eq(["paymentStatus"], Str("paid"));
    MatchesPair(customer, paid);
    [customer, paid]
  }

  /** The store-level `customer.email` of a document. */
  function CustomerEmail(d: Doc): Option<Value> { GetPath(d, ["customer", "email"]) }

  /** The store-level `seller.email` of a document. */
  function SellerEmail(d: Doc): Option<Value> { GetPath(d, ["seller", "email"]) }

  const DefaultedOrderFields: set<string> := {"status", "paymentStatus", "orderDate"}
  const UserListFields: set<string> := {"name", "email", "role", "photoURL"}
  const InvoiceFields: set<string> :=
    {"transactionId", "bookName", "bookPrice", "quantity", "totalPrice", "orderDate"}

  /** The `$set` of `PATCH /orders/cancel/:id`. */
  function CancelFields(): (u: Doc)
    ensures u.Keys == {"status"} && u["status"] == Str("cancelled")
  {
    map["status" := Str("cancelled")]
  }

  /** The `$set` of `PATCH /orders/status/:id`: the body's `status`, verbatim. */
  function StatusFields(body: Doc): (u: Doc)
    ensures u.Keys == {"status"}
    ensures "status" in body ==> u["status"] == body["status"]
    ensures "status" !in body ==> u["status"] == Null
  {
    map["status" := Field(body, "status")]
  }

  /** The `$set` of `POST /payment-success`: paid, the provider's payment reference,
      and the session total converted from cents to dollars. */
  function PaymentFields(s: Session): (u: Doc)
    ensures u.Keys == {"paymentStatus", "transactionId", "totalPrice"}
    ensures u["paymentStatus"] == Str("paid") && u["transactionId"] == s.paymentIntent
    ensures u["totalPrice"].Num? && u["totalPrice"].n * 100.0 == s.amountTotal as real
  {
    map["paymentStatus" := Str("paid"),
        "transactionId" := s.paymentIntent,
        "totalPrice" := Num(s.amountTotal as real / 100.0)]
  }

  /** The `$set` of `PATCH /user/profile/update`. */
  function ProfileFields(body: Doc): (u: Doc)
    ensures u.Keys == {"name", "image"} && "email" !in u
    ensures u["name"] == Field(body, "name") && u["image"] == Field(body, "image")
  {
    map["name" := Field(body, "name"), "image" := Field(body, "image")]
  }

  /** The session confirms payment of order `id`. */
  ghost predicate Completes(session: Option<Session>, id: Id)
  {
    session.Some? && session.value.status == "complete" && session.value.orderId == Some(id)
  }

  /** Every id in use is below `bound`. */
  ghost predicate Below(t: Table, bound: nat)
  {
    forall k :: k in t ==> k < bound
  }

  /** No two documents carry the same email (an undefined one counts as null). */
  ghost predicate OnePerEmail(t: Table)
  {
    forall j, k :: j in t && k in t && j != k ==> Field(t[j], "email") != Field(t[k], "email")
  }

  /** What no handler ever undoes on an order: orders are never deleted, a paid
      order stays paid, and its customer, seller and order date never change. */
  ghost predicate HistoryKept(before: Table, after: Table)
  {
    && before.Keys <= after.Keys
    && forall k :: k in before ==>
         && (Field(before[k], "paymentStatus") == Str("paid") ==> Field(after[k], "paymentStatus") == Str("paid"))
         && Field(after[k], "customer") == Field(before[k], "customer")
         && Field(after[k], "seller") == Field(before[k], "seller")
         && Field(after[k], "orderDate") == Field(before[k], "orderDate")
  }

  /** `k` is the document `findOne(q)` returns. */
  ghost predicate FirstMatch(t: Table, q: Query, k: Id)
  {
    k in t && Matches(t[k], q) && NoneBelow(t, q, 0, k)
  }

  class BookCourier {
    var books: Table
    var orders: Table
    var users: Table
    var librarianRequests: Table
    /** Exceeds every id handed out so far; each insert takes it and moves it on. */
    var nextId: Id

    ghost predicate Valid()
      reads this
    {
      && Below(books, nextId) && Below(orders, nextId)
      && Below(users, nextId) && Below(librarianRequests, nextId)
      && OnePerEmail(librarianRequests) && OnePerEmail(users)
    }

    constructor ()
      ensures Valid()
      ensures books == map[] && orders == map[] && users == map[] && librarianRequests == map[]
    {
      books, orders, users, librarianRequests := map[], map[], map[], map[];
      nextId := 0;
    }

    // ---------------------------------------------------------------- books

    /** POST /books_all: the body is stored as it is. */
    method AddBook(bookData: Doc) returns (id: Id)
      requires Valid()
      modifies this`books, this`nextId
      ensures Valid()
      ensures id !in old(books) && books == old(books)[id := bookData]
      ensures id == old(nextId) && nextId == old(nextId) + 1
      ensures orders == old(orders) && users == old(users) && librarianRequests == old(librarianRequests)
    {
      id := nextId;
      books := books[id := bookData];
      nextId := nextId + 1;
    }

    /** GET /books_all: the published books, and only those. */
    function PublishedBooks(): (r: Table)
      reads this
      ensures forall k :: k in r <==> k in books && Field(books[k], "status") == Str("published")
      ensures forall k :: k in r ==> r[k] == books[k]
    {
      Find(books, PublishedFilter())
    }

    /** GET /books/seller?email=: 400 without an email, else that seller's books. */
    function SellerBooks(email: Option<string>): (r: Result<Table>)
      reads this
      ensures r.Err? <==> email == None || email == Some("")
      ensures r.Err? ==> r.code == BAD_REQUEST
      ensures r.Ok? ==> forall k :: k in r.value <==> k in books && SellerEmail(books[k]) == Some(Str(email.value))
      ensures r.Ok? ==> forall k :: k in r.value ==> r.value[k] == books[k]
    {
      if email == None || email == Some("") then Err(BAD_REQUEST)
      else
        Ok(Find(books, SellerIs(email.value)))
    }

    /** PATCH /books_all/:id: the body's fields are merged into that book by `$set`. */
    method UpdateBook(id: Id, updatedData: Doc) returns (matched: bool)
      requires Valid()
      modifies this`books
      ensures Valid()
      ensures matched <==> id in old(books)
      ensures books.Keys == old(books).Keys
      ensures id in old(books) ==> books[id] == SetFields(old(books)[id], updatedData)
      ensures forall k :: k in old(books) && k != id ==> books[k] == old(books)[k]
      ensures orders == old(orders) && users == old(users) && librarianRequests == old(librarianRequests)
      ensures nextId == old(nextId)
    {
      matched := id in books;
      books := UpdateById(books, id, updatedData);
    }

    /** GET /books_all/:id: the book, or null when no book has that id. */
    function BookDetails(id: Id): (r: Option<Doc>)
      reads this
      ensures r.Some? <==> id in books
      ensures r.Some? ==> r.value == books[id]
    {
      if id in books then Some(books[id]) else None
    }

    /** DELETE /books_all/:id: 404 when nothing was deleted. */
    method DeleteBook(id: Id) returns (code: int)
      requires Valid()
      modifies this`books
      ensures Valid()
      ensures id in old(books) ==> code == OK
      ensures id !in old(books) ==> code == NOT_FOUND
      ensures books == old(books) - {id}
      ensures orders == old(orders) && users == old(users) && librarianRequests == old(librarianRequests)
      ensures nextId == old(nextId)
    {
      var deleted := id in books;
      books := books - {id};
      if deleted { code := OK; } else { code := NOT_FOUND; }
    }

    // --------------------------------------------------------------- orders

    /** POST /orders: the body gets its default status, payment status and the
        date part of the current timestamp `now`, and is stored. */
    method CreateOrder(body: Doc, now: string) returns (code: int, id: Id)
      requires Valid()
      modifies this`orders, this`nextId
      ensures Valid()
      ensures code == CREATED
      ensures id !in old(orders) && orders.Keys == old(orders).Keys + {id}
      ensures forall k :: k in old(orders) ==> orders[k] == old(orders)[k]
      ensures orders[id].Keys == body.Keys + DefaultedOrderFields
      ensures orders[id]["status"] == Str("pending")
      ensures orders[id]["paymentStatus"] == Str("unpaid")
      ensures orders[id]["orderDate"] == Str(Text.DatePart(now))
      ensures forall f :: f in body && f !in DefaultedOrderFields ==> orders[id][f] == body[f]
      ensures HistoryKept(old(orders), orders)
      ensures books == old(books) && users == old(users) && librarianRequests == old(librarianRequests)
      ensures nextId == old(nextId) + 1
    {
      var orderData := body;
      orderData := orderData["status" := Str("pending")];
      orderData := orderData["paymentStatus" := Str("unpaid")];
      orderData := orderData["orderDate" := Str(Text.DatePart(now))];
      id := nextId;
      orders := orders[id := orderData];
      nextId := nextId + 1;
      code := CREATED;
    }

    /** GET /orders (behind the token check): the caller's own orders. */
    function CustomerOrders(header: Option<string>, verify: string -> Option<string>): (r: Result<Table>)
      reads this
      ensures r.Err? <==> Auth.Authenticate(header, verify).Err?
      ensures r.Err? ==> r.code == UNAUTHORIZED
      ensures r.Ok? ==> forall k :: k in r.value <==>
                k in orders && CustomerEmail(orders[k]) == Some(Str(Auth.Authenticate(header, verify).value))
      ensures r.Ok? ==> forall k :: k in r.value ==> r.value[k] == orders[k]
    {
      match Auth.Authenticate(header, verify)
      case Err(c) => Err(c)
      case Ok(email) =>
        Ok(Find(orders, CustomerIs(email)))
    }

    /** PATCH /orders/cancel/:id: that order's status becomes "cancelled", whatever it was. */
    method CancelOrder(id: Id) returns (matched: bool)
      requires Valid()
      modifies this`orders
      ensures Valid()
      ensures matched <==> id in old(orders)
      ensures orders == UpdateById(old(orders), id, CancelFields())
      ensures id in old(orders) ==> orders[id] == old(orders)[id]["status" := Str("cancelled")]
      ensures HistoryKept(old(orders), orders)
      ensures books == old(books) && users == old(users) && librarianRequests == old(librarianRequests)
      ensures nextId == old(nextId)
    {
      matched := id in orders;
      orders := UpdateById(orders, id, CancelFields());
      if matched {
        assert orders[id] == old(orders)[id]["status" := Str("cancelled")];
      }
      OrderUpdateKeepsHistory(old(orders), id, CancelFields());
    }

    /** GET /orders/librarian?email=: 400 without an email, else that seller's orders. */
    function SellerOrders(email: Option<string>): (r: Result<Table>)
      reads this
      ensures r.Err? <==> email == None || email == Some("")
      ensures r.Err? ==> r.code == BAD_REQUEST
      ensures r.Ok? ==> forall k :: k in r.value <==> k in orders && SellerEmail(orders[k]) == Some(Str(email.value))
      ensures r.Ok? ==> forall k :: k in r.value ==> r.value[k] == orders[k]
    {
      if email == None || email == Some("") then Err(BAD_REQUEST)
      else
        Ok(Find(orders, SellerIs(email.value)))
    }

    /** PATCH /orders/status/:id: the body's status is stored verbatim, without
        any check of the current status. */
    method UpdateOrderStatus(id: Id, body: Doc) returns (matched: bool)
      requires Valid()
      modifies this`orders
      ensures Valid()
      ensures matched <==> id in old(orders)
      ensures orders == UpdateById(old(orders), id, StatusFields(body))
      ensures id in old(orders) ==> orders[id] == old(orders)[id]["status" := Field(body, "status")]
      ensures HistoryKept(old(orders), orders)
      ensures books == old(books) && users == old(users) && librarianRequests == old(librarianRequests)
      ensures nextId == old(nextId)
    {
      var status := Field(body, "status");
      matched := id in orders;
      orders := UpdateById(orders, id, map["status" := status]);
      if matched {
        assert orders[id] == old(orders)[id]["status" := status];
      }
      OrderUpdateKeepsHistory(old(orders), id, StatusFields(body));
    }

    /** POST /payment-success: `session` is what the provider returned for the
        request's session id (None when retrieval failed). An incomplete session is
        a 400 that changes nothing; a complete one writes the payment fields onto the
        order its metadata names, and only onto that one, then reports success even
        when no order has that id. */
    method PaymentSuccess(session: Option<Session>) returns (code: int)
      requires Valid()
      modifies this`orders
      ensures Valid()
      ensures session.None? ==> code == SERVER_ERROR
      ensures session.Some? && session.value.status != "complete" ==> code == BAD_REQUEST
      ensures session.Some? && session.value.status == "complete" ==> code == OK
      ensures orders.Keys == old(orders).Keys
      ensures forall k :: k in old(orders) && !Completes(session, k) ==> orders[k] == old(orders)[k]
      ensures forall k :: k in old(orders) && Completes(session, k) ==>
                orders[k] == SetFields(old(orders)[k], PaymentFields(session.value))
      ensures HistoryKept(old(orders), orders)
      ensures books == old(books) && users == old(users) && librarianRequests == old(librarianRequests)
      ensures nextId == old(nextId)
    {
      if session.None? {
        return SERVER_ERROR;
      }
      var s := session.value;
      if s.status != "complete" {
        return BAD_REQUEST;
      }
      match s.orderId {
        case None =>
        case Some(orderId) =>
          orders := UpdateById(orders, orderId, PaymentFields(s));
          OrderUpdateKeepsHistory(old(orders), orderId, PaymentFields(s));
      }
      code := OK;
    }

    /** A replayed confirmation: the second call answers as the first did and
        leaves the orders as a single call leaves them. */
    method ReplayPaymentSuccess(session: Option<Session>) returns (first: int, second: int)
      requires Valid()
      modifies this`orders
      ensures Valid()
      ensures first == second
      ensures orders.Keys == old(orders).Keys
      ensures forall k :: k in old(orders) && !Completes(session, k) ==> orders[k] == old(orders)[k]
      ensures forall k :: k in old(orders) && Completes(session, k) ==>
                orders[k] == SetFields(old(orders)[k], PaymentFields(session.value))
      ensures HistoryKept(old(orders), orders)
      ensures books == old(books) && users == old(users) && librarianRequests == old(librarianRequests)
      ensures nextId == old(nextId)
    {
      first := PaymentSuccess(session);
      ghost var once := orders;
      second := PaymentSuccess(session);
      HistoryKeptTransitive(old(orders), once, orders);
      forall k | k in old(orders) && Completes(session, k)
        ensures orders[k] == SetFields(old(orders)[k], PaymentFields(session.value))
      {
        var u := PaymentFields(session.value);
        assert orders[k] == SetFields(SetFields(old(orders)[k], u), u);
        assert SetFields(SetFields(old(orders)[k], u), u) == SetFields(old(orders)[k], u);
      }
    }

    /** GET /invoices (behind the token check): the caller's paid orders, each
        restricted to the invoice fields. */
    function Invoices(header: Option<string>, verify: string -> Option<string>): (r: Result<Table>)
      reads this
      ensures r.Err? <==> Auth.Authenticate(header, verify).Err?
      ensures r.Err? ==> r.code == UNAUTHORIZED
      ensures r.Ok? ==> forall k :: k in r.value <==>
                && k in orders
                && CustomerEmail(orders[k]) == Some(Str(Auth.Authenticate(header, verify).value))
                && Field(orders[k], "paymentStatus") == Str("paid")
      ensures r.Ok? ==> forall k :: k in r.value ==> r.value[k] == Project(orders[k], InvoiceFields)
    {
      match Auth.Authenticate(header, verify)
      case Err(c) => Err(c)
      case Ok(email) =>
        var paid := Find(orders, PaidBy(email));
        Ok(map k | k in paid :: Project(paid[k], InvoiceFields))
    }

    // ---------------------------------------------------------------- users

    /** POST /user: the body gets `created_at`, `last_loggedIn` and role "customer";
        if a user with the body's email exists, only its `last_loggedIn` is
        refreshed, otherwise the body is inserted. `key` is the user concerned. */
    method UpsertUser(body: Doc, now: string) returns (inserted: bool, key: Id)
      requires Valid()
      modifies this`users, this`nextId
      ensures Valid()
      ensures inserted <==> forall k :: k in old(users) ==> !Matches(old(users)[k], EmailIs(Field(body, "email")))
      ensures key in users && Matches(users[key], EmailIs(Field(body, "email")))
      ensures inserted ==> key !in old(users)
      ensures inserted ==>
        users == old(users)[key := body["created_at" := Str(now)]["last_loggedIn" := Str(now)]["role" := Str("customer")]]
      ensures !inserted ==> FirstMatch(old(users), EmailIs(Field(body, "email")), key)
      ensures !inserted ==> users == old(users)[key := old(users)[key]["last_loggedIn" := Str(now)]]
      ensures !inserted ==> Field(users[key], "role") == Field(old(users)[key], "role")
      ensures inserted ==> key == old(nextId)
      ensures nextId == old(nextId) + (if inserted then 1 else 0)
      ensures books == old(books) && orders == old(orders) && librarianRequests == old(librarianRequests)
    {
      var userData := body;
      userData := userData["created_at" := Str(now)];
      userData := userData["last_loggedIn" := Str(now)];
      userData := userData["role" := Str("customer")];
      var query := EmailIs(Field(userData, "email"));
      assert Field(userData, "email") == Field(body, "email");
      var alreadyExists := FindOne(users, query, nextId);
      if alreadyExists.Some? {
        key := alreadyExists.value;
        var refreshed := users[key]["last_loggedIn" := Str(now)];
        assert Field(refreshed, "email") == Field(users[key], "email");
        EmailKeptKeepsOnePerEmail(users, key, refreshed);
        users := users[key := refreshed];
        inserted := false;
      } else {
        NewUserMatchesItsEmail(body, now);
        InsertKeepsOnePerEmail(users, nextId, userData);
        key := nextId;
        users := users[key := userData];
        nextId := nextId + 1;
        inserted := true;
      }
    }

    /** Two logins with the same body: the first inserts exactly when no user has
        the body's email, the second only refreshes `last_loggedIn` on the record
        the first found or left. */
    method RepeatLogin(body: Doc, first: string, second: string) returns (insertedFirst: bool, insertedSecond: bool)
      requires Valid()
      modifies this`users, this`nextId
      ensures Valid()
      ensures !insertedSecond
      ensures insertedFirst <==> forall k :: k in old(users) ==> Field(old(users)[k], "email") != Field(body, "email")
      ensures |users| == |old(users)| + (if insertedFirst then 1 else 0)
      ensures books == old(books) && orders == old(orders) && librarianRequests == old(librarianRequests)
    {
      var key1, key2;
      insertedFirst, key1 := UpsertUser(body, first);
      insertedSecond, key2 := UpsertUser(body, second);
    }

    /** GET /users: every user, restricted to name, email, role and photo. */
    function AllUsers(): (r: Table)
      reads this
      ensures r.Keys == users.Keys
      ensures forall k :: k in r ==> r[k] == Project(users[k], UserListFields)
    {
      map k | k in users :: Project(users[k], UserListFields)
    }

    /** PATCH /user/profile/update (behind the token check): the body's name and
        image are written onto the caller's user record. */
    method UpdateProfile(header: Option<string>, verify: string -> Option<string>, body: Doc) returns (code: int)
      requires Valid()
      modifies this`users
      ensures Valid()
      ensures code == UNAUTHORIZED <==> Auth.Authenticate(header, verify).Err?
      ensures code == UNAUTHORIZED ==> users == old(users)
      ensures code != UNAUTHORIZED ==> code == OK
      ensures code != UNAUTHORIZED ==>
        users == UpdateOne(old(users), EmailIs(Str(Auth.Authenticate(header, verify).value)), ProfileFields(body), old(nextId))
      ensures books == old(books) && orders == old(orders) && librarianRequests == old(librarianRequests)
      ensures nextId == old(nextId)
    {
      var auth := Auth.Authenticate(header, verify);
      if auth.Err? {
        return UNAUTHORIZED;
      }
      UpdateOneKeepsOnePerEmail(users, EmailIs(Str(auth.value)), ProfileFields(body), nextId);
      users := UpdateOne(users, EmailIs(Str(auth.value)), ProfileFields(body), nextId);
      code := OK;
    }

    /** GET /user/role/ (behind the token check): the role of the caller's user
        record, undefined when there is none. */
    function UserRole(header: Option<string>, verify: string -> Option<string>): (r: Result<Value>)
      requires Valid()
      reads this
      ensures r.Err? <==> Auth.Authenticate(header, verify).Err?
      ensures r.Err? ==> r.code == UNAUTHORIZED
      ensures r.Ok? && (forall k :: k in users ==> Field(users[k], "email") != Str(Auth.Authenticate(header, verify).value)) ==>
        r.value == Null
      ensures r.Ok? ==> forall k :: (FirstMatch(users, EmailIs(Str(Auth.Authenticate(header, verify).value)), k) ==>
        r.value == Field(users[k], "role"))
      ensures r.Ok? ==> forall k :: (k in users && Field(users[k], "email") == Str(Auth.Authenticate(header, verify).value) ==>
        r.value == Field(users[k], "role"))
    {
      match Auth.Authenticate(header, verify)
      case Err(c) => Err(c)
      case Ok(email) =>
        match FindOne(users, EmailIs(Str(email)), nextId)
        case None => Ok(Null)
        case Some(k) =>
          Ok(Field(users[k], "role"))
    }

    /** PATCH /user/role/:id: 404 for an unknown user; otherwise the body's
        `newRole` becomes the user's role and the first librarian request carrying
        the user's email is removed. */
    method UpdateUserRole(userId: Id, body: Doc) returns (code: int)
      requires Valid()
      modifies this`users, this`librarianRequests
      ensures Valid()
      ensures userId !in old(users) ==> code == NOT_FOUND
      ensures userId !in old(users) ==> users == old(users) && librarianRequests == old(librarianRequests)
      ensures userId in old(users) ==> code == OK
      ensures userId in old(users) ==> users == old(users)[userId := old(users)[userId]["role" := Field(body, "newRole")]]
      ensures userId in old(users) ==>
        librarianRequests == DeleteOne(old(librarianRequests), EmailIs(Field(old(users)[userId], "email")), old(nextId))
      ensures |old(librarianRequests).Keys - librarianRequests.Keys| <= 1
      ensures userId in old(users) && Field(old(users)[userId], "email") != Null ==>
                forall k :: k in librarianRequests ==> Field(librarianRequests[k], "email") != Field(old(users)[userId], "email")
      ensures books == old(books) && orders == old(orders)
      ensures nextId == old(nextId)
    {
      if userId !in users {
        return NOT_FOUND;
      }
      var user := users[userId];
      assert Field(user["role" := Field(body, "newRole")], "email") == Field(user, "email");
      EmailKeptKeepsOnePerEmail(users, userId, user["role" := Field(body, "newRole")]);
      users := users[userId := user["role" := Field(body, "newRole")]];
      RemoveRequestOf(Field(user, "email"));
      code := OK;
    }

    /** `deleteOne({email})` on the librarian requests, as the role update issues it. */
    method RemoveRequestOf(email: Value)
      requires Valid()
      modifies this`librarianRequests
      ensures Valid()
      ensures librarianRequests == DeleteOne(old(librarianRequests), EmailIs(email), nextId)
      ensures email != Null ==> forall k :: k in librarianRequests ==> Field(librarianRequests[k], "email") != email
    {
      DeleteKeepsOnePerEmail(librarianRequests, email, nextId);
      librarianRequests := DeleteOne(librarianRequests, EmailIs(email), nextId);
    }

    // ------------------------------------------------------ librarian requests

    /** POST /become-librarian (behind the token check): 409 when a request for
        the caller's email exists, otherwise a request is stored. */
    method BecomeLibrarian(header: Option<string>, verify: string -> Option<string>, body: Doc, now: string)
      returns (code: int)
      requires Valid()
      modifies this`librarianRequests, this`nextId
      ensures Valid()
      ensures code == UNAUTHORIZED <==> Auth.Authenticate(header, verify).Err?
      ensures code == OK <==> (Auth.Authenticate(header, verify).Ok? &&
                forall k :: k in old(librarianRequests) ==>
                  Field(old(librarianRequests)[k], "email") != Str(Auth.Authenticate(header, verify).value))
      ensures Auth.Authenticate(header, verify).Ok? ==>
                (code == CONFLICT <==> exists k :: (k in old(librarianRequests) &&
                   Field(old(librarianRequests)[k], "email") == Str(Auth.Authenticate(header, verify).value)))
      ensures code != OK ==> librarianRequests == old(librarianRequests) && nextId == old(nextId)
      ensures code == OK ==> old(nextId) !in old(librarianRequests) && nextId == old(nextId) + 1
      ensures code == OK ==>
        librarianRequests == old(librarianRequests)[old(nextId) :=
          map["email" := Str(Auth.Authenticate(header, verify).value),
              "message" := Field(body, "message"),
              "createdAt" := Date(now)]]
      ensures code in {OK, UNAUTHORIZED, CONFLICT}
      ensures books == old(books) && orders == old(orders) && users == old(users)
    {
      var auth := Auth.Authenticate(header, verify);
      if auth.Err? {
        return UNAUTHORIZED;
      }
      var email := auth.value;
      RequestLookup(librarianRequests, email, nextId);
      var alreadyExists := FindOne(librarianRequests, EmailIs(Str(email)), nextId);
      if alreadyExists.Some? {
        return CONFLICT;
      }
      var request := map["email" := Str(email), "message" := Field(body, "message"), "createdAt" := Date(now)];
      librarianRequests := librarianRequests[nextId := request];
      nextId := nextId + 1;
      code := OK;
    }

    /** GET /librarian-requests (behind the token check): the caller's requests,
        of which there is at most one. */
    function MyLibrarianRequests(header: Option<string>, verify: string -> Option<string>): (r: Result<Table>)
      requires Valid()
      reads this
      ensures r.Err? <==> Auth.Authenticate(header, verify).Err?
      ensures r.Err? ==> r.code == UNAUTHORIZED
      ensures r.Ok? ==> forall k :: (k in r.value <==>
                k in librarianRequests && Field(librarianRequests[k], "email") == Str(Auth.Authenticate(header, verify).value))
      ensures r.Ok? ==> forall k :: k in r.value ==> r.value[k] == librarianRequests[k]
      ensures r.Ok? ==> |r.value| <= 1
    {
      match Auth.Authenticate(header, verify)
      case Err(c) => Err(c)
      case Ok(email) =>
        var mine := Find(librarianRequests, EmailIs(Str(email)));
        AtMostOneRequest(librarianRequests, email);
        Ok(mine)
    }

    /** GET /admin/librarian-requests (behind the token check): every request, for
        a caller whose user record (the first with the caller's email) has role
        "admin"; 403 for everyone else. */
    function AdminLibrarianRequests(header: Option<string>, verify: string -> Option<string>): (r: Result<Table>)
      requires Valid()
      reads this
      ensures Auth.Authenticate(header, verify).Err? ==> r == Err(UNAUTHORIZED)
      ensures Auth.Authenticate(header, verify).Ok? ==>
                (r.Ok? <==> exists k :: FirstMatch(users, EmailIs(Str(Auth.Authenticate(header, verify).value)), k)
                                        && Field(users[k], "role") == Str("admin"))
      ensures Auth.Authenticate(header, verify).Ok? && r.Err? ==> r.code == FORBIDDEN
      ensures r.Ok? ==> r.value == librarianRequests
    {
      match Auth.Authenticate(header, verify)
      case Err(c) => Err(c)
      case Ok(email) =>
        var adminUser := FindOne(users, EmailIs(Str(email)), nextId);
        if adminUser.None? || Field(users[adminUser.value], "role") != Str("admin") then Err(FORBIDDEN)
        else Ok(librarianRequests)
    }
  }

  // ------------------------------------------------------------ properties

  /** The `$set`s the order handlers issue never write the customer, the seller
      or the order date, and write no payment status but "paid". */
  lemma OrderUpdateKeepsHistory(t: Table, id: Id, u: Doc)
    requires "customer" !in u && "seller" !in u && "orderDate" !in u
    requires "paymentStatus" in u ==> u["paymentStatus"] == Str("paid")
    ensures HistoryKept(t, UpdateById(t, id, u))
  {
  }

  /** What survives each handler survives any sequence of them. */
  lemma HistoryKeptTransitive(a: Table, b: Table, c: Table)
    requires HistoryKept(a, b) && HistoryKept(b, c)
    ensures HistoryKept(a, c)
  {
  }

  /** With one request per email, a request list holds at most one request for a given email. */
  lemma AtMostOneRequest(t: Table, email: string)
    requires OnePerEmail(t)
    ensures |Find(t, EmailIs(Str(email)))| <= 1
    ensures forall k :: k in Find(t, EmailIs(Str(email))) <==> k in t && Field(t[k], "email") == Str(email)
  {
    var mine := Find(t, EmailIs(Str(email)));
    if mine != map[] {
      var j :| j in mine;
      assert mine.Keys == {j};
    }
  }

  /** Inserting a document whose email no document has keeps one document per email. */
  lemma InsertKeepsOnePerEmail(t: Table, k: Id, d: Doc)
    requires OnePerEmail(t) && k !in t
    requires forall j :: j in t ==> Field(t[j], "email") != Field(d, "email")
    ensures OnePerEmail(t[k := d])
  {
  }

  /** Replacing a document by one with the same email keeps one document per email. */
  lemma EmailKeptKeepsOnePerEmail(t: Table, k: Id, d: Doc)
    requires OnePerEmail(t) && k in t && Field(d, "email") == Field(t[k], "email")
    ensures OnePerEmail(t[k := d])
  {
  }

  /** A `$set` that does not write `email` keeps one document per email. */
  lemma UpdateOneKeepsOnePerEmail(t: Table, q: Query, u: Doc, bound: nat)
    requires OnePerEmail(t) && "email" !in u
    ensures OnePerEmail(UpdateOne(t, q, u, bound))
  {
    var r := UpdateOne(t, q, u, bound);
    forall k | k in t
      ensures Field(r[k], "email") == Field(t[k], "email")
    {
    }
  }

  /** The record `POST /user` inserts matches the filter it looked the email up with. */
  lemma NewUserMatchesItsEmail(body: Doc, now: string)
    ensures Matches(body["created_at" := Str(now)]["last_loggedIn" := Str(now)]["role" := Str("customer")],
                    EmailIs(Field(body, "email")))
  {
    var d := body["created_at" := Str(now)]["last_loggedIn" := Str(now)]["role" := Str("customer")];
    assert Field(d, "email") == Field(body, "email");
  }

  /** `findOne({email})` on the requests finds nothing exactly when no request carries
      that email, and what it finds carries it. */
  lemma RequestLookup(t: Table, email: string, bound: nat)
    requires Below(t, bound)
    ensures FindOne(t, EmailIs(Str(email)), bound).None? <==> forall k :: k in t ==> Field(t[k], "email") != Str(email)
    ensures FindOne(t, EmailIs(Str(email)), bound).Some? ==>
              Field(t[FindOne(t, EmailIs(Str(email)), bound).value], "email") == Str(email)
  {
  }

  /** The role update's `deleteOne({email})` on a list with one request per email
      keeps one request per email, and for a non-null email leaves no request for it. */
  lemma DeleteKeepsOnePerEmail(t: Table, email: Value, bound: nat)
    requires Below(t, bound) && OnePerEmail(t)
    ensures Below(DeleteOne(t, EmailIs(email), bound), bound)
    ensures OnePerEmail(DeleteOne(t, EmailIs(email), bound))
    ensures email != Null ==> forall k :: k in DeleteOne(t, EmailIs(email), bound) ==> Field(t[k], "email") != email
  {
  }

  /** The invoice filter: the customer's email and a paid status. */
  ghost predicate IsInvoiceOf(d: Doc, email: string)
  {
    CustomerEmail(d) == Some(Str(email)) && Field(d, "paymentStatus") == Str("paid")
  }

  lemma PaidByMatches(d: Doc, email: string)
    ensures Matches(d, PaidBy(email)) <==> IsInvoiceOf(d, email)
  {
  }

  /** Invoices are a subset of the customer's orders. */
  lemma InvoicesAreCustomerOrders(t: Table, email: string)
    ensures Find(t, PaidBy(email)).Keys <= Find(t, CustomerIs(email)).Keys
  {
  }

  /** A freshly created order is never an invoice: it is unpaid. */
  lemma NewOrderIsNoInvoice(d: Doc, email: string)
    requires Field(d, "paymentStatus") == Str("unpaid")
    ensures !Matches(d, PaidBy(email))
  {
  }

  /** Once a complete session is reconciled against an order of `email`, that
      order is among the invoices of `email`. */
  lemma ConfirmedOrderIsInvoice(t: Table, id: Id, s: Session, email: string)
    requires id in t && CustomerEmail(t[id]) == Some(Str(email))
    ensures id in Find(UpdateById(t, id, PaymentFields(s)), PaidBy(email))
  {
  }

  /** Two different sellers never see the same order or book. */
  lemma SellerViewsDisjoint(t: Table, a: string, b: string)
    requires a != b
    ensures Find(t, SellerIs(a)).Keys !! Find(t, SellerIs(b)).Keys
  {
  }

  /** A cancel and a status update racing on one order: whichever write lands
      last decides the status, and nothing but the status differs. */
  lemma CancelRacesStatusUpdate(t: Table, id: Id, body: Doc)
    ensures UpdateById(UpdateById(t, id, CancelFields()), id, StatusFields(body)) == UpdateById(t, id, StatusFields(body))
    ensures UpdateById(UpdateById(t, id, StatusFields(body)), id, CancelFields()) == UpdateById(t, id, CancelFields())
  {
    UpdateByIdLastWins(t, id, CancelFields(), StatusFields(body));
    UpdateByIdLastWins(t, id, StatusFields(body), CancelFields());
  }

  /** There is no transition guard: a status update can move a cancelled or
      delivered order back to any status, "pending" included. */
  lemma StatusUpdateReopensOrder(t: Table, id: Id, body: Doc)
    requires id in t && Field(t[id], "status") in {Str("cancelled"), Str("delivered")}
    requires Field(body, "status") == Str("pending")
    ensures Field(UpdateById(t, id, StatusFields(body))[id], "status") == Str("pending")
  {
  }

  /** There is no compare-and-set: a second complete session for an already paid
      order overwrites its transaction id and total with its own. */
  lemma SecondSessionOverwritesPayment(t: Table, id: Id, s1: Session, s2: Session)
    requires id in t
    ensures UpdateById(UpdateById(t, id, PaymentFields(s1)), id, PaymentFields(s2)) == UpdateById(t, id, PaymentFields(s2))
    ensures UpdateById(UpdateById(t, id, PaymentFields(s1)), id, PaymentFields(s2))[id]["transactionId"] == s2.paymentIntent
  {
    UpdateByIdLastWins(t, id, PaymentFields(s1), PaymentFields(s2));
  }
}
