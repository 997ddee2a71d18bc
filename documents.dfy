/** The document store as the handlers use it: JSON-like documents, collections of
    them keyed by id, equality filters, and the `find`, `findOne`, `updateOne` with
    `$set`, `deleteOne` and projection operations of a MongoDB collection. */
module Documents {
  import opened Http

  /** Stands for an ObjectId: the key the store assigns to each inserted document. */
  type Id = nat

  datatype Value =
    | Null
    | Bool(b: bool)
    | Num(n: real)
    | Str(s: string)
    | Date(iso: string)
    | Obj(fields: map<string, Value>)

  /** A document without its `_id`, which is the key it is stored under. */
  type Doc = map<string, Value>

  /** A collection: its documents by id. */
  type Table = map<Id, Doc>

  /** A dotted field path such as `customer.email`. */
  type Path = p: seq<string> | p != [] witness ["_"]

  /** A field a handler reads from a request body or a stored document; an absent
      field is `undefined`, which the driver writes as null. */
  function Field(d: Doc, key: string): (v: Value)
    ensures v == Null <==> key !in d || d[key] == Null
    ensures v != Null ==> d[key] == v
  {
    if key in d then d[key] else Null
  }

  /** The value at a dotted path, when every step of the path exists. */
  function GetPath(d: Doc, path: Path): (r: Option<Value>)
    ensures r.Some? ==> path[0] in d
    ensures r.Some? && |path| > 1 ==> d[path[0]].Obj?
    ensures |path| == 1 ==> r == (if path[0] in d then Some(d[path[0]]) else None)
    decreases |path|
  {
    if path[0] !in d then None
    else if |path| == 1 then Some(d[path[0]])
    else match d[path[0]]
      case Obj(inner) => GetPath(inner, path[1..])
      case _ => None
  }

  /** `{path: value}` in a filter. */
  datatype Condition = Eq(path: Path, value: Value)

  /** A filter document: all of its conditions must hold. */
  type Query = seq<Condition>

  /** Equality as the store tests it: a null in the filter also matches a missing field. */
  predicate Holds(d: Doc, c: Condition): (b: bool)
    ensures |c.path| == 1 ==> (b <==> Field(d, c.path[0]) == c.value)
    ensures b && c.value != Null ==> GetPath(d, c.path) == Some(c.value)
  {
    var found := GetPath(d, c.path);
    if c.value == Null then found == None || found == Some(Null) else found == Some(c.value)
  }

  predicate Matches(d: Doc, q: Query)
  {
    forall i :: 0 <= i < |q| ==> Holds(d, q[i])
  }

  /** A two-step path such as `customer.email` reaches a value exactly when the
      first field is an embedded document that has the second field. */
  lemma GetPathTwoSteps(d: Doc, a: string, b: string)
    ensures GetPath(d, [a, b]) ==
              if a in d && d[a].Obj? && b in d[a].fields then Some(d[a].fields[b]) else None
  {
    assert [a, b][1..] == [b];
  }

  /** `{key: v}` for a top-level key holds exactly when the document's field is `v`;
      for a null `v` that includes a missing field. */
  lemma HoldsTopLevel(d: Doc, key: string, v: Value)
    ensures Holds(d, Eq([key], v)) <==> Field(d, key) == v
  {
  }

  /** A filter with one condition matches exactly when that condition holds. */
  lemma MatchesOne(d: Doc, c: Condition)
    ensures Matches(d, [c]) <==> Holds(d, c)
  {
    assert [c][0] == c;
  }

  /** `MatchesOne` for every document at once. */
  lemma MatchesSingle(c: Condition)
    ensures forall d :: Matches(d, [c]) <==> Holds(d, c)
  {
    forall d
      ensures Matches(d, [c]) <==> Holds(d, c)
    {
      MatchesOne(d, c);
    }
  }

  /** A filter with two conditions matches exactly when both hold. */
  lemma MatchesPair(c1: Condition, c2: Condition)
    ensures forall d :: Matches(d, [c1, c2]) <==> Holds(d, c1) && Holds(d, c2)
  {
    forall d
      ensures Matches(d, [c1, c2]) <==> Holds(d, c1) && Holds(d, c2)
    {
      assert [c1, c2][0] == c1 && [c1, c2][1] == c2;
    }
  }

  /** `find(q)`: the documents that match, each under its own id. */
  function Find(t: Table, q: Query): (r: Table)
    ensures forall k :: k in r <==> k in t && Matches(t[k], q)
    ensures forall k :: k in r ==> r[k] == t[k]
  {
    map k | k in t && Matches(t[k], q) :: t[k]
  }

  /** No document with an id below `bound` matches. */
  ghost predicate NoneBelow(t: Table, q: Query, from: nat, bound: nat)
  {
    forall k :: from <= k < bound && k in t ==> !Matches(t[k], q)
  }

  /** The first matching document with an id in `[from, bound)`, in id order. */
  function FindFrom(t: Table, q: Query, from: nat, bound: nat): (r: Option<Id>)
    ensures r.Some? ==> from <= r.value < bound && r.value in t && Matches(t[r.value], q)
    ensures r.Some? ==> NoneBelow(t, q, from, r.value)
    ensures r.None? <==> NoneBelow(t, q, from, bound)
    decreases bound - from
  {
    if from >= bound then None
    else if from in t && Matches(t[from], q) then Some(from)
    else FindFrom(t, q, from + 1, bound)
  }

  /** `findOne(q)`: the first matching document in id order, which is insertion
      order because ids grow with every insert. `bound` exceeds every id in use. */
  function FindOne(t: Table, q: Query, bound: nat): (r: Option<Id>)
    ensures r.Some? ==> r.value < bound && r.value in t && Matches(t[r.value], q)
    ensures r.Some? ==> NoneBelow(t, q, 0, r.value)
    ensures r.None? <==> NoneBelow(t, q, 0, bound)
  {
    FindFrom(t, q, 0, bound)
  }

  /** `findOne` finds nothing exactly when `find` returns nothing. */
  lemma FindOneNoneIffFindEmpty(t: Table, q: Query, bound: nat)
    requires forall k :: k in t ==> k < bound
    ensures FindOne(t, q, bound).None? <==> Find(t, q) == map[]
  {
    if Find(t, q) != map[] {
      var k :| k in Find(t, q);
      assert k < bound && Matches(t[k], q);
    }
  }

  /** `$set: u`: each field of `u` is written, every other field is kept. */
  function SetFields(d: Doc, u: Doc): (r: Doc)
    ensures r.Keys == d.Keys + u.Keys
    ensures forall f :: f in u ==> r[f] == u[f]
    ensures forall f :: f in d && f !in u ==> r[f] == d[f]
  {
    d + u
  }

  /** `updateOne({_id: id}, {$set: u})`: only the document with that id changes,
      and an unknown id changes nothing. */
  function UpdateById(t: Table, id: Id, u: Doc): (r: Table)
    ensures r.Keys == t.Keys
    ensures id in t ==> r[id] == SetFields(t[id], u)
    ensures forall k :: k in t && k != id ==> r[k] == t[k]
  {
    if id in t then t[id := SetFields(t[id], u)] else t
  }

  /** `updateOne(q, {$set: u})`: the first matching document changes, no other. */
  function UpdateOne(t: Table, q: Query, u: Doc, bound: nat): (r: Table)
    ensures r.Keys == t.Keys
    ensures FindOne(t, q, bound).None? ==> r == t
    ensures FindOne(t, q, bound).Some? ==> r == UpdateById(t, FindOne(t, q, bound).value, u)
  {
    match FindOne(t, q, bound)
    case None => t
    case Some(k) => UpdateById(t, k, u)
  }

  /** `deleteOne(q)`: the first matching document is removed, no other. */
  function DeleteOne(t: Table, q: Query, bound: nat): (r: Table)
    ensures r.Keys <= t.Keys
    ensures |t.Keys - r.Keys| <= 1
    ensures forall k :: k in t && k !in r ==> Matches(t[k], q)
    ensures forall k :: k in r ==> r[k] == t[k]
    ensures r.Keys == t.Keys <==> NoneBelow(t, q, 0, bound)
    ensures forall k :: k in t && k !in r ==> NoneBelow(t, q, 0, k)
    ensures FindOne(t, q, bound).Some? ==> r == t - {FindOne(t, q, bound).value}
  {
    match FindOne(t, q, bound)
    case None => t
    case Some(k) =>
      assert (t - {k}).Keys == t.Keys - {k};
      assert t.Keys - (t.Keys - {k}) == {k};
      t - {k}
  }

  /** A projection `{f: 1, ...}`: only the listed fields are sent. */
  function Project(d: Doc, fields: set<string>): (r: Doc)
    ensures r.Keys == d.Keys * fields
    ensures forall f :: f in r ==> r[f] == d[f]
  {
    map f | f in d && f in fields :: d[f]
  }

  /** Writing the same fields twice leaves what writing them once leaves. */
  lemma UpdateByIdIdempotent(t: Table, id: Id, u: Doc)
    ensures UpdateById(UpdateById(t, id, u), id, u) == UpdateById(t, id, u)
  {
    if id in t {
      assert SetFields(SetFields(t[id], u), u) == SetFields(t[id], u);
    }
  }

  /** Of two `$set`s that write the same fields, the last one wins outright. */
  lemma UpdateByIdLastWins(t: Table, id: Id, u: Doc, v: Doc)
    requires u.Keys <= v.Keys
    ensures UpdateById(UpdateById(t, id, u), id, v) == UpdateById(t, id, v)
  {
    if id in t {
      assert SetFields(SetFields(t[id], u), v) == SetFields(t[id], v);
    }
  }

  /** A `$set` that does not write the fields a condition reads leaves the
      condition's verdict unchanged. */
  lemma SetFieldsKeepsHolds(d: Doc, u: Doc, c: Condition)
    requires c.path[0] !in u
    ensures Holds(SetFields(d, u), c) <==> Holds(d, c)
  {
    var r := SetFields(d, u);
    assert c.path[0] in r <==> c.path[0] in d;
    if c.path[0] in d {
      assert r[c.path[0]] == d[c.path[0]];
    }
    assert GetPath(r, c.path) == GetPath(d, c.path);
  }
}
