/** controllers/propertyController.js: the listing handlers. The
    collection is a table in insertion order; ids and creation times are
    drawn from one counter, so the table is ordered by both. Queries are
    functions of the table; `create`, `update` and `delete` are methods of
    `PropertyStore`, which owns it. */
module PropertyController {
  import opened Common
  import opened Seqs
  import opened Text
  import opened Schema
  import opened PropertySchema

  function CreatedAt(p: Property): int { p.createdAt }

  function IdOf(p: Property): int { p.id }

  /** What the collection keeps true between requests: insertion order is
      id order and creation order, every id was drawn before `clock`, and
      every stored listing passed the schema. */
  ghost predicate TableInvariant(t: seq<Property>, clock: nat) {
    && StrictlyIncreasing(t, IdOf)
    && StrictlyIncreasing(t, CreatedAt)
    && (forall p :: p in t ==> p.id < clock && p.createdAt < clock && WellFormed(p))
  }

  // ---------------------------------------------------------------
  // Lookup

  /** `findById`: where the listing with this id sits, if anywhere. */
  function IndexOf(t: seq<Property>, id: Id): (r: Option<nat>)
    ensures r.Some? ==> r.value < |t| && t[r.value].id == id
    ensures r.None? ==> forall p :: p in t ==> p.id != id
  {
    if t == [] then None
    else if t[|t| - 1].id == id then Some(|t| - 1)
    else
      var r := IndexOf(t[..|t| - 1], id);
      assert forall p :: p in t ==> p in t[..|t| - 1] || p == t[|t| - 1];
      r
  }

  function FindById(t: seq<Property>, id: Id): (r: Option<Property>)
    ensures r.Some? ==> r.value in t && r.value.id == id
    ensures r.None? <==> forall p :: p in t ==> p.id != id
  {
    var i := IndexOf(t, id);
    if i.Some? then Some(t[i.value]) else None
  }

  /** GET /api/properties/:id */
  function GetProperty(t: seq<Property>, id: Id): (r: Reply<Property>)
    ensures r.Error? <==> forall p :: p in t ==> p.id != id
    ensures r.Error? ==> r.failure == NotFound && r.Status() == 404
    ensures r.Success? ==> r.status == 200 && r.data in t && r.data.id == id
  {
    var found := FindById(t, id);
    if found.None? then Error(NotFound) else Success(200, found.value)
  }

  // ---------------------------------------------------------------
  // Queries

  /** The query string of GET /api/properties after parsing. An absent
      or empty `location` sets no filter; `price` is read and never used. */
  datatype Query = Query(
    location: Option<string>,
    bedrooms: Option<int>,
    price: Option<string>,
    page: Option<int>,
    limit: Option<int>)

  const DefaultPage: int := 1
  const DefaultLimit: int := 10
  const FeaturedLimit: nat := 6

  /** The filter `{ available: true, location: /loc/i, bedrooms: { $gte } }`
      a query builds: `Selects` on the query's `location` and `bedrooms`,
      so `price` and the paging fields play no part. `Selects` takes the
      two filter values alone because the handler builds the filter from
      them and nothing else. */
  predicate Matches(q: Query, p: Property) {
    Selects(q.location, q.bedrooms, p)
  }

  /** Only available listings pass; a `location` must occur in the
      listing's location ignoring case (the handler skips an empty one,
      which occurs everywhere anyway), and `bedrooms` is a lower bound.
      With neither set, every available listing passes. */
  function Selects(location: Option<string>, bedrooms: Option<int>, p: Property): (r: bool)
    ensures r <==> && p.available
                   && (location.Some? ==> Occurs(Lower(p.location), Lower(location.value)))
                   && (bedrooms.Some? ==> p.bedrooms >= bedrooms.value)
    ensures location.None? && bedrooms.None? ==> (r <==> p.available)
  {
    assert location.Some? ==> ContainsIgnoringCase(p.location, location.value) == Occurs(Lower(p.location), Lower(location.value));
    assert location == Some("") ==> ContainsIgnoringCase(p.location, location.value);
    && p.available
    && (location.Some? && location.value != "" ==> ContainsIgnoringCase(p.location, location.value))
    && (bedrooms.Some? ==> p.bedrooms >= bedrooms.value)
  }

  function Select(t: seq<Property>, location: Option<string>, bedrooms: Option<int>): seq<Property> {
    Filter(t, (p: Property) => Selects(location, bedrooms, p))
  }

  /** The listings the query's filter keeps, in table order; paging plays
      no part. */
  function Matching(t: seq<Property>, q: Query): (r: seq<Property>)
    ensures forall p :: p in r <==> p in t && Matches(q, p)
  {
    Select(t, q.location, q.bedrooms)
  }

  /** `.sort({ createdAt: -1 })` over a table kept in creation order. */
  function NewestFirst(s: seq<Property>): (r: seq<Property>)
    ensures |r| == |s|
    ensures forall p :: p in r <==> p in s
  {
    ReverseMembers(s);
    Reverse(s)
  }

  function PageOf(q: Query): int { OrElse(q.page, DefaultPage) }

  function LimitOf(q: Query): int { OrElse(q.limit, DefaultLimit) }

  /** `.skip((page - 1) * limit)`. */
  function SkipOf(q: Query): int { (PageOf(q) - 1) * LimitOf(q) }

  /** A cursor limit of 0 means no limit, and a negative one its size. */
  function CursorLimit(limit: int, available: nat): (n: nat)
    ensures limit != 0 ==> n == Abs(limit)
    ensures limit == 0 ==> n == available
  {
    if limit == 0 then available else Abs(limit)
  }

  datatype Page = Page(count: nat, total: nat, data: seq<Property>)

  /** GET /api/properties: filter, newest first, then the page. A negative
      skip is refused by the database and answered with 400. */
  function GetProperties(t: seq<Property>, q: Query): (r: Reply<Page>)
    ensures r.Error? <==> SkipOf(q) < 0
    ensures r.Error? ==> r.failure == BadQuery && r.Status() == 400
    ensures r.Success? ==> && r.status == 200
                           && r.data.total == |Matching(t, q)|
                           && r.data.count == |r.data.data| <= r.data.total
    ensures r.Success? ==> forall p :: p in r.data.data ==> p in t && Matches(q, p)
    ensures r.Success? && LimitOf(q) != 0 ==> |r.data.data| <= Abs(LimitOf(q))
    ensures r.Success? ==>
      |r.data.data| == (if LimitOf(q) == 0 then Max(0, |Matching(t, q)| - SkipOf(q))
                        else Max(0, Min(Abs(LimitOf(q)), |Matching(t, q)| - SkipOf(q))))
    ensures r.Success? ==> r.data.data == [] || SkipOf(q) + |r.data.data| <= r.data.total
    ensures r.Success? ==> forall i :: 0 <= i < |r.data.data| ==>
      r.data.data[i] == NewestFirst(Matching(t, q))[SkipOf(q) + i]
  {
    var all := NewestFirst(Matching(t, q));
    if SkipOf(q) < 0 then Error(BadQuery)
    else
      var data := Window(all, SkipOf(q), CursorLimit(LimitOf(q), |all|));
      WindowMembers(all, SkipOf(q), CursorLimit(LimitOf(q), |all|));
      Success(200, Page(|data|, |all|, data))
  }

  function IsFeaturedAvailable(p: Property): bool { p.featured && p.available }

  /** GET /api/properties/featured: the six newest featured, available
      listings (the database sorts before it limits). */
  function Featured(t: seq<Property>): (r: seq<Property>)
    ensures |r| <= FeaturedLimit
    ensures forall p :: p in r ==> p in t && p.featured && p.available
  {
    var all := NewestFirst(Filter(t, IsFeaturedAvailable));
    WindowMembers(all, 0, FeaturedLimit);
    Window(all, 0, FeaturedLimit)
  }

  /** GET /api/properties/agent/my-properties */
  function MyProperties(t: seq<Property>, agent: Id): (r: seq<Property>)
    ensures forall p :: p in r <==> p in t && p.agent == agent
  {
    NewestFirst(Filter(t, (p: Property) => p.agent == agent))
  }

  // ---------------------------------------------------------------
  // Facts about the queries

  lemma {:induction false} NewestFirstIsDecreasing(t: seq<Property>, p: Property -> bool)
    requires StrictlyIncreasing(t, CreatedAt)
    ensures StrictlyDecreasing(NewestFirst(Filter(t, p)), CreatedAt)
  {
    FilterKeepsIncreasing(t, p, CreatedAt);
    ReverseTurnsIncreasingToDecreasing(Filter(t, p), CreatedAt);
  }

  /** A page lists its listings newest first. */
  lemma {:induction false} GetPropertiesNewestFirst(t: seq<Property>, q: Query)
    requires StrictlyIncreasing(t, CreatedAt) && SkipOf(q) >= 0
    ensures StrictlyDecreasing(GetProperties(t, q).data.data, CreatedAt)
  {
    var all := NewestFirst(Matching(t, q));
    NewestFirstIsDecreasing(t, (p: Property) => Selects(q.location, q.bedrooms, p));
    WindowKeepsDecreasing(all, SkipOf(q), CursorLimit(LimitOf(q), |all|), CreatedAt);
  }

  /** With no paging parameters: the ten newest matches. */
  lemma DefaultPageIsTenNewest(t: seq<Property>, q: Query)
    requires q.page.None? && q.limit.None?
    ensures var r := GetProperties(t, q);
      && r.Success?
      && r.data.data == NewestFirst(Matching(t, q))[..Min(10, r.data.total)]
  {
  }

  lemma MultiplyMonotone(a: int, b: int, l: int)
    requires a <= b && l >= 0
    ensures a * l <= b * l
  {
  }

  /** Two different pages of the same query, with the same positive
      limit, have no listing in common. */
  lemma {:induction false} PagesDisjoint(t: seq<Property>, q: Query, a: int, b: int)
    requires StrictlyIncreasing(t, CreatedAt)
    requires 1 <= a < b && LimitOf(q) > 0
    ensures var r, s := GetProperties(t, q.(page := Some(a))), GetProperties(t, q.(page := Some(b)));
      r.Success? && s.Success? && forall p :: p in r.data.data ==> p !in s.data.data
  {
    var qa, qb := q.(page := Some(a)), q.(page := Some(b));
    var l := LimitOf(q);
    var all := NewestFirst(Matching(t, q));
    MultiplyMonotone(a, b - 1, l);
    MultiplyMonotone(0, a - 1, l);
    assert SkipOf(qa) == (a - 1) * l && SkipOf(qb) == (b - 1) * l;
    assert SkipOf(qa) + l <= SkipOf(qb);
    NewestFirstIsDecreasing(t, (p: Property) => Selects(q.location, q.bedrooms, p));
    WindowsDisjoint(all, CreatedAt, SkipOf(qa), SkipOf(qb), l);
  }

  /** The `price` parameter changes nothing. */
  lemma PriceIgnored(t: seq<Property>, q: Query, price: Option<string>)
    ensures GetProperties(t, q.(price := price)) == GetProperties(t, q)
  {
  }

  /** A featured, available listing left out of the featured list is older
      than all six that are in it. */
  lemma {:induction false} FeaturedAreTheNewest(t: seq<Property>, x: Property)
    requires StrictlyIncreasing(t, CreatedAt)
    requires x in t && x.featured && x.available && x !in Featured(t)
    ensures |Featured(t)| == FeaturedLimit
    ensures forall y :: y in Featured(t) ==> y.createdAt > x.createdAt
  {
    var all := NewestFirst(Filter(t, IsFeaturedAvailable));
    var r := Featured(t);
    NewestFirstIsDecreasing(t, IsFeaturedAvailable);
    assert x in all;
    var k :| 0 <= k < |all| && all[k] == x;
    assert k >= |r|;
    forall y | y in r ensures y.createdAt > x.createdAt {
      var i :| 0 <= i < |r| && r[i] == y;
      assert all[i] == y;
    }
  }

  lemma {:induction false} FeaturedNewestFirst(t: seq<Property>)
    requires StrictlyIncreasing(t, CreatedAt)
    ensures StrictlyDecreasing(Featured(t), CreatedAt)
  {
    var all := NewestFirst(Filter(t, IsFeaturedAvailable));
    NewestFirstIsDecreasing(t, IsFeaturedAvailable);
    WindowKeepsDecreasing(all, 0, FeaturedLimit, CreatedAt);
  }

  lemma {:induction false} MyPropertiesNewestFirst(t: seq<Property>, agent: Id)
    requires StrictlyIncreasing(t, CreatedAt)
    ensures StrictlyDecreasing(MyProperties(t, agent), CreatedAt)
  {
    NewestFirstIsDecreasing(t, (p: Property) => p.agent == agent);
  }

  // ---------------------------------------------------------------
  // The table invariant under the three writes

  lemma {:induction false} AppendKeepsInvariant(t: seq<Property>, clock: nat, p: Property)
    requires TableInvariant(t, clock)
    requires p.id == clock && p.createdAt == clock && WellFormed(p)
    ensures TableInvariant(t + [p], clock + 1)
  {
    var u := t + [p];
    forall i, j | 0 <= i < j < |u| ensures IdOf(u[i]) < IdOf(u[j]) && CreatedAt(u[i]) < CreatedAt(u[j]) {
      assert u[i] == t[i] && u[i] in t;
      if j < |t| { assert u[j] == t[j]; }
    }
  }

  lemma {:induction false} ReplaceKeepsInvariant(t: seq<Property>, clock: nat, i: nat, p: Property)
    requires TableInvariant(t, clock) && i < |t|
    requires p.id == t[i].id && p.createdAt == t[i].createdAt && WellFormed(p)
    ensures TableInvariant(t[i := p], clock)
  {
    var u := t[i := p];
    forall a, b | 0 <= a < b < |u| ensures IdOf(u[a]) < IdOf(u[b]) && CreatedAt(u[a]) < CreatedAt(u[b]) {
      assert IdOf(u[a]) == IdOf(t[a]) && IdOf(u[b]) == IdOf(t[b]);
      assert CreatedAt(u[a]) == CreatedAt(t[a]) && CreatedAt(u[b]) == CreatedAt(t[b]);
    }
    forall x | x in u ensures x.id < clock && x.createdAt < clock && WellFormed(x) {
      var k :| 0 <= k < |u| && u[k] == x;
      if k != i { assert u[k] == t[k]; } else { assert t[i] in t; }
    }
  }

  /** The table with the listing of this id removed. */
  function Without(t: seq<Property>, id: Id): (r: seq<Property>)
    ensures forall p :: p in r <==> p in t && p.id != id
  {
    Filter(t, (p: Property) => p.id != id)
  }

  lemma {:induction false} RemoveKeepsInvariant(t: seq<Property>, clock: nat, id: Id)
    requires TableInvariant(t, clock)
    ensures TableInvariant(Without(t, id), clock)
  {
    FilterKeepsIncreasing(t, (p: Property) => p.id != id, IdOf);
    FilterKeepsIncreasing(t, (p: Property) => p.id != id, CreatedAt);
  }

  // ---------------------------------------------------------------
  // The store

  class PropertyStore {
    var table: seq<Property>
    var clock: nat

    ghost predicate Valid()
      reads this
    {
      TableInvariant(table, clock)
    }

    constructor()
      ensures Valid() && table == [] && clock == 0
    {
      table := [];
      clock := 0;
    }

    /** POST /api/properties: the requester becomes the agent, whatever
        the body said; a body the schema refuses stores nothing. */
    method Create(requester: Id, body: PropertyBody) returns (reply: Reply<Property>)
      requires Valid()
      modifies this
      ensures Valid()
      ensures var r := PropertySchema.Create(body.(agent := Some(requester)), old(clock), old(clock));
        && (r.Invalid? ==> && reply == Error(ValidationFailed(r.violations))
                           && table == old(table) && clock == old(clock))
        && (r.Ok? ==> && reply == Success(201, r.value)
                      && table == old(table) + [r.value] && clock == old(clock) + 1)
      ensures reply.Success? ==> reply.data.agent == requester && reply.data.id == old(clock)
      ensures reply.Success? ==> forall p :: p in old(table) ==> p.id != reply.data.id
    {
      var r := PropertySchema.Create(body.(agent := Some(requester)), clock, clock);
      if r.Invalid? {
        reply := Error(ValidationFailed(r.violations));
      } else {
        AppendKeepsInvariant(table, clock, r.value);
        table := table + [r.value];
        clock := clock + 1;
        reply := Success(201, r.value);
      }
    }

    /** PUT /api/properties/:id: only the owning agent may update; the
        update's set paths are validated and written, and only that
        listing changes. */
    method Update(requester: Id, id: Id, body: PropertyBody) returns (reply: Reply<Property>)
      requires Valid()
      modifies this`table
      ensures Valid()
      ensures var i := IndexOf(old(table), id);
        && (i.None? ==> reply == Error(NotFound) && table == old(table))
        && (i.Some? && old(table)[i.value].agent != requester ==>
              reply == Error(NotOwner) && table == old(table))
        && (i.Some? && old(table)[i.value].agent == requester ==>
              var r := ApplyUpdate(old(table)[i.value], body);
              && (r.Invalid? ==> reply == Error(ValidationFailed(r.violations)) && table == old(table))
              && (r.Ok? ==> reply == Success(200, r.value) && table == old(table)[i.value := r.value]))
      ensures reply.Success? ==> reply.data.id == id
    {
      var i := IndexOf(table, id);
      if i.None? {
        reply := Error(NotFound);
      } else if table[i.value].agent != requester {
        reply := Error(NotOwner);
      } else {
        var r := ApplyUpdate(table[i.value], body);
        if r.Invalid? {
          reply := Error(ValidationFailed(r.violations));
        } else {
          UpdateKeepsWellFormed(table[i.value], body);
          ReplaceKeepsInvariant(table, clock, i.value, r.value);
          table := table[i.value := r.value];
          reply := Success(200, r.value);
        }
      }
    }

    /** DELETE /api/properties/:id: the same two checks, then the listing
        is gone and every other one stays. */
    method Delete(requester: Id, id: Id) returns (reply: Reply<()>)
      requires Valid()
      modifies this`table
      ensures Valid()
      ensures var found := FindById(old(table), id);
        && (found.None? ==> reply == Error(NotFound) && table == old(table))
        && (found.Some? && found.value.agent != requester ==>
              reply == Error(NotOwner) && table == old(table))
        && (found.Some? && found.value.agent == requester ==>
              reply == Success(200, ()) && table == Without(old(table), id))
      ensures reply.Success? ==> forall p :: p in table <==> p in old(table) && p.id != id
    {
      var found := FindById(table, id);
      if found.None? {
        reply := Error(NotFound);
      } else if found.value.agent != requester {
        reply := Error(NotOwner);
      } else {
        RemoveKeepsInvariant(table, clock, id);
        table := Without(table, id);
        reply := Success(200, ());
      }
    }
  }
}
