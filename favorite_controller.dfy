/** controllers/favoriteController.js: a renter's saved listings, kept
    as (user, property) pairs. models/Favorite.js is not part of this
    model; a favorite carries the fields the controller reads and writes,
    plus the creation time its `createdAt` sort relies on. */
module FavoriteController {
  import opened Common
  import opened Seqs
  import opened PropertySchema
  import PropertyController

  datatype Favorite = Favorite(id: Id, user: Id, property: Id, createdAt: nat)

  function FavoriteCreatedAt(f: Favorite): int { f.createdAt }

  predicate IsPair(f: Favorite, user: Id, property: Id) {
    f.user == user && f.property == property
  }

  /** The one-favorite-per-(user, property) rule. */
  ghost predicate NoDuplicatePairs(fs: seq<Favorite>) {
    forall i, j :: 0 <= i < j < |fs| ==> !IsPair(fs[j], fs[i].user, fs[i].property)
  }

  ghost predicate FavoritesInvariant(fs: seq<Favorite>, clock: nat) {
    && StrictlyIncreasing(fs, FavoriteCreatedAt)
    && (forall f :: f in fs ==> f.createdAt < clock)
    && NoDuplicatePairs(fs)
  }

  /** `Favorite.findOne({ user, property })`. */
  function IndexOfPair(fs: seq<Favorite>, user: Id, property: Id): (r: Option<nat>)
    ensures r.Some? ==> r.value < |fs| && IsPair(fs[r.value], user, property)
    ensures r.None? <==> forall f :: f in fs ==> !IsPair(f, user, property)
  {
    if fs == [] then None
    else if IsPair(fs[|fs| - 1], user, property) then Some(|fs| - 1)
    else
      var r := IndexOfPair(fs[..|fs| - 1], user, property);
      assert forall f :: f in fs ==> f in fs[..|fs| - 1] || f == fs[|fs| - 1];
      r
  }

  function IsFavorited(fs: seq<Favorite>, user: Id, property: Id): (r: bool)
    ensures r <==> exists f :: f in fs && IsPair(f, user, property)
  {
    IndexOfPair(fs, user, property).Some?
  }

  /** GET /api/favorites/check/:propertyId: always 200, never a write. */
  function CheckFavorite(fs: seq<Favorite>, user: Id, property: Id): (r: Reply<bool>)
    ensures r.Success? && r.status == 200
    ensures r.data <==> exists f :: f in fs && f.user == user && f.property == property
  {
    Success(200, IsFavorited(fs, user, property))
  }

  /** This user's favorites, newest first. */
  function UserFavorites(fs: seq<Favorite>, user: Id): (r: seq<Favorite>)
    ensures forall f :: f in r <==> f in fs && f.user == user
  {
    ReverseMembers(Filter(fs, (f: Favorite) => f.user == user));
    Reverse(Filter(fs, (f: Favorite) => f.user == user))
  }

  datatype FavoriteList = FavoriteList(count: nat, data: seq<Option<Property>>)

  /** GET /api/favorites: each favorite's listing, looked up by id; one
      whose listing has been deleted shows as `null`. */
  function GetFavorites(fs: seq<Favorite>, properties: seq<Property>, user: Id): (r: FavoriteList)
    ensures r.count == |r.data| == |UserFavorites(fs, user)|
    ensures forall i :: 0 <= i < |r.data| ==>
      r.data[i] == PropertyController.FindById(properties, UserFavorites(fs, user)[i].property)
  {
    var mine := UserFavorites(fs, user);
    var data := MapSeq(mine, (f: Favorite) => PropertyController.FindById(properties, f.property));
    FavoriteList(|data|, data)
  }

  /** Every listing in the list is one this user saved, and it exists. */
  lemma {:induction false} GetFavoritesAreOwn(fs: seq<Favorite>, properties: seq<Property>, user: Id, p: Property)
    requires Some(p) in GetFavorites(fs, properties, user).data
    ensures p in properties && IsFavorited(fs, user, p.id)
  {
    var r := GetFavorites(fs, properties, user);
    var i :| 0 <= i < |r.data| && r.data[i] == Some(p);
    var f := UserFavorites(fs, user)[i];
    assert f in UserFavorites(fs, user);
    assert IsPair(f, user, p.id);
  }

  lemma {:induction false} UserFavoritesNewestFirst(fs: seq<Favorite>, user: Id)
    requires StrictlyIncreasing(fs, FavoriteCreatedAt)
    ensures StrictlyDecreasing(UserFavorites(fs, user), FavoriteCreatedAt)
  {
    FilterKeepsIncreasing(fs, (f: Favorite) => f.user == user, FavoriteCreatedAt);
    ReverseTurnsIncreasingToDecreasing(Filter(fs, (f: Favorite) => f.user == user), FavoriteCreatedAt);
  }

  // ---------------------------------------------------------------
  // The invariant under insert and removal

  lemma {:induction false} InsertKeepsInvariant(fs: seq<Favorite>, clock: nat, f: Favorite)
    requires FavoritesInvariant(fs, clock)
    requires f.createdAt == clock && !IsFavorited(fs, f.user, f.property)
    ensures FavoritesInvariant(fs + [f], clock + 1)
  {
    var u := fs + [f];
    forall i, j | 0 <= i < j < |u|
      ensures FavoriteCreatedAt(u[i]) < FavoriteCreatedAt(u[j]) && !IsPair(u[j], u[i].user, u[i].property)
    {
      assert u[i] == fs[i] && fs[i] in fs;
      if j < |fs| { assert u[j] == fs[j]; }
    }
  }

  function RemoveAt<T>(s: seq<T>, i: nat): (r: seq<T>)
    requires i < |s|
    ensures |r| == |s| - 1
    ensures forall k :: 0 <= k < i ==> r[k] == s[k]
    ensures forall k :: i <= k < |r| ==> r[k] == s[k + 1]
  {
    s[..i] + s[i + 1..]
  }

  lemma {:induction false} RemoveKeepsInvariant(fs: seq<Favorite>, clock: nat, i: nat)
    requires FavoritesInvariant(fs, clock) && i < |fs|
    ensures FavoritesInvariant(RemoveAt(fs, i), clock)
  {
    var u := RemoveAt(fs, i);
    forall a, b | 0 <= a < b < |u|
      ensures FavoriteCreatedAt(u[a]) < FavoriteCreatedAt(u[b]) && !IsPair(u[b], u[a].user, u[a].property)
    {
      var a', b' := if a < i then a else a + 1, if b < i then b else b + 1;
      assert u[a] == fs[a'] && u[b] == fs[b'];
    }
    forall f | f in u ensures f.createdAt < clock {
      var k :| 0 <= k < |u| && u[k] == f;
      assert f == fs[if k < i then k else k + 1];
    }
  }

  /** With pairs unique, removing the one found removes exactly that
      pair and keeps every other favorite. */
  lemma {:induction false} RemoveExactlyThePair(fs: seq<Favorite>, i: nat, user: Id, property: Id)
    requires NoDuplicatePairs(fs) && i < |fs| && IsPair(fs[i], user, property)
    ensures forall f :: f in RemoveAt(fs, i) <==> f in fs && !IsPair(f, user, property)
  {
    var u := RemoveAt(fs, i);
    forall f ensures f in u <==> f in fs && !IsPair(f, user, property) {
      if f in u {
        var k :| 0 <= k < |u| && u[k] == f;
        var k' := if k < i then k else k + 1;
        assert f == fs[k'] && k' != i;
        if k' < i {
          assert !IsPair(fs[k'], fs[i].user, fs[i].property) by {
            assert !IsPair(fs[i], fs[k'].user, fs[k'].property);
          }
        } else {
          assert !IsPair(fs[k'], fs[i].user, fs[i].property);
        }
      }
      if f in fs && !IsPair(f, user, property) {
        var k :| 0 <= k < |fs| && fs[k] == f;
        assert k != i;
        assert f == u[if k < i then k else k - 1];
      }
    }
  }

  // ---------------------------------------------------------------
  // The store

  class FavoriteStore {
    var favorites: seq<Favorite>
    var clock: nat

    ghost predicate Valid()
      reads this
    {
      FavoritesInvariant(favorites, clock)
    }

    constructor()
      ensures Valid() && favorites == [] && clock == 0
    {
      favorites := [];
      clock := 0;
    }

    /** POST /api/favorites/:propertyId */
    method Add(properties: seq<Property>, user: Id, propertyId: Id) returns (reply: Reply<Property>)
      requires Valid()
      modifies this
      ensures Valid()
      ensures var found := PropertyController.FindById(properties, propertyId);
        && (found.None? ==> reply == Error(NotFound) && favorites == old(favorites) && clock == old(clock))
        && (found.Some? && IsFavorited(old(favorites), user, propertyId) ==>
              reply == Error(AlreadyFavorited) && favorites == old(favorites) && clock == old(clock))
        && (found.Some? && !IsFavorited(old(favorites), user, propertyId) ==>
              && reply == Success(201, found.value)
              && favorites == old(favorites) + [Favorite(old(clock), user, propertyId, old(clock))]
              && clock == old(clock) + 1)
      ensures reply.Success? ==> IsFavorited(favorites, user, propertyId) && reply.data.id == propertyId
    {
      var found := PropertyController.FindById(properties, propertyId);
      if found.None? {
        reply := Error(NotFound);
      } else if IsFavorited(favorites, user, propertyId) {
        reply := Error(AlreadyFavorited);
      } else {
        var f := Favorite(clock, user, propertyId, clock);
        InsertKeepsInvariant(favorites, clock, f);
        favorites := favorites + [f];
        clock := clock + 1;
        reply := Success(201, found.value);
      }
    }

    /** DELETE /api/favorites/:propertyId */
    method Remove(user: Id, propertyId: Id) returns (reply: Reply<()>)
      requires Valid()
      modifies this`favorites
      ensures Valid()
      ensures var i := IndexOfPair(old(favorites), user, propertyId);
        && (i.None? ==> reply == Error(NotFound) && favorites == old(favorites))
        && (i.Some? ==> reply == Success(200, ()) && favorites == RemoveAt(old(favorites), i.value))
      ensures reply.Success? ==> !IsFavorited(favorites, user, propertyId)
      ensures reply.Success? ==>
        forall f :: f in favorites <==> f in old(favorites) && !IsPair(f, user, propertyId)
    {
      var i := IndexOfPair(favorites, user, propertyId);
      if i.None? {
        reply := Error(NotFound);
      } else {
        RemoveKeepsInvariant(favorites, clock, i.value);
        RemoveExactlyThePair(favorites, i.value, user, propertyId);
        favorites := RemoveAt(favorites, i.value);
        reply := Success(200, ());
      }
    }
  }

  /** Sequential use: saving a listing twice is refused the second time,
      and after removal the check answers false. */
  method SaveTwiceThenRemove(properties: seq<Property>, user: Id, propertyId: Id)
    returns (first: Reply<Property>, second: Reply<Property>, removed: Reply<()>, check: Reply<bool>)
    requires PropertyController.FindById(properties, propertyId).Some?
    ensures first.Status() == 201 && first.data.id == propertyId
    ensures second == Error(AlreadyFavorited) && second.Status() == 400
    ensures removed == Success(200, ())
    ensures check == Success(200, false)
  {
    var store := new FavoriteStore();
    first := store.Add(properties, user, propertyId);
    second := store.Add(properties, user, propertyId);
    removed := store.Remove(user, propertyId);
    check := CheckFavorite(store.favorites, user, propertyId);
  }
}
