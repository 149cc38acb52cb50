/**
 * The cafe controller of src/controllers/cafeController.js. `listCafes` and
 * `getCafeById` only read the cafes collection. `saveCafe`, `deleteCafe`,
 * `toggleCafeStatus` and `toggleLike` read the whole collection, build a new list
 * and write the whole list back. The list transforms are the functions below, the
 * operations the methods at the end.
 */
module CafeController {
  import opened Wrappers
  import opened Text
  import opened Validators
  import opened CafeModel
  import opened Storage

  const RequiredMessage: string := "Preencha todos os campos obrigatorios."
  const CnpjMessage: string := "CNPJ precisa ter 14 digitos."

  // ---------------------------------------------------------------------------
  // List transforms
  // ---------------------------------------------------------------------------

  /** `cafes.find((c) => c.id === id)`: the first cafe with that id, if any. */
  function FindById(cafes: seq<Cafe>, id: string): (r: Option<Cafe>)
    ensures r.None? <==> forall i :: 0 <= i < |cafes| ==> cafes[i].id != id
    ensures r.Some? ==> exists k :: 0 <= k < |cafes| && cafes[k] == r.value && r.value.id == id
                          && forall j :: 0 <= j < k ==> cafes[j].id != id
  {
    if cafes == [] then None
    else if cafes[0].id == id then Some(cafes[0])
    else
      var r := FindById(cafes[1..], id);
      assert r.Some? ==> exists k :: 0 <= k < |cafes[1..]| && cafes[1..][k] == r.value && r.value.id == id
                          && forall j :: 0 <= j < k ==> cafes[1..][j].id != id;
      assert r.Some? ==> exists k :: 1 <= k < |cafes| && cafes[k] == r.value && r.value.id == id
                          && forall j :: 0 <= j < k ==> cafes[j].id != id;
      r
  }

  /** `cafes.map((c) => (c.id === cafe.id ? cafe : c))`: every entry with that id replaced. */
  function ReplaceById(cafes: seq<Cafe>, cafe: Cafe): (r: seq<Cafe>)
    ensures |r| == |cafes|
    ensures forall i :: 0 <= i < |cafes| ==> r[i] == if cafes[i].id == cafe.id then cafe else cafes[i]
  {
    if cafes == [] then []
    else [if cafes[0].id == cafe.id then cafe else cafes[0]] + ReplaceById(cafes[1..], cafe)
  }

  /** The collection `saveCafe` writes: matching entries replaced in place, or the cafe appended. */
  function Upsert(cafes: seq<Cafe>, cafe: Cafe): seq<Cafe>
  {
    if FindById(cafes, cafe.id).Some? then ReplaceById(cafes, cafe) else cafes + [cafe]
  }

  /** `cafes.filter((c) => c.id !== id)`. */
  function RemoveById(cafes: seq<Cafe>, id: string): (r: seq<Cafe>)
    ensures |r| <= |cafes|
  {
    if cafes == [] then []
    else (if cafes[0].id != id then [cafes[0]] else []) + RemoveById(cafes[1..], id)
  }

  /** `cafes.map((cafe) => cafe.id === id ? { ...cafe, active: !cafe.active } : cafe)`. */
  function ToggleActiveById(cafes: seq<Cafe>, id: string): (r: seq<Cafe>)
    ensures |r| == |cafes|
    ensures forall i :: 0 <= i < |cafes| ==>
      r[i] == if cafes[i].id == id then cafes[i].(active := !cafes[i].active) else cafes[i]
  {
    if cafes == [] then []
    else
      var head := if cafes[0].id == id then cafes[0].(active := !cafes[0].active) else cafes[0];
      [head] + ToggleActiveById(cafes[1..], id)
  }

  /** `likedBy.filter((uid) => uid !== userId)`. */
  function Without(likedBy: seq<string>, userId: string): (r: seq<string>)
    ensures userId !in r
    ensures forall u :: u in r ==> u in likedBy
    ensures forall u :: u in likedBy && u != userId ==> u in r
  {
    if likedBy == [] then []
    else (if likedBy[0] != userId then [likedBy[0]] else []) + Without(likedBy[1..], userId)
  }

  /** One cafe's likes after a toggle: every occurrence removed if present, else appended. */
  function ToggledLikes(likedBy: seq<string>, userId: string): seq<string>
  {
    if userId in likedBy then Without(likedBy, userId) else likedBy + [userId]
  }

  /** The `map` of `toggleLike`: the likes of every cafe with that id toggled. */
  function ToggleLikeById(cafes: seq<Cafe>, id: string, userId: string): (r: seq<Cafe>)
    ensures |r| == |cafes|
    ensures forall i :: 0 <= i < |cafes| ==>
      r[i] == if cafes[i].id == id then cafes[i].(likedBy := ToggledLikes(cafes[i].likedBy, userId)) else cafes[i]
  {
    if cafes == [] then []
    else
      var head := if cafes[0].id == id then cafes[0].(likedBy := ToggledLikes(cafes[0].likedBy, userId)) else cafes[0];
      [head] + ToggleLikeById(cafes[1..], id, userId)
  }

  /** The eleven fields `saveCafe` requires, in the order it lists them. */
  function RequiredCafeFields(p: CafePayload): seq<Option<string>>
  {
    [p.name, p.street, p.number, p.zip, p.neighborhood, p.city, p.state, p.latitude, p.longitude, p.cnpj, p.averageTicket]
  }

  predicate NoDuplicates(s: seq<string>)
  {
    forall i, j :: 0 <= i < j < |s| ==> s[i] != s[j]
  }

  predicate UniqueIds(cafes: seq<Cafe>)
  {
    forall i, j :: 0 <= i < j < |cafes| ==> cafes[i].id != cafes[j].id
  }

  predicate LikesUnique(cafes: seq<Cafe>)
  {
    forall i :: 0 <= i < |cafes| ==> NoDuplicates(cafes[i].likedBy)
  }

  // ---------------------------------------------------------------------------
  // Properties of the transforms
  // ---------------------------------------------------------------------------

  /**
   * Upsert by id: an existing id has every matching entry replaced where it stands,
   * the length and all other entries unchanged; a new id is appended at the end.
   */
  lemma UpsertSpec(cafes: seq<Cafe>, cafe: Cafe)
    ensures (exists i :: 0 <= i < |cafes| && cafes[i].id == cafe.id) ==>
      && |Upsert(cafes, cafe)| == |cafes|
      && forall i :: 0 <= i < |cafes| ==>
           Upsert(cafes, cafe)[i] == if cafes[i].id == cafe.id then cafe else cafes[i]
    ensures (forall i :: 0 <= i < |cafes| ==> cafes[i].id != cafe.id) ==>
      Upsert(cafes, cafe) == cafes + [cafe]
    ensures FindById(Upsert(cafes, cafe), cafe.id) == Some(cafe)
  {
    var r := Upsert(cafes, cafe);
    if FindById(cafes, cafe.id).Some? {
      var k :| 0 <= k < |cafes| && cafes[k].id == cafe.id;
      assert r[k] == cafe;
      FindWhenAllMatchesEqual(r, cafe, k);
    } else {
      assert r[|cafes|] == cafe;
      FindWhenAllMatchesEqual(r, cafe, |cafes|);
    }
  }

  /** When every entry with the cafe's id is that cafe, finding the id finds it. */
  lemma FindWhenAllMatchesEqual(cafes: seq<Cafe>, cafe: Cafe, k: nat)
    requires k < |cafes| && cafes[k].id == cafe.id
    requires forall i :: 0 <= i < |cafes| && cafes[i].id == cafe.id ==> cafes[i] == cafe
    ensures FindById(cafes, cafe.id) == Some(cafe)
  {
  }

  /** Saving twice under one id is an update, not a second insert: the second cafe wins. */
  lemma UpsertTwice(cafes: seq<Cafe>, first: Cafe, second: Cafe)
    requires first.id == second.id
    ensures |Upsert(Upsert(cafes, first), second)| == |Upsert(cafes, first)|
    ensures FindById(Upsert(Upsert(cafes, first), second), second.id) == Some(second)
  {
    UpsertSpec(cafes, first);
    UpsertSpec(Upsert(cafes, first), second);
  }

  /** Upserting keeps the ids of a collection distinct. */
  lemma UpsertKeepsIdsUnique(cafes: seq<Cafe>, cafe: Cafe)
    requires UniqueIds(cafes)
    ensures UniqueIds(Upsert(cafes, cafe))
  {
    UpsertSpec(cafes, cafe);
    var r := Upsert(cafes, cafe);
    if FindById(cafes, cafe.id).None? {
      forall i, j | 0 <= i < j < |r| ensures r[i].id != r[j].id {
        if j == |cafes| {
          assert r[i] == cafes[i];
        }
      }
    }
  }

  /** Deleting keeps the entries whose id differs, in order: it is a filter that distributes over concatenation. */
  lemma {:induction false} RemoveByIdConcat(a: seq<Cafe>, b: seq<Cafe>, id: string)
    ensures RemoveById(a + b, id) == RemoveById(a, id) + RemoveById(b, id)
  {
    if a == [] {
      assert a + b == b;
    } else {
      var ab := a + b;
      var head := if a[0].id != id then [a[0]] else [];
      var x, y := RemoveById(a[1..], id), RemoveById(b, id);
      assert ab[0] == a[0] && ab[1..] == a[1..] + b;
      RemoveByIdConcat(a[1..], b, id);
      assert RemoveById(ab, id) == head + (x + y);
      assert head + (x + y) == (head + x) + y;
    }
  }

  /** Deleting an id no entry has leaves the collection unchanged. */
  lemma {:induction false} RemoveByIdAbsent(cafes: seq<Cafe>, id: string)
    requires forall i :: 0 <= i < |cafes| ==> cafes[i].id != id
    ensures RemoveById(cafes, id) == cafes
  {
    if cafes != [] {
      RemoveByIdAbsent(cafes[1..], id);
    }
  }

  /** Deleting counts entries exactly: none with the id survive, every other one keeps its multiplicity. */
  lemma {:induction false} RemoveByIdCounts(cafes: seq<Cafe>, id: string, c: Cafe)
    ensures multiset(RemoveById(cafes, id))[c] == if c.id == id then 0 else multiset(cafes)[c]
  {
    if cafes != [] {
      var head := if cafes[0].id != id then [cafes[0]] else [];
      assert RemoveById(cafes, id) == head + RemoveById(cafes[1..], id);
      assert multiset(RemoveById(cafes, id)) == multiset(head) + multiset(RemoveById(cafes[1..], id));
      MultisetOfCons(cafes);
      RemoveByIdCounts(cafes[1..], id, c);
    }
  }

  lemma MultisetOfCons<T>(s: seq<T>)
    requires s != []
    ensures multiset(s) == multiset{s[0]} + multiset(s[1..])
  {
    assert s == [s[0]] + s[1..];
  }

  /** Deleting keeps exactly the entries whose id differs. */
  lemma {:induction false} RemoveByIdMembers(cafes: seq<Cafe>, id: string)
    ensures forall c :: c in RemoveById(cafes, id) <==> c in cafes && c.id != id
  {
    if cafes != [] {
      RemoveByIdMembers(cafes[1..], id);
      assert cafes == [cafes[0]] + cafes[1..];
    }
  }

  /** Deleting twice is deleting once. */
  lemma RemoveByIdIdempotent(cafes: seq<Cafe>, id: string)
    ensures RemoveById(RemoveById(cafes, id), id) == RemoveById(cafes, id)
  {
    var r := RemoveById(cafes, id);
    RemoveByIdMembers(cafes, id);
    forall i | 0 <= i < |r| ensures r[i].id != id {
      assert r[i] in r;
    }
    RemoveByIdAbsent(r, id);
  }

  /** Deleting the id of a freshly appended cafe undoes the append. */
  lemma RemoveUndoesInsert(cafes: seq<Cafe>, cafe: Cafe)
    requires forall i :: 0 <= i < |cafes| ==> cafes[i].id != cafe.id
    ensures RemoveById(Upsert(cafes, cafe), cafe.id) == cafes
  {
    UpsertSpec(cafes, cafe);
    RemoveByIdConcat(cafes, [cafe], cafe.id);
    RemoveByIdAbsent(cafes, cafe.id);
  }

  /** Flipping `active` twice restores the collection. */
  lemma ToggleActiveInvolution(cafes: seq<Cafe>, id: string)
    ensures ToggleActiveById(ToggleActiveById(cafes, id), id) == cafes
  {
    var r := ToggleActiveById(ToggleActiveById(cafes, id), id);
    assert forall i :: 0 <= i < |cafes| ==> r[i] == cafes[i];
  }

  /** What `toggleCafeStatus` returns: the first match, with `active` flipped, or nothing. */
  lemma {:induction false} FindAfterToggleActive(cafes: seq<Cafe>, id: string)
    ensures FindById(ToggleActiveById(cafes, id), id) ==
      match FindById(cafes, id)
      case None => None
      case Some(c) => Some(c.(active := !c.active))
  {
    if cafes != [] {
      FindAfterToggleActive(cafes[1..], id);
      assert ToggleActiveById(cafes, id)[1..] == ToggleActiveById(cafes[1..], id);
    }
  }

  /** A list without `userId` has nothing to filter out. */
  lemma {:induction false} WithoutAbsent(likedBy: seq<string>, userId: string)
    requires userId !in likedBy
    ensures Without(likedBy, userId) == likedBy
  {
    if likedBy != [] {
      WithoutAbsent(likedBy[1..], userId);
    }
  }

  /** Removing a like keeps the other likes in order: the filter distributes over concatenation. */
  lemma {:induction false} WithoutConcat(a: seq<string>, b: seq<string>, userId: string)
    ensures Without(a + b, userId) == Without(a, userId) + Without(b, userId)
  {
    if a == [] {
      assert a + b == b;
    } else {
      var ab := a + b;
      var head := if a[0] != userId then [a[0]] else [];
      var x, y := Without(a[1..], userId), Without(b, userId);
      assert ab[0] == a[0] && ab[1..] == a[1..] + b;
      WithoutConcat(a[1..], b, userId);
      assert Without(ab, userId) == head + (x + y);
      assert head + (x + y) == (head + x) + y;
    }
  }

  /** Removing a like drops every copy of that user and keeps every other user's count. */
  lemma {:induction false} WithoutCounts(likedBy: seq<string>, userId: string, u: string)
    ensures multiset(Without(likedBy, userId))[u] == if u == userId then 0 else multiset(likedBy)[u]
  {
    if likedBy != [] {
      var head := if likedBy[0] != userId then [likedBy[0]] else [];
      assert Without(likedBy, userId) == head + Without(likedBy[1..], userId);
      assert multiset(Without(likedBy, userId)) == multiset(head) + multiset(Without(likedBy[1..], userId));
      MultisetOfCons(likedBy);
      WithoutCounts(likedBy[1..], userId, u);
    }
  }

  /** Filtering keeps a duplicate-free list duplicate-free. */
  lemma {:induction false} WithoutNoDuplicates(likedBy: seq<string>, userId: string)
    requires NoDuplicates(likedBy)
    ensures NoDuplicates(Without(likedBy, userId))
  {
    if likedBy != [] {
      var tail := likedBy[1..];
      assert NoDuplicates(tail) by {
        forall i, j | 0 <= i < j < |tail| ensures tail[i] != tail[j] {
          assert tail[i] == likedBy[i + 1] && tail[j] == likedBy[j + 1];
        }
      }
      WithoutNoDuplicates(tail, userId);
      assert likedBy[0] !in tail by {
        forall i | 0 <= i < |tail| ensures tail[i] != likedBy[0] {
          assert tail[i] == likedBy[i + 1];
        }
      }
      var rest := Without(tail, userId);
      assert likedBy[0] !in rest;
    }
  }

  /**
   * Toggling a like: the user's membership flips and nobody else's changes, and a
   * duplicate-free list stays duplicate-free.
   */
  lemma ToggledLikesSpec(likedBy: seq<string>, userId: string)
    ensures userId in ToggledLikes(likedBy, userId) <==> userId !in likedBy
    ensures forall u :: u != userId ==> (u in ToggledLikes(likedBy, userId) <==> u in likedBy)
    ensures NoDuplicates(likedBy) ==> NoDuplicates(ToggledLikes(likedBy, userId))
  {
    if NoDuplicates(likedBy) {
      if userId in likedBy {
        WithoutNoDuplicates(likedBy, userId);
      } else {
        var r := likedBy + [userId];
        forall i, j | 0 <= i < j < |r| ensures r[i] != r[j] {
          if j == |likedBy| {
            assert r[i] == likedBy[i];
          }
        }
      }
    }
  }

  /** Toggling twice restores membership, and the exact list when the user had not liked the cafe. */
  lemma ToggledLikesTwice(likedBy: seq<string>, userId: string)
    ensures userId in ToggledLikes(ToggledLikes(likedBy, userId), userId) <==> userId in likedBy
    ensures userId !in likedBy ==> ToggledLikes(ToggledLikes(likedBy, userId), userId) == likedBy
  {
    ToggledLikesSpec(likedBy, userId);
    ToggledLikesSpec(ToggledLikes(likedBy, userId), userId);
    if userId !in likedBy {
      var once := likedBy + [userId];
      assert userId in once;
      WithoutConcatLast(likedBy, userId);
      WithoutAbsent(likedBy, userId);
    }
  }

  lemma {:induction false} WithoutConcatLast(likedBy: seq<string>, userId: string)
    ensures Without(likedBy + [userId], userId) == Without(likedBy, userId)
  {
    if likedBy == [] {
      assert [] + [userId] == [userId];
    } else {
      assert (likedBy + [userId])[1..] == likedBy[1..] + [userId];
      WithoutConcatLast(likedBy[1..], userId);
    }
  }

  /** `toggleLike` keeps every cafe's likes duplicate-free. */
  lemma ToggleLikeKeepsLikesUnique(cafes: seq<Cafe>, id: string, userId: string)
    requires LikesUnique(cafes)
    ensures LikesUnique(ToggleLikeById(cafes, id, userId))
  {
    forall i | 0 <= i < |cafes| && cafes[i].id == id
      ensures NoDuplicates(ToggledLikes(cafes[i].likedBy, userId))
    {
      ToggledLikesSpec(cafes[i].likedBy, userId);
    }
  }

  /**
   * Toggling the same like twice restores every cafe's membership of the user, and
   * the whole collection when no matching cafe had the user's like.
   */
  lemma ToggleLikeTwice(cafes: seq<Cafe>, id: string, userId: string)
    ensures var r := ToggleLikeById(ToggleLikeById(cafes, id, userId), id, userId);
      forall i :: 0 <= i < |cafes| ==> (userId in r[i].likedBy <==> userId in cafes[i].likedBy)
    ensures (forall i :: 0 <= i < |cafes| && cafes[i].id == id ==> userId !in cafes[i].likedBy) ==>
      ToggleLikeById(ToggleLikeById(cafes, id, userId), id, userId) == cafes
  {
    var r := ToggleLikeById(ToggleLikeById(cafes, id, userId), id, userId);
    forall i | 0 <= i < |cafes| && cafes[i].id == id
      ensures r[i] == cafes[i].(likedBy := ToggledLikes(ToggledLikes(cafes[i].likedBy, userId), userId))
    {
    }
    forall i | 0 <= i < |cafes| && cafes[i].id == id
      ensures userId in r[i].likedBy <==> userId in cafes[i].likedBy
      ensures userId !in cafes[i].likedBy ==> r[i] == cafes[i]
    {
      ToggledLikesTwice(cafes[i].likedBy, userId);
    }
    if forall i :: 0 <= i < |cafes| && cafes[i].id == id ==> userId !in cafes[i].likedBy {
      assert forall i :: 0 <= i < |cafes| ==> r[i] == cafes[i];
    }
  }

  /**
   * The two example cafes get their ids from `Date.now()` in one synchronous
   * expression; when both calls fall in the same millisecond the ids coincide,
   * and deleting either example deletes both.
   */
  lemma SeedCafesSameMillisecond(now: string)
    ensures RemoveById(SeedCafes(now, now), now) == []
  {
  }

  // ---------------------------------------------------------------------------
  // Operations on the store
  // ---------------------------------------------------------------------------

  /** `listCafes`. */
  method ListCafes(st: Store) returns (cafes: seq<Cafe>)
    ensures cafes == st.Cafes()
  {
    cafes := st.GetCafes();
  }

  /** `getCafeById`. */
  method GetCafeById(st: Store, id: string) returns (cafe: Option<Cafe>)
    ensures cafe == FindById(st.Cafes(), id)
  {
    var cafes := st.GetCafes();
    cafe := FindById(cafes, id);
  }

  /**
   * `saveCafe`: the required fields first, then the CNPJ digit count; on either
   * failure the store is untouched. Otherwise the payload is mapped by `createCafe`
   * (with `freshId` for a new id) and upserted.
   */
  method SaveCafe(st: Store, payload: CafePayload, freshId: string) returns (r: Result<Cafe>)
    modifies st`cafesSlot
    ensures !RequiredFieldsFilled(RequiredCafeFields(payload)) ==>
      r == Err(RequiredMessage) && st.cafesSlot == old(st.cafesSlot)
    ensures RequiredFieldsFilled(RequiredCafeFields(payload)) && !IsValidCnpj(payload.cnpj) ==>
      r == Err(CnpjMessage) && st.cafesSlot == old(st.cafesSlot)
    ensures RequiredFieldsFilled(RequiredCafeFields(payload)) && IsValidCnpj(payload.cnpj) ==>
      && r == Ok(CreateCafe(payload, freshId))
      && st.cafesSlot == Stored(Upsert(old(st.Cafes()), CreateCafe(payload, freshId)))
    ensures st.usersSlot == old(st.usersSlot) && st.sessionSlot == old(st.sessionSlot)
  {
    if !RequiredFieldsFilled(RequiredCafeFields(payload)) {
      return Err(RequiredMessage);
    }
    if !IsValidCnpj(payload.cnpj) {
      return Err(CnpjMessage);
    }
    var cafes := st.GetCafes();
    var mappedCafe := CreateCafe(payload, freshId);
    var existing := FindById(cafes, mappedCafe.id);
    var updated: seq<Cafe>;
    if existing.Some? {
      updated := ReplaceById(cafes, mappedCafe);
    } else {
      updated := cafes + [mappedCafe];
    }
    st.SaveCafes(updated);
    return Ok(mappedCafe);
  }

  /** `deleteCafe`: writes back and returns the entries whose id differs. */
  method DeleteCafe(st: Store, id: string) returns (remaining: seq<Cafe>)
    modifies st`cafesSlot
    ensures remaining == RemoveById(old(st.Cafes()), id)
    ensures st.cafesSlot == Stored(remaining)
    ensures st.usersSlot == old(st.usersSlot) && st.sessionSlot == old(st.sessionSlot)
  {
    var cafes := st.GetCafes();
    remaining := RemoveById(cafes, id);
    st.SaveCafes(remaining);
  }

  /** `toggleCafeStatus`: flips `active` on the matching entries and returns the first of them. */
  method ToggleCafeStatus(st: Store, id: string) returns (cafe: Option<Cafe>)
    modifies st`cafesSlot
    ensures st.cafesSlot == Stored(ToggleActiveById(old(st.Cafes()), id))
    ensures cafe == FindById(ToggleActiveById(old(st.Cafes()), id), id)
    ensures st.usersSlot == old(st.usersSlot) && st.sessionSlot == old(st.sessionSlot)
  {
    var cafes := st.GetCafes();
    var updated := ToggleActiveById(cafes, id);
    st.SaveCafes(updated);
    cafe := FindById(updated, id);
  }

  /** `toggleLike`: toggles the user in the likes of the matching entries and returns the first of them. */
  method ToggleLike(st: Store, id: string, userId: string) returns (cafe: Option<Cafe>)
    modifies st`cafesSlot
    ensures st.cafesSlot == Stored(ToggleLikeById(old(st.Cafes()), id, userId))
    ensures cafe == FindById(ToggleLikeById(old(st.Cafes()), id, userId), id)
    ensures st.usersSlot == old(st.usersSlot) && st.sessionSlot == old(st.sessionSlot)
  {
    var cafes := st.GetCafes();
    var updated := ToggleLikeById(cafes, id, userId);
    st.SaveCafes(updated);
    cafe := FindById(updated, id);
  }
}
