/**
 * The value-level computations of the pet store: deduplicating a fetched
 * list by id, ordering it newest first, the page windows shown to the user,
 * and the in-place replacement done after an update.
 */
module Listing {
  import opened PetTypes

  const ITEMS_PER_PAGE: nat := 8

  function Min(a: int, b: int): int {
    if a <= b then a else b
  }

  /** `Array.prototype.slice(start, end)` for non-negative bounds: both are clamped to the sequence. */
  function Slice<T>(s: seq<T>, start: nat, end: nat): (r: seq<T>)
    ensures start <= end <= |s| ==> r == s[start..end]
    ensures start <= |s| <= end ==> r == s[start..]
    ensures |s| <= start ==> r == []
  {
    if |s| <= start || end <= start then [] else s[start..Min(end, |s|)]
  }

  // ---------------------------------------------------------------------
  // Deduplication by id

  /**
   * The map built by the store from a fetched list: every pet with a truthy
   * id is stored under that id, a later pet overwriting an earlier one.
   */
  ghost function LastById(s: seq<Pet>): map<int, Pet>
    decreases |s|
  {
    if s == [] then map[]
    else
      var m := LastById(s[..|s| - 1]);
      var p := s[|s| - 1];
      if IdTruthy(p.id) then m[p.id.value := p] else m
  }

  /** The truthy ids that occur in a fetched list. */
  ghost function TruthyIds(s: seq<Pet>): set<int> {
    set i | 0 <= i < |s| && IdTruthy(s[i].id) :: s[i].id.value
  }

  /**
   * A JavaScript `Map` from ids to pets: its entries, and its keys in the
   * order they were first set, which is the order `values()` yields.
   */
  datatype PetMap = PetMap(order: seq<int>, entries: map<int, Pet>) {
    ghost predicate Valid() {
      && (forall k :: k in entries <==> k in order)
      && (forall i :: 0 <= i < |order| ==> order[i] in entries)
      && (forall i, j :: 0 <= i < j < |order| ==> order[i] != order[j])
    }

    /** `map.set(k, p)`: a new key goes last, an existing key keeps its place. */
    function Set(k: int, p: Pet): (r: PetMap)
      requires Valid()
      ensures r.Valid() && r.entries == entries[k := p]
      ensures k in entries ==> r.order == order
      ensures k !in entries ==> r.order == order + [k]
    {
      if k in entries then PetMap(order, entries[k := p]) else PetMap(order + [k], entries[k := p])
    }

    /** `Array.from(map.values())`. */
    function Values(): (r: seq<Pet>)
      requires Valid()
      ensures |r| == |order|
      ensures forall i :: 0 <= i < |order| ==> r[i] == entries[order[i]]
    {
      seq(|order|, i requires 0 <= i < |order| => entries[order[i]])
    }
  }

  /** The `forEach` over the fetched pets that fills the map. */
  method Deduplicate(fetched: seq<Pet>) returns (m: PetMap)
    ensures m.Valid() && m.entries == LastById(fetched)
  {
    m := PetMap([], map[]);
    for i := 0 to |fetched|
      invariant m.Valid() && m.entries == LastById(fetched[..i])
    {
      var pet := fetched[i];
      if IdTruthy(pet.id) {
        m := m.Set(pet.id.value, pet);
      }
      assert fetched[..i + 1][..i] == fetched[..i];
    }
    assert fetched[..|fetched|] == fetched;
  }

  /** The keys of the map are exactly the truthy ids of the fetched list. */
  lemma {:induction false} LastByIdKeys(s: seq<Pet>)
    ensures LastById(s).Keys == TruthyIds(s)
    decreases |s|
  {
    if s != [] {
      var init := s[..|s| - 1];
      LastByIdKeys(init);
      forall k | k in TruthyIds(s) ensures k in LastById(s).Keys {
        var i :| 0 <= i < |s| && IdTruthy(s[i].id) && s[i].id.value == k;
        if i < |s| - 1 {
          assert init[i] == s[i];
          assert k in TruthyIds(init);
        }
      }
      forall k | k in LastById(s).Keys ensures k in TruthyIds(s) {
        if k !in LastById(init).Keys {
          assert s[|s| - 1].id == Some(k);
        } else {
          var i :| 0 <= i < |init| && IdTruthy(init[i].id) && init[i].id.value == k;
          assert s[i] == init[i];
        }
      }
    }
  }

  /** Every pet in the map is stored under its own id. */
  lemma {:induction false} LastByIdKeyed(s: seq<Pet>)
    ensures forall k :: k in LastById(s) ==> LastById(s)[k].id == Some(k)
    decreases |s|
  {
    if s != [] {
      LastByIdKeyed(s[..|s| - 1]);
    }
  }

  /**
   * Last write wins: a pet with a truthy id that no later pet of the list
   * shares is the one the map keeps for that id.
   */
  lemma {:induction false} LastByIdKeepsLast(s: seq<Pet>, i: nat)
    requires i < |s| && IdTruthy(s[i].id)
    requires forall j :: i < j < |s| ==> s[j].id != s[i].id
    ensures s[i].id.value in LastById(s) && LastById(s)[s[i].id.value] == s[i]
    decreases |s|
  {
    if i < |s| - 1 {
      var init := s[..|s| - 1];
      assert init[i] == s[i];
      LastByIdKeepsLast(init, i);
    }
  }

  // ---------------------------------------------------------------------
  // Ordering by id, newest first

  /** The sort key `pet.id || 0`. */
  function IdKey(p: Pet): (r: int)
    ensures r != 0 <==> IdTruthy(p.id)
    ensures IdTruthy(p.id) ==> r == p.id.value
  {
    match p.id
    case Some(v) => v
    case None => 0
  }

  ghost predicate StrictlyDescending(s: seq<Pet>) {
    forall i, j :: 0 <= i < j < |s| ==> IdKey(s[i]) > IdKey(s[j])
  }

  /** Inserts a pet whose key is new into a list ordered by decreasing key. */
  function InsertDescending(s: seq<Pet>, p: Pet): (r: seq<Pet>)
    requires StrictlyDescending(s)
    requires forall q :: q in s ==> IdKey(q) != IdKey(p)
    ensures StrictlyDescending(r)
    ensures |r| == |s| + 1
    ensures forall q :: q in r <==> q in s || q == p
  {
    if s == [] || IdKey(s[0]) < IdKey(p) then [p] + s
    else
      var rest := InsertDescending(s[1..], p);
      assert forall q :: q in rest ==> IdKey(q) < IdKey(s[0]) by {
        forall q | q in rest ensures IdKey(q) < IdKey(s[0]) {
          if q != p {
            var j :| 0 <= j < |s[1..]| && s[1..][j] == q;
            assert s[j + 1] == q;
          }
        }
      }
      [s[0]] + rest
  }

  /** No two pets of the list share a sort key. */
  ghost predicate DistinctKeys(s: seq<Pet>) {
    forall i, j :: 0 <= i < j < |s| ==> IdKey(s[i]) != IdKey(s[j])
  }

  /**
   * `.sort((a, b) => (b.id || 0) - (a.id || 0))` on the values of the map,
   * whose keys are distinct: a permutation in strictly decreasing id order.
   */
  method SortByIdDescending(ps: seq<Pet>) returns (r: seq<Pet>)
    requires DistinctKeys(ps)
    ensures StrictlyDescending(r)
    ensures |r| == |ps|
    ensures forall q :: q in r <==> q in ps
  {
    r := [];
    for i := 0 to |ps|
      invariant StrictlyDescending(r)
      invariant |r| == i
      invariant forall q :: q in r <==> q in ps[..i]
    {
      forall q | q in r ensures IdKey(q) != IdKey(ps[i]) {
        var j :| 0 <= j < i && ps[..i][j] == q;
        assert ps[j] == q;
      }
      r := InsertDescending(r, ps[i]);
      assert ps[..i + 1] == ps[..i] + [ps[i]];
    }
    assert ps[..|ps|] == ps;
  }

  /**
   * `all` is the catalog the store keeps for a fetched list: strictly
   * decreasing by id, holding exactly the pets the deduplicating map keeps.
   */
  ghost predicate IsCatalogOf(all: seq<Pet>, fetched: seq<Pet>) {
    IsSortedViewOf(all, LastById(fetched))
  }

  /** `all` lists the pets of `m`, each once, in strictly decreasing id order. */
  ghost predicate IsSortedViewOf(all: seq<Pet>, m: map<int, Pet>) {
    && StrictlyDescending(all)
    && (forall q :: q in all ==> q.id.Some? && q.id.value in m && m[q.id.value] == q)
    && (forall k :: k in m ==> m[k] in all)
  }

  ghost function IdsOf(s: seq<Pet>): set<int> {
    set i | 0 <= i < |s| && s[i].id.Some? :: s[i].id.value
  }

  /**
   * What a catalog promises: one entry per id, the entry being the last
   * fetched pet with that id, and the ids being exactly the truthy ids of
   * the fetched list (so missing and zero ids are dropped).
   */
  lemma CatalogContents(all: seq<Pet>, fetched: seq<Pet>)
    requires IsCatalogOf(all, fetched)
    ensures forall i, j :: 0 <= i < j < |all| ==> all[i].id != all[j].id
    ensures forall i :: 0 <= i < |all| ==> IdTruthy(all[i].id)
    ensures IdsOf(all) == TruthyIds(fetched)
    ensures forall i :: 0 <= i < |fetched| && IdTruthy(fetched[i].id)
              && (forall j :: i < j < |fetched| ==> fetched[j].id != fetched[i].id)
              ==> fetched[i] in all
  {
    var m := LastById(fetched);
    LastByIdKeys(fetched);
    forall i | 0 <= i < |all| ensures IdTruthy(all[i].id) {
      assert all[i] in all;
      assert all[i].id.value in TruthyIds(fetched);
    }
    forall k | k in TruthyIds(fetched) ensures k in IdsOf(all) {
      LastByIdKeyed(fetched);
      var i :| 0 <= i < |all| && all[i] == m[k];
      assert all[i].id.value == k;
    }
    forall k | k in IdsOf(all) ensures k in TruthyIds(fetched) {
      var i :| 0 <= i < |all| && all[i].id.Some? && all[i].id.value == k;
      assert all[i] in all;
    }
    forall i | 0 <= i < |fetched| && IdTruthy(fetched[i].id)
        && (forall j :: i < j < |fetched| ==> fetched[j].id != fetched[i].id)
      ensures fetched[i] in all
    {
      LastByIdKeepsLast(fetched, i);
    }
  }

  /** Two strictly descending lists with the same elements are equal. */
  lemma {:induction false} DescendingUnique(a: seq<Pet>, b: seq<Pet>)
    requires StrictlyDescending(a) && StrictlyDescending(b)
    requires forall q :: q in a <==> q in b
    ensures a == b
    decreases |a|
  {
    if a != [] {
      assert a[0] in b;
      var i :| 0 <= i < |b| && b[i] == a[0];
      assert b[0] in a;
      var j :| 0 <= j < |a| && a[j] == b[0];
      assert i == 0 && j == 0;
      forall q ensures q in a[1..] <==> q in b[1..] {
        if q in a[1..] {
          var k :| 0 <= k < |a[1..]| && a[1..][k] == q;
          assert a[k + 1] == q && IdKey(q) < IdKey(a[0]);
          assert q in a;
          var l :| 0 <= l < |b| && b[l] == q;
          assert b[1..][l - 1] == q;
        }
        if q in b[1..] {
          var k :| 0 <= k < |b[1..]| && b[1..][k] == q;
          assert b[k + 1] == q && IdKey(q) < IdKey(b[0]);
          assert q in b;
          var l :| 0 <= l < |a| && a[l] == q;
          assert a[1..][l - 1] == q;
        }
      }
      DescendingUnique(a[1..], b[1..]);
    } else {
      HeadIsMember(b);
    }
  }

  lemma HeadIsMember<T>(s: seq<T>)
    ensures s != [] ==> s[0] in s
  {
  }

  /** The catalog of a fetched list is determined by it. */
  lemma CatalogUnique(a: seq<Pet>, b: seq<Pet>, fetched: seq<Pet>)
    requires IsCatalogOf(a, fetched) && IsCatalogOf(b, fetched)
    ensures a == b
  {
    var m := LastById(fetched);
    assert IsSortedViewOf(a, m) && IsSortedViewOf(b, m);
    forall q ensures q in a <==> q in b {
      if q in a {
        var k := q.id.value;
        assert k in m && m[k] == q;
        assert m[k] in b;
      }
      if q in b {
        var k := q.id.value;
        assert k in m && m[k] == q;
        assert m[k] in a;
      }
    }
    DescendingUnique(a, b);
  }

  /** What the store computes from a fetched list is its catalog. */
  method BuildCatalog(fetched: seq<Pet>) returns (all: seq<Pet>)
    ensures IsCatalogOf(all, fetched)
  {
    var m := Deduplicate(fetched);
    LastByIdKeyed(fetched);
    var values := m.Values();
    assert DistinctKeys(values) by {
      forall i, j | 0 <= i < j < |values| ensures IdKey(values[i]) != IdKey(values[j]) {
        assert values[i].id == Some(m.order[i]) && values[j].id == Some(m.order[j]);
      }
    }
    all := SortByIdDescending(values);
    forall k | k in m.entries ensures m.entries[k] in all {
      var i :| 0 <= i < |m.order| && m.order[i] == k;
      assert values[i] == m.entries[k];
    }
    forall q | q in all ensures q.id.Some? && q.id.value in m.entries && m.entries[q.id.value] == q {
      assert q in values;
      var i :| 0 <= i < |values| && values[i] == q;
      var k := m.order[i];
      assert k in m.entries && m.entries[k] == q;
      assert q.id == Some(k);
    }
  }

  // ---------------------------------------------------------------------
  // Page windows

  /** The pets visible after `page` pages have been shown. */
  function Window(all: seq<Pet>, page: nat): seq<Pet> {
    all[..Min(page * ITEMS_PER_PAGE, |all|)]
  }

  /**
   * The paging invariant: the visible pets are the first `page` pages of
   * the catalog, and `hasMore` says whether pets remain beyond them.
   */
  ghost predicate Windowed(pets: seq<Pet>, all: seq<Pet>, page: nat, hasMore: bool) {
    page >= 1 && pets == Window(all, page) && hasMore == (page * ITEMS_PER_PAGE < |all|)
  }

  /** The next window is the current one followed by the slice of the next page. */
  lemma WindowStep(all: seq<Pet>, page: nat)
    ensures Window(all, page) + Slice(all, page * ITEMS_PER_PAGE, (page + 1) * ITEMS_PER_PAGE) == Window(all, page + 1)
    ensures |Slice(all, page * ITEMS_PER_PAGE, (page + 1) * ITEMS_PER_PAGE)| == 0 <==> |all| <= page * ITEMS_PER_PAGE
  {
    var lo, hi := page * ITEMS_PER_PAGE, (page + 1) * ITEMS_PER_PAGE;
    if lo < |all| {
      assert all[..lo] + all[lo..Min(hi, |all|)] == all[..Min(hi, |all|)];
    }
  }

  /**
   * The first window of a fresh catalog satisfies the paging invariant.
   * This is the state `loadPets` leaves behind.
   */
  lemma FirstWindow(all: seq<Pet>)
    ensures Windowed(all[..Min(ITEMS_PER_PAGE, |all|)], all, 1, |all| > ITEMS_PER_PAGE)
  {
  }

  // ---------------------------------------------------------------------
  // Creating and replacing

  /** `[created, ...pets].slice(0, ITEMS_PER_PAGE)`. */
  function PrependVisible(created: Pet, pets: seq<Pet>): (r: seq<Pet>)
    ensures |r| == Min(ITEMS_PER_PAGE, |pets| + 1)
    ensures r[0] == created
    ensures r[1..] == pets[..|r| - 1]
  {
    ([created] + pets)[..Min(ITEMS_PER_PAGE, |pets| + 1)]
  }

  /**
   * On the first page, and unless the catalog held exactly one page,
   * prepending keeps the paging invariant.
   */
  lemma PrependKeepsFirstWindow(created: Pet, pets: seq<Pet>, all: seq<Pet>, hasMore: bool)
    requires Windowed(pets, all, 1, hasMore) && |all| != ITEMS_PER_PAGE
    ensures Windowed(PrependVisible(created, pets), [created] + all, 1, hasMore)
  {
    var r := PrependVisible(created, pets);
    var w := Window([created] + all, 1);
    assert |r| == |w|;
    forall i | 0 <= i < |r| ensures r[i] == w[i] {
      if i > 0 { assert r[i] == r[1..][i - 1]; }
    }
  }

  /**
   * On the first page of a catalog holding exactly one page, prepending
   * pushes the eighth pet out of view while `hasMore` stays false, so no
   * further page is offered although the catalog now holds nine pets.
   */
  lemma PrependBreaksExactPage(created: Pet, pets: seq<Pet>, all: seq<Pet>, hasMore: bool)
    requires Windowed(pets, all, 1, hasMore) && |all| == ITEMS_PER_PAGE
    ensures !Windowed(PrependVisible(created, pets), [created] + all, 1, hasMore)
    ensures !hasMore && |[created] + all| == ITEMS_PER_PAGE + 1
    ensures |PrependVisible(created, pets)| == ITEMS_PER_PAGE
  {
  }

  /**
   * On a later page, prepending truncates the visible list to one page while
   * the page counter stays, so the visible list is no longer the window:
   * the pets between the first page and the old end of the view drop out.
   */
  lemma PrependLeavesLaterWindow(created: Pet, pets: seq<Pet>, all: seq<Pet>, page: nat, hasMore: bool)
    requires Windowed(pets, all, page, hasMore) && page >= 2 && |all| >= ITEMS_PER_PAGE
    ensures !Windowed(PrependVisible(created, pets), [created] + all, page, hasMore)
    ensures |PrependVisible(created, pets)| == ITEMS_PER_PAGE < |Window([created] + all, page)|
  {
    assert |pets| == Min(page * ITEMS_PER_PAGE, |all|) >= ITEMS_PER_PAGE;
  }

  /** `ps.map(p => p.id === id ? q : p)`. */
  function ReplaceById(ps: seq<Pet>, id: Option<int>, q: Pet): (r: seq<Pet>)
    ensures |r| == |ps|
    ensures forall i :: 0 <= i < |ps| && ps[i].id == id ==> r[i] == q
    ensures forall i :: 0 <= i < |ps| && ps[i].id != id ==> r[i] == ps[i]
  {
    if ps == [] then []
    else [if ps[0].id == id then q else ps[0]] + ReplaceById(ps[1..], id, q)
  }

  /** Replacing commutes with taking a prefix, so it keeps every window. */
  lemma ReplaceKeepsWindow(pets: seq<Pet>, all: seq<Pet>, page: nat, hasMore: bool, q: Pet)
    requires Windowed(pets, all, page, hasMore)
    ensures Windowed(ReplaceById(pets, q.id, q), ReplaceById(all, q.id, q), page, hasMore)
  {
    var r, w := ReplaceById(pets, q.id, q), Window(ReplaceById(all, q.id, q), page);
    assert |r| == |w|;
    forall i | 0 <= i < |r| ensures r[i] == w[i] {
      assert pets[i] == all[i];
    }
  }

  /** A replacement that keeps the id keeps the list a catalog order: ids are unchanged at every position. */
  lemma ReplaceKeepsIds(ps: seq<Pet>, q: Pet)
    ensures forall i :: 0 <= i < |ps| ==> ReplaceById(ps, q.id, q)[i].id == ps[i].id
    ensures StrictlyDescending(ps) ==> StrictlyDescending(ReplaceById(ps, q.id, q))
  {
    var r := ReplaceById(ps, q.id, q);
    assert forall i :: 0 <= i < |ps| ==> IdKey(r[i]) == IdKey(ps[i]);
  }
}
