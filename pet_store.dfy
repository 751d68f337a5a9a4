/**
 * The client-side pet store: one mutable record of the fetched catalog, the
 * visible page window and the request state, changed by seven actions. Each
 * remote call is an `Outcome` supplied by the caller; each action runs to
 * completion.
 */
module PetStore {
  import opened PetTypes
  import opened Listing

  const LOAD_ERROR: string := "Error al cargar las mascotas"
  const CREATE_ERROR: string := "Error al crear la mascota"
  const UPDATE_ERROR: string := "Error al actualizar la mascota"
  const ORDER_ERROR: string := "Error al crear la orden"

  /** The order placed for `pet`; `now` and `shipDate` are the clock readings. */
  function BuildOrder(pet: Pet, quantity: int, now: int, shipDate: string): (o: Order)
    requires pet.id.Some?
    ensures Some(o.petId) == pet.id && o.quantity == quantity
    ensures o.id == Some(now) && o.shipDate == Some(shipDate)
    ensures o.status == Some("placed") && o.complete == Some(true)
  {
    Order(Some(now), pet.id.value, quantity, Some(shipDate), Some("placed"), Some(true))
  }

  /** The copy of a pet that `createOrder` sends back as sold. */
  function AsSold(pet: Pet): (r: Pet)
    ensures r.status == SOLD && r == pet.(status := SOLD)
  {
    pet.(status := SOLD)
  }

  class Store {
    var pets: seq<Pet>
    var allPets: seq<Pet>
    var loading: bool
    var hasMore: bool
    var error: Option<string>
    var activeTab: Status
    var page: nat

    /** The state the store starts in and `reset` returns to. */
    ghost predicate IsInitial()
      reads this
    {
      && pets == [] && allPets == [] && !loading && hasMore
      && error == None && activeTab == Available && page == 1
    }

    /** The paging invariant over the current state. */
    ghost predicate Windowed()
      reads this
    {
      Listing.Windowed(pets, allPets, page, hasMore)
    }

    constructor ()
      ensures IsInitial()
    {
      pets, allPets := [], [];
      loading, hasMore := false, true;
      error := None;
      activeTab := Available;
      page := 1;
    }

    /** The synchronous part of `setActiveTab`: clear the view for the new filter. */
    method SelectTab(tab: Status)
      modifies this
      ensures activeTab == tab && pets == [] && allPets == [] && hasMore && page == 1 && error == None
      ensures loading == old(loading)
    {
      activeTab := tab;
      pets, allPets := [], [];
      hasMore := true;
      page := 1;
      error := None;
    }

    /**
     * `setActiveTab(tab)`: clear the view, then load the pets of that status;
     * `response` is the answer of the service to that request.
     */
    method SetActiveTab(tab: Status, response: Outcome<seq<Pet>>)
      modifies this
      ensures activeTab == tab && !loading
      ensures response.Ok? ==>
        && IsCatalogOf(allPets, response.value)
        && pets == allPets[..Min(ITEMS_PER_PAGE, |allPets|)]
        && page == 1 && hasMore == (|allPets| > ITEMS_PER_PAGE) && error == None
        && Windowed()
      ensures response.Fail? ==>
        pets == [] && allPets == [] && page == 1 && hasMore && error == Some(LOAD_ERROR)
    {
      SelectTab(tab);
      LoadPets(response);
    }

    /**
     * `loadPets`: on success the catalog of the fetched list becomes
     * `allPets` and its first page becomes `pets`; on failure the old view
     * stays and the error is set.
     */
    method LoadPets(response: Outcome<seq<Pet>>)
      modifies this
      ensures !loading && activeTab == old(activeTab)
      ensures response.Ok? ==>
        && IsCatalogOf(allPets, response.value)
        && pets == allPets[..Min(ITEMS_PER_PAGE, |allPets|)]
        && page == 1 && hasMore == (|allPets| > ITEMS_PER_PAGE) && error == None
        && Windowed()
      ensures response.Fail? ==>
        && pets == old(pets) && allPets == old(allPets) && page == old(page)
        && hasMore == old(hasMore) && error == Some(LOAD_ERROR)
    {
      loading, error := true, None;
      match response
      case Ok(fetched) =>
        var uniquePets := BuildCatalog(fetched);
        var paginatedPets := uniquePets[..Min(ITEMS_PER_PAGE, |uniquePets|)];
        allPets, pets := uniquePets, paginatedPets;
        loading := false;
        hasMore := |uniquePets| > ITEMS_PER_PAGE;
        page := 1;
        FirstWindow(allPets);
      case Fail =>
        error := Some(LOAD_ERROR);
        loading := false;
    }

    /**
     * `loadMorePets`: append the next page of the catalog if there is one,
     * otherwise only record that nothing more is left. No remote call.
     */
    method LoadMorePets()
      modifies this
      ensures allPets == old(allPets) && loading == old(loading)
      ensures error == old(error) && activeTab == old(activeTab)
      ensures var next := Slice(allPets, old(page) * ITEMS_PER_PAGE, (old(page) + 1) * ITEMS_PER_PAGE);
        if |next| > 0 then
          && pets == old(pets) + next && page == old(page) + 1
          && hasMore == (page * ITEMS_PER_PAGE < |allPets|)
        else
          pets == old(pets) && page == old(page) && !hasMore
      ensures old(Windowed()) ==> Windowed()
    {
      var nextPage := page + 1;
      var start := page * ITEMS_PER_PAGE;
      var end := nextPage * ITEMS_PER_PAGE;
      var newPets := Slice(allPets, start, end);
      WindowStep(allPets, page);
      if |newPets| > 0 {
        pets := pets + newPets;
        page := nextPage;
        hasMore := end < |allPets|;
      } else {
        hasMore := false;
      }
    }

    /**
     * `createPet`: `response` is the pet as the service created it; that pet
     * goes first in both lists, and the visible list is cut to one page.
     */
    method CreatePet(pet: Pet, response: Outcome<Pet>)
      modifies this
      ensures !loading && page == old(page) && hasMore == old(hasMore) && activeTab == old(activeTab)
      ensures response.Ok? ==>
        && pets == PrependVisible(response.value, old(pets))
        && allPets == [response.value] + old(allPets)
        && error == None
      ensures response.Fail? ==>
        pets == old(pets) && allPets == old(allPets) && error == Some(CREATE_ERROR)
    {
      loading, error := true, None;
      match response
      case Ok(createdPet) =>
        pets := PrependVisible(createdPet, pets);
        allPets := [createdPet] + allPets;
        loading := false;
      case Fail =>
        error := Some(CREATE_ERROR);
        loading := false;
    }

    /**
     * `updatePet`: once the service accepts the update, every entry with the
     * pet's id is replaced by the pet as sent (the service's answer is not used).
     */
    method UpdatePet(pet: Pet, response: Outcome<Pet>)
      modifies this
      ensures !loading && page == old(page) && hasMore == old(hasMore) && activeTab == old(activeTab)
      ensures response.Ok? ==>
        && pets == ReplaceById(old(pets), pet.id, pet)
        && allPets == ReplaceById(old(allPets), pet.id, pet)
        && error == None
      ensures response.Fail? ==>
        pets == old(pets) && allPets == old(allPets) && error == Some(UPDATE_ERROR)
      ensures old(Windowed()) ==> Windowed()
    {
      loading, error := true, None;
      match response
      case Ok(_) =>
        if Windowed() { ReplaceKeepsWindow(pets, allPets, page, hasMore, pet); }
        pets := ReplaceById(pets, pet.id, pet);
        allPets := ReplaceById(allPets, pet.id, pet);
        loading := false;
      case Fail =>
        error := Some(UPDATE_ERROR);
        loading := false;
    }

    /**
     * `createOrder`: post the order, then update the pet as sold. Only when
     * both calls succeed is the pet replaced by its sold copy; a failure of
     * either gives the one order error. Returns the order that was posted.
     */
    method CreateOrder(pet: Pet, quantity: int, now: int, shipDate: string,
                       orderResponse: Outcome<Order>, updateResponse: Outcome<Pet>)
      returns (order: Order)
      requires pet.id.Some?
      modifies this
      ensures order == BuildOrder(pet, quantity, now, shipDate)
      ensures !loading && page == old(page) && hasMore == old(hasMore) && activeTab == old(activeTab)
      ensures orderResponse.Ok? && updateResponse.Ok? ==>
        && pets == ReplaceById(old(pets), pet.id, AsSold(pet))
        && allPets == ReplaceById(old(allPets), pet.id, AsSold(pet))
        && error == None
      ensures orderResponse.Fail? || updateResponse.Fail? ==>
        pets == old(pets) && allPets == old(allPets) && error == Some(ORDER_ERROR)
      ensures old(Windowed()) ==> Windowed()
    {
      loading, error := true, None;
      order := BuildOrder(pet, quantity, now, shipDate);
      if orderResponse.Fail? {
        error := Some(ORDER_ERROR);
        loading := false;
        return;
      }
      var updatedPet := AsSold(pet);
      if updateResponse.Fail? {
        error := Some(ORDER_ERROR);
        loading := false;
        return;
      }
      if Windowed() { ReplaceKeepsWindow(pets, allPets, page, hasMore, updatedPet); }
      pets := ReplaceById(pets, pet.id, updatedPet);
      allPets := ReplaceById(allPets, pet.id, updatedPet);
      loading := false;
    }

    /** `reset`: back to the initial state. */
    method Reset()
      modifies this
      ensures IsInitial()
    {
      pets, allPets := [], [];
      loading, hasMore := false, true;
      error := None;
      activeTab := Available;
      page := 1;
    }
  }

  /**
   * Paging a catalog of twenty pets: eight, sixteen, then all twenty are
   * visible, and a further step changes nothing but `hasMore`.
   */
  method PagingTwenty(store: Store)
    requires store.Windowed() && store.page == 1 && |store.allPets| == 20
    modifies store
    ensures |store.pets| == 20 && !store.hasMore && store.pets == store.allPets
  {
    assert |store.pets| == 8 && store.hasMore;
    store.LoadMorePets();
    assert |store.pets| == 16 && store.hasMore;
    store.LoadMorePets();
    assert |store.pets| == 20 && !store.hasMore;
    store.LoadMorePets();
  }
}
