# Pet catalog store, form and card rules

This project models the client logic of a browser catalog for a pet shop
backed by a public Petstore REST service. It covers three parts:

- **The pet store** (`PetStore.Store`). This is one mutable record holding
  `pets`, `allPets`, `page`, `hasMore`, `loading`, `error` and `activeTab`.
  Seven actions change it: `setActiveTab`, `loadPets`, `loadMorePets`,
  `createPet`, `updatePet`, `createOrder` and `reset`.
- **The value computations behind the store** (`Listing`):
  - a JavaScript `Map` filled in a loop, so the last pet with a truthy id
    wins;
  - the sort by id, newest first;
  - the eight-item page windows;
  - the prepend-and-truncate done by `createPet`;
  - the by-id replacement done by `updatePet` and `createOrder`.
- **The pet form** (`PetForm`): its initial data, the field and tag-list
  updates of its handlers, the fixed category table, and the check made
  before submitting.
- **The pet card** (`PetCard`): the status label, the button text, when
  ordering and editing are offered, the image fallback and the order
  confirmation.

The remote service is never called. Each action receives the service's
answer in advance as an `Outcome` (`Ok(value)` or `Fail`). Each action runs
to completion. Clock readings (`Date.now()`, the ISO timestamp) are
parameters.

What is proved:

- **Deduplication.** After a successful load, `allPets` is the *catalog*
  of the fetched list (`Listing.IsCatalogOf`):
  - it is strictly decreasing by id, so each id appears at most once;
  - each entry is the last fetched pet with that id;
  - its ids are exactly the truthy ids of the response, so missing and
    zero ids are dropped.

  The catalog is unique: two lists that are both catalogs of one response
  are equal (`Listing.CatalogUnique`).
- **Paging.** The invariant `pets == allPets[..min(page*8, |allPets|)]`
  together with `hasMore == (page*8 < |allPets|)` (`Listing.Windowed`)
  holds after `loadPets`. It is preserved by `loadMorePets`, `updatePet`
  and `createOrder`.
- **`createPet` and the invariant.** `createPet` keeps the invariant only
  on the first page, and only when the catalog did not hold exactly one
  page (`Listing.PrependKeepsFirstWindow`). With exactly eight pets on the
  first page, the eighth is pushed out of view while `hasMore` stays false,
  so no further page is offered although nine pets exist
  (`Listing.PrependBreaksExactPage`). On a later page it cuts `pets` to
  eight items while `page` stays, so the invariant no longer holds
  (`Listing.PrependLeavesLaterWindow`). On the first page, with more than
  one page in the catalog, the hidden pet comes back with the next
  `loadMorePets`; on later pages the next slice starts past the pets that
  dropped out.

Behaviour of the code worth noting:

- `hasMore` is not derived from the lists. It starts `true` with empty
  lists, and `createPet` leaves it unchanged.
- Order quantities are not checked.
- `handleSubmit` reads `tags[0].name`, which fails when an existing pet
  brings an empty tag list. The model returns `NoFirstTag` in that case.

## Model

| member | source | states |
|---|---|---|
| `Listing.Deduplicate` | src/store/usePetStore.ts:53-59 | the loop leaves the map holding exactly `LastById(fetched)`: each truthy id maps to the last pet with that id |
| `Listing.PetMap.Set` | src/store/usePetStore.ts:57 | `map.set` overwrites the entry for the key and keeps each key once; an existing key keeps its place in iteration order, and a new key goes last |
| `Listing.PetMap.Values` | src/store/usePetStore.ts:62 | `Array.from(map.values())` lists the entries in key-insertion order, one per key |
| `Listing.LastByIdKeys` | src/store/usePetStore.ts:55-59 | the ids kept are exactly the truthy ids of the fetched list; pets with a missing or zero id are dropped |
| `Listing.LastByIdKeyed` | src/store/usePetStore.ts:56-57 | every pet in the map is stored under its own id |
| `Listing.LastByIdKeepsLast` | src/store/usePetStore.ts:55-59 | last write wins: a pet that no later pet shares an id with is the one kept for that id |
| `Listing.IdKey` | src/store/usePetStore.ts:56-63 | the sort key `id \|\| 0` is non-zero exactly for the truthy ids the map keeps, and is then the id itself |
| `Listing.InsertDescending` | src/store/usePetStore.ts:62-63 | inserting a pet with a new key into a strictly descending list gives a strictly descending list with exactly one more element |
| `Listing.SortByIdDescending` | src/store/usePetStore.ts:62-63 | sorting by `(b.id \|\| 0) - (a.id \|\| 0)`: a permutation of the map's values, strictly decreasing by id |
| `Listing.BuildCatalog` | src/store/usePetStore.ts:53-63 | dedup followed by the sort yields the catalog of the fetched list |
| `Listing.CatalogContents` | src/store/usePetStore.ts:54-63 | a catalog has one entry per id; every id is truthy; its id set equals the fetched list's truthy ids; the last fetched pet for each id is in it |
| `Listing.DescendingUnique` | src/store/usePetStore.ts:62-63 | two strictly id-descending lists with the same elements are equal (the sort has no ties) |
| `Listing.CatalogUnique` | src/store/usePetStore.ts:53-63 | the catalog of a fetched list is unique |
| `Listing.Slice` | src/store/usePetStore.ts:87 | `slice(start, end)` clamps both bounds to the list |
| `Listing.FirstWindow` | src/store/usePetStore.ts:65-72 | showing the first eight pets with `page = 1` and `hasMore = length > 8` satisfies the paging invariant |
| `Listing.WindowStep` | src/store/usePetStore.ts:84-93 | the next window is the current one plus the slice `[page*8, (page+1)*8)`; that slice is empty exactly when the catalog has no more than `page*8` pets |
| `Listing.PrependVisible` | src/store/usePetStore.ts:107 | the created pet comes first, followed by the old visible pets, cut to at most eight |
| `Listing.PrependKeepsFirstWindow` | src/store/usePetStore.ts:106-113 | on the first page, and unless the catalog held exactly eight pets, `createPet` keeps the paging invariant |
| `Listing.PrependBreaksExactPage` | src/store/usePetStore.ts:106-113 | with exactly eight pets on the first page, `createPet` breaks the paging invariant: eight of nine pets are visible and `hasMore` stays false |
| `Listing.PrependLeavesLaterWindow` | src/store/usePetStore.ts:106-113 | on page two or later, `createPet` breaks the paging invariant: eight pets are visible, but the window holds more |
| `Listing.ReplaceById` | src/store/usePetStore.ts:130-131 | same length; every entry whose id equals the key becomes the new pet; every other entry is unchanged in place |
| `Listing.ReplaceKeepsWindow` | src/store/usePetStore.ts:129-136 | replacing by id keeps the paging invariant |
| `Listing.ReplaceKeepsIds` | src/store/usePetStore.ts:130-131 | replacing a pet by one with the same id keeps every position's id, so the id order is kept |
| `PetStore.BuildOrder` | src/store/usePetStore.ts:151-158 | the order carries the pet's id, the quantity, the clock readings, status `placed` and `complete = true` |
| `PetStore.AsSold` | src/store/usePetStore.ts:163-166 | the pet with only its status changed, to `sold` |
| `PetStore.Store.constructor` | src/store/usePetStore.ts:26-33 | the initial state: empty lists, not loading, `hasMore`, no error, tab `available`, page 1 |
| `PetStore.Store.SelectTab` | src/store/usePetStore.ts:36-43 | before the fetch: empty lists, `hasMore`, page 1, no error, the new tab |
| `PetStore.Store.SetActiveTab` | src/store/usePetStore.ts:35-45 | clearing then loading: on success the new tab's catalog and first page are shown; on failure the lists stay empty and the load error is set |
| `PetStore.Store.LoadPets` | src/store/usePetStore.ts:47-80 | on success: `allPets` is the fetched catalog, `pets` its first eight, `page = 1`, `hasMore = length > 8`, no error, not loading, invariant established; on failure the lists, page and `hasMore` are unchanged and the error is the load message |
| `PetStore.Store.LoadMorePets` | src/store/usePetStore.ts:82-98 | a non-empty next slice is appended and the page advances; an empty slice only clears `hasMore`; `allPets` never changes; the paging invariant is preserved |
| `PetStore.Store.CreatePet` | src/store/usePetStore.ts:100-121 | on success the pet the service returned is first in both lists, `pets` is cut to eight, `allPets` grows by one, and page and `hasMore` stay; on failure the lists are unchanged and the error is the create message |
| `PetStore.Store.UpdatePet` | src/store/usePetStore.ts:123-144 | on success, entries with the pet's id become the pet as sent (the service's answer is ignored), lengths and order are kept, and so is the invariant; on failure the lists are unchanged and the error is the update message |
| `PetStore.Store.CreateOrder` | src/store/usePetStore.ts:146-186 | builds the order; only when both calls succeed are the pet's entries replaced by its sold copy; a failure of either call leaves the lists unchanged and sets the order message |
| `PetStore.Store.Reset` | src/store/usePetStore.ts:188-198 | exactly the initial state |
| `PetStore.PagingTwenty` | src/store/usePetStore.ts:82-98 | with 20 pets on page 1, successive loads show 8, 16, then all 20 pets; after the third load the whole catalog is visible and `hasMore` is false |
| `PetForm.InitialForm` | src/components/PetForm.tsx:25-41 | a new form starts with category Perro, empty name, one empty photo URL, one tag `{1, ''}`, status available and the clock as id; an existing pet's fields are copied, with an empty status read as available and a missing or zero id replaced by the clock |
| `PetForm.SubmitCheck` | src/components/PetForm.tsx:43-50 | submits the form unchanged exactly when name, first photo URL and first tag name are non-empty; a missing first tag is only reached when name and photo are present |
| `PetForm.WithField` | src/components/PetForm.tsx:52-57 | `handleChange` changes only the named field |
| `PetForm.WithPhotoUrl` | src/components/PetForm.tsx:163 | the photo input sets the URL list to `[value]` and changes nothing else |
| `PetForm.FindCategory` | src/components/PetForm.tsx:60 | `find` returns the first entry with the name, and none exactly when no entry has it |
| `PetForm.WithCategory` | src/components/PetForm.tsx:59-67 | a known name sets the category to that table entry and changes nothing else; an unknown name leaves the form unchanged |
| `PetForm.CategoryNamesDistinct` | src/components/PetForm.tsx:15-22 | the six category names are distinct |
| `PetForm.CategoryRoundTrip` | src/components/PetForm.tsx:15-22 | selecting a table entry by its name selects that entry |
| `PetForm.RenameTagAt` | src/components/PetForm.tsx:69-76 | only the name of tag `index` changes; length, ids and the other tags stay; an out-of-range index changes nothing |
| `PetForm.DropTagAt` | src/components/PetForm.tsx:89 | the filter removes exactly element `index`, or nothing when `index` is out of range |
| `PetForm.AddedTag` | src/components/PetForm.tsx:78-83 | one tag `{length+1, ''}` is appended; the existing tags are unchanged |
| `PetForm.RemovedTag` | src/components/PetForm.tsx:85-92 | with more than one tag, removes exactly tag `index`; otherwise nothing changes; a non-empty list stays non-empty |
| `PetForm.TagEditsKeepATag` | src/components/PetForm.tsx:69-92 | any sequence of renames, additions and removals leaves a list that has a tag with at least one tag |
| `PetForm.NewFormKeepsATag` | src/components/PetForm.tsx:25-92 | a new form, after any tag edits, never reaches the missing-first-tag failure of the submission check |
| `PetForm.NewFormHasATag` | src/components/PetForm.tsx:25-32 | a new form has exactly one tag and does not submit as it starts |
| `PetForm.LaterTagsNotChecked` | src/components/PetForm.tsx:46 | only the first tag is checked: renaming another tag never changes whether the form submits |
| `PetForm.TagIdsCanRepeat` | src/components/PetForm.tsx:78-92 | ids come from the length, so removing then adding can give two tags the same id |
| `PetForm.FormState.constructor` | src/components/PetForm.tsx:25-41 | the form data starts as the initial form |
| `PetForm.FormState.HandleChange` | src/components/PetForm.tsx:52-57 | the form data becomes the field update and keeps a tag |
| `PetForm.FormState.HandlePhotoUrlChange` | src/components/PetForm.tsx:163 | the form data becomes the photo update |
| `PetForm.FormState.HandleCategoryChange` | src/components/PetForm.tsx:59-67 | the form data becomes the category update |
| `PetForm.FormState.HandleTagChange` | src/components/PetForm.tsx:69-76 | only the tag list changes, by the rename |
| `PetForm.FormState.AddTag` | src/components/PetForm.tsx:78-83 | only the tag list changes, by the append; afterwards the list has a tag |
| `PetForm.FormState.RemoveTag` | src/components/PetForm.tsx:85-92 | only the tag list changes, by the guarded removal; a tag is kept |
| `PetForm.FormState.HandleSubmit` | src/components/PetForm.tsx:43-50 | the result of the submission check; a form that has a tag never fails on the first tag |
| `PetCard.StatusText` | src/components/PetCard.tsx:37-48 | available, pending and sold map to Disponible, Pendiente and Vendido; any other string is shown as it is |
| `PetCard.ButtonText` | src/components/PetCard.tsx:50-77 | Ordenar, En Proceso, Vendido, and No Disponible for anything else |
| `PetCard.ClickOrder` | src/components/PetCard.tsx:139-140 | the order dialog opens exactly when the pet is available; otherwise the click changes nothing |
| `PetCard.ImageUrl` | src/components/PetCard.tsx:83-85 | the first URL is shown when it is non-empty, valid and has not failed to load; otherwise the placeholder |
| `PetCard.HandleOrder` | src/components/PetCard.tsx:89-94 | with an `onBuy` handler, the quantity is forwarded and the dialog closes; without one, nothing happens |
| `PetCard.OrderEnabled` | src/components/PetCard.tsx:139-140 | the order button is enabled exactly when its text is Ordenar, and then the status label is Disponible |
| `PetCard.EditOffered` | src/components/PetCard.tsx:111 | the edit control is shown exactly when an edit handler is given and ordering is enabled |
| `PetCard.BrokenImageShowsPlaceholder` | src/components/PetCard.tsx:83-85 | after a load error the placeholder is shown |
| `PetCard.StatusLabels` | src/components/PetCard.tsx:37-48 | the three statuses get the same labels the form offers; non-available statuses are not orderable and do not say Ordenar |

## Left out

- The HTTP client (`src/services/api.ts`) is not modelled. Each call is an `Outcome` argument: the fetched list, the created pet, the update's answer, the order's answer.
- `loadPets`' `status` argument only selects the request, and the answer is supplied, so the model has no such parameter.
- Asynchrony is not modelled, so the intermediate `loading = true` state is never observed. The following races are also out: a stale `loadPets` answer arriving after a tab switch, and two `loadMorePets` calls reading the same page. Every action runs to completion.
- Clock readings are not modelled: `Date.now()` and `toISOString()` are the `now` and `shipDate` parameters of `CreateOrder`, and `now` of `InitialForm`.
- The form's mount effect that assigns the clock id is not modelled as an effect: it is folded into the initial form, and re-running it when `pet.id` changes is not modelled.
- `isValidUrl` depends on the browser's `URL` parser, so `ImageUrl` takes it as a function parameter.
- `getStatusColor`, the icons and CSS classes of `getButtonConfig`, and all rendering are presentation only.
- `src/components/OrderModal.tsx`, `src/app/page.tsx`, `src/app/layout.tsx`, `src/components/Navbar.tsx` and `src/components/Toast.tsx` are UI glue. The guard `inView && hasMore && !loading` that `page.tsx` puts around `loadMorePets` is not a precondition here.
- Numbers are unbounded integers: NaN ids or quantities are not modelled, and neither are overflow nor non-integral values.
- A fetched pet without `status` or `category` is not modelled. In the source, an undefined status would fall back to the default `'available'` in `getStatusText` and `getButtonConfig`. The form's `!formData.category` test always passes here.
- `PetStore.Store.CreateOrder` requires `pet.id` to be present, because the source writes `pet.id!`. That is a non-null assertion on the caller, and `Order.petId` is a number.
- `Listing.SortByIdDescending` requires distinct keys, which the source's `Map` guarantees for its values. `Array.prototype.sort` itself has no such requirement, and the model does not describe how it handles ties.
- The array sort is a library call. It is modelled as an insertion of each map value into a descending list. Only the result is visible, and `Listing.CatalogUnique` shows the result is fully determined.
