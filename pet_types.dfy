/**
 * The entities of the pet catalog: pets with their category and tags,
 * and the purchase orders placed for them.
 */
module PetTypes {

  datatype Option<T> = None | Some(value: T)

  /** The answer of one call to the remote pet service, supplied in advance. */
  datatype Outcome<T> = Ok(value: T) | Fail

  datatype Category = Category(id: int, name: string)

  datatype Tag = Tag(id: int, name: string)

  /**
   * A pet. `id` is absent until one is assigned. `status` is the string the
   * service sends; the interface names three values, but nothing checks that
   * a fetched pet carries one of them, and the card rules handle any string.
   */
  datatype Pet = Pet(
    id: Option<int>,
    category: Category,
    name: string,
    photoUrls: seq<string>,
    tags: seq<Tag>,
    status: string)

  /** A purchase order; the optional fields of the interface are options here. */
  datatype Order = Order(
    id: Option<int>,
    petId: int,
    quantity: int,
    shipDate: Option<string>,
    status: Option<string>,
    complete: Option<bool>)

  /** The three status filters of the catalog (the store's `activeTab`). */
  datatype Status = Available | Pending | Sold {
    /** The wire value of the status. */
    function Name(): string {
      match this
      case Available => AVAILABLE
      case Pending => PENDING
      case Sold => SOLD
    }
  }

  const AVAILABLE: string := "available"
  const PENDING: string := "pending"
  const SOLD: string := "sold"

  /** JavaScript truthiness of an optional numeric id: present and not 0. */
  predicate IdTruthy(id: Option<int>) {
    id.Some? && id.value != 0
  }
}
