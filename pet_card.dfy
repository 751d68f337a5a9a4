/**
 * The rules of a pet card: the label shown for a status, the text of the
 * order button, when ordering and editing are offered, which image is shown,
 * and what confirming an order does.
 */
module PetCard {
  import opened PetTypes

  const PLACEHOLDER_IMAGE: string := "/placeholder-pet.svg"

  /** `getStatusText`: the Spanish label of a known status; any other string is shown as it is. */
  function StatusText(status: string): (r: string)
    ensures status == AVAILABLE ==> r == "Disponible"
    ensures status == PENDING ==> r == "Pendiente"
    ensures status == SOLD ==> r == "Vendido"
    ensures status != AVAILABLE && status != PENDING && status != SOLD ==> r == status
  {
    if status == AVAILABLE then "Disponible"
    else if status == PENDING then "Pendiente"
    else if status == SOLD then "Vendido"
    else status
  }

  /** `getButtonConfig(status).text`. */
  function ButtonText(status: string): (r: string)
    ensures status == AVAILABLE ==> r == "Ordenar"
    ensures status == PENDING ==> r == "En Proceso"
    ensures status == SOLD ==> r == "Vendido"
    ensures status != AVAILABLE && status != PENDING && status != SOLD ==> r == "No Disponible"
  {
    if status == AVAILABLE then "Ordenar"
    else if status == PENDING then "En Proceso"
    else if status == SOLD then "Vendido"
    else "No Disponible"
  }

  /**
   * The order button is enabled only for an available pet; it is enabled
   * exactly when its text invites an order.
   */
  predicate OrderEnabled(status: string): (r: bool)
    ensures r <==> ButtonText(status) == "Ordenar"
    ensures r ==> StatusText(status) == "Disponible"
  {
    status == AVAILABLE
  }

  /**
   * The edit control is shown only when an edit handler is given and the
   * pet is available, so editing is offered only where ordering is.
   */
  predicate EditOffered(hasOnEdit: bool, status: string): (r: bool)
    ensures r ==> hasOnEdit && OrderEnabled(status)
    ensures hasOnEdit && OrderEnabled(status) ==> r
  {
    hasOnEdit && status == AVAILABLE
  }

  /** Clicking the order button: opens the order dialog for an available pet, otherwise does nothing. */
  function ClickOrder(status: string, showOrderModal: bool): (open: bool)
    ensures OrderEnabled(status) ==> open
    ensures !OrderEnabled(status) ==> open == showOrderModal
  {
    if status == AVAILABLE then true else showOrderModal
  }

  /**
   * The image shown: the first photo URL when there is one, it is a valid
   * URL and the image has not failed to load; the placeholder otherwise.
   * `isValidUrl` stands for the URL-parsing check.
   */
  function ImageUrl(photoUrls: seq<string>, isValidUrl: string -> bool, imageError: bool): (r: string)
    ensures |photoUrls| > 0 && photoUrls[0] != "" && isValidUrl(photoUrls[0]) && !imageError ==> r == photoUrls[0]
    ensures !(|photoUrls| > 0 && photoUrls[0] != "" && isValidUrl(photoUrls[0]) && !imageError) ==> r == PLACEHOLDER_IMAGE
  {
    if |photoUrls| > 0 && photoUrls[0] != "" && isValidUrl(photoUrls[0]) && !imageError
    then photoUrls[0]
    else PLACEHOLDER_IMAGE
  }

  /** What `handleOrder(quantity)` does: the quantity passed to `onBuy`, if any, and whether the dialog stays open. */
  datatype OrderHandling = OrderHandling(forwarded: Option<int>, showOrderModal: bool)

  function HandleOrder(quantity: int, hasOnBuy: bool, showOrderModal: bool): (r: OrderHandling)
    ensures hasOnBuy ==> r.forwarded == Some(quantity) && !r.showOrderModal
    ensures !hasOnBuy ==> r.forwarded == None && r.showOrderModal == showOrderModal
  {
    if hasOnBuy then OrderHandling(Some(quantity), false) else OrderHandling(None, showOrderModal)
  }

  /** A card whose image failed to load shows the placeholder, whatever its URLs. */
  lemma BrokenImageShowsPlaceholder(photoUrls: seq<string>, isValidUrl: string -> bool)
    ensures ImageUrl(photoUrls, isValidUrl, true) == PLACEHOLDER_IMAGE
  {
  }

  /**
   * For the three statuses the labels are those the form offers, and a
   * disabled button shows a text different from the order invitation.
   */
  lemma StatusLabels(s: Status)
    ensures StatusText(s.Name()) == (match s case Available => "Disponible" case Pending => "Pendiente" case Sold => "Vendido")
    ensures s != Available ==> !OrderEnabled(s.Name()) && ButtonText(s.Name()) != "Ordenar"
  {
  }
}
