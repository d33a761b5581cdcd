/**
 * The entities of the store's schema: one datatype per table row.  Primary
 * keys are not part of a row; a table is a map from key to row (see
 * Database).  Foreign keys are the referenced row's key.
 */
module Models {
  import opened Wrappers
  import opened Values
  import opened Tables

  datatype UserType = Client | SupplierUser

  /** The custom user model: the login name, a unique email and the account type. */
  datatype User = User(username: string, email: string, userType: UserType)

  /** A supplier profile, one-to-one with its user; `acceptsOrders` gates checkout. */
  datatype Supplier = Supplier(user: Id, name: string, acceptsOrders: bool)

  datatype Category = Category(name: string)

  /**
   * A product.  `quantity` is a positive-integer column, so the database
   * refuses a negative value; the price column carries only a form
   * validator, so nothing below the forms refuses a negative price.
   * Prices are in cents.
   */
  datatype Product = Product(name: string, category: int, supplier: Id, price: int,
                             quantity: nat, externalId: Option<string>)

  datatype Parameter = Parameter(name: string)

  /** The value of one parameter for one product. */
  datatype ProductParameter = ProductParameter(product: Id, parameter: Id, value: string)

  datatype DeliveryAddress = DeliveryAddress(user: Id, city: string, street: string,
                                             house: string, apartment: Option<string>)

  /** The fixed set of order states. */
  datatype Status = New | Confirmed | Assembled | Sent | Delivered | Canceled

  /** An order; the address is nulled when the address row is deleted. Timestamps are not modelled. */
  datatype Order = Order(user: Id, address: Option<Id>, status: Status)

  /** One line of an order; a positive-integer column (the minimum of 1 is a form validator only). */
  datatype OrderItem = OrderItem(order: Id, product: Id, quantity: nat)

  /**
   * One line of a basket.  A basket is identified by its owner, of whom it
   * has exactly one, so `basket` is the owning user's id.  The quantity is
   * whatever the add handler stored; nothing in the schema bounds it.
   */
  datatype BasketItem = BasketItem(basket: Id, product: Id, quantity: int)

  /** The confirmation code of a pending order, keyed by that order. */
  datatype ConfirmationCode = ConfirmationCode(code: string, expiresAt: int)

  /** The database value of each status choice. */
  function StatusCode(s: Status): string {
    match s
    case New => "new"
    case Confirmed => "confirmed"
    case Assembled => "assembled"
    case Sent => "sent"
    case Delivered => "delivered"
    case Canceled => "canceled"
  }

  /** The status whose database value is `code`, if `code` is one of the choices. */
  function ParseStatus(code: string): (r: Option<Status>)
    ensures r.Some? ==> StatusCode(r.value) == code
    ensures forall s :: StatusCode(s) == code ==> r == Some(s)
  {
    if code == "new" then Some(New)
    else if code == "confirmed" then Some(Confirmed)
    else if code == "assembled" then Some(Assembled)
    else if code == "sent" then Some(Sent)
    else if code == "delivered" then Some(Delivered)
    else if code == "canceled" then Some(Canceled)
    else None
  }

  /** The status a new order row gets when none is given. */
  const DefaultStatus: Status := New

  /** Whether a new supplier row accepts orders when nothing is given. */
  const DefaultAcceptsOrders := true

  /** Number of digits of a confirmation code. */
  const CodeLength := 6

  /** How long a confirmation code stays valid, in seconds (15 minutes). */
  const CodeLifetime := 15 * 60

  /** What `random.choices(string.digits, k=6)` can produce. */
  predicate WellFormedCode(code: string) {
    |code| == CodeLength && AllDigits(code)
  }

  /** The code record issued at time `now`. */
  function IssueCode(code: string, now: int): ConfirmationCode {
    ConfirmationCode(code, now + CodeLifetime)
  }

  /** `is_expired()`: strictly past the expiry instant. */
  predicate IsExpired(c: ConfirmationCode, now: int) {
    now > c.expiresAt
  }

  /** A code issued at `issued` is still valid at `now` exactly within the lifetime. */
  lemma CodeValidForLifetime(code: string, issued: int, now: int)
    ensures !IsExpired(IssueCode(code, issued), now) <==> now <= issued + CodeLifetime
  {
  }
}
