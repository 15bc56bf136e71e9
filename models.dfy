/**
 * The customer entity, its value objects and the request/response shapes.
 * Identifiers and instants are abstract: an `Id` is handed out once by the table,
 * a `Timestamp` is a reading of the table's monotone clock.
 */
module Models {
  import opened Wrappers

  type Id = nat
  type Timestamp = nat

  /** A calendar date (the `date_of_birth` column); no calendar rules are modelled. */
  datatype Date = Date(year: int, month: int, day: int)

  datatype Address = Address(
    street: string,
    city: string,
    state: string,
    postalCode: string,
    country: string)

  datatype CustomerStatus = Active | Inactive | Suspended | Closed

  /** The text stored in the `status` column. */
  function StatusName(s: CustomerStatus): string
  {
    match s
    case Active => "active"
    case Inactive => "inactive"
    case Suspended => "suspended"
    case Closed => "closed"
  }

  /** The status whose column text is `name`, if any. */
  function ParseStatus(name: string): Option<CustomerStatus>
  {
    if name == "active" then Some(Active)
    else if name == "inactive" then Some(Inactive)
    else if name == "suspended" then Some(Suspended)
    else if name == "closed" then Some(Closed)
    else None
  }

  /** The four column texts are the only ones that name a status, and each names exactly one. */
  lemma StatusNameRoundTrip(s: CustomerStatus, name: string)
    ensures ParseStatus(StatusName(s)) == Some(s)
    ensures ParseStatus(name) == Some(s) <==> StatusName(s) == name
  {
  }

  /** The soft-delete marker: a row is either live or was deleted at some instant. */
  datatype Deletion = NotDeleted | Deleted(at: Timestamp)

  datatype Customer = Customer(
    id: Id,
    firstName: string,
    lastName: string,
    email: string,
    phone: string,
    dateOfBirth: Option<Date>,
    address: Address,
    status: CustomerStatus,
    createdAt: Timestamp,
    updatedAt: Timestamp,
    deletedAt: Deletion)

  /** The create/update payload: it has no id, no status and no timestamps. */
  datatype CustomerRequest = CustomerRequest(
    firstName: string,
    lastName: string,
    email: string,
    phone: string,
    dateOfBirth: Option<Date>,
    address: Address)

  /** What clients see of a customer: everything but the deletion marker. */
  datatype CustomerResponse = CustomerResponse(
    id: Id,
    firstName: string,
    lastName: string,
    email: string,
    phone: string,
    dateOfBirth: Option<Date>,
    address: Address,
    status: CustomerStatus,
    createdAt: Timestamp,
    updatedAt: Timestamp)

  datatype CustomerListResponse = CustomerListResponse(
    customers: seq<CustomerResponse>,
    total: nat,
    page: int,
    pageSize: int,
    totalPages: nat)

  /** Search parameters as bound from the query string; `status` is free text. */
  datatype CustomerSearchRequest = CustomerSearchRequest(
    query: string,
    status: string,
    page: int,
    pageSize: int)

  function ToResponse(c: Customer): (r: CustomerResponse)
    ensures r.id == c.id && r.firstName == c.firstName && r.lastName == c.lastName
    ensures r.email == c.email && r.phone == c.phone && r.dateOfBirth == c.dateOfBirth
    ensures r.address == c.address && r.status == c.status
    ensures r.createdAt == c.createdAt && r.updatedAt == c.updatedAt
  {
    CustomerResponse(c.id, c.firstName, c.lastName, c.email, c.phone,
                     c.dateOfBirth, c.address, c.status, c.createdAt, c.updatedAt)
  }

  /** The customer a response shows, given the deletion marker the response leaves out. */
  function FromResponse(r: CustomerResponse, d: Deletion): Customer
  {
    Customer(r.id, r.firstName, r.lastName, r.email, r.phone,
             r.dateOfBirth, r.address, r.status, r.createdAt, r.updatedAt, d)
  }

  /** `ToResponse` loses exactly the deletion marker: with it, the customer is recovered. */
  lemma ToResponseRoundTrip(c: Customer, r: CustomerResponse, d: Deletion)
    ensures FromResponse(ToResponse(c), c.deletedAt) == c
    ensures ToResponse(FromResponse(r, d)) == r
  {
  }

  /** Two customers have the same response exactly when they differ at most in the deletion marker. */
  lemma ToResponseHidesOnlyDeletion(a: Customer, b: Customer)
    ensures ToResponse(a) == ToResponse(b) <==> a.(deletedAt := NotDeleted) == b.(deletedAt := NotDeleted)
  {
  }
}
