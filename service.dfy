/**
 * The customer service: business rules stacked on the repository. It validates
 * requests, pre-checks email uniqueness, decides which fields an update may
 * overwrite, normalises pagination and shapes responses.
 */
module Service {
  import opened Wrappers
  import opened Errors
  import opened Models
  import opened Repository

  /** Fail-fast validation: the first empty field among first name, last name, email and phone. */
  function ValidateCustomerRequest(req: CustomerRequest): (r: Option<Error>)
    ensures r.None? <==> req.firstName != "" && req.lastName != "" && req.email != "" && req.phone != ""
    ensures r == Some(FirstNameRequired) <==> req.firstName == ""
    ensures r == Some(LastNameRequired) <==> req.firstName != "" && req.lastName == ""
    ensures r == Some(EmailRequired) <==> req.firstName != "" && req.lastName != "" && req.email == ""
    ensures r == Some(PhoneRequired) <==>
      req.firstName != "" && req.lastName != "" && req.email != "" && req.phone == ""
    ensures r.Some? ==> r.value in {FirstNameRequired, LastNameRequired, EmailRequired, PhoneRequired}
  {
    if req.firstName == "" then Some(FirstNameRequired)
    else if req.lastName == "" then Some(LastNameRequired)
    else if req.email == "" then Some(EmailRequired)
    else if req.phone == "" then Some(PhoneRequired)
    else None
  }

  /** Page defaulting: non-positive pages become the first page. */
  function NormalizePage(page: int): (r: int)
    ensures r >= 1
    ensures page >= 1 ==> r == page
    ensures page <= 0 ==> r == 1
  {
    if page <= 0 then 1 else page
  }

  /** Page-size defaulting and clamping into 1..100. */
  function NormalizePageSize(pageSize: int): (r: int)
    ensures 1 <= r <= 100
    ensures 1 <= pageSize <= 100 ==> r == pageSize
    ensures pageSize <= 0 ==> r == 10
    ensures pageSize > 100 ==> r == 100
  {
    if pageSize <= 0 then 10 else if pageSize > 100 then 100 else pageSize
  }

  lemma MulMonotone(a: int, b: int, p: int)
    requires a <= b && p >= 0
    ensures a * p <= b * p
  {
    assert b * p - a * p == (b - a) * p;
  }

  /** The number of pages of `pageSize` rows needed to show `total` rows. */
  function TotalPages(total: nat, pageSize: int): (r: nat)
    requires pageSize >= 1
    ensures total == 0 ==> r == 0
    ensures total > 0 ==> (r - 1) * pageSize < total <= r * pageSize
  {
    var r := (total + pageSize - 1) / pageSize;
    assert r * pageSize + (total + pageSize - 1) % pageSize == total + pageSize - 1;
    assert (r - 1) * pageSize == r * pageSize - pageSize;
    r
  }

  /** `TotalPages` is the least page count that covers `total`: the ceiling of total / pageSize. */
  lemma TotalPagesIsCeiling(total: nat, pageSize: int, n: nat)
    requires pageSize >= 1
    ensures n == TotalPages(total, pageSize) <==> total <= n * pageSize && (n == 0 || (n - 1) * pageSize < total)
  {
    var t := TotalPages(total, pageSize);
    if total <= n * pageSize && (n == 0 || (n - 1) * pageSize < total) {
      if n < t {
        MulMonotone(n, t - 1, pageSize);
      } else if n > t {
        MulMonotone(t, n - 1, pageSize);
      }
    }
  }

  /**
   * Page `page` of a listing holds rows exactly when it is one of the first
   * `TotalPages` pages: `TotalPages` and `OFFSET`/`LIMIT` agree.
   */
  lemma PageNonEmptyIff(rows: seq<Customer>, query: string, status: string, page: int, pageSize: int)
    requires page >= 1 && pageSize >= 1
    ensures |PageOf(rows, query, status, page, pageSize)| > 0
        <==> page <= TotalPages(|Filter(rows, query, status)|, pageSize)
  {
    var total := |Filter(rows, query, status)|;
    var t := TotalPages(total, pageSize);
    if page <= t {
      MulMonotone(page - 1, t - 1, pageSize);
    } else {
      MulMonotone(t, page - 1, pageSize);
    }
  }

  /** The sized columns accept the request's values they are written to. */
  predicate RequestFits(req: CustomerRequest)
  {
    ColumnsFit(req.firstName, req.lastName, req.email, req.phone, req.address)
  }

  /** After a successful update: the six request fields are the request's, the rest are the stored row's. */
  predicate Overwritten(before: Customer, after: Customer, req: CustomerRequest)
  {
    && after.firstName == req.firstName && after.lastName == req.lastName
    && after.email == req.email && after.phone == req.phone
    && after.dateOfBirth == req.dateOfBirth && after.address == req.address
    && after.id == before.id && after.status == before.status
    && after.createdAt == before.createdAt && after.deletedAt == before.deletedAt
  }

  /** Shapes each row, keeping order and length. */
  method ToResponses(customers: seq<Customer>) returns (responses: seq<CustomerResponse>)
    ensures |responses| == |customers|
    ensures forall i :: 0 <= i < |customers| ==> responses[i] == ToResponse(customers[i])
  {
    responses := [];
    for i := 0 to |customers|
      invariant |responses| == i
      invariant forall k :: 0 <= k < i ==> responses[k] == ToResponse(customers[k])
    {
      responses := responses + [ToResponse(customers[i])];
    }
  }

  class CustomerService {
    const repo: CustomerRepository

    constructor (repo: CustomerRepository)
      ensures this.repo == repo
    {
      this.repo := repo;
    }

    method CreateCustomer(req: CustomerRequest) returns (r: Result<CustomerResponse, Error>)
      requires repo.Valid()
      modifies repo
      ensures repo.Valid()
      ensures ValidateCustomerRequest(req).Some? ==>
        r == Failure(ValidateCustomerRequest(req).value) && repo.rows == old(repo.rows) && repo.clock == old(repo.clock)
      ensures ValidateCustomerRequest(req).None? && EmailVisible(old(repo.rows), req.email) ==>
        r == Failure(EmailTaken) && repo.rows == old(repo.rows) && repo.clock == old(repo.clock)
      ensures ValidateCustomerRequest(req).None? && !EmailVisible(old(repo.rows), req.email) && !RequestFits(req) ==>
        r == Failure(CreateFailed) && repo.rows == old(repo.rows) && repo.clock == old(repo.clock)
      ensures (&& ValidateCustomerRequest(req).None? && RequestFits(req)
               && EmailHeld(old(repo.rows), Truncate(req.email, EmailWidth))) ==>
        r == Failure(EmailTaken) && repo.rows == old(repo.rows) && repo.clock == old(repo.clock)
      ensures (&& ValidateCustomerRequest(req).None? && RequestFits(req)
               && !EmailHeld(old(repo.rows), Truncate(req.email, EmailWidth))) ==>
        && r.Success?
        && repo.clock > old(repo.clock)
        && repo.rows == old(repo.rows) + [Stored(FromResponse(r.value, NotDeleted))]
        && (forall k | 0 <= k < |old(repo.rows)| :: old(repo.rows)[k].id != r.value.id)
        && r.value.firstName == req.firstName && r.value.lastName == req.lastName && r.value.email == req.email
        && r.value.phone == req.phone && r.value.dateOfBirth == req.dateOfBirth && r.value.address == req.address
        && r.value.status == Active
        && r.value.createdAt == r.value.updatedAt == old(repo.clock)
    {
      var invalid := ValidateCustomerRequest(req);
      if invalid.Some? {
        return Failure(invalid.value);
      }
      var existing := repo.GetByEmail(req.email);
      if existing.Success? {
        return Failure(EmailTaken);
      }
      var created := repo.Create(NewCustomer(req.firstName, req.lastName, req.email, req.phone,
                                             req.dateOfBirth, req.address, Some(Active)));
      if created.Failure? {
        return Failure(created.error);
      }
      ToResponseRoundTrip(created.value, ToResponse(created.value), NotDeleted);
      r := Success(ToResponse(created.value));
    }

    method GetCustomer(id: Id) returns (r: Result<CustomerResponse, Error>)
      requires repo.Valid()
      ensures r.Success? <==> IdVisible(repo.rows, id)
      ensures r.Success? ==> id < |repo.rows| && r.value == ToResponse(repo.rows[id])
      ensures r.Failure? ==> r.error == NotFound
    {
      var found := repo.GetByID(id);
      if found.Failure? {
        return Failure(found.error);
      }
      r := Success(ToResponse(found.value));
    }

    method UpdateCustomer(id: Id, req: CustomerRequest) returns (r: Result<CustomerResponse, Error>)
      requires repo.Valid()
      modifies repo
      ensures repo.Valid()
      ensures ValidateCustomerRequest(req).Some? ==>
        r == Failure(ValidateCustomerRequest(req).value) && repo.rows == old(repo.rows) && repo.clock == old(repo.clock)
      ensures ValidateCustomerRequest(req).None? && !IdVisible(old(repo.rows), id) ==>
        r == Failure(NotFound) && repo.rows == old(repo.rows) && repo.clock == old(repo.clock)
      ensures ValidateCustomerRequest(req).None? && IdVisible(old(repo.rows), id) ==>
        && id < |old(repo.rows)|
        && var before := old(repo.rows)[id];
        && (if req.email != before.email && EmailVisible(old(repo.rows), req.email) then
              r == Failure(EmailTaken) && repo.rows == old(repo.rows) && repo.clock == old(repo.clock)
            else if !RequestFits(req) then
              r == Failure(UpdateFailed) && repo.rows == old(repo.rows) && repo.clock == old(repo.clock)
            else if EmailHeldByOther(old(repo.rows), Truncate(req.email, EmailWidth), id) then
              r == Failure(EmailTaken) && repo.rows == old(repo.rows) && repo.clock == old(repo.clock)
            else
              && r.Success?
              && repo.clock > old(repo.clock)
              && repo.rows == old(repo.rows)[id := Stored(FromResponse(r.value, NotDeleted))]
              && r.value.updatedAt == old(repo.clock)
              && Overwritten(before, FromResponse(r.value, NotDeleted), req))
    {
      var invalid := ValidateCustomerRequest(req);
      if invalid.Some? {
        return Failure(invalid.value);
      }
      var found := repo.GetByID(id);
      if found.Failure? {
        return Failure(found.error);
      }
      var customer := found.value;
      if customer.email != req.email {
        var existing := repo.GetByEmail(req.email);
        if existing.Success? {
          return Failure(EmailTaken);
        }
      }
      customer := customer.(firstName := req.firstName, lastName := req.lastName, email := req.email,
                            phone := req.phone, dateOfBirth := req.dateOfBirth, address := req.address);
      var saved := repo.Update(customer);
      if saved.Failure? {
        return Failure(saved.error);
      }
      ToResponseRoundTrip(saved.value, ToResponse(saved.value), NotDeleted);
      r := Success(ToResponse(saved.value));
    }

    method DeleteCustomer(id: Id) returns (r: Outcome<Error>)
      requires repo.Valid()
      modifies repo
      ensures repo.Valid()
      ensures !IdVisible(old(repo.rows), id) ==> r == Fail(NotFound) && repo.rows == old(repo.rows) && repo.clock == old(repo.clock)
      ensures IdVisible(old(repo.rows), id) ==>
        && r == Pass
        && id < |old(repo.rows)| && repo.clock > old(repo.clock)
        && repo.rows == old(repo.rows)[id := old(repo.rows)[id].(deletedAt := Deleted(old(repo.clock)))]
      ensures |repo.rows| == |old(repo.rows)| && !IdVisible(repo.rows, id)
      ensures forall q, st, c :: c in Filter(repo.rows, q, st) ==> c.id != id
    {
      var found := repo.GetByID(id);
      if found.Failure? {
        r := Fail(found.error);
      } else {
        r := repo.Delete(id);
      }
      forall q, st
        ensures forall c :: c in Filter(repo.rows, q, st) ==> c.id != id
      {
        InvisibleNotListed(repo.rows, id, q, st);
      }
    }

    method ListCustomers(page: int, pageSize: int) returns (r: CustomerListResponse)
      requires repo.Valid()
      ensures r.page == NormalizePage(page) && r.pageSize == NormalizePageSize(pageSize)
      ensures r.total == |set c | c in repo.rows && Visible(c)|
      ensures r.totalPages == TotalPages(r.total, r.pageSize)
      ensures var items := PageOf(repo.rows, "", "", r.page, r.pageSize);
        && |r.customers| == |items|
        && forall i :: 0 <= i < |items| ==> r.customers[i] == ToResponse(items[i])
    {
      var p := NormalizePage(page);
      var size := NormalizePageSize(pageSize);
      var customers, total := repo.List(p, size);
      var responses := ToResponses(customers);
      r := CustomerListResponse(responses, total, p, size, TotalPages(total, size));
    }

    method SearchCustomers(req: CustomerSearchRequest) returns (r: Result<CustomerListResponse, Error>)
      requires repo.Valid()
      ensures r.Failure? <==> !NulFree(req.query) || !NulFree(req.status)
      ensures r.Failure? ==> r.error == CountFailed
      ensures r.Success? ==>
        var l := r.value;
        && l.page == NormalizePage(req.page) && l.pageSize == NormalizePageSize(req.pageSize)
        && l.total == |MatchingSet(repo.rows, req.query, req.status)|
        && l.totalPages == TotalPages(l.total, l.pageSize)
        && var items := PageOf(repo.rows, req.query, req.status, l.page, l.pageSize);
        && |l.customers| == |items|
        && forall i :: 0 <= i < |items| ==> l.customers[i] == ToResponse(items[i])
    {
      var normalized := req.(page := NormalizePage(req.page), pageSize := NormalizePageSize(req.pageSize));
      var found := repo.Search(normalized);
      if found.Failure? {
        return Failure(found.error);
      }
      var responses := ToResponses(found.value.items);
      r := Success(CustomerListResponse(responses, found.value.total, normalized.page, normalized.pageSize,
                                        TotalPages(found.value.total, normalized.pageSize)));
    }
  }

  /** Of two creates with the same email, the second is refused, whatever happened to the first. */
  method CreateTwice(service: CustomerService, req: CustomerRequest)
    returns (first: Result<CustomerResponse, Error>, second: Result<CustomerResponse, Error>)
    requires service.repo.Valid()
    modifies service.repo
    ensures service.repo.Valid()
    ensures first.Success? ==> second == Failure(EmailTaken)
    ensures first.Success? <==>
      ValidateCustomerRequest(req).None? && RequestFits(req)
      && !EmailHeld(old(service.repo.rows), Truncate(req.email, EmailWidth))
  {
    first := service.CreateCustomer(req);
    if first.Success? {
      assert service.repo.rows[|service.repo.rows| - 1].email == Truncate(req.email, EmailWidth);
    }
    second := service.CreateCustomer(req);
  }
}
