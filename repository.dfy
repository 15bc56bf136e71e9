/**
 * The customer table and its data-access operations. The relational store is
 * replaced by an in-memory table: a sequence of rows in insertion order, where a
 * row's id is its position, plus a monotone clock standing in for `now()`.
 * Rows are never removed; a soft delete only sets the row's deletion marker.
 */
module Repository {
  import opened Wrappers
  import opened Errors
  import opened Models
  import Text

  /** The customer before the store assigns its id and timestamps; a missing status takes the column default. */
  datatype NewCustomer = NewCustomer(
    firstName: string,
    lastName: string,
    email: string,
    phone: string,
    dateOfBirth: Option<Date>,
    address: Address,
    status: Option<CustomerStatus>)

  /** One page of a filtered scan and the filtered count. */
  datatype Listing = Listing(items: seq<Customer>, total: nat)

  /** The soft-delete scope every read applies (`deleted_at IS NULL`). */
  predicate Visible(c: Customer)
  {
    c.deletedAt.NotDeleted?
  }

  predicate IdVisible(rows: seq<Customer>, id: Id)
  {
    exists i | 0 <= i < |rows| :: rows[i].id == id && Visible(rows[i])
  }

  predicate EmailVisible(rows: seq<Customer>, email: string)
  {
    exists i | 0 <= i < |rows| :: rows[i].email == email && Visible(rows[i])
  }

  /** Some row, live or soft-deleted, holds `email` in the unique index. */
  predicate EmailHeld(rows: seq<Customer>, email: string)
  {
    exists i | 0 <= i < |rows| :: rows[i].email == email
  }

  /** Some row other than the one with id `id`, live or soft-deleted, holds `email`. */
  predicate EmailHeldByOther(rows: seq<Customer>, email: string, id: Id)
  {
    exists i | 0 <= i < |rows| :: rows[i].email == email && rows[i].id != id
  }

  /** Column widths, from the `size:` tags the table is migrated from. */
  const NameWidth := 100
  const EmailWidth := 255
  const PhoneWidth := 20
  const StreetWidth := 255
  const CityWidth := 100
  const StateWidth := 100
  const PostalCodeWidth := 20
  const CountryWidth := 100

  /**
   * What the server accepts as text at all: a NUL character makes it refuse the
   * statement, whatever column or filter the value is bound to.
   */
  predicate NulFree(s: string)
  {
    '\0' !in s
  }

  /**
   * What a `varchar(n)` column accepts on assignment: NUL-free text whose characters
   * beyond the first n, if any, are all spaces.
   */
  predicate ColumnAccepts(s: string, n: nat)
  {
    NulFree(s) && forall k | n <= k < |s| :: s[k] == ' '
  }

  /** What the column keeps of an accepted value: the excess spaces are cut off. */
  function Truncate(s: string, n: nat): string
  {
    if |s| <= n then s else s[..n]
  }

  /** A value as a `varchar(n)` column holds it. */
  predicate AtRest(s: string, n: nat)
  {
    |s| <= n && NulFree(s)
  }

  function Spaces(m: nat): (r: string)
    ensures |r| == m && forall k | 0 <= k < m :: r[k] == ' '
  {
    seq(m, k => ' ')
  }

  /**
   * An accepted value is kept up to trailing spaces: what is cut off is spaces only,
   * and what is kept is at rest. A value at rest is accepted and kept unchanged.
   */
  lemma TruncateKeepsAccepted(s: string, n: nat)
    ensures ColumnAccepts(s, n) ==> AtRest(Truncate(s, n), n) && s == Truncate(s, n) + Spaces(|s| - |Truncate(s, n)|)
    ensures AtRest(s, n) ==> ColumnAccepts(s, n) && Truncate(s, n) == s
    ensures |Truncate(s, n)| <= n && Truncate(s, n) <= s
  {
  }

  predicate AddressFits(a: Address)
  {
    && ColumnAccepts(a.street, StreetWidth) && ColumnAccepts(a.city, CityWidth)
    && ColumnAccepts(a.state, StateWidth) && ColumnAccepts(a.postalCode, PostalCodeWidth)
    && ColumnAccepts(a.country, CountryWidth)
  }

  /** The store accepts every sized column's value; otherwise it refuses the write. */
  predicate ColumnsFit(firstName: string, lastName: string, email: string, phone: string, address: Address)
  {
    && ColumnAccepts(firstName, NameWidth) && ColumnAccepts(lastName, NameWidth)
    && ColumnAccepts(email, EmailWidth) && ColumnAccepts(phone, PhoneWidth)
    && AddressFits(address)
  }

  predicate AddressAtRest(a: Address)
  {
    && AtRest(a.street, StreetWidth) && AtRest(a.city, CityWidth) && AtRest(a.state, StateWidth)
    && AtRest(a.postalCode, PostalCodeWidth) && AtRest(a.country, CountryWidth)
  }

  /** Every sized column of the row holds a value its column can hold. */
  predicate RowAtRest(c: Customer)
  {
    && AtRest(c.firstName, NameWidth) && AtRest(c.lastName, NameWidth)
    && AtRest(c.email, EmailWidth) && AtRest(c.phone, PhoneWidth)
    && AddressAtRest(c.address)
  }

  function StoredAddress(a: Address): Address
  {
    Address(Truncate(a.street, StreetWidth), Truncate(a.city, CityWidth), Truncate(a.state, StateWidth),
            Truncate(a.postalCode, PostalCodeWidth), Truncate(a.country, CountryWidth))
  }

  /** The row the store keeps for a customer it accepts: each sized column holds its truncated value. */
  function Stored(c: Customer): Customer
  {
    c.(firstName := Truncate(c.firstName, NameWidth), lastName := Truncate(c.lastName, NameWidth),
       email := Truncate(c.email, EmailWidth), phone := Truncate(c.phone, PhoneWidth),
       address := StoredAddress(c.address))
  }

  /**
   * Storing an accepted customer gives a row at rest that differs from it only by cut-off
   * trailing spaces; a row at rest is accepted and stored unchanged.
   */
  lemma StoredAtRest(c: Customer)
    ensures ColumnsFit(c.firstName, c.lastName, c.email, c.phone, c.address) ==> RowAtRest(Stored(c))
    ensures RowAtRest(c) ==> ColumnsFit(c.firstName, c.lastName, c.email, c.phone, c.address) && Stored(c) == c
    ensures Stored(c).(firstName := c.firstName, lastName := c.lastName, email := c.email, phone := c.phone,
                       address := c.address) == c
  {
  }

  /** The unique index on email, over every row. */
  predicate UniqueEmails(rows: seq<Customer>)
  {
    forall i, j | 0 <= i < |rows| && 0 <= j < |rows| && rows[i].email == rows[j].email :: i == j
  }

  /** Creation order: `created_at` strictly increases along the table. */
  predicate Ascending(s: seq<Customer>)
  {
    forall i, j | 0 <= i < j < |s| :: s[i].createdAt < s[j].createdAt
  }

  /** `ORDER BY created_at DESC`, with no ties. */
  predicate Descending(s: seq<Customer>)
  {
    forall i, j | 0 <= i < j < |s| :: s[i].createdAt > s[j].createdAt
  }

  /** The query filter of Search: the term is OR'd over four columns. */
  predicate MatchesQuery(c: Customer, query: string)
  {
    || query == ""
    || Text.ILikeContains(c.firstName, query)
    || Text.ILikeContains(c.lastName, query)
    || Text.ILikeContains(c.email, query)
    || Text.ILikeContains(c.phone, query)
  }

  /** The status filter of Search: an exact comparison with the column text. */
  predicate MatchesStatus(c: Customer, status: string)
  {
    status == "" || StatusName(c.status) == status
  }

  predicate Matches(c: Customer, query: string, status: string)
  {
    MatchesQuery(c, query) && MatchesStatus(c, status)
  }

  /** The rows a filtered scan returns, in table order. */
  function Filter(rows: seq<Customer>, query: string, status: string): (r: seq<Customer>)
    ensures |r| <= |rows|
    ensures forall c :: c in r <==> c in rows && Visible(c) && Matches(c, query, status)
    decreases |rows|
  {
    if rows == [] then []
    else
      var init, last := rows[..|rows| - 1], rows[|rows| - 1];
      assert rows == init + [last];
      Filter(init, query, status) + (if Visible(last) && Matches(last, query, status) then [last] else [])
  }

  /** The set of rows the filtered `COUNT(*)` counts. */
  function MatchingSet(rows: seq<Customer>, query: string, status: string): set<Customer>
  {
    set c | c in rows && Visible(c) && Matches(c, query, status)
  }

  /** A table-ordered sequence read back to front, i.e. newest first. */
  function NewestFirst(s: seq<Customer>): (r: seq<Customer>)
    ensures |r| == |s|
    ensures forall i :: 0 <= i < |s| ==> r[i] == s[|s| - 1 - i]
  {
    seq(|s|, i requires 0 <= i < |s| => s[|s| - 1 - i])
  }

  function Min(a: int, b: int): int
  {
    if a <= b then a else b
  }

  /** `OFFSET offset LIMIT limit`. */
  function Window(s: seq<Customer>, offset: nat, limit: nat): (r: seq<Customer>)
    ensures |r| == if offset >= |s| then 0 else Min(limit, |s| - offset)
    ensures forall k :: 0 <= k < |r| ==> r[k] == s[offset + k]
  {
    if offset >= |s| then [] else s[offset..offset + Min(limit, |s| - offset)]
  }

  lemma OffsetNonNegative(page: int, pageSize: int)
    requires page >= 1 && pageSize >= 1
    ensures (page - 1) * pageSize >= 0
  {
  }

  /** One page of the filtered rows, newest first. */
  function PageOf(rows: seq<Customer>, query: string, status: string, page: int, pageSize: int): seq<Customer>
    requires page >= 1 && pageSize >= 1
  {
    OffsetNonNegative(page, pageSize);
    Window(NewestFirst(Filter(rows, query, status)), (page - 1) * pageSize, pageSize)
  }

  /** Filtering keeps table order, so an ascending table gives an ascending result. */
  lemma {:induction false} FilterAscending(rows: seq<Customer>, query: string, status: string)
    requires Ascending(rows)
    ensures Ascending(Filter(rows, query, status))
    decreases |rows|
  {
    if rows != [] {
      var init, last := rows[..|rows| - 1], rows[|rows| - 1];
      FilterAscending(init, query, status);
      var f := Filter(init, query, status);
      forall c | c in f
        ensures c.createdAt < last.createdAt
      {
        var k :| 0 <= k < |init| && init[k] == c;
      }
      if Visible(last) && Matches(last, query, status) {
        var g := f + [last];
        forall i, j | 0 <= i < j < |g|
          ensures g[i].createdAt < g[j].createdAt
        {
          if j == |f| {
            assert g[i] in f;
          }
        }
      }
    }
  }

  /** In an ascending table the last row occurs nowhere before. */
  lemma NewestNotEarlier(rows: seq<Customer>)
    requires Ascending(rows) && rows != []
    ensures rows[|rows| - 1] !in rows[..|rows| - 1]
    ensures Ascending(rows[..|rows| - 1])
  {
    var init := rows[..|rows| - 1];
    forall k | 0 <= k < |init|
      ensures init[k].createdAt < rows[|rows| - 1].createdAt
    {
      assert init[k] == rows[k];
    }
  }

  /** The filtered count counts each matching row once. */
  lemma {:induction false} FilterCount(rows: seq<Customer>, query: string, status: string)
    requires Ascending(rows)
    ensures |Filter(rows, query, status)| == |MatchingSet(rows, query, status)|
    decreases |rows|
  {
    if rows == [] {
      assert MatchingSet(rows, query, status) == {};
    } else {
      var init, last := rows[..|rows| - 1], rows[|rows| - 1];
      assert rows == init + [last];
      NewestNotEarlier(rows);
      FilterCount(init, query, status);
      MatchingSetSnoc(init, last, query, status);
      var before := MatchingSet(init, query, status);
      assert last !in before;
      if Visible(last) && Matches(last, query, status) {
        assert |before + {last}| == |before| + 1;
      }
    }
  }

  /** Appending a row adds it to the matching set exactly when it matches. */
  lemma MatchingSetSnoc(init: seq<Customer>, last: Customer, query: string, status: string)
    ensures MatchingSet(init + [last], query, status)
      == MatchingSet(init, query, status) + (if Visible(last) && Matches(last, query, status) then {last} else {})
  {
    forall c
      ensures c in init + [last] <==> c in init || c == last
    {
    }
  }

  /** The rows a page holds, in order: positions `offset + k` of the newest-first list. */
  lemma PageOfAt(rows: seq<Customer>, query: string, status: string, page: int, pageSize: int, k: int)
    requires page >= 1 && pageSize >= 1
    requires 0 <= k < |PageOf(rows, query, status, page, pageSize)|
    ensures var f := Filter(rows, query, status);
      && 0 <= |f| - 1 - ((page - 1) * pageSize + k) < |f|
      && PageOf(rows, query, status, page, pageSize)[k] == f[|f| - 1 - ((page - 1) * pageSize + k)]
  {
    OffsetNonNegative(page, pageSize);
  }

  /** What every page returned by List or Search satisfies. */
  lemma PageOfProperties(rows: seq<Customer>, query: string, status: string, page: int, pageSize: int)
    requires Ascending(rows)
    requires page >= 1 && pageSize >= 1
    ensures var items := PageOf(rows, query, status, page, pageSize);
      && |items| <= pageSize
      && Descending(items)
      && (forall c :: c in items ==> c in rows && Visible(c) && Matches(c, query, status))
      && ((page - 1) * pageSize >= |Filter(rows, query, status)| ==> items == [])
  {
    var f := Filter(rows, query, status);
    FilterAscending(rows, query, status);
    var items := PageOf(rows, query, status, page, pageSize);
    forall c | c in items
      ensures c in f
    {
      var k :| 0 <= k < |items| && items[k] == c;
      PageOfAt(rows, query, status, page, pageSize, k);
    }
    forall i, j | 0 <= i < j < |items|
      ensures items[i].createdAt > items[j].createdAt
    {
      PageOfAt(rows, query, status, page, pageSize, i);
      PageOfAt(rows, query, status, page, pageSize, j);
    }
  }

  /** With no filters, Search's predicate holds of every row, so List's rows are Search's. */
  lemma EmptyFiltersMatchAll(rows: seq<Customer>)
    ensures forall c :: Matches(c, "", "")
    ensures MatchingSet(rows, "", "") == set c | c in rows && Visible(c)
  {
  }

  /** A row that is not visible by id is counted and listed by no query at all. */
  lemma InvisibleNotListed(rows: seq<Customer>, id: Id, query: string, status: string)
    requires !IdVisible(rows, id)
    ensures forall c :: c in Filter(rows, query, status) ==> c.id != id
    ensures forall c :: c in MatchingSet(rows, query, status) ==> c.id != id
  {
    forall c | c in rows && Visible(c)
      ensures c.id != id
    {
      var k :| 0 <= k < |rows| && rows[k] == c;
    }
  }

  /** Search's own pagination defaults: no upper bound on the page size. */
  function DefaultPage(page: int): (r: int)
    ensures r >= 1 && (page >= 1 ==> r == page)
    ensures page <= 0 ==> r == 1
  {
    if page <= 0 then 1 else page
  }

  function DefaultPageSize(pageSize: int): (r: int)
    ensures r >= 1 && (pageSize >= 1 ==> r == pageSize)
    ensures pageSize <= 0 ==> r == 10
  {
    if pageSize <= 0 then 10 else pageSize
  }

  class CustomerRepository {
    var rows: seq<Customer>
    var clock: Timestamp

    /** Ids are positions, creation order is table order, every row is at rest, and the email index is unique. */
    ghost predicate Valid()
      reads this
    {
      && (forall i | 0 <= i < |rows| :: rows[i].id == i && rows[i].createdAt < clock && RowAtRest(rows[i]))
      && Ascending(rows)
      && UniqueEmails(rows)
    }

    constructor ()
      ensures Valid() && rows == [] && clock == 0
    {
      rows := [];
      clock := 0;
    }

    /**
     * INSERT: the store draws a fresh id and stamps both timestamps. A value its column does not
     * accept is refused first (the row is formed before the index is consulted), then a held email.
     * The row keeps the truncated values; the customer handed back keeps the given ones.
     */
    method Create(n: NewCustomer) returns (r: Result<Customer, Error>)
      requires Valid()
      modifies this
      ensures Valid()
      ensures r.Failure? <==>
        || !ColumnsFit(n.firstName, n.lastName, n.email, n.phone, n.address)
        || EmailHeld(old(rows), Truncate(n.email, EmailWidth))
      ensures r.Failure? ==> rows == old(rows) && clock == old(clock)
      ensures r.Failure? ==>
        r.error == if ColumnsFit(n.firstName, n.lastName, n.email, n.phone, n.address) then EmailTaken else CreateFailed
      ensures r.Success? ==> rows == old(rows) + [Stored(r.value)] && clock > old(clock)
      ensures r.Success? ==>
        var c := r.value;
        && (forall k | 0 <= k < |old(rows)| :: old(rows)[k].id != c.id && old(rows)[k].createdAt < c.createdAt)
        && c.firstName == n.firstName && c.lastName == n.lastName && c.email == n.email
        && c.phone == n.phone && c.dateOfBirth == n.dateOfBirth && c.address == n.address
        && c.status == (if n.status.Some? then n.status.value else Active)
        && c.createdAt == c.updatedAt == old(clock)
        && c.deletedAt == NotDeleted
    {
      if !ColumnsFit(n.firstName, n.lastName, n.email, n.phone, n.address) {
        r := Failure(CreateFailed);
        return;
      }
      if EmailHeld(rows, Truncate(n.email, EmailWidth)) {
        r := Failure(EmailTaken);
        return;
      }
      var status := if n.status.Some? then n.status.value else Active;
      var c := Customer(|rows|, n.firstName, n.lastName, n.email, n.phone, n.dateOfBirth,
                        n.address, status, clock, clock, NotDeleted);
      StoredAtRest(c);
      rows := rows + [Stored(c)];
      clock := clock + 1;
      r := Success(c);
    }

    /** `WHERE id = ?` in the soft-delete scope. */
    method GetByID(id: Id) returns (r: Result<Customer, Error>)
      requires Valid()
      ensures r.Success? <==> IdVisible(rows, id)
      ensures r.Success? ==> r.value in rows && r.value.id == id && Visible(r.value)
      ensures r.Failure? ==> r.error == NotFound
    {
      if id < |rows| && Visible(rows[id]) {
        r := Success(rows[id]);
      } else {
        r := Failure(NotFound);
      }
    }

    /** `WHERE email = ?` in the soft-delete scope; an email with a NUL makes the store refuse the query. */
    method GetByEmail(email: string) returns (r: Result<Customer, Error>)
      requires Valid()
      ensures r.Success? <==> EmailVisible(rows, email)
      ensures r.Success? ==> r.value in rows && r.value.email == email && Visible(r.value)
      ensures r.Failure? ==> r.error == if NulFree(email) then NotFound else GetFailed
    {
      if !NulFree(email) {
        r := Failure(GetFailed);
      } else if i :| 0 <= i < |rows| && rows[i].email == email && Visible(rows[i]) {
        r := Success(rows[i]);
      } else {
        r := Failure(NotFound);
      }
    }

    /** The customer was read from this table and is being written back to the same row. */
    predicate IsLoaded(c: Customer)
      reads this
    {
      c.id < |rows| && Visible(rows[c.id]) && Visible(c) && c.createdAt == rows[c.id].createdAt
    }

    /**
     * Save: overwrites the row with the given customer, stamping `updated_at`. As with insert,
     * a value its column does not accept is refused first, then an email held by another row;
     * the row keeps the truncated values, the customer handed back the given ones.
     */
    method Update(c: Customer) returns (r: Result<Customer, Error>)
      requires Valid() && IsLoaded(c)
      modifies this
      ensures Valid()
      ensures r.Failure? <==>
        || !ColumnsFit(c.firstName, c.lastName, c.email, c.phone, c.address)
        || EmailHeldByOther(old(rows), Truncate(c.email, EmailWidth), c.id)
      ensures r.Failure? ==> rows == old(rows) && clock == old(clock)
      ensures r.Failure? ==>
        r.error == if ColumnsFit(c.firstName, c.lastName, c.email, c.phone, c.address) then EmailTaken else UpdateFailed
      ensures r.Success? ==> r.value == c.(updatedAt := old(clock)) && clock > old(clock)
      ensures r.Success? ==> rows == old(rows)[c.id := Stored(r.value)]
    {
      if !ColumnsFit(c.firstName, c.lastName, c.email, c.phone, c.address) {
        r := Failure(UpdateFailed);
        return;
      }
      if EmailHeldByOther(rows, Truncate(c.email, EmailWidth), c.id) {
        r := Failure(EmailTaken);
        return;
      }
      var saved := c.(updatedAt := clock);
      StoredAtRest(saved);
      rows := rows[c.id := Stored(saved)];
      clock := clock + 1;
      r := Success(saved);
    }

    /** Soft delete: sets `deleted_at` on the matching live row; zero rows affected is not-found. */
    method Delete(id: Id) returns (r: Outcome<Error>)
      requires Valid()
      modifies this
      ensures Valid()
      ensures r.Fail? <==> !IdVisible(old(rows), id)
      ensures r.Fail? ==> r.error == NotFound && rows == old(rows) && clock == old(clock)
      ensures r.Pass? ==> id < |old(rows)| && clock > old(clock)
      ensures r.Pass? ==> rows == old(rows)[id := old(rows)[id].(deletedAt := Deleted(old(clock)))]
      ensures |rows| == |old(rows)| && !IdVisible(rows, id)
    {
      if id < |rows| && Visible(rows[id]) {
        rows := rows[id := rows[id].(deletedAt := Deleted(clock))];
        clock := clock + 1;
        r := Pass;
      } else {
        r := Fail(NotFound);
      }
    }

    /** A page of live customers, newest first, and the number of live customers. */
    method List(page: int, pageSize: int) returns (items: seq<Customer>, total: nat)
      requires Valid()
      requires page >= 1 && pageSize >= 1
      ensures total == |set c | c in rows && Visible(c)|
      ensures items == PageOf(rows, "", "", page, pageSize)
      ensures |items| <= pageSize && Descending(items)
      ensures forall c :: c in items ==> c in rows && Visible(c)
      ensures (page - 1) * pageSize >= total ==> items == []
    {
      var live := Filter(rows, "", "");
      FilterCount(rows, "", "");
      EmptyFiltersMatchAll(rows);
      total := |live|;
      items := PageOf(rows, "", "", page, pageSize);
      PageOfProperties(rows, "", "", page, pageSize);
    }

    /**
     * A page of the live customers matching the query and status filters, and how many match.
     * A filter with a NUL makes the store refuse the count query.
     */
    method Search(req: CustomerSearchRequest) returns (r: Result<Listing, Error>)
      requires Valid()
      ensures r.Failure? <==> !NulFree(req.query) || !NulFree(req.status)
      ensures r.Failure? ==> r.error == CountFailed
      ensures r.Success? ==>
        var items, total := r.value.items, r.value.total;
        && total == |MatchingSet(rows, req.query, req.status)|
        && items == PageOf(rows, req.query, req.status, DefaultPage(req.page), DefaultPageSize(req.pageSize))
        && |items| <= DefaultPageSize(req.pageSize) && Descending(items)
        && (forall c :: c in items ==> c in rows && Visible(c) && Matches(c, req.query, req.status))
        && ((DefaultPage(req.page) - 1) * DefaultPageSize(req.pageSize) >= total ==> items == [])
    {
      if !NulFree(req.query) || !NulFree(req.status) {
        return Failure(CountFailed);
      }
      var matching := Filter(rows, req.query, req.status);
      FilterCount(rows, req.query, req.status);
      var total := |matching|;
      var page, pageSize := req.page, req.pageSize;
      if page <= 0 {
        page := 1;
      }
      if pageSize <= 0 {
        pageSize := 10;
      }
      var items := PageOf(rows, req.query, req.status, page, pageSize);
      PageOfProperties(rows, req.query, req.status, page, pageSize);
      r := Success(Listing(items, total));
    }
  }

  /** A soft delete is not repeatable: the second delete of the same id finds no row. */
  method DeleteTwice(repo: CustomerRepository, id: Id) returns (first: Outcome<Error>, second: Outcome<Error>)
    requires repo.Valid()
    modifies repo
    ensures repo.Valid()
    ensures first.Pass? <==> IdVisible(old(repo.rows), id)
    ensures second == Fail(NotFound)
    ensures |repo.rows| == |old(repo.rows)|
  {
    first := repo.Delete(id);
    second := repo.Delete(id);
  }
}
