# Customer lifecycle and query layer, modelled in Dafny

A model of the customer service of a small banking microservice: the service rules
(validation, e-mail pre-check, update field policy, pagination defaults, page counts)
stacked on a soft-delete customer table (create, lookups by id and e-mail, save,
soft delete, list and search with offset/limit pagination).

The relational store is replaced by an in-memory table, `Repository.CustomerRepository`:

- `rows: seq<Customer>` in insertion order. A row's id is its position, so ids are drawn
  from a fresh-id supply and never reused. Rows are never removed.
- `clock`: a monotone counter standing in for the wall clock. Each write stamps it and
  advances it, so `created_at` strictly increases along the table.
- `Valid()` is the table invariant: ids are positions, creation order is table order,
  every row is at rest (each sized column NUL-free and within its width, `RowAtRest`),
  and the unique index on e-mail holds over every row, soft-deleted ones included.
- The soft-delete marker is an explicit tagged value, `Deletion = NotDeleted | Deleted(at)`.
  Every read applies the `deleted_at IS NULL` scope (`Visible`).
- Because creation order is table order, `ORDER BY created_at DESC` is the table read back
  to front (`NewestFirst`). `FilterAscending` and `PageOfProperties` prove that every page
  is strictly descending by `created_at`.
- `ILIKE '%q%'` is an ASCII-case-insensitive literal substring test (module `Text`).
  `Text.ContainsIff` proves the substring search equal to the reference definition
  "some position where the query occurs".

`Service.CustomerService` holds the repository and mirrors the service methods. The
methods that change the table state their whole new table in terms of the old one.
The read-only methods state their results in terms of the table and of the
specification functions `Filter`, `PageOf` and `TotalPages`.

Where the struct tags suggest more than the code does, the model follows the code:

- Validation only checks the four required fields for emptiness, in the order first name,
  last name, email, phone. The length and e-mail-syntax tags are not enforced by the code.
- The unique index on e-mail covers soft-deleted rows. Re-using a deleted customer's e-mail
  passes the service's pre-check, which only sees live rows. It then fails at insert with
  "customer with this email already exists". `CreateCustomer`'s contract therefore fails
  on `EmailHeld` (any row), not only on live rows.
- On update, a new e-mail held by a soft-deleted row fails the same way at save.
- Validation does not check lengths, but the table's columns are `varchar(n)` with widths from
  the `size:` tags (names 100, email 255, phone 20, address parts 255/100/100/20/100).
  PostgreSQL's assignment rule for `varchar(n)` applies (`ColumnAccepts`, `Truncate`):
  - a wider value whose excess characters are all spaces is accepted and cut to n characters;
  - any other wider value makes insert or save fail, with "failed to create customer" or
    "failed to update customer";
  - so does any text holding a NUL character, which the server refuses outright.
- The store forms the row before it consults the unique index. So a refused value takes
  precedence over a duplicate e-mail held by a deleted row, and the index compares the
  truncated e-mail (`Stored`). The service's pre-check compares the e-mail as given.
- The create and update responses echo the customer as the service built it, with the given
  values. The table keeps the truncated values, so a later get shows them without the cut-off
  spaces. The contracts state both: the response's fields are the request's, and the row is
  `Stored` of the response's customer. The date of birth and the timestamps are the exception:
  their column types drop precision, which this model does not capture (see "## Left out").
- A NUL character in a lookup e-mail or in a search filter makes that query fail. The lookup
  returns "failed to get customer", which the service's pre-check ignores. The search returns
  "failed to count customers", which `SearchCustomers` passes on.

Error values carry the Go service's error messages (`Errors.Message`). For the four store failures, the message is the fixed prefix that wraps the driver's text.

## Model

| member | source | states |
|---|---|---|
| Models.StatusNameRoundTrip | Customer-Service/internal/customer/models/customer.go:34-42 | the status column has exactly four texts; parsing a status's text gives that status back, and a text parses to a status iff it is that status's text |
| Models.ToResponse | Customer-Service/internal/customer/models/customer.go:86-98 | the response's id, names, email, phone, date of birth, address, status and both timestamps are the customer's own |
| Models.ToResponseRoundTrip | Customer-Service/internal/customer/models/customer.go:85-99 | the response copies every field; together with the deletion marker it gives back the customer, and a customer rebuilt from a response shows that same response |
| Models.ToResponseHidesOnlyDeletion | Customer-Service/internal/customer/models/customer.go:54-66 | two customers have equal responses iff they differ at most in the deletion marker, so the response carries no deletion marker |
| Text.ContainsIff | Customer-Service/internal/customer/repository/customer_repository.go:122-128 | the substring search returns true iff the query occurs at some position of the column text, in both directions |
| Text.ILikeIgnoresCase | Customer-Service/internal/customer/repository/customer_repository.go:125 | lower-casing the column or the query does not change whether ILIKE matches |
| Text.ILikeFindsOccurrence | Customer-Service/internal/customer/repository/customer_repository.go:123-128 | every literal occurrence of the query in a column is an ILIKE match; the empty pattern matches everything |
| Repository.Filter | Customer-Service/internal/customer/repository/customer_repository.go:119-136 | the scan returns a row iff the row is in the table, is not soft-deleted, and matches the query (OR over first name, last name, email, phone) AND the status filter |
| Repository.FilterAscending | Customer-Service/internal/customer/repository/customer_repository.go:150 | the filtered rows keep creation order, which is what lets newest-first be read off the filtered rows |
| Repository.FilterCount | Customer-Service/internal/customer/repository/customer_repository.go:134-137 | the filtered count equals the number of distinct live rows that match the filters |
| Repository.PageOfProperties | Customer-Service/internal/customer/repository/customer_repository.go:146-150 | a page has at most pageSize rows, is strictly newest-first, holds only live matching rows, and is empty once the offset reaches the filtered total |
| Repository.InvisibleNotListed | Customer-Service/internal/customer/models/customer.go:22 | a customer not visible by id is returned and counted by no list or search, whatever the filters |
| Repository.EmptyFiltersMatchAll | Customer-Service/internal/customer/repository/customer_repository.go:98-100 | with neither a query nor a status, every live row matches, so List counts and pages all live rows |
| Repository.DefaultPage | Customer-Service/internal/customer/repository/customer_repository.go:140-142 | Search's page is at least 1: a non-positive page becomes 1 and positive pages are kept |
| Repository.DefaultPageSize | Customer-Service/internal/customer/repository/customer_repository.go:143-145 | Search's page size is at least 1: a non-positive size becomes 10 and positive sizes are kept, with no upper clamp |
| Repository.TruncateKeepsAccepted | Customer-Service/internal/customer/models/customer.go:13-16 | a value a `varchar(n)` column accepts is kept as a NUL-free value of at most n characters, followed in the input by nothing but the cut-off spaces; a value already at rest is accepted and kept unchanged |
| Repository.StoredAtRest | Customer-Service/internal/customer/models/customer.go:11-32 | storing a customer whose columns accept its values gives a row at rest, a row at rest is stored unchanged, and storing changes only the nine sized columns (the `date` and `timestamptz` columns' loss of precision is not modelled) |
| Repository.CustomerRepository.Create | Customer-Service/internal/customer/repository/customer_repository.go:36-44 | fails iff a column does not accept its value ("failed to create customer") or any row, live or deleted, holds the truncated email (the duplicate-email error), the column check first, and then nothing changes; otherwise appends one live row that is `Stored` of the returned customer: a fresh id, created_at = updated_at = the current clock (later than every row's), the given fields, status defaulting to active |
| Repository.CustomerRepository.GetByID | Customer-Service/internal/customer/repository/customer_repository.go:47-56 | succeeds iff a live row has the id, returning that row; otherwise "customer not found" |
| Repository.CustomerRepository.GetByEmail | Customer-Service/internal/customer/repository/customer_repository.go:59-68 | succeeds iff a live row has the email, returning such a row; otherwise "failed to get customer" for an email holding a NUL, and "customer not found" for any other |
| Repository.CustomerRepository.Update | Customer-Service/internal/customer/repository/customer_repository.go:71-79 | fails iff a column does not accept its value ("failed to update customer") or another row, live or deleted, holds the truncated email (the duplicate-email error), the column check first, and then nothing changes; otherwise returns the customer with updated_at = the current clock, writes `Stored` of it to its own row, and changes no other row |
| Repository.CustomerRepository.Delete | Customer-Service/internal/customer/repository/customer_repository.go:82-91 | if a live row has the id, marks exactly that row deleted and keeps it; otherwise "customer not found" with nothing changed; afterwards the id is never visible |
| Repository.DeleteTwice | Customer-Service/internal/customer/repository/customer_repository.go:87-89 | the second of two deletes of the same id always fails with "customer not found" |
| Repository.CustomerRepository.List | Customer-Service/internal/customer/repository/customer_repository.go:94-112 | total is the number of live rows; items are the live rows newest-first, skipping (page-1)*pageSize and taking at most pageSize; empty once the offset reaches total |
| Repository.CustomerRepository.Search | Customer-Service/internal/customer/repository/customer_repository.go:115-155 | fails with "failed to count customers" iff the query or the status holds a NUL; otherwise total counts every live row matching the filters, independent of paging, and items are matching rows newest-first, at most the defaulted page size, at the defaulted page's offset; empty once the offset reaches total |
| Errors.MessageInjective | Customer-Service/internal/customer/service/customer_service.go:202-214 | every error kind has its own message text, so the text alone tells the handler which error it got (the texts also come from customer_repository.go lines 39, 41, 51, 63, 65, 74, 76, 88 and 136) |
| Service.ValidateCustomerRequest | Customer-Service/internal/customer/service/customer_service.go:202-218 | succeeds iff all four required fields are non-empty; otherwise returns the error of the first empty one in the order first name, last name, email, phone |
| Service.NormalizePage | Customer-Service/internal/customer/service/customer_service.go:132-134 | the page is at least 1: positive pages are kept and non-positive ones become 1 |
| Service.NormalizePageSize | Customer-Service/internal/customer/service/customer_service.go:135-140 | the page size lies in 1..100: in-range sizes are kept, non-positive ones become 10, and larger ones become 100 |
| Service.TotalPages | Customer-Service/internal/customer/service/customer_service.go:154 | for total 0 it is 0; otherwise (TotalPages-1)*pageSize < total <= TotalPages*pageSize |
| Service.TotalPagesIsCeiling | Customer-Service/internal/customer/service/customer_service.go:190 | TotalPages is the one page count that covers total and whose last page is non-empty, i.e. the ceiling of total/pageSize |
| Service.PageNonEmptyIff | Customer-Service/internal/customer/service/customer_service.go:153-154 | a page of a listing holds rows iff its number is at most TotalPages of the listing's total |
| Service.ToResponses | Customer-Service/internal/customer/service/customer_service.go:148-151 | the shaped list has the same length and order as the rows, element i being ToResponse of row i |
| Service.CustomerService.CreateCustomer | Customer-Service/internal/customer/service/customer_service.go:34-65 | a validation failure returns that error before any store access; a live row holding the email as given yields "customer with this email already exists"; otherwise a value its column does not accept (too wide beyond spaces, or holding a NUL) yields "failed to create customer", and a row holding the truncated email the duplicate error; every failure leaves the table unchanged; otherwise the response carries a fresh id, the request's fields, status active and created_at = updated_at = the current clock, exactly one row is appended, which is `Stored` of that customer, and the clock advances |
| Service.CustomerService.GetCustomer | Customer-Service/internal/customer/service/customer_service.go:68-76 | succeeds iff the id is visible, returning that row's response; otherwise "customer not found" |
| Service.CustomerService.UpdateCustomer | Customer-Service/internal/customer/service/customer_service.go:79-115 | validation comes first, even before not-found; then "customer not found" for an invisible id; a changed email held by a live row yields the duplicate error; then a value its column does not accept yields "failed to update customer", and a truncated email held by any other row the duplicate error; every failure leaves the table unchanged; otherwise the response takes exactly first name, last name, email, phone, date of birth and address from the request, keeps id, status and created_at, has updated_at = the current clock, only that row changes, to `Stored` of the response's customer, and the clock advances |
| Service.CustomerService.DeleteCustomer | Customer-Service/internal/customer/service/customer_service.go:118-127 | an invisible id yields "customer not found" with nothing changed; otherwise the row is marked deleted and kept, and the clock advances; afterwards the id is visible to no get, list or search |
| Service.CustomerService.ListCustomers | Customer-Service/internal/customer/service/customer_service.go:130-163 | page and page size are the normalised inputs; total counts live rows; total pages is TotalPages; customers[i] is ToResponse of the i-th row of the repository's page, same length and order |
| Service.CustomerService.SearchCustomers | Customer-Service/internal/customer/service/customer_service.go:166-199 | fails with "failed to count customers" iff the query or the status holds a NUL; otherwise as ListCustomers, for the rows matching the query and status filters, with the filtered total |
| Service.CreateTwice | Customer-Service/internal/customer/service/customer_service.go:40-44 | of two creates with the same request, the first succeeds iff the request is valid, every column accepts its value and no row holds the truncated email, and after a successful first the second fails with "customer with this email already exists" |

## Left out

- Column widths: a width counts the characters of the model's string. The driver's message text that the store failures wrap is not modelled.
- Failures of the store itself (lost connection, I/O errors): apart from refusing the values described above, the table never fails. So the "failed to get/delete/count/list/search customers" errors are not modelled for these causes.
- Concurrency: the race between the e-mail pre-check and the insert is not modelled. Operations run one at a time, and the unique-index check in `Create`/`Update` stands in for the store's constraint.
- UUIDs and wall-clock time: ids are positions in the table and timestamps are readings of a monotone counter. The `default:gen_random_uuid()` generation is not modelled. The strictly increasing clock rules out two rows with equal `created_at`, and the strict `Descending` order of pages relies on this. Under a real clock, ties leave the `ORDER BY created_at DESC` order unspecified, and consecutive pages can overlap or skip rows.
- ILIKE details: `%`, `_` and the default escape character `\` inside the query are matched literally, rather than as wildcards or as an escape of the next character. Only ASCII letters are case-folded.
- `Service.TotalPages`: models `math.Ceil` over floats as exact integer ceiling division; float rounding for very large totals is not modelled.
- Integer widths: `int`/`int64` are unbounded integers here, so an overflow of `(page-1)*pageSize` is not modelled.
- `Repository.CustomerRepository.Update`: requires the saved customer to be a live row read from the table, with its stored `created_at` (the only way the service calls it). GORM `Save`'s fallback to an insert for a missing or soft-deleted row is not modelled.
- `Repository.CustomerRepository.List`: requires page and page size of at least 1 (the service always normalises first). GORM's handling of a negative limit or offset is not modelled.
- The `validate:"min/max/email"` struct tags: nothing in the service enforces them, so neither does the model.
- HTTP binding, JSON and UUID parsing, mapping errors to status codes, database bootstrap and configuration are outside this model.
- `Date` is an uninterpreted calendar date; no calendar rules are modelled.
- Date of birth and timestamp precision: in the Go code the request's `date_of_birth` is a full timestamp (`*time.Time`), and its `date` column keeps only the calendar date, dropping the time of day and the offset. The model types it as a `Date`, and `Stored` leaves it unchanged. So the create and update contracts say the row's date of birth equals the response's. In the Go service, the create or update response shows the client's full timestamp, while a later get shows midnight of the stored date. Likewise `created_at` and `updated_at` are kept by their column only to the microsecond, while the response echoes Go's nanosecond clock reading. The model's clock readings are exact.
