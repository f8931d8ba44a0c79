# Library data-access layer, modelled in Dafny

`db_handler.py` is the data-access layer of a small library system kept in
MariaDB. It has five tables: `Book`, `User`, `Loan` (open loans),
`LoanHistory` (returned loans) and `Waitlist` (per-book queues ranked from 1).
The layer offers:

- **filtered queries** (`get_filtered_*`): each grows a list of `column op ?`
  predicates and a matching parameter list from a filter record whose unset
  fields are `None` (or `-1` for integers), then ANDs them into a WHERE clause;
- **the user edit** (`edit_user`): builds a SET clause the same way;
- **fixed statements**: `checkout_book`, `waitlist_user`, `update_waitlist`,
  `return_book`, `grant_extension`, and the inserts `add_book`/`add_user`;
- **lookups**: `number_in_stock`, `place_in_line` and `line_length`.

The model has six modules:

- `Records` (`records.dfy`): rows and filter records.
- `Sql` (`sql.dfy`): predicates, rendering, placeholder count, and what a
  WHERE clause selects from a row.
- `FieldTable` (`field_table.dfy`): the shared builder shape. A field table
  is read by `Emit`.
- `Filters` (`filters.dfy`): each entity's builder. The builder runs the
  source's guarded blocks in the source's order, one `AppendIfSet` per block,
  and is proved equal to `Emit` over that entity's field table. Lemmas relate its clause to a direct reading of
  the filter.
- `Tables` (`tables.dfy`): what each fixed statement does to a table, as a
  function from old rows to new rows. The lookups are functions too.
- `DbHandler` (`db_handler.dfy`): class `Database`. It holds the five tables
  as sequences, and each operation is a method that changes only the tables
  it names.

Conventions:

- Dates are integer day numbers.
- `CURRENT_DATE()` is the parameter `today`. `INTERVAL 2 WEEK` is
  `LoanPeriod` = 14 days.
- SQL `LIKE` is the parameter `like(value, pattern)`, which the model leaves
  uninterpreted.
- A `fetchone` lookup yields the first matching row in table order.

## Model

| member | source | states |
|---|---|---|
| Sql.WithWhere | db_handler.py:269-270 | the bare SELECT is kept as a prefix, and the text is left unchanged exactly when there are no predicates |
| Sql.WhereBindsEach | db_handler.py:269-270 | the finished text has one `?` per predicate beyond those of the bare SELECT |
| FieldTable.Emit | db_handler.py:223-267 | the reference reading of a field table: one bound value per predicate, at most one predicate per field |
| FieldTable.AppendIfSet | db_handler.py:227-232 | one guarded block: the field's predicate and value are appended exactly when the field is set, extending what the table read so far produces |
| FieldTable.EmitEmpty | db_handler.py:223-270 | a field table yields no predicate exactly when every field is unset, so the query is the bare SELECT exactly then |
| FieldTable.EmitMatches | db_handler.py:223-270 | the ANDed clause, with parameters bound by position, holds of a row iff every set field's predicate holds with that field's own value |
| FieldTable.EmitContains | db_handler.py:223-267 | a predicate appears iff some set field contributes it |
| FieldTable.EmitParamsIgnoreOps | db_handler.py:227-253 | the bound values depend only on the field values, not on the operator chosen for them |
| Filters.BuildBookFilter | db_handler.py:223-267 | the predicates and parameters are those of the Book table: isbn, title, author, publisher, num_owned, then min and max year; each is emitted only when set; there is one parameter per predicate |
| Filters.BookFilterMeaning | db_handler.py:223-272 | the clause selects a book iff it satisfies every set string field (LIKE or `=`), num_owned, and both inclusive year bounds |
| Filters.BookFilterEmpty | db_handler.py:269-270 | no WHERE clause iff every field and both year bounds are unset |
| Filters.BookPatternSwitch | db_handler.py:227-267 | the four string predicates (isbn, title, author, publisher) are LIKE in pattern mode and `=` otherwise; num_owned and the year bounds are never LIKE; LIKE appears only in pattern mode; the parameters are the same in both modes |
| Filters.BookYearBounds | db_handler.py:260-267 | `publication_year >= ?` appears iff the min year is set; `<= ?` appears iff the max year is set; the two are independent |
| Filters.BookSelectUnbound | db_handler.py:219-222 | the bare Book SELECT has no placeholder |
| Filters.BuildUserFilter | db_handler.py:312-348 | the User predicates in the order account_id, name, address, phone_number, email; one parameter each, only for set fields |
| Filters.UserFilterMeaning | db_handler.py:312-353 | the clause selects a user iff every set field matches (LIKE or `=`) |
| Filters.UserFilterEmpty | db_handler.py:350-351 | no WHERE clause iff every field is unset |
| Filters.UserPatternSwitch | db_handler.py:315-348 | in pattern mode every User predicate is LIKE and in exact mode every one is `=`; the parameters are the same in both modes |
| Filters.UserSelectUnbound | db_handler.py:308-311 | the bare User SELECT has no placeholder |
| Filters.BuildLoanFilter | db_handler.py:399-433 | the Loan predicates in the order isbn, account_id, checkout_date, due_date, then the checkout bounds and the due bounds; only set ones are emitted |
| Filters.LoanFilterMeaning | db_handler.py:399-438 | the clause selects a loan iff it equals every set field and lies within every set inclusive date bound |
| Filters.LoanFilterEmpty | db_handler.py:435-436 | no WHERE clause iff every field and every bound is unset |
| Filters.LoanBounds | db_handler.py:402-433 | no Loan predicate is LIKE; each of the four date bounds appears iff it is set |
| Filters.LoanSelectUnbound | db_handler.py:395-398 | the bare Loan SELECT has no placeholder |
| Filters.BuildLoanHistoryFilter | db_handler.py:490-536 | the LoanHistory predicates in the order isbn, account_id, checkout, due, return, then the checkout, due and return bounds; only set ones are emitted |
| Filters.LoanHistoryFilterMeaning | db_handler.py:490-541 | the clause selects an archived loan iff it equals every set field and lies within every set inclusive bound |
| Filters.LoanHistoryFilterEmpty | db_handler.py:538-539 | no WHERE clause iff every field and every bound is unset |
| Filters.LoanHistoryBounds | db_handler.py:493-536 | no LoanHistory predicate is LIKE; each of the six date bounds appears iff it is set |
| Filters.LoanHistorySelectUnbound | db_handler.py:486-489 | the bare LoanHistory SELECT has no placeholder |
| Filters.BuildWaitlistFilter | db_handler.py:585-606 | the Waitlist predicates in the order isbn, account_id, place_in_line, min place, max place; integers are unset at -1 |
| Filters.WaitlistFilterMeaning | db_handler.py:585-611 | the clause selects an entry iff it equals every set field and lies within every set inclusive place bound |
| Filters.WaitlistFilterEmpty | db_handler.py:608-609 | no WHERE clause iff every field and both bounds are unset |
| Filters.WaitlistBounds | db_handler.py:588-606 | no Waitlist predicate is LIKE; each place bound appears iff it is not -1 |
| Filters.WaitlistSelectUnbound | db_handler.py:581-584 | the bare Waitlist SELECT has no placeholder |
| Filters.BuildUserUpdate | db_handler.py:62-93 | no statement iff every replacement field is `None`; otherwise one `col = ?` per set field in User field order, with the new values followed by the original account id; the UPDATE text has one placeholder per parameter |
| Filters.UpdateText | db_handler.py:88-92 | the UPDATE text has exactly one placeholder per SET clause plus one for the key |
| Filters.Overwrite | db_handler.py:85-86 | an edit with no field set leaves the user unchanged |
| Filters.EditMeaning | db_handler.py:62-95 | applying the SET clauses with their values turns a user into the record with each set field replaced and the others kept |
| Tables.ExecUpdate | db_handler.py:88-95 | the UPDATE keeps the table's size and leaves every row whose account id is not the key unchanged |
| Tables.EditEffect | db_handler.py:88-95 | the UPDATE statement, keyed on the last parameter, overwrites exactly the rows stored under the original id, and those as the edit means |
| Tables.FindBook | db_handler.py:636-642 | no book iff no row has the isbn; otherwise the first row with that isbn in table order |
| Tables.CountLoans | db_handler.py:647-651 | the count of open loans never exceeds the table size |
| Tables.NumberInStock | db_handler.py:636-653 | -1 when no Book row has the isbn; otherwise owned less open loans, not clamped: at most owned and at least owned minus the number of loans |
| Tables.StockSentinelAmbiguous | db_handler.py:640-653 | an owned book with zero copies and one open loan also reports -1, the "not owned" answer |
| Tables.NewLoan | db_handler.py:105-109 | the inserted loan belongs to the pair, starts today and is due 14 days later |
| Tables.StockAfterCheckout | db_handler.py:105-109 | a checkout lowers its owned book's stock by exactly one and leaves other books' stock unchanged |
| Tables.Archive | db_handler.py:159-167 | the rows archived are exactly the pair's open loans, with their dates and today as return date, each as many times as the loan is stored, and no other row |
| Tables.Discharge | db_handler.py:169-172 | the loans left are exactly those not of the pair: each of them keeps every stored copy and the pair's loans keep none |
| Tables.ReturnConserves | db_handler.py:159-172 | a return loses no row (archived + remaining = before), and the book's open-loan count falls by the number archived |
| Tables.StockAfterReturn | db_handler.py:159-172 | a return raises its book's stock by the number of loans archived; other books' stock is unchanged |
| Tables.OtherCountsKept | db_handler.py:169-172 | deleting the pair's loans leaves every other book's open-loan count unchanged |
| Tables.Extend | db_handler.py:181-188 | the pair's loans have due date + 14 days; every other loan and the row order are unchanged |
| Tables.StockAfterExtension | db_handler.py:181-188 | an extension changes no book's stock |
| Tables.ExtendCounts | db_handler.py:181-188 | an extension keeps every book's open-loan count |
| Tables.LineLength | db_handler.py:687-692 | the count is 0 exactly when no row has the isbn |
| Tables.MaxPlace | db_handler.py:120-124 | `COALESCE(MAX(place_in_line), 0)`: 0 for an empty line; otherwise a rank actually held and at least every rank of the book |
| Tables.FirstPlace | db_handler.py:664-677 | nothing iff the pair is not queued; otherwise the rank of the pair's first row in table order |
| Tables.PlaceInLine | db_handler.py:656-677 | -1 when the pair is not queued; otherwise the rank of the pair's first row in table order |
| Tables.Enrolled | db_handler.py:119-133 | the inserted row is the pair's and ranks behind every row of the book; on an empty line it takes place 1 |
| Tables.EnrollKeepsDense | db_handler.py:119-133 | on a line with ranks 1..n the max is n; the new row takes n+1 and the line stays dense |
| Tables.EnrollAll | db_handler.py:119-133 | one place is returned per call |
| Tables.EnrollAllPlaces | db_handler.py:119-133 | n calls behind a dense line of m return m+1..m+n in call order; from an empty line, 1..n |
| Tables.RemoveFront | db_handler.py:140-143 | the DELETE removes exactly as many rows as the book has at rank 1 |
| Tables.ShiftDown | db_handler.py:144-151 | the UPDATE removes and adds no row |
| Tables.Advance | db_handler.py:140-151 | both statements together shrink the table by the book's rank-1 count |
| Tables.RemoveFrontRows | db_handler.py:140-143 | the DELETE keeps exactly the rows that are not the book's rank-1 entry |
| Tables.ShiftDownRows | db_handler.py:144-151 | each of the book's rows with rank > 1 moves up one rank; every other row and the row order are unchanged |
| Tables.RemoveFrontCounts | db_handler.py:140-143 | after the DELETE, rank 1 is empty, every other rank keeps its count, and the line shrinks by the rank-1 count |
| Tables.ShiftDownCounts | db_handler.py:144-151 | after the UPDATE, rank k ≥ 1 holds what rank k+1 held (plus the old rank-1 rows at k = 1); the line length is kept |
| Tables.AdvanceKeepsDense | db_handler.py:140-151 | a dense line 1..n becomes a dense line 1..n-1, and an empty line stays empty |
| Tables.RemoveFrontOthers | db_handler.py:140-143 | the DELETE keeps every other book's rows and their order |
| Tables.ShiftDownOthers | db_handler.py:144-151 | the UPDATE keeps every other book's rows and their order |
| Tables.AdvanceOthers | db_handler.py:140-151 | advancing one book's line leaves every other book's rows exactly as they were |
| Tables.RemoveFrontPlace | db_handler.py:140-143 | the DELETE does not change any pair's first rank unless that rank is the book's 1 |
| Tables.ShiftDownPlace | db_handler.py:144-151 | the UPDATE lowers a pair's reported rank by one when it is above 1 |
| Tables.PlaceAfterAdvance | db_handler.py:140-151 | after an advance, an entry at place p > 1 reports p - 1; places for other books are unchanged |
| DbHandler.Fetch | db_handler.py:272-288 | the rows returned are exactly the table rows the WHERE clause selects; with no predicates, the whole table in order |
| DbHandler.Database.AddBook | db_handler.py:18-35 | the Book table gains exactly the new row |
| DbHandler.Database.AddUser | db_handler.py:38-54 | the User table gains exactly the new row |
| DbHandler.Database.EditUser | db_handler.py:57-95 | the User table becomes the edit as meant; with no field set it is unchanged |
| DbHandler.Database.CheckoutBook | db_handler.py:98-109 | appends the loan (today, today + 14); the book's stock drops by one |
| DbHandler.Database.WaitlistUser | db_handler.py:112-133 | returns max + 1 and appends exactly that row; it ranks behind everyone queued; on a dense line it returns n+1 and the line stays dense |
| DbHandler.Database.UpdateWaitlist | db_handler.py:136-151 | the waitlist is advanced for the book; density and length n-1 are kept; every other book's rows are untouched |
| DbHandler.Database.ReturnBook | db_handler.py:154-172 | the history gains the archived rows and the pair's loans are deleted; the total row count is kept and no loan of the pair remains |
| DbHandler.Database.GrantExtension | db_handler.py:176-188 | the loans are extended; no book's stock changes |
| DbHandler.Database.GetFilteredBooks | db_handler.py:191-288 | the placeholders equal the parameters; a book is returned iff it is stored and satisfies the filter; with no filter, the bare SELECT returns the whole table |
| DbHandler.Database.GetFilteredUsers | db_handler.py:291-368 | the same, for users |
| DbHandler.Database.GetFilteredLoans | db_handler.py:370-452 | the same, for open loans |
| DbHandler.Database.GetFilteredLoanHistories | db_handler.py:455-556 | the same, for archived loans |
| DbHandler.Database.GetFilteredWaitlist | db_handler.py:560-624 | the same, for waitlist entries |

Notes on the model:

- **Unused filter field.** The Book filter's own `publication_year` is never
  read (db_handler.py:191-270). Year filtering goes only through the two
  bounds, and the model does the same.
- **Sentinel collision.** `number_in_stock` returns -1 both for a book the
  library does not own and for an owned book with one more open loan than
  copies. `checkout_book` does not check stock, so the second case can
  happen. `Tables.StockSentinelAmbiguous` exhibits it.

## Left out

- **Driver and lifecycle.** Connection and cursor setup (db_handler.py:1-15),
  `save_changes` and `close_connection` (db_handler.py:695-709) are driver
  lifecycle. The statements act on the table sequences directly; commits and
  transactions are not modelled.
- **SQL engine.** The SQL engine and the MariaDB driver are left out. Each
  statement's effect is written as a function rather than parsed from its
  text. `DbHandler.Fetch` stands for `execute` plus `fetchall` plus the loop
  that rebuilds records.
- **LIKE and collation.** LIKE wildcards are not modelled: `like` is an
  uninterpreted parameter, and only the choice between `LIKE` and `=` is
  modelled. String `=` is modelled as exact equality (`Sql.Compare`,
  `FieldTable.TextMatches`). MariaDB's default collations compare strings
  case-insensitively and ignore trailing spaces, so the database can select
  rows that the model's `=` does not.
- **Dates.** Calendar dates, `CURRENT_DATE()`, `DATE_ADD(..., INTERVAL 2
  WEEK)` and `isoformat()` are not modelled. Dates are integer day numbers,
  and `today` is a parameter.
- **Row order.** SQL does not guarantee result order. The `GetFiltered*`
  methods state membership only; `Fetch` itself keeps table order.
- **Schema constraints.** Primary keys and NOT NULL columns live in the
  database schema, which is not part of this model. The model's inserts always
  append, so a duplicate key that the database would reject still gets stored.
- **Concurrency.** The model has one sequential caller. The read-then-write
  races of `waitlist_user` and `update_waitlist` under concurrent callers are
  not modelled.
- **Python types.** Python's dynamic typing is not modelled. Filter records are
  separate datatypes: `Option` for string and date fields, `int` with -1 for
  integer fields. `DateRange` groups each pair of date bounds.
- Filters.BuildWaitlistFilter: the filter's `place_in_line` is read as an
  integer with -1 meaning unset (db_handler.py:596-598). The source docstring
  (db_handler.py:564-569) says an unused attribute is `None`. In that case
  `getattr` at line 596 yields `None`, which is not -1, so the source emits
  `place_in_line = ?` bound to NULL. That matches no row, and the source then
  returns `[]` whenever `place_in_line` is not used as a filter. The model does
  not reproduce this: it treats the field as unset. `models/Waitlist.py`, which
  would settle the field's type, is not part of this model.
- Tables.CountLoans: its own contract states only the bound
  `CountLoans <= |loans|`. The stock lemmas pin down what it counts.
