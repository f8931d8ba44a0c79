/** The data-access layer as one object holding the five tables.  Each
    operation of `db_handler.py` is a method: the mutating ones change the
    tables they name and no other, the filtered queries build their
    statement and fetch the rows it selects without changing anything.
    The connection, its cursor, and the SQL engine itself are not part of
    this model: statements act directly on the table sequences. */
module DbHandler {
  import opened Records
  import opened Sql
  import opened Filters
  import opened Tables

  /** The rows a WHERE clause selects, in table order: what `fetchall`
      hands back for `conds` bound to `params`. */
  method Fetch<T>(rows: seq<T>, toRow: T -> Row, conds: seq<Condition>, params: seq<Param>,
                  like: (string, string) -> bool) returns (result: seq<T>)
    requires |conds| == |params|
    ensures forall x :: x in result <==> x in rows && MatchesAll(toRow(x), conds, params, like)
    ensures conds == [] ==> result == rows
  {
    result := [];
    var i := 0;
    while i < |rows|
      invariant 0 <= i <= |rows|
      invariant forall x :: x in result <==> x in rows[..i] && MatchesAll(toRow(x), conds, params, like)
      invariant conds == [] ==> result == rows[..i]
    {
      assert rows[..i + 1] == rows[..i] + [rows[i]];
      if MatchesAll(toRow(rows[i]), conds, params, like) {
        result := result + [rows[i]];
      }
      i := i + 1;
    }
    assert rows[..i] == rows;
  }

  class Database {
    var books: seq<Book>
    var users: seq<User>
    var loans: seq<Loan>
    var histories: seq<LoanHistory>
    var waitlist: seq<Waitlist>

    constructor ()
      ensures books == [] && users == [] && loans == [] && histories == [] && waitlist == []
    {
      books, users, loans, histories, waitlist := [], [], [], [], [];
    }

    // ----- Inserts and the user edit -----

    method AddBook(b: Book)
      modifies this`books
      ensures books == old(books) + [b]
    {
      books := books + [b];
    }

    method AddUser(u: User)
      modifies this`users
      ensures users == old(users) + [u]
    {
      users := users + [u];
    }

    /** Overwrites the set fields of every user stored under `originalId`;
        with no field set, nothing is executed. */
    method EditUser(originalId: string, e: UserFilter)
      modifies this`users
      ensures users == EditUsers(old(users), originalId, e)
      ensures NoUserFilter(e) ==> users == old(users)
    {
      var upd := BuildUserUpdate(originalId, e);
      if upd.None? {
        assert EditUsers(users, originalId, e) == users;
        return;
      }
      EditEffect(users, originalId, e);
      users := ExecUpdate(users, upd.value);
    }

    // ----- Loans -----

    /** Records a loan out today and due one loan period later; one copy
        fewer of the book is in stock. */
    method CheckoutBook(isbn: string, account: string, today: int)
      modifies this`loans
      ensures loans == old(loans) + [NewLoan(isbn, account, today)]
      ensures FindBook(books, isbn).Some? ==>
                NumberInStock(books, loans, isbn) == NumberInStock(books, old(loans), isbn) - 1
    {
      StockAfterCheckout(books, loans, isbn, account, today, isbn);
      loans := loans + [NewLoan(isbn, account, today)];
    }

    /** Archives the pair's loans with today as return date, then deletes
        them; no row is lost and the copies go back in stock. */
    method ReturnBook(isbn: string, account: string, today: int)
      modifies this`loans, this`histories
      ensures histories == old(histories) + Archive(old(loans), isbn, account, today)
      ensures loans == Discharge(old(loans), isbn, account)
      ensures |histories| + |loans| == |old(histories)| + |old(loans)|
      ensures forall l :: l in loans ==> !IsLoan(l, isbn, account)
    {
      ReturnConserves(loans, isbn, account, today);
      histories := histories + Archive(loans, isbn, account, today);
      loans := Discharge(loans, isbn, account);
    }

    /** Pushes the due date of the pair's loans back by one loan period;
        stock is unchanged. */
    method GrantExtension(isbn: string, account: string)
      modifies this`loans
      ensures loans == Extend(old(loans), isbn, account)
      ensures forall any :: NumberInStock(books, loans, any) == NumberInStock(books, old(loans), any)
    {
      forall any ensures NumberInStock(books, Extend(loans, isbn, account), any) == NumberInStock(books, loans, any) {
        StockAfterExtension(books, loans, isbn, account, any);
      }
      loans := Extend(loans, isbn, account);
    }

    // ----- Waitlist -----

    /** Queues the account one place past the book's current maximum and
        returns that place. */
    method WaitlistUser(isbn: string, account: string) returns (place: int)
      modifies this`waitlist
      ensures place == MaxPlace(old(waitlist), isbn) + 1
      ensures waitlist == old(waitlist) + [Waitlist(isbn, account, place)]
      ensures forall x :: x in old(waitlist) && x.isbn == isbn ==> x.placeInLine < place
      ensures Dense(old(waitlist), isbn) ==>
                place == LineLength(old(waitlist), isbn) + 1 && Dense(waitlist, isbn)
    {
      var currentMax := MaxPlace(waitlist, isbn);
      place := currentMax + 1;
      ghost var before := waitlist;
      waitlist := waitlist + [Waitlist(isbn, account, place)];
      assert Dense(before, isbn) ==> place == LineLength(before, isbn) + 1 && Dense(waitlist, isbn) by {
        if Dense(before, isbn) {
          EnrollKeepsDense(before, isbn, account);
        }
      }
    }

    /** Serves the front of the book's line: the rank-1 entry leaves and
        every later entry moves up one place. */
    method UpdateWaitlist(isbn: string)
      modifies this`waitlist
      ensures waitlist == Advance(old(waitlist), isbn)
      ensures Dense(old(waitlist), isbn) ==>
                && Dense(waitlist, isbn)
                && LineLength(waitlist, isbn) ==
                     if LineLength(old(waitlist), isbn) == 0 then 0 else LineLength(old(waitlist), isbn) - 1
      ensures forall other :: other != isbn ==> RowsFor(waitlist, other) == RowsFor(old(waitlist), other)
    {
      ghost var before := waitlist;
      waitlist := RemoveFront(waitlist, isbn);
      waitlist := ShiftDown(waitlist, isbn);
      forall other | other != isbn ensures RowsFor(waitlist, other) == RowsFor(before, other) {
        AdvanceOthers(before, isbn, other);
      }
      if Dense(before, isbn) {
        AdvanceKeepsDense(before, isbn);
      }
    }

    // ----- Filtered queries -----

    /** `get_filtered_books`: the statement, its parameters, and exactly
        the books the filter describes. */
    method GetFilteredBooks(f: BookFilter, usePatterns: bool, minYear: int, maxYear: int,
                            like: (string, string) -> bool)
      returns (query: string, params: seq<Param>, result: seq<Book>)
      ensures Placeholders(query) == |params|
      ensures forall b :: b in result <==> b in books && BookSatisfies(b, f, usePatterns, minYear, maxYear, like)
      ensures NoBookFilter(f, minYear, maxYear) ==> query == BookSelect && params == [] && result == books
    {
      var conds;
      conds, params := BuildBookFilter(f, usePatterns, minYear, maxYear);
      query := WithWhere(BookSelect, conds);
      BookSelectUnbound();
      WhereBindsEach(BookSelect, conds);
      BookFilterEmpty(f, usePatterns, minYear, maxYear);
      result := Fetch(books, BookRow, conds, params, like);
      forall b ensures MatchesAll(BookRow(b), conds, params, like) <==>
                         BookSatisfies(b, f, usePatterns, minYear, maxYear, like) {
        BookFilterMeaning(b, f, usePatterns, minYear, maxYear, like);
      }
    }

    /** `get_filtered_users`. */
    method GetFilteredUsers(f: UserFilter, usePatterns: bool, like: (string, string) -> bool)
      returns (query: string, params: seq<Param>, result: seq<User>)
      ensures Placeholders(query) == |params|
      ensures forall u :: u in result <==> u in users && UserSatisfies(u, f, usePatterns, like)
      ensures NoUserFilter(f) ==> query == UserSelect && params == [] && result == users
    {
      var conds;
      conds, params := BuildUserFilter(f, usePatterns);
      query := WithWhere(UserSelect, conds);
      UserSelectUnbound();
      WhereBindsEach(UserSelect, conds);
      UserFilterEmpty(f, usePatterns);
      result := Fetch(users, UserRow, conds, params, like);
      forall u ensures MatchesAll(UserRow(u), conds, params, like) <==> UserSatisfies(u, f, usePatterns, like) {
        UserFilterMeaning(u, f, usePatterns, like);
      }
    }

    /** `get_filtered_loans`. */
    method GetFilteredLoans(f: LoanFilter, checkout: DateRange, due: DateRange, like: (string, string) -> bool)
      returns (query: string, params: seq<Param>, result: seq<Loan>)
      ensures Placeholders(query) == |params|
      ensures forall l :: l in result <==> l in loans && LoanSatisfies(l, f, checkout, due)
      ensures NoLoanFilter(f, checkout, due) ==> query == LoanSelect && params == [] && result == loans
    {
      var conds;
      conds, params := BuildLoanFilter(f, checkout, due);
      query := WithWhere(LoanSelect, conds);
      LoanSelectUnbound();
      WhereBindsEach(LoanSelect, conds);
      LoanFilterEmpty(f, checkout, due);
      result := Fetch(loans, LoanRow, conds, params, like);
      forall l ensures MatchesAll(LoanRow(l), conds, params, like) <==> LoanSatisfies(l, f, checkout, due) {
        LoanFilterMeaning(l, f, checkout, due, like);
      }
    }

    /** `get_filtered_loan_histories`. */
    method GetFilteredLoanHistories(f: LoanHistoryFilter, checkout: DateRange, due: DateRange,
                                    returned: DateRange, like: (string, string) -> bool)
      returns (query: string, params: seq<Param>, result: seq<LoanHistory>)
      ensures Placeholders(query) == |params|
      ensures forall h :: h in result <==> h in histories && LoanHistorySatisfies(h, f, checkout, due, returned)
      ensures NoLoanHistoryFilter(f, checkout, due, returned) ==>
                query == LoanHistorySelect && params == [] && result == histories
    {
      var conds;
      conds, params := BuildLoanHistoryFilter(f, checkout, due, returned);
      query := WithWhere(LoanHistorySelect, conds);
      LoanHistorySelectUnbound();
      WhereBindsEach(LoanHistorySelect, conds);
      LoanHistoryFilterEmpty(f, checkout, due, returned);
      result := Fetch(histories, LoanHistoryRow, conds, params, like);
      forall h ensures MatchesAll(LoanHistoryRow(h), conds, params, like) <==>
                         LoanHistorySatisfies(h, f, checkout, due, returned) {
        LoanHistoryFilterMeaning(h, f, checkout, due, returned, like);
      }
    }

    /** `get_filtered_waitlist`. */
    method GetFilteredWaitlist(f: WaitlistFilter, minPlace: int, maxPlace: int, like: (string, string) -> bool)
      returns (query: string, params: seq<Param>, result: seq<Waitlist>)
      ensures Placeholders(query) == |params|
      ensures forall x :: x in result <==> x in waitlist && WaitlistSatisfies(x, f, minPlace, maxPlace)
      ensures NoWaitlistFilter(f, minPlace, maxPlace) ==> query == WaitlistSelect && params == [] && result == waitlist
    {
      var conds;
      conds, params := BuildWaitlistFilter(f, minPlace, maxPlace);
      query := WithWhere(WaitlistSelect, conds);
      WaitlistSelectUnbound();
      WhereBindsEach(WaitlistSelect, conds);
      WaitlistFilterEmpty(f, minPlace, maxPlace);
      result := Fetch(waitlist, WaitlistRow, conds, params, like);
      forall x ensures MatchesAll(WaitlistRow(x), conds, params, like) <==> WaitlistSatisfies(x, f, minPlace, maxPlace) {
        WaitlistFilterMeaning(x, f, minPlace, maxPlace, like);
      }
    }
  }
}
