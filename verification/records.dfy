/** The five record shapes of the library database, one per table, and the
    filter shapes the query operations take.  A row holds every column; a
    filter holds each column as either a value or "unset".  String and date
    fields are unset when `None`; integer fields use the sentinel `Unset`
    (-1), so that value itself can never be searched for.  Dates are day
    numbers. */
module Records {

  datatype Option<T> = None | Some(value: T)

  /** The value of `o`, or `d` when `o` is unset. */
  function GetOr<T>(o: Option<T>, d: T): T
  {
    match o
    case Some(v) => v
    case None => d
  }

  /** The sentinel that marks an integer filter field or bound as unused. */
  const Unset: int := -1

  // ----- Table rows -----

  datatype Book = Book(isbn: string, title: string, author: string,
                       publicationYear: int, publisher: string, numOwned: int)

  datatype User = User(accountId: string, name: string, address: string,
                       phoneNumber: string, email: string)

  /** An open loan; `(isbn, accountId)` identifies it. */
  datatype Loan = Loan(isbn: string, accountId: string, checkoutDate: int, dueDate: int)

  /** A completed loan, archived when the book came back. */
  datatype LoanHistory = LoanHistory(isbn: string, accountId: string, checkoutDate: int,
                                     dueDate: int, returnDate: int)

  /** A place in the queue for a book; rank 1 is served next. */
  datatype Waitlist = Waitlist(isbn: string, accountId: string, placeInLine: int)

  // ----- Filter shapes -----

  /** `publicationYear` is carried but never consulted: year filtering goes
      through the separate range bounds. */
  datatype BookFilter = BookFilter(isbn: Option<string>, title: Option<string>,
                                   author: Option<string>, publicationYear: int,
                                   publisher: Option<string>, numOwned: int)

  /** Also the replacement record of an edit: the fields to overwrite. */
  datatype UserFilter = UserFilter(accountId: Option<string>, name: Option<string>,
                                   address: Option<string>, phoneNumber: Option<string>,
                                   email: Option<string>)

  datatype LoanFilter = LoanFilter(isbn: Option<string>, accountId: Option<string>,
                                   checkoutDate: Option<int>, dueDate: Option<int>)

  datatype LoanHistoryFilter = LoanHistoryFilter(isbn: Option<string>, accountId: Option<string>,
                                                 checkoutDate: Option<int>, dueDate: Option<int>,
                                                 returnDate: Option<int>)

  datatype WaitlistFilter = WaitlistFilter(isbn: Option<string>, accountId: Option<string>,
                                           placeInLine: int)

  /** Inclusive bounds on one column; each end is independently unset. */
  datatype DateRange = DateRange(min: Option<int>, max: Option<int>)
}
