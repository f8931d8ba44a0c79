/** What the fixed statements of the data-access layer do to the tables and
    what its lookups read from them.  Each table is a sequence of rows in
    table order; each statement effect is a function from the old table to
    the new one, and each lookup a function of the tables.  The lemmas
    state the bookkeeping the library relies on: the waitlist keeps its
    ranks 1..n, a return moves loans into the history without losing any,
    and stock moves by one per checkout. */
module Tables {
  import opened Records
  import opened Sql
  import opened FieldTable
  import opened Filters

  /** `INTERVAL 2 WEEK`, in days. */
  const LoanPeriod: int := 14

  // =====================================================================
  // Books and loans: number_in_stock
  // =====================================================================

  /** The row a `SELECT ... FROM Book WHERE isbn = ?` fetches first: the
      earliest book with that isbn in table order. */
  function FindBook(books: seq<Book>, isbn: string): (r: Option<Book>)
    ensures r.None? <==> forall i :: 0 <= i < |books| ==> books[i].isbn != isbn
    ensures r.Some? ==> exists i :: 0 <= i < |books| && books[i] == r.value && books[i].isbn == isbn
                           && forall j :: 0 <= j < i ==> books[j].isbn != isbn
  {
    if books == [] then None
    else if books[0].isbn == isbn then Some(books[0])
    else
      var r := FindBook(books[1..], isbn);
      assert forall i :: 0 < i < |books| ==> books[i] == books[1..][i - 1];
      r
  }

  /** `SELECT COUNT(*) FROM Loan WHERE isbn = ?`. */
  function CountLoans(loans: seq<Loan>, isbn: string): (r: nat)
    ensures r <= |loans|
  {
    if loans == [] then 0
    else CountLoans(loans[..|loans| - 1], isbn) + (if loans[|loans| - 1].isbn == isbn then 1 else 0)
  }

  /** Copies owned less copies on loan, unclamped: never more than owned,
      and at most one fewer per open loan; -1 for a book the library does
      not own. */
  function NumberInStock(books: seq<Book>, loans: seq<Loan>, isbn: string): (r: int)
    ensures (forall i :: 0 <= i < |books| ==> books[i].isbn != isbn) ==> r == -1
    ensures FindBook(books, isbn).Some? ==>
              var owned := FindBook(books, isbn).value.numOwned;
              owned - |loans| <= r <= owned
  {
    match FindBook(books, isbn)
    case None => -1
    case Some(b) => b.numOwned - CountLoans(loans, isbn)
  }

  /** The answer -1 does not tell "not owned" apart from "one more copy on
      loan than owned": a checkout is not refused when nothing is in stock. */
  lemma StockSentinelAmbiguous()
    ensures var books := [Book("isbn", "title", "author", 2000, "publisher", 0)];
            var loans := [Loan("isbn", "account", 0, LoanPeriod)];
            FindBook(books, "isbn").Some? && NumberInStock(books, loans, "isbn") == -1
  {
    var books := [Book("isbn", "title", "author", 2000, "publisher", 0)];
    var loans := [Loan("isbn", "account", 0, LoanPeriod)];
    assert loans[..0] == [];
    assert CountLoans(loans, "isbn") == 1;
  }

  // ----- checkout_book -----

  /** The loan a checkout inserts: out today, due one loan period later. */
  function NewLoan(isbn: string, account: string, today: int): (r: Loan)
    ensures IsLoan(r, isbn, account)
    ensures r.checkoutDate == today && r.dueDate - r.checkoutDate == LoanPeriod
  {
    Loan(isbn, account, today, today + LoanPeriod)
  }

  /** A checkout takes one copy of its own book out of stock and leaves
      every other book's stock as it was. */
  lemma StockAfterCheckout(books: seq<Book>, loans: seq<Loan>, isbn: string, account: string,
                           today: int, other: string)
    ensures var after := loans + [NewLoan(isbn, account, today)];
            && (FindBook(books, isbn).Some? ==>
                  NumberInStock(books, after, isbn) == NumberInStock(books, loans, isbn) - 1)
            && (other != isbn ==> NumberInStock(books, after, other) == NumberInStock(books, loans, other))
  {
    var after := loans + [NewLoan(isbn, account, today)];
    assert after[..|loans|] == loans;
  }

  // ----- return_book -----

  predicate IsLoan(l: Loan, isbn: string, account: string)
  {
    l.isbn == isbn && l.accountId == account
  }

  /** The rows `INSERT INTO LoanHistory ... SELECT ... FROM Loan` copies:
      every loan of the pair, as many times as it is stored, with today as
      its return date. */
  function Archive(loans: seq<Loan>, isbn: string, account: string, today: int): (r: seq<LoanHistory>)
    ensures forall h :: h in r <==>
              && h.isbn == isbn && h.accountId == account && h.returnDate == today
              && Loan(isbn, account, h.checkoutDate, h.dueDate) in loans
    ensures forall h :: multiset(r)[h] ==
              if h.isbn == isbn && h.accountId == account && h.returnDate == today
              then multiset(loans)[Loan(isbn, account, h.checkoutDate, h.dueDate)]
              else 0
  {
    if loans == [] then []
    else
      var init := loans[..|loans| - 1];
      var l := loans[|loans| - 1];
      assert loans == init + [l];
      var prev := Archive(init, isbn, account, today);
      if IsLoan(l, isbn, account) then prev + [LoanHistory(l.isbn, l.accountId, l.checkoutDate, l.dueDate, today)]
      else prev
  }

  /** The loans left after `DELETE FROM Loan WHERE isbn = ? AND account_id = ?`:
      every other loan keeps all its copies, the pair's keep none. */
  function Discharge(loans: seq<Loan>, isbn: string, account: string): (r: seq<Loan>)
    ensures forall l :: l in r <==> l in loans && !IsLoan(l, isbn, account)
    ensures forall l :: multiset(r)[l] == if IsLoan(l, isbn, account) then 0 else multiset(loans)[l]
  {
    if loans == [] then []
    else
      var init := loans[..|loans| - 1];
      var l := loans[|loans| - 1];
      assert loans == init + [l];
      var prev := Discharge(init, isbn, account);
      if IsLoan(l, isbn, account) then prev else prev + [l]
  }

  /** A return loses no loan: every row either moves to the history or
      stays open, and the book's open-loan count falls by the number moved. */
  lemma {:induction false} ReturnConserves(loans: seq<Loan>, isbn: string, account: string, today: int)
    ensures |Archive(loans, isbn, account, today)| + |Discharge(loans, isbn, account)| == |loans|
    ensures CountLoans(Discharge(loans, isbn, account), isbn) + |Archive(loans, isbn, account, today)|
              == CountLoans(loans, isbn)
  {
    if loans != [] {
      var init := loans[..|loans| - 1];
      var l := loans[|loans| - 1];
      ReturnConserves(init, isbn, account, today);
      var d := Discharge(init, isbn, account);
      if !IsLoan(l, isbn, account) {
        assert (d + [l])[..|d|] == d;
      }
    }
  }

  /** A return puts every copy it archives back in stock; other books'
      stock is untouched. */
  lemma {:induction false} StockAfterReturn(books: seq<Book>, loans: seq<Loan>, isbn: string, account: string,
                                            today: int, other: string)
    ensures FindBook(books, isbn).Some? ==>
              NumberInStock(books, Discharge(loans, isbn, account), isbn)
                == NumberInStock(books, loans, isbn) + |Archive(loans, isbn, account, today)|
    ensures other != isbn ==>
              NumberInStock(books, Discharge(loans, isbn, account), other) == NumberInStock(books, loans, other)
  {
    ReturnConserves(loans, isbn, account, today);
    if other != isbn {
      OtherCountsKept(loans, isbn, account, other);
    }
  }

  lemma {:induction false} OtherCountsKept(loans: seq<Loan>, isbn: string, account: string, other: string)
    requires other != isbn
    ensures CountLoans(Discharge(loans, isbn, account), other) == CountLoans(loans, other)
  {
    if loans != [] {
      var init := loans[..|loans| - 1];
      var l := loans[|loans| - 1];
      OtherCountsKept(init, isbn, account, other);
      var d := Discharge(init, isbn, account);
      if IsLoan(l, isbn, account) {
        assert Discharge(loans, isbn, account) == d;
      } else {
        assert Discharge(loans, isbn, account) == d + [l];
        assert (d + [l])[..|d|] == d;
      }
    }
  }

  // ----- grant_extension -----

  /** `UPDATE Loan SET due_date = due_date + 2 weeks` on the pair's loans. */
  function Extend(loans: seq<Loan>, isbn: string, account: string): (r: seq<Loan>)
    ensures |r| == |loans|
    ensures forall i :: 0 <= i < |loans| ==>
              r[i] == if IsLoan(loans[i], isbn, account) then loans[i].(dueDate := loans[i].dueDate + LoanPeriod)
                      else loans[i]
  {
    if loans == [] then []
    else
      var init := loans[..|loans| - 1];
      var l := loans[|loans| - 1];
      Extend(init, isbn, account)
        + [if IsLoan(l, isbn, account) then l.(dueDate := l.dueDate + LoanPeriod) else l]
  }

  /** An extension changes no book's stock. */
  lemma {:induction false} StockAfterExtension(books: seq<Book>, loans: seq<Loan>, isbn: string, account: string,
                                               any: string)
    ensures NumberInStock(books, Extend(loans, isbn, account), any) == NumberInStock(books, loans, any)
  {
    ExtendCounts(loans, isbn, account, any);
  }

  lemma {:induction false} ExtendCounts(loans: seq<Loan>, isbn: string, account: string, any: string)
    ensures CountLoans(Extend(loans, isbn, account), any) == CountLoans(loans, any)
  {
    if loans != [] {
      var init := loans[..|loans| - 1];
      ExtendCounts(init, isbn, account, any);
      var e := Extend(loans, isbn, account);
      assert e[..|init|] == Extend(init, isbn, account);
    }
  }

  // =====================================================================
  // Users: edit_user
  // =====================================================================

  /** The edit as the caller means it: every row stored under the original
      account id is overwritten field by field, the others are kept. */
  function EditUsers(users: seq<User>, originalId: string, e: UserFilter): seq<User>
  {
    seq(|users|, i requires 0 <= i < |users| =>
      if users[i].accountId == originalId then Overwrite(users[i], e) else users[i])
  }

  /** The UPDATE statement as executed: its SET clauses, bound to all but
      the last parameter, applied to each row whose account id equals the
      last parameter. */
  function ExecUpdate(users: seq<User>, upd: Update): (r: seq<User>)
    requires |upd.params| == |upd.sets| + 1
    ensures |r| == |users|
    ensures forall i :: 0 <= i < |users| && upd.params[|upd.sets|] != Text(users[i].accountId) ==> r[i] == users[i]
  {
    var key := upd.params[|upd.sets|];
    var values := upd.params[..|upd.sets|];
    seq(|users|, i requires 0 <= i < |users| =>
      if key == Text(users[i].accountId) then ApplySets(users[i], upd.sets, values) else users[i])
  }

  /** The statement `edit_user` builds does exactly the edit meant. */
  lemma EditEffect(users: seq<User>, originalId: string, e: UserFilter)
    ensures var em := Emit(UserSlots(e, false));
            ExecUpdate(users, Update(em.0, em.1 + [Text(originalId)])) == EditUsers(users, originalId, e)
  {
    var em := Emit(UserSlots(e, false));
    var upd := Update(em.0, em.1 + [Text(originalId)]);
    assert upd.params[..|upd.sets|] == em.1;
    forall i | 0 <= i < |users|
      ensures ExecUpdate(users, upd)[i] == EditUsers(users, originalId, e)[i]
    {
      EditMeaning(users[i], e);
    }
  }

  // =====================================================================
  // Waitlist
  // =====================================================================

  /** The rows queued for one book, in table order. */
  function RowsFor(w: seq<Waitlist>, isbn: string): (r: seq<Waitlist>)
    ensures forall x :: x in r <==> x in w && x.isbn == isbn
  {
    if w == [] then []
    else
      var init := w[..|w| - 1];
      var x := w[|w| - 1];
      assert w == init + [x];
      if x.isbn == isbn then RowsFor(init, isbn) + [x] else RowsFor(init, isbn)
  }

  /** `SELECT COUNT(*) FROM Waitlist WHERE isbn = ?`. */
  function LineLength(w: seq<Waitlist>, isbn: string): (r: nat)
    ensures r <= |w|
    ensures r == 0 <==> forall i :: 0 <= i < |w| ==> w[i].isbn != isbn
  {
    if w == [] then 0
    else LineLength(w[..|w| - 1], isbn) + (if w[|w| - 1].isbn == isbn then 1 else 0)
  }

  /** How many of the book's rows hold rank `k`. */
  function RankCount(w: seq<Waitlist>, isbn: string, k: int): nat
  {
    if w == [] then 0
    else
      var x := w[|w| - 1];
      RankCount(w[..|w| - 1], isbn, k) + (if x.isbn == isbn && x.placeInLine == k then 1 else 0)
  }

  /** The book's ranks are exactly 1..n, one row each. */
  ghost predicate Dense(w: seq<Waitlist>, isbn: string)
  {
    forall k :: RankCount(w, isbn, k) == if 1 <= k <= LineLength(w, isbn) then 1 else 0
  }

  /** `SELECT COALESCE(MAX(place_in_line), 0) FROM Waitlist WHERE isbn = ?`:
      the highest rank of the book, and 0 for an empty line. */
  function MaxPlace(w: seq<Waitlist>, isbn: string): (r: int)
    ensures LineLength(w, isbn) == 0 ==> r == 0
    ensures LineLength(w, isbn) > 0 ==> RankCount(w, isbn, r) > 0
    ensures forall i :: 0 <= i < |w| && w[i].isbn == isbn ==> w[i].placeInLine <= r
  {
    if w == [] then 0
    else
      var init := w[..|w| - 1];
      var x := w[|w| - 1];
      var m := MaxPlace(init, isbn);
      assert forall i :: 0 <= i < |init| ==> w[i] == init[i];
      if x.isbn != isbn then m
      else if LineLength(init, isbn) == 0 then x.placeInLine
      else if m < x.placeInLine then x.placeInLine
      else m
  }

  /** The rank of the pair's first row in table order, if it is queued. */
  function FirstPlace(w: seq<Waitlist>, isbn: string, account: string): (r: Option<int>)
    ensures r.None? <==> forall i :: 0 <= i < |w| ==> !(w[i].isbn == isbn && w[i].accountId == account)
    ensures r.Some? ==> exists i :: 0 <= i < |w| && w[i].isbn == isbn && w[i].accountId == account
                           && w[i].placeInLine == r.value
                           && forall j :: 0 <= j < i ==> !(w[j].isbn == isbn && w[j].accountId == account)
  {
    if w == [] then None
    else
      var prev := FirstPlace(w[..|w| - 1], isbn, account);
      var x := w[|w| - 1];
      assert forall i :: 0 <= i < |w| - 1 ==> w[i] == w[..|w| - 1][i];
      if prev.Some? then prev
      else if x.isbn == isbn && x.accountId == account then Some(x.placeInLine)
      else None
  }

  /** `place_in_line`: the rank of the pair's first row, or -1 when it is
      not queued. */
  function PlaceInLine(w: seq<Waitlist>, isbn: string, account: string): (r: int)
    ensures (forall i :: 0 <= i < |w| ==> !(w[i].isbn == isbn && w[i].accountId == account)) ==> r == -1
    ensures (exists i :: 0 <= i < |w| && w[i].isbn == isbn && w[i].accountId == account) ==>
              exists i :: 0 <= i < |w| && w[i].isbn == isbn && w[i].accountId == account && w[i].placeInLine == r
                && forall j :: 0 <= j < i ==> !(w[j].isbn == isbn && w[j].accountId == account)
  {
    GetOr(FirstPlace(w, isbn, account), -1)
  }

  // ----- waitlist_user -----

  /** The row a waitlist call inserts: one place past the current maximum. */
  function Enrolled(w: seq<Waitlist>, isbn: string, account: string): (r: Waitlist)
    ensures r.isbn == isbn && r.accountId == account
    ensures forall i :: 0 <= i < |w| && w[i].isbn == isbn ==> w[i].placeInLine < r.placeInLine
    ensures LineLength(w, isbn) == 0 ==> r.placeInLine == 1
  {
    Waitlist(isbn, account, MaxPlace(w, isbn) + 1)
  }

  lemma {:induction false} RankCountWitness(w: seq<Waitlist>, isbn: string, k: int)
    requires RankCount(w, isbn, k) > 0
    ensures exists i :: 0 <= i < |w| && w[i].isbn == isbn && w[i].placeInLine == k
  {
    var init := w[..|w| - 1];
    if RankCount(init, isbn, k) > 0 {
      RankCountWitness(init, isbn, k);
      var i :| 0 <= i < |init| && init[i].isbn == isbn && init[i].placeInLine == k;
      assert w[i] == init[i];
    } else {
      assert w[|w| - 1].isbn == isbn && w[|w| - 1].placeInLine == k;
    }
  }

  /** On a dense line the current maximum is the line's length, so a new
      entry goes to place n + 1 and the line stays dense. */
  lemma EnrollKeepsDense(w: seq<Waitlist>, isbn: string, account: string)
    requires Dense(w, isbn)
    ensures MaxPlace(w, isbn) == LineLength(w, isbn)
    ensures var after := w + [Enrolled(w, isbn, account)];
            Dense(after, isbn) && LineLength(after, isbn) == LineLength(w, isbn) + 1
  {
    var n := LineLength(w, isbn);
    var m := MaxPlace(w, isbn);
    if n > 0 {
      assert RankCount(w, isbn, m) > 0;
      assert 1 <= m <= n;
      assert RankCount(w, isbn, n) == 1;
      RankCountWitness(w, isbn, n);
    }
    var after := w + [Enrolled(w, isbn, account)];
    assert after[..|w|] == w;
    forall k ensures RankCount(after, isbn, k) == if 1 <= k <= n + 1 then 1 else 0 {
      assert RankCount(after, isbn, k) == RankCount(w, isbn, k) + (if k == n + 1 then 1 else 0);
    }
  }

  /** The table and the places returned after `waitlist_user` is called
      for each account in turn. */
  function EnrollAll(w: seq<Waitlist>, isbn: string, accounts: seq<string>): (r: (seq<Waitlist>, seq<int>))
    ensures |r.1| == |accounts|
  {
    if accounts == [] then (w, [])
    else
      var prev := EnrollAll(w, isbn, accounts[..|accounts| - 1]);
      var row := Enrolled(prev.0, isbn, accounts[|accounts| - 1]);
      (prev.0 + [row], prev.1 + [row.placeInLine])
  }

  /** Queueing n accounts behind a dense line of length m hands out places
      m + 1 .. m + n in call order and keeps the line dense; from an empty
      line the places are 1..n. */
  lemma {:induction false} EnrollAllPlaces(w: seq<Waitlist>, isbn: string, accounts: seq<string>)
    requires Dense(w, isbn)
    ensures var r := EnrollAll(w, isbn, accounts);
            && Dense(r.0, isbn)
            && LineLength(r.0, isbn) == LineLength(w, isbn) + |accounts|
            && forall i :: 0 <= i < |accounts| ==> r.1[i] == LineLength(w, isbn) + i + 1
  {
    if accounts != [] {
      var init := accounts[..|accounts| - 1];
      EnrollAllPlaces(w, isbn, init);
      var prev := EnrollAll(w, isbn, init);
      EnrollKeepsDense(prev.0, isbn, accounts[|accounts| - 1]);
    }
  }

  // ----- update_waitlist -----

  /** `DELETE FROM Waitlist WHERE isbn = ? AND place_in_line = 1`. */
  function RemoveFront(w: seq<Waitlist>, isbn: string): (r: seq<Waitlist>)
    ensures |r| == |w| - RankCount(w, isbn, 1)
  {
    if w == [] then []
    else
      var init := w[..|w| - 1];
      var x := w[|w| - 1];
      if x.isbn == isbn && x.placeInLine == 1 then RemoveFront(init, isbn) else RemoveFront(init, isbn) + [x]
  }

  /** The DELETE keeps exactly the rows that are not the book's rank-1 entry. */
  lemma {:induction false} RemoveFrontRows(w: seq<Waitlist>, isbn: string)
    ensures forall x :: x in RemoveFront(w, isbn) <==> x in w && !(x.isbn == isbn && x.placeInLine == 1)
  {
    if w != [] {
      var init := w[..|w| - 1];
      RemoveFrontRows(init, isbn);
      assert w == init + [w[|w| - 1]];
    }
  }

  /** `UPDATE Waitlist SET place_in_line = place_in_line - 1
      WHERE isbn = ? AND place_in_line > 1`. */
  function ShiftDown(w: seq<Waitlist>, isbn: string): (r: seq<Waitlist>)
    ensures |r| == |w|
  {
    if w == [] then []
    else
      var x := w[|w| - 1];
      ShiftDown(w[..|w| - 1], isbn)
        + [if x.isbn == isbn && x.placeInLine > 1 then x.(placeInLine := x.placeInLine - 1) else x]
  }

  /** The UPDATE moves each of the book's rows above rank 1 up one place
      and leaves every other row, and the row order, as it was. */
  lemma {:induction false} ShiftDownRows(w: seq<Waitlist>, isbn: string)
    ensures forall i :: 0 <= i < |w| ==>
              ShiftDown(w, isbn)[i] ==
                if w[i].isbn == isbn && w[i].placeInLine > 1 then w[i].(placeInLine := w[i].placeInLine - 1)
                else w[i]
  {
    if w != [] {
      var init := w[..|w| - 1];
      ShiftDownRows(init, isbn);
      assert forall i :: 0 <= i < |init| ==> ShiftDown(w, isbn)[i] == ShiftDown(init, isbn)[i] && w[i] == init[i];
    }
  }

  /** Both statements of `update_waitlist`, in order. */
  function Advance(w: seq<Waitlist>, isbn: string): (r: seq<Waitlist>)
    ensures |r| == |w| - RankCount(w, isbn, 1)
  {
    ShiftDown(RemoveFront(w, isbn), isbn)
  }

  lemma {:induction false} RemoveFrontCounts(w: seq<Waitlist>, isbn: string, k: int)
    ensures RankCount(RemoveFront(w, isbn), isbn, k) == if k == 1 then 0 else RankCount(w, isbn, k)
    ensures LineLength(RemoveFront(w, isbn), isbn) == LineLength(w, isbn) - RankCount(w, isbn, 1)
  {
    if w != [] {
      var init := w[..|w| - 1];
      var x := w[|w| - 1];
      RemoveFrontCounts(init, isbn, k);
      var r := RemoveFront(init, isbn);
      if !(x.isbn == isbn && x.placeInLine == 1) {
        assert (r + [x])[..|r|] == r;
      }
    }
  }

  lemma {:induction false} ShiftDownCounts(w: seq<Waitlist>, isbn: string, k: int)
    ensures RankCount(ShiftDown(w, isbn), isbn, k)
              == (if k >= 1 then RankCount(w, isbn, k + 1) else 0) + (if k <= 1 then RankCount(w, isbn, k) else 0)
    ensures LineLength(ShiftDown(w, isbn), isbn) == LineLength(w, isbn)
  {
    if w != [] {
      var init := w[..|w| - 1];
      var x := w[|w| - 1];
      var y := if x.isbn == isbn && x.placeInLine > 1 then x.(placeInLine := x.placeInLine - 1) else x;
      ShiftDownCounts(init, isbn, k);
      var s := ShiftDown(init, isbn);
      assert ShiftDown(w, isbn) == s + [y];
      assert (s + [y])[..|s|] == s;
    }
  }

  /** Advancing a dense line of n > 0 leaves a dense line of n - 1: the
      front entry leaves and everyone else moves up one place.  An empty
      line stays empty. */
  lemma AdvanceKeepsDense(w: seq<Waitlist>, isbn: string)
    requires Dense(w, isbn)
    ensures Dense(Advance(w, isbn), isbn)
    ensures LineLength(Advance(w, isbn), isbn) == if LineLength(w, isbn) == 0 then 0 else LineLength(w, isbn) - 1
  {
    var n := LineLength(w, isbn);
    var removed := RemoveFront(w, isbn);
    RemoveFrontCounts(w, isbn, 1);
    ShiftDownCounts(removed, isbn, 1);
    assert LineLength(removed, isbn) == if n == 0 then 0 else n - 1;
    forall k ensures RankCount(Advance(w, isbn), isbn, k) == if 1 <= k <= LineLength(removed, isbn) then 1 else 0 {
      ShiftDownCounts(removed, isbn, k);
      RemoveFrontCounts(w, isbn, k);
      RemoveFrontCounts(w, isbn, k + 1);
    }
  }

  lemma {:induction false} RemoveFrontOthers(w: seq<Waitlist>, isbn: string, other: string)
    requires other != isbn
    ensures RowsFor(RemoveFront(w, isbn), other) == RowsFor(w, other)
  {
    if w != [] {
      var init := w[..|w| - 1];
      var x := w[|w| - 1];
      RemoveFrontOthers(init, isbn, other);
      var r := RemoveFront(init, isbn);
      if !(x.isbn == isbn && x.placeInLine == 1) {
        assert (r + [x])[..|r|] == r;
      }
    }
  }

  lemma {:induction false} ShiftDownOthers(w: seq<Waitlist>, isbn: string, other: string)
    requires other != isbn
    ensures RowsFor(ShiftDown(w, isbn), other) == RowsFor(w, other)
  {
    if w != [] {
      var init := w[..|w| - 1];
      ShiftDownOthers(init, isbn, other);
      var s := ShiftDown(w, isbn);
      assert s[..|init|] == ShiftDown(init, isbn);
    }
  }

  /** Advancing one book's line leaves every other book's queue, rows and
      order alike, as it was. */
  lemma AdvanceOthers(w: seq<Waitlist>, isbn: string, other: string)
    requires other != isbn
    ensures RowsFor(Advance(w, isbn), other) == RowsFor(w, other)
  {
    RemoveFrontOthers(w, isbn, other);
    ShiftDownOthers(RemoveFront(w, isbn), isbn, other);
  }

  lemma {:induction false} RemoveFrontPlace(w: seq<Waitlist>, isbn: string, q: string, account: string)
    requires q != isbn || FirstPlace(w, q, account) != Some(1)
    ensures FirstPlace(RemoveFront(w, isbn), q, account) == FirstPlace(w, q, account)
  {
    if w != [] {
      var init := w[..|w| - 1];
      var x := w[|w| - 1];
      var r := RemoveFront(init, isbn);
      RemoveFrontPlace(init, isbn, q, account);
      if !(x.isbn == isbn && x.placeInLine == 1) {
        assert (r + [x])[..|r|] == r;
      }
    }
  }

  /** The rank a shifted row reports. */
  function Lowered(p: Option<int>): Option<int>
  {
    match p
    case None => None
    case Some(v) => Some(if v > 1 then v - 1 else v)
  }

  lemma {:induction false} ShiftDownPlace(w: seq<Waitlist>, isbn: string, q: string, account: string)
    ensures FirstPlace(ShiftDown(w, isbn), q, account)
              == if q == isbn then Lowered(FirstPlace(w, q, account)) else FirstPlace(w, q, account)
  {
    if w != [] {
      var init := w[..|w| - 1];
      var x := w[|w| - 1];
      var y := if x.isbn == isbn && x.placeInLine > 1 then x.(placeInLine := x.placeInLine - 1) else x;
      ShiftDownPlace(init, isbn, q, account);
      var s := ShiftDown(init, isbn);
      assert ShiftDown(w, isbn) == s + [y];
      assert (s + [y])[..|s|] == s;
      var p, ps := FirstPlace(init, q, account), FirstPlace(s, q, account);
      assert FirstPlace(w, q, account)
               == if p.Some? then p else if x.isbn == q && x.accountId == account then Some(x.placeInLine) else None;
      assert FirstPlace(s + [y], q, account)
               == if ps.Some? then ps else if y.isbn == q && y.accountId == account then Some(y.placeInLine) else None;
    }
  }

  /** After an advance, an entry behind the front moves up exactly one
      place, and `place_in_line` for any other book reports what it did. */
  lemma PlaceAfterAdvance(w: seq<Waitlist>, isbn: string, account: string, other: string)
    ensures PlaceInLine(w, isbn, account) > 1 ==>
              PlaceInLine(Advance(w, isbn), isbn, account) == PlaceInLine(w, isbn, account) - 1
    ensures other != isbn ==> PlaceInLine(Advance(w, isbn), other, account) == PlaceInLine(w, other, account)
  {
    if PlaceInLine(w, isbn, account) > 1 {
      RemoveFrontPlace(w, isbn, isbn, account);
      ShiftDownPlace(RemoveFront(w, isbn), isbn, isbn, account);
    }
    if other != isbn {
      RemoveFrontPlace(w, isbn, other, account);
      ShiftDownPlace(RemoveFront(w, isbn), isbn, other, account);
    }
  }
}
