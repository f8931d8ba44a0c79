/** The dynamic statement builders of `db_handler.py`, one per entity: the
    WHERE builders of the five filtered queries and the SET builder of the
    user edit.  Each builder runs the source's guarded append blocks in
    the source's order, one `AppendIfSet` per block, and is proved equal to
    `Emit` over its entity's field table; what the resulting clause selects (or assigns) is proved equal to
    a direct reading of the filter. */
module Filters {
  import opened Records
  import opened Sql
  import opened FieldTable

  // =====================================================================
  // Book
  // =====================================================================

  /** The statement texts keep the source's line layout: a newline and
      eight spaces before each clause, a newline and four spaces at the end. */
  const Indent: string := "\n        "
  const Tail: string := "\n    "

  const BookSelect: string :=
    Indent + "SELECT isbn, title, author, " + "publication_year, publisher, num_owned"
    + Indent + "FROM Book" + Tail

  function BookRow(b: Book): Row
  {
    map[Isbn := Text(b.isbn), Title := Text(b.title), Author := Text(b.author),
        PublicationYear := Num(b.publicationYear), Publisher := Text(b.publisher),
        NumOwned := Num(b.numOwned)]
  }

  /** Emission order: isbn, title, author, publisher, num_owned, lower and
      upper publication year.  The filter's own publication year is not a
      line of the table. */
  function BookSlots(f: BookFilter, usePatterns: bool, minYear: int, maxYear: int): seq<Slot>
  {
    var op := TextOp(usePatterns);
    [TextSlot(Isbn, op, f.isbn), TextSlot(Title, op, f.title), TextSlot(Author, op, f.author),
     TextSlot(Publisher, op, f.publisher), IntSlot(NumOwned, Eq, f.numOwned),
     IntSlot(PublicationYear, AtLeast, minYear), IntSlot(PublicationYear, AtMost, maxYear)]
  }

  /** The filter read directly: every set string field matches, the owned
      count is equal when set, and the year lies within each set bound. */
  predicate BookSatisfies(b: Book, f: BookFilter, usePatterns: bool, minYear: int, maxYear: int,
                          like: (string, string) -> bool)
  {
    && (f.isbn.Some? ==> TextMatches(b.isbn, f.isbn.value, usePatterns, like))
    && (f.title.Some? ==> TextMatches(b.title, f.title.value, usePatterns, like))
    && (f.author.Some? ==> TextMatches(b.author, f.author.value, usePatterns, like))
    && (f.publisher.Some? ==> TextMatches(b.publisher, f.publisher.value, usePatterns, like))
    && (f.numOwned != Unset ==> b.numOwned == f.numOwned)
    && (minYear != Unset ==> minYear <= b.publicationYear)
    && (maxYear != Unset ==> b.publicationYear <= maxYear)
  }

  predicate NoBookFilter(f: BookFilter, minYear: int, maxYear: int)
  {
    f.isbn.None? && f.title.None? && f.author.None? && f.publisher.None?
    && f.numOwned == Unset && minYear == Unset && maxYear == Unset
  }

  /** The predicate list and parameters of `get_filtered_books`. */
  method BuildBookFilter(f: BookFilter, usePatterns: bool, minYear: int, maxYear: int)
    returns (conds: seq<Condition>, params: seq<Param>)
    ensures (conds, params) == Emit(BookSlots(f, usePatterns, minYear, maxYear))
  {
    ghost var done: seq<Slot> := [];
    conds, params := [], [];

    var s := TextSlot(Isbn, TextOp(usePatterns), f.isbn);
    conds, params := AppendIfSet(conds, params, done, s);
    done := done + [s];

    s := TextSlot(Title, TextOp(usePatterns), f.title);
    conds, params := AppendIfSet(conds, params, done, s);
    done := done + [s];

    s := TextSlot(Author, TextOp(usePatterns), f.author);
    conds, params := AppendIfSet(conds, params, done, s);
    done := done + [s];

    s := TextSlot(Publisher, TextOp(usePatterns), f.publisher);
    conds, params := AppendIfSet(conds, params, done, s);
    done := done + [s];

    s := IntSlot(NumOwned, Eq, f.numOwned);
    conds, params := AppendIfSet(conds, params, done, s);
    done := done + [s];

    s := IntSlot(PublicationYear, AtLeast, minYear);
    conds, params := AppendIfSet(conds, params, done, s);
    done := done + [s];

    s := IntSlot(PublicationYear, AtMost, maxYear);
    conds, params := AppendIfSet(conds, params, done, s);
    done := done + [s];

    assert done == BookSlots(f, usePatterns, minYear, maxYear);
  }

  /** The WHERE clause selects exactly the books the filter describes. */
  lemma BookFilterMeaning(b: Book, f: BookFilter, usePatterns: bool, minYear: int, maxYear: int,
                          like: (string, string) -> bool)
    ensures var e := Emit(BookSlots(f, usePatterns, minYear, maxYear));
            MatchesAll(BookRow(b), e.0, e.1, like) <==> BookSatisfies(b, f, usePatterns, minYear, maxYear, like)
  {
    var slots := BookSlots(f, usePatterns, minYear, maxYear);
    EmitMatches(BookRow(b), slots, like);
    if BookSatisfies(b, f, usePatterns, minYear, maxYear, like) {
      forall i | 0 <= i < |slots| ensures SlotHolds(BookRow(b), slots[i], like) { }
    } else {
      assert !SlotHolds(BookRow(b), slots[0], like) || !SlotHolds(BookRow(b), slots[1], like)
          || !SlotHolds(BookRow(b), slots[2], like) || !SlotHolds(BookRow(b), slots[3], like)
          || !SlotHolds(BookRow(b), slots[4], like) || !SlotHolds(BookRow(b), slots[5], like)
          || !SlotHolds(BookRow(b), slots[6], like);
    }
  }

  /** No WHERE clause exactly when every field and both bounds are unset. */
  lemma BookFilterEmpty(f: BookFilter, usePatterns: bool, minYear: int, maxYear: int)
    ensures Emit(BookSlots(f, usePatterns, minYear, maxYear)).0 == [] <==> NoBookFilter(f, minYear, maxYear)
  {
    var slots := BookSlots(f, usePatterns, minYear, maxYear);
    EmitEmpty(slots);
    if NoBookFilter(f, minYear, maxYear) {
      forall i | 0 <= i < |slots| ensures slots[i].value.None? { }
    } else {
      assert slots[0].value.Some? || slots[1].value.Some? || slots[2].value.Some? || slots[3].value.Some?
          || slots[4].value.Some? || slots[5].value.Some? || slots[6].value.Some?;
    }
  }

  /** Pattern mode turns every string predicate into LIKE; the owned
      count and the year bounds never use LIKE in either mode, and the
      bound values are the same in both modes. */
  lemma BookPatternSwitch(f: BookFilter, usePatterns: bool, minYear: int, maxYear: int)
    ensures forall c :: c in Emit(BookSlots(f, usePatterns, minYear, maxYear)).0 ==>
              (c.column in {Isbn, Title, Author, Publisher} ==> c.op == TextOp(usePatterns)) &&
              (c.column !in {Isbn, Title, Author, Publisher} ==> c.op != Like) &&
              (c.op == Like ==> usePatterns)
    ensures Emit(BookSlots(f, true, minYear, maxYear)).1 == Emit(BookSlots(f, false, minYear, maxYear)).1
  {
    var slots := BookSlots(f, usePatterns, minYear, maxYear);
    forall c | c in Emit(slots).0
      ensures (c.column in {Isbn, Title, Author, Publisher} ==> c.op == TextOp(usePatterns)) &&
              (c.column !in {Isbn, Title, Author, Publisher} ==> c.op != Like) &&
              (c.op == Like ==> usePatterns)
    {
      EmitContains(slots, c);
      var i :| 0 <= i < |slots| && slots[i].value.Some? && slots[i].cond == c;
      assert i in {0, 1, 2, 3, 4, 5, 6};
    }
    var a, b := BookSlots(f, true, minYear, maxYear), BookSlots(f, false, minYear, maxYear);
    forall i | 0 <= i < |a| ensures a[i].value == b[i].value { }
    EmitParamsIgnoreOps(a, b);
  }

  /** Each year bound contributes its own inclusive predicate exactly when
      it is set, whatever the other bound. */
  lemma BookYearBounds(f: BookFilter, usePatterns: bool, minYear: int, maxYear: int)
    ensures var conds := Emit(BookSlots(f, usePatterns, minYear, maxYear)).0;
            && (Condition(PublicationYear, AtLeast) in conds <==> minYear != Unset)
            && (Condition(PublicationYear, AtMost) in conds <==> maxYear != Unset)
  {
    var slots := BookSlots(f, usePatterns, minYear, maxYear);
    EmitContains(slots, Condition(PublicationYear, AtLeast));
    EmitContains(slots, Condition(PublicationYear, AtMost));
    if exists i :: 0 <= i < |slots| && slots[i].value.Some? && slots[i].cond == Condition(PublicationYear, AtLeast) {
      var i :| 0 <= i < |slots| && slots[i].value.Some? && slots[i].cond == Condition(PublicationYear, AtLeast);
      assert i in {0, 1, 2, 3, 4, 5, 6};
    }
    if exists i :: 0 <= i < |slots| && slots[i].value.Some? && slots[i].cond == Condition(PublicationYear, AtMost) {
      var i :| 0 <= i < |slots| && slots[i].value.Some? && slots[i].cond == Condition(PublicationYear, AtMost);
      assert i in {0, 1, 2, 3, 4, 5, 6};
    }
    if minYear != Unset {
      assert slots[5].value.Some?;
    }
    if maxYear != Unset {
      assert slots[6].value.Some?;
    }
  }

  // =====================================================================
  // User
  // =====================================================================

  const UserSelect: string :=
    Indent + "SELECT account_id, name, " + "address, phone_number, email"
    + Indent + "FROM User" + Tail

  function UserRow(u: User): Row
  {
    map[AccountId := Text(u.accountId), Name := Text(u.name), Address := Text(u.address),
        PhoneNumber := Text(u.phoneNumber), Email := Text(u.email)]
  }

  /** Emission order: account_id, name, address, phone_number, email. */
  function UserSlots(f: UserFilter, usePatterns: bool): seq<Slot>
  {
    var op := TextOp(usePatterns);
    [TextSlot(AccountId, op, f.accountId), TextSlot(Name, op, f.name), TextSlot(Address, op, f.address),
     TextSlot(PhoneNumber, op, f.phoneNumber), TextSlot(Email, op, f.email)]
  }

  predicate UserSatisfies(u: User, f: UserFilter, usePatterns: bool, like: (string, string) -> bool)
  {
    && (f.accountId.Some? ==> TextMatches(u.accountId, f.accountId.value, usePatterns, like))
    && (f.name.Some? ==> TextMatches(u.name, f.name.value, usePatterns, like))
    && (f.address.Some? ==> TextMatches(u.address, f.address.value, usePatterns, like))
    && (f.phoneNumber.Some? ==> TextMatches(u.phoneNumber, f.phoneNumber.value, usePatterns, like))
    && (f.email.Some? ==> TextMatches(u.email, f.email.value, usePatterns, like))
  }

  predicate NoUserFilter(f: UserFilter)
  {
    f.accountId.None? && f.name.None? && f.address.None? && f.phoneNumber.None? && f.email.None?
  }

  /** The predicate list and parameters of `get_filtered_users`. */
  method BuildUserFilter(f: UserFilter, usePatterns: bool) returns (conds: seq<Condition>, params: seq<Param>)
    ensures (conds, params) == Emit(UserSlots(f, usePatterns))
  {
    ghost var done: seq<Slot> := [];
    conds, params := [], [];

    var s := TextSlot(AccountId, TextOp(usePatterns), f.accountId);
    conds, params := AppendIfSet(conds, params, done, s);
    done := done + [s];

    s := TextSlot(Name, TextOp(usePatterns), f.name);
    conds, params := AppendIfSet(conds, params, done, s);
    done := done + [s];

    s := TextSlot(Address, TextOp(usePatterns), f.address);
    conds, params := AppendIfSet(conds, params, done, s);
    done := done + [s];

    s := TextSlot(PhoneNumber, TextOp(usePatterns), f.phoneNumber);
    conds, params := AppendIfSet(conds, params, done, s);
    done := done + [s];

    s := TextSlot(Email, TextOp(usePatterns), f.email);
    conds, params := AppendIfSet(conds, params, done, s);
    done := done + [s];

    assert done == UserSlots(f, usePatterns);
  }

  /** The WHERE clause selects exactly the users the filter describes. */
  lemma UserFilterMeaning(u: User, f: UserFilter, usePatterns: bool, like: (string, string) -> bool)
    ensures var e := Emit(UserSlots(f, usePatterns));
            MatchesAll(UserRow(u), e.0, e.1, like) <==> UserSatisfies(u, f, usePatterns, like)
  {
    var slots := UserSlots(f, usePatterns);
    EmitMatches(UserRow(u), slots, like);
    if UserSatisfies(u, f, usePatterns, like) {
      forall i | 0 <= i < |slots| ensures SlotHolds(UserRow(u), slots[i], like) { }
    } else {
      assert !SlotHolds(UserRow(u), slots[0], like)
          || !SlotHolds(UserRow(u), slots[1], like)
          || !SlotHolds(UserRow(u), slots[2], like)
          || !SlotHolds(UserRow(u), slots[3], like)
          || !SlotHolds(UserRow(u), slots[4], like);
    }
  }

  /** No WHERE clause exactly when every field is unset. */
  lemma UserFilterEmpty(f: UserFilter, usePatterns: bool)
    ensures Emit(UserSlots(f, usePatterns)).0 == [] <==> NoUserFilter(f)
  {
    var slots := UserSlots(f, usePatterns);
    EmitEmpty(slots);
    if NoUserFilter(f) {
      forall i | 0 <= i < |slots| ensures slots[i].value.None? { }
    } else {
      assert slots[0].value.Some? || slots[1].value.Some? || slots[2].value.Some?
          || slots[3].value.Some? || slots[4].value.Some?;
    }
  }

  /** Pattern mode makes every user predicate a LIKE, exact mode makes
      every one an equality; the bound values are the same in both modes. */
  lemma UserPatternSwitch(f: UserFilter, usePatterns: bool)
    ensures forall c :: c in Emit(UserSlots(f, usePatterns)).0 ==> c.op == TextOp(usePatterns)
    ensures Emit(UserSlots(f, true)).1 == Emit(UserSlots(f, false)).1
  {
    var slots := UserSlots(f, usePatterns);
    forall c | c in Emit(slots).0 ensures c.op == TextOp(usePatterns) {
      EmitContains(slots, c);
      var i :| 0 <= i < |slots| && slots[i].value.Some? && slots[i].cond == c;
      assert i in {0, 1, 2, 3, 4};
    }
    var a, b := UserSlots(f, true), UserSlots(f, false);
    forall i | 0 <= i < |a| ensures a[i].value == b[i].value { }
    EmitParamsIgnoreOps(a, b);
  }

  // =====================================================================
  // Loan
  // =====================================================================

  const LoanSelect: string :=
    Indent + "SELECT isbn, account_id, " + "checkout_date, due_date"
    + Indent + "FROM Loan" + Tail

  function LoanRow(l: Loan): Row
  {
    map[Isbn := Text(l.isbn), AccountId := Text(l.accountId),
        CheckoutDate := Num(l.checkoutDate), DueDate := Num(l.dueDate)]
  }

  /** Emission order: isbn, account_id, checkout_date, due_date, then the
      checkout bounds and the due bounds, lower before upper.  Strings are
      always matched exactly. */
  function LoanSlots(f: LoanFilter, checkout: DateRange, due: DateRange): seq<Slot>
  {
    [TextSlot(Isbn, Eq, f.isbn), TextSlot(AccountId, Eq, f.accountId),
     DateSlot(CheckoutDate, Eq, f.checkoutDate), DateSlot(DueDate, Eq, f.dueDate),
     DateSlot(CheckoutDate, AtLeast, checkout.min), DateSlot(CheckoutDate, AtMost, checkout.max),
     DateSlot(DueDate, AtLeast, due.min), DateSlot(DueDate, AtMost, due.max)]
  }

  predicate LoanSatisfies(l: Loan, f: LoanFilter, checkout: DateRange, due: DateRange)
  {
    && (f.isbn.Some? ==> l.isbn == f.isbn.value)
    && (f.accountId.Some? ==> l.accountId == f.accountId.value)
    && (f.checkoutDate.Some? ==> l.checkoutDate == f.checkoutDate.value)
    && (f.dueDate.Some? ==> l.dueDate == f.dueDate.value)
    && InRange(l.checkoutDate, checkout)
    && InRange(l.dueDate, due)
  }

  predicate NoLoanFilter(f: LoanFilter, checkout: DateRange, due: DateRange)
  {
    f.isbn.None? && f.accountId.None? && f.checkoutDate.None? && f.dueDate.None?
    && checkout.min.None? && checkout.max.None? && due.min.None? && due.max.None?
  }

  /** The predicate list and parameters of `get_filtered_loans`. */
  method BuildLoanFilter(f: LoanFilter, checkout: DateRange, due: DateRange)
    returns (conds: seq<Condition>, params: seq<Param>)
    ensures (conds, params) == Emit(LoanSlots(f, checkout, due))
  {
    ghost var done: seq<Slot> := [];
    conds, params := [], [];

    var s := TextSlot(Isbn, Eq, f.isbn);
    conds, params := AppendIfSet(conds, params, done, s);
    done := done + [s];

    s := TextSlot(AccountId, Eq, f.accountId);
    conds, params := AppendIfSet(conds, params, done, s);
    done := done + [s];

    s := DateSlot(CheckoutDate, Eq, f.checkoutDate);
    conds, params := AppendIfSet(conds, params, done, s);
    done := done + [s];

    s := DateSlot(DueDate, Eq, f.dueDate);
    conds, params := AppendIfSet(conds, params, done, s);
    done := done + [s];

    s := DateSlot(CheckoutDate, AtLeast, checkout.min);
    conds, params := AppendIfSet(conds, params, done, s);
    done := done + [s];

    s := DateSlot(CheckoutDate, AtMost, checkout.max);
    conds, params := AppendIfSet(conds, params, done, s);
    done := done + [s];

    s := DateSlot(DueDate, AtLeast, due.min);
    conds, params := AppendIfSet(conds, params, done, s);
    done := done + [s];

    s := DateSlot(DueDate, AtMost, due.max);
    conds, params := AppendIfSet(conds, params, done, s);
    done := done + [s];

    assert done == LoanSlots(f, checkout, due);
  }

  /** The WHERE clause selects exactly the loans the filter describes. */
  lemma LoanFilterMeaning(l: Loan, f: LoanFilter, checkout: DateRange, due: DateRange,
                          like: (string, string) -> bool)
    ensures var e := Emit(LoanSlots(f, checkout, due));
            MatchesAll(LoanRow(l), e.0, e.1, like) <==> LoanSatisfies(l, f, checkout, due)
  {
    var slots := LoanSlots(f, checkout, due);
    EmitMatches(LoanRow(l), slots, like);
    if LoanSatisfies(l, f, checkout, due) {
      forall i | 0 <= i < |slots| ensures SlotHolds(LoanRow(l), slots[i], like) { }
    } else {
      assert !SlotHolds(LoanRow(l), slots[0], like)
          || !SlotHolds(LoanRow(l), slots[1], like)
          || !SlotHolds(LoanRow(l), slots[2], like)
          || !SlotHolds(LoanRow(l), slots[3], like)
          || !SlotHolds(LoanRow(l), slots[4], like)
          || !SlotHolds(LoanRow(l), slots[5], like)
          || !SlotHolds(LoanRow(l), slots[6], like)
          || !SlotHolds(LoanRow(l), slots[7], like);
    }
  }

  /** No WHERE clause exactly when every field and every bound is unset. */
  lemma LoanFilterEmpty(f: LoanFilter, checkout: DateRange, due: DateRange)
    ensures Emit(LoanSlots(f, checkout, due)).0 == [] <==> NoLoanFilter(f, checkout, due)
  {
    var slots := LoanSlots(f, checkout, due);
    EmitEmpty(slots);
    if NoLoanFilter(f, checkout, due) {
      forall i | 0 <= i < |slots| ensures slots[i].value.None? { }
    } else {
      assert slots[0].value.Some? || slots[1].value.Some? || slots[2].value.Some? || slots[3].value.Some?
          || slots[4].value.Some? || slots[5].value.Some? || slots[6].value.Some? || slots[7].value.Some?;
    }
  }

  /** Loan predicates never use LIKE, and each date bound contributes its
      own inclusive predicate exactly when it is set. */
  lemma LoanBounds(f: LoanFilter, checkout: DateRange, due: DateRange)
    ensures var conds := Emit(LoanSlots(f, checkout, due)).0;
            && (forall c :: c in conds ==> c.op != Like)
            && (Condition(CheckoutDate, AtLeast) in conds <==> checkout.min.Some?)
            && (Condition(CheckoutDate, AtMost) in conds <==> checkout.max.Some?)
            && (Condition(DueDate, AtLeast) in conds <==> due.min.Some?)
            && (Condition(DueDate, AtMost) in conds <==> due.max.Some?)
  {
    var slots := LoanSlots(f, checkout, due);
    forall c | c in Emit(slots).0 ensures c.op != Like {
      EmitContains(slots, c);
      var i :| 0 <= i < |slots| && slots[i].value.Some? && slots[i].cond == c;
      assert i in {0, 1, 2, 3, 4, 5, 6, 7};
    }
    BoundPresent(slots, 4, Condition(CheckoutDate, AtLeast));
    BoundPresent(slots, 5, Condition(CheckoutDate, AtMost));
    BoundPresent(slots, 6, Condition(DueDate, AtLeast));
    BoundPresent(slots, 7, Condition(DueDate, AtMost));
  }

  // =====================================================================
  // LoanHistory
  // =====================================================================

  const LoanHistorySelect: string :=
    Indent + "SELECT isbn, account_id, " + "checkout_date, due_date, return_date"
    + Indent + "FROM LoanHistory" + Tail

  function LoanHistoryRow(h: LoanHistory): Row
  {
    map[Isbn := Text(h.isbn), AccountId := Text(h.accountId), CheckoutDate := Num(h.checkoutDate),
        DueDate := Num(h.dueDate), ReturnDate := Num(h.returnDate)]
  }

  /** Emission order: isbn, account_id, checkout_date, due_date,
      return_date, then the checkout, due and return bounds, lower before
      upper.  Strings are always matched exactly. */
  function LoanHistorySlots(f: LoanHistoryFilter, checkout: DateRange, due: DateRange, returned: DateRange): seq<Slot>
  {
    [TextSlot(Isbn, Eq, f.isbn), TextSlot(AccountId, Eq, f.accountId),
     DateSlot(CheckoutDate, Eq, f.checkoutDate), DateSlot(DueDate, Eq, f.dueDate),
     DateSlot(ReturnDate, Eq, f.returnDate),
     DateSlot(CheckoutDate, AtLeast, checkout.min), DateSlot(CheckoutDate, AtMost, checkout.max),
     DateSlot(DueDate, AtLeast, due.min), DateSlot(DueDate, AtMost, due.max),
     DateSlot(ReturnDate, AtLeast, returned.min), DateSlot(ReturnDate, AtMost, returned.max)]
  }

  predicate LoanHistorySatisfies(h: LoanHistory, f: LoanHistoryFilter, checkout: DateRange, due: DateRange,
                                 returned: DateRange)
  {
    && (f.isbn.Some? ==> h.isbn == f.isbn.value)
    && (f.accountId.Some? ==> h.accountId == f.accountId.value)
    && (f.checkoutDate.Some? ==> h.checkoutDate == f.checkoutDate.value)
    && (f.dueDate.Some? ==> h.dueDate == f.dueDate.value)
    && (f.returnDate.Some? ==> h.returnDate == f.returnDate.value)
    && InRange(h.checkoutDate, checkout)
    && InRange(h.dueDate, due)
    && InRange(h.returnDate, returned)
  }

  predicate NoLoanHistoryFilter(f: LoanHistoryFilter, checkout: DateRange, due: DateRange, returned: DateRange)
  {
    f.isbn.None? && f.accountId.None? && f.checkoutDate.None? && f.dueDate.None? && f.returnDate.None?
    && checkout.min.None? && checkout.max.None? && due.min.None? && due.max.None?
    && returned.min.None? && returned.max.None?
  }

  /** The predicate list and parameters of `get_filtered_loan_histories`. */
  method BuildLoanHistoryFilter(f: LoanHistoryFilter, checkout: DateRange, due: DateRange, returned: DateRange)
    returns (conds: seq<Condition>, params: seq<Param>)
    ensures (conds, params) == Emit(LoanHistorySlots(f, checkout, due, returned))
  {
    ghost var done: seq<Slot> := [];
    conds, params := [], [];

    var s := TextSlot(Isbn, Eq, f.isbn);
    conds, params := AppendIfSet(conds, params, done, s);
    done := done + [s];

    s := TextSlot(AccountId, Eq, f.accountId);
    conds, params := AppendIfSet(conds, params, done, s);
    done := done + [s];

    s := DateSlot(CheckoutDate, Eq, f.checkoutDate);
    conds, params := AppendIfSet(conds, params, done, s);
    done := done + [s];

    s := DateSlot(DueDate, Eq, f.dueDate);
    conds, params := AppendIfSet(conds, params, done, s);
    done := done + [s];

    s := DateSlot(ReturnDate, Eq, f.returnDate);
    conds, params := AppendIfSet(conds, params, done, s);
    done := done + [s];

    s := DateSlot(CheckoutDate, AtLeast, checkout.min);
    conds, params := AppendIfSet(conds, params, done, s);
    done := done + [s];

    s := DateSlot(CheckoutDate, AtMost, checkout.max);
    conds, params := AppendIfSet(conds, params, done, s);
    done := done + [s];

    s := DateSlot(DueDate, AtLeast, due.min);
    conds, params := AppendIfSet(conds, params, done, s);
    done := done + [s];

    s := DateSlot(DueDate, AtMost, due.max);
    conds, params := AppendIfSet(conds, params, done, s);
    done := done + [s];

    s := DateSlot(ReturnDate, AtLeast, returned.min);
    conds, params := AppendIfSet(conds, params, done, s);
    done := done + [s];

    s := DateSlot(ReturnDate, AtMost, returned.max);
    conds, params := AppendIfSet(conds, params, done, s);
    done := done + [s];

    assert done == LoanHistorySlots(f, checkout, due, returned);
  }

  /** The WHERE clause selects exactly the archived loans the filter describes. */
  lemma LoanHistoryFilterMeaning(h: LoanHistory, f: LoanHistoryFilter, checkout: DateRange, due: DateRange,
                                 returned: DateRange, like: (string, string) -> bool)
    ensures var e := Emit(LoanHistorySlots(f, checkout, due, returned));
            MatchesAll(LoanHistoryRow(h), e.0, e.1, like) <==> LoanHistorySatisfies(h, f, checkout, due, returned)
  {
    var slots := LoanHistorySlots(f, checkout, due, returned);
    EmitMatches(LoanHistoryRow(h), slots, like);
    if LoanHistorySatisfies(h, f, checkout, due, returned) {
      forall i | 0 <= i < |slots| ensures SlotHolds(LoanHistoryRow(h), slots[i], like) { }
    } else {
      assert !SlotHolds(LoanHistoryRow(h), slots[0], like)
          || !SlotHolds(LoanHistoryRow(h), slots[1], like)
          || !SlotHolds(LoanHistoryRow(h), slots[2], like)
          || !SlotHolds(LoanHistoryRow(h), slots[3], like)
          || !SlotHolds(LoanHistoryRow(h), slots[4], like)
          || !SlotHolds(LoanHistoryRow(h), slots[5], like)
          || !SlotHolds(LoanHistoryRow(h), slots[6], like)
          || !SlotHolds(LoanHistoryRow(h), slots[7], like)
          || !SlotHolds(LoanHistoryRow(h), slots[8], like)
          || !SlotHolds(LoanHistoryRow(h), slots[9], like)
          || !SlotHolds(LoanHistoryRow(h), slots[10], like);
    }
  }

  /** No WHERE clause exactly when every field and every bound is unset. */
  lemma LoanHistoryFilterEmpty(f: LoanHistoryFilter, checkout: DateRange, due: DateRange, returned: DateRange)
    ensures Emit(LoanHistorySlots(f, checkout, due, returned)).0 == [] <==>
              NoLoanHistoryFilter(f, checkout, due, returned)
  {
    var slots := LoanHistorySlots(f, checkout, due, returned);
    EmitEmpty(slots);
    if NoLoanHistoryFilter(f, checkout, due, returned) {
      forall i | 0 <= i < |slots| ensures slots[i].value.None? { }
    } else {
      assert slots[0].value.Some? || slots[1].value.Some? || slots[2].value.Some? || slots[3].value.Some?
          || slots[4].value.Some? || slots[5].value.Some? || slots[6].value.Some? || slots[7].value.Some?
          || slots[8].value.Some? || slots[9].value.Some? || slots[10].value.Some?;
    }
  }

  /** Loan-history predicates never use LIKE, and each date bound
      contributes its own inclusive predicate exactly when it is set. */
  lemma LoanHistoryBounds(f: LoanHistoryFilter, checkout: DateRange, due: DateRange, returned: DateRange)
    ensures var conds := Emit(LoanHistorySlots(f, checkout, due, returned)).0;
            && (forall c :: c in conds ==> c.op != Like)
            && (Condition(CheckoutDate, AtLeast) in conds <==> checkout.min.Some?)
            && (Condition(CheckoutDate, AtMost) in conds <==> checkout.max.Some?)
            && (Condition(DueDate, AtLeast) in conds <==> due.min.Some?)
            && (Condition(DueDate, AtMost) in conds <==> due.max.Some?)
            && (Condition(ReturnDate, AtLeast) in conds <==> returned.min.Some?)
            && (Condition(ReturnDate, AtMost) in conds <==> returned.max.Some?)
  {
    var slots := LoanHistorySlots(f, checkout, due, returned);
    forall c | c in Emit(slots).0 ensures c.op != Like {
      EmitContains(slots, c);
      var i :| 0 <= i < |slots| && slots[i].value.Some? && slots[i].cond == c;
      assert i in {0, 1, 2, 3, 4, 5, 6, 7, 8, 9, 10};
    }
    BoundPresent(slots, 5, Condition(CheckoutDate, AtLeast));
    BoundPresent(slots, 6, Condition(CheckoutDate, AtMost));
    BoundPresent(slots, 7, Condition(DueDate, AtLeast));
    BoundPresent(slots, 8, Condition(DueDate, AtMost));
    BoundPresent(slots, 9, Condition(ReturnDate, AtLeast));
    BoundPresent(slots, 10, Condition(ReturnDate, AtMost));
  }

  // =====================================================================
  // Waitlist
  // =====================================================================

  const WaitlistSelect: string :=
    Indent + "SELECT isbn, account_id, " + "place_in_line"
    + Indent + "FROM Waitlist" + Tail

  function WaitlistRow(w: Waitlist): Row
  {
    map[Isbn := Text(w.isbn), AccountId := Text(w.accountId), PlaceInLine := Num(w.placeInLine)]
  }

  /** Emission order: isbn, account_id, place_in_line, lower and upper
      place bounds.  Strings are always matched exactly. */
  function WaitlistSlots(f: WaitlistFilter, minPlace: int, maxPlace: int): seq<Slot>
  {
    [TextSlot(Isbn, Eq, f.isbn), TextSlot(AccountId, Eq, f.accountId),
     IntSlot(PlaceInLine, Eq, f.placeInLine),
     IntSlot(PlaceInLine, AtLeast, minPlace), IntSlot(PlaceInLine, AtMost, maxPlace)]
  }

  predicate WaitlistSatisfies(w: Waitlist, f: WaitlistFilter, minPlace: int, maxPlace: int)
  {
    && (f.isbn.Some? ==> w.isbn == f.isbn.value)
    && (f.accountId.Some? ==> w.accountId == f.accountId.value)
    && (f.placeInLine != Unset ==> w.placeInLine == f.placeInLine)
    && (minPlace != Unset ==> minPlace <= w.placeInLine)
    && (maxPlace != Unset ==> w.placeInLine <= maxPlace)
  }

  predicate NoWaitlistFilter(f: WaitlistFilter, minPlace: int, maxPlace: int)
  {
    f.isbn.None? && f.accountId.None? && f.placeInLine == Unset && minPlace == Unset && maxPlace == Unset
  }

  /** The predicate list and parameters of `get_filtered_waitlist`. */
  method BuildWaitlistFilter(f: WaitlistFilter, minPlace: int, maxPlace: int)
    returns (conds: seq<Condition>, params: seq<Param>)
    ensures (conds, params) == Emit(WaitlistSlots(f, minPlace, maxPlace))
  {
    ghost var done: seq<Slot> := [];
    conds, params := [], [];

    var s := TextSlot(Isbn, Eq, f.isbn);
    conds, params := AppendIfSet(conds, params, done, s);
    done := done + [s];

    s := TextSlot(AccountId, Eq, f.accountId);
    conds, params := AppendIfSet(conds, params, done, s);
    done := done + [s];

    s := IntSlot(PlaceInLine, Eq, f.placeInLine);
    conds, params := AppendIfSet(conds, params, done, s);
    done := done + [s];

    s := IntSlot(PlaceInLine, AtLeast, minPlace);
    conds, params := AppendIfSet(conds, params, done, s);
    done := done + [s];

    s := IntSlot(PlaceInLine, AtMost, maxPlace);
    conds, params := AppendIfSet(conds, params, done, s);
    done := done + [s];

    assert done == WaitlistSlots(f, minPlace, maxPlace);
  }

  /** The WHERE clause selects exactly the queue entries the filter describes. */
  lemma WaitlistFilterMeaning(w: Waitlist, f: WaitlistFilter, minPlace: int, maxPlace: int,
                              like: (string, string) -> bool)
    ensures var e := Emit(WaitlistSlots(f, minPlace, maxPlace));
            MatchesAll(WaitlistRow(w), e.0, e.1, like) <==> WaitlistSatisfies(w, f, minPlace, maxPlace)
  {
    var slots := WaitlistSlots(f, minPlace, maxPlace);
    EmitMatches(WaitlistRow(w), slots, like);
    if WaitlistSatisfies(w, f, minPlace, maxPlace) {
      forall i | 0 <= i < |slots| ensures SlotHolds(WaitlistRow(w), slots[i], like) { }
    } else {
      assert !SlotHolds(WaitlistRow(w), slots[0], like)
          || !SlotHolds(WaitlistRow(w), slots[1], like)
          || !SlotHolds(WaitlistRow(w), slots[2], like)
          || !SlotHolds(WaitlistRow(w), slots[3], like)
          || !SlotHolds(WaitlistRow(w), slots[4], like);
    }
  }

  /** No WHERE clause exactly when every field and both bounds are unset. */
  lemma WaitlistFilterEmpty(f: WaitlistFilter, minPlace: int, maxPlace: int)
    ensures Emit(WaitlistSlots(f, minPlace, maxPlace)).0 == [] <==> NoWaitlistFilter(f, minPlace, maxPlace)
  {
    var slots := WaitlistSlots(f, minPlace, maxPlace);
    EmitEmpty(slots);
    if NoWaitlistFilter(f, minPlace, maxPlace) {
      forall i | 0 <= i < |slots| ensures slots[i].value.None? { }
    } else {
      assert slots[0].value.Some? || slots[1].value.Some? || slots[2].value.Some?
          || slots[3].value.Some? || slots[4].value.Some?;
    }
  }

  /** Waitlist predicates never use LIKE, and each place bound contributes
      its own inclusive predicate exactly when it is set. */
  lemma WaitlistBounds(f: WaitlistFilter, minPlace: int, maxPlace: int)
    ensures var conds := Emit(WaitlistSlots(f, minPlace, maxPlace)).0;
            && (forall c :: c in conds ==> c.op != Like)
            && (Condition(PlaceInLine, AtLeast) in conds <==> minPlace != Unset)
            && (Condition(PlaceInLine, AtMost) in conds <==> maxPlace != Unset)
  {
    var slots := WaitlistSlots(f, minPlace, maxPlace);
    forall c | c in Emit(slots).0 ensures c.op != Like {
      EmitContains(slots, c);
      var i :| 0 <= i < |slots| && slots[i].value.Some? && slots[i].cond == c;
      assert i in {0, 1, 2, 3, 4};
    }
    BoundPresent(slots, 3, Condition(PlaceInLine, AtLeast));
    BoundPresent(slots, 4, Condition(PlaceInLine, AtMost));
  }

  // =====================================================================
  // User edit
  // =====================================================================

  /** An UPDATE statement: its SET clauses and every bound value, the key
      of the row to change last. */
  datatype Update = Update(sets: seq<Condition>, params: seq<Param>)

  /** The statement text of lines 88-92: it binds one placeholder per SET
      clause and one for the key, as many as the statement's parameters. */
  function UpdateText(sets: seq<Condition>): (r: string)
    ensures Placeholders(r) == |sets| + 1
  {
    var head := Indent + "UPDATE User" + Indent + "SET ";
    var body := Join(RenderAll(sets), ", ");
    var key := "WHERE account_id = ?";
    NoPlaceholders(head);
    NoPlaceholders(", ");
    NoPlaceholders(Indent);
    NoPlaceholders(Tail);
    JoinBindsEach(sets, ", ");
    KeyBindsOne();
    PlaceholdersAppend(head, body);
    PlaceholdersAppend(head + body, Indent);
    PlaceholdersAppend(head + body + Indent, key);
    PlaceholdersAppend(head + body + Indent + key, Tail);
    head + body + Indent + key + Tail
  }

  /** The SET clauses of `edit_user`: one `col = ?` per field of the
      replacement record that is not `None`, in the user field order, with
      the original account id bound last; no statement when nothing is set. */
  method BuildUserUpdate(originalId: string, e: UserFilter) returns (upd: Option<Update>)
    ensures upd.None? <==> NoUserFilter(e)
    ensures upd.Some? ==>
              var em := Emit(UserSlots(e, false));
              upd.value == Update(em.0, em.1 + [Text(originalId)])
    ensures upd.Some? ==> Placeholders(UpdateText(upd.value.sets)) == |upd.value.params|
  {
    ghost var done: seq<Slot> := [];
    var setClauses: seq<Condition>, params: seq<Param> := [], [];

    var s := TextSlot(AccountId, Eq, e.accountId);
    setClauses, params := AppendIfSet(setClauses, params, done, s);
    done := done + [s];

    s := TextSlot(Name, Eq, e.name);
    setClauses, params := AppendIfSet(setClauses, params, done, s);
    done := done + [s];

    s := TextSlot(Address, Eq, e.address);
    setClauses, params := AppendIfSet(setClauses, params, done, s);
    done := done + [s];

    s := TextSlot(PhoneNumber, Eq, e.phoneNumber);
    setClauses, params := AppendIfSet(setClauses, params, done, s);
    done := done + [s];

    s := TextSlot(Email, Eq, e.email);
    setClauses, params := AppendIfSet(setClauses, params, done, s);
    done := done + [s];

    assert done == UserSlots(e, false);
    UserFilterEmpty(e, false);
    if setClauses == [] {
      return None;
    }
    params := params + [Text(originalId)];
    upd := Some(Update(setClauses, params));
  }

  lemma KeyBindsOne()
    ensures Placeholders("WHERE account_id = ?") == 1
  {
    var s := "WHERE account_id = ?";
    NoPlaceholders(s[..|s| - 1]);
  }

  /** The value a SET clause stores into a user row. */
  function Assign(u: User, c: Condition, p: Param): User
  {
    if !p.Text? then u
    else
      match c.column
      case AccountId => u.(accountId := p.text)
      case Name => u.(name := p.text)
      case Address => u.(address := p.text)
      case PhoneNumber => u.(phoneNumber := p.text)
      case Email => u.(email := p.text)
      case _ => u
  }

  /** A row after all the SET clauses of a statement. */
  function ApplySets(u: User, sets: seq<Condition>, params: seq<Param>): User
    requires |sets| == |params|
  {
    if sets == [] then u
    else Assign(ApplySets(u, sets[..|sets| - 1], params[..|params| - 1]), sets[|sets| - 1], params[|params| - 1])
  }

  lemma ApplySetsSnoc(u: User, sets: seq<Condition>, params: seq<Param>, c: Condition, p: Param)
    requires |sets| == |params|
    ensures ApplySets(u, sets + [c], params + [p]) == Assign(ApplySets(u, sets, params), c, p)
  {
    assert (sets + [c])[..|sets|] == sets;
    assert (params + [p])[..|params|] == params;
  }

  /** The edited user, read directly off the replacement record: each field
      that is set replaces the stored one, the others are kept. */
  function Overwrite(u: User, e: UserFilter): (r: User)
    ensures NoUserFilter(e) ==> r == u
  {
    User(GetOr(e.accountId, u.accountId), GetOr(e.name, u.name), GetOr(e.address, u.address),
         GetOr(e.phoneNumber, u.phoneNumber), GetOr(e.email, u.email))
  }

  /** A row after one line of the table, applied only when it is set. */
  function AssignSlot(u: User, s: Slot): User
  {
    if s.value.Some? then Assign(u, s.cond, s.value.value) else u
  }

  lemma ApplyEmitSnoc(u: User, slots: seq<Slot>, s: Slot)
    ensures var e, e' := Emit(slots), Emit(slots + [s]);
            ApplySets(u, e'.0, e'.1) == AssignSlot(ApplySets(u, e.0, e.1), s)
  {
    EmitSnoc(slots, s);
    var e := Emit(slots);
    if s.value.Some? {
      ApplySetsSnoc(u, e.0, e.1, s.cond, s.value.value);
    }
  }

  /** The SET clauses and values of an edit turn any row into its
      overwritten version. */
  lemma EditMeaning(u: User, e: UserFilter)
    ensures var em := Emit(UserSlots(e, false));
            ApplySets(u, em.0, em.1) == Overwrite(u, e)
  {
    var s := UserSlots(e, false);
    assert s[..0] == [] && s[..1] == s[..0] + [s[0]] && s[..2] == s[..1] + [s[1]];
    assert s[..3] == s[..2] + [s[2]] && s[..4] == s[..3] + [s[3]] && s == s[..4] + [s[4]];
    var u1 := AssignSlot(u, s[0]);
    assert u1 == u.(accountId := GetOr(e.accountId, u.accountId));
    var u2 := AssignSlot(u1, s[1]);
    assert u2 == u1.(name := GetOr(e.name, u.name));
    var u3 := AssignSlot(u2, s[2]);
    assert u3 == u2.(address := GetOr(e.address, u.address));
    var u4 := AssignSlot(u3, s[3]);
    assert u4 == u3.(phoneNumber := GetOr(e.phoneNumber, u.phoneNumber));
    var u5 := AssignSlot(u4, s[4]);
    assert u5 == u4.(email := GetOr(e.email, u.email));
    assert ApplySets(u, Emit(s[..1]).0, Emit(s[..1]).1) == u1 by { ApplyEmitSnoc(u, s[..0], s[0]); }
    assert ApplySets(u, Emit(s[..2]).0, Emit(s[..2]).1) == u2 by { ApplyEmitSnoc(u, s[..1], s[1]); }
    assert ApplySets(u, Emit(s[..3]).0, Emit(s[..3]).1) == u3 by { ApplyEmitSnoc(u, s[..2], s[2]); }
    assert ApplySets(u, Emit(s[..4]).0, Emit(s[..4]).1) == u4 by { ApplyEmitSnoc(u, s[..3], s[3]); }
    assert ApplySets(u, Emit(s).0, Emit(s).1) == u5 by { ApplyEmitSnoc(u, s[..4], s[4]); }
  }

  // =====================================================================
  // Shared
  // =====================================================================

  /** A bound that is line `k` of a table, with a predicate no other line
      has, is emitted exactly when it is set. */
  lemma BoundPresent(slots: seq<Slot>, k: nat, c: Condition)
    requires k < |slots| && slots[k].cond == c
    requires forall i :: 0 <= i < |slots| && i != k ==> slots[i].cond != c
    ensures c in Emit(slots).0 <==> slots[k].value.Some?
  {
    EmitContains(slots, c);
  }

  /** Every bare SELECT of the five queries is free of placeholders, so a
      query binds exactly one value per predicate. */
  lemma BookSelectUnbound()
    ensures Placeholders(BookSelect) == 0
  {
    NoPlaceholders(BookSelect);
  }

  lemma UserSelectUnbound()
    ensures Placeholders(UserSelect) == 0
  {
    NoPlaceholders(UserSelect);
  }

  lemma LoanSelectUnbound()
    ensures Placeholders(LoanSelect) == 0
  {
    NoPlaceholders(LoanSelect);
  }

  lemma LoanHistorySelectUnbound()
    ensures Placeholders(LoanHistorySelect) == 0
  {
    NoPlaceholders(LoanHistorySelect);
  }

  lemma WaitlistSelectUnbound()
    ensures Placeholders(WaitlistSelect) == 0
  {
    NoPlaceholders(WaitlistSelect);
  }
}
