/** The pieces of a parameterized SQL statement that the query builders
    produce: predicates of the form `column op ?`, the values bound to the
    placeholders, the statement text, and what a WHERE clause selects. */
module Sql {
  import opened Records

  /** Every column of the five tables. */
  datatype Column =
    | Isbn | Title | Author | PublicationYear | Publisher | NumOwned
    | AccountId | Name | Address | PhoneNumber | Email
    | CheckoutDate | DueDate | ReturnDate | PlaceInLine

  function ColumnName(c: Column): string
  {
    match c
    case Isbn => "isbn"
    case Title => "title"
    case Author => "author"
    case PublicationYear => "publication_year"
    case Publisher => "publisher"
    case NumOwned => "num_owned"
    case AccountId => "account_id"
    case Name => "name"
    case Address => "address"
    case PhoneNumber => "phone_number"
    case Email => "email"
    case CheckoutDate => "checkout_date"
    case DueDate => "due_date"
    case ReturnDate => "return_date"
    case PlaceInLine => "place_in_line"
  }

  /** Exact match, pattern match, inclusive lower bound, inclusive upper bound. */
  datatype Op = Eq | Like | AtLeast | AtMost

  function OpText(op: Op): string
  {
    match op
    case Eq => "="
    case Like => "LIKE"
    case AtLeast => ">="
    case AtMost => "<="
  }

  /** A predicate `column op ?` (also a SET clause `column = ?` when `op` is `Eq`). */
  datatype Condition = Condition(column: Column, op: Op)

  /** A positionally bound value. */
  datatype Param = Text(text: string) | Num(num: int)

  function Render(c: Condition): string
  {
    ColumnName(c.column) + " " + OpText(c.op) + " ?"
  }

  function RenderAll(conds: seq<Condition>): (r: seq<string>)
    ensures |r| == |conds|
  {
    if conds == [] then [] else [Render(conds[0])] + RenderAll(conds[1..])
  }

  /** The parts separated by `sep`, as Python's `sep.join(parts)`. */
  function Join(parts: seq<string>, sep: string): string
  {
    if parts == [] then ""
    else if |parts| == 1 then parts[0]
    else parts[0] + sep + Join(parts[1..], sep)
  }

  /** The query with its predicates ANDed into a WHERE clause; with no
      predicates the query is left as it is and selects every row. */
  function WithWhere(select: string, conds: seq<Condition>): (r: string)
    ensures |select| <= |r| && r[..|select|] == select
    ensures r == select <==> conds == []
  {
    if conds == [] then select
    else select + " WHERE " + Join(RenderAll(conds), " AND ")
  }

  // ----- Placeholders -----

  /** The number of `?` placeholders in a statement text. */
  function Placeholders(s: string): nat
  {
    if s == [] then 0
    else Placeholders(s[..|s| - 1]) + (if s[|s| - 1] == '?' then 1 else 0)
  }

  lemma {:induction false} PlaceholdersAppend(a: string, b: string)
    ensures Placeholders(a + b) == Placeholders(a) + Placeholders(b)
    decreases |b|
  {
    if b == [] {
      assert a + b == a;
    } else {
      assert (a + b)[..|a + b| - 1] == a + b[..|b| - 1];
      PlaceholdersAppend(a, b[..|b| - 1]);
    }
  }

  lemma {:induction false} NoPlaceholders(s: string)
    requires '?' !in s
    ensures Placeholders(s) == 0
    decreases |s|
  {
    if s != [] {
      assert s[..|s| - 1] + [s[|s| - 1]] == s;
      NoPlaceholders(s[..|s| - 1]);
    }
  }

  lemma NameUnbound(c: Condition)
    ensures '?' !in ColumnName(c.column) && '?' !in OpText(c.op)
  {
    match c.column
    case Isbn => case Title => case Author => case PublicationYear => case Publisher =>
    case NumOwned => case AccountId => case Name => case Address => case PhoneNumber =>
    case Email => case CheckoutDate => case DueDate => case ReturnDate => case PlaceInLine =>
  }

  /** Each rendered predicate carries exactly one placeholder. */
  lemma RenderBindsOne(c: Condition)
    ensures Placeholders(Render(c)) == 1
  {
    var head := ColumnName(c.column) + " " + OpText(c.op);
    NameUnbound(c);
    NoPlaceholders(head);
    assert " ?"[..1] == " " && " "[..0] == [];
    PlaceholdersAppend(head, " ?");
  }

  /** Joining rendered predicates with a separator free of placeholders
      leaves one placeholder per predicate. */
  lemma {:induction false} JoinBindsEach(conds: seq<Condition>, sep: string)
    requires Placeholders(sep) == 0
    ensures Placeholders(Join(RenderAll(conds), sep)) == |conds|
  {
    if conds == [] {
    } else if |conds| == 1 {
      RenderBindsOne(conds[0]);
    } else {
      var rest := RenderAll(conds[1..]);
      assert RenderAll(conds)[1..] == rest;
      RenderBindsOne(conds[0]);
      JoinBindsEach(conds[1..], sep);
      PlaceholdersAppend(Render(conds[0]), sep);
      PlaceholdersAppend(Render(conds[0]) + sep, Join(rest, sep));
    }
  }

  /** A query with a WHERE clause has exactly one placeholder per predicate
      beyond those of the bare query. */
  lemma WhereBindsEach(select: string, conds: seq<Condition>)
    ensures Placeholders(WithWhere(select, conds)) == Placeholders(select) + |conds|
  {
    if conds != [] {
      NoPlaceholders(" AND ");
      NoPlaceholders(" WHERE ");
      JoinBindsEach(conds, " AND ");
      PlaceholdersAppend(select, " WHERE ");
      PlaceholdersAppend(select + " WHERE ", Join(RenderAll(conds), " AND "));
    }
  }

  // ----- What a WHERE clause selects -----

  /** A row as the database sees it: the value of each of its columns. */
  type Row = map<Column, Param>

  /** Whether a stored value satisfies `op` against the bound parameter.
      `like(value, pattern)` stands for SQL's LIKE. */
  predicate Compare(v: Param, op: Op, p: Param, like: (string, string) -> bool)
  {
    match op
    case Eq => v == p
    case Like => v.Text? && p.Text? && like(v.text, p.text)
    case AtLeast => v.Num? && p.Num? && v.num >= p.num
    case AtMost => v.Num? && p.Num? && v.num <= p.num
  }

  predicate Holds(row: Row, c: Condition, p: Param, like: (string, string) -> bool)
  {
    c.column in row && Compare(row[c.column], c.op, p, like)
  }

  /** The WHERE clause `conds[0] AND conds[1] AND ...` with `params` bound
      position by position; the empty clause selects every row. */
  predicate MatchesAll(row: Row, conds: seq<Condition>, params: seq<Param>,
                       like: (string, string) -> bool)
    requires |conds| == |params|
  {
    forall i :: 0 <= i < |conds| ==> Holds(row, conds[i], params[i], like)
  }
}
