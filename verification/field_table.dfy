/** The common shape of every dynamic statement builder of the data-access
    layer: a fixed table of fields, each of which contributes one predicate
    `column op ?` and the one value bound to it when it is set, and nothing
    when it is unset.  `Emit` reads such a table; the lemmas here say what
    any table produces, so that each entity's builder only has to name its
    table. */
module FieldTable {
  import opened Records
  import opened Sql

  /** One line of a field table: the predicate a field contributes and the
      value bound to it, or `None` when the field is unset. */
  datatype Slot = Slot(cond: Condition, value: Option<Param>)

  /** String fields are matched with LIKE in pattern mode, with `=` otherwise. */
  function TextOp(usePatterns: bool): Op
  {
    if usePatterns then Like else Eq
  }

  /** A string field: unset when `None`. */
  function TextSlot(col: Column, op: Op, v: Option<string>): Slot
  {
    Slot(Condition(col, op), if v.Some? then Some(Text(v.value)) else None)
  }

  /** An integer field or bound: unset when it holds the sentinel -1. */
  function IntSlot(col: Column, op: Op, v: int): Slot
  {
    Slot(Condition(col, op), if v == Unset then None else Some(Num(v)))
  }

  /** A date field or bound: unset when `None`. */
  function DateSlot(col: Column, op: Op, v: Option<int>): Slot
  {
    Slot(Condition(col, op), if v.Some? then Some(Num(v.value)) else None)
  }

  /** The predicates and parameters a field table produces, in table order. */
  function Emit(slots: seq<Slot>): (r: (seq<Condition>, seq<Param>))
    ensures |r.0| == |r.1| <= |slots|
  {
    if slots == [] then ([], [])
    else
      var prev := Emit(slots[..|slots| - 1]);
      var last := slots[|slots| - 1];
      if last.value.Some? then (prev.0 + [last.cond], prev.1 + [last.value.value])
      else prev
  }

  /** A table emits nothing exactly when every one of its fields is unset. */
  lemma {:induction false} EmitEmpty(slots: seq<Slot>)
    ensures Emit(slots).0 == [] <==> forall i :: 0 <= i < |slots| ==> slots[i].value.None?
  {
    if slots != [] {
      var init := slots[..|slots| - 1];
      EmitEmpty(init);
      assert forall i :: 0 <= i < |init| ==> init[i] == slots[i];
    }
  }

  /** Appending one line to a table appends its predicate and value when
      the field is set, and nothing otherwise. */
  lemma EmitSnoc(slots: seq<Slot>, s: Slot)
    ensures var prev := Emit(slots);
            Emit(slots + [s]) ==
              if s.value.Some? then (prev.0 + [s.cond], prev.1 + [s.value.value]) else prev
  {
    assert (slots + [s])[..|slots|] == slots;
  }

  /** One guarded block of a builder: when the field is set, append its
      predicate and its value; otherwise leave both lists alone.  `done`
      is the part of the table already read. */
  method AppendIfSet(conds: seq<Condition>, params: seq<Param>, ghost done: seq<Slot>, s: Slot)
    returns (conds': seq<Condition>, params': seq<Param>)
    requires (conds, params) == Emit(done)
    ensures (conds', params') == Emit(done + [s])
  {
    conds', params' := conds, params;
    if s.value.Some? {
      conds' := conds + [s.cond];
      params' := params + [s.value.value];
    }
    EmitSnoc(done, s);
  }

  /** A set field's predicate holds of the row; an unset field asks nothing. */
  predicate SlotHolds(row: Row, s: Slot, like: (string, string) -> bool)
  {
    s.value.Some? ==> Holds(row, s.cond, s.value.value, like)
  }

  lemma MatchesAllAppend(row: Row, conds: seq<Condition>, params: seq<Param>, c: Condition, p: Param,
                         like: (string, string) -> bool)
    requires |conds| == |params|
    ensures MatchesAll(row, conds + [c], params + [p], like) <==>
              MatchesAll(row, conds, params, like) && Holds(row, c, p, like)
  {
    var cs, ps := conds + [c], params + [p];
    assert cs[|conds|] == c && ps[|conds|] == p;
    assert forall i :: 0 <= i < |conds| ==> cs[i] == conds[i] && ps[i] == params[i];
  }

  /** The WHERE clause built from a field table selects exactly the rows
      that satisfy every set field's predicate, each with its own value. */
  lemma {:induction false} EmitMatches(row: Row, slots: seq<Slot>, like: (string, string) -> bool)
    ensures var e := Emit(slots);
            MatchesAll(row, e.0, e.1, like) <==>
              forall i :: 0 <= i < |slots| ==> SlotHolds(row, slots[i], like)
  {
    if slots != [] {
      var n := |slots| - 1;
      var init := slots[..n];
      EmitMatches(row, init, like);
      var prev := Emit(init);
      if slots[n].value.Some? {
        MatchesAllAppend(row, prev.0, prev.1, slots[n].cond, slots[n].value.value, like);
      }
      assert forall i :: 0 <= i < n ==> init[i] == slots[i];
    }
  }

  /** A predicate appears in the output exactly when some set field of the
      table contributes it. */
  lemma {:induction false} EmitContains(slots: seq<Slot>, c: Condition)
    ensures c in Emit(slots).0 <==>
              exists i :: 0 <= i < |slots| && slots[i].value.Some? && slots[i].cond == c
  {
    if slots != [] {
      var init := slots[..|slots| - 1];
      EmitContains(init, c);
      assert forall i :: 0 <= i < |init| ==> init[i] == slots[i];
      if exists i :: 0 <= i < |slots| && slots[i].value.Some? && slots[i].cond == c {
        var i :| 0 <= i < |slots| && slots[i].value.Some? && slots[i].cond == c;
        if i < |init| {
          assert init[i] == slots[i];
        }
      }
    }
  }

  /** The bound values depend only on the fields' values, not on the
      predicates chosen for them. */
  lemma {:induction false} EmitParamsIgnoreOps(a: seq<Slot>, b: seq<Slot>)
    requires |a| == |b|
    requires forall i :: 0 <= i < |a| ==> a[i].value == b[i].value
    ensures Emit(a).1 == Emit(b).1
  {
    if a != [] {
      EmitParamsIgnoreOps(a[..|a| - 1], b[..|b| - 1]);
    }
  }

  /** A string predicate: pattern match in pattern mode, exact otherwise. */
  predicate TextMatches(v: string, pattern: string, usePatterns: bool, like: (string, string) -> bool)
  {
    if usePatterns then like(v, pattern) else v == pattern
  }

  /** `v` lies within both inclusive bounds, each ignored when unset. */
  predicate InRange(v: int, r: DateRange)
  {
    (r.min.Some? ==> r.min.value <= v) && (r.max.Some? ==> v <= r.max.value)
  }
}
