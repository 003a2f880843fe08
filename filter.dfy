/** `filter_db`: narrows a table by equality on isoform, mutant and signed
    selectivity, skipping every parameter that is `None` or empty. */
module Filter {
  import opened Wrappers
  import opened Seqs
  import opened Records

  /** The sign the filter appends to a requested ion: only exactly "Cl" is negative. */
  function FilterSign(ion: string): (c: char)
    ensures c == '-' || c == '+'
    ensures c == '-' <==> ion == "Cl"
  {
    if "Cl" == ion then '-' else '+'
  }

  /** The mask `df[col] == v` as a predicate on rows. */
  function CellIs<K>(col: Column, v: Text): Row<K> -> bool
  {
    r => Cell(r, col) == v
  }

  /** `df[df[col] == v]`: the rows whose cell in `col` equals `v`, in order. */
  function Narrow<K>(rows: seq<Row<K>>, col: Column, v: Text): seq<Row<K>>
  {
    Keep(rows, CellIs(col, v))
  }

  /** A row passes every parameter that is given; a missing or empty one imposes nothing. */
  predicate Matches<K>(r: Row<K>, isoform: Text, mutant: Text, selectivity: Text)
  {
    && (Truthy(isoform) ==> r.isoform == isoform)
    && (Truthy(mutant) ==> r.mutant == mutant)
    && (Truthy(selectivity) ==> r.selectivity == Some(selectivity.value + [FilterSign(selectivity.value)]))
  }

  function MatchFn<K>(isoform: Text, mutant: Text, selectivity: Text): Row<K> -> bool
  {
    r => Matches(r, isoform, mutant, selectivity)
  }

  /** Reference definition of the filter: one pass keeping the rows that match every
      given parameter. */
  function Selected<K>(rows: seq<Row<K>>, isoform: Text, mutant: Text, selectivity: Text): seq<Row<K>>
  {
    Keep(rows, MatchFn(isoform, mutant, selectivity))
  }

  /** Adding one more narrowing to a filter stage that already holds. */
  lemma {:induction false} NarrowStage<K>(rows: seq<Row<K>>, before: Row<K> -> bool, col: Column, v: Text, after: Row<K> -> bool)
    requires forall i :: 0 <= i < |rows| ==> after(rows[i]) == (before(rows[i]) && Cell(rows[i], col) == v)
    ensures Narrow(Keep(rows, before), col, v) == Keep(rows, after)
  {
    KeepKeep(rows, before, CellIs(col, v), after);
  }

  /** A parameter that is not given leaves the filter stage as it was. */
  lemma {:induction false} SkipStage<K>(rows: seq<Row<K>>, before: Row<K> -> bool, after: Row<K> -> bool)
    requires forall i :: 0 <= i < |rows| ==> after(rows[i]) == before(rows[i])
    ensures Keep(rows, before) == Keep(rows, after)
  {
    KeepExt(rows, before, after);
  }

  /** `filter_db`: successive narrowings by isoform, then mutant, then signed
      selectivity, equal to the one-pass reference filter. */
  method FilterDb<K>(df: seq<Row<K>>, isoform: Text, mutant: Text, selectivity: Text)
    returns (out: seq<Row<K>>)
    ensures out == Selected(df, isoform, mutant, selectivity)
  {
    ghost var none: Text := None;
    out := df;
    KeepAll(df, MatchFn(none, none, none));
    if Truthy(isoform) {
      NarrowStage(df, MatchFn(none, none, none), IsoformCol, isoform, MatchFn(isoform, none, none));
      out := Narrow(out, IsoformCol, isoform);
    } else {
      SkipStage(df, MatchFn(none, none, none), MatchFn(isoform, none, none));
    }
    if Truthy(mutant) {
      NarrowStage(df, MatchFn(isoform, none, none), MutantCol, mutant, MatchFn(isoform, mutant, none));
      out := Narrow(out, MutantCol, mutant);
    } else {
      SkipStage(df, MatchFn(isoform, none, none), MatchFn(isoform, mutant, none));
    }
    if Truthy(selectivity) {
      var sign := if "Cl" == selectivity.value then '-' else '+';
      var signed := Some(selectivity.value + [sign]);
      NarrowStage(df, MatchFn(isoform, mutant, none), SelectivityCol, signed, MatchFn(isoform, mutant, selectivity));
      out := Narrow(out, SelectivityCol, signed);
    } else {
      SkipStage(df, MatchFn(isoform, mutant, none), MatchFn(isoform, mutant, selectivity));
    }
  }

  /** The filter keeps rows in their original order: its result is a subsequence of its input. */
  lemma {:induction false} FilterIsSubsequence<K>(rows: seq<Row<K>>, isoform: Text, mutant: Text, selectivity: Text)
    ensures IsSubsequence(Selected(rows, isoform, mutant, selectivity), rows)
  {
    KeepIsSubsequence(rows, MatchFn(isoform, mutant, selectivity));
  }

  /** Every kept row equals each given parameter on its column (selectivity with the
      filter's sign), and every input row that does so is kept. */
  lemma {:induction false} FilterMembers<K>(rows: seq<Row<K>>, isoform: Text, mutant: Text, selectivity: Text, r: Row<K>)
    ensures r in Selected(rows, isoform, mutant, selectivity) <==>
      && r in rows
      && (Truthy(isoform) ==> r.isoform == isoform)
      && (Truthy(mutant) ==> r.mutant == mutant)
      && (Truthy(selectivity) ==> r.selectivity == Some(selectivity.value + [if selectivity.value == "Cl" then '-' else '+']))
  {
    KeepMembers(rows, MatchFn(isoform, mutant, selectivity), r);
  }

  /** With every parameter missing or empty the filter returns its input unchanged. */
  lemma {:induction false} FilterNoParams<K>(rows: seq<Row<K>>, isoform: Text, mutant: Text, selectivity: Text)
    requires !Truthy(isoform) && !Truthy(mutant) && !Truthy(selectivity)
    ensures Selected(rows, isoform, mutant, selectivity) == rows
  {
    KeepAll(rows, MatchFn(isoform, mutant, selectivity));
  }

  /** Filtering twice with the same parameters is filtering once. */
  lemma {:induction false} FilterIdempotent<K>(rows: seq<Row<K>>, isoform: Text, mutant: Text, selectivity: Text)
    ensures Selected(Selected(rows, isoform, mutant, selectivity), isoform, mutant, selectivity)
         == Selected(rows, isoform, mutant, selectivity)
  {
    var m := MatchFn(isoform, mutant, selectivity);
    KeepKeep(rows, m, m, m);
  }

  /** Filtering a table with one row appended filters the table, then the row. */
  lemma {:induction false} FilterAppend<K>(rows: seq<Row<K>>, r: Row<K>, isoform: Text, mutant: Text, selectivity: Text)
    ensures Selected(rows + [r], isoform, mutant, selectivity)
         == Selected(rows, isoform, mutant, selectivity)
            + (if Matches(r, isoform, mutant, selectivity) then [r] else [])
  {
    KeepAppend(rows, [r], MatchFn(isoform, mutant, selectivity));
  }

  /** A one-row table with a "Kv 1.1" wild-type potassium row: filtering by its isoform
      or by its ion finds it, filtering by another isoform finds nothing. */
  lemma {:induction false} FilterScenario<K>(r: Row<K>)
    requires r.isoform == Some("Kv 1.1") && r.mutant == Some("WT") && r.selectivity == Some("K+")
    ensures Selected([r], Some("Kv 1.1"), None, None) == [r]
    ensures Selected([r], Some("Kv 9.9"), None, None) == []
    ensures Selected([r], None, Some("WT"), Some("K")) == [r]
    ensures Selected([r], None, None, Some("Cl")) == []
  {
    assert [r][1..] == [];
    assert "K" + ['+'] == "K+";
  }
}
