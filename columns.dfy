/** Column lists: the statistics table's column order (`get_stats`) and the
    histogram selector's options. */
module Columns {
  import opened Wrappers
  import opened Seqs
  import opened Records

  /** The columns the histogram selector leaves out. */
  const CategoricalColumns: seq<string> := ["selectivity", "isoform", "mutant", "new_residue", "source"]

  function NotCategorical(): string -> bool
  {
    c => c !in CategoricalColumns
  }

  /** The backup's columns other than the categorical ones, in order. */
  function HistColumns(columns: seq<string>): (r: seq<string>)
    ensures |r| <= |columns|
    ensures forall i :: 0 <= i < |r| ==> r[i] !in CategoricalColumns
  {
    KeepSound(columns, NotCategorical());
    Keep(columns, NotCategorical())
  }

  /** One option per value, labelled by the value itself. */
  function OptionsFor(values: seq<string>): (r: seq<DropdownOption>)
    ensures |r| == |values|
    ensures forall i :: 0 <= i < |r| ==> r[i].display == values[i] && r[i].value == values[i]
  {
    seq(|values|, i requires 0 <= i < |values| => DropdownOption(values[i], values[i]))
  }

  /** The histogram selector's options for a table with header `columns`. */
  function HistOptions(columns: seq<string>): (r: seq<DropdownOption>)
    ensures |r| == |HistColumns(columns)|
    ensures forall i :: 0 <= i < |r| ==> r[i].display == r[i].value && r[i].value !in CategoricalColumns
  {
    OptionsFor(HistColumns(columns))
  }

  /** The histogram columns are exactly the non-categorical header columns, in header
      order, and each option is labelled by its value. */
  lemma {:induction false} HistOptionsSpec(columns: seq<string>)
    ensures IsSubsequence(HistColumns(columns), columns)
    ensures forall c :: c in HistColumns(columns) <==> c in columns && c !in CategoricalColumns
    ensures |HistOptions(columns)| == |HistColumns(columns)|
    ensures forall i :: 0 <= i < |HistOptions(columns)| ==>
      HistOptions(columns)[i].display == HistOptions(columns)[i].value == HistColumns(columns)[i]
  {
    KeepIsSubsequence(columns, NotCategorical());
    forall c
      ensures c in HistColumns(columns) <==> c in columns && c !in CategoricalColumns
    {
      KeepMembers(columns, NotCategorical(), c);
    }
  }

  /** `[cols[-1]] + cols[:-1]`: the last column moved to the front. */
  function RotateLastToFront<T>(cols: seq<T>): (r: seq<T>)
    requires |cols| > 0
    ensures |r| == |cols| && r[0] == cols[|cols| - 1]
    ensures forall i :: 0 < i < |r| ==> r[i] == cols[i - 1]
  {
    [cols[|cols| - 1]] + cols[..|cols| - 1]
  }

  /** The rotation only reorders: the same columns, each as often as before. */
  lemma {:induction false} RotatePermutes<T>(cols: seq<T>)
    requires |cols| > 0
    ensures |RotateLastToFront(cols)| == |cols|
    ensures multiset(RotateLastToFront(cols)) == multiset(cols)
    ensures RotateLastToFront(cols)[0] == cols[|cols| - 1]
    ensures RotateLastToFront(cols)[1..] == cols[..|cols| - 1]
  {
    assert cols == cols[..|cols| - 1] + [cols[|cols| - 1]];
  }

  /** The statistics table's columns for the selected variables: `describe()` keeps
      the selection (and raises on an empty one), the assignment to 'stats' appends that
      column unless it already exists, and the rotation moves the last column first. */
  function StatsColumns(selected: seq<string>): (r: Option<seq<string>>)
    ensures r.None? <==> selected == []
    ensures r.Some? && "stats" !in selected ==> r.value == ["stats"] + selected
    ensures r.Some? && "stats" in selected ==> r.value == RotateLastToFront(selected)
    ensures r.Some? ==> multiset(r.value) == multiset(if "stats" in selected then selected else selected + ["stats"])
  {
    if selected == [] then None
    else
      var cols := if "stats" in selected then selected else selected + ["stats"];
      RotatePermutes(cols);
      Some(RotateLastToFront(cols))
  }
}
