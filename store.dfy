/** The persisted store (a live table and its read-only backup) and the callbacks
    that read and write it: `restore_db`, `clear_db`, `update_db`, the submit
    callback and the consultation callbacks. */
module Store {
  import opened Wrappers
  import opened Seqs
  import opened Strings
  import opened Records
  import opened Filter
  import opened Columns

  /** The sign the insert path appends: '-' when "cl" occurs in the lower-cased ion. */
  function InsertSign(ion: string): (c: char)
    ensures c == '-' || c == '+'
    ensures c == '-' <==>
      exists i :: 0 <= i < |ion| - 1 && LowerChar(ion[i]) == 'c' && LowerChar(ion[i + 1]) == 'l'
  {
    ChlorideMark(ion);
    if Contains(Lower(ion), "cl") then '-' else '+'
  }

  /** "cl" occurs in the lower-cased ion exactly when some 'c' is directly followed by an
      'l', ignoring case. */
  lemma {:induction false} ChlorideMark(ion: string)
    ensures Contains(Lower(ion), "cl") <==>
      exists i :: 0 <= i < |ion| - 1 && LowerChar(ion[i]) == 'c' && LowerChar(ion[i + 1]) == 'l'
  {
    var low := Lower(ion);
    ContainsIff(low, "cl");
    if Contains(low, "cl") {
      var i :| OccursAt(low, "cl", i);
      assert low[i] == low[i..i + 2][0] && low[i + 1] == low[i..i + 2][1];
    } else {
      forall i | 0 <= i < |ion| - 1
        ensures !(LowerChar(ion[i]) == 'c' && LowerChar(ion[i + 1]) == 'l')
      {
        assert low[i..i + 2] == [low[i], low[i + 1]];
        assert !OccursAt(low, "cl", i);
      }
    }
  }

  /** The row `update_db` appends for the ion `ion` and the form's other values. */
  function NewRow<K>(ion: string, f: Form<K>): (r: Row<K>)
    ensures r.selectivity.Some? && |r.selectivity.value| == |ion| + 1
    ensures r.selectivity.value[..|ion|] == ion
  {
    Row(Some(ion + [InsertSign(ion)]), f.isoform, f.mutant, f.newResidue,
        f.actV50, f.actTime, f.inactV50, f.inactTime, f.actZ, f.inactZ, f.source)
  }

  /** Python truthiness of the click counter. */
  predicate Clicked(nClicks: Option<nat>)
  {
    nClicks.Some? && nClicks.value != 0
  }

  /** The submit callback inserts a row: the button was clicked, the source is given and is not
      the "secret" sentinel, and an ion is selected (otherwise `.lower()` raises). */
  predicate Inserts<K>(nClicks: Option<nat>, f: Form<K>)
  {
    Clicked(nClicks) && Truthy(f.source) && f.source.value != "secret" && f.selectivity.Some?
  }

  /** The live table after the submit callback. */
  function AfterSubmit<K>(backup: seq<Row<K>>, nClicks: Option<nat>, f: Form<K>): (r: seq<Row<K>>)
    ensures |backup| <= |r| <= |backup| + 1
    ensures r[..|backup|] == backup
  {
    if Inserts(nClicks, f) then backup + [NewRow(f.selectivity.value, f)] else backup
  }

  /** What the submit callback renders. */
  datatype View<K> =
    | Nothing                      // the callback returns None
    | Table(rows: seq<Row<K>>)     // an HTML table of these rows
    | Raised                       // the callback raised (no ion selected on insert)

  function SubmitView<K>(backup: seq<Row<K>>, nClicks: Option<nat>, f: Form<K>): (v: View<K>)
    ensures v.Nothing? <==> !Clicked(nClicks)
    ensures v.Raised? <==> Clicked(nClicks) && Truthy(f.source) && f.source.value != "secret" && f.selectivity.None?
  {
    if !Clicked(nClicks) then Nothing
    else if !Truthy(f.source) || f.source.value == "secret" then Table(backup)
    else if f.selectivity.None? then Raised
    else Table(backup + [NewRow(f.selectivity.value, f)])
  }

  /** After a submit the live table is the backup, or the backup with exactly one row
      appended: inserts never accumulate. */
  lemma {:induction false} SubmitNeverAccumulates<K>(backup: seq<Row<K>>, nClicks: Option<nat>, f: Form<K>)
    ensures AfterSubmit(backup, nClicks, f) == backup <==> !Inserts(nClicks, f)
    ensures Inserts(nClicks, f) ==>
      && |AfterSubmit(backup, nClicks, f)| == |backup| + 1
      && AfterSubmit(backup, nClicks, f)[..|backup|] == backup
      && AfterSubmit(backup, nClicks, f)[|backup|] == NewRow(f.selectivity.value, f)
  {
  }

  /** A rendered table is always the live table the submit left behind; nothing is rendered
      exactly when the button was not clicked, and a raised insert leaves the backup. */
  lemma {:induction false} SubmitShowsLiveTable<K>(backup: seq<Row<K>>, nClicks: Option<nat>, f: Form<K>)
    ensures SubmitView(backup, nClicks, f).Table? ==> SubmitView(backup, nClicks, f).rows == AfterSubmit(backup, nClicks, f)
    ensures SubmitView(backup, nClicks, f).Nothing? <==> !Clicked(nClicks)
    ensures SubmitView(backup, nClicks, f).Raised? ==> AfterSubmit(backup, nClicks, f) == backup
    ensures Clicked(nClicks) && f.source == Some("secret") ==> SubmitView(backup, nClicks, f) == Table(backup)
  {
  }

  /** The appended row copies the form's values; its selectivity is the ion followed by
      '-' exactly when the lower-cased ion has a 'c' directly followed by an 'l'. */
  lemma {:induction false} NewRowSpec<K>(ion: string, f: Form<K>)
    ensures NewRow(ion, f).selectivity.Some?
    ensures |NewRow(ion, f).selectivity.value| == |ion| + 1
    ensures NewRow(ion, f).selectivity.value[..|ion|] == ion
    ensures NewRow(ion, f).selectivity.value[|ion|] == '-' <==>
      exists i :: 0 <= i < |ion| - 1 && LowerChar(ion[i]) == 'c' && LowerChar(ion[i + 1]) == 'l'
    ensures NewRow(ion, f).selectivity.value[|ion|] != '-' ==> NewRow(ion, f).selectivity.value[|ion|] == '+'
    ensures NewRow(ion, f).isoform == f.isoform && NewRow(ion, f).mutant == f.mutant
    ensures NewRow(ion, f).newResidue == f.newResidue && NewRow(ion, f).source == f.source
    ensures NewRow(ion, f).actV50 == f.actV50 && NewRow(ion, f).actTime == f.actTime && NewRow(ion, f).actZ == f.actZ
    ensures NewRow(ion, f).inactV50 == f.inactV50 && NewRow(ion, f).inactTime == f.inactTime
    ensures NewRow(ion, f).inactZ == f.inactZ
  {
  }

  /** The filter's chloride test is narrower than the insert path's: whatever the filter
      signs '-' the insert path signs '-' too. */
  lemma {:induction false} FilterChlorideIsInsertChloride(ion: string)
    ensures FilterSign(ion) == '-' ==> InsertSign(ion) == '-'
  {
  }

  /** On the four ions the selectivity dropdown offers, the two sign rules agree. */
  lemma {:induction false} SignRulesAgreeOnDropdownIons()
    ensures InsertSign("K") == FilterSign("K") == '+'
    ensures InsertSign("Na") == FilterSign("Na") == '+'
    ensures InsertSign("Ca") == FilterSign("Ca") == '+'
    ensures InsertSign("Cl") == FilterSign("Cl") == '-'
  {
  }

  /** The two sign rules disagree on "CL" and "cl": stored as "CL-" and "cl-", filtered
      as "CL+" and "cl+". */
  lemma {:induction false} SignRulesDisagree()
    ensures InsertSign("CL") == '-' && FilterSign("CL") == '+'
    ensures InsertSign("cl") == '-' && FilterSign("cl") == '+'
  {
  }

  /** Consulting after an insert shows what it showed on the backup, followed by the new
      row exactly when the two sign rules agree on its ion. */
  lemma {:induction false} InsertThenConsult<K>(backup: seq<Row<K>>, nClicks: Option<nat>, f: Form<K>)
    requires Inserts(nClicks, f)
    ensures Selected(AfterSubmit(backup, nClicks, f), f.isoform, f.mutant, f.selectivity)
         == Selected(backup, f.isoform, f.mutant, f.selectivity)
            + (if InsertSign(f.selectivity.value) == FilterSign(f.selectivity.value)
               then [NewRow(f.selectivity.value, f)] else [])
  {
    var ion := f.selectivity.value;
    var row := NewRow(ion, f);
    FilterAppend(backup, row, f.isoform, f.mutant, f.selectivity);
    if ion == "" {
      assert InsertSign(ion) == FilterSign(ion) by {
        assert Lower(ion) == "";
      }
    } else {
      assert (ion + [InsertSign(ion)])[|ion|] == InsertSign(ion);
      assert (ion + [FilterSign(ion)])[|ion|] == FilterSign(ion);
      assert Matches(row, f.isoform, f.mutant, f.selectivity) <==> InsertSign(ion) == FilterSign(ion);
    }
  }

  /** A chloride row entered as "CL" is stored but the consultation filter for "CL"
      does not show it. */
  lemma {:induction false} UpperCaseChlorideIsLost<K>(backup: seq<Row<K>>, f: Form<K>)
    requires f.selectivity == Some("CL") && Truthy(f.source) && f.source.value != "secret"
    ensures AfterSubmit(backup, Some(1), f) == backup + [NewRow("CL", f)]
    ensures NewRow("CL", f).selectivity == Some("CL-")
    ensures Selected(AfterSubmit(backup, Some(1), f), f.isoform, f.mutant, f.selectivity)
         == Selected(backup, f.isoform, f.mutant, f.selectivity)
  {
    SignRulesDisagree();
    assert "CL" + ['-'] == "CL-";
    InsertThenConsult(backup, Some(1), f);
  }

  /** The columns of a measurement row, the keys of the row `update_db` builds. The filter
      reads three of them as attributes, so a table without them cannot be consulted. */
  const RowColumns: seq<string> := [
    "selectivity", "isoform", "mutant", "new_residue", "act_v50", "act_time",
    "inact_v50", "inact_time", "act_z", "inact_z", "source"]

  class Store<K> {
    /** Header of the backup file, fixed at deployment. */
    const columns: seq<string>
    /** Rows of the backup file; the application never writes it. */
    const backup: seq<Row<K>>
    /** Header and rows of the live file. */
    var liveColumns: seq<string>
    var live: seq<Row<K>>

    /** Both files carry every column of a measurement row. */
    ghost predicate Valid()
      reads this
    {
      forall c :: c in RowColumns ==> c in columns && c in liveColumns
    }

    /** A store whose live file holds any rows, under a header with the row's columns. */
    constructor (columns: seq<string>, backup: seq<Row<K>>, liveColumns: seq<string>, live: seq<Row<K>>)
      requires forall c :: c in RowColumns ==> c in columns && c in liveColumns
      ensures Valid()
      ensures this.columns == columns && this.backup == backup
      ensures this.liveColumns == liveColumns && this.live == live
    {
      this.columns, this.backup := columns, backup;
      this.liveColumns, this.live := liveColumns, live;
    }

    /** `restore_db`: copies the backup over the live file and returns it. */
    method Restore() returns (rows: seq<Row<K>>)
      requires Valid()
      modifies this
      ensures Valid()
      ensures live == backup && liveColumns == columns
      ensures rows == backup
    {
      liveColumns, live := columns, backup;
      rows := backup;
    }

    /** `clear_db`: writes the backup's header with no rows to the live file. */
    method Clear() returns (ok: bool)
      requires Valid()
      modifies this
      ensures Valid()
      ensures live == [] && liveColumns == columns
      ensures ok
    {
      var rows := backup;
      liveColumns, live := columns, rows[0..0];
      ok := true;
    }

    /** `update_db`: restores, then writes `df` with the new row appended and returns it.
        Without a selected ion the `.lower()` call raises after the restore. */
    method Update(df: seq<Row<K>>, f: Form<K>) returns (r: Option<seq<Row<K>>>)
      requires Valid()
      modifies this
      ensures Valid()
      ensures liveColumns == columns
      ensures f.selectivity.None? ==> r.None? && live == backup
      ensures f.selectivity.Some? ==> r == Some(live) && live == df + [NewRow(f.selectivity.value, f)]
    {
      var _ := Restore();
      if f.selectivity.None? {
        return None;
      }
      var ion := f.selectivity.value;
      var sign := if Contains(Lower(ion), "cl") then '-' else '+';
      var newRow := Row(Some(ion + [sign]), f.isoform, f.mutant, f.newResidue,
                        f.actV50, f.actTime, f.inactV50, f.inactTime, f.actZ, f.inactZ, f.source);
      var newDf := df + [newRow];
      liveColumns, live := columns, newDf;
      r := Some(newDf);
    }

    /** The submit callback. `readFails` says whether the first read of the live file raises. */
    method Submit(nClicks: Option<nat>, f: Form<K>, readFails: bool) returns (view: View<K>)
      requires Valid()
      modifies this
      ensures Valid()
      ensures liveColumns == columns
      ensures live == AfterSubmit(backup, nClicks, f)
      ensures view == SubmitView(backup, nClicks, f)
    {
      var _ := Restore();
      if !Clicked(nClicks) {
        return Nothing;
      }
      var df;
      if readFails {
        var _ := Restore();
        df := live;
      } else {
        df := live;
      }
      if |df| == 0 {
        var _ := Restore();
      }
      if Truthy(f.source) {
        if f.source.value == "secret" {
          var restored := Restore();
          view := Table(restored);
        } else {
          var r := Update(df, f);
          view := if r.Some? then Table(r.value) else Raised;
        }
      } else {
        liveColumns, live := columns, df;
        view := Table(df);
      }
    }

    /** The consultation callback: the live table filtered by the form's parameters. */
    method ConsultTable(gating: string, selectivity: Text, isoform: Text, mutant: Text, newResidue: Text)
      returns (rows: seq<Row<K>>)
      requires Valid()
      ensures rows == Selected(live, isoform, mutant, selectivity)
    {
      rows := FilterDb(live, isoform, mutant, selectivity);
    }

    /** The statistics-table callback's column header: selecting the variables from the
        filtered live table raises when one is missing, `describe()` raises on none. */
    method StatsTableColumns(selected: seq<string>, selectivity: Text, isoform: Text, mutant: Text)
      returns (r: Option<seq<string>>)
      requires Valid()
      ensures r.Some? <==> selected != [] && forall c :: c in selected ==> c in liveColumns
      ensures r.Some? ==> r == StatsColumns(selected)
    {
      // app.py describes the filtered rows; filtering keeps the header, so the
      // columns below do not depend on it.
      var df := FilterDb(live, isoform, mutant, selectivity);
      if forall c | c in selected :: c in liveColumns {
        r := StatsColumns(selected);
      } else {
        r := None;
      }
    }

    /** The histogram-selector callback: the options for the backup's non-categorical
        columns; selecting those columns from the live table raises when one is missing. */
    method HistSelectorOptions() returns (r: Option<seq<DropdownOption>>)
      requires Valid()
      ensures r.Some? <==> forall c :: c in HistColumns(columns) ==> c in liveColumns
      ensures r.Some? ==> r.value == HistOptions(columns)
    {
      var cols := HistColumns(columns);
      if forall c | c in cols :: c in liveColumns {
        r := Some(HistOptions(columns));
      } else {
        r := None;
      }
    }
  }

  /** Two inserts in a row leave only the second one in the live table. */
  method SubmitTwice<K>(store: Store<K>, first: Form<K>, second: Form<K>)
    requires store.Valid()
    requires Inserts(Some(1), first) && Inserts(Some(2), second)
    modifies store
    ensures store.live == store.backup + [NewRow(second.selectivity.value, second)]
  {
    var _ := store.Submit(Some(1), first, false);
    assert store.live == store.backup + [NewRow(first.selectivity.value, first)];
    var _ := store.Submit(Some(2), second, false);
  }
}
