# Ion-channel kinetics store, filter and routing — a Dafny model

The application is a small web UI for ion-channel kinetics measurements. It keeps a
live tab-separated table and a read-only backup copy. The UI can consult the live table
through a filter (isoform, mutant, selectivity), add one measurement row through a
submit button, and pick columns for a histogram and a statistics table. It also
routes a pathname to a page and fills the isoform dropdown from the gating mode and
the ion. This project models that logic from `app.py` and proves what it guarantees.

Modules:

- `Records` (`records.dfy`): the measurement `Row<K>`, the insertion `Form<K>`, dropdown options.
  Kinetic values are only copied and compared, so their type is the parameter `K`.
  A missing text cell (NaN, or `None` from an empty widget) is `None`.
- `Filter` (`filter.dfy`): `filter_db`, written as the source writes it (successive
  narrowings `df = df[df.col == v]`). It is proved equal to the one-pass reference
  selection `Selected`, which keeps the rows matching every given parameter.
- `Store` (`store.dfy`): a class with the backup (`const`, never written) and the live
  file (`var`). Its methods are `restore_db`, `clear_db`, `update_db`, the submit
  callback and the consultation callbacks. Its invariant `Valid()` says that both headers
  carry the eleven row columns (`Store.RowColumns`, the keys of the row `update_db` builds).
  The filter reads three of them as attributes, and appending a row adds none of them. The module also holds the insert path's
  sign rule and the lemmas that compare it with the filter's rule.
- `Pages` (`pages.dfy`): `isoform_option`, `toggle_active_links`, `render_page_content`.
- `Columns` (`columns.dfy`): the histogram selector's options and the statistics
  table's column order (`get_stats`).
- `Seqs`, `Strings`, `Wrappers`: order-preserving selection (`df[mask]`), Python's
  substring test `t in s`, `str.lower()`, and `Option`.

The central facts:
- The submit callback always restores the backup first. So afterwards the live table
  is the backup, or the backup plus exactly one new row (`Store.AfterSubmit`).
  Inserts never accumulate (`Store.SubmitTwice`).
- The filter and the insert path derive the selectivity sign differently:
  - the filter appends `-` only for exactly `"Cl"`;
  - the insert path appends `-` whenever `"cl"` occurs in the lower-cased ion.
  The two rules agree on the four ions the form offers (K, Na, Ca, Cl). They disagree
  on `"CL"`: a row stored as `"CL-"` is not found by filtering for `"CL"`.

## Model

| member | source | states |
|---|---|---|
| `Filter.FilterDb` | app.py:150-164 | Narrowing by isoform, then mutant, then signed selectivity (each skipped when None or empty) yields exactly the one-pass filter `Selected` of the input |
| `Filter.FilterSign` | app.py:157-161 | The filter's sign is `-` exactly when the requested ion is "Cl", otherwise `+` |
| `Filter.FilterIsSubsequence` | app.py:150-164 | The filtered table is a subsequence of the input: rows keep their original order |
| `Filter.FilterMembers` | app.py:152-163 | A row is in the result iff it is in the input and equals every given parameter: isoform, mutant, and selectivity with `-` appended iff the parameter is exactly "Cl", else `+` |
| `Filter.FilterNoParams` | app.py:152-164 | With all three parameters None or empty the input comes back unchanged |
| `Filter.FilterIdempotent` | app.py:150-164 | Filtering twice with the same parameters equals filtering once |
| `Filter.FilterAppend` | app.py:150-164 | Filtering a table with a row appended is filtering the table, followed by the row iff it matches |
| `Filter.FilterScenario` | app.py:150-164 | On a one-row "Kv 1.1"/WT/"K+" table: its isoform or ion finds it, "Kv 9.9" or "Cl" finds nothing |
| `Store.Store.Restore` | app.py:144-147 | The live file becomes the backup (rows and header) and the backup rows are returned; the backup is a constant |
| `Store.Store.Clear` | app.py:138-141 | The live file gets the backup's header and zero rows; returns True |
| `Store.Store.Update` | app.py:122-136 | Restores first; without an ion the `.lower()` call raises and the live file stays the backup; otherwise the live file and the result are `df` plus the new row |
| `Store.Store.Submit` | app.py:207-238 | Whatever the live file held before, it ends as `AfterSubmit(backup, ...)` with the backup's header, and the callback renders `SubmitView(backup, ...)` |
| `Store.AfterSubmit` | app.py:209-236 | The live table after a submit starts with the whole backup and has at most one row more; the exact cases are in `Store.SubmitNeverAccumulates` |
| `Store.SubmitView` | app.py:209-238 | The callback renders nothing iff `n_clicks` is falsy, and raises iff it was clicked with a real (non-"secret") source but no ion; the link to the live table is in `Store.SubmitShowsLiveTable` |
| `Store.SubmitNeverAccumulates` | app.py:209-236 | After a submit the live table equals the backup iff no insert happened; after an insert it is the backup plus exactly one last row, the new row |
| `Store.SubmitShowsLiveTable` | app.py:209-238 | A rendered table is the live table left behind; nothing is rendered iff `n_clicks` is falsy; the "secret" source renders the backup; a raised insert leaves the backup |
| `Store.SubmitTwice` | app.py:207-238 | Two inserts in a row leave only the second new row after the backup |
| `Store.InsertSign` | app.py:126-129 | The insert path's sign is `-` exactly when the ion has a "c" directly followed by an "l", ignoring case, otherwise `+` |
| `Store.ChlorideMark` | app.py:126 | `'cl' in selectivity.lower()` holds iff some character lower-casing to "c" is directly followed by one lower-casing to "l" |
| `Store.NewRow` | app.py:126-132 | The new row's selectivity is the ion with one sign character appended; field by field, in `Store.NewRowSpec` |
| `Store.NewRowSpec` | app.py:126-132 | The new row's selectivity is the ion followed by `-` iff the lower-cased ion has "c" directly followed by "l", otherwise by `+`; every other field is copied from the form |
| `Store.FilterChlorideIsInsertChloride` | app.py:126-161 | Every ion the filter signs `-` is also signed `-` by the insert path |
| `Store.SignRulesAgreeOnDropdownIons` | app.py:126-161 | For K, Na and Ca both rules give `+`; for Cl both give `-` |
| `Store.SignRulesDisagree` | app.py:126-161 | "CL" and "cl" are stored with `-` but filtered with `+` |
| `Store.InsertThenConsult` | app.py:122-164 | After an insert, filtering with the form's own parameters gives the backup's result, followed by the new row iff the two sign rules agree on its ion |
| `Store.UpperCaseChlorideIsLost` | app.py:122-164 | An insert with ion "CL" stores a "CL-" row, yet filtering for "CL" shows exactly what it showed on the backup |
| `Store.Store.ConsultTable` | app.py:175-186 | The consultation table is the live table filtered by the form's isoform, mutant and selectivity; gating and new residue are ignored |
| `Store.Store.StatsTableColumns` | app.py:362-378 | Fails iff the selection is empty or names a column the live file lacks; otherwise gives the `get_stats` column order |
| `Store.Store.HistSelectorOptions` | app.py:249-254 | Fails iff the live file lacks one of the histogram columns; otherwise the options for the backup's non-categorical columns |
| `Columns.HistColumns` | app.py:250 | The histogram columns are at most the header's columns and none is selectivity, isoform, mutant, new_residue or source; order and completeness in `Columns.HistOptionsSpec` |
| `Columns.HistOptions` | app.py:254 | One option per histogram column, its label equal to its value, none categorical |
| `Columns.HistOptionsSpec` | app.py:249-254 | The histogram columns are exactly the backup columns other than selectivity, isoform, mutant, new_residue and source, in header order; each option's label equals its value |
| `Columns.RotateLastToFront` | app.py:375-377 | `[cols[-1]] + cols[:-1]`: the same length, the last column first, and every other column one place later |
| `Columns.RotatePermutes` | app.py:375-377 | Moving the last column to the front keeps the same columns with the same multiplicities, puts the last one first and the rest after it in order |
| `Columns.StatsColumns` | app.py:371-378 | No columns (describe raises) iff the selection is empty; otherwise "stats" followed by the selection in order when "stats" is not selected, and the selection with its last column moved first when it is; always a permutation of the described columns plus "stats" |
| `Pages.IsoformOptions` | app.py:51-72 | Every option's label equals its value. The single empty option is returned iff ion is None, gating lacks "vg", or ion contains neither "K" nor "Na". Otherwise "K" (tested first) gives the 40 "Kv x" options and "Na" the 15 "Nav x" options |
| `Pages.IsoformOptionsForFormValues` | app.py:51-72 | For gating "vg": K gives the Kv catalog, Na the Nav catalog, Ca and Cl the empty option; gating "lg" or no ion always gives the empty option |
| `Pages.ActiveLinks` | app.py:81-85 | Three flags: the first is set iff the pathname is "/" or "/page-1", the second iff "/page-2", the third iff "/page-3"; their agreement with the page shown is in `Pages.LinksMatchPage` |
| `Pages.RenderPage` | app.py:88-104 | The not-found page is shown iff the pathname is none of "/", "/page-1", "/page-2", "/page-3", and it carries that pathname; the known pages are fixed by `Pages.LinksMatchPage` |
| `Pages.AtMostOneLinkActive` | app.py:81-85 | No two sidebar links are active at once |
| `Pages.LinksMatchPage` | app.py:81-104 | Link i is active iff the page shown is page i ("/" and "/page-1" show kinetics, "/page-2" about, "/page-3" contact); no link is active iff the page is not-found |
| `Strings.ContainsIff` | app.py:126 | Python's `t in s` holds iff `t` occurs in `s` at some position |
| `Strings.ContainsChar` | app.py:55 | For a one-character needle the substring test is membership |
| `Strings.Contains` | app.py:126 | Python's `t in s`: only a needle no longer than the string can occur, and the empty needle always occurs; the full meaning is `Strings.ContainsIff` |
| `Strings.Lower` | app.py:126 | `s.lower()` keeps the length and maps each character through the ASCII lower-case mapping |

## Left out

- CSV reading and writing (pandas `read_csv`/`to_csv`, tab-separated) are replaced by two in-memory row sequences and two headers. Re-reading a written file can change values: empty strings come back as NaN, and all-digit text columns come back as numbers. The model does not capture this.
- The bare `except` around the first read (app.py:211-215) becomes the parameter `readFails` of `Store.Store.Submit`. Both paths restore and then read the backup.
- A live file that is missing or unreadable when a consultation callback reads it is not modelled; the live file is always a row sequence.
- `describe()` statistics and `.round(2)` (app.py:367, 373) are floating-point mean, deviation and quantiles. Only the column order is kept. `describe()` is assumed to keep every selected column, which holds for the numeric kinetic columns the selector offers.
- The Plotly histogram (app.py:266-287) is third-party charting and is not modelled.
- `df_to_html_table` (app.py:107-119) and the page and tab layouts (app.py:290-350, layout/layout.py) only build HTML components. A rendered table is modelled as the rows it shows (`Store.View`).
- Dash callback registration, the app and server setup, and `app.run_server` are framework plumbing.
- The email input is received by no modelled logic. The gating and new-residue inputs of the consultation callbacks are received but never used.
- Strings.Lower: models only ASCII case mapping. Python's `str.lower()` also maps non-ASCII letters, none of which lower-case to "c" or "l".
- Backup columns beyond the eleven row columns are kept in the headers, but their cells are not part of `Row`. So the model does not capture the NaN that `df.append` writes into them for a new row.
- Row indices (`ignore_index=True`, `index=[len(df)]`) are not modelled; a table is a sequence and its index is the position.
- The "secret" source is modelled as app.py has it: it restores and displays the backup, with no access control.
