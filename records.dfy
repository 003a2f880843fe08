/** The measurement record stored in the live and backup tables, and the values
    the insertion form hands to the submit callback. */
module Records {
  import opened Wrappers

  /** A text cell: `None` for a missing value (NaN in a table, `None` from an empty widget). */
  type Text = Option<string>

  /** One measurement row. The six kinetic values are only copied and compared,
      so their type is a parameter. */
  datatype Row<K> = Row(
    selectivity: Text, isoform: Text, mutant: Text, newResidue: Text,
    actV50: K, actTime: K, inactV50: K, inactTime: K, actZ: K, inactZ: K,
    source: Text)

  /** The insertion form's widget values, in the order the submit callback receives them. */
  datatype Form<K> = Form(
    gating: string, selectivity: Text, isoform: Text, mutant: Text, newResidue: Text,
    inactV50: K, actV50: K, inactTime: K, actTime: K, inactZ: K, actZ: K,
    source: Text)

  /** Python truthiness of an optional string: present and not empty. */
  predicate Truthy(p: Text)
  {
    p.Some? && p.value != ""
  }

  /** The three categorical columns the filter compares on. */
  datatype Column = IsoformCol | MutantCol | SelectivityCol

  function Cell<K>(r: Row<K>, c: Column): Text
  {
    match c
    case IsoformCol => r.isoform
    case MutantCol => r.mutant
    case SelectivityCol => r.selectivity
  }

  /** An entry of a dropdown's option list (`{'label': ..., 'value': ...}`); `display` is the label. */
  datatype DropdownOption = DropdownOption(display: string, value: string)
}
