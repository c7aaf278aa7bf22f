/** The gene table of the newborn-screening gene selector: one record per
    gene, with the categorical columns the sidebar filters on, the stored
    program count and one 0/1 flag per screening program. An empty cell of
    the table is `None` here. */
module Genes {

  datatype Option<T> = None | Some(value: T)

  /** The one failure the filter pipeline can raise: a looked-up column
      that the table does not have. */
  datatype Error = KeyError(column: string)

  datatype Result<T> = Ok(value: T) | Err(error: Error)

  /** The stored program count; its name starts like a program column's. */
  const SumColumn: string := "scr_sum"

  /** One row of the table. `flags` holds the non-empty cells of the row's
      other `scr_` columns, keyed by column name; the `scr_sum` cell is
      `scrSum`. */
  datatype Gene = Gene(
    name: string,               // gene_official
    rusp: Option<string>,       // rusp: "Core", "Secondary" or empty
    scrSum: Option<int>,        // scr_sum, as stored in the file
    flags: map<string, int>,    // scr_<program> columns
    inheritance: Option<string>,
    penetrance: Option<string>,
    ageOnset: Option<string>,   // age_onset_asqm_standard
    severity: Option<int>,      // 0..3
    efficacy: Option<int>)      // 0..3

  /** The loaded table: its column names and its rows, both in file order. */
  datatype Table = Table(columns: seq<string>, rows: seq<Gene>)

  /** The value of `scr_` column `column` in row `g`, `None` for an empty
      cell. A lookup of `scr_sum` reads the stored program count. */
  function FlagValue(g: Gene, column: string): (v: Option<int>)
    ensures column == SumColumn ==> v == g.scrSum
    ensures column != SumColumn ==> (v.Some? <==> column in g.flags)
    ensures v.Some? && column != SumColumn ==> v.value == g.flags[column]
  {
    if column == SumColumn then g.scrSum
    else if column in g.flags then Some(g.flags[column]) else None
  }

  /** The condition one ticked checkbox contributes: equality of the
      column with a stored value, or `isna()` of the column. */
  datatype Test<T> = Equals(stored: T) | IsMissing

  /** Whether a cell satisfies a condition. An empty cell is equal to no
      stored value; only `IsMissing` matches it. */
  predicate Matches<T(==)>(t: Test<T>, v: Option<T>)
    ensures Matches(t, v) ==> (v == None <==> t == IsMissing)
  {
    match t
    case Equals(x) => v == Some(x)
    case IsMissing => v == None
  }

  /** The row-wise OR of the conditions of one facet. The script writes this
      as Python's built-in `any` over a list of pandas Series, which does not
      combine the Series row by row (it asks each Series for a single truth
      value, which pandas refuses); the comments and the checkbox layout
      show that a row-wise OR is meant, and that is what is modelled.
      A row passes exactly when its cell is empty and `isna()` is among the
      conditions, or its cell holds a value that one of them tests for
      equality: the empty cell is one more category. */
  predicate AnyMatch<T(==)>(tests: seq<Test<T>>, v: Option<T>)
    ensures AnyMatch(tests, v) <==>
      (v == None && IsMissing in tests) || (v.Some? && Equals(v.value) in tests)
  {
    exists t :: t in tests && Matches(t, v)
  }
}
