/** The screening programs of the table: the `scr_<program>` columns, the
    names the program multiselect offers for them, and the way a chosen name
    is turned back into a column name. Python's `capitalize()` and `lower()`
    are modelled on ASCII letters only. */
module Programs {
  import opened Genes

  const Prefix: string := "scr_"
  /** Named beside `scr_sum` in the script's exclusion list, although it does
      not start with the prefix. */
  const RuspColumn: string := "rusp"

  predicate IsUpperAscii(c: char) { 'A' <= c <= 'Z' }
  predicate IsLowerAscii(c: char) { 'a' <= c <= 'z' }

  function ToLowerAscii(c: char): (d: char)
    ensures !IsUpperAscii(d)
    ensures IsUpperAscii(c) || d == c
  {
    if IsUpperAscii(c) then (c as int - 'A' as int + 'a' as int) as char else c
  }

  function ToUpperAscii(c: char): (d: char)
    ensures !IsLowerAscii(d)
    ensures IsLowerAscii(c) || d == c
  {
    if IsLowerAscii(c) then (c as int - 'a' as int + 'A' as int) as char else c
  }

  /** Python's `str.lower()`: every letter lower-cased, nothing else changed. */
  function Lower(s: string): (r: string)
    ensures |r| == |s|
    ensures forall i :: 0 <= i < |s| ==> r[i] == ToLowerAscii(s[i])
  {
    if s == [] then [] else [ToLowerAscii(s[0])] + Lower(s[1..])
  }

  /** Python's `str.capitalize()`: the first character upper-cased, the rest
      lower-cased. */
  function Capitalize(s: string): (r: string)
    ensures |r| == |s|
    ensures s != [] ==> r[0] == ToUpperAscii(s[0])
    ensures forall i :: 0 < i < |s| ==> r[i] == ToLowerAscii(s[i])
  {
    if s == [] then [] else [ToUpperAscii(s[0])] + Lower(s[1..])
  }

  predicate NoUpper(s: string)
  {
    forall i :: 0 <= i < |s| ==> !IsUpperAscii(s[i])
  }

  /** `lower()` leaves a string unchanged exactly when it has no upper-case letter. */
  lemma LowerFixedPoints(s: string)
    ensures Lower(s) == s <==> NoUpper(s)
  {
    if Lower(s) == s {
      forall i | 0 <= i < |s| ensures !IsUpperAscii(s[i]) {
        assert Lower(s)[i] == ToLowerAscii(s[i]);
      }
    }
  }

  /** Lower-casing a capitalized name forgets the capitalization. */
  lemma LowerOfCapitalize(s: string)
    ensures Lower(Capitalize(s)) == Lower(s)
  {
    var c, l := Capitalize(s), Lower(s);
    forall i | 0 <= i < |s| ensures Lower(c)[i] == l[i] {
      if i > 0 {
        assert c[i] == c[1..][i - 1] == Lower(s[1..])[i - 1] == ToLowerAscii(s[i]);
      }
    }
  }

  /** A column the program multiselect offers: it starts with `scr_` and is
      neither `scr_sum` nor `rusp`. */
  predicate IsProgramColumn(column: string)
    ensures IsProgramColumn(column) ==> |column| >= |Prefix| && column == Prefix + column[|Prefix|..] && column != SumColumn
  {
    |column| >= |Prefix| && column[..|Prefix|] == Prefix && column !in [SumColumn, RuspColumn]
  }

  /** The multiselect's options: for each program column, in column order,
      its suffix after `scr_` with `capitalize()` applied. */
  function ProgramNames(columns: seq<string>): (names: seq<string>)
    ensures |names| <= |columns|
    ensures forall p :: p in names <==>
      exists c :: c in columns && IsProgramColumn(c) && p == Capitalize(c[|Prefix|..])
  {
    if columns == [] then []
    else
      var rest := ProgramNames(columns[1..]);
      assert forall c :: c in columns <==> c == columns[0] || c in columns[1..];
      if IsProgramColumn(columns[0]) then [Capitalize(columns[0][|Prefix|..])] + rest else rest
  }

  /** The offered names of a single column: its capitalized suffix if it is
      a program column, nothing otherwise. */
  lemma ProgramNamesSingle(column: string)
    ensures ProgramNames([column]) ==
      if IsProgramColumn(column) then [Capitalize(column[|Prefix|..])] else []
  {
    assert [column][1..] == [];
  }

  /** The names are offered one per program column, in column order: the
      names of a column list split in two are the names of each part, so
      two program columns with the same capitalized suffix give that name
      twice. */
  lemma {:induction false} ProgramNamesConcat(front: seq<string>, back: seq<string>)
    ensures ProgramNames(front + back) == ProgramNames(front) + ProgramNames(back)
  {
    if front == [] {
      assert front + back == back;
    } else {
      assert (front + back)[0] == front[0];
      assert (front + back)[1..] == front[1..] + back;
      ProgramNamesConcat(front[1..], back);
    }
  }

  /** The column a chosen program name is looked up under: `scr_` followed by
      the name in lower case. */
  function ProgramColumn(program: string): (column: string)
    ensures |column| == |Prefix| + |program| && column[..|Prefix|] == Prefix
  {
    Prefix + Lower(program)
  }

  /** Looking a program name back up recovers its column exactly when the
      column's suffix has no upper-case letter; otherwise the lookup names
      another column, which the table may not have. */
  lemma ProgramNameRoundTrip(column: string)
    requires IsProgramColumn(column)
    ensures ProgramColumn(Capitalize(column[|Prefix|..])) == column <==> NoUpper(column[|Prefix|..])
  {
    var suffix := column[|Prefix|..];
    assert column == Prefix + suffix;
    LowerOfCapitalize(suffix);
    LowerFixedPoints(suffix);
    if ProgramColumn(Capitalize(suffix)) == column {
      assert (Prefix + Lower(suffix))[|Prefix|..] == Lower(suffix);
    }
  }

  /** The columns the chosen programs are looked up under, in the order the
      programs were chosen. */
  function ProgramColumns(programs: seq<string>): (columns: seq<string>)
    ensures |columns| == |programs|
    ensures forall c :: c in columns <==> exists p :: p in programs && c == ProgramColumn(p)
  {
    if programs == [] then []
    else
      assert forall p :: p in programs <==> p == programs[0] || p in programs[1..];
      [ProgramColumn(programs[0])] + ProgramColumns(programs[1..])
  }

  /** The first lookup that fails, if any: looking up a column the table does
      not have raises `KeyError`, and the program columns are looked up in
      the order the programs were chosen. */
  function MissingColumn(programs: seq<string>, columns: seq<string>): (missing: Option<string>)
    ensures missing == None <==> forall p :: p in programs ==> ProgramColumn(p) in columns
    ensures missing.Some? ==>
      missing.value !in columns && exists p :: p in programs && missing.value == ProgramColumn(p)
    ensures missing.Some? ==>
      exists i :: 0 <= i < |programs| && missing.value == ProgramColumn(programs[i]) &&
        forall j :: 0 <= j < i ==> ProgramColumn(programs[j]) in columns
  {
    if programs == [] then None
    else if ProgramColumn(programs[0]) !in columns then
      Some(ProgramColumn(programs[0]))
    else
      assert forall p :: p in programs <==> p == programs[0] || p in programs[1..];
      var rest := MissingColumn(programs[1..], columns);
      assert rest.Some? ==>
        exists i :: (1 <= i < |programs| && rest.value == ProgramColumn(programs[i]) &&
          forall j :: 0 <= j < i ==> ProgramColumn(programs[j]) in columns) by {
        if rest.Some? {
          var k :| 0 <= k < |programs[1..]| && rest.value == ProgramColumn(programs[1..][k]) &&
            forall j :: 0 <= j < k ==> ProgramColumn(programs[1..][j]) in columns;
          assert forall j :: 0 <= j < k + 1 ==> ProgramColumn(programs[j]) in columns by {
            forall j | 0 <= j < k + 1 ensures ProgramColumn(programs[j]) in columns {
              if j > 0 { assert programs[j] == programs[1..][j - 1]; }
            }
          }
          assert programs[k + 1] == programs[1..][k];
        }
      }
      rest
  }

  /** A program the multiselect offers for a column whose suffix has no
      upper-case letter is always found again. */
  lemma {:induction false} OfferedProgramsAreFound(columns: seq<string>, programs: seq<string>)
    requires forall c :: c in columns && IsProgramColumn(c) ==> NoUpper(c[|Prefix|..])
    requires forall p :: p in programs ==> p in ProgramNames(columns)
    ensures MissingColumn(programs, columns) == None
  {
    forall p | p in programs ensures ProgramColumn(p) in columns {
      var c :| c in columns && IsProgramColumn(c) && p == Capitalize(c[|Prefix|..]);
      ProgramNameRoundTrip(c);
    }
  }
}
