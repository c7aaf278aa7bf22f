/** The filter stages of the pipeline and what one stage, or a series of
    them, does to the rows: the boolean-mask selection `df[mask]`, which
    keeps the rows whose mask entry is true, in their order. */
module Stages {
  import opened Genes

  /** The string-valued columns a checkbox facet filters on. */
  datatype TextColumn = Rusp | Inheritance | Penetrance | AgeOnset

  /** The integer-coded columns a checkbox facet filters on. */
  datatype CodeColumn = Severity | Efficacy

  function TextValue(g: Gene, c: TextColumn): Option<string>
  {
    match c
    case Rusp => g.rusp
    case Inheritance => g.inheritance
    case Penetrance => g.penetrance
    case AgeOnset => g.ageOnset
  }

  function CodeValue(g: Gene, c: CodeColumn): Option<int>
  {
    match c
    case Severity => g.severity
    case Efficacy => g.efficacy
  }

  /** One stage of the pipeline, with the conditions its widgets produced. */
  datatype Stage =
    | TextFacet(text: TextColumn, textTests: seq<Test<string>>)
    | CodeFacet(code: CodeColumn, codeTests: seq<Test<int>>)
    | MinPrograms(threshold: int)
    | AnyProgram(programColumns: seq<string>)

  /** A stage whose widgets selected nothing; the script skips it. */
  predicate Inactive(s: Stage)
  {
    match s
    case TextFacet(_, ts) => ts == []
    case CodeFacet(_, ts) => ts == []
    case MinPrograms(_) => false
    case AnyProgram(cs) => cs == []
  }

  /** Whether a stage keeps row `g`. A facet with no condition keeps every row
      (the script's `if conditions:` guard); otherwise the row must satisfy
      one of the conditions. The threshold compares the stored `scr_sum`,
      and an empty `scr_sum` compares false. A chosen program keeps the rows
      whose flag in its column is 1. */
  predicate Admits(s: Stage, g: Gene)
    ensures Inactive(s) ==> Admits(s, g)
  {
    match s
    case TextFacet(c, ts) => ts == [] || AnyMatch(ts, TextValue(g, c))
    case CodeFacet(c, ts) => ts == [] || AnyMatch(ts, CodeValue(g, c))
    case MinPrograms(n) => g.scrSum.Some? && g.scrSum.value >= n
    case AnyProgram(cs) => cs == [] || exists c :: c in cs && FlagValue(g, c) == Some(1)
  }

  /** Whether every one of `stages` keeps row `g`. */
  predicate AdmitsAll(stages: seq<Stage>, g: Gene)
  {
    forall s :: s in stages ==> Admits(s, g)
  }

  /** The rows every one of `stages` keeps, in their order. Each row is
      tested once, so a row that satisfies two conditions of a facet is kept
      once, and a row is kept as often as it occurs in the input. */
  function Keep(stages: seq<Stage>, rows: seq<Gene>): (kept: seq<Gene>)
    ensures |kept| <= |rows|
    ensures forall g :: g in kept <==> g in rows && AdmitsAll(stages, g)
  {
    if rows == [] then []
    else if AdmitsAll(stages, rows[0]) then [rows[0]] + Keep(stages, rows[1..])
      else Keep(stages, rows[1..])
  }

  /** Filtering one row followed by more: the row is kept in front exactly
      when it passes. */
  lemma KeepFront(stages: seq<Stage>, g: Gene, rest: seq<Gene>)
    ensures Keep(stages, [g] + rest) == (if AdmitsAll(stages, g) then [g] else []) + Keep(stages, rest)
  {
    assert ([g] + rest)[0] == g;
    assert ([g] + rest)[1..] == rest;
  }

  /** Filtering a table split in two is filtering each part and joining the
      results: rows keep their relative order. */
  lemma {:induction false} KeepPreservesOrder(stages: seq<Stage>, front: seq<Gene>, back: seq<Gene>)
    ensures Keep(stages, front + back) == Keep(stages, front) + Keep(stages, back)
  {
    if front == [] {
      assert front + back == back;
    } else {
      var g, tail := front[0], front[1..];
      var head := if AdmitsAll(stages, g) then [g] else [];
      assert front == [g] + tail;
      assert front + back == [g] + (tail + back);
      calc {
        Keep(stages, front + back);
        { KeepFront(stages, g, tail + back); }
        head + Keep(stages, tail + back);
        { KeepPreservesOrder(stages, tail, back); }
        head + (Keep(stages, tail) + Keep(stages, back));
        (head + Keep(stages, tail)) + Keep(stages, back);
        { KeepFront(stages, g, tail); }
        Keep(stages, front) + Keep(stages, back);
      }
    }
  }

  /** A single row is kept exactly when it passes. */
  lemma KeepSingle(stages: seq<Stage>, g: Gene)
    ensures Keep(stages, [g]) == if AdmitsAll(stages, g) then [g] else []
  {
    assert [g][1..] == [];
  }

  /** A row is kept as many times as it occurs in the input if it passes,
      and not at all otherwise: a row that satisfies two conditions of a
      facet is not kept twice. */
  lemma {:induction false} KeepCounts(stages: seq<Stage>, rows: seq<Gene>, g: Gene)
    ensures multiset(Keep(stages, rows))[g] == if AdmitsAll(stages, g) then multiset(rows)[g] else 0
  {
    if rows != [] {
      KeepCounts(stages, rows[1..], g);
      assert rows == [rows[0]] + rows[1..];
    }
  }

  /** When every row passes, nothing is removed. */
  lemma {:induction false} KeepAllAdmitted(stages: seq<Stage>, rows: seq<Gene>)
    requires forall g :: g in rows ==> AdmitsAll(stages, g)
    ensures Keep(stages, rows) == rows
  {
    if rows != [] {
      KeepAllAdmitted(stages, rows[1..]);
    }
  }

  /** A stage whose widgets selected nothing leaves the rows unchanged. */
  lemma InactiveStageIsIdentity(s: Stage, rows: seq<Gene>)
    requires Inactive(s)
    ensures Keep([s], rows) == rows
  {
    KeepAllAdmitted([s], rows);
  }

  /** Two stage lists that keep the same rows give the same result. */
  lemma {:induction false} KeepEquivalent(a: seq<Stage>, b: seq<Stage>, rows: seq<Gene>)
    requires forall g :: g in rows ==> (AdmitsAll(a, g) <==> AdmitsAll(b, g))
    ensures Keep(a, rows) == Keep(b, rows)
  {
    if rows != [] {
      KeepEquivalent(a, b, rows[1..]);
    }
  }

  /** Filtering the output of one stage list by a second is filtering once by
      both: stages combine with AND. */
  lemma {:induction false} KeepThenKeep(a: seq<Stage>, b: seq<Stage>, rows: seq<Gene>)
    ensures Keep(b, Keep(a, rows)) == Keep(a + b, rows)
  {
    if rows != [] {
      KeepThenKeep(a, b, rows[1..]);
      assert AdmitsAll(a + b, rows[0]) <==> AdmitsAll(a, rows[0]) && AdmitsAll(b, rows[0]);
    }
  }

  /** Filtering twice with the same stages is filtering once. */
  lemma KeepIdempotent(stages: seq<Stage>, rows: seq<Gene>)
    ensures Keep(stages, Keep(stages, rows)) == Keep(stages, rows)
  {
    KeepThenKeep(stages, stages, rows);
    KeepEquivalent(stages + stages, stages, rows);
  }

  /** The stages applied one after another, each to the output of the
      previous one, as the script reassigns `df_filtered`. */
  function Run(stages: seq<Stage>, rows: seq<Gene>): (result: seq<Gene>)
    ensures |result| <= |rows|
    ensures forall g :: g in result ==> g in rows
  {
    if stages == [] then rows else Run(stages[1..], Keep([stages[0]], rows))
  }

  /** Applying the stages one after another keeps exactly the rows that pass
      all of them. */
  lemma {:induction false} RunIsConjunction(stages: seq<Stage>, rows: seq<Gene>)
    ensures Run(stages, rows) == Keep(stages, rows)
  {
    if stages == [] {
      KeepAllAdmitted(stages, rows);
    } else {
      var first := Keep([stages[0]], rows);
      RunIsConjunction(stages[1..], first);
      KeepThenKeep([stages[0]], stages[1..], rows);
      assert [stages[0]] + stages[1..] == stages;
    }
  }

  /** Running the same stages in any other order gives the same rows. */
  lemma RunReorder(a: seq<Stage>, b: seq<Stage>, rows: seq<Gene>)
    requires multiset(a) == multiset(b)
    ensures Run(a, rows) == Run(b, rows)
  {
    RunIsConjunction(a, rows);
    RunIsConjunction(b, rows);
    forall s ensures s in a <==> s in b {
      assert s in a <==> s in multiset(a);
      assert s in b <==> s in multiset(b);
    }
    KeepEquivalent(a, b, rows);
  }

  /** The threshold stage keeps exactly the rows whose stored program count
      is at least the threshold. */
  lemma ThresholdStage(n: int, rows: seq<Gene>)
    ensures forall g :: g in Keep([MinPrograms(n)], rows) <==>
      g in rows && g.scrSum.Some? && g.scrSum.value >= n
  {
    forall g ensures AdmitsAll([MinPrograms(n)], g) <==> Admits(MinPrograms(n), g) {
      assert MinPrograms(n) in [MinPrograms(n)];
    }
  }
}
