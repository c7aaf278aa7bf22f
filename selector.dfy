/** The sidebar of the gene selector and the filter pipeline it drives:
    each facet's checkboxes with the condition each one appends when ticked,
    the program-count slider, the program multiselect, and the eight stages
    applied in the script's order to produce the final gene list. */
module GeneSelector {
  import opened Genes
  import opened Programs
  import opened Stages

  /** A checkbox: the label the sidebar shows and the condition it appends
      to its facet's list when ticked, in the order the script tests them. */
  type Box<T> = (string, Test<T>)

  const RuspBoxes: seq<Box<string>> := [
    ("Core", Equals("Core")),
    ("Secondary", Equals("Secondary")),
    ("Not on RUSP", IsMissing)]

  const InheritanceBoxes: seq<Box<string>> := [
    ("AR", Equals("AR")),
    ("AD", Equals("AD")),
    ("XL", Equals("XLR")),
    ("Missing", IsMissing)]

  const PenetranceBoxes: seq<Box<string>> := [
    ("High", Equals("HIGH (A)")),
    ("Moderate", Equals("MODERATE(A)")),
    ("Missing", IsMissing)]

  const AgeOnsetBoxes: seq<Box<string>> := [
    ("Birth", Equals("Birth")),
    ("Neonatal", Equals("Neonatal")),
    ("Infant", Equals("Infant")),
    ("Childhood", Equals("Childhood")),
    ("Adolescent/Adult", Equals("Adolescent/Adult")),
    ("Variable", Equals("Variable")),
    ("Missing", IsMissing)]

  const SeverityBoxes: seq<Box<int>> := [
    ("Severe", Equals(3)),
    ("Moderate", Equals(2)),
    ("Mild", Equals(1)),
    ("No symptoms", Equals(0)),
    ("Missing", IsMissing)]

  const EfficacyBoxes: seq<Box<int>> := [
    ("High efficacy", Equals(3)),
    ("Moderate efficacy", Equals(2)),
    ("Minimal efficacy", Equals(1)),
    ("No treatment", Equals(0)),
    ("Missing", IsMissing)]

  /** The bounds and the initial value of the program-count slider. */
  const MinThreshold := 1
  const MaxThreshold := 25
  const DefaultThreshold := 1

  /** A value the program-count slider can hold. */
  type Threshold = n: int | MinThreshold <= n <= MaxThreshold witness DefaultThreshold

  /** The state of the sidebar: the ticked labels of each checkbox facet,
      the slider, and the chosen program names in the order chosen. */
  datatype Selection = Selection(
    rusp: set<string>,
    minPrograms: Threshold,
    programs: seq<string>,
    inheritance: set<string>,
    penetrance: set<string>,
    ageOnset: set<string>,
    severity: set<string>,
    efficacy: set<string>)

  /** The sidebar as the page first shows it: nothing ticked, nothing chosen,
      the slider at its initial value. */
  const InitialSelection := Selection({}, DefaultThreshold, [], {}, {}, {}, {}, {})

  /** A facet's condition list: the conditions of its ticked boxes, in box
      order. A ticked label that no box carries adds nothing. */
  function Conditions<T(==,!new)>(boxes: seq<Box<T>>, ticked: set<string>): (conds: seq<Test<T>>)
    ensures |conds| <= |boxes|
    ensures forall t :: t in conds <==> exists b :: b in boxes && b.0 in ticked && b.1 == t
    ensures conds == [] <==> forall b :: b in boxes ==> b.0 !in ticked
  {
    if boxes == [] then []
    else
      var front, last := boxes[..|boxes| - 1], boxes[|boxes| - 1];
      assert forall b :: b in boxes <==> b in front || b == last;
      Conditions(front, ticked) + (if last.0 in ticked then [last.1] else [])
  }

  /** The script's `if box: conditions.append(test)` chain for one facet. */
  method BuildConditions<T(==,!new)>(boxes: seq<Box<T>>, ticked: set<string>) returns (conds: seq<Test<T>>)
    ensures conds == Conditions(boxes, ticked)
  {
    conds := [];
    for i := 0 to |boxes|
      invariant conds == Conditions(boxes[..i], ticked)
    {
      assert boxes[..i + 1][..i] == boxes[..i];
      if boxes[i].0 in ticked {
        conds := conds + [boxes[i].1];
      }
    }
    assert boxes[..|boxes|] == boxes;
  }

  /** Whether a cell passes a checkbox facet, read off the boxes directly:
      with no box ticked every cell passes, otherwise the cell must match the
      condition of some ticked box. */
  predicate FacetPasses<T(==,!new)>(boxes: seq<Box<T>>, ticked: set<string>, v: Option<T>)
    ensures ticked == {} ==> FacetPasses(boxes, ticked, v)
  {
    (forall b :: b in boxes ==> b.0 !in ticked) ||
    (exists b :: b in boxes && b.0 in ticked && Matches(b.1, v))
  }

  /** The facet stage built from the condition list keeps exactly the cells
      that pass the facet. */
  lemma ConditionsMeanFacet<T(!new)>(boxes: seq<Box<T>>, ticked: set<string>, v: Option<T>)
    ensures (Conditions(boxes, ticked) == [] || AnyMatch(Conditions(boxes, ticked), v)) <==>
      FacetPasses(boxes, ticked, v)
  {
    var conds := Conditions(boxes, ticked);
    if conds != [] && AnyMatch(conds, v) {
      var t :| t in conds && Matches(t, v);
      var b :| b in boxes && b.0 in ticked && b.1 == t;
    }
    if exists b :: b in boxes && b.0 in ticked && Matches(b.1, v) {
      var b :| b in boxes && b.0 in ticked && Matches(b.1, v);
      assert b.1 in conds;
    }
  }

  /** With a single label ticked, a facet keeps exactly the cells matching
      that box's condition, provided no other box carries the same label. */
  lemma OneTickedBox<T(!new)>(boxes: seq<Box<T>>, i: int, v: Option<T>)
    requires 0 <= i < |boxes|
    requires forall j :: 0 <= j < |boxes| && j != i ==> boxes[j].0 != boxes[i].0
    ensures FacetPasses(boxes, {boxes[i].0}, v) <==> Matches(boxes[i].1, v)
  {
    assert boxes[i] in boxes;
    if FacetPasses(boxes, {boxes[i].0}, v) {
      var b :| b in boxes && b.0 in {boxes[i].0} && Matches(b.1, v);
      var j :| 0 <= j < |boxes| && boxes[j] == b;
    }
  }

  /** Ticking the labels of two sets keeps the rows either set keeps on its
      own (OR within a facet), as long as each set ticks some box. */
  lemma {:induction false} TickedUnion<T(!new)>(boxes: seq<Box<T>>, ticked1: set<string>, ticked2: set<string>, v: Option<T>)
    requires exists b :: b in boxes && b.0 in ticked1
    requires exists b :: b in boxes && b.0 in ticked2
    ensures FacetPasses(boxes, ticked1 + ticked2, v) <==>
      FacetPasses(boxes, ticked1, v) || FacetPasses(boxes, ticked2, v)
  {
    var b1 :| b1 in boxes && b1.0 in ticked1;
    var b2 :| b2 in boxes && b2.0 in ticked2;
    assert b1.0 in ticked1 + ticked2;
    if FacetPasses(boxes, ticked1 + ticked2, v) {
      var b :| b in boxes && b.0 in ticked1 + ticked2 && Matches(b.1, v);
      assert b.0 in ticked1 || b.0 in ticked2;
    }
  }

  /** The RUSP labels and the stored values they select. */
  lemma RuspLabels(v: Option<string>)
    ensures FacetPasses(RuspBoxes, {"Core"}, v) <==> v == Some("Core")
    ensures FacetPasses(RuspBoxes, {"Secondary"}, v) <==> v == Some("Secondary")
    ensures FacetPasses(RuspBoxes, {"Not on RUSP"}, v) <==> v == None
  {
    OneTickedBox(RuspBoxes, 0, v);
    OneTickedBox(RuspBoxes, 1, v);
    OneTickedBox(RuspBoxes, 2, v);
  }

  /** The inheritance labels: `XL` selects the stored value `XLR`. */
  lemma InheritanceLabels(v: Option<string>)
    ensures FacetPasses(InheritanceBoxes, {"AR"}, v) <==> v == Some("AR")
    ensures FacetPasses(InheritanceBoxes, {"AD"}, v) <==> v == Some("AD")
    ensures FacetPasses(InheritanceBoxes, {"XL"}, v) <==> v == Some("XLR")
    ensures FacetPasses(InheritanceBoxes, {"Missing"}, v) <==> v == None
  {
    OneTickedBox(InheritanceBoxes, 0, v);
    OneTickedBox(InheritanceBoxes, 1, v);
    OneTickedBox(InheritanceBoxes, 2, v);
    OneTickedBox(InheritanceBoxes, 3, v);
  }

  /** The penetrance labels select the stored values `HIGH (A)` and
      `MODERATE(A)`. */
  lemma PenetranceLabels(v: Option<string>)
    ensures FacetPasses(PenetranceBoxes, {"High"}, v) <==> v == Some("HIGH (A)")
    ensures FacetPasses(PenetranceBoxes, {"Moderate"}, v) <==> v == Some("MODERATE(A)")
    ensures FacetPasses(PenetranceBoxes, {"Missing"}, v) <==> v == None
  {
    OneTickedBox(PenetranceBoxes, 0, v);
    OneTickedBox(PenetranceBoxes, 1, v);
    OneTickedBox(PenetranceBoxes, 2, v);
  }

  /** The age-of-onset labels select the stored value of the same name. */
  lemma AgeOnsetLabels(v: Option<string>)
    ensures forall i :: 0 <= i < 6 ==>
      (FacetPasses(AgeOnsetBoxes, {AgeOnsetBoxes[i].0}, v) <==> v == Some(AgeOnsetBoxes[i].0))
    ensures FacetPasses(AgeOnsetBoxes, {"Missing"}, v) <==> v == None
  {
    forall i | 0 <= i < 6
      ensures FacetPasses(AgeOnsetBoxes, {AgeOnsetBoxes[i].0}, v) <==> v == Some(AgeOnsetBoxes[i].0)
    {
      OneTickedBox(AgeOnsetBoxes, i, v);
    }
    OneTickedBox(AgeOnsetBoxes, 6, v);
  }

  /** The severity labels select the codes 3, 2, 1 and 0. */
  lemma SeverityLabels(v: Option<int>)
    ensures FacetPasses(SeverityBoxes, {"Severe"}, v) <==> v == Some(3)
    ensures FacetPasses(SeverityBoxes, {"Moderate"}, v) <==> v == Some(2)
    ensures FacetPasses(SeverityBoxes, {"Mild"}, v) <==> v == Some(1)
    ensures FacetPasses(SeverityBoxes, {"No symptoms"}, v) <==> v == Some(0)
    ensures FacetPasses(SeverityBoxes, {"Missing"}, v) <==> v == None
  {
    OneTickedBox(SeverityBoxes, 0, v);
    OneTickedBox(SeverityBoxes, 1, v);
    OneTickedBox(SeverityBoxes, 2, v);
    OneTickedBox(SeverityBoxes, 3, v);
    OneTickedBox(SeverityBoxes, 4, v);
  }

  /** The efficacy labels select the codes 3, 2, 1 and 0. */
  lemma EfficacyLabels(v: Option<int>)
    ensures FacetPasses(EfficacyBoxes, {"High efficacy"}, v) <==> v == Some(3)
    ensures FacetPasses(EfficacyBoxes, {"Moderate efficacy"}, v) <==> v == Some(2)
    ensures FacetPasses(EfficacyBoxes, {"Minimal efficacy"}, v) <==> v == Some(1)
    ensures FacetPasses(EfficacyBoxes, {"No treatment"}, v) <==> v == Some(0)
    ensures FacetPasses(EfficacyBoxes, {"Missing"}, v) <==> v == None
  {
    OneTickedBox(EfficacyBoxes, 0, v);
    OneTickedBox(EfficacyBoxes, 1, v);
    OneTickedBox(EfficacyBoxes, 2, v);
    OneTickedBox(EfficacyBoxes, 3, v);
    OneTickedBox(EfficacyBoxes, 4, v);
  }

  /** The eight stages in the script's order. */
  function StagesOf(sel: Selection): (stages: seq<Stage>)
    ensures |stages| == 8
  {
    FirstStages(sel) + LastStages(sel)
  }

  /** RUSP status, program count, chosen programs and inheritance. The eight
      stages are built and reasoned about in two halves of four only to keep
      each proof obligation small; the script has no such split. */
  function FirstStages(sel: Selection): seq<Stage>
  {
    [ TextFacet(Rusp, Conditions(RuspBoxes, sel.rusp)),
      MinPrograms(sel.minPrograms),
      AnyProgram(ProgramColumns(sel.programs)),
      TextFacet(Inheritance, Conditions(InheritanceBoxes, sel.inheritance)) ]
  }

  /** Penetrance, age of onset, severity and efficacy. */
  function LastStages(sel: Selection): seq<Stage>
  {
    [ TextFacet(Penetrance, Conditions(PenetranceBoxes, sel.penetrance)),
      TextFacet(AgeOnset, Conditions(AgeOnsetBoxes, sel.ageOnset)),
      CodeFacet(Severity, Conditions(SeverityBoxes, sel.severity)),
      CodeFacet(Efficacy, Conditions(EfficacyBoxes, sel.efficacy)) ]
  }

  /** Whether a gene belongs on the final list, stated facet by facet from
      the sidebar: every checkbox facet passes, the stored program count
      reaches the slider, and, when programs are chosen, the gene has flag 1
      in the column of one of them. */
  predicate Selected(sel: Selection, g: Gene)
    ensures sel == InitialSelection ==> (Selected(sel, g) <==> g.scrSum.Some? && g.scrSum.value >= DefaultThreshold)
  {
    PassesFirstFour(sel, g) && PassesLastFour(sel, g)
  }

  /** RUSP status, program count, chosen programs and inheritance (the first
      half of `Selected`, split like `FirstStages`). */
  predicate PassesFirstFour(sel: Selection, g: Gene)
  {
    && FacetPasses(RuspBoxes, sel.rusp, g.rusp)
    && g.scrSum.Some? && g.scrSum.value >= sel.minPrograms
    && (sel.programs == [] || exists p :: p in sel.programs && FlagValue(g, ProgramColumn(p)) == Some(1))
    && FacetPasses(InheritanceBoxes, sel.inheritance, g.inheritance)
  }

  /** Penetrance, age of onset, severity and efficacy. */
  predicate PassesLastFour(sel: Selection, g: Gene)
  {
    && FacetPasses(PenetranceBoxes, sel.penetrance, g.penetrance)
    && FacetPasses(AgeOnsetBoxes, sel.ageOnset, g.ageOnset)
    && FacetPasses(SeverityBoxes, sel.severity, g.severity)
    && FacetPasses(EfficacyBoxes, sel.efficacy, g.efficacy)
  }

  /** A checkbox facet's stage keeps exactly the rows whose cell passes the facet. */
  lemma TextStageMeansFacet(c: TextColumn, boxes: seq<Box<string>>, ticked: set<string>, g: Gene)
    ensures Admits(TextFacet(c, Conditions(boxes, ticked)), g) <==> FacetPasses(boxes, ticked, TextValue(g, c))
  {
    ConditionsMeanFacet(boxes, ticked, TextValue(g, c));
  }

  lemma CodeStageMeansFacet(c: CodeColumn, boxes: seq<Box<int>>, ticked: set<string>, g: Gene)
    ensures Admits(CodeFacet(c, Conditions(boxes, ticked)), g) <==> FacetPasses(boxes, ticked, CodeValue(g, c))
  {
    ConditionsMeanFacet(boxes, ticked, CodeValue(g, c));
  }

  /** The program stage keeps a row exactly when no program is chosen or the
      row has flag 1 in the column of a chosen program. */
  lemma ProgramStageMeansChosen(programs: seq<string>, g: Gene)
    ensures Admits(AnyProgram(ProgramColumns(programs)), g) <==>
      (programs == [] || exists p :: p in programs && FlagValue(g, ProgramColumn(p)) == Some(1))
  {
    if exists p :: p in programs && FlagValue(g, ProgramColumn(p)) == Some(1) {
      var p :| p in programs && FlagValue(g, ProgramColumn(p)) == Some(1);
      assert ProgramColumn(p) in ProgramColumns(programs);
    }
  }

  lemma AdmitsAllOfFour(s0: Stage, s1: Stage, s2: Stage, s3: Stage, g: Gene)
    ensures AdmitsAll([s0, s1, s2, s3], g) <==> Admits(s0, g) && Admits(s1, g) && Admits(s2, g) && Admits(s3, g)
  {
  }

  /** The last four stages over any box tables; stated apart from the
      constant tables so that the solver does not unfold them. */
  lemma LastFourFacets(b0: seq<Box<string>>, t0: set<string>, b1: seq<Box<string>>, t1: set<string>,
                       b2: seq<Box<int>>, t2: set<string>, b3: seq<Box<int>>, t3: set<string>, g: Gene)
    ensures AdmitsAll([TextFacet(Penetrance, Conditions(b0, t0)), TextFacet(AgeOnset, Conditions(b1, t1)),
                       CodeFacet(Severity, Conditions(b2, t2)), CodeFacet(Efficacy, Conditions(b3, t3))], g) <==>
      FacetPasses(b0, t0, g.penetrance) && FacetPasses(b1, t1, g.ageOnset) &&
      FacetPasses(b2, t2, g.severity) && FacetPasses(b3, t3, g.efficacy)
  {
    AdmitsAllOfFour(TextFacet(Penetrance, Conditions(b0, t0)), TextFacet(AgeOnset, Conditions(b1, t1)),
                    CodeFacet(Severity, Conditions(b2, t2)), CodeFacet(Efficacy, Conditions(b3, t3)), g);
    TextStageMeansFacet(Penetrance, b0, t0, g);
    TextStageMeansFacet(AgeOnset, b1, t1, g);
    CodeStageMeansFacet(Severity, b2, t2, g);
    CodeStageMeansFacet(Efficacy, b3, t3, g);
  }

  lemma FirstFourStages(sel: Selection, g: Gene)
    ensures AdmitsAll(FirstStages(sel), g) <==> PassesFirstFour(sel, g)
  {
    AdmitsAllOfFour(
      TextFacet(Rusp, Conditions(RuspBoxes, sel.rusp)),
      MinPrograms(sel.minPrograms),
      AnyProgram(ProgramColumns(sel.programs)),
      TextFacet(Inheritance, Conditions(InheritanceBoxes, sel.inheritance)), g);
    TextStageMeansFacet(Rusp, RuspBoxes, sel.rusp, g);
    ProgramStageMeansChosen(sel.programs, g);
    TextStageMeansFacet(Inheritance, InheritanceBoxes, sel.inheritance, g);
  }

  lemma LastFourStages(sel: Selection, g: Gene)
    ensures AdmitsAll(LastStages(sel), g) <==> PassesLastFour(sel, g)
  {
    LastFourFacets(PenetranceBoxes, sel.penetrance, AgeOnsetBoxes, sel.ageOnset,
                   SeverityBoxes, sel.severity, EfficacyBoxes, sel.efficacy, g);
  }

  /** A gene passes all eight stages exactly when it is selected. */
  lemma StagesMeanSelected(sel: Selection, g: Gene)
    ensures AdmitsAll(StagesOf(sel), g) <==> Selected(sel, g)
  {
    FirstFourStages(sel, g);
    LastFourStages(sel, g);
    AdmitsAllOfConcat(FirstStages(sel), LastStages(sel), g);
  }

  lemma AdmitsAllOfConcat(a: seq<Stage>, b: seq<Stage>, g: Gene)
    ensures AdmitsAll(a + b, g) <==> AdmitsAll(a, g) && AdmitsAll(b, g)
  {
    assert forall s :: s in a + b <==> s in a || s in b;
  }

  /** One step of the pipeline: applying stage `s` to the rows kept so far,
      or skipping it when its widgets selected nothing, gives the rows that
      pass the stages so far and `s`. */
  lemma Step(done: seq<Stage>, s: Stage, rows: seq<Gene>, filtered: seq<Gene>)
    requires filtered == Keep(done, rows)
    ensures Keep(done + [s], rows) == if Inactive(s) then filtered else Keep([s], filtered)
  {
    KeepThenKeep(done, [s], rows);
    if Inactive(s) {
      InactiveStageIsIdentity(s, filtered);
    }
  }

  /** The stages the script builds, one after another, are the eight stages
      of the selection. */
  lemma StagesAssembled(sel: Selection, rusp: seq<Test<string>>, inheritance: seq<Test<string>>,
                        penetrance: seq<Test<string>>, ageOnset: seq<Test<string>>,
                        severity: seq<Test<int>>, efficacy: seq<Test<int>>)
    requires rusp == Conditions(RuspBoxes, sel.rusp)
    requires inheritance == Conditions(InheritanceBoxes, sel.inheritance)
    requires penetrance == Conditions(PenetranceBoxes, sel.penetrance)
    requires ageOnset == Conditions(AgeOnsetBoxes, sel.ageOnset)
    requires severity == Conditions(SeverityBoxes, sel.severity)
    requires efficacy == Conditions(EfficacyBoxes, sel.efficacy)
    ensures [] + [TextFacet(Rusp, rusp)] + [MinPrograms(sel.minPrograms)]
      + [AnyProgram(ProgramColumns(sel.programs))] + [TextFacet(Inheritance, inheritance)]
      + [TextFacet(Penetrance, penetrance)] + [TextFacet(AgeOnset, ageOnset)]
      + [CodeFacet(Severity, severity)] + [CodeFacet(Efficacy, efficacy)] == StagesOf(sel)
  {
  }

  /** The final gene list is exactly the selected genes of the table. */
  lemma KeptMeansSelected(sel: Selection, rows: seq<Gene>)
    ensures forall g :: g in Keep(StagesOf(sel), rows) <==> g in rows && Selected(sel, g)
  {
    forall g | g in rows ensures AdmitsAll(StagesOf(sel), g) <==> Selected(sel, g) {
      StagesMeanSelected(sel, g);
    }
  }

  /** With nothing ticked and no program chosen, only the program-count
      threshold removes rows: every other facet is the identity. */
  lemma NothingTickedKeepsThresholdOnly(sel: Selection, rows: seq<Gene>)
    requires sel.rusp == {} && sel.programs == [] && sel.inheritance == {} && sel.penetrance == {}
    requires sel.ageOnset == {} && sel.severity == {} && sel.efficacy == {}
    ensures Keep(StagesOf(sel), rows) == Keep([MinPrograms(sel.minPrograms)], rows)
  {
    forall g | g in rows
      ensures AdmitsAll(StagesOf(sel), g) <==> AdmitsAll([MinPrograms(sel.minPrograms)], g)
    {
      StagesMeanSelected(sel, g);
      assert MinPrograms(sel.minPrograms) in [MinPrograms(sel.minPrograms)];
    }
    KeepEquivalent(StagesOf(sel), [MinPrograms(sel.minPrograms)], rows);
  }

  /** Ticking RUSP boxes and inheritance boxes together keeps the genes
      that each of the two keeps on its own (AND across facets). */
  lemma RuspAndInheritanceIntersect(sel: Selection, rows: seq<Gene>)
    ensures forall g :: g in Keep(StagesOf(sel), rows) <==>
      g in Keep(StagesOf(sel.(inheritance := {})), rows) && g in Keep(StagesOf(sel.(rusp := {})), rows)
  {
    KeptMeansSelected(sel, rows);
    KeptMeansSelected(sel.(inheritance := {}), rows);
    KeptMeansSelected(sel.(rusp := {}), rows);
  }

  /** Ticking the RUSP labels of two sets keeps the genes either set keeps
      on its own (OR within a facet); by KeepCounts no gene is listed twice. */
  lemma RuspTicksCombineWithOr(sel: Selection, ticked1: set<string>, ticked2: set<string>, rows: seq<Gene>)
    requires exists b :: b in RuspBoxes && b.0 in ticked1
    requires exists b :: b in RuspBoxes && b.0 in ticked2
    ensures forall g :: g in Keep(StagesOf(sel.(rusp := ticked1 + ticked2)), rows) <==>
      g in Keep(StagesOf(sel.(rusp := ticked1)), rows) || g in Keep(StagesOf(sel.(rusp := ticked2)), rows)
  {
    KeptMeansSelected(sel.(rusp := ticked1 + ticked2), rows);
    KeptMeansSelected(sel.(rusp := ticked1), rows);
    KeptMeansSelected(sel.(rusp := ticked2), rows);
    forall g: Gene
      ensures FacetPasses(RuspBoxes, ticked1 + ticked2, g.rusp) <==>
        FacetPasses(RuspBoxes, ticked1, g.rusp) || FacetPasses(RuspBoxes, ticked2, g.rusp)
    {
      TickedUnion(RuspBoxes, ticked1, ticked2, g.rusp);
    }
  }

  /** Ticking only `Missing` for inheritance keeps exactly the genes the other
      facets keep whose inheritance cell is empty. */
  lemma MissingInheritanceSelectsEmptyCells(sel: Selection, rows: seq<Gene>)
    requires sel.inheritance == {"Missing"}
    ensures forall g :: g in Keep(StagesOf(sel), rows) <==>
      g in Keep(StagesOf(sel.(inheritance := {})), rows) && g.inheritance == None
  {
    KeptMeansSelected(sel, rows);
    KeptMeansSelected(sel.(inheritance := {}), rows);
    forall g: Gene ensures FacetPasses(InheritanceBoxes, {"Missing"}, g.inheritance) <==> g.inheritance == None {
      InheritanceLabels(g.inheritance);
    }
  }

  /** A chosen name whose lower-cased column is `scr_sum` (offered, for
      instance, for a column `scr_SUM`) looks up the stored program count:
      the program stage then keeps the rows whose `scr_sum` is 1. */
  lemma SumColumnLookup(p: string, g: Gene)
    requires ProgramColumn(p) == SumColumn
    ensures Admits(AnyProgram(ProgramColumns([p])), g) <==> g.scrSum == Some(1)
  {
    ProgramStageMeansChosen([p], g);
  }

  /** One stage of the script, `if conditions: df_filtered = df_filtered[...]`:
      the stage is applied unless its widgets selected nothing. */
  method Narrow(ghost rows: seq<Gene>, ghost done: seq<Stage>, filtered: seq<Gene>, s: Stage)
    returns (narrowed: seq<Gene>)
    requires filtered == Keep(done, rows)
    ensures narrowed == Keep(done + [s], rows)
  {
    Step(done, s, rows, filtered);
    narrowed := if Inactive(s) then filtered else Keep([s], filtered);
  }

  /** The script from the loaded table to the final gene list: each stage
      reassigns the filtered rows, a facet with no ticked box is skipped,
      and choosing a program whose lower-cased column the table lacks raises
      `KeyError`. The result is the genes that pass every stage, in table
      order; the table itself is a value and is left as it was. */
  method FilterGenes(table: Table, sel: Selection) returns (result: Result<seq<Gene>>)
    ensures result.Err? <==> MissingColumn(sel.programs, table.columns).Some?
    ensures result.Err? ==> result.error == KeyError(MissingColumn(sel.programs, table.columns).value)
    ensures result.Ok? ==> result.value == Keep(StagesOf(sel), table.rows)
    ensures result.Ok? ==> result.value == Run(StagesOf(sel), table.rows)
    ensures result.Ok? ==> forall g :: g in result.value <==> g in table.rows && Selected(sel, g)
  {
    var rows := table.rows;
    KeepAllAdmitted([], rows);
    ghost var done: seq<Stage> := [];

    // RUSP status: a copy of the whole table when nothing is ticked.
    var ruspConds := BuildConditions(RuspBoxes, sel.rusp);
    var rusp := TextFacet(Rusp, ruspConds);
    var filtered := Narrow(rows, done, rows, rusp);
    done := done + [rusp];

    // Program-count threshold, always applied.
    var threshold := MinPrograms(sel.minPrograms);
    filtered := Narrow(rows, done, filtered, threshold);
    done := done + [threshold];

    // Chosen programs: every chosen program's column is looked up before
    // the combined mask selects any row.
    if sel.programs != [] {
      var missing := MissingColumn(sel.programs, table.columns);
      if missing.Some? {
        return Err(KeyError(missing.value));
      }
    }
    var programs := AnyProgram(ProgramColumns(sel.programs));
    filtered := Narrow(rows, done, filtered, programs);
    done := done + [programs];

    var inheritanceConds := BuildConditions(InheritanceBoxes, sel.inheritance);
    var inheritance := TextFacet(Inheritance, inheritanceConds);
    filtered := Narrow(rows, done, filtered, inheritance);
    done := done + [inheritance];

    var penetranceConds := BuildConditions(PenetranceBoxes, sel.penetrance);
    var penetrance := TextFacet(Penetrance, penetranceConds);
    filtered := Narrow(rows, done, filtered, penetrance);
    done := done + [penetrance];

    var ageOnsetConds := BuildConditions(AgeOnsetBoxes, sel.ageOnset);
    var ageOnset := TextFacet(AgeOnset, ageOnsetConds);
    filtered := Narrow(rows, done, filtered, ageOnset);
    done := done + [ageOnset];

    var severityConds := BuildConditions(SeverityBoxes, sel.severity);
    var severity := CodeFacet(Severity, severityConds);
    filtered := Narrow(rows, done, filtered, severity);
    done := done + [severity];

    var efficacyConds := BuildConditions(EfficacyBoxes, sel.efficacy);
    var efficacy := CodeFacet(Efficacy, efficacyConds);
    filtered := Narrow(rows, done, filtered, efficacy);
    done := done + [efficacy];

    StagesAssembled(sel, ruspConds, inheritanceConds, penetranceConds, ageOnsetConds, severityConds, efficacyConds);
    KeptMeansSelected(sel, rows);
    RunIsConjunction(StagesOf(sel), rows);
    result := Ok(filtered);
  }
}
