# Newborn Screening Gene Selector — filter pipeline

`iconsgenelist.py` is a Streamlit page. It loads a table of genes and shows sidebar widgets:

- checkboxes for RUSP status, inheritance, penetrance, age of onset, severity and efficacy of treatment;
- a slider for the number of screening programs that include a gene;
- a multiselect of screening programs.

The page lists the `gene_official` names of the genes that pass the filters. This project models that filter pipeline.

The model has four modules:

- **`Genes`:** a row of the table, as the `Gene` datatype. An empty cell is `None`. The per-program `scr_` flags are a map from column name to value. This module also holds the condition one ticked checkbox appends (`Equals` a stored value, or `IsMissing`, which is `isna()`) and the OR of a facet's conditions (`AnyMatch`).
- **`Programs`:** the program columns (`scr_` prefix, excluding `scr_sum` and `rusp`) and the names the multiselect offers for them (`capitalize()` of the suffix). It also models how a chosen name is looked up again (`scr_` + `lower()`), and the `KeyError` raised when that column does not exist.
- **`Stages`:** the eight stages as one datatype, and `Keep`, the boolean-mask selection that keeps the rows passing every given stage in table order. This module also holds `Run`, the stage-by-stage reassignment of `df_filtered`, and the lemmas relating the two.
- **`GeneSelector`:** each facet's checkbox table (label, condition), in the order the script tests them. It also holds the `Selection` (the sidebar state), `BuildConditions` (the `append` chains), the eight stages of a selection in the script's order, `Selected` (the selection read facet by facet), and `FilterGenes`, the whole script from table to gene list.

How the pipeline behaves:

- Within a facet, the ticked conditions combine with OR. A facet with nothing ticked leaves the rows as they are.
- Facets combine with AND. The threshold compares the stored `scr_sum` with the slider (1 to 25, initially 1), and an empty `scr_sum` never passes.
- The program stage keeps rows whose flag is 1 in the column of some chosen program.
- For example, with RUSP cells `Core, Secondary, empty, Core, empty` and `Core` plus `Not on RUSP` ticked, the RUSP stage keeps genes 1, 3, 4 and 5, in that order (`RuspLabels`, `TickedUnion`, `KeepPreservesOrder`).
- The stages run in the script's order: RUSP, threshold, programs, inheritance, penetrance, age of onset, severity, efficacy. `FilterGenes` is proved equal to `Run` of the eight stages, and by `RunReorder` their order does not change the result.

## Model

| member | source | states |
|---|---|---|
| Genes.Matches | iconsgenelist.py:25-29 | a cell satisfying a condition is empty exactly when the condition is `isna()`: an empty cell equals no stored value |
| Genes.AnyMatch | iconsgenelist.py:22-32 | the intended row-wise OR: a cell passes iff it is empty and `isna()` is among the conditions, or its value is one the conditions test for equality; the empty cell is one more category |
| Programs.Lower | iconsgenelist.py:46 | `lower()` keeps the length and lower-cases each character |
| Programs.Capitalize | iconsgenelist.py:41 | `capitalize()` keeps the length, upper-cases the first character and lower-cases every later character |
| Programs.IsProgramColumn | iconsgenelist.py:41 | an offered column is `scr_` followed by its suffix and is never `scr_sum` |
| Programs.LowerFixedPoints | iconsgenelist.py:46 | `lower()` leaves a name unchanged iff it has no upper-case letter |
| Programs.LowerOfCapitalize | iconsgenelist.py:41-46 | lower-casing a `capitalize()`d name equals lower-casing the original name |
| Programs.ProgramNames | iconsgenelist.py:41 | the multiselect offers at most one name per column, and a name is offered iff it is the capitalized suffix of a column that starts with `scr_` and is not `scr_sum` or `rusp` |
| Programs.ProgramNamesSingle | iconsgenelist.py:41 | one column offers its capitalized suffix if it is a program column, and nothing otherwise |
| Programs.ProgramNamesConcat | iconsgenelist.py:41 | the names of a split column list are the names of each part joined: one name per program column, in column order, duplicates kept |
| Programs.ProgramColumn | iconsgenelist.py:46 | the looked-up column starts with `scr_` and is as long as `scr_` plus the name |
| Programs.ProgramNameRoundTrip | iconsgenelist.py:41-46 | an offered name is looked up under its own column again iff that column's suffix has no upper-case letter |
| Programs.ProgramColumns | iconsgenelist.py:46 | one looked-up column per chosen program; a column is looked up iff it is `scr_` + `lower()` of a chosen name |
| Programs.MissingColumn | iconsgenelist.py:45-46 | no lookup fails iff every chosen program's column is in the table; a failing lookup names a column absent from the table, and it is the column of the first chosen program whose column is absent, the one the list comprehension raises for |
| Programs.OfferedProgramsAreFound | iconsgenelist.py:41-46 | when no program column has an upper-case letter in its suffix, choosing only offered names never raises `KeyError` |
| Stages.Admits | iconsgenelist.py:31-68 | each stage's mask; a stage whose widgets selected nothing keeps every row |
| Stages.Keep | iconsgenelist.py:32 | the mask selection keeps no more rows than it is given, and a row is in the result iff it is in the input and passes every stage |
| Stages.KeepFront | iconsgenelist.py:32 | the first row is kept, in front of the rest's result, iff it passes |
| Stages.KeepPreservesOrder | iconsgenelist.py:32 | filtering a concatenation is filtering each part and concatenating: rows keep their table order |
| Stages.KeepSingle | iconsgenelist.py:32 | a single row is kept iff it passes |
| Stages.KeepCounts | iconsgenelist.py:32 | a passing row appears as often as in the input and a failing row not at all: a row matching two conditions of a facet is not listed twice |
| Stages.KeepAllAdmitted | iconsgenelist.py:32 | when every row passes, the selection returns the rows unchanged, as the `df.copy()` branch does |
| Stages.InactiveStageIsIdentity | iconsgenelist.py:66-68 | a stage whose widgets selected nothing leaves the rows unchanged |
| Stages.KeepEquivalent | iconsgenelist.py:32-162 | two stage lists that agree on every row give the same result |
| Stages.KeepThenKeep | iconsgenelist.py:37-38 | filtering the output of one stage list by another is filtering once by both (AND across stages) |
| Stages.KeepIdempotent | iconsgenelist.py:32-162 | filtering twice with the same stages is filtering once |
| Stages.Run | iconsgenelist.py:32-162 | reassigning `df_filtered` stage by stage never adds a row and keeps only rows of the table |
| Stages.RunIsConjunction | iconsgenelist.py:32-162 | reassigning `df_filtered` stage by stage keeps exactly the rows that pass every stage |
| Stages.RunReorder | iconsgenelist.py:32-162 | running the same stages in any other order gives the same rows |
| Stages.ThresholdStage | iconsgenelist.py:38 | the threshold stage keeps exactly the rows whose stored `scr_sum` is present and at least the slider value |
| GeneSelector.Conditions | iconsgenelist.py:23-29 | a facet's condition list has at most one entry per box; a condition is in it iff a ticked box carries it; and it is empty iff no box of the facet is ticked |
| GeneSelector.BuildConditions | iconsgenelist.py:23-29 | the `if box: append(condition)` chain builds the facet's condition list |
| GeneSelector.FacetPasses | iconsgenelist.py:17-32 | the reference reading of one facet: with nothing ticked every cell passes |
| GeneSelector.ConditionsMeanFacet | iconsgenelist.py:31-32 | the facet stage built from the condition list keeps a cell iff no box is ticked or some ticked box's condition matches it |
| GeneSelector.OneTickedBox | iconsgenelist.py:49-68 | with one label ticked, a facet keeps exactly the cells matching that box's condition |
| GeneSelector.TickedUnion | iconsgenelist.py:22-32 | ticking the labels of two sets keeps a cell iff either set on its own keeps it (OR within a facet) |
| GeneSelector.RuspLabels | iconsgenelist.py:17-29 | `Core` and `Secondary` select those stored values; `Not on RUSP` selects the empty cell |
| GeneSelector.InheritanceLabels | iconsgenelist.py:49-64 | `AR` and `AD` select those values; `XL` selects the stored `XLR`; `Missing` selects the empty cell |
| GeneSelector.PenetranceLabels | iconsgenelist.py:70-82 | `High` selects `HIGH (A)`; `Moderate` selects `MODERATE(A)`; `Missing` selects the empty cell |
| GeneSelector.AgeOnsetLabels | iconsgenelist.py:88-112 | each of the six age labels selects the stored value of the same name; `Missing` selects the empty cell |
| GeneSelector.SeverityLabels | iconsgenelist.py:118-136 | `Severe`, `Moderate`, `Mild` and `No symptoms` select the codes 3, 2, 1 and 0; `Missing` selects the empty cell |
| GeneSelector.EfficacyLabels | iconsgenelist.py:141-159 | `High efficacy`, `Moderate efficacy`, `Minimal efficacy` and `No treatment` select the codes 3, 2, 1 and 0; `Missing` selects the empty cell |
| GeneSelector.Selected | iconsgenelist.py:17-162 | the reference reading of the whole sidebar; on the page as first shown it selects exactly the genes whose stored `scr_sum` is at least 1 |
| GeneSelector.StagesOf | iconsgenelist.py:22-162 | a selection yields exactly eight stages |
| GeneSelector.TextStageMeansFacet | iconsgenelist.py:55-68 | a text facet's stage keeps a row iff the row's cell passes the facet's ticked boxes |
| GeneSelector.CodeStageMeansFacet | iconsgenelist.py:125-139 | a coded facet's stage keeps a row iff the row's cell passes the facet's ticked boxes |
| GeneSelector.ProgramStageMeansChosen | iconsgenelist.py:44-47 | the program stage keeps a row iff no program is chosen, or the row has flag 1 in the lower-cased column of some chosen program |
| GeneSelector.FirstFourStages | iconsgenelist.py:17-68 | the RUSP, threshold, program and inheritance stages together keep a row iff it passes those four facets as the sidebar states them |
| GeneSelector.LastFourFacets | iconsgenelist.py:70-162 | four facet stages over any box tables keep a row iff its penetrance, age, severity and efficacy cells pass their facets |
| GeneSelector.LastFourStages | iconsgenelist.py:70-162 | the penetrance, age, severity and efficacy stages together keep a row iff it passes those four facets |
| GeneSelector.StagesMeanSelected | iconsgenelist.py:22-162 | a gene passes all eight stages iff it is selected facet by facet |
| GeneSelector.AdmitsAllOfConcat | iconsgenelist.py:32-162 | passing the stages of two lists joined is passing both |
| GeneSelector.Step | iconsgenelist.py:66-68 | applying a stage to the rows kept so far, or skipping it when nothing is ticked, gives the rows passing the stages so far and that stage |
| GeneSelector.StagesAssembled | iconsgenelist.py:22-162 | the stages the script builds one after another are the eight stages of the selection, in order |
| GeneSelector.KeptMeansSelected | iconsgenelist.py:164-166 | the final gene list holds exactly the selected genes of the table |
| GeneSelector.NothingTickedKeepsThresholdOnly | iconsgenelist.py:32-162 | with nothing ticked and no program chosen, the list is the threshold stage's result alone |
| GeneSelector.RuspAndInheritanceIntersect | iconsgenelist.py:22-68 | ticking RUSP and inheritance boxes keeps exactly the genes each of the two keeps on its own (AND across facets) |
| GeneSelector.RuspTicksCombineWithOr | iconsgenelist.py:22-32 | ticking the RUSP labels of two sets keeps exactly the genes either set keeps on its own |
| GeneSelector.MissingInheritanceSelectsEmptyCells | iconsgenelist.py:53-68 | ticking only inheritance `Missing` keeps exactly the otherwise-selected genes whose inheritance cell is empty |
| GeneSelector.SumColumnLookup | iconsgenelist.py:41-47 | a chosen name whose lower-cased column is `scr_sum` (offered for a column such as `scr_SUM`) keeps the rows whose stored `scr_sum` is 1 |
| GeneSelector.Narrow | iconsgenelist.py:66-68 | one `if conditions: df_filtered = df_filtered[...]` step extends the rows kept so far by one stage |
| GeneSelector.FilterGenes | iconsgenelist.py:17-166 | the script raises `KeyError` iff a chosen program's lower-cased column is missing, naming the first such column; otherwise its list is the rows passing all eight stages in table order, equal to applying them one after another, and holds exactly the selected genes |

## Left out

- Streamlit itself is not modelled: page title, sidebar layout, widget rendering and `st.write`. The sidebar state is the `Selection` value passed in.
- Loading the table (`st.cache`, `read_csv` of a fixed path) is left out. The table is passed in as a value with its column names and rows.
- Python's built-in `any` applied to a list of pandas Series (lines 32, 47, 68, 86, 116, 139, 162) does not combine the Series row by row. It asks each Series for one truth value, which pandas refuses with `ValueError` for a Series of any length. So as written the script raises as soon as a box is ticked or a program is chosen. The comments and the widget layout show that a row-wise OR is meant, and `AnyMatch` and `Admits` model that intended OR. The exception path is not modelled.
- Several checkboxes share a label (`Missing` five times, `Moderate` twice) and have no `key`, which Streamlit rejects as duplicate widgets. The model gives each facet its own set of ticked labels, as if each widget were distinct.
- Pandas details are reduced to `None` for an empty cell. This drops the float promotion of integer columns that contain NaN, and the fact that NaN compares false with `==` and `>=` (`Matches` and `ThresholdStage` state that behaviour directly).
- `Programs.Lower` and `Programs.Capitalize` handle ASCII letters only. Python's Unicode case mapping (for example `ß`, or letters whose upper case is longer) is not modelled.
- Only the program columns can be missing. The fixed columns (`rusp`, `scr_sum`, `inheritance`, `penetrance`, `age_onset_asqm_standard`, `severity`, `efficacy`, `gene_official`) are assumed present, so their `KeyError` is not modelled.
- The lookup of a chosen program goes through the same cell function as every `scr_` column, so a name that lower-cases to `sum` reads the stored `scr_sum` (`SumColumnLookup`). Row flags for columns the table does not list are not ruled out; such a lookup fails with `KeyError` before any flag is read.
- `scr_sum` is the value stored in the file. The model does not relate it to the per-program flags, and neither does the script.
- The script never modifies the loaded table. The model gets this by construction: rows are values, and `FilterGenes` returns a new sequence.
- The output is the list of kept rows. Projecting it to the `gene_official` column (line 166) is the `name` field of each kept `Gene`, and is not a separate member.
