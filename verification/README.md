# LASE stiffened-panel optimisation — a Dafny model

LASE optimises a stiffened steel panel. A pymoo genetic algorithm proposes
designs. The `FiniteElementModel` adapter writes each design as one CSV row
of `input.csv`. The Abaqus script `StiffenedPanel.py` then reads that row,
builds and solves the panel, and writes the peak von Mises stress and the
mass to `output.csv`. The adapter reads those two numbers back. The
optimiser turns them into a mass objective and two constraints: the stress
limit of 1.75e8 Pa, and "the longitudinal stiffener is lower than the
transverse one". It logs `history.csv` and `generations.csv`, and
`Viewer.py` reads these logs back for plotting.

The model follows that chain, one module per program:

- `FiniteElementModel` is the adapter. It is an immutable record, and each
  method is a function from one adapter state to the next. The solver
  process is a parameter (`RunOutcome`): it either failed to launch, or it
  exited and possibly left an output file. File contents are strings
  passed in and returned.
- `DesignRepair` covers the repair step every `_evaluate` applies first:
  round the two stiffener counts half-to-even, then clamp the longitudinal
  height below the transverse one. `PanelOptimizer` covers the current
  `Optimizer.py`. `ArchiveOptimizer` covers the two archived case studies
  and the archived stand-alone script.
- `StiffenedPanel` covers the request parse, the de-duplicated thickness
  list, the stiffener and flange layout, the tie bounding boxes and index
  lists, and the peak-stress loop of the Abaqus script.
- `Viewer` and `GenerationViewer` are the two readers of the logs.
  `Pipeline` holds the lemmas that connect one program's writer to the
  next program's reader.

Numbers are Dafny `real`s. Python's `str(float)` and `float(str)` are an
abstract `FloatCodec` (`show`, `parse`) plus a predicate
`Exact(c, x)`: `show` then `parse` gives `x` back. No floating-point
rounding is modelled. `PythonFloat(c)` records only the two facts the
proofs need:
- `float("")` raises;
- `float` accepts the decimal text of an integer.

`Text` models `str.split`, `",".join`, `rstrip`, `splitlines` and
`int`/`str` on integers.

Properties proved across the chain:
- A row the adapter writes is parsed by the Abaqus script into exactly the
  panel that was sent.
- The archived optimisers do not drive `StiffenedPanel.py`: they write
  `temp\optimizationFile.csv` for their own solver script. Their rows are
  compared with `StiffenedPanel.py`'s 19-field reader. The CS3/CS4 rows fit
  that reader. The stand-alone script's rows end in a comma, so that reader
  would reject them with a `ValueError`.
- The flange labels in `input_keys` are swapped relative to the fields the
  script reads: the value under "wTF" lands in the flange thickness.
- `Viewer.py` cannot read the rows the current optimiser writes to
  `history.csv`: the trailing comma leaves an empty third field. It does
  read the archived optimisers' rows. The archived `GenerationViewer.py`
  reads both kinds.
- The generation log expands back into one generation label per
  evaluation.

## Model

| member | source | states |
|---|---|---|
| DesignRepair.RoundHalfEven | Optimizer.py:92-93 | Python's `round`: the result is within one half of the input, and a tie goes to the even neighbour |
| DesignRepair.Repair | Optimizer.py:92-96 | counts become rounded integers; the longitudinal height is kept when below the transverse height, otherwise set to transverse height minus 0.0001; every other variable is unchanged; afterwards longitudinal < transverse |
| DesignRepair.RoundIntegral | Optimizer.py:92-93 | rounding an integer-valued count leaves it unchanged |
| DesignRepair.RepairIdempotent | Optimizer.py:92-96 | a repaired design is a fixed point; repairing twice equals repairing once |
| DesignRepair.RoundWithin | Optimizer.py:87-88 | a value between two integral bounds rounds to an integer between the same bounds |
| DesignRepair.RepairStaysInBounds | Optimizer.py:87-96 | for any well-formed box whose count bounds are integral, a design inside the box is still inside it after repair |
| PanelOptimizer.CurrentRepairInBounds | Optimizer.py:87-96 | the current optimiser's own bounds are kept by repair; a clamped longitudinal height lands in [0.0499, 0.95) |
| PanelOptimizer.RepairScenario | Optimizer.py:92-96 | a concrete design: counts 7.3 and 5.6 become 7 and 6; the other variables pass through |
| PanelOptimizer.Splice | Optimizer.py:98 | slice assignment `variables[0:11] = x`: the first 11 entries become the design and the rest are kept; a shorter vector raises ValueError |
| PanelOptimizer.Derive | Optimizer.py:101-111 | objectives exist exactly when the stress is a number, otherwise TypeError; f is the mass slot as read, text included, since `f1 = mass` does no arithmetic; two constraints |
| PanelOptimizer.FeasibleIffStressWithinLimit | Optimizer.py:104-111 | for a repaired design, all constraints are satisfied if and only if the stress is at most 1.75e8; the objective is the mass |
| PanelOptimizer.OverstressScenario | Optimizer.py:108 | a 2e8 Pa stress gives a stress constraint of 2.5e7 and an infeasible design |
| PanelOptimizer.EvaluateCandidate | Optimizer.py:90-114 | `_evaluate` returns exactly when the adapter returns with a numeric stress, whatever the mass slot holds; the adapter stays valid and the extra variables survive; the adapter history is append-only, grows by at most one, and grows by exactly the spliced repaired design when `_evaluate` returns; a raise leaves history.csv unchanged |
| PanelOptimizer.CandidateConcludes | Optimizer.py:90-114 | with room for the design, `_evaluate` is the adapter call on the repaired design spliced into `variables`, followed by the objective step |
| PanelOptimizer.CandidateObjectives | Optimizer.py:100-114 | when `_evaluate` returns, the newest snapshot holds a numeric stress and the mass slot as read; history.csv gains exactly their row; f is that mass slot and g the stress margin and the repaired design's height difference |
| PanelOptimizer.CandidateWithOutputs | Optimizer.py:90-114 | when the adapter hands back a numeric stress and any mass slot, number or text, the objectives are [mass slot] and [stress - 1.75e8, height difference], history.csv gains their row, and input.csv is what the adapter wrote |
| PanelOptimizer.Conclude | Optimizer.py:100-114 | the objective step after the adapter call: it returns exactly when the adapter returned and the stress is a number; history.csv is appended only then, with the outputs' row; f is the mass slot as read and g the stress margin and height difference; the adapter and input.csv are untouched |
| PanelOptimizer.HistoryRow | FiniteElementModel.py:102-116 | the row `save` appends ends in a newline; for outputs read from a file, numbers or single-line text, it holds no other newline, so it is exactly one line |
| PanelOptimizer.RunStopsAtFirstFailure | Optimizer.py:134-136 | a run of candidates yields one objective per candidate until the first raise, and no failure exactly when every candidate was evaluated |
| PanelOptimizer.RunHistoryEntries | FiniteElementModel.py:34-39 | over a run, history entry h+k is the k-th repaired candidate with the carried extra variables; at most one extra entry, and only after a failure |
| PanelOptimizer.RunHistoryFile | Optimizer.py:114 | history.csv gains exactly one line per successful evaluation and stays newline-terminated |
| PanelOptimizer.ScanMin | Optimizer.py:137-138 | the scan finds a minimum of F that comes before every other minimum |
| PanelOptimizer.FirstArgmin | Optimizer.py:137-138 | `min(range(len(F)), key=F.__getitem__)`: the least F value, and the first index that holds it |
| PanelOptimizer.LogGeneration | Optimizer.py:137-144 | an empty population raises ValueError; otherwise the first argmin's design joins `best` and one "gen,evals" line is appended |
| PanelOptimizer.LogAll | Optimizer.py:134-144 | the loop raises exactly when some generation has an empty F or a first argmin with no design; otherwise `best` keeps its designs and gains one per generation |
| PanelOptimizer.GenerationLine | Optimizer.py:143 | the generation line holds no newline and splits back into the label `n_gen - 1` and the count `n_eval` |
| PanelOptimizer.LogLinesAt | Optimizer.py:141-143 | the log has one line per generation, and line i is generation i's "n_gen - 1,n_eval" line |
| PanelOptimizer.LogAllLines | Optimizer.py:134-144 | after any number of well-formed generations logging succeeds, generations.csv holds its old lines plus the logged lines in order, and stays newline-terminated |
| PanelOptimizer.LogAllBests | Optimizer.py:137-139 | after any number of well-formed generations, `best` gains exactly each generation's first-argmin design, in order |
| FiniteElementModel.Init | FiniteElementModel.py:5-28 | a new adapter has zero inputs, one per key, no outputs read yet, an empty history, and no solver status |
| FiniteElementModel.RowFromJoin | FiniteElementModel.py:41-54 | the write loop's text equals the comma join of the values, with a trailing comma when values remain past the last key |
| FiniteElementModel.WriteFormat | FiniteElementModel.py:41-54 | with as many values as keys, a request row is the comma-joined values plus newline; with more values, the first len(keys) values and a comma before the newline |
| FiniteElementModel.RequestLine | FiniteElementModel.py:41-54 | `write` produces a line exactly when the input array covers the keys, else IndexError; the line ends in a newline |
| FiniteElementModel.WriteIgnoresKeyNames | FiniteElementModel.py:41-54 | the row depends on how many keys there are, never on their names |
| FiniteElementModel.Run | FiniteElementModel.py:56-70 | the status is success exactly when the process exited; a launch failure records its message; nothing else changes |
| FiniteElementModel.ReadLines | FiniteElementModel.py:72-85 | one right-stripped line per line of the file |
| FiniteElementModel.ParseOut | FiniteElementModel.py:80-83 | a line that parses becomes its number, otherwise the raw text is kept |
| FiniteElementModel.Read | FiniteElementModel.py:72-85 | without a successful run it raises RuntimeError; a missing file raises OSError; otherwise it succeeds exactly when the file has a line per output key (else IndexError), and each read slot holds the parsed or raw line while the rest keep their old values |
| FiniteElementModel.Backup | FiniteElementModel.py:34-39 | appends a snapshot of the current inputs and outputs and changes nothing else |
| FiniteElementModel.ReturnHistory | FiniteElementModel.py:98-100 | fails exactly on an empty history; index n counts from the end, and 0 or an out-of-range n gives the first entry |
| FiniteElementModel.Evaluate | FiniteElementModel.py:87-96 | the history only grows, by one exactly when a value is returned, and that value is the new last entry with the requested inputs; when the inputs cover the keys the request row is appended to input.csv, even when reading the output then fails, and otherwise IndexError is raised with input.csv unchanged |
| FiniteElementModel.EvaluateSucceeds | FiniteElementModel.py:87-96 | evaluate returns if and only if the inputs cover the keys, the solver exited, and its output file has enough lines; it then returns the parsed outputs |
| FiniteElementModel.EvaluateLaunchFailure | FiniteElementModel.py:56-70 | a launch failure raises RuntimeError, leaves the history alone, and still leaves the request row in input.csv |
| FiniteElementModel.HistoryIsStable | FiniteElementModel.py:34-39 | a returned snapshot is kept unchanged by later evaluations |
| FiniteElementModel.CommaTerminated | FiniteElementModel.py:102-116 | every value is followed by a comma |
| FiniteElementModel.ShowOuts | FiniteElementModel.py:105-107 | one text per output slot |
| FiniteElementModel.Save | FiniteElementModel.py:102-116 | the row is the comma-terminated outputs (and inputs up to the key count) plus newline; too few inputs raise IndexError after a partial row |
| FiniteElementModel.ParseAll | FiniteElementModel.py:118-126 | succeeds exactly when every field parses, pointwise; else ValueError |
| FiniteElementModel.LoadExtern | FiniteElementModel.py:118-126 | a missing file (initial.csv at Optimizer.py:58) raises OSError; an empty file raises IndexError; otherwise the last line's fields are parsed |
| FiniteElementModel.ParseAllShown | FiniteElementModel.py:118-126 | printed exact values parse back to themselves |
| FiniteElementModel.LoadExternAfterWrite | FiniteElementModel.py:41-54 | load_extern of a file ending in a written request row gives back exactly the inputs |
| FiniteElementModel.LoadExternRejectsLongInput | FiniteElementModel.py:47-54 | when there are more inputs than keys, the trailing comma makes load_extern raise ValueError on the row write produced |
| StiffenedPanel.ReadFields | StiffenedPanel.py:41-69 | succeeds exactly when the row has the fields and each parses; the error is IndexError exactly when every present field parsed |
| StiffenedPanel.PanelOf | StiffenedPanel.py:41-69 | counts are truncated by `int()`; field 5 is the flange thickness and field 6 its width |
| StiffenedPanel.ParseRequest | StiffenedPanel.py:33-69 | an empty file raises IndexError; otherwise the last line's 19 fields decide the panel or the error |
| StiffenedPanel.PanelOfRoundedCounts | StiffenedPanel.py:41-69 | integral counts come through unchanged, and so do the geometric fields |
| StiffenedPanel.FirstIndex | StiffenedPanel.py:162-176 | the first position holding a value |
| StiffenedPanel.FirstIndexPrefix | StiffenedPanel.py:162-176 | a first occurrence inside a prefix is the first occurrence overall |
| StiffenedPanel.DedupeSpec | StiffenedPanel.py:162-176 | the kept list has no duplicates, holds exactly the input's values, and keeps them in first-occurrence order |
| StiffenedPanel.Dedupe | StiffenedPanel.py:162-176 | the kept list is no longer than the input, and the first value is always kept first |
| StiffenedPanel.ThicknessList | StiffenedPanel.py:162-176 | the thickness list starts with the plate thickness, has no duplicates, holds exactly the part thicknesses, and keeps first-occurrence order |
| StiffenedPanel.SectionsDefined | StiffenedPanel.py:326-378 | every section assigned to a part is one that was defined, and defined section names are distinct |
| StiffenedPanel.TransverseStations | StiffenedPanel.py:255-265 | the loop places stiffener i at -L/2 + L/(2n) + iL/n |
| StiffenedPanel.LongitudinalStations | StiffenedPanel.py:291-298 | the loop places stiffener i at -W/2 + (i+1)W/(n+1) |
| StiffenedPanel.StationStep | StiffenedPanel.py:255-265 | the loop's half step and full steps reach the closed-form stations |
| StiffenedPanel.HalfSpacing | StiffenedPanel.py:255-265 | the first step is half a spacing, and n spacings span the length |
| StiffenedPanel.TransverseLayout | StiffenedPanel.py:255-265 | stations lie strictly inside the panel, are symmetric about the centre, and are one spacing apart |
| StiffenedPanel.LongitudinalLayout | StiffenedPanel.py:291-298 | stations lie strictly inside the panel with equal gaps, including both end gaps |
| StiffenedPanel.TransverseFlanges | StiffenedPanel.py:272-284 | each transverse flange is centred on its stiffener, is one flange width wide, and sits at the stiffener height |
| StiffenedPanel.LongitudinalFlanges | StiffenedPanel.py:305-314 | likewise for the longitudinal flanges |
| StiffenedPanel.ConstraintBoxes | StiffenedPanel.py:399-414 | the plate, longitudinal-top and transverse-top boxes, then one slab per transverse station |
| StiffenedPanel.SlabsSeparateStiffeners | StiffenedPanel.py:399-414 | a slab holds its own stiffener's web and, when stations are more than two offsets apart, no point of another station |
| StiffenedPanel.SurfaceList | StiffenedPanel.py:383-385 | three fixed surfaces plus one per transverse stiffener |
| StiffenedPanel.EdgeList | StiffenedPanel.py:388-396 | four fixed edge sets plus two per transverse stiffener |
| StiffenedPanel.SurfaceIndex | StiffenedPanel.py:417-419 | surface k is searched in box k |
| StiffenedPanel.Ramp | StiffenedPanel.py:421-429 | the station boxes, numbered from 3 |
| StiffenedPanel.EdgeBoxes | StiffenedPanel.py:421-429 | one box per edge set |
| StiffenedPanel.EdgeIndex | StiffenedPanel.py:421-429 | the loop builds the edge index list, and every entry names an existing box |
| StiffenedPanel.EdgeBoxesForTwo | archive/test-rev05.py:342-343 | with two transverse stiffeners the list is the one the earlier script hard-coded, [0,1,3,4,3,4,0,2] |
| StiffenedPanel.Ties | StiffenedPanel.py:432-446 | one tie per edge set |
| StiffenedPanel.TiesWellFormed | StiffenedPanel.py:432-446 | every tie joins a known surface to a known edge set, and never ties a part to itself |
| StiffenedPanel.BlockMax | StiffenedPanel.py:553 | `np.max`: an upper bound that occurs in the block |
| StiffenedPanel.MaxStress | StiffenedPanel.py:551-555 | empty blocks raise ValueError; otherwise the result is non-negative and bounds every stress; it stays the start value 0 exactly when no stress is positive, else it is an actual stress |
| StiffenedPanel.OutputLines | StiffenedPanel.py:559-561 | output.csv is two lines, the peak and the mass, and each parses back |
| StiffenedPanel.OutputText | StiffenedPanel.py:559-561 | when both numbers print as plain non-empty text, output.csv reads back as exactly two lines, the peak and then the mass |
| Viewer.StressMass | Viewer.py:29-36 | fewer than two fields raise IndexError; otherwise both parse or ValueError |
| Viewer.ParseRow | Viewer.py:29-36 | a row parses exactly when stress, mass and any third field parse; the weld length is present exactly when there is a third field |
| Viewer.ParseHistory | Viewer.py:29-36 | one mass and one stress per line |
| Viewer.HistoryColumns | Viewer.py:29-36 | the file parses exactly when every row parses, and the columns are the rows' values |
| Viewer.HistoryFirstFailure | Viewer.py:29-36 | a failing file reports the error of its first failing row |
| Viewer.WeldColumn | Viewer.py:29-36 | with a third field on every row the weld column is aligned with the rows; with none it is empty |
| Viewer.Repeat | Viewer.py:54-62 | n copies of the label |
| Viewer.ExpandRow | Viewer.py:54-62 | a row of fewer than two fields raises IndexError; otherwise it succeeds exactly when both fields parse and the count does not fall by a whole step, giving trunc(count - previous) copies of the label |
| Viewer.Expand | Viewer.py:54-62 | no rows give no labels; the only exceptions are the rows' IndexError and ValueError; a row without a comma always makes the loop raise; the first row's labels come first |
| Viewer.ExpandLoggedRow | Viewer.py:54-62 | a logged line expands to (evaluations - previous) copies of its generation |
| Viewer.RunsCons | Viewer.py:54-62 | the first generation's run followed by the rest's runs labels every evaluation correctly |
| Viewer.ExpandLog | Viewer.py:54-62 | an expanded log has one label per evaluation, and evaluation k carries the generation that performed it |
| Viewer.ExpandRuns | Viewer.py:54-62 | rows that each expand to their generation's run expand together into the concatenated runs |
| Viewer.ExpandCons | Viewer.py:54-62 | the expansion of a file is its first row's labels followed by the rest's, counted from the first row's count |
| Viewer.CountsFromFirst | Viewer.py:54-62 | the cumulative counts never fall below the first generation's |
| Viewer.Prefix | Viewer.py:64-68 | a slice `[0:n]` is a prefix of length min(n, len) |
| Viewer.Evaluations | Viewer.py:70 | `range(1, n+1)` |
| Viewer.Rows | Viewer.py:46-49 | one split row per line |
| Viewer.Load | Viewer.py:21-70 | the constructor returns exactly when history.csv parses, results.csv (if present) parses, optimizationFile.csv exists with at least one line, and generations.csv (if present) expands; a missing history raises OSError; history errors propagate, then results.csv parse errors, then OSError for a missing optimizationFile.csv, IndexError for an empty one, then the expansion's error; without results.csv the results are empty, with it they are the parsed values cut like the other series; the series are cut to the number of labels; variablesMode holds exactly when the last design row is shorter than 11 fields; evaluations are numbered from 1 |
| Viewer.Finish | Viewer.py:46-70 | after optimizationFile.csv: returns exactly when there is no generations.csv or its expansion succeeds, and otherwise raises the expansion's error; variablesMode holds exactly when the last row is shorter than 11 fields; without generations.csv the series stay whole; with it they are the expansion's labels and every series is cut to their number |
| Viewer.CutToLabels | Viewer.py:64-70 | every series, results and design rows are cut to the number of labels, and evaluations run from 1 to the number of masses kept |
| Viewer.TruncatedToLabels | Viewer.py:64-70 | with enough history rows, every plotted series has exactly one entry per label |
| Viewer.RStripKeeps | FiniteElementModel.py:72-85 | a line not ending in whitespace is unchanged by `rstrip` |
| Text.RStrip | Viewer.py:30 | `rstrip` keeps a prefix, removes only whitespace, and leaves no trailing whitespace |
| Text.Split | Viewer.py:32 | `split(',')` gives at least one field and no field holds the separator |
| Text.JoinSplit | Viewer.py:32 | joining the fields of a split with the separator gives back the text |
| Text.SplitLines | FiniteElementModel.py:75-76 | the lines of a file hold no line break, and joined with newlines (plus the final one when the file ends in one) give back the file |
| Text.ParseInt | Viewer.py:59 | `int()` accepts exactly an optional minus and a non-empty run of digits; only a leading minus gives a negative value |
| Text.IntRoundTrip | Viewer.py:59 | `int(str(n)) == n` for every integer |
| Viewer.FirstLine | FiniteElementModel.py:72-85 | the first line of `line + "\n" + rest` is `line` |
| Viewer.SaveLineSplit | FiniteElementModel.py:102-116 | a saved output row splits into stress, mass and an empty field |
| Viewer.SaveLineFields | FiniteElementModel.py:102-116 | read back from the file, a saved row is its first line, with the same three fields |
| Viewer.ViewerRejectsSaveRows | Viewer.py:29-36 | the viewer raises ValueError on a history.csv row written by `save` |
| Viewer.ViewerReadsArchiveRow | archive/Optimizer.py:169-171 | the viewer reads an archived history row back into its stress, mass and weld length |
| Viewer.TwoFields | Viewer.py:29-36 | two plain fields joined by a comma survive `rstrip` and split back into the two fields |
| Viewer.ThreeFields | Viewer.py:29-36 | three plain fields joined by commas survive `rstrip` and split back into the three fields |
| GenerationViewer.ParseHistory | archive/GenerationViewer.py:17-22 | one mass and one stress per line |
| GenerationViewer.ParseHistoryColumns | archive/GenerationViewer.py:17-22 | history.csv is read exactly when every row's first two fields parse, and then entry i of mass and stress is row i's field 1 and field 0 |
| GenerationViewer.SaveRowsLines | FiniteElementModel.py:102-116 | a history.csv made of `save` rows reads back as those rows, one line each |
| GenerationViewer.Load | archive/GenerationViewer.py:8-36 | the script gets past its reads exactly when all three files exist, results.csv and history.csv parse and generations.csv expands; a missing file raises OSError, then results.csv's error, then history.csv's, then the expansion's; the labels are the viewer's expansion and the series are cut to their number |
| GenerationViewer.ViewersAgree | archive/GenerationViewer.py:17-22 | whatever Viewer.py reads, this script reads with the same columns |
| GenerationViewer.AcceptsSaveRows | archive/GenerationViewer.py:17-22 | a whole history.csv of `save` rows is read with the saved masses and stresses as its columns, while Viewer.py raises ValueError on it |
| ArchiveOptimizer.ArchiveRepairInBounds | archive/Optimizer.py:113-123 | both archived bound boxes are well formed and kept by repair |
| ArchiveOptimizer.RequestValues | archive/Optimizer.py:126-144 | the request carries the 11 design values plus 8 fixed ones |
| ArchiveOptimizer.RequestRow | archive/Optimizer.py:126-148 | the hand-built row ends in a newline; when the values print exactly it holds no other newline and splits into the 19 request fields |
| ArchiveOptimizer.RequestRowRoundTrip | archive/Optimizer.py:126-144 | the hand-built row is one line of 19 fields that parse back to the design and the fixed values |
| ArchiveOptimizer.RequestLineOneLine | archive/Optimizer.py:126-144 | the hand-built row holds no newline before its terminator |
| ArchiveOptimizer.ScriptRowFields | archive/OptimizerPythonScript.py:63-68 | the script's row ends in a comma, so its last field is empty and parsing it raises ValueError |
| ArchiveOptimizer.ScriptRow | archive/OptimizerPythonScript.py:63-72 | the script's row ends in a newline; when the values print exactly it splits into the eleven values and one empty field |
| ArchiveOptimizer.WeldPerTransverseStiffener | archive/Optimizer.py:232 | one more transverse stiffener adds 4(W + nL(hL + wLF)) of weld |
| ArchiveOptimizer.WeldLength | archive/Optimizer.py:232 | without transverse stiffeners only the longitudinal ones are welded, 4 nL L; without longitudinal ones only the transverse, 4 nT W |
| ArchiveOptimizer.WeldLengthLowerBound | archive/Optimizer.py:232 | inside the bounds the weld length is at least the straight welds, so at least 36 |
| ArchiveOptimizer.EvaluateArchive | archive/Optimizer.py:116-171 | the request row written is the repaired design's, and a returning evaluation always meets the height constraint (g2 < 0) |
| ArchiveOptimizer.EvaluateRepaired | archive/Optimizer.py:125-171 | the request row is always appended; a missing output raises OSError, fewer than 2 lines IndexError, an unparsable one ValueError; on success the objectives come from the two lines and one history row is appended, else history.csv is unchanged |
| ArchiveOptimizer.ObjectivesOf | archive/Optimizer.py:159-167 | F is the mass, plus the weld length for CS4; the design is feasible exactly when the stress is at most 1.75e8 and the longitudinal height does not exceed the transverse one |
| ArchiveOptimizer.ArchiveHistoryRow | archive/Optimizer.py:169-171 | the history row starts with the two output lines joined by a comma and ends in a newline; only CS4 adds a further field |
| ArchiveOptimizer.CaseStudiesAgree | archive/Optimizer.py:116-243 | CS4 writes the same request and succeeds exactly when CS3 does; a failure leaves both in the same state; on success CS4 has the same constraints, the weld length as an extra objective, and its history.csv is CS3's with the weld length added to the last line |
| ArchiveOptimizer.RepairedCaseStudiesAgree | archive/Optimizer.py:125-243 | the same agreement for any repaired design |
| ArchiveOptimizer.FailuresAgree | archive/Optimizer.py:156-160 | when CS3 raises, CS4 raises the same error and leaves the same files |
| ArchiveOptimizer.SuccessesAgree | archive/Optimizer.py:230-239 | when CS3 returns, CS4 returns too, with the weld length appended to F and the same G |
| ArchiveOptimizer.SuccessHistoriesAgree | archive/Optimizer.py:169-171 | when CS3 returns, CS4's history.csv is CS3's with one more field, the weld length, on the last line |
| ArchiveOptimizer.WidenedHistory | archive/Optimizer.py:241-243 | after the same earlier rows, the CS4 file is the CS3 file with the weld length added to the last line |
| ArchiveOptimizer.HistoryRowsAgree | archive/Optimizer.py:169-171 | the CS3 row is "stress,mass" and the CS4 row is that line with the weld length as one more field |
| ArchiveOptimizer.ScriptMatchesCS3 | archive/OptimizerPythonScript.py:53-97 | the stand-alone script computes the same objectives and history as CS3, and differs only in its request row |
| ArchiveOptimizer.ArchiveFeasibleIffStressWithinLimit | archive/Optimizer.py:160-167 | a design is feasible if and only if the stress is at most 1.75e8; the first objective is the mass |
| Pipeline.ReadsLastLine | StiffenedPanel.py:33-41 | the script reads the row last appended to input.csv |
| Pipeline.RequestReachesPanel | FiniteElementModel.py:41-54 | a row the adapter writes is parsed by the script into exactly the panel those 19 values describe |
| Pipeline.FlangeLabelsSwapped | Optimizer.py:52 | the sixth key is labelled "wTF" and the seventh "tTF", yet the script reads the sixth value as the flange thickness and the seventh as its width |
| Pipeline.PanelOutputParsed | FiniteElementModel.py:72-85 | the adapter reads back the script's peak stress and mass as numbers |
| Pipeline.OptimizerReadsOutputs | Optimizer.py:100-114 | whenever the solver's output file reads as two numbers, `_evaluate` returns the mass as f and the stress margin and height difference as g, history.csv gains their row, and input.csv gains the spliced repaired design's row |
| Pipeline.OptimizerMeetsPanel | Optimizer.py:90-114 | with the script's output, a candidate's objectives are the mass, the stress margin and the height difference, history.csv gains the stress and mass, and input.csv gains the request row of the repaired design |
| Pipeline.JoinedValuesRead | StiffenedPanel.py:41-69 | the comma join of 19 exact values is one line whose fields the script reads back as those values |
| Pipeline.OptimizerRequestReachesPanel | Optimizer.py:90-102 | the panel the script builds has the rounded counts and a longitudinal stiffener lower than the transverse one |
| Pipeline.GenerationsRoundTrip | Viewer.py:54-62 | Viewer.py expands the optimiser's generations.csv into one label per evaluation, each the generation that performed it |
| Pipeline.LogFileLines | Optimizer.py:142-144 | reading back the generation log gives exactly the logged lines |
| Pipeline.LineEndsInDigit | Optimizer.py:143 | `rstrip` leaves a logged line unchanged |
| Pipeline.ArchiveRequestReachesPanel | archive/Optimizer.py:126-144 | the panel script's 19-field reader, given the archived optimiser's row, would parse it into the panel of the design and the fixed values |
| Pipeline.ScriptRequestRejected | archive/OptimizerPythonScript.py:63-68 | the panel script's 19-field reader would raise ValueError on the stand-alone script's row |
| Pipeline.ArchiveMeetsPanelAndViewer | archive/Optimizer.py:156-171 | given output in the panel script's format, the archived objectives come from the peak and mass, and Viewer.py reads the appended history row back |

## Left out

- Abaqus itself is not modelled. Geometry, meshing, sections, ties and the solve are API calls with no visible semantics. Their inputs are modelled: stations, boxes, index lists and section names. The mass from `getMassProperties` is a parameter, and the stress field is a sequence of blocks of reals.
- Process launching (`subprocess.Popen`, the `abaqus cae` command line) is left out; the outcome is the `RunOutcome` parameter.
- pymoo is left out: NSGA-II, sampling, crossover, mutation and the evaluator. The populations and evaluation counts are inputs to the generation loop.
- Plotting (matplotlib), the timing printouts, the `information.txt` writes, `print(f"Generation: …")` (Optimizer.py:140) and `print(algorithm.n_gen)` inside `_evaluate` (archive/OptimizerPythonScript.py:93) are left out: they are output only.
- `algorithm.pop.get("F")` is an (n, 1) numpy array, and `min(key=)` compares its one-element rows. The model takes F as a `seq<real>` of the single objective. For one objective the two orders agree, so the first argmin is the same.
- archive/Optimizer.py's generation loop (archive/Optimizer.py:263-272) is the same code as Optimizer.py:134-144, apart from comments and the `print` at Optimizer.py:140. The PanelOptimizer.LogGeneration, LogAll, LogAllLines and LogAllBests rows cover it.
- SensitivityAnalysis.py, SensitivityVisualization.py, DataVisualization.py, RunStiffenedPanel.py, archive/HistoryViewer.py, archive/header.py and the other test-rev scripts are not part of this model; the one list taken from archive/test-rev05.py is cited in its own row. archive/test-rev06.py's station and flange loops (archive/test-rev06.py:157-222) and its surface, edge and tie index lists (archive/test-rev06.py:280-345) are, apart from comments, the same code as StiffenedPanel.py:255-320 and StiffenedPanel.py:380-445, so the StiffenedPanel rows cover them.
- Floating point is left out: reals are exact, and `str(float)`/`float(str)` are the abstract codec. IEEE rounding in the station arithmetic is not modelled.
- FiniteElementModel.ParseAll: `float()` is abstract beyond rejecting the empty string. Its leniency (surrounding whitespace, underscores, "inf"/"nan") is not modelled.
- Text.ParseInt: `int()` accepts only an optional '-' and ASCII digits here. Python also accepts whitespace, '+' and underscores.
- Text.SplitLines: only '\n' ends a line. Python's `splitlines` also breaks on '\r', '\x0b', '\x0c' and Unicode separators, and `rstrip` strips Unicode whitespace.
- results.csv holds `str()` of numpy arrays. The viewers' `float()` would reject those, so results are modelled as plain number fields read through the codec.
- `if index is 0` in StiffenedPanel.py is modelled as `== 0`. CPython caches small integers, so the two agree.
- The CS4 case study's multi-objective `F` is left out of the argmin. The archived optimiser instantiates CS3 (archive/Optimizer.py:245), whose `F` is one number per design. CS4's per-candidate evaluation is modelled.
- A file's contents are an `Option<string>`; `None` is a file that is not there. `open()` of such a file raises OSError, and the model returns `MissingFile`. `Viewer.py` tests `Path.is_file()` first for generations.csv and results.csv (Viewer.py:21-27) and goes on without them.
- PanelOptimizer.RunCandidates: its own contract states only that the adapter stays valid. Its behaviour is stated by RunStopsAtFirstFailure, RunHistoryEntries and RunHistoryFile.
- Viewer.ParseHistory: its own contract states only the lengths. The columns are stated by HistoryColumns, HistoryFirstFailure and WeldColumn.
- StiffenedPanelPythonScript.py, the solver script the archived optimisers launch, is not part of this model. Its reading of `temp\optimizationFile.csv` and its writing of `temp\abaqusOutput.csv` are therefore not modelled. The archived rows are compared against `StiffenedPanel.py`'s reader, and the archived output is taken in `StiffenedPanel.py`'s format.
- What pymoo does with a text objective is not modelled. As in the source, a mass slot that `float()` rejected passes into `F` as text.
