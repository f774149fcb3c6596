# Pharmacophore screening driver — a Dafny model

This project models the screening step of psearch. The step checks a conformer
database against one pharmacophore query and reports, for each molecule, the
first conformer that fits the query.

The driver (`main` in `scripts/screen_db.py`) works in this order:

1. It loads the query and its fingerprint.
2. It refuses a database whose `settings.bin_step` differs from the query's.
3. It walks the distinct molecule names of the `conformers` table.
4. For each molecule it keeps the conformers whose stored fingerprint passes the
   prefilter `compare_fp`. `compare_fp` is a bitwise subset test.
5. It fetches the `feature_coords` rows of the surviving conformers in one query.
   It then groups those rows by `conf_id` in a `defaultdict(list)`.
6. It hands each group, in order, to the fit engine. It writes one line for the
   first group whose fit result is truthy, then stops (`break`).

Each output line is `mol_name TAB conf_id TAB comma-joined fit result`.

What the model contains:

- The database is an immutable value, `Store.Db`. It holds the bin step and the
  rows of both tables, in the order the database returns them.
- The three SQL queries are pure functions of that value.
- The fit engine belongs to the external `pmapper` library. It is a parameter
  `fit: (Query, seq<Feature>) -> seq<nat>`. Python's truthiness test on its
  answer becomes "the sequence is non-empty".
- Each molecule's screening returns a trace, `Screening.MoleculeRun`. The trace
  lists the conformers that passed, whether feature rows were fetched, the
  conformers handed to `fit` (in order) and the match. Properties such as "no
  feature lookup and no fit call" can be stated because of this trace.

Modules:

- `wrappers.dfy`: `Option` and `Result`.
- `sequences.dfy`: duplicate-free sequences, first occurrences, order-preserving
  `Distinct`, and subsequences.
- `fingerprint.dfy`: `compare_fp` on fingerprints seen as sets of bit positions.
  It also proves that on the integer encoding, where `&` is bitwise AND, the test
  means the same thing.
- `store.dfy`: database rows and the three queries the driver issues.
- `grouping.dfy`: the `defaultdict(list)` grouping loop.
- `result_line.dfy`: `str`, `join`, `split`, and the result-line format. It also
  has a parser that reads the output back.
- `screening.dfy`: the prefilter, the fit loop with early exit, the molecule loop
  and the bin-step check.

## Notes on the code's behaviour

- Conformers reach the fit engine in the order in which the fetched
  `feature_coords` rows first mention them. That order need not be ascending
  `conf_id`.
- A conformer that passes the prefilter but has no `feature_coords` rows gets no
  group. It is never fit-tested.
- The error is a plain `Exception('Incompatible bin step')`. A message also goes
  to stderr. The model calls it `IncompatibleBinStep`. The model's error also carries
  the two bin steps, which the source's exception and message do not contain.
- No `break` or `return` leaves the molecule loop; only an exception ends it
  early.
- A match records the fit engine's raw answer, which is printed as
  comma-joined indices.

## Model

| member | source | states |
|---|---|---|
| Fingerprint.CompareFp | scripts/screen_db.py:17-18 | `(q & fp) == q` holds exactly when every bit set in the query is set in the conformer's fingerprint |
| Fingerprint.CompareFpReflexive | scripts/screen_db.py:17-18 | every fingerprint passes against itself |
| Fingerprint.EmptyQueryPassesAll | scripts/screen_db.py:17-18 | an empty query fingerprint passes against every conformer |
| Fingerprint.CompareFpTransitive | scripts/screen_db.py:17-18 | passing is transitive (inclusion of bit sets) |
| Fingerprint.CompareFpMonotone | scripts/screen_db.py:17-18 | a conformer that sets more bits, or a query that demands fewer, still passes |
| Fingerprint.BitAnd | scripts/screen_db.py:18 | Python's `&` on non-negative integers: the result is no larger than either operand (its bits are characterised by `Fingerprint.BitAndBits`) |
| Fingerprint.LowBitAndRest | scripts/screen_db.py:18 | the lowest bit of `a & b` is the AND of the lowest bits, and the higher bits are `(a >> 1) & (b >> 1)` |
| Fingerprint.BitAndBits | scripts/screen_db.py:18 | a bit of `a & b` is set exactly when it is set in both `a` and `b` |
| Fingerprint.CompareFpOnIntegers | scripts/screen_db.py:17-18 | on integer fingerprints, `(q & fp) == q` holds iff the bit positions of `q` are among those of `fp`, so it agrees with the set model |
| Store.MoleculeNames | scripts/screen_db.py:42-43 | the molecule names have no duplicates; each one owns a conformer row; every conformer row's molecule is listed |
| Store.ConformersOf | scripts/screen_db.py:48-49 | the rows fetched for a molecule are exactly that molecule's rows, each as many times as it occurs in the table, in table order |
| Store.CoordsOf | scripts/screen_db.py:58-61 | the fetched feature rows are exactly the rows of the listed conformers |
| Store.CoordsOfFeatures | scripts/screen_db.py:58-61 | among the fetched rows each listed conformer keeps all its feature rows in table order, and an unlisted conformer has none |
| Sequences.Distinct | scripts/screen_db.py:42-43 | de-duplication, as `SELECT DISTINCT` and the keys of `confs` produce it: no duplicates, nothing new, nothing lost |
| Sequences.DistinctKeepsFirstOccurrenceOrder | scripts/screen_db.py:62-65 | de-duplication keeps keys in order of first appearance, which is the order in which `confs.items()` visits the groups |
| Grouping.AddRow | scripts/screen_db.py:64 | `confs[conf_id].append(...)`: existing groups keep their conformer ids in place; at most one group is opened, after the others, holding only the row's feature |
| Grouping.AddRowFeatures | scripts/screen_db.py:64 | `append` extends only the row's own conformer group, by exactly that row's feature |
| Grouping.AddRowKeys | scripts/screen_db.py:64 | indexing `confs[conf_id]` keeps the existing keys in place and adds the row's `conf_id` at the end only when it is new |
| Grouping.AddRowCount | scripts/screen_db.py:64 | each `append` adds exactly one row to the groups |
| Grouping.GroupByConfId | scripts/screen_db.py:62-64 | one group per distinct `conf_id`, in order of first appearance |
| Grouping.GroupByConfIdFeatures | scripts/screen_db.py:62-64 | each group holds exactly its conformer's rows, in fetch order |
| Grouping.GroupByConfIdRowCount | scripts/screen_db.py:62-64 | the groups hold as many rows as were fetched: none lost, none repeated |
| Screening.Prefilter | scripts/screen_db.py:51-54 | a conformer id is kept exactly when one of the rows carries it and its fingerprint passes `compare_fp` |
| Screening.FirstFit | scripts/screen_db.py:65-76 | the loop makes at most as many fit calls as there are groups; any match is for the molecule being screened and carries a truthy (non-empty) fit result |
| Screening.FirstFitTestsPrefix | scripts/screen_db.py:65-76 | the groups tested are a prefix of the groups in iteration order: all of them when nothing fits, at least one when something does |
| Screening.FirstFitEarlierFailed | scripts/screen_db.py:65-76 | every group tested before the last one failed the fit, and with no match the last one failed too |
| Screening.FirstFitMatchIsLast | scripts/screen_db.py:65-76 | a match is the last group tested, with that group's own fit result, so the loop stops at the first success |
| Screening.VisitOrder | scripts/screen_db.py:56-65 | the visiting order has no duplicates, and it holds exactly the passing conformers that have feature rows |
| Screening.ScreenMolecule | scripts/screen_db.py:47-76 | feature rows are fetched exactly when some conformer passed; with none passed, there is no fit call and no match; any match is for this molecule with a non-empty fit result |
| Screening.NoFeatureLookupWithoutPassing | scripts/screen_db.py:47-56 | the prefilter does not depend on the feature coordinates, and a molecule with no passing conformer is screened the same whatever the coordinate table holds: no feature lookup happens |
| Screening.MoleculePrefilter | scripts/screen_db.py:48-54 | the conformers passed on are exactly the molecule's conformers whose fingerprint passes `compare_fp` |
| Screening.MoleculeFirstMatchWins | scripts/screen_db.py:65-76 | conformers are fit-tested as a prefix of the visiting order, each with exactly its own database feature rows; every earlier one failed; the match is the first success; with no match the whole order was tested (`Screening.FirstSuccessTrace`) |
| Screening.FitRunOnDb | scripts/screen_db.py:58-76 | the fit loop over the fetched and grouped rows follows the visiting order and hands each conformer exactly its database feature rows |
| Screening.TestedArePassed | scripts/screen_db.py:51-69 | every conformer handed to the fit engine passed the prefilter |
| Screening.RejectedNeverTested | scripts/screen_db.py:48-69 | with `conf_id` a key, a conformer of another molecule, or one failing `compare_fp`, is never fit-tested |
| Screening.NoMatchMeansNoFit | scripts/screen_db.py:65-76 | with no match, every passing conformer that has feature rows failed the fit |
| Screening.MatchIffSomeConformerFits | scripts/screen_db.py:65-76 | a molecule yields a match exactly when some passing conformer with feature rows fits; however many fit, there is one match |
| Screening.EmptyQueryKeepsEveryConformer | scripts/screen_db.py:51-54 | with an empty query fingerprint, every conformer of the molecule passes |
| Screening.Outcomes | scripts/screen_db.py:45 | one outcome per molecule name, in order; a present outcome is a match under that molecule's own name |
| Screening.Reported | scripts/screen_db.py:45-76 | the reported matches are exactly the present per-molecule outcomes |
| Screening.ReportedFollowsNames | scripts/screen_db.py:45 | outcomes that carry their own molecule's name come out in molecule order |
| Screening.ScreenMolecules | scripts/screen_db.py:45-76 | at most one match per molecule; matches follow molecule order; a match is reported exactly when screening its molecule found it |
| Screening.Screen | scripts/screen_db.py:33-76 | the run fails with `IncompatibleBinStep` exactly when the bin steps differ, and then it reports nothing; otherwise no molecule appears twice, matches follow molecule-name order, each match is its molecule's own, and an absent molecule had no match |
| Screening.ReportedAreMoleculeMatches | scripts/screen_db.py:45-76 | every reported match is the match found by screening its own molecule |
| Screening.UnreportedHadNoMatch | scripts/screen_db.py:45-76 | a screened molecule missing from the report had no match |
| Screening.ScreenOutput | scripts/screen_db.py:36-40 | the written text is replaced by `IncompatibleBinStep` exactly when the bin steps differ |
| Screening.ReportedWritable | scripts/screen_db.py:71-75 | when no molecule name holds a tab or a newline, every reported match has such a name and a non-empty fit result, so its line can be read back |
| Screening.OutputDeterminesMatches | scripts/screen_db.py:71-75 | when no molecule name holds a tab or a newline, the written text reads back to exactly the reported matches, in order |
| ResultLine.NatToString | scripts/screen_db.py:71 | `str` of a non-negative integer is a non-empty string of decimal digits |
| ResultLine.ParseNatToString | scripts/screen_db.py:71 | `int(str(n)) == n` for the printed `conf_id` and fit indices |
| ResultLine.Join | scripts/screen_db.py:71 | `sep.join(parts)` holds only the separator and characters of the parts |
| ResultLine.SplitJoin | scripts/screen_db.py:71 | `sep.join(parts).split(sep) == parts` when there is a part and no part holds the separator |
| ResultLine.FormatLine | scripts/screen_db.py:71 | every result line is non-empty and ends in a newline (its field layout is stated by `ResultLine.LineFields`) |
| ResultLine.LineFields | scripts/screen_db.py:71 | a written line ends in a newline, and its tab-separated fields are the name, the printed `conf_id` and the comma-joined fit result |
| ResultLine.FitItems | scripts/screen_db.py:71 | the comma-joined fit result splits back into numerals that parse to the original indices |
| ResultLine.ParseFormatLine | scripts/screen_db.py:71 | a result line reads back to its match when the name has no tab and the fit result is non-empty |
| ResultLine.Output | scripts/screen_db.py:72-75 | the run writes nothing exactly when there is no match |
| ResultLine.OutputAppend | scripts/screen_db.py:72-76 | each match's line is written after the lines of the earlier matches, with nothing in between |
| ResultLine.ParseOutputRoundTrip | scripts/screen_db.py:71-75 | when every match has a non-empty fit result and a molecule name with no tab and no newline, the concatenated result lines read back to the matches, in order |

## Left out

- SQLite access and `marshal` decoding: these are I/O. The tables are in-memory
  row sequences, and fingerprints are already decoded.
- Row order: the model takes rows in table order. `SELECT DISTINCT(mol_name)`
  is taken to return names in order of first appearance. SQLite promises
  neither; the model fixes one order to state ordering properties. The
  visiting order of groups also assumes that `defaultdict` keeps its keys in
  insertion order, which Python guarantees only from version 3.7.
- SQLite's limit on bound parameters: the `IN (?, ?, ...)` query fails past that
  limit (999 on older versions). The model does not include that failure.
- Exceptions inside the molecule loop: a failed parameter-limited query, a bad
  `marshal` blob, an error from `fit_model` or a failed write aborts the run
  after the lines already written. The model has no such failure; its run
  always reaches the last molecule.
- The `pmapper` library: `Pharmacophore`, `load_from_pma`, `get_fp`,
  `load_from_feature_coords` and `fit_model` are not part of this model. The
  query is a value holding its bin step, fingerprint and features. The fit engine
  is the parameter `fit`. Whether the fingerprint is a sound prefilter for the
  geometric fit depends on that library, so it is not stated.
- Floating point: coordinates are carried as `real` and never computed with. The
  bin step is compared by equality only, as the source does.
- Output writing: the model does not open the output file, choose between file
  and stdout, or write the stderr message. The output is the returned text or
  error. One consequence is not modelled: with `-o`, the output file is created
  empty before the bin-step error is raised.
- Identifiers: `conf_id` and the fit engine's indices are `nat`. The source
  prints them with `str`; negative ids are not modelled.
- Command-line parsing, and `psearch.py` as a whole: these are glue that chains
  model generation, screening and statistics through file paths. They have no
  matching logic.
- Screening.RejectedNeverTested: this is stated only for databases where
  `conf_id` is a key (`Store.UniqueConfIds`). Without that, the code's
  `conf_id IN (...)` query would also fetch rows of a same-numbered conformer.
- Screening.OutputDeterminesMatches: this is stated only for molecule names
  without tabs or newlines. The source writes such names unescaped, and then the
  lines are ambiguous.
