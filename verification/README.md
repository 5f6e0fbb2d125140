# EXFOR record normalisation, modelled in Dafny

This project models the normalisation core of the EXFOR database builder of
nds-mcp. It has two parts:

- The pure library `scripts/exfor_x4i3_common.py`:
  - the element table and the target-code parser (`parse_target`);
  - the projectile and quantity vocabularies;
  - numeric coercion of cells (`to_num`);
  - the energy and kT unit converters;
  - first-match column lookup (`find_index`);
  - the column resolver and point extractor (`extract_points`).
- The control logic of `scripts/build-exfor-from-x4i3.py`:
  - the per-row pipeline of `flush_entry`, with its skip counters, pointer
    normalisation, dataset fallback, derived subentry id and first-write-wins
    deduplication;
  - the loop in `main` that cuts the index rows into per-entry groups.

Everything is a pure function over immutable datatypes. The build is a fold
over index rows. Its state (`Flush.Store`) holds:
- the written-key set;
- the eight named counters;
- the entry and point records appended in place of SQL inserts.

The loader of the x4i3 library becomes a parameter,
`load: Option<string> -> Loaded`, which returns one of:
- `NotFound`;
- `LoadFailed`, standing for any exception raised while loading;
- `Found(datasets)`, the dataset map as an ordered list of `(key, dataset)`
  pairs in dictionary order.

Parsing a numeric string is the parameter `parse: string -> Option<real>`.
It stands for `float(text)` followed by the rejection of NaN and infinities.

Modules, in dependency order:
- `Wrappers`: `Option`.
- `Text`: ASCII strip, upper-case, prefix and substring tests, digit strings.
- `Lists`: `list.index`.
- `Elements`: the 118-symbol table.
- `Target`: `parse_target`.
- `Tables`: projectiles and quantities.
- `Numbers`: `to_num`.
- `Units`: the converters.
- `Columns`: `find_index` and column choice.
- `Points`: `extract_points`.
- `Lookup`: pointer, subentry id and dataset lookup.
- `Flush`: `flush_entry`.
- `Driver`: grouping and the whole build.

The regular expression `^([A-Z]{1,3})-(\d+)(?:-M(\d*)?)?$` is written in two
parts:
- a declarative grammar (`Target.Parts`, `WellFormed`, `Spell`);
- a hand-made scanner (`Target.Split`), proved to invert the grammar in both
  directions.

Python's `$` also matches just before one final newline, so `"FE-56\n"` is
accepted; the model keeps that behaviour.

`max_points` keeps Python slice semantics. A negative value drops rows from
the end rather than meaning "no rows".

## Model

| member | source | states |
|---|---|---|
| Lists.IndexOf | scripts/exfor_x4i3_common.py:78 | `None` exactly when the value is absent; otherwise a position holding it with no earlier occurrence |
| Text.Strip | scripts/exfor_x4i3_common.py:34 | the result is a slice of the input with only whitespace cut from either end; it is empty exactly when the input is all whitespace, and otherwise starts and ends with a non-space |
| Text.Upper | scripts/exfor_x4i3_common.py:49 | same length, and each character is upper-cased: a-z become A-Z, every other character is unchanged |
| Text.UpperShape | scripts/exfor_x4i3_common.py:49 | an upper-cased string has no lower-case letter, and it is all whitespace exactly when the input is |
| Elements.SymbolToZ | scripts/exfor_x4i3_common.py:6-13 | `None` exactly for strings outside the table; otherwise Z is one plus the symbol's first position, so 1 ≤ Z ≤ 118 |
| Elements.TableSize | scripts/exfor_x4i3_common.py:6-13 | the table has 118 symbols and `H` is element 1 |
| Elements.IronIs26 | scripts/exfor_x4i3_common.py:6-13 | `FE` is element 26 |
| Elements.UraniumIs92 | scripts/exfor_x4i3_common.py:6-13 | `U` is element 92 |
| Elements.SymbolsAreShortUpper | scripts/exfor_x4i3_common.py:6-12 | every symbol in the table is one or two upper-case letters |
| Elements.ThreeLettersUnknown | scripts/exfor_x4i3_common.py:13 | no three-letter string is a symbol, although the target pattern admits three letters |
| Elements.LowerCaseUnknown | scripts/exfor_x4i3_common.py:13 | a string with any lower-case letter is not a symbol; matching is exact |
| Elements.UnknownSymbol | scripts/exfor_x4i3_common.py:13 | `XX` is not a symbol |
| Target.Meaning | scripts/exfor_x4i3_common.py:20-25 | the groups name no nuclide exactly when the symbol is unknown; otherwise Z is the table position, A the mass digits' value and the state 0 / 1 / n for no suffix / bare `-M` / `-Mn` |
| Target.Body | scripts/exfor_x4i3_common.py:17 | a missing code is the empty string; otherwise the code itself, or the code minus one final newline, which is dropped only when present |
| Target.Split | scripts/exfor_x4i3_common.py:17-20 | whatever the scanner accepts is a well-formed group triple that spells the input back exactly |
| Target.SplitSpell | scripts/exfor_x4i3_common.py:17-20 | round trip: scanning the spelling of any well-formed group triple gives that triple back |
| Target.ParseTarget | scripts/exfor_x4i3_common.py:16-25 | a parsed nuclide has 1 ≤ Z ≤ 118 and comes from a well-formed spelling of the input (one final newline allowed), read through the table |
| Target.ParseTargetAccepts | scripts/exfor_x4i3_common.py:16-25 | completeness: every well-formed code, with or without a final newline, parses to exactly what its groups name |
| Target.ParseTargetOfElement | scripts/exfor_x4i3_common.py:21-25 | a well-formed code whose symbol is element z parses to (z, mass value, isomer state) |
| Target.IronExample | scripts/exfor_x4i3_common.py:16-25 | `FE-56` parses to (26, 56, 0) |
| Target.BareIsomerExample | scripts/exfor_x4i3_common.py:24 | `U-235-M` parses to (92, 235, 1) |
| Target.NumberedIsomerExample | scripts/exfor_x4i3_common.py:24 | `U-235-M2` parses to (92, 235, 2) |
| Target.ZeroIsomerExample | scripts/exfor_x4i3_common.py:24 | `U-235-M0` parses to state 0, the same as no suffix |
| Target.RejectedExamples | scripts/exfor_x4i3_common.py:17-19 | `FE56`, `fe-56` and a missing code do not parse |
| Target.UnknownSymbolRejected | scripts/exfor_x4i3_common.py:21-23 | `XX-10` matches the pattern but does not parse |
| Target.ThreeLetterSymbolRejected | scripts/exfor_x4i3_common.py:17-23 | every well-formed code with a three-letter symbol fails at the lookup |
| Tables.ProjectileCode | scripts/exfor_x4i3_common.py:4 | a code exists exactly for N, P, G, D, A, HE3 and H; N→n, P→p, G→g, D→d, A→a, and both HE3 and H→h |
| Tables.ProjectileCollapse | scripts/exfor_x4i3_common.py:4 | the only two raw projectiles that share a code are HE3 and H |
| Tables.ProjectileExamples | scripts/exfor_x4i3_common.py:4 | N→n, HE3 and H→h; X and lower-case n are unknown |
| Numbers.ToNum | scripts/exfor_x4i3_common.py:28-43 | None and non-finite values give `None`; a number gives itself; blank text or `-`/`NA`/`N/A` gives `None`; other text is the parse of its stripped form |
| Numbers.PlaceholdersAreNone | scripts/exfor_x4i3_common.py:34-36 | `-`, `NA` and `N/A` never become numbers, whatever the string parser does |
| Numbers.ToNumStable | scripts/exfor_x4i3_common.py:28-43 | coercing an already coerced number gives it back |
| Units.ScaleToEv | scripts/exfor_x4i3_common.py:50-54 | the value in eV for a normalised unit: EV unchanged, KEV ×1e3, MEV ×1e6, GEV ×1e9, MILLI-EV ×1e-3, UEV ×1e-6, NEV ×1e-9, K ×8.617333262e-5; any other unit passes through; the sign is kept |
| Units.ScaleToKev | scripts/exfor_x4i3_common.py:62-72 | the value in keV for a normalised unit: KEV unchanged, EV ÷1000, MEV ×1e3, GEV ×1e6, K ×8.617333262e-8; any other unit passes through; the sign is kept |
| Units.EnergyToEv | scripts/exfor_x4i3_common.py:46-55 | `None` maps to `None`; a number is scaled by the factor of its stripped, upper-cased unit (a missing unit is empty); the sign is kept; an unknown unit passes through |
| Units.KtToKev | scripts/exfor_x4i3_common.py:58-72 | `None` maps to `None`; a number is scaled to keV by its stripped, upper-cased unit; the sign is kept; any unit other than KEV, EV, MEV, GEV and K passes through |
| Units.NormalizeUnit | scripts/exfor_x4i3_common.py:49 | a missing unit is empty; the result is empty exactly when the unit is all whitespace; it has no lower-case letter and no whitespace at either end, and is the upper-cased form of a slice of the unit |
| Units.NormalizeUnitCutsBlanks | scripts/exfor_x4i3_common.py:49 | normalising cuts only whitespace: the result is the upper-cased unit with an all-whitespace prefix and suffix removed, so no letter of the unit is lost |
| Units.PlainUnitIsNormal | scripts/exfor_x4i3_common.py:49 | a unit of upper-case letters and dashes is its own normal form |
| Units.ConvertersAgree | scripts/exfor_x4i3_common.py:46-72 | for EV, KEV, MEV, GEV and K, the eV result is exactly 1000 times the keV result |
| Units.SubElectronvoltUnitsOnlyConvertAsEnergy | scripts/exfor_x4i3_common.py:46-72 | MILLI-EV, UEV and NEV are scaled as energies but passed through unchanged as kT |
| Units.NormalizeUnitIdempotent | scripts/exfor_x4i3_common.py:49 | normalising a unit twice equals normalising it once |
| Units.UnknownUnitPassesThrough | scripts/exfor_x4i3_common.py:46-72 | a unit neither converter knows leaves the value unchanged in both |
| Units.EnergyExamples | scripts/exfor_x4i3_common.py:46-55 | 1000 KEV is 1e6 eV; 1 K is 8.617333262e-5 eV; `None` stays `None` |
| Columns.FindIndex | scripts/exfor_x4i3_common.py:75-79 | `None` exactly when no candidate occurs; otherwise the first occurrence of the earliest candidate that occurs at all |
| Columns.FirstMatchUnique | scripts/exfor_x4i3_common.py:75-79 | at most one (candidate, position) pair meets the first-match description |
| Columns.CandidateOrderWins | scripts/exfor_x4i3_common.py:101 | with labels `ERR`, `DATA-ERR`, the error column is `DATA-ERR` (position 1): candidate order beats label order |
| Columns.FirstValueLabel | scripts/exfor_x4i3_common.py:89-95 | the first label that has no `ERR`, does not start with `D(` and is not energy-like; `None` exactly when every label is excluded |
| Columns.ValueColumn | scripts/exfor_x4i3_common.py:88-97 | the first `DATA` label when there is one, otherwise the first non-excluded label; `None` exactly when every label is excluded |
| Columns.ResolveLayout | scripts/exfor_x4i3_common.py:88-103 | a layout exists exactly when a value column resolves. The energy, kT and error columns are the first matches of their own candidate lists (`EN`…`E`, `KT`…`K-T`, `DATA-ERR`…`STAT-W G`), the plus and minus columns the first `+DATA-ERR` and `-DATA-ERR` labels, and every column named lies within the label list |
| Columns.LastCandidateFirst | scripts/exfor_x4i3_common.py:75-79 | when the first label is the last candidate and no other candidate occurs, the match is position 0 |
| Columns.LeadingEnergyColumnIsValueColumn | scripts/exfor_x4i3_common.py:90-99 | a leading `E` label with no `DATA` label and no earlier energy candidate is both the value and the energy column |
| Columns.EnergyColumnCanBeValueColumn | scripts/exfor_x4i3_common.py:90-99 | with labels `E`, `CS`, column 0 is both the value and the energy column |
| Points.NormLabels | scripts/exfor_x4i3_common.py:83-84 | same length; each label is upper-cased, and an absent one becomes empty |
| Points.SliceEnd | scripts/exfor_x4i3_common.py:106 | the length of `data[:max_points]`: never more than the rows; a non-negative bound keeps that many rows or all of them; a negative one drops that many rows from the end, or all of them |
| Points.Uncertainty | scripts/exfor_x4i3_common.py:118-126 | never negative; an in-range error column alone decides (its absolute value, or none); otherwise the mean absolute value of a numeric ± pair, or none |
| Points.PointAt | scripts/exfor_x4i3_common.py:107-127 | a row yields a point exactly when it is a list that reaches the value column and that cell is numeric. The point carries the row index, that number and the row's uncertainty. A MACS point never has an energy, and has kT exactly when the kT cell is numeric; other points have the reverse. A present energy is the energy cell converted to eV by its column's unit, a present kT the kT cell converted to keV by its column's unit |
| Points.Collect | scripts/exfor_x4i3_common.py:106-127 | points come out in strictly increasing row order, each is what its own row yields, and there are no more points than rows |
| Points.CollectComplete | scripts/exfor_x4i3_common.py:106-127 | no row that yields a point is dropped |
| Points.ExtractPoints | scripts/exfor_x4i3_common.py:82-128 | no labels or no value column give `[]`; at most `max_points` points; indices strictly increase and stay below the slice end; each point is its row's point |
| Points.ExtractPointsComplete | scripts/exfor_x4i3_common.py:106-111 | every usable row inside the `max_points` slice contributes its point |
| Points.ExtractedPointShape | scripts/exfor_x4i3_common.py:109-126 | each point's value is its row's numeric value cell; MACS points have no energy, others no kT; uncertainties are never negative |
| Lookup.NormalizePointer | scripts/build-exfor-from-x4i3.py:99 | the result is a single space exactly for a missing or blank pointer, otherwise the stripped pointer |
| Lookup.SubentryId | scripts/build-exfor-from-x4i3.py:111 | the bare subentry for the blank pointer, otherwise subentry, `:` and pointer |
| Lookup.SubentryIdInjective | scripts/build-exfor-from-x4i3.py:111-112 | when subentries contain no `:`, equal derived ids mean the same subentry and the same pointer |
| Lookup.FirstKey | scripts/build-exfor-from-x4i3.py:86-88 | the first key the test accepts, or `None` exactly when it accepts none |
| Lookup.FindDataset | scripts/build-exfor-from-x4i3.py:100-106 | the exact-key dataset when one exists, otherwise the first dataset of the same subentry; `None` exactly when that subentry has no dataset |
| Flush.Classify | scripts/build-exfor-from-x4i3.py:89-119 | the gates run in source order: target and quantity, then projectile, then dataset, each skip an if-and-only-if. A row passes on to the duplicate-key check exactly when its dataset yields points. A missing dataset means no dataset of that subentry. An inserted record carries the parsed nuclide, the projectile code, the derived id and a NULL year, and its points are the extracted ones |
| Flush.Effect | scripts/build-exfor-from-x4i3.py:89-127 | what each outcome does to the store: a skip moves only its own counter, a duplicate changes nothing, an insert appends the entry, its stamped points and its key and adds one entry and the point count to the counters |
| Flush.ApplyRow | scripts/build-exfor-from-x4i3.py:89-127 | keeps the store consistent; no counter decreases; records are only appended. Per outcome of the row: a skip moves only its own counter; a duplicate leaves the store unchanged; an insert appends exactly that entry, its points stamped with entry and subentry id, and its key |
| Flush.InsertKeeps | scripts/build-exfor-from-x4i3.py:115-127 | inserting under a fresh key keeps the counters equal to the table sizes, keys unique and every point tied to an entry |
| Flush.FirstWriteWins | scripts/build-exfor-from-x4i3.py:112-114 | a row whose key is already written adds no entry, point or key |
| Flush.KeysCount | scripts/build-exfor-from-x4i3.py:125-126 | distinct entry keys give a written set as large as the entry list |
| Flush.EntriesMatchWritten | scripts/build-exfor-from-x4i3.py:125-127 | `entries_inserted` equals the size of the written-key set |
| Flush.ApplyRows | scripts/build-exfor-from-x4i3.py:89-127 | consistency and append-only records are kept; no counter decreases; the load counters do not move; the row counters rise by at most one per row |
| Flush.ApplyRowsSnoc | scripts/build-exfor-from-x4i3.py:89-114 | rows are applied first to last: one more row is applied to the store all earlier rows produced, so with ApplyRow's duplicate clause the first of two rows with the same key is the one kept |
| Flush.KeysWhereMembers | scripts/build-exfor-from-x4i3.py:112-125 | a key is among the selected keys exactly when some accepted row has it |
| Flush.ApplyRowWrites | scripts/build-exfor-from-x4i3.py:89-125 | one row writes its key exactly when it clears every gate (target, quantity, projectile, dataset, non-empty points); otherwise the key set is unchanged |
| Flush.ApplyRowSkips | scripts/build-exfor-from-x4i3.py:89-110 | one row moves the skip counters by exactly one when a gate stops it and by zero when it clears every gate |
| Flush.ApplyRowsWrites | scripts/build-exfor-from-x4i3.py:89-125 | the key set after a loaded entry is the key set before plus exactly the keys of its rows that clear every gate, so dropping any passing row changes it |
| Flush.ApplyRowsSkips | scripts/build-exfor-from-x4i3.py:89-110 | the skip counters rise by exactly the number of rows that some gate stops |
| Flush.FlushEntry | scripts/build-exfor-from-x4i3.py:74-127 | an empty group changes nothing; a missing entry leaves the store as it was except `missing_entries` one higher, a failing one except `entry_load_errors` one higher; a loaded entry applies its rows in order |
| Driver.StepKeepsRows | scripts/build-exfor-from-x4i3.py:129-137 | one loop iteration adds its row at the end of the rows handed to flushes |
| Driver.Step | scripts/build-exfor-from-x4i3.py:130-137 | after an iteration the current entry is the row's and the row ends the pending list; a row of the current entry (or the first row) is appended; a row of another entry closes the pending group under the old entry and starts a fresh one |
| Driver.Run | scripts/build-exfor-from-x4i3.py:129-137 | no rows leave the initial state; otherwise the current entry is the last row's and the pending list is not empty |
| Driver.GroupsKeepRows | scripts/build-exfor-from-x4i3.py:129-141 | the concatenated groups passed to the flushes are the input rows, in order |
| Driver.StepKeyed | scripts/build-exfor-from-x4i3.py:130-137 | one iteration keeps every group non-empty and single-entry, with neighbouring groups different |
| Driver.GroupsAreRuns | scripts/build-exfor-from-x4i3.py:129-141 | for a non-empty index, each flushed group has a single entry and is not empty, and adjacent groups differ |
| Driver.GroupsTagged | scripts/build-exfor-from-x4i3.py:129-141 | every flushed group, for any index, holds only rows of its own entry |
| Driver.GroupAccounts | scripts/build-exfor-from-x4i3.py:74-110 | for a single-entry group: when it is non-empty and loads, its passing keys and stopped rows are the index-level ones; otherwise it contributes no key and no skip |
| Driver.FlushEntryAccounts | scripts/build-exfor-from-x4i3.py:74-127 | one flush adds exactly the index-level keys and skips of its group |
| Driver.FlushAllStep | scripts/build-exfor-from-x4i3.py:129-141 | flushing one more single-entry group adds exactly that group's index-level keys and skips |
| Driver.FlushAllWrites | scripts/build-exfor-from-x4i3.py:129-141 | flushing single-entry groups adds exactly the keys of their rows whose entry loads and which clear every gate |
| Driver.FlushAllSkips | scripts/build-exfor-from-x4i3.py:129-141 | flushing single-entry groups moves the skip counters by exactly the number of their loaded rows that a gate stops |
| Driver.FlushAll | scripts/build-exfor-from-x4i3.py:129-141 | flushing groups keeps consistency and only appends entries; the row counters rise by at most the number of rows; `missing_entries` rises by exactly the number of non-empty groups not found and `entry_load_errors` by exactly the number that fail to load |
| Driver.Build | scripts/build-exfor-from-x4i3.py:74-141 | the final store is consistent and an empty index writes nothing. The written keys are exactly those of the index rows whose entry loads and which clear every gate, and `entries_inserted` is their number. The skip counters sum to the number of loaded rows a gate stops. `missing_entries` and `entry_load_errors` count the groups not found and failing to load |
| Driver.BuildShape | scripts/build-exfor-from-x4i3.py:129-141 | the final store is consistent, at most one row counter moves per index row, and an empty index leaves the store empty |
| Driver.BuildWrites | scripts/build-exfor-from-x4i3.py:74-141 | the keys a build writes are exactly those of its loaded, passing index rows |
| Driver.BuildInserted | scripts/build-exfor-from-x4i3.py:125-126 | `entries_inserted` equals the number of keys written |
| Driver.BuildSkips | scripts/build-exfor-from-x4i3.py:89-110 | the skip counters of a build sum to the number of loaded index rows that a gate stops |
| Driver.EmptyIndex | scripts/build-exfor-from-x4i3.py:141 | an empty index makes one flush of no rows, which leaves the empty store unchanged |
| Driver.RunBuild | scripts/build-exfor-from-x4i3.py:129-141 | the row-by-row loop, with its pending list and current entry, computes exactly `Build` |

## Left out

- SQLite: connections, schema, PRAGMAs, the meta table, timestamps, commits every 20,000 rows, progress printing and the final `os.replace`. These are storage and I/O. Inserts are modelled as appends to the store's record sequences.
- The SQL query's `WHERE` filter and `ORDER BY`: the model takes the rows it returns as input. Because of that filter, `projectile` and `quantity` are plain strings that are never NULL. `subent` and the entry id are also taken as never NULL. A NULL entry id would reach the insert into the entries table, whose `entry_id` column is `NOT NULL`, and abort the build; the model does not represent that abort.
- The `--limit` option only shortens the query. It is not modelled.
- `X4DBManagerDefault.retrieve` and `getSimplifiedDataSets` are foreign calls. They are the `load` parameter. Keys inside a loaded dataset map are assumed distinct, since it is a dictionary, so "first matching key" is the dictionary lookup.
- String to float parsing, NaN and infinity detection, and floating-point rounding are not modelled. `real` stands in for float, and parsing is the `parse` parameter. An int or float cell is `Cell.Number` (finite) or `Cell.NonFinite`. Cells of other Python types are out of scope.
- `str(item)` of a non-string label is not modelled: labels and units are `Option<string>`.
- Python's Unicode `upper()`, `strip()` and `\d` are modelled on ASCII only: letters a-z, the ASCII whitespace `str.strip` removes, and digits 0-9.
- Elements.SymbolToZ: that the 118 symbols are pairwise distinct is not proved; the contract names the first occurrence, which is what the Python dictionary holds when the symbols are distinct.
- Driver.GroupsAreRuns: does not cover the empty index, whose single final flush has no entry and no rows and changes nothing.
- Driver.Build: `points_inserted` is not summed over the index; the model states how each insert moves it (Flush.Effect, Flush.ApplyRow) but has no whole-build total for it.
