# Climate warehouse ETL — a Dafny model of its transform and load core

This project models the core of a climate ETL. The ETL reshapes a wide table of
temperature-change records into long records, with one year column per record.
It classifies each record along two hierarchies: areas (world > continent >
subregion > country) and periods (month, season, annual). It then reloads a
star schema with a staging table, three dimension tables and a fact table.

The modules follow the program's structure:

- `wrappers.dfy` (`Wrappers`): `Option` and `Result`.
- `text.dfy` (`Text`): Python's `str.strip` over its whitespace set, and the
  parse of a year label (`"Y1961"` with every `Y` removed, then `int`).
- `config.dfy` (`Config`): the constant tables of `etl/config.py`, the
  first-match search both classifiers run over them, and the table facts the
  classifiers rely on.
- `area_classifier.dfy` (`AreaClassifier`): `classify_area` and `get_parent_area`.
- `period_classifier.dfy` (`PeriodClassifier`): `classify_period`,
  `get_month_number`, `get_quarter` and `get_period_attributes`.
- `transform.dfy` (`Transform`): `unpivot_years`, the two classification
  steps, `validate_data` and `transform_data`, as functions over sequences of
  records. Each error the source raises is a `Failure`:
  - no column starting with `Y` (the log line indexes the empty list);
  - a year label that is not an integer, or whose value int64 cannot hold;
  - an unknown period name.
- `star_schema.dfy` (`StarSchema`): the table operations the load performs,
  as functions on values:
  - `drop_duplicates`;
  - numbering by an identity column restarted at 1;
  - the two-pass parent fixup of `core.dim_area`, including the error a
    scalar subquery raises when it returns more than one row;
  - the three-way inner join that fills `core.fact_temperature`.
- `load.dfy` (`Load`): the class `Warehouse`. It has one sequence field per
  table, and its methods follow `etl/load.py` step by step. These steps are:
  - truncate, then append;
  - the batch loop of `load_to_staging`;
  - the per-subregion UPDATE loop of `update_area_hierarchy`, which leaves
    `dim_area` as it was when it fails.

  Each method is proved against the functions of `StarSchema`. The lemmas
  about `Reload` state what a whole successful load leaves behind.

## Notes

Four facts about the code shape the model:

- `SUBREGION_TO_CONTINENT` in `etl/config.py` has 22 entries.
- A subregion whose name has no continent is skipped by the UPDATE loop, so it
  keeps its previous parent key. After a fresh insert that key is null.
- `update_area_hierarchy` can fail. A duplicated world row, or two continent
  rows with the same name, make a scalar subquery return several rows.
  `StarSchema.FreshFixupFails` says which frames cause this.
- After a fresh load, parent chains are at most two links long: subregion to
  continent to world.

## Model

| member | source | states |
|---|---|---|
| Config.Get | etl/utils/area_classifier.py:51 | `dict.get`: a value exactly when the key is present, and then the stored value |
| Config.FirstMatch | etl/utils/area_classifier.py:23-25 | the first (type, names) entry whose list contains the name; none exactly when no list contains it |
| Config.AreaListsDisjoint | etl/config.py:39-58 | the world, continent and subregion lists are pairwise disjoint |
| Config.PeriodListsDisjoint | etl/config.py:60-73 | the month, season and annual lists are pairwise disjoint |
| Config.MonthTable | etl/config.py:76-80 | MONTH_TO_NUMBER's keys are exactly the 12 distinct month names, and the i-th month maps to i+1 |
| Config.MonthNumbersUnique | etl/config.py:76-80 | MONTH_TO_NUMBER's values lie in 1..12 and no two months share one |
| Config.SeasonTable | etl/config.py:83-94 | SEASON_TO_QUARTER's keys are exactly the 8 distinct season spellings |
| Config.SeasonQuarters | etl/config.py:83-94 | the four hyphen spellings map to quarters 1..4 and the four en-dash spellings map to the same quarters; each group uses only its own dash |
| Config.QuarterHasTwoSpellings | etl/config.py:83-94 | every quarter value lies in 1..4 and belongs to one of exactly two spellings, one with hyphens and one with en-dashes |
| Config.SubregionTable | etl/config.py:100-128 | SUBREGION_TO_CONTINENT's keys are exactly the 22 distinct subregion names, and each value is in the continent list |
| Config.Windows | etl/config.py:28-31 | MIN_YEAR <= MAX_YEAR and MIN_TEMP_CHANGE < MAX_TEMP_CHANGE |
| Text.Strip | etl/utils/area_classifier.py:20 | the stripped name is no longer than the input and has no whitespace at either end |
| Text.StripTrimmed | etl/utils/area_classifier.py:20 | stripping a name without surrounding whitespace returns it unchanged |
| Text.StripIdempotent | etl/utils/area_classifier.py:20 | stripping twice is stripping once |
| Text.StripIgnoresPadding | etl/utils/area_classifier.py:20 | whitespace added on either side does not change the stripped name |
| Text.Without | etl/transform.py:51 | `str.replace("Y", "")`: the result holds the input's characters other than `Y`, each as often as in the input |
| Text.WithoutAppend | etl/transform.py:51 | deleting `Y` distributes over concatenation, so the remaining characters keep their order |
| Text.ParseYear | etl/transform.py:51 | a label parses exactly when, with every `Y` removed, it is a non-empty string of digits whose value is below 2^63; the year is then below 2^63 |
| Text.YearLabelRoundTrip | etl/transform.py:51 | `"Y"` followed by the decimal digits of n parses back to n when n is below 2^63, and fails otherwise |
| AreaClassifier.ClassifyArea | etl/utils/area_classifier.py:10-28 | the type is world, continent or subregion exactly when the stripped name is in that list, and country exactly when it is in none |
| AreaClassifier.SearchAreaMapping | etl/utils/area_classifier.py:23-25 | the search over AREA_TYPE_MAPPING returns world, then continent, then subregion membership in that order |
| AreaClassifier.UnknownAreaIsCountry | etl/utils/area_classifier.py:27-28 | "Atlantis" classifies as a country |
| AreaClassifier.ClassifyAreaIgnoresPadding | etl/utils/area_classifier.py:20 | surrounding whitespace does not change the classification |
| AreaClassifier.PaddedContinent | etl/utils/area_classifier.py:20-25 | " Africa " and "Africa" both classify as a continent |
| AreaClassifier.ListedNamesAreTrimmed | etl/config.py:39-58 | no listed area name has whitespace at either end |
| AreaClassifier.ListedNamesClassify | etl/utils/area_classifier.py:23-25 | every listed name classifies as its own list's type |
| AreaClassifier.GetParentArea | etl/utils/area_classifier.py:31-55 | only the continent and subregion types have a parent; a subregion has one exactly when its unstripped name is a key of SUBREGION_TO_CONTINENT, and it is the continent that table maps the name to |
| AreaClassifier.ContinentParentIsWorld | etl/utils/area_classifier.py:47-48 | every continent's parent is "World", which classifies as the world |
| AreaClassifier.ListedSubregionParent | etl/utils/area_classifier.py:50-51 | every listed subregion's parent is its SUBREGION_TO_CONTINENT entry, and that parent is in the continent list |
| AreaClassifier.SubregionParentIsContinent | etl/utils/area_classifier.py:50-51 | for every exact name classified as a subregion, the parent exists and classifies as a continent |
| AreaClassifier.PaddedNameUnmapped | etl/config.py:100-128 | no name with leading whitespace is a key of SUBREGION_TO_CONTINENT |
| AreaClassifier.PaddedSubregionHasNoParent | etl/utils/area_classifier.py:50-51 | " Eastern Africa" classifies as a subregion but has no parent, because only the classifier strips |
| PeriodClassifier.ClassifyPeriod | etl/utils/period_classifier.py:10-30 | month, season or annual exactly when the stripped name is in that list; otherwise a failure carrying the stripped name |
| PeriodClassifier.SearchPeriodMapping | etl/utils/period_classifier.py:23-28 | the search over PERIOD_TYPE_MAPPING checks month, then season, then annual membership |
| PeriodClassifier.GetMonthNumber | etl/utils/period_classifier.py:33-43 | a month number exactly for the 12 exact month names |
| PeriodClassifier.GetQuarter | etl/utils/period_classifier.py:46-56 | a quarter exactly for the 8 exact season spellings |
| PeriodClassifier.GetPeriodAttributes | etl/utils/period_classifier.py:59-81 | fails exactly when the stripped name is unlisted, with the classifier's error and no partial record; otherwise the type is the classifier's, and the month number and quarter are the MONTH_TO_NUMBER and SEASON_TO_QUARTER lookups of the unstripped name, present exactly for exact month and season names |
| PeriodClassifier.MonthNumbers | etl/utils/period_classifier.py:43 | month numbers lie in 1..12, and the i-th month name gets i+1 |
| PeriodClassifier.QuarterRange | etl/utils/period_classifier.py:56 | quarters lie in 1..4 |
| PeriodClassifier.QuarterSpellingsAgree | etl/utils/period_classifier.py:56 | the hyphen and en-dash spellings of a season give the same quarter, i+1 for the i-th season |
| PeriodClassifier.MonthAttributes | etl/utils/period_classifier.py:77-81 | an exact month name: type month, its month number, no quarter |
| PeriodClassifier.SeasonAttributes | etl/utils/period_classifier.py:77-81 | an exact season spelling: type season, its quarter, no month number |
| PeriodClassifier.AnnualAttributes | etl/utils/period_classifier.py:77-81 | the annual label: type annual, neither number |
| PeriodClassifier.PaddedNameLosesAttributes | etl/utils/period_classifier.py:77-81 | a listed name with whitespace before it, after it or both keeps its type but loses its month number and quarter |
| PeriodClassifier.PaddedJanuary | etl/utils/period_classifier.py:77-81 | " January" is a month with neither a month number nor a quarter |
| PeriodClassifier.UnknownPeriodFails | etl/utils/period_classifier.py:30 | "Foo" is rejected as an unknown period name |
| Transform.YearColumns | etl/transform.py:31 | the positions of exactly the columns whose label starts with "Y", in increasing order |
| Transform.ParseYears | etl/transform.py:51 | the labels parse exactly when each one does, giving each label's year in order; otherwise the error names a label that does not parse |
| Transform.Melt | etl/transform.py:42-48 | columns times rows records, column by column: record k comes from row k mod n and the (k div n)-th column |
| Transform.UnpivotYears | etl/transform.py:15-68 | fails with NoYearColumns exactly when no label starts with "Y"; otherwise succeeds exactly when there are no rows or every year label parses. On success it has rows times year-column records, each with its row's identifiers, the parsed year and the row's cell |
| Transform.MeltYearColumns | etl/transform.py:42-52 | for a frame with rows and year columns: succeeds exactly when every year label parses; otherwise fails naming an unparsable label. On success the records follow the column-major layout |
| Transform.MeltLayout | etl/transform.py:42-64 | the melted records follow the column-major layout and carry only identifiers of input rows |
| Transform.AddAreaClassification | etl/transform.py:71-92 | the same records in the same order, each with the area type of its area name |
| Transform.TryMap | etl/transform.py:112 | a row-by-row step that may raise succeeds exactly when it succeeds on every row; otherwise the error is from the first row it fails on |
| Transform.AddPeriodClassification | etl/transform.py:95-122 | succeeds exactly when every period name is known, with the rows in order and each row's period attributes; otherwise fails with the first unknown name's error |
| Transform.ValidateData | etl/transform.py:152-162 | a record is kept exactly when it is an input record whose year lies in [MIN_YEAR, MAX_YEAR] |
| Transform.ValidateDataAppend | etl/transform.py:159-162 | filtering distributes over concatenation, so kept rows keep their order |
| Transform.ValidateDataKeepsValid | etl/transform.py:157-162 | a frame with no out-of-window year is returned unchanged |
| Transform.ValidateDataCounts | etl/transform.py:152-162 | each in-window record is kept as often as it occurs, and every other record is dropped; nulls and values play no part |
| Transform.ExtremeTemperatures | etl/transform.py:164-174 | the reported rows are exactly the non-null "Temperature change" values outside the bounds |
| Transform.ExtremeTemperaturesKept | etl/transform.py:164-186 | a reported extreme value in the year window is never dropped |
| Transform.ClassificationTrace | etl/transform.py:216-219 | the classified records are the input records one for one and in order, each with its own area type and period attributes |
| Transform.TransformData | etl/transform.py:194-227 | succeeds exactly when the unpivot and both classifications do; the output has at most rows times year-columns records, each in the year window, classified by its own names, with a source row's identifiers; every output record is an unpivoted record, and every unpivoted record in the year window is kept |
| StarSchema.Dedup | etl/load.py:117 | `drop_duplicates`: the same set of tuples, each once, no more rows than the input |
| StarSchema.DedupOrder | etl/load.py:117 | the kept tuples are in the order of their first occurrence |
| StarSchema.DedupDistinct | etl/load.py:117 | a sequence without duplicates is returned unchanged |
| StarSchema.DedupIdempotent | etl/load.py:117 | deduplicating twice is deduplicating once |
| StarSchema.DimAreaRows | etl/load.py:117-132 | the inserted area rows have keys 1..n and null parents; each distinct area tuple of the frame appears exactly once, and no other tuple appears |
| StarSchema.DimTimePeriodRows | etl/load.py:205-226 | the period rows have keys 1..n, and each distinct period tuple of the frame appears exactly once |
| StarSchema.DimMetricRows | etl/load.py:242-263 | the metric rows have keys 1..n, and each distinct metric tuple of the frame appears exactly once |
| StarSchema.KeysWhere | etl/load.py:158-160 | `SELECT area_key ... WHERE`: exactly the keys of the rows the condition selects |
| StarSchema.KeysWhereMany | etl/load.py:158-160 | a subquery yields more than one key exactly when two different rows satisfy its condition |
| StarSchema.ScalarSubquery | etl/load.py:157-161 | a scalar subquery raises exactly when it yields more than one key; it is null exactly when it yields none, and otherwise it is that single key |
| StarSchema.SetContinentParents | etl/load.py:155-163 | raises exactly when a continent row exists and more than one world row does. On success only continent rows change, and only in their parent: it becomes the single world key, or null when there is no world row |
| StarSchema.SubregionParentUpdate | etl/load.py:176-187 | a name without a continent leaves the row alone. A mapped name raises exactly when more than one continent row carries the mapped name; otherwise the parent becomes that row's key, or null when there is none |
| StarSchema.SetParentOfKey | etl/load.py:179-187 | `UPDATE ... WHERE area_key = :area_key` sets the parent of the rows with that key and changes nothing else |
| StarSchema.SubregionStep | etl/load.py:174-187 | one iteration of the subregion loop changes no key and no area tuple |
| StarSchema.ApplySubregionSteps | etl/load.py:166-189 | the subregion loop changes no key and no area tuple |
| StarSchema.FixupHierarchy | etl/load.py:153-189 | `update_area_hierarchy` on success changes no key and no area tuple |
| StarSchema.FixSubregionRow | etl/load.py:174-187 | one row's fixup keeps its key and area; rows that are not subregions are unchanged |
| StarSchema.FixRows | etl/load.py:174-187 | the fixup of every row succeeds exactly when each row's does, and then gives each row's fixed version with keys and areas unchanged |
| StarSchema.StepsMatchRows | etl/load.py:174-187 | the UPDATE loop over the first m subregions equals fixing the first m rows one by one |
| StarSchema.FixupHierarchyByRows | etl/load.py:153-189 | the whole fixup is the continent UPDATE followed by the row-by-row subregion fixup |
| StarSchema.SubregionParentUpdateFails | etl/load.py:176-187 | one subregion's UPDATE raises exactly when its name is mapped and more than one continent row has the mapped name |
| StarSchema.FixupHierarchyFails | etl/load.py:153-189 | the fixup succeeds exactly when there is at most one world row (if any continent exists) and no mapped subregion's continent name is on two continent rows |
| StarSchema.FixupHierarchyParents | etl/load.py:155-187 | on success only parent keys change. A continent gets the key of the unique world row, or null. A mapped subregion gets its continent's key, or null. Every other row keeps its parent |
| StarSchema.FixupKeepsRows | etl/load.py:155-187 | the fixup changes no key and no area tuple |
| StarSchema.FreshHierarchyGoesUp | etl/load.py:155-187 | after fixing freshly inserted rows, each parent link goes exactly one level up: continent to world, subregion to continent |
| StarSchema.MatchedKeysMany | etl/load.py:117-132 | on rows holding exactly the frame's distinct area tuples, a subquery yields several keys exactly when the frame has two different tuples it selects |
| StarSchema.FreshFixupFails | etl/load.py:103-189 | the fixup of a frame's freshly inserted areas fails exactly when the frame has a continent and two different world tuples, or a mapped subregion whose continent name is on two different continent tuples |
| StarSchema.FreshHierarchyIsShallow | etl/load.py:155-187 | after fixing freshly inserted rows, a chain of two links ends at a world row without a parent, so chains are acyclic and at most two links long |
| StarSchema.JoinKeys | etl/load.py:311-316 | the keys of exactly the dimension rows whose join column equals the code; at most one when the column is unique |
| StarSchema.Combinations | etl/load.py:302-310 | one fact per (area, period, metric) key triple, carrying the staging row's year and value |
| StarSchema.FactJoin | etl/load.py:302-317 | a fact is in the join exactly when some staging row yields it |
| StarSchema.FactJoinMembers | etl/load.py:302-317 | a fact is in the join exactly when some staging row and some area, period and metric rows match on m49_code, months_code = period_code and element_code = metric_code, and the fact carries their keys and the row's year and value |
| StarSchema.FactsForMembers | etl/load.py:302-317 | the facts of one staging row are exactly its matching (area, period, metric) triples |
| StarSchema.UnmatchedRowContributesNothing | etl/load.py:310-316 | a staging row with an unmatched key yields no fact |
| StarSchema.UniqueKeysAtMostOneFactPerRow | etl/load.py:310-316 | when each dimension's join column is unique, there are at most as many facts as staging rows |
| StarSchema.FactJoinCoversStaging | etl/load.py:302-317 | when every staging row matches, there are at least as many facts as staging rows |
| Load.StagingRows | etl/load.py:73-80 | `df[staging_cols]`: one staging row per frame row, in order, holding that row's record |
| Load.LoadedAreas | etl/load.py:103-137 | loading dim_area fails exactly on a hierarchy conflict in the frame; otherwise the rows are the inserted distinct area rows with only parent keys changed |
| Load.Reload | etl/load.py:377-422 | a whole load fails exactly on a hierarchy conflict in the frame. Otherwise staging holds the frame's records in order, dim_area the inserted distinct area rows with only parent keys changed, dim_time_period and dim_metric the keyed distinct period and metric rows, and the fact table is the join of the other four tables |
| Load.FailurePersists | etl/load.py:174-189 | once one subregion UPDATE fails, the whole loop fails with that error |
| Load.Warehouse.TruncateStaging | etl/load.py:46-59 | staging is emptied and nothing else changes |
| Load.Warehouse.LoadToStaging | etl/load.py:62-100 | the batches together append the frame's staging projection, in order; nothing else changes |
| Load.Warehouse.UpdateAreaHierarchy | etl/load.py:140-191 | succeeds exactly when the fixup does, and then replaces dim_area with it; on failure no table changes |
| Load.Warehouse.LoadDimArea | etl/load.py:103-137 | dim_area becomes the fixed-up distinct area rows, or on failure the inserted rows without parents; no other table changes |
| Load.Warehouse.LoadDimTimePeriod | etl/load.py:194-228 | dim_time_period becomes the keyed distinct period rows; nothing else changes |
| Load.Warehouse.LoadDimMetric | etl/load.py:231-265 | dim_metric becomes the keyed distinct metric rows; nothing else changes |
| Load.Warehouse.LoadDimensions | etl/load.py:268-282 | all three dimensions are reloaded, or on an area failure only dim_area is, and the other two are not touched |
| Load.Warehouse.LoadFacts | etl/load.py:285-326 | fact_temperature becomes the join of staging with the three dimensions; nothing else changes |
| Load.Warehouse.GetLoadStatistics | etl/load.py:345-374 | the row count of each of the five tables; nothing changes |
| Load.Warehouse.LoadData | etl/load.py:377-422 | on success every table is what the frame alone determines, whatever it held before, and the counts are those tables' lengths; on failure staging and dim_area are replaced and the error is the fixup's |
| Load.LoadTwice | etl/load.py:377-422 | loading the same frame twice gives the same outcome, and on success the same tables |
| Load.ReloadAreaRows | etl/load.py:103-137 | after a successful load dim_area has keys 1..n and holds each distinct area tuple of the frame exactly once |
| Load.ReloadParentLinks | etl/load.py:140-191 | after a successful load every parent link goes exactly one hierarchy level up |
| Load.EveryRowJoins | etl/load.py:302-317 | when every frame row's area, period and metric tuples have dimension rows, every staging row yields a fact with its year and value |
| Load.ReloadEveryRowHasFact | etl/load.py:302-317 | after a successful load every staging row has a fact with its year and value, and there are at least as many facts as frame rows |
| Load.ReloadCounts | etl/load.py:345-374 | after a successful load, staging counts the frame's rows, each dimension has at most that many rows, and facts at least that many |

## Left out

- `etl/extract.py` and `etl/run_pipeline.py` are not part of this model. They read files, set up logging, time the run and map exceptions to exit codes.
- `get_engine`, `test_connection` and `refresh_analytics_views` are not modelled. They open the connection and call an opaque database function. `Load.Warehouse.LoadData` therefore omits the connection test and the view refresh.
- Reading the environment in `etl/config.py` is left out. The batch size is a parameter of the load.
- Load.Warehouse.LoadToStaging: requires a positive batch size. A batch size of 0 (where `range` raises) and a negative one (where the loop body never runs) are not modelled.
- Load.Warehouse.LoadData: requires a positive batch size, for the same reason.
- Load.LoadTwice: requires a positive batch size, for the same reason.
- Logging is left out, including the null-percentage division that only feeds a log line.
- Temperature values are `Option<real>`. Only comparisons with the bounds are modelled, not floating-point behaviour.
- The `month_number` and `quarter` columns are integers or null. Pandas' conversion of such a column to float is not modelled.
- Text.ParseYear: accepts only ASCII digits after removing every "Y". The int64 limit is modelled, as on platforms where numpy's default integer is 64 bits wide. Python's `int` also accepts surrounding whitespace, a sign, underscores between digits and other Unicode digits. Such labels are rejected here.
- Identifier cells are assumed non-null. A null cell read from an empty CSV field is not modelled. A null area name would make `classify_area` raise when it strips it. A null period name would make `classify_period` raise. A null code never satisfies the `=` joins of `load_facts`.
- Missing identifier columns, which make pandas raise `KeyError`, are not modelled. Neither are rows whose cell count differs from the column count: a frame is assumed well formed.
- Transactions are modelled only where the model depends on them. Each truncate and insert commits. A failure inside `update_area_hierarchy` rolls back all its UPDATEs.
- Database failures other than a scalar subquery returning several rows are not modelled. These include constraint violations, lost connections and a batch that fails mid-way.
- Load.Warehouse.LoadDimArea: on failure, the other tables are stated unchanged. `TRUNCATE ... CASCADE` would also empty any table with a foreign key to `core.dim_area`. That schema is not part of the source, so truncation is modelled as emptying the named table only.
- Load.Warehouse.LoadDimensions: the same CASCADE caveat applies to its failure case.
- Load.Warehouse.LoadData: the same CASCADE caveat applies to its failure case.
- StarSchema.FactJoin: the model emits facts staging row by staging row, whereas SQL leaves the order of inserted rows unspecified. The contracts give the exact number of facts per staging row through `StarSchema.Combinations` and membership through `StarSchema.FactJoinMembers`, and bound the total through `StarSchema.FactJoinCoversStaging` and `StarSchema.UniqueKeysAtMostOneFactPerRow`. No multiset equality of the whole fact table with the SQL result is stated.
- The fact table's own identity column is not modelled.
- Concurrent runs against the same warehouse are not modelled.
