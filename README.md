# Pump-unit statistics, translations and service guards — a Dafny model

This project models the core of a small desktop tool that keeps measured
pump units (each with a lower washer `washer1`, a spring and an upper
washer `washer2`) per pump model, and computes, for one model:

- the means of the lower washer, upper washer, spring and total stack
  height, and the medians of the two washers;
- a "common configuration": a single left-to-right pass groups the
  records by their total (`washer1 + washer2 + spring`) into clusters
  anchored on the total of their first record, with a closed tolerance
  (default 0.03). Clusters with fewer than `min_count` members (default 5)
  are dropped. The anchor record of the earliest-created largest
  remaining cluster is returned as `(washer1, washer2, spring)`.

Beside that it models the translation lookup (a dotted key walked through
a tree of nested dictionaries, with a `[key]` placeholder when the walk
fails), the plural-form table with its English fallback and the two
rules, and the service layer's guards around inserts, over an abstract
repository.

Files and modules:

- `wrappers.dfy` — `Wrappers.Option`, standing for Python's `X | None`.
- `descriptive.dfy` — `Descriptive`: `Sum`, `Mean`, an insertion `Sort` and `Median` over exact reals. These replace Python's `statistics` library. The module also holds the permutation and bound lemmas.
- `statistics.dfy` — `Statistics`: records, `ComputeStats`, and the clustering:
  - `FirstMatch`, `Place`, `Clusters`, `Qualifying`, `FirstLargest` and `CommonConfig` form the specification.
  - The method `MostCommonConfig` is the source's outer loop; its inner scan, with the `placed` flag and `break`, is the method `PlaceRecord`. They are proved equal to `CommonConfig` and `Place`.
- `plural_en.dfy`, `plural_pl.dfy`, `plural.dfy` — the two rules and the rule table.
- `i18n.dfy` — `Localization`: the JSON tree as `Node`, Python's `split('.')`, and the walk. The class `I18n` holds the language and the tree as constants. Its method `T` is the source's loop over the key segments.
- `services.dfy` — `Services`: the `pd` and `pd_models` tables as sequences inside the class `PDService`. Its methods carry the guards.

Measurements are exact `real`s, not IEEE floats. `most_common_config`
returns `(washer1, washer2, spring)`, i.e. lower, upper, spring
(pd/core/statistics.py:25, :75).

## Model

| member | source | states |
|---|---|---|
| `Descriptive.Sort` | pd/core/statistics.py:43-44 | the sorted copy that the median reads is ascending and a permutation of the data |
| `Descriptive.SortedUnique` | pd/core/statistics.py:43-44 | two ascending sequences with the same multiset of values are equal, so the sorted order is determined by the values alone |
| `Descriptive.Mean` | pd/core/statistics.py:39-42 | the arithmetic mean of a non-empty column lies between its smallest and its largest value |
| `Descriptive.Median` | pd/core/statistics.py:43-44 | the median of a non-empty column lies between its smallest and its largest value, and for an odd count it is one of the values |
| `Descriptive.SumPermutation` | pd/core/statistics.py:39-42 | the sum of a column depends only on its multiset of values |
| `Descriptive.MeanPermutation` | pd/core/statistics.py:39-42 | a mean is unchanged by any reordering of its data |
| `Descriptive.MedianPermutation` | pd/core/statistics.py:43-44 | a median is unchanged by any reordering of its data |
| `Descriptive.MeanBounds` | pd/core/statistics.py:39-42 | the mean lies between any lower and upper bound of the data |
| `Descriptive.MedianBounds` | pd/core/statistics.py:43-44 | the median lies between any bounds of the data, and for an odd count it is one of the data values |
| `Descriptive.MeanOfSums` | pd/core/statistics.py:34-42 | the mean of per-record sums of three columns is the sum of the three means |
| `Statistics.ProjectAt` | pd/core/statistics.py:31-34 | each column list holds, at every record's position, that record's field or its total |
| `Statistics.ProjectPermutation` | pd/core/statistics.py:31-34 | reordering the records reorders every column the same way: equal multisets of records give equal multisets of column values |
| `Statistics.ComputeStats` | pd/core/statistics.py:27-46 | no result exactly when the record list is empty; `avg_total == avg_lower + avg_upper + avg_spring`; a present common configuration is the triple of an actual input record |
| `Statistics.StatsPermutation` | pd/core/statistics.py:31-44 | for two orderings of the same records, both results are absent or all four means and both medians agree |
| `Statistics.FirstMatch` | pd/core/statistics.py:59-63 | the index found is the first cluster, in creation order, whose anchor total is within the closed tolerance of the record's total; when it equals the cluster count, no anchor matches |
| `Statistics.Place` | pd/core/statistics.py:57-66 | placing one record adds at most one cluster; every existing cluster keeps its position and anchor total, and its old members stay a prefix of its new ones |
| `Statistics.PlaceRecord` | pd/core/statistics.py:58-65 | the inner scan with its `placed` flag and `break` computes exactly the placement step `Place` |
| `Statistics.Clusters` | pd/core/statistics.py:53-66 | the pass forms at most one cluster per record, and no clusters exactly when there are no records |
| `Statistics.ClustersWellFormed` | pd/core/statistics.py:57-66 | every cluster has its anchor record first, the anchor total is that record's total, and every later member's total is within tolerance of it |
| `Statistics.MembersWithinTolerance` | pd/core/statistics.py:60-61 | with a non-negative tolerance, every member of every cluster, the anchor included, is within tolerance of the anchor total |
| `Statistics.ClustersPartition` | pd/core/statistics.py:57-66 | every record is in exactly one cluster: the clusters' members are the records as a multiset, and the cluster sizes sum to the record count |
| `Statistics.AnchorsSeparated` | pd/core/statistics.py:59-66 | the anchor totals of any two clusters differ by more than the tolerance |
| `Statistics.ClustersOnlyGrow` | pd/core/statistics.py:59-65 | from an earlier point of the pass to a later one, clusters keep their position and anchor total, and old members stay a prefix of the new ones, so an anchor never changes |
| `Statistics.Qualifying` | pd/core/statistics.py:67 | the kept clusters are clusters of the pass with at least `min_count` members |
| `Statistics.FirstLargest` | pd/core/statistics.py:72 | the chosen cluster is as large as any kept cluster, and every kept cluster before it is strictly smaller |
| `Statistics.QualifyingEmpty` | pd/core/statistics.py:67-69 | nothing is kept exactly when every cluster is below `min_count` |
| `Statistics.SelectionIsEarliestLargest` | pd/core/statistics.py:67-73 | the first largest kept cluster is the earliest cluster of the pass that reaches `min_count` and has maximal size among those |
| `Statistics.CommonConfig` | pd/core/statistics.py:48-75 | the result is absent exactly when no cluster of the pass reaches `min_count`; a present result is the `(washer1, washer2, spring)` of an actual input record |
| `Statistics.CommonConfigSelects` | pd/core/statistics.py:67-75 | otherwise the result is the `(washer1, washer2, spring)` of the anchor record of the earliest-created cluster of maximal size |
| `Statistics.SingleCluster` | pd/core/statistics.py:53-66 | when every total is within tolerance of the first record's total, the pass forms one cluster anchored on the first record that holds all the records in order |
| `Statistics.IdenticalRecords` | pd/core/statistics.py:53-75 | `min_count` or more identical records, and nothing else, give that record's triple; fewer give no result |
| `Statistics.ToleranceBoundaryExample` | pd/core/statistics.py:60 | five records totalling 4.00 and three totalling 4.02 merge under tolerance 0.03, and the first record's triple `(1.00, 1.00, 2.00)` is returned |
| `Statistics.MostCommonConfig` | pd/core/statistics.py:48-75 | the loop with its early exit computes exactly `CommonConfig`, the fold of the placement step followed by the filter and the first largest |
| `PluralEn.PluralForm` | pd/core/plural_rules/en.py:5-6 | total over all integers; "one" exactly when n is 1, otherwise "other"; no other string |
| `PluralPl.PluralForm` | pd/core/plural_rules/pl.py:5-9 | total over all integers; "one" exactly when n is 1, otherwise "few" (also for 0 and 5); never "other" or "many" |
| `Plural.PluralRulesTable` | pd/core/plural.py:7-10 | the rule table has exactly the codes "pl" and "en", mapped to the Polish and the English rule |
| `Plural.GetPluralForm` | pd/core/plural.py:12-16 | a language in the table gets its own rule, any other language the English rule |
| `Plural.RuleSelection` | pd/core/plural.py:7-16 | "pl" selects the Polish rule; every other code, "en" included, selects the English rule |
| `Plural.FormsOfEveryLanguage` | pd/core/plural.py:7-16 | every language gives "one" for n = 1 and not for any other n, and the form is always "one", "few" or "other" |
| `Localization.Split` | pd/core/i18n.py:30 | the key splits into at least one segment, none of which contains a dot |
| `Localization.JoinSplit` | pd/core/i18n.py:30 | joining the segments with dots gives back the key |
| `Localization.SplitJoin` | pd/core/i18n.py:30 | splitting a dot-join of dot-free segments gives back those segments |
| `Localization.TranslateFound` | pd/core/i18n.py:29-37 | if every segment of the key is found along a chain of dictionaries and the chain ends at a string, `t` returns that string |
| `Localization.TranslateMissing` | pd/core/i18n.py:30-32 | if a segment meets a node that is not a dictionary, or a dictionary without that segment, `t` returns `"[" + key + "]"` |
| `Localization.TranslateNotString` | pd/core/i18n.py:34-35 | if the path resolves to a sub-dictionary or another non-string, `t` returns `"[" + key + "]"` |
| `Localization.Translate` | pd/core/i18n.py:25-37 | any result other than `"[" + key + "]"` was found as a string at the end of a chain of dictionaries along the key's dot-separated segments |
| `Localization.PluralKeySegments` | pd/core/i18n.py:43-45 | the key `key + "." + form` splits into the key's own segments followed by the dot-free form |
| `Localization.I18n.constructor` | pd/core/i18n.py:13-15 | `CurrentLanguage()` returns the language given to the constructor, and the loaded tree is stored unchanged |
| `Localization.I18n.CurrentLanguage` | pd/core/i18n.py:39-41 | returns the language code the translator was created with |
| `Localization.I18n.T` | pd/core/i18n.py:25-37 | the segment-by-segment walk with early return yields exactly `Translate`: the string found, or the placeholder; it changes nothing |
| `Localization.I18n.Plural` | pd/core/i18n.py:43-45 | the template is the one found under the key's segments followed by `get_plural_form(language, n)`, with the placeholder of the full key otherwise |
| `Services.ModelRecords` | pd/core/repositories.py:88-106 | a model's record list is empty exactly when no row has that model id |
| `Services.ModelRecordsAppend` | pd/core/repositories.py:155-184 | an inserted row adds its record at the end of its own model's records and leaves every other model's records unchanged |
| `Services.PDService.constructor` | pd/core/services.py:11-12 | the service starts over the given rows and models |
| `Services.PDService.GetModelName` | pd/core/services.py:14-19 | returns the name of the first `(id, name)` pair whose id matches, and "Unknown Model" when none does |
| `Services.PDService.GetModelStats` | pd/core/services.py:30-32 | the statistics of the model's records: absent exactly when the model has no rows, and the total mean splits into the three means |
| `Services.PDService.CreateModel` | pd/core/services.py:52-79 | raises `ValueError` and adds nothing when any of the six fields is falsy (empty id, a 0.0 thickness, a 0 id); otherwise appends exactly that row; the models are untouched |
| `Services.PDService.AddNew` | pd/core/services.py:81-100 | raises `ValueError` and changes nothing for an empty model id; otherwise appends exactly one row with the given fields and no numeric check, so the model's records gain that record and its statistics exist |
| `Services.PDService.AddModel` | pd/core/services.py:102-105 | raises `ValueError` and inserts nothing for an empty name; otherwise adds exactly one model; the rows are untouched |

## Left out

- Reading the translation file (`I18n._load_translations`, pd/core/i18n.py:17-23) is file I/O. The constructor takes the loaded tree as a parameter. A missing file, which raises `RuntimeError`, is not modelled.
- `str.format` at the end of `plural` (pd/core/i18n.py:46) is a library formatter. `I18n.Plural` returns the template before formatting.
- SQLite persistence (pd/core/repositories.py, pd/core/database.py, pd/core/seed.py) is left out. The tables are sequences in insertion order.
  - The query `get_wash1_2_spring_by_model` has no `ORDER BY`. Table order is assumed.
  - The row id the database assigns to a `pd` row is not modelled.
  - The id of a new `pd_models` row is a parameter of `AddModel`.
- Services.PDService.GetModelName: ids are one string type. In the program the database returns integer ids while the signature says `str`. Python's cross-type comparison (an `int` never equals a `str`) is not modelled.
- Falsiness covers the declared types only: the empty string, `0.0` and `0`. `None` arguments and NaN (which is truthy) are not modelled.
- The pass-through service methods are out of scope: `unit_info`, `update_unit`, `get_models`, `get_opening_pressures`, `get_opening_press_value`, `list_models`, `delete_unit`, `washers_distribution`, `count_model` and `list_models_with_name`. Each is a single repository call with no logic of its own.
- Floating-point rounding is not modelled; means, medians, totals and the tolerance test are exact over reals. So is the display formatting in the user interface.
- The user interface, configuration, filesystem, logging, update checking and download threads are not part of this model.
  - This includes the stats panel, which unpacks the returned `(washer1, washer2, spring)` triple as lower, spring, upper.
