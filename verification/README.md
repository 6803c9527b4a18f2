# Activity dashboard: the task pipeline and the user store

This project models the logic of a monitoring dashboard written in Python with
pandas and Streamlit. The dashboard loads a table of tasks, one row per task. Each
row has a responsible person (`Responsable`), a domain (`Domaine`), an activity
(`Activité`), a task name (`Tache`), a deadline (`Date limite`), a completion
rate (`Taux réalisation`) and a status (`Statut`). From it the dashboard shows:

- one row per activity;
- five headline figures;
- a list of late activities.

A small credential store sits next to it.

The pipeline in `home.py` has five steps:

1. **Key cleaning** (lines 71-82). The three key cells are stripped. A row is
   dropped when any of them is `"nan"`, `"NaN"`, `"None"` or empty.
2. **Normalisation** (lines 85-99).
   - The legacy spellings `"En cours d'execution"` and `"encours"` become
     `"En cours"`.
   - A missing task name becomes `"UNDEFINED"`.
   - A missing rate becomes 0.
   - Duplicate tasks are dropped, and the first one wins.
   - The status is stripped. An empty status is inferred from the rate.
3. **Filtering** (lines 112-127). The sidebar filter is applied. When no row is
   left, the page stops with a warning.
4. **Aggregation** (lines 130-148). The tasks are grouped by activity. Each group
   gets its task count, per-status counts, latest deadline, completion
   percentage and rolled-up status.
5. **Late activities** (lines 166 and 236-240). An activity is late when it has
   a deadline before now and its rate is below 100.

`tronquer` (lines 26-27) truncates chart labels. `utils/auth.py` keeps a map
from user name to password digest, and supports add, delete and authenticate.

Modules, in pipeline order:

| Module | File | What it holds |
|---|---|---|
| `Options` | `options.dfy` | An option type and map lookup, the model of `dict.get`. |
| `Seqs` | `seqs.dfy` | Generic sequence operations: subsequence, filter (boolean-mask selection), map, and first-occurrence deduplication (`drop_duplicates(keep='first')`). |
| `Text` | `text.dfy` | Python's `str.strip()` over Unicode whitespace, the empty-cell tokens, and `tronquer`. |
| `Tasks` | `tasks.dfy` | Raw and normalised task records, the status vocabulary, and the task and activity keys. |
| `Cleaning` | `cleaning.dfy` | Key cleaning. |
| `Normalise` | `normalise.dfy` | Normalisation. |
| `Grouping` | `grouping.dfy` | The group-by, the completion rate and the rollup. |
| `Dashboard` | `dashboard.dfy` | The sidebar filter and the no-data stop. |
| `Overdue` | `overdue.dfy` | Late activities and the headline figures. |
| `Auth` | `auth.dfy` | The user store. The digest function is a parameter. |
| `RateText` | `rate_text.dfy` | The rate column as the script really treats it, as text (see Findings). |

Modelling choices:

- **Dates.** A date is an integer: only its order matters. "Now" is a
  parameter, and a missing or unparsable deadline is `None`.
- **Rates.** The completion rate is an exact real number. A raw rate is already
  parsed, and `None` stands for an empty cell.
- **Text cells.** Text cells are given as `astype(str)` renders them, so a
  missing cell reads `"nan"`.
- **Group order.** Groups are listed in order of first appearance, where
  `groupby` sorts them by key. Only Grouping.AggregateSummarises (row i is the
  summary of the i-th first-appearance representative) depends on that order.
  Every other property of the activity table holds whatever the order.

## Model

| member | source | states |
|---|---|---|
| Text.Truncate | home.py:26-27 | A label shorter than 30 characters is kept. A longer one becomes its first 27 characters followed by "...", so the result never exceeds 30 characters. |
| Text.TruncateIdempotent | home.py:26-27 | Truncating a truncated label changes nothing. |
| Text.Strip | home.py:71-73 | `str.strip()`: the result has no whitespace at either end. It is empty exactly when the input is all whitespace. |
| Text.StripStart | home.py:71-73 | The stripped text is a contiguous slice of the input. Everything cut off before and after it is whitespace. |
| Text.StripStripped | home.py:71-73 | A string with no whitespace at its ends is its own strip. |
| Text.StripLeadingSpace | home.py:85-96 | A leading whitespace character does not change the strip. |
| Text.StripIdempotent | home.py:71-73 | Stripping twice is stripping once. |
| Text.IsNullToken | home.py:75 | The four spellings of an empty cell ("nan", "NaN", "None" and blank) are each at most four characters long and carry no surrounding whitespace, so a stripped cell is compared to them directly. |
| Seqs.Filter | home.py:77-82 | Boolean-mask selection: the result is an order-preserving subsequence of the input. Every kept element passes the predicate. Each element that passes keeps exactly as many copies as it has in the input, and an element that fails has none. |
| Seqs.FilterAll | home.py:112 | A mask that admits everything keeps the whole input. |
| Seqs.Dedup | home.py:92 | `drop_duplicates`: the result has pairwise-distinct keys, is a subsequence of the input, is no longer than it, and carries exactly the input's keys. |
| Seqs.DedupKeepsFirst | home.py:92 | The first occurrence of every key is kept (`keep='first'`). |
| Seqs.DedupOnlyFirst | home.py:92 | A kept element is the first input element with its key. |
| Seqs.DedupIsFirstOccurrences | home.py:92 | Deduplication keeps exactly the elements that are the first with their key, in the order of their positions. |
| Seqs.DedupDistinct | home.py:92 | Input whose keys are already distinct is left unchanged. |
| Cleaning.StripAll | home.py:71-73 | The three key cells of every row are stripped and nothing else changes. |
| Cleaning.KeysPresent | home.py:77-81 | The mask: none of the three key cells is one of the empty tokens. In particular a kept key cell is never blank. |
| Cleaning.CleanKeys | home.py:71-82 | Every kept row has stripped keys that are not empty tokens. The kept rows are an order-preserving subsequence of the stripped input, and a row is kept exactly when its stripped keys are present. |
| Cleaning.CleanRowFixed | home.py:71-82 | A row whose keys are already clean is not changed by stripping. |
| Cleaning.CleanKeysIdempotent | home.py:71-82 | Cleaning the keys twice is cleaning them once. |
| Normalise.DefaultTache | home.py:87-89 | The task name is stripped. A stripped name that is not an empty token is kept as it is, and one that is an empty token ("nan", "NaN", "None" or blank) becomes "UNDEFINED". So the result is never an empty token. |
| Normalise.FoldSynonym | home.py:85 | A legacy spelling becomes "En cours". Any other status is left unchanged. The result is a canonical status exactly when the input was one or was a legacy spelling. |
| Normalise.Prepare | home.py:85-90 | Exactly the two legacy spellings become "En cours" and every other status is kept as is. The task name is stripped, and an empty one becomes "UNDEFINED". The rate defaults to 0. Keys and deadline are untouched. |
| Normalise.InferStatus | home.py:96-99 | The status is stripped. A non-empty status is kept. An empty one becomes "En attente" at rate 0, "En cours" strictly between 0 and 100, and "Terminée" at 100. It stays empty for a rate outside [0, 100]. |
| Normalise.InferStatusKeepsOrFills | home.py:96-99 | Inference yields either the stripped input or a canonical status. The result is empty only for an empty input with a rate outside [0, 100]. |
| Normalise.InferStatusIdempotent | home.py:96-99 | Inferring the status twice is inferring it once. |
| Normalise.WithInferredStatus | home.py:96-99 | The row's status is replaced by the inferred one. Its keys, deadline and rate are untouched. |
| Normalise.PreparedWellFormed | home.py:85-99 | A cleaned row, once prepared and given its inferred status, has clean keys, a named task and a stripped status. |
| Normalise.PrepareRows | home.py:71-92 | After cleaning, preparation and deduplication, every row is ready for inference. No two rows share a task key, the rows form a subsequence of the prepared rows, and every task key among them survives. |
| Normalise.NormaliseRows | home.py:71-99 | The normalised rows are well formed and have distinct task keys. Every task key of a kept row survives. |
| Normalise.NormaliseKeepsFirst | home.py:71-99 | The first prepared row with a given task key (`keep='first'`, line 92) appears in the output, with its status inferred. |
| Normalise.NormaliseOnlyFirst | home.py:71-99 | Every output row is the first prepared row with its task key, with its status inferred. A later duplicate never replaces it, and no status is set other than by inference. |
| Normalise.NormaliseTwice | home.py:85-99 | Normalising normalised rows again changes nothing except that it folds the legacy spellings that survived the first pass. |
| Normalise.PaddedSynonymSurvives | home.py:85-96 | A legacy spelling with a leading space escapes folding, and stripping then leaves the non-canonical legacy spelling. |
| Normalise.NormaliseIdempotent | home.py:85-99 | When no legacy spelling survives, normalising twice is normalising once. |
| Dashboard.ApplyFilter | home.py:112-122 | Each of the three choices restricts only when it is non-empty. Kept rows satisfy every active choice, and a row is kept exactly when it does. The result is a subsequence of the input. |
| Dashboard.NoSelectionKeepsAll | home.py:111-122 | With nothing selected, every row is kept. |
| Dashboard.Admits | home.py:112-120 | With nothing selected, every task is admitted. Each non-empty choice (domains, owners, statuses) admits only tasks whose value is among the chosen ones. |
| Dashboard.Render | home.py:112-148 | The page stops with the warning exactly when no row passes the filter. Otherwise the table is non-empty, and no two of its rows share an activity key. Its keys are exactly the activity keys of the filtered rows, so it has one row per activity. Its task counts add up to the number of filtered rows. |
| Grouping.Group | home.py:130 | The tasks of one activity are the input rows with that key, in input order. |
| Grouping.CountStatus | home.py:132-134 | A per-status count never exceeds the group size. It is zero exactly when no task of the group has that status. |
| Grouping.CountStatusMultiplicity | home.py:132-134 | A per-status count is the number of tasks of the group with exactly that status: its multiplicity among the group's statuses. |
| Grouping.CountStatusAll | home.py:132-134 | A per-status count equals the group size exactly when every task in the group has that status. |
| Grouping.StatusCountsBound | home.py:130-134 | The three per-status counts add up to at most the group size. They equal it exactly when every status in the group is canonical. |
| Grouping.MaxDeadline | home.py:135 | The latest deadline is absent exactly when no task has one. Otherwise it is a deadline of the group and no task deadline exceeds it. |
| Grouping.CompletionRate | home.py:140 | The rate is 100·realisees/total, as a percentage: it times the task count equals 100 times the done count. It lies in [0, 100]. It is 100 exactly when every task is done, and 0 exactly when none is. |
| Grouping.Rollup | home.py:142-148 | The rolled-up status is always canonical. It is "Terminée" exactly when every task is done. It is "En attente" exactly when not every task is done but every task is pending. Otherwise it is "En cours": the first matching condition wins. |
| Grouping.Summarise | home.py:130-148 | An activity row carries its group's key, and its task count is the group size, at least 1. Its done, in-progress and pending counts are the group's per-status counts, which add up to at most the task count. Its deadline is the group's latest deadline. Its rate is the completion rate of those counts, and it lies in [0, 100]. Its status is the rollup of those counts. |
| Grouping.SummariseCounts | home.py:131-134 | An activity row's done, in-progress and pending counts are the multiplicities of "Terminée", "En cours" and "En attente" among its group's statuses. |
| Grouping.Aggregate | home.py:130-148 | Exactly one row per distinct activity key among the input rows, with distinct keys and no more rows than tasks. Every row has a task count of at least 1, a rate in [0, 100] and per-status counts within its task count. |
| Grouping.SumTotalsIsGroupSizes | home.py:131 | Activity rows whose task counts are their group sizes add up to the sum of those sizes. |
| Grouping.GroupSizesSnoc | home.py:130-131 | One more input task adds one to the size of its own activity's group and to no other. |
| Grouping.GroupSizesDedup | home.py:130-131 | Every task belongs to the group of exactly one activity. |
| Grouping.AggregateTotals | home.py:130-131 | The task counts of the activity table add up to the number of input tasks. |
| Grouping.AggregateSummarises | home.py:130-136 | Row i of the activity table summarises the group of the i-th first-appearance representative, a task of the input. This relies on the first-appearance row order. |
| Grouping.RollupMeaning | home.py:142-148 | An activity is "Terminée" exactly when all its tasks are done. It is "En attente" exactly when all are pending, and "En cours" otherwise. Its rate is 100 exactly when it is "Terminée". |
| Overdue.Late | home.py:236-240 | The late activities are an order-preserving subsequence of the table. Each has a deadline strictly before now and a rate below 100, and an activity is listed exactly when it meets both conditions. |
| Overdue.OverdueMeaning | home.py:166 | An activity is late exactly when some task has a deadline, every task deadline lies before now, and not every task is done. A finished or undated activity is never late. |
| Overdue.ComputeKpis | home.py:163-167 | The five headline counts are: the number of activities; the number with rate 100; the number "En cours"; the number late (exactly the late selection of lines 236-240); and the number "En attente". None exceeds the number of activities, and the late and finished activities together do not either. |
| Overdue.IsOverdue | home.py:237-240 | (Same condition as line 166.) An activity is late only when it has a deadline, that deadline lies strictly before now, and it is not finished (rate below 100). |
| Overdue.Done | home.py:164 | An activity counts as finished when its rate is 100. With the exact rate, that means every one of its tasks is done. |
| Overdue.Ongoing | home.py:165 | An activity counts as in progress when its status is "En cours"; such an activity is neither "En attente" nor "Terminée". |
| Overdue.Waiting | home.py:167 | An activity counts as pending when its status is "En attente"; such an activity is neither "En cours" nor "Terminée". |
| Overdue.SelectionsDisjoint | home.py:164-166 | No activity is both late and finished. |
| Overdue.KpisPartition | home.py:163-167 | On the activity table, finished, in-progress and pending activities add up to the number of activities. |
| Auth.Authenticate | utils/auth.py:25-28 | A login succeeds exactly when the user name has a stored entry and that entry equals the digest of the password given. |
| Options.Get | utils/auth.py:28 | The lookup `dict.get`: the value stored under the key when there is one, and nothing otherwise. |
| Auth.AddUser | utils/auth.py:30-33 | Stores the digest of the password under the user name, creating or overwriting only that entry, and always saves. |
| Auth.DeleteUser | utils/auth.py:35-39 | Removes the user's entry and saves when the user exists. An unknown user leaves the store unchanged and nothing is saved. |
| Auth.AddThenAuthenticate | utils/auth.py:22-33 | A user just added is accepted with the password given. |
| Auth.AddKeepsOthers | utils/auth.py:25-33 | Adding a user does not change whether any other user is accepted. |
| Auth.DeleteThenReject | utils/auth.py:25-39 | After a deletion the user is refused whatever the password, because the missing entry equals no digest. |
| Auth.UnknownRejected | utils/auth.py:25-28 | An unknown user is refused whatever the password. |
| Auth.OverwriteRejectsOld | utils/auth.py:25-33 | After a password change, the old password is refused unless the two digests collide. |
| RateText.RateCellOf | home.py:88-90 | After lines 88 and 90, a rate cell is the integer 0 exactly when its stripped text is an empty token. Otherwise it is that stripped text. |
| RateText.InferFromZero | home.py:96-97 | For a row whose rate is the integer 0, an empty status (after stripping) becomes "En attente". Any other status is kept, stripped. |
| RateText.InferColumnAsWritten | home.py:96-99 | As written, status inference fails with a type error exactly when some rate cell is text. Otherwise only line 97 acts. |
| RateText.AgreesOnBlankRates | home.py:96-99 | When every rate cell is blank, the status column as written equals the numeric inference at rate 0. |
| RateText.TextRateRaises | home.py:88-98 | One task with an empty status and a visible rate text such as "50" makes the column fail as written, where numeric inference at a rate between 0 and 100 gives "En cours". |

## Left out

- Streamlit layout, widgets, the activity grid, metric display and the Plotly charts (home.py:21-41, 104-110, 150-162, 168-235, 241-254): user interface. The KPI counts (home.py:163-167) and the late-activity selection (home.py:236-240) are modelled; only their display is left out.
- The Altair example chart (home.py:256-277): a self-contained demo on hard-coded data, unrelated to the loaded tasks.
- Loading the data (home.py:45-68, utils/data.py, utils/sharepoint.py): file, cache and network I/O. The model starts from the loaded rows.
- utils/dataviz.py (grid display, PDF and spreadsheet export): presentation and file output.
- Deadline parsing, time zones and the wall clock (home.py:86, 166, 236): a deadline is an already parsed, ordered value, and "now" is a parameter.
- JSON loading and saving, and SHA-256 (utils/auth.py:14-23): the store is an in-memory map, and the digest is a function parameter. The `saved` flag records whether the file would be written.
- Grouping.CompletionRate: the result is not rounded to one decimal (home.py:140); the rate is exact. With rounding, a very large group that is almost but not fully done (1999 of 2000 tasks, say) shows 100.0, and lines 164 and 238-239 would count it as done and not late. Overdue.KpisPartition and Overdue.OverdueMeaning rely on the exact rate.
- Grouping.RollupMeaning: relies on the exact rate of Grouping.CompletionRate. Its "rate is 100 exactly when every task is done" fails for the displayed, rounded rate (round(…, 1) at home.py:140): 1999 done out of 2000 shows 100.0 while the rolled-up status is "En cours".
- Overdue.OverdueMeaning: relies on the exact rate. With the rate rounded at home.py:140, an activity with 1999 of 2000 tasks done shows 100.0 and is never counted late by home.py:238-239, though not every task is done.
- Overdue.KpisPartition: relies on the exact rate. With the rounding at home.py:140, an activity with 1999 of 2000 tasks done shows 100.0, so home.py:164 counts it as finished while home.py:165 also counts it "En cours": the three counts would then add up to more than the number of activities.
- Grouping.Aggregate: the rows come in order of first appearance, whereas `groupby` sorts them by key. Grouping.AggregateSummarises states the row order and so holds only for first-appearance order. Under `groupby`'s order the rows are the same summaries, permuted. Every other stated property is independent of the order.
- Normalise.PrepareRows: the rate column is an already parsed number, whereas the source turns it into text at home.py:88. The text behaviour and the failure it causes are modelled separately in RateText.
- The three per-status counts are not assumed to add up to the task count. A non-canonical status survives normalisation unchanged, so they add up only when every status is canonical (Grouping.StatusCountsBound).

## Findings

| source | as written | input that shows it | evidently intended | confidence | as-written member | corrected member |
|---|---|---|---|---|---|---|
| home.py:88-98 | The rate column is cast to text (line 88), and only blank rates are replaced by the integer 0 (line 90). Line 97 then compares with `== 0`, which no text equals. Line 98 compares the column with `> 0`, which raises a TypeError as soon as one cell is text. | One task with an empty status and the rate "50" | Compare the rate as a number: an empty status at rate 50 becomes "En cours". | medium, not executed | RateText.TextRateRaises | Normalise.InferStatus |
