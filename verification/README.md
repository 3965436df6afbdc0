# Data_Laundry cleaning pipeline in Dafny

This project models the data-cleaning core of Data_Laundry, a Streamlit tool that helps nonprofits tidy donation and volunteer spreadsheets.
It covers two Python files:

- `non_profit.py` holds these pandas routines:
  - `clean_donations` and `clean_volunteers`: normalise the header, check the required columns, rewrite the text, amount, date and phone columns, and drop incomplete rows;
  - `generate_hygiene_report`: compares row counts before and after cleaning;
  - `generate_donation_summary` and `generate_volunteer_summary`: totals, distinct counts, group sums, value counts;
  - `merge_donor_volunteer_data`: an inner join of donors and volunteers on a normalised name.
- `streamlit_app.py` holds these parts of the column-mapping front end:
  - `guess_columns`: guesses a column for each field from an alias table;
  - `detect_workflow`: recognises donation and volunteer tables;
  - `missing_value_report`;
  - the non-interactive steps of `run_column_mapper`: drops duplicate columns, confirms the guesses and renames columns through the inverted mapping.

A DataFrame is a `Frames.Table`: a header and rows of cells. Rows are addressed by position, so a header can repeat a name, as pandas allows. A cell is text, a float, a missing value (None, NaN, NaT) or a timestamp.

Three pandas conversions are parameters of the model, in `Frames.Conversions`:

- `pd.to_datetime` on one cell;
- `str()` of a float;
- `str()` of a timestamp.

Every lemma that depends on them holds for any choice. Python's `str.strip`, `lower`, `title`, the `\D` and `[\$,]` deletions, substring search and the decimal part of `float()` are written out in `Text`, over ASCII letters and digits (see "## Left out").

The model follows the code as written:

- `astype(str)` runs before `dropna` and `fillna`, so a missing donor name, campaign or volunteer name becomes text. The model renders every missing cell as `"None"`, which is what pandas does for Python `None`, as in `test_cleaning.py`. pandas renders NaN, in any column, as `"nan"`. Either way:
  - `dropna` never removes a row for its name;
  - `fillna("Uncategorized")` never fires.
  - In the donation example of `test_cleaning.py`, the row with no name is dropped because its date does not parse.
- An amount that `float()` rejects makes `clean_donations` raise. It does not become a missing value.
- A required column that is absent makes the cleaners raise, naming the missing columns in order.
- `detect_workflow` requires a `department` column, while `clean_volunteers` produces `dept`. So a cleaned volunteer table is not recognised as one.
- `clean_volunteers` does not convert hours. Rows are dropped only for missing hours.
- The alias list of `name` holds `"personvolunteer"`: two adjacent string literals fuse into one.

Modules:

| module | file | role |
|---|---|---|
| `Text` | text.dfy | string operations and decimal parsing |
| `Frames` | frames.dfy | tables, cells, row selection, `dropna`, null counts |
| `Tally` | tally.dfy | `sum`, `nunique`, `groupby().sum()`, `value_counts()`, sorting by rank |
| `Cleaning` | cleaning.dfy | `clean_donations`, `clean_volunteers` |
| `Reports` | reports.dfy | hygiene report, donation and volunteer summaries |
| `Merge` | merge.dfy | `merge_donor_volunteer_data` |
| `Mapping` | mapping.dfy | `guess_columns`, `detect_workflow`, `missing_value_report`, `run_column_mapper` |
| `Scenarios` | scenarios.dfy | the two examples of `test_cleaning.py` and concrete column-rule examples |

## Model

| member | source | states |
|---|---|---|
| Text.TrimStartShape | non_profit.py:18 | strip() removes only whitespace from the front and keeps a suffix that starts with a non-blank |
| Text.TrimEndShape | non_profit.py:18 | strip() removes only whitespace from the back and keeps a prefix that ends with a non-blank |
| Text.StripShape | non_profit.py:18 | strip() yields a contiguous slice of its input that neither starts nor ends with whitespace |
| Text.StripExactly | non_profit.py:18 | with i leading and some trailing blanks around a non-blank part, strip() yields exactly that part |
| Text.StripIdempotent | non_profit.py:18 | stripping twice is stripping once |
| Text.Strip | non_profit.py:18 | strip() yields text that neither starts nor ends with whitespace and is no longer than its input; Text.StripShape gives its exact position |
| Text.LowerHasNoUpper | non_profit.py:19 | lower() leaves no upper-case letter |
| Text.LowerIdempotent | non_profit.py:19 | lower() twice is lower() once |
| Text.Lower | non_profit.py:19 | lower() keeps the length; Text.LowerHasNoUpper and Text.LowerIdempotent give its effect |
| Text.TitleFromAt | non_profit.py:18 | reference definition of title(): a letter is upper-cased exactly when the character before it is not a letter, lower-cased otherwise; other characters stay |
| Text.TitleAt | non_profit.py:18 | the same per-position rule for title() of a whole string |
| Text.TitleIdempotent | non_profit.py:18 | title() twice is title() once |
| Text.Title | non_profit.py:18 | title() keeps the length; Text.TitleAt gives each position |
| Text.TitleKeepsStripped | non_profit.py:18 | title() of a stripped string is still stripped |
| Text.LowerKeepsStripped | non_profit.py:19 | lower() of a stripped string is still stripped |
| Text.TitleRuleIdempotent | non_profit.py:18 | the name rule (strip, then title) applied twice equals once |
| Text.LowerRuleIdempotent | non_profit.py:19 | the method rule (strip, then lower) applied twice equals once |
| Text.TitleRule | non_profit.py:18 | the name rule (strip, then title) yields stripped text no longer than its input |
| Text.LowerRule | non_profit.py:19 | the method rule (strip, then lower) yields stripped text with no capital, no longer than its input |
| Text.DigitsOnly | non_profit.py:52 | removing `\D` leaves only digits and never lengthens the text |
| Text.DigitsOnlyKeepsDigits | non_profit.py:52 | every digit of the phone survives, as often as it occurs |
| Text.DigitsOnlyOfDigits | non_profit.py:52 | a text of digits is left unchanged |
| Text.DigitsOnlyIdempotent | non_profit.py:52 | cleaning a cleaned phone changes nothing |
| Text.DigitsOnlyAppend | non_profit.py:52 | digit extraction distributes over concatenation |
| Text.DeleteCurrencyMarks | non_profit.py:25 | after the `[\$,]` replacement no `$` or `,` remains, and the text is no longer |
| Text.DeleteCurrencyMarksKeepsRest | non_profit.py:25 | every other character survives, as often as it occurs |
| Text.NormalizeHeaderShape | non_profit.py:7 | a normalised header is stripped, holds no space and no upper-case letter |
| Text.NormalizeHeaderIdempotent | non_profit.py:7 | normalising a normalised header changes nothing |
| Text.ContainsMeansOccurs | streamlit_app.py:295 | `alias in text` holds exactly when the alias occurs at some index of the text |
| Text.UpperNeverInLower | streamlit_app.py:295 | a piece holding a capital never occurs in lower-cased text |
| Text.DigitsValueOfNatText | non_profit.py:25 | the decimal spelling of n has digit value n |
| Text.ParseNatText | non_profit.py:25 | float() reads back the decimal spelling of every natural number |
| Text.ParseDecimal | non_profit.py:25 | float() reads `whole.frac` as whole + frac / 10^len(frac) |
| Text.ParseFloat | non_profit.py:25 | float() rejects blank text; Text.ParseNatText and Text.ParseDecimal give the values it reads |
| Frames.DateCell | non_profit.py:28 | `to_datetime(errors="coerce")` never fails: each cell becomes a timestamp or missing |
| Frames.Render | non_profit.py:18-22 | `astype(str)` keeps text and turns a missing cell into "None" (see "## Left out" for NaN) |
| Frames.DistinctIffOnce | streamlit_app.py:358 | a header has no duplicated name exactly when each of its names occurs once |
| Frames.Filter | non_profit.py:31-32 | a boolean selection keeps only passing rows, taken from the input, and never adds rows |
| Frames.FilterSelects | non_profit.py:31-32 | a selection keeps input order and keeps every passing row exactly as often as it occurs, dropping every failing one |
| Frames.FilterDropsFailing | non_profit.py:31-32 | the rows removed are exactly the rows that fail the test |
| Frames.FilterTwice | non_profit.py:31-32 | two successive selections equal one selection on both tests |
| Frames.FilterMap | non_profit.py:18-32 | selecting rewritten rows equals rewriting the raw rows that pass the matching raw test |
| Frames.FilterSameTest | non_profit.py:31-32 | selections whose tests agree on every row are equal |
| Frames.DropNa | non_profit.py:31 | `dropna(subset)` keeps only input rows with no missing cell in the subset columns |
| Frames.Complete | non_profit.py:31 | the row test of `dropna(subset)`, defined by `CompleteIn`; Frames.DropNa and Cleaning.DonationCompleteAt state its effect |
| Frames.NullCount | non_profit.py:64 | a column's null count is at most the number of rows |
| Tally.CountDistinct | non_profit.py:80 | `nunique()` is at most the number of rows |
| Tally.Dedup | non_profit.py:81-82 | the group keys are repetition-free and are exactly the values present |
| Tally.GroupSums | non_profit.py:81-82 | `groupby().sum()` has one entry per distinct key, for exactly the keys present |
| Tally.Counts | non_profit.py:85 | `value_counts()` has one entry per distinct value, for exactly the values present |
| Tally.GroupSumsTotal | non_profit.py:79-82 | the group totals add up to the column total: no row is lost or counted twice |
| Tally.CountsTotal | non_profit.py:85 | the value counts add up to the number of rows |
| Tally.Insert | non_profit.py:83 | inserting into a descending list keeps it descending and adds exactly the one element |
| Tally.SortDesc | non_profit.py:83 | `sort_values(ascending=False)` yields a descending permutation of its input |
| Tally.SortSum | non_profit.py:83 | sorting neither adds nor loses any amount |
| Tally.PermutationKeepsDistinct | non_profit.py:83 | reordering keeps a list free of repeats |
| Tally.PermutationKeepsKeys | non_profit.py:83-84 | reordering a (key, value) table keeps its key set and key uniqueness |
| Tally.DistinctKeysCount | non_profit.py:100-105 | a table with one entry per distinct key has `nunique()` entries |
| Tally.GroupSumsDesc | non_profit.py:81-84 | campaign totals: one entry per distinct key holding that key's total, largest first, summing to the column total |
| Tally.ValueCounts | non_profit.py:85 | method counts: one entry per distinct value with its occurrence count, most frequent first, summing to the row count |
| Tally.CountsByKey | non_profit.py:89 | `value_counts().sort_index()`: one entry per distinct value with its count, keys strictly ascending, summing to the row count |
| Cleaning.NormalizeHeaders | non_profit.py:7 | header normalisation keeps the number of columns |
| Cleaning.NormalizeHeadersAt | non_profit.py:7 | column j of the normalised header is the normalisation of column j |
| Cleaning.NormalizeHeadersIdempotent | non_profit.py:7 | normalising a normalised header changes nothing |
| Cleaning.DonorNameHeader | test_cleaning.py:18 | the header "Donor Name" normalises to donor_name |
| Cleaning.PaddedNameHeader | test_cleaning.py:36 | the header " Name " normalises to name |
| Cleaning.MissingFrom | non_profit.py:12-15 | the reported names are exactly the required names absent from the header, in required order; the list is empty exactly when all are present |
| Cleaning.FirstRepeated | non_profit.py:18-25 | finds the first rewritten column whose name repeats, or none exactly when each occurs at most once |
| Cleaning.AmountCell | non_profit.py:25 | a converted amount is a number or missing; conversion fails only on text float() rejects or on a timestamp |
| Cleaning.FirstBadAmount | non_profit.py:25 | the first row whose amount float() rejects; none exactly when every amount converts |
| Cleaning.CleanDonations | non_profit.py:5-34 | on success the header is the normalised one and no row is added; it raises for missing columns exactly when some required column is absent, naming them in order |
| Cleaning.CleanDonationsUnder | non_profit.py:12-32 | the same for an already normalised header |
| Cleaning.DonationsKept | non_profit.py:31-32 | the kept rows fit the header and are no more than the input |
| Cleaning.DonationHeaderChecks | non_profit.py:12-28 | the header is usable (each of the five donation columns exactly once) exactly when nothing required is missing, no rewritten column repeats and date occurs at most once |
| Cleaning.DonationColumnsPresent | non_profit.py:12-15 | nothing is reported missing exactly when donor_name, method, campaign, amount and date are all present |
| Cleaning.DonationTextColumnsOnce | non_profit.py:18-25 | the repeat search finds nothing exactly when donor_name, method, campaign and amount each occur at most once |
| Cleaning.CleanDonationsSucceeds | non_profit.py:5-34 | clean_donations succeeds exactly when each required column occurs once and every amount converts |
| Cleaning.DonationsOkOnlyIf | non_profit.py:5-34 | success implies a good header and that every amount converts |
| Cleaning.DonationsOkIf | non_profit.py:5-34 | a good header and convertible amounts imply success |
| Cleaning.DonationCompleteAt | non_profit.py:31 | with a usable header, a rewritten row survives `dropna` on donor_name, amount and date exactly when its amount and date are not missing: the name never is |
| Cleaning.DonationRequiredSlot | non_profit.py:18-31 | a donor_name, amount or date slot is the amount column, the date column, or holds text after rewriting |
| Cleaning.CleanDonationsRows | non_profit.py:18-32 | the output rows are the input rows whose amount is positive and whose date parses, in input order, each rewritten by the column rules |
| Cleaning.DonationTestAgrees | non_profit.py:25-32 | the test on a raw row agrees with `dropna` followed by `amount > 0` on the rewritten row |
| Cleaning.CleanDonationsSubsequence | non_profit.py:31-32 | the kept rows are an order-preserving subsequence, and the rows removed are the rows failing the test |
| Cleaning.CampaignNeverFilled | non_profit.py:20-22 | the campaign is always the stripped, title-cased text, so `fillna("Uncategorized")` never applies; the donor name is always text |
| Cleaning.DonationCell | non_profit.py:18-28 | donor_name, method and campaign always become stripped text (so `fillna` never applies); amount becomes a number or missing; date becomes a timestamp or missing |
| Cleaning.StandardizeDonation | non_profit.py:18-28 | the rewrite keeps the row width; Cleaning.StandardizedAt gives each column |
| Cleaning.CleanVolunteers | non_profit.py:37-57 | on success the header is the normalised one and no row is added; it raises for missing columns exactly when a required column is absent, naming them in order |
| Cleaning.CleanVolunteersUnder | non_profit.py:44-55 | the same for an already normalised header; it never fails on a cell value |
| Cleaning.VolunteersKept | non_profit.py:55 | the kept rows fit the header and are no more than the input |
| Cleaning.VolunteerHeaderChecks | non_profit.py:44-52 | the header is usable (hours present; name, dept and phone exactly once) exactly when nothing required is missing and no rewritten column repeats |
| Cleaning.CleanVolunteersSucceeds | non_profit.py:37-57 | clean_volunteers succeeds exactly when the header is right |
| Cleaning.VolunteerTestAgrees | non_profit.py:50-55 | a rewritten row is complete in name and hours exactly when the raw row has its hours |
| Cleaning.CleanVolunteersRows | non_profit.py:50-55 | the output rows are the input rows with hours present, in input order, each rewritten |
| Cleaning.VolunteerCell | non_profit.py:50-52 | name and dept become stripped text; phone becomes text of digits only; other columns are untouched |
| Cleaning.StandardizeVolunteer | non_profit.py:50-52 | the rewrite keeps the row width |
| Reports.MissingUpTo | non_profit.py:64-71 | `null_counts[null_counts > 0]` keeps only positive counts |
| Reports.MissingUpToEntries | non_profit.py:64-71 | over the first n columns, an entry exactly for each name of a column with nulls, holding the null count of a column of that name |
| Reports.MissingByColumn | non_profit.py:64-71 | the missing-values map has an entry exactly for the names of columns with nulls, each positive |
| Reports.MissingByColumnCounts | non_profit.py:64-71 | with distinct names, each entry is the null count of its column |
| Reports.HygieneReport | non_profit.py:60-73 | the report carries the name, both row counts and their difference, and the missing-values map of the original |
| Reports.HygieneReadsCleanedCountOnly | non_profit.py:62-70 | the report depends on the cleaned table only through its row count |
| Reports.DonationHygiene | non_profit.py:60-73 | after clean_donations, the rows removed equal the rows failing its test |
| Reports.VolunteerHygiene | non_profit.py:60-73 | after clean_volunteers, the rows removed equal the rows with missing hours |
| Reports.VolunteersDropped | non_profit.py:55 | clean_volunteers removes exactly the rows with a missing hours cell |
| Reports.PeriodIndexInjective | non_profit.py:89 | the month numbering used for `sort_index()` tells different months apart |
| Reports.CleanedDonationsReady | non_profit.py:18-32 | clean_donations output has text names, methods and campaigns, numeric amounts and timestamps |
| Reports.DonationRowsReady | non_profit.py:18-32 | the same for an already normalised header |
| Reports.StandardizedDonationReady | non_profit.py:18-28 | a row that passes the test has the right kind of cell in each required column after rewriting |
| Cleaning.StandardizedAt | non_profit.py:18-28 | column j of a rewritten row is the rule for column j's name applied to cell j |
| Reports.SummarizeDonations | non_profit.py:76-93 | the total is the sum of the amount column and the donor count the number of distinct names; the campaign totals hold exactly the campaigns present, each once with its own total, largest first, summing to the total; the method counts hold exactly the methods present, each with its number of rows, most frequent first; the months hold exactly the months present, each with its number of rows, in calendar order |
| Reports.SummarizeVolunteers | non_profit.py:96-112 | the total is the sum of the hours column; the two counts are the numbers of distinct names and departments; the department totals hold exactly the departments present, each once with its own hours, largest first, summing to the total; the phone lengths hold exactly the lengths present, each with its number of rows, shortest first |
| Reports.VolunteerFigures | non_profit.py:99-111 | the same properties, stated over the four columns the summary reads |
| Merge.KeyOf | non_profit.py:119-120 | a join key is stripped and has no upper-case letter |
| Merge.KeysAt | non_profit.py:119-120 | one join key per row, the normalised name of that row |
| Merge.Rekeyed | non_profit.py:119-120 | each row keeps all its cells except the key cell, which becomes the normalised name |
| Merge.MatchingPairs | non_profit.py:122-129 | every listed pair has equal keys, every pair with equal keys is listed, in donor order then volunteer order |
| Merge.MergedColumns | non_profit.py:128 | a name on both sides gets the `_donor` or `_volunteer` suffix; other names stay |
| Merge.KeyColumn | non_profit.py:119-120 | selecting a key column succeeds exactly when its name occurs once; otherwise it fails as absent or repeated |
| Merge.MergeDonorsVolunteers | non_profit.py:115-129 | fails exactly when donor_name or name does not occur once (donor side first); otherwise it is the join on those columns |
| Merge.JoinOn | non_profit.py:122-129 | one output row per matching pair, in pair order: the donor's cells then the volunteer's, each with its key cell replaced by the normalised key, under the suffixed header |
| Merge.PairsEmptyIffNoCommonKey | non_profit.py:122-129 | no pair matches exactly when no left key equals a right key |
| Merge.JoinEmptyIffNoCommonKey | non_profit.py:122-129 | the join is empty exactly when no normalised donor name equals a normalised volunteer name |
| Merge.JoinMeetsEveryMatch | non_profit.py:122-129 | a donor row and a volunteer row meet exactly when their keys agree |
| Merge.PairsOnce | non_profit.py:122-129 | no pair is listed twice |
| Merge.PairsHoldMatch | non_profit.py:122-129 | a pair of positions is listed exactly when its keys agree |
| Merge.MissingNamesMatch | non_profit.py:119-120 | a missing name and the text "None" both become the key "none", so they match |
| Mapping.FirstMatch | streamlit_app.py:294-297 | a found column is a position of the header |
| Mapping.FirstMatchShape | streamlit_app.py:294-297 | the found column is claimed by an alias and no earlier one is; none is found exactly when no column is claimed |
| Mapping.GuessUpTo | streamlit_app.py:292-298 | at most one guess per key |
| Mapping.GuessUpToStep | streamlit_app.py:293-297 | each key adds its first claimed column, or nothing |
| Mapping.GuessUpToSound | streamlit_app.py:292-298 | every guess pairs a key of the table with the first column its aliases claim |
| Mapping.GuessUpToComplete | streamlit_app.py:292-298 | every key with a claimed column is guessed with the first such column |
| Mapping.GuessUpToColumns | streamlit_app.py:292-298 | every guessed column is a column of the table |
| Mapping.GuessColumns | streamlit_app.py:136-298 | guess_columns runs its loops over the fixed alias table |
| Mapping.Guess | streamlit_app.py:136-298 | at most one guess per field of the alias table; Mapping.GuessLookup states which |
| Mapping.GuessWith | streamlit_app.py:292-298 | the nested loops with `break` compute, key by key in table order, the first claimed column of each key |
| Mapping.FirstMatchAt | streamlit_app.py:294-297 | the column where the left-to-right scan breaks is the first claimed one |
| Mapping.AliasKeysDistinct | streamlit_app.py:137-291 | the alias table has no repeated key |
| Mapping.GuessKeysAndColumns | streamlit_app.py:136-298 | guessed keys come from the alias table and guessed columns from the frame |
| Mapping.KeysFromTable | streamlit_app.py:292-298 | the same for any alias table |
| Mapping.GuessLookup | streamlit_app.py:136-298 | a key is guessed exactly when one of its aliases claims a column, and then with the first such column |
| Mapping.LookupIn | streamlit_app.py:292-298 | the same for any alias table with distinct keys |
| Mapping.GuessedKeyAt | streamlit_app.py:292-298 | a guess for a key carries that key's first claimed column |
| Mapping.DonorNameClaimedTwice | streamlit_app.py:149-172 | one column "donor_name" is guessed for both name and donor_name |
| Mapping.UpperAliasesIdle | streamlit_app.py:295 | aliases holding a capital never change which columns a list claims |
| Mapping.TitleAliasesNeverMatch | streamlit_app.py:265-269 | the gender aliases Mr, Mrs, Ms, Mx and Dr can never claim a column |
| Mapping.PersonVolunteerAlias | streamlit_app.py:151 | name has the single alias "personvolunteer", not "person" or "volunteer" |
| Mapping.DetectWorkflow | streamlit_app.py:394-405 | donation exactly when amount and date are present; volunteer exactly when name, hours and department are present; the matches are the signal columns present |
| Mapping.SubsetSameSize | streamlit_app.py:397-403 | an intersection as large as the required set is the whole required set |
| Mapping.BothWorkflows | streamlit_app.py:394-405 | one table can be recognised as both kinds at once |
| Mapping.DeptIsNotDepartment | streamlit_app.py:400-403 | the header clean_volunteers produces is not recognised as a volunteer table |
| Mapping.Important | streamlit_app.py:416 | a column is important exactly when a key-field list is given and holds it; an empty list means none |
| Mapping.ReportUpToEntries | streamlit_app.py:412-421 | over distinct names, an entry exactly for each column with a missing value, holding its count and importance |
| Mapping.ReportUpTo | streamlit_app.py:412-421 | every entry the loop adds has a positive missing count |
| Mapping.MissingValueReport | streamlit_app.py:408-423 | fails exactly when the header repeats a name; otherwise it returns the report the loop builds |
| Mapping.MissingReportEntries | streamlit_app.py:408-423 | the report has an entry exactly for each column with missing values, with that positive count and whether it is a key field |
| Mapping.FirstPositions | streamlit_app.py:358-359 | the kept positions are below the bound, at most one per position |
| Mapping.FirstPositionsShape | streamlit_app.py:358-359 | the kept positions are the first occurrences of their names, every first occurrence is kept, in ascending order |
| Mapping.FirstPositionsAreFirst | streamlit_app.py:358-359 | every kept position is the first occurrence of its name |
| Mapping.FirstPositionsComplete | streamlit_app.py:358-359 | every first occurrence is kept |
| Mapping.FirstPositionsAscend | streamlit_app.py:358-359 | the kept positions ascend |
| Mapping.FirstNames | streamlit_app.py:358-359 | each kept position is where its name first occurs, and every name of the header is kept |
| Mapping.SelectColumns | streamlit_app.py:359 | `df.loc[:, mask]` keeps the chosen columns in order, with their cells |
| Mapping.DropDuplicateColumns | streamlit_app.py:358-359 | dropping duplicates keeps the rows and never adds columns |
| Mapping.DropDuplicatesNames | streamlit_app.py:358-359 | afterwards every name occurs once, the same names remain, in order of first occurrence |
| Mapping.DropDuplicatesCells | streamlit_app.py:358-359 | each remaining column holds the cells of the first column of its name |
| Mapping.DropDuplicatesKeepsDistinct | streamlit_app.py:358-359 | a header without duplicates is left unchanged |
| Mapping.InvertConfirmed | streamlit_app.py:384 | the inverted map has exactly the confirmed columns as keys |
| Mapping.LaterKeyWins | streamlit_app.py:384 | a column maps to the key of its last confirmation |
| Mapping.RenameColumns | streamlit_app.py:384 | rename keeps every cell, renames mapped names and leaves the rest |
| Mapping.Confirm | streamlit_app.py:376-381 | one confirmation per guess, in guess order, with the pick or else the guess |
| Mapping.ConfirmStep | streamlit_app.py:376-381 | each loop step appends the confirmation of the next guess |
| Mapping.ConfirmAndRename | streamlit_app.py:365-391 | the guessing, confirming and renaming steps yield the mapped frame, or None when nothing was guessed |
| Mapping.Mapped | streamlit_app.py:383-391 | the result is None exactly when no column was guessed |
| Mapping.ColumnMapper | streamlit_app.py:351-391 | an empty frame gives None; otherwise the result is the mapping of the de-duplicated frame |
| Mapping.RenameConfirmed | streamlit_app.py:384 | the rename keeps cells; an unconfirmed column keeps its name; a confirmed one takes the key of its last confirmation |
| Mapping.LaterKeyNamesColumn | streamlit_app.py:384 | when name and donor_name both confirm column donor_name, donor_name wins |
| Scenarios.JaneDoeName | test_cleaning.py:21 | "  jane doe" becomes "Jane Doe" |
| Scenarios.AliceName | test_cleaning.py:39 | " alice " becomes "Alice" |
| Scenarios.BobName | test_cleaning.py:39 | "BOB" becomes "Bob" |
| Scenarios.TitledWord | non_profit.py:18 | a capitalised word is left as it is by the name rule |
| Scenarios.HolidayFundTitle | test_cleaning.py:10 | "Holiday Fund" is left as it is |
| Scenarios.DepartmentNames | test_cleaning.py:28 | "health" becomes "Health"; "Education" and "Health" stay |
| Scenarios.MissingCampaign | non_profit.py:20-22 | a missing campaign becomes "None", not "Uncategorized" |
| Scenarios.MethodNames | test_cleaning.py:9 | CREDIT, paypal, CASH and credit become credit, paypal, cash and credit |
| Scenarios.PhoneDigits | test_cleaning.py:38 | "(555)-123-4567" becomes "5551234567" |
| Scenarios.PrefixedPhoneDigits | test_cleaning.py:29 | "+1-555-789-4321" keeps its country digit: "15557894321" |
| Scenarios.NaNPhoneDigits | test_cleaning.py:29 | the text "NaN" has no digit |
| Scenarios.DigitGroups | non_profit.py:52 | digit groups separated by punctuation are concatenated |
| Scenarios.TestAmounts | test_cleaning.py:11 | "$100", "$0", "$25.00" and "$75.5" convert to 100, 0, 25 and 75.5 |
| Scenarios.VolunteerScenario | test_cleaning.py:24-39 | clean_volunteers keeps Alice and Bob, title-cased, with digit-only phones, and drops the row without hours |
| Scenarios.VolunteerRowsKept | test_cleaning.py:37 | the row test keeps the first two rows |
| Scenarios.DonationScenario | test_cleaning.py:5-21 | clean_donations keeps exactly Jane Doe and Amy, in that order, with their rewritten cells |
| Scenarios.DonationRowsKept | test_cleaning.py:19 | the row test keeps the first and the last row |
| Scenarios.JaneKept | test_cleaning.py:21 | Jane's row passes |
| Scenarios.JohnDropped | test_cleaning.py:19 | the "$0" row fails: its amount is not positive |
| Scenarios.NoNameDropped | test_cleaning.py:19 | the nameless row fails the row test (its date is not a date) |
| Scenarios.AmyKept | test_cleaning.py:21 | Amy's row passes |
| Scenarios.DonationScenarioSummary | non_profit.py:79-80 | the summary of the cleaned example totals 175.5 from two distinct donors |
| Scenarios.DonationOutputSummary | non_profit.py:79-80 | the same figures for the cleaned frame itself |
| Scenarios.JaneMeetsJane | non_profit.py:119-129 | donor "Jane Doe" and volunteer "jane doe" meet in exactly one merged row |

## Left out

- The Streamlit user interface: uploads, previews, sidebars, charts, warnings, the Pro gating and row limits. They draw the screen and hold no cleaning logic.
- `decode_file` and all file reading and writing: I/O, done by pandas.
- `clean_donations` and `clean_volunteers`: the debug `print` of the normalised header (non_profit.py:9 and non_profit.py:41). It is console output and changes no data.
- `create_pdf_report`: layout and encoding of a PDF.
- The Salesforce push: a network client.
- `safe_clean_dataframe` and `clean_data`, and the repeated detection code at streamlit_app.py:466-476.
- Fuzzy header matching: an external library.
- `pd.to_datetime`, `str()` of a float and `str()` of a timestamp are parameters (`Frames.Conversions`), not definitions. Date parsing rules and float formatting are not modelled.
- `Cleaning.AmountCell`: `float()` is modelled for these inputs:
  - optionally signed decimals with an optional exponent;
  - `nan`.
  It is not modelled for infinities or digit-group underscores, which it treats as errors. Values are exact reals, not IEEE doubles.
- `Cleaning.CleanDonations`: a repeated required column is reported as a single `NotUnique` error. pandas fails there with one of several different exceptions.
- `Text.Lower` and `Text.Title`: case mapping and whitespace are ASCII-only plus the common Unicode spaces. Non-ASCII letters are uncased.
- `Frames.Render`: the model renders every missing cell as "None". pandas does that only for Python `None`; it renders NaN, in any column, as "nan". So a blank name read from a CSV file becomes "Nan" after `title()`, not "None". `Merge.MissingNamesMatch` and `Scenarios.MissingCampaign` hold for `None` cells only.
- `Text.DigitsOnly`: `\D` and `\d` are taken over ASCII digits only. Python's `re` also keeps non-ASCII decimal digits such as "٥", which the model deletes. `Text.ParseFloat` likewise reads ASCII digits only, while `float()` accepts any Unicode decimal digit.
- `Reports.SummarizeDonations` and `Reports.SummarizeVolunteers`:
  - they take a table already in the cleaned shape (`DonationReady`, `VolunteerReady`), and pandas' behaviour on other inputs is not modelled;
  - the order of equal totals or counts after sorting is a stable insertion order, not pandas' exact tie order;
  - months are (year, month) pairs, and the text of `str(Period)` is not produced.
- `Reports.SummarizeVolunteers`: hours must already be numbers, because `clean_volunteers` does not convert them.
- `Mapping.MissingValueReport`:
  - the `percent_missing` text and the division behind it are left out, because they are floating-point formatting;
  - a repeated column name yields None instead of pandas' exception;
  - the map does not keep Python's insertion order.
- `Mapping.ColumnMapper`: the select boxes are a parameter `picks`, from key to chosen column. The exception branch around `guess_columns` cannot occur in the model.
- `Merge.MergeDonorsVolunteers`:
  - when a suffixed name collides with an existing column, pandas raises; the model does not;
  - the row order follows the donor rows, then the volunteer rows, as pandas' inner merge does for unsorted keys.
