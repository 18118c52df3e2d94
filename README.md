# NPS Automater feedback core, modelled in Dafny

This project models the two parts of NPS Automater that contain logic:

- **Review extraction** (`extract_reviews`). The survey sheet's records are checked against the column-keys contract. The contract maps each source column to a canonical name. Next, the contract columns are kept in contract order and given their canonical names. Empty strings become missing values, and every row with a missing value is dropped. The surviving rows then make up the five feedback lists: `engineer_feedback`, `program_likings`, `topics_learned`, `program_improvements` and `engineer_improvements`.
- **Rule-based feedback analysis** (`analyze_feedback`). This part does keyword sentiment counting, comma-split topic frequencies, tallies of improvement suggestions, and the most frequent program liking.

Everything is pure. A sheet row is a `map<string, string>`. The contract is the column-keys JSON object as an ordered `seq<(string, string)>`. Each pandas frame stage is a `Table`: a header plus rows of cells, where a cell is text or `Null`. Python's `collections.Counter` becomes `Counter.Tally`. A tally holds its keys in first-insertion order plus their counts, because `max(d, key=d.get)` depends on dict order.

The modules are `Sequences` (distinct elements and first occurrences), `Strings` (ASCII lower-casing, substring search, `split`), `Counter`, `ExtractReviews` and `FeedbackGenerator`.

A row is dropped when any contract column is empty, so every present bundle list has one entry per surviving row and all present lists have the same length.

## Model

| member | source | states |
|---|---|---|
| `ExtractReviews.Columns` | source/routers/extract_reviews.py:41 | a name is a frame column exactly when some record has it |
| `ExtractReviews.ValidateContract` | source/routers/extract_reviews.py:44-45 | passes exactly when every contract source column is among the frame's columns; vacuously true for an empty contract |
| `ExtractReviews.Extract` | source/routers/extract_reviews.py:30-69 | a missing key file, a non-object contract, or any contract column absent from the sheet gives the single error outcome with that cause; for contracts with distinct canonical names, an object contract fails exactly when some source column is absent |
| `ExtractReviews.MissingColumnFails` | source/routers/extract_reviews.py:44-46 | a contract column that no record has makes extraction fail with the mismatch error, and no bundle is produced |
| `ExtractReviews.EmptyContract` | source/routers/extract_reviews.py:44-69 | an empty contract always passes validation and yields five empty lists |
| `ExtractReviews.ProjectRow` | source/routers/extract_reviews.py:49 | a projected row has one cell per contract column, in contract order; the cell is the record's value, or missing when the record lacks the column |
| `ExtractReviews.Project` | source/routers/extract_reviews.py:49 | the frame keeps only the contract's source columns, in contract order, with one row per record |
| `ExtractReviews.RenameColumn` | source/routers/extract_reviews.py:53 | a label changes only when the contract pairs it with a canonical name |
| `ExtractReviews.RenameSource` | source/routers/extract_reviews.py:53 | with distinct sources, the k-th source column is renamed to the k-th canonical name |
| `ExtractReviews.Rename` | source/routers/extract_reviews.py:53 | relabels each header entry and leaves every cell unchanged |
| `ExtractReviews.RenamedHeader` | source/routers/extract_reviews.py:49-53 | after projection and renaming, the header is exactly the canonical names in contract order, and every row has one cell per contract pair |
| `ExtractReviews.ReplaceEmptyRow` | source/routers/extract_reviews.py:56 | each cell is replaced cell by cell, and the row keeps its length |
| `ExtractReviews.ReplaceEmpty` | source/routers/extract_reviews.py:56 | every empty-string cell becomes the missing value `Null`; every other cell, including whitespace-only text, is unchanged |
| `ExtractReviews.KeepComplete` | source/routers/extract_reviews.py:59 | a row is kept exactly when none of its cells is missing, each complete row as many times as it occurs and every other row zero times; no rows are added |
| `ExtractReviews.KeepCompleteAppend` | source/routers/extract_reviews.py:59 | dropping works row by row and keeps order: the rows kept from a concatenation are the rows kept from each part, in turn |
| `ExtractReviews.DropIncomplete` | source/routers/extract_reviews.py:59 | the header is unchanged; every row without a missing cell is kept as often as it occurs, and every other row is dropped |
| `ExtractReviews.Clean` | source/routers/extract_reviews.py:49-59 | the cleaned frame is aligned with its header and holds no missing value; its rows are the surviving records projected onto the contract, in sheet order; with distinct source columns its header is the canonical names |
| `ExtractReviews.ProjectedRowsStable` | source/routers/extract_reviews.py:56 | projected complete records hold no empty string, so nulling empty cells leaves them unchanged |
| `ExtractReviews.ProjectedRowCleaning` | source/routers/extract_reviews.py:49-59 | a projected row survives nulling and dropping exactly when its record has every contract column and none is `""`; a surviving row is unchanged |
| `ExtractReviews.CleanRows` | source/routers/extract_reviews.py:49-59 | the cleaned frame's rows are the surviving records, projected onto the contract, in sheet order |
| `ExtractReviews.SurvivorsIff` | source/routers/extract_reviews.py:56-59 | a record survives exactly when it has every contract column and none of their values is `""` |
| `ExtractReviews.SurvivorsAppend` | source/routers/extract_reviews.py:59 | cleaning works row by row and keeps order: cleaning a concatenation gives the concatenation of the cleanings |
| `ExtractReviews.SurvivorsOfComplete` | source/routers/extract_reviews.py:56-59 | records that are already complete all survive, unchanged and in order |
| `ExtractReviews.CleanKeepsCompleteSheet` | source/routers/extract_reviews.py:56-59 | a sheet of complete records loses no row in cleaning |
| `ExtractReviews.CleanIdempotent` | source/routers/extract_reviews.py:56-59 | nulling empty cells and dropping incomplete rows a second time leaves the cleaned frame unchanged |
| `ExtractReviews.Field` | source/routers/extract_reviews.py:64-68 | a field is the text of the first column with that label, row by row, or `[]` when the frame has no such column |
| `ExtractReviews.BuildBundle` | source/routers/extract_reviews.py:63-69 | each of the five lists is the frame's column of that name, or `[]` when the frame lacks it |
| `ExtractReviews.ColumnAt` | source/routers/extract_reviews.py:64-68 | `tolist` gives one value per row, in row order, each the text of that row's cell |
| `ExtractReviews.ColumnOfProjected` | source/routers/extract_reviews.py:63-69 | column k of the projected surviving rows is the k-th source column's values over those records |
| `ExtractReviews.FieldSpec` | source/routers/extract_reviews.py:63-69 | a bundle field is the mapped source column over the surviving records, or `[]` when the contract does not produce that name |
| `ExtractReviews.ExtractSpec` | source/routers/extract_reviews.py:43-69 | with a valid, injective contract, extraction succeeds, and each of the five fields is exactly the expected column over the surviving records |
| `ExtractReviews.FieldShape` | source/routers/extract_reviews.py:59-69 | an absent name gives `[]`; a present field has one entry per surviving record, so all present fields have equal length; no entry is `""` |
| `ExtractReviews.SourceOf` | source/routers/extract_reviews.py:53 | gives the source column that the contract pairs with a canonical name |
| `ExtractReviews.Pick` | source/routers/extract_reviews.py:64-68 | gives one value per record, in order, each the record's value in that column |
| `ExtractReviews.ToJson` | source/routers/extract_reviews.py:63-73 | the saved JSON object has exactly the five named lists |
| `Strings.LowerChar` | source/routers/feedback_generator.py:37 | an ASCII capital becomes the small letter 32 code points above it; a character that is not a capital is unchanged; the result is never a capital |
| `Strings.Lower` | source/routers/feedback_generator.py:37 | lower-casing keeps the length, maps each character on its own, and leaves no ASCII capital |
| `Strings.LowerOfLower` | source/routers/feedback_generator.py:44 | lower-casing text that is already lower-case changes nothing, so lower-casing is idempotent |
| `Strings.Contains` | source/routers/feedback_generator.py:37-38 | `sub in s`: the empty string is in every string, and a contained string is never longer than the text |
| `Strings.ContainsIff` | source/routers/feedback_generator.py:37-38 | `sub in s` holds exactly when `sub` occurs in `s` at some position (both directions) |
| `Strings.Split` | source/routers/feedback_generator.py:44 | `split` always yields at least one piece |
| `Strings.SplitCount` | source/routers/feedback_generator.py:44 | splitting on a comma yields one more piece than there are commas, empty pieces included |
| `Strings.SplitPiecesFree` | source/routers/feedback_generator.py:44 | no piece contains the separator |
| `Strings.SplitJoin` | source/routers/feedback_generator.py:44 | joining the pieces with the separator gives back the original entry (nothing is trimmed or lost) |
| `FeedbackGenerator.CountMentions` | source/routers/feedback_generator.py:37-38 | the keyword count never exceeds the list length |
| `FeedbackGenerator.CountMentionsIndices` | source/routers/feedback_generator.py:37-38 | the generator-sum count is the number of positions whose lower-cased entry contains one of the keywords |
| `FeedbackGenerator.AnalyzeSentiment` | source/routers/feedback_generator.py:36-40 | positive counts the entries that contain "good" or "excellent" after lower-casing, and negative those that contain "bad" or "poor"; each lies between 0 and the length; positive + negative + neutral equals the length |
| `FeedbackGenerator.NeutralCanBeNegative` | source/routers/feedback_generator.py:37-39 | an entry with both kinds of keyword counts on both sides, so neutral can be -1 |
| `FeedbackGenerator.LowerAll` | source/routers/feedback_generator.py:44 | lower-cases every piece and keeps their number and order |
| `FeedbackGenerator.TopicPieces` | source/routers/feedback_generator.py:44 | the flattened topic list has (commas + 1) pieces per entry, each lower-case and free of commas |
| `FeedbackGenerator.CountTopics` | source/routers/feedback_generator.py:43-45 | the topic frequencies are the exact tally of the pieces: each distinct piece once, in first-seen order, mapped to its number of occurrences; every key is lower-case and comma-free; the frequencies sum to the number of pieces |
| `Sequences.FirstIndex` | source/routers/feedback_generator.py:45 | gives a position of the element with no earlier occurrence |
| `Sequences.FirstIndexAppend` | source/routers/feedback_generator.py:45 | appending an element moves no earlier first occurrence, and a new element is first seen at the end |
| `Counter.FirstIndexAll` | source/routers/feedback_generator.py:45 | the same, for every key of an earlier tally at once |
| `Counter.AddStep` | source/routers/feedback_generator.py:50 | one counting step keeps the tally exact: distinct keys in first-seen order, and counts equal to occurrences |
| `Counter.Count` | source/routers/feedback_generator.py:50 | `dict(Counter(xs))`: the keys are the distinct elements, each once, in first-occurrence order, and each count is the element's number of occurrences |
| `Counter.SumOverUpdate` | source/routers/feedback_generator.py:50 | changing the count of a key listed once shifts the sum by exactly that change |
| `Counter.TotalIsLength` | source/routers/feedback_generator.py:45 | the counts of `dict(Counter(xs))` sum to the length of `xs` |
| `Counter.MaxIndex` | source/routers/feedback_generator.py:69 | `max(d, key=d.get)` picks a key whose count no key exceeds, and every earlier key has a strictly smaller count |
| `FeedbackGenerator.ExtractImprovements` | source/routers/feedback_generator.py:48-52 | `total_suggestions` is the list length; `most_common` is the exact tally of the list: each distinct suggestion once, in first-occurrence order, mapped to its number of occurrences; the counts sum to the length |
| `FeedbackGenerator.MostLikedAspect` | source/routers/feedback_generator.py:68-69 | "N/A" when there are no likings; otherwise a liking whose count no liking exceeds, and on a tie the one seen first |
| `FeedbackGenerator.MostLikedProperties` | source/routers/feedback_generator.py:69 | the key chosen by `max` is a liking of maximal count and has the earliest first occurrence among the keys tied with it |
| `FeedbackGenerator.MaxKeyProperties` | source/routers/feedback_generator.py:68-69 | in an exact tally, a key with maximal count that beats every earlier key is a liking of maximal occurrence count, seen no later than any liking tied with it |
| `FeedbackGenerator.NotAvailableIsAmbiguous` | source/routers/feedback_generator.py:69 | a single liking spelled "N/A" also yields "N/A" |
| `FeedbackGenerator.GetList` | source/routers/feedback_generator.py:55-59 | a missing key reads as the empty list, and a present key as its list |
| `FeedbackGenerator.AnalyzeFeedback` | source/routers/feedback_generator.py:55-78 | the analysis is total on any loaded object: the sentiment counts sum to the feedback list's length, the topic frequencies sum to its pieces, both suggestion totals are their list lengths, and a missing likings key gives "N/A" |
| `FeedbackGenerator.AnalyzeEmpty` | source/routers/feedback_generator.py:55-78 | an empty object yields zero counts, empty tallies and "N/A" |
| `FeedbackGenerator.AnalyzeSavedBundle` | source/routers/feedback_generator.py:55-65 | analysing the saved bundle analyses exactly its five lists |

## Left out

- Opening the spreadsheet and reading its records (`gsheet_client.open(...).sheet1.get_all_records()`). The records are an input parameter. Every cell is assumed to be a string; the numeric cells that the client may produce are not modelled.
- Checking for, reading and writing the JSON files. The contract is a `ContractFile` value: missing, not an object, or an object. The saved bundle is `ToJson`'s map. The write (72-73) and the success payload (75-82) are not modelled.
- `ExtractReviews.Extract`: models a raised exception as one `Failed` outcome carrying its cause. The FastAPI status codes are not modelled, and neither is the exact `str(e)` text of the rethrown 500. Nor is the Python message for a non-object contract, which depends on the JSON value's type; every such contract fails, in `dict(...)` or in `.values()`.
- `ExtractReviews.Extract`: returns `Saved` for a contract that maps two source columns to one of the five bundle names, taking the first such column. In the code that name selects two columns, the list conversion raises, and the handler answers with its 500 error.
- `ExtractReviews.ExtractSpec`: assumes distinct canonical names. When two contract pairs share one canonical name, the renamed frame has two columns with that label, and the model does not describe what the code then produces. Distinct source columns hold for every JSON object, because its keys are distinct.
- pandas dtype coercion and the difference between NaN and `pd.NA`. Both are the single `Null` cell.
- `Strings.Lower`: models Python's `str.lower` on ASCII capitals only. Other Unicode case mappings are not modelled.
- `FeedbackGenerator.MostLikedAspect`: states "N/A iff no likings" in one direction only. A liking spelled "N/A" also produces "N/A" (`NotAvailableIsAmbiguous`).
- `analyze_feedback`'s outer `try`: a missing or unreadable bundle file becomes a 400, which is I/O. A top-level value that is not an object fails in `data.get` and also becomes that 400. `.lower()` and `.split()` reject a non-string entry only in `engineer_feedback` and `topics_learned`. In the three lists that are only counted (`program_likings`, `program_improvements`, `engineer_improvements`), any hashable JSON value is counted like a string. A string in place of a list is analysed character by character. The model's input type, `map<string, seq<string>>`, excludes all these values, so neither the failure nor the counting is modelled.
- The Gemini configuration, the FastAPI routers, the debug `print` calls, and the Streamlit UI, process launcher, credential bootstrap and single-column sheet reader (`source/UI/nps_automator_ui.py`, `source/main.py`, `source/auth.py`, `source/extract_reviews.py`). They hold presentation, process, credential and client code only.
