# NSF award loader: a verified model of the text-to-rows core

This project models the core of `scripts/load_data.py`. That script reads NSF award text files from an S3 bucket and loads them into a PostgreSQL database. The model covers five parts:

- **`parse_award_file`.** The 16 labelled regular expressions, the sponsor pattern, the date clean-up, the `strptime` parse, the amount conversion and `clean_data`.
- **Sub-field splitting.** The investigator, program, field-application and program-reference lines that `load_data_to_rds` turns into child rows.
- **`process_s3_objects`.** Which keys become records, and whether loading is reached.
- **Row building.** The rows a batch would insert.
- **Key batching in `main`.** The split into chunks of `batch_size = 1000`.

Modules, in dependency order:

- **`Wrappers`:** `Option` and `Result`.
- **`PyStr`:** the Python string operations used: `str.strip`, `str.split(sep)`, `str.split(maxsplit=1)`, `str.replace(c, '')`, `str.endswith`, `str.isspace` and the count of a character.
- **`Regex`:** a backtracking matcher for the subset of Python's `re` that the patterns use. It provides `re.search` (leftmost match) and `re.sub`. Classes are a literal, `\s`, `\d` and `.`. Pieces are single characters, greedy and lazy repetition, and group markers.
- **`Dates`:** the date fields. `re.sub(r'\s+\(.*\)', '', v)` removes a note. `datetime.strptime(v, '%B %d, %Y').date()` is modelled in the C locale, and a date is valid exactly as `datetime.date` requires.
- **`Amount`:** `float(v.replace(',', ''))` over decimal numerals, with exact rational values.
- **`AwardData`:** the record (one `Field` key per dictionary key, with `None`, `str`, `date` or `float` values) and `clean_data`.
- **`Award`:** `parse_award_file`, both as the functions that specify it and as the imperative methods that do what the source does.
- **`AwardFacts`:** what a parsed record holds, field by field.
- **`Rows`:** the investigator, program, field-application and reference splits, and the rows of one record.
- **`Load`:** the rows of one batch (`load_data_to_rds` without the database).
- **`Ingest`:** `process_s3_objects`, the batching in `main`, and the per-batch outcomes.

Errors are results:

- A `ValueError` from `float` escapes `parse_award_file`. In the model it is `Err`, and it aborts the whole batch: only `UnicodeDecodeError` is caught at line 279.
- A failed two-way unpack of an investigator line raises as well, and so does an empty program line. These exceptions are not `psycopg2.Error`, so nothing of the batch is committed.

## Model

| member | source | states |
|---|---|---|
| AwardData.Cleaned | scripts/load_data.py:21-25 | the cleaned record has the same keys; each string entry becomes that string with NUL and U+FFFD removed, so no string in it holds either; values that are not strings are unchanged |
| AwardData.CleanString | scripts/load_data.py:24 | the result holds neither NUL nor U+FFFD, holds every other character of the input, and is shorter by exactly the number of NUL and U+FFFD characters removed |
| AwardData.CleanedIdempotent | scripts/load_data.py:21-25 | cleaning twice gives the same record as cleaning once |
| AwardData.CleanStringClean | scripts/load_data.py:24 | a string without NUL or U+FFFD is left as it is |
| AwardData.CleanData | scripts/load_data.py:21-25 | the loop that rewrites string entries in place ends with the cleaned record |
| AwardData.FieldsCovered | scripts/load_data.py:29-46 | every key is one of the 16 pattern keys or one of the three sponsor keys, and the date keys are the three that the date loop visits |
| Award.LabelValue | scripts/load_data.py:49-53 | a value found for a field is trimmed, because `strip` is applied to group 1 |
| Award.Labelled | scripts/load_data.py:48-54 | the pattern loop defines exactly the 16 pattern keys |
| Award.LabelsStep | scripts/load_data.py:48-54 | each pass of the pattern loop adds one key's entry to what the earlier passes built |
| Award.SearchLabels | scripts/load_data.py:48-54 | the imperative pattern loop builds the same record as `Labelled` |
| Award.WithSponsor | scripts/load_data.py:57-68 | the sponsor step sets each sponsor key to its part of the sponsor match (`None` without one) and leaves the pattern keys as they were |
| Award.Extracted | scripts/load_data.py:48-68 | after both extraction steps every key is present |
| Award.ExtractedEntry | scripts/load_data.py:48-68 | each key holds its own pattern's entry, or its part of the sponsor match |
| Award.ExtractFields | scripts/load_data.py:48-68 | the imperative extraction builds `Extracted` |
| Award.SponsorEntries | scripts/load_data.py:60-67 | the three values assigned in the two sponsor branches |
| Award.DateValue | scripts/load_data.py:72-79 | a non-empty date text becomes a valid calendar date or `None`; anything else is kept |
| Award.ParseDateEntry | scripts/load_data.py:72-79 | one pass of the date loop, the `try`/`except ValueError` included, computes `DateValue` |
| Award.ParseDates | scripts/load_data.py:71-79 | the imperative date loop computes `WithDates`, which keeps the key set and replaces each date key by its `DateValue` |
| Award.AmountValue | scripts/load_data.py:82-83 | a non-empty amount text becomes the number `float` reads after the commas are removed; when `float` rejects it, the error escapes |
| Award.ConvertAmount | scripts/load_data.py:82-85 | the amount step followed by `clean_data` |
| Award.ParseAward | scripts/load_data.py:27-85 | a parsed record has every key, and no string value in it holds NUL or U+FFFD |
| Award.ParseAwardFile | scripts/load_data.py:27-85 | the imperative parser (extraction loop, date loop, amount, cleaning) returns `ParseAward` |
| AwardFacts.ParseAwardEntry | scripts/load_data.py:48-85 | each entry of a parsed record depends only on its own pattern: it is that field's raw entry, converted and cleaned |
| AwardFacts.MissingLabel | scripts/load_data.py:49-53 | a field whose label word is absent from the text is `None` |
| AwardFacts.LabelAbsent | scripts/load_data.py:49-53 | a pattern whose leading word does not occur finds nothing |
| AwardFacts.TextFieldEntry | scripts/load_data.py:48-54 | a text field holds `None`, or its value cleaned; that value is trimmed and lies on one line |
| AwardFacts.LabelOneLine | scripts/load_data.py:30-51 | the value `(.+)` captures has no line break, because `.` stops at a newline |
| AwardFacts.CaptureOneLine | scripts/load_data.py:30-49 | group 1 of a labelled pattern is non-empty and has no line break |
| AwardFacts.SponsorAllOrNone | scripts/load_data.py:57-68 | the three sponsor keys are all `None` exactly when the sponsor pattern does not occur |
| AwardFacts.SponsorShape | scripts/load_data.py:57-63 | when matched: the phone is `ddd/ddd-dddd`, the name is one trimmed line, and the address is two trimmed lines joined by `", "` |
| AwardFacts.SponsorGroups | scripts/load_data.py:57-59 | the three lazy groups stay within one line each, and group 4 spans the twelve phone characters |
| AwardFacts.SponsorPhoneEntry | scripts/load_data.py:57-63 | a set sponsor phone in a parsed record has the `ddd/ddd-dddd` shape |
| AwardFacts.SponsorFieldEntry | scripts/load_data.py:60-68 | each sponsor key of a parsed record holds its part of the sponsor match, cleaned |
| AwardFacts.DateFieldEntry | scripts/load_data.py:71-79 | a date key of a parsed record is `None`, an empty string, or a valid calendar date |
| AwardFacts.DateTextEntry | scripts/load_data.py:72-79 | a non-empty date text is replaced by the date it parses to after the note is removed, or by `None` |
| AwardFacts.AnnotatedDateEntry | scripts/load_data.py:74-76 | a date printed as `Month DD, YYYY (note)` is stored as that date |
| AwardFacts.AmountBetween | scripts/load_data.py:40 | the amount value is captured right after a `$` and is followed by whitespace and `(Estimated)` |
| AwardFacts.AmountMatch | scripts/load_data.py:40 | a match of the amount pattern at any start has that shape |
| AwardFacts.EstimatedTrailer | scripts/load_data.py:40 | the trailer `\s+\(Estimated\)` matches only where whitespace and then `(Estimated)` follow |
| AwardFacts.AmountEntry | scripts/load_data.py:82-83 | the stored amount is `None`, an empty string, or the number the captured text spells without commas |
| AwardFacts.ParseAwardError | scripts/load_data.py:82-83 | `parse_award_file` raises exactly when the amount text is non-empty and `float` rejects it once the commas are removed |
| AwardFacts.GroupedAmountEntry | scripts/load_data.py:82-83 | an amount written with thousands separators, such as `123,456`, is stored as the integer its digits spell, without an error |
| AwardFacts.AmountRead | scripts/load_data.py:82-83 | a set amount text that `float` reads is stored as that number |
| Amount.ParseFloat | scripts/load_data.py:83 | whatever `float` accepts is, once stripped, a non-empty run of digits, points and signs; the values it gives are stated by `DigitsParse` and `DecimalParse` |
| Amount.CommaRejected | scripts/load_data.py:83 | a text that still has a comma is rejected |
| Amount.DigitsParse | scripts/load_data.py:83 | a run of digits reads as the integer it spells |
| Amount.DecimalParse | scripts/load_data.py:83 | every decimal numeral with a point, optionally signed (`-12.5`, `+.5`, `3.`), is accepted and read as the value it spells, negated after `-` |
| Amount.UngroupGrouped | scripts/load_data.py:83 | removing the commas from a digit string grouped by threes gives back the digits |
| Amount.GroupedAmount | scripts/load_data.py:83 | a grouped digit string converts to the integer its digits spell |
| Amount.SampleAmount | scripts/load_data.py:83 | `123,456` gives 123456 |
| Dates.ParseDate | scripts/load_data.py:76 | whatever `strptime` accepts is a valid calendar date |
| Dates.ParsePrinted | scripts/load_data.py:76 | a valid date printed as `%B %d, %Y` reads back as the same date |
| Dates.MonthFrom | scripts/load_data.py:76 | `%B` picks the first month whose full name starts the text (ignoring case), or none when no name does |
| Dates.MonthOf | scripts/load_data.py:76 | a text starting with a month name reads as that month |
| Dates.DropTrailingNote | scripts/load_data.py:74 | `re.sub` removes a trailing ` (note)` and leaves the date text before it |
| Dates.NoNoteInside | scripts/load_data.py:74 | no match of the note pattern starts inside a text that holds no `(` and does not end in whitespace |
| Dates.ParseAnnotatedDate | scripts/load_data.py:74-76 | a printed date followed by ` (note)` parses to that date |
| Rows.SplitInvestigator | scripts/load_data.py:127-128 | the unpack succeeds exactly when the line holds one `(`; then the name and role are trimmed, and neither holds `(`, nor does the role hold `)`; which name and role, for every such line, is stated by `InvestigatorSplit` |
| Rows.InvestigatorRoundTrip | scripts/load_data.py:127-128 | splitting `name (role)` gives back a trimmed name and role |
| Rows.InvestigatorSplit | scripts/load_data.py:127-128 | any line with one `(`, the text `a` before it and `b` after it, gives `a` trimmed as the name and `b` without its `)`s, trimmed, as the role (two spaces before `(`, no space, text after `)` alike) |
| Rows.SplitCodeName | scripts/load_data.py:145-150 | only a blank line fails (at `parts[0]`); otherwise the code is non-empty and whitespace-free and the name does not start with whitespace; which code and name, for every line, is stated by `CodeNameRoundTrip` |
| Rows.CodeNameRoundTrip | scripts/load_data.py:145-150 | every non-blank line is leading whitespace, a whitespace-free code, whitespace and a name: it gives that code, the first token, and that name, the rest after the whitespace; a line with only a code gets `''` |
| Rows.CodeAlone | scripts/load_data.py:145-150 | a bare code such as `1263` gives that code and the name `''` |
| Rows.ProgramRefs | scripts/load_data.py:169-175 | a string with k commas gives k+1 trimmed references, none of which holds a comma |
| Rows.RefsRoundTrip | scripts/load_data.py:169-175 | the references of comma-joined parts are those parts, trimmed and in order |
| Rows.AwardRowOf | scripts/load_data.py:102-107 | an award row holds the twelve award columns in insert order |
| Rows.AwardColumnsExact | scripts/load_data.py:98-105 | the award columns are exactly the labelled fields that no child table takes |
| Rows.InvestigatorRows | scripts/load_data.py:120-129 | one row per investigator line, with that line's name and role; it raises exactly when some line fails to split |
| Rows.CodeRows | scripts/load_data.py:138-166 | one program or field-application row per line, with that line's code and name; it raises exactly when some line fails to split |
| Rows.RefRows | scripts/load_data.py:168-175 | one reference row per comma-separated part |
| Rows.SponsorPart | scripts/load_data.py:131-136 | one sponsor row when the sponsor is set, holding the sponsor, its address and its phone and the award id; otherwise none |
| Rows.RecordRows | scripts/load_data.py:117-175 | a record's child rows carry its award id; building them raises exactly when an investigator, program or field-application line fails to split |
| Rows.RecordRowsOrder | scripts/load_data.py:120-175 | the rows of a record are its investigator rows, its sponsor row, its program rows, its field-application rows and its reference rows, in that order |
| Rows.InvestigatorPart | scripts/load_data.py:120-129 | nothing when the field is empty; else one row per line, holding that line's name and role and the award id; raises exactly when a line fails to split |
| Rows.CodePart | scripts/load_data.py:138-166 | nothing when the field is empty; else one row per line of the program or field-application table, holding that line's code and name and the award id; raises exactly when a line is blank |
| Rows.RefPart | scripts/load_data.py:168-175 | nothing when the field is empty; else one reference row per comma-separated part, holding that part trimmed and the award id |
| Rows.OneInvestigator | scripts/load_data.py:120-129 | a set one-line investigator field gives exactly the one row its line splits into, or raises exactly when the line does not split |
| Rows.OneCode | scripts/load_data.py:138-166 | a set one-line program or field-application field gives exactly the one row its line splits into, or raises exactly when the line is blank |
| Load.BatchRows | scripts/load_data.py:102-177 | a batch commits its award rows in record order, followed by the child rows of each record that got an id, record by record; nothing is committed when any line fails to split |
| Load.ChildRows | scripts/load_data.py:117-175 | `zip` pairs records with ids: it raises exactly when a record that got an id has a line that fails to split, and otherwise gives the rows of the first record with the first id, then those of the second, and so on |
| Load.Concat | scripts/load_data.py:117-175 | the rows of each record in turn, or an error exactly when one record's rows raise |
| Load.EachRecordRows | scripts/load_data.py:117 | one row list per record that has an id (`zip` stops at the shorter list), each the rows that record builds with its id |
| Load.ParsedLoadable | scripts/load_data.py:119-175 | a record returned by `parse_award_file` has a string or `None` in every field that is split into child rows |
| Load.ParsedOneLine | scripts/load_data.py:120-166 | every labelled text field of a parsed record (investigators, programs and field applications among them) is a single line, so each `split('\n')` loop runs at most once |
| Load.ParsedInvestigatorRow | scripts/load_data.py:120-129 | a parsed record with an investigator gives exactly one investigator row, of the name and role its line splits into, or raises exactly when that line does not split |
| Load.ParsedCodeRow | scripts/load_data.py:138-166 | a parsed record with a program or field application gives exactly one row, of the code and name its line splits into, or raises exactly when that line is blank |
| Ingest.Keep | scripts/load_data.py:256-280 | one pass of the loop: HTML keys, undetected encodings, decode failures and all-falsy records are skipped; a parse error escapes |
| Ingest.Kept | scripts/load_data.py:274-278 | a parsed record is appended exactly when one of its values is truthy |
| Ingest.KeepKey | scripts/load_data.py:255-280 | the imperative loop body computes `Keep` |
| Ingest.Collect | scripts/load_data.py:253-280 | no more records than keys, and every record has a truthy value |
| Ingest.CollectErr | scripts/load_data.py:272-280 | the loop raises exactly when some non-HTML key decodes and fails to parse |
| Ingest.CollectProvenance | scripts/load_data.py:256-278 | every gathered record comes from a non-HTML, decoded key whose parse gave it and has a truthy value |
| Ingest.CollectComplete | scripts/load_data.py:256-278 | every such record of a key is gathered |
| Ingest.CollectIgnoresHtml | scripts/load_data.py:256-258 | the contents of HTML keys never matter |
| Ingest.CollectAppend | scripts/load_data.py:254-280 | gathering over two key lists is gathering over each in turn, and an error in the first stops the loop |
| Ingest.CollectLoadable | scripts/load_data.py:274-283 | the gathered records can be given to the row builder |
| Ingest.Process | scripts/load_data.py:252-283 | a parse error raises before loading; loading is skipped exactly when no record was gathered; otherwise the batch commits exactly the rows `BatchRows` builds from the gathered records, or raises when a line fails to split |
| Ingest.ProcessObjects | scripts/load_data.py:252-283 | the imperative `process_s3_objects` computes `Process` |
| Ingest.Batches | scripts/load_data.py:294 | every batch holds 1 to `size` keys, all but the last hold exactly `size`, and there are ceil(n / size) batches |
| Ingest.BatchesAt | scripts/load_data.py:294 | batch j is `keys[j*size : j*size + size]`, as the comprehension writes it |
| Ingest.BatchesFlatten | scripts/load_data.py:294 | the batches, concatenated in order, give back the key list |
| Ingest.MainOutcomes | scripts/load_data.py:294-302 | each batch is processed on its own, and the outcome of batch j depends only on its keys |
| Ingest.BatchingKeepsRecords | scripts/load_data.py:294-297 | when no batch raises, the batches gather, in order, the records one pass over all keys would gather |
| Ingest.BatchRaises | scripts/load_data.py:296-302 | batch j raises a parse error exactly when one of its keys fails to parse |
| PyStr.Strip | scripts/load_data.py:51 | `str.strip()` removes whitespace at both ends and keeps the middle |
| PyStr.SplitOn | scripts/load_data.py:169 | `str.split(sep)` gives one more part than there are separators, and no part holds the separator |
| PyStr.JoinSplit | scripts/load_data.py:169 | joining the parts with the separator gives back the string |
| PyStr.SplitOnce | scripts/load_data.py:145 | `split(maxsplit=1)`: no parts for a blank line, otherwise a whitespace-free first token and at most one more part, which does not start with whitespace; which parts is stated by `SplitOnceOf` |
| PyStr.SplitOnceOf | scripts/load_data.py:145 | whitespace, a token, whitespace and a rest split into `[token, rest]`, or `[token]` when the rest is empty |
| PyStr.RemoveChar | scripts/load_data.py:128 | `str.replace(c, '')` removes every `c` and keeps every other character |
| Regex.SearchFrom | scripts/load_data.py:49 | `re.search` scanning from a start: the match found is at the first position where the pattern matches, and no match means the pattern matches at no position |
| Regex.Search | scripts/load_data.py:57-59 | a match found by `re.search` lies within the text and has one sorted capture position per group marker; that it is the leftmost match is stated by `SearchFrom` |
| Regex.SearchNeedsHead | scripts/load_data.py:49 | a pattern that begins with a literal word finds nothing when the word does not occur |
| Regex.Sub | scripts/load_data.py:74 | `re.sub` with an empty replacement never lengthens the text, and changes nothing when there is no match |

## Left out

- S3 access is not modelled: the client, the paginator and `get_object` (lines 18, 260-261, 286-291). The key list of `main` is a parameter. A listing page without `Contents` raises `KeyError`, which the model does not capture.
- `chardet.detect` and `bytes.decode` (264-273) are a parameter, `fetch`, which says for each key whether no encoding was found, decoding failed, or which text it gave. A `LookupError` for an unknown codec name is not modelled.
- The database is not modelled: the connection, the cursor, `execute_values`, `commit` and `rollback` (87-115, 176-180, 249-250).
  - The ids returned by the award insert are a parameter of the batch.
  - `execute_values` pages 100 rows at a time, so `fetchall` may return only the last page's ids. `zip` then pairs records with the wrong ids. The model takes the ids as given.
  - A `psycopg2.Error` and the record-by-record fallback (181-247) are not modelled. That fallback passes the whole dictionary as the query values (184).
- The thread pool (296-302) is not modelled. Batches are independent outcomes, and the order in which `as_completed` reports them is not captured.
- Every `print` is left out, including the "Pattern not found" and "Sponsor information not found" messages.
- Amount.ParseFloat: reads only optionally signed decimal numerals with an optional point, in ASCII digits, as exact rationals. Exponents, underscores, `inf` and `nan` are not covered, and neither is rounding to a binary double. Python's `float` also reads other Unicode decimal digits (`float('١٢٣') == 123.0`); the model rejects such a text, and so treats it as a `ValueError` that aborts the batch.
- `\d` matches ASCII digits only; Python's `\d` also accepts other Unicode decimal digits.
- `strptime` is modelled for the C locale's English month names, matched ignoring case, as `%B` does.
- scripts/create_schema.py, scripts/create_rds_db.py, delete_local.py and the tests are not part of this model. They create the database or delete files, and the test file imports a function the script does not define.

Where the code differs from the intended design, the model follows the code:

- The award insert and the child inserts are plain `INSERT`s with an `award_id` column. There is no upsert and no deduplication.
- An investigator line without exactly one `(` does not give a name alone: the two-way unpack raises and the batch is lost (`Rows.SplitInvestigator`).
- An amount that `float` rejects raises out of `parse_award_file` and `process_s3_objects`, and ends that batch (`AwardFacts.ParseAwardError`).
- A set value is trimmed before `clean_data` runs, and cleaning can expose whitespace again: `"\x00 x"` strips to itself and cleans to `" x"`. So `AwardFacts.TextFieldEntry` states that the text before cleaning is trimmed.
- The `split('\n')` loops over investigators, programs and field applications only ever see one line: `(.+)` stops at a line break (`Load.ParsedOneLine`).
