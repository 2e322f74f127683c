# Campaign change-log analyzer: a Dafny model of its record processing

The analyzer reads the change logs of a campaign and groups the changes into sessions. It renders those sessions as text for a language model and computes summary statistics. It also formats display grids and markdown, validates the form inputs, and converts raw sessions into entry records. This project models the deterministic core of that logic as pure Dafny functions over immutable datatypes, and proves what those functions promise.

Modules, one file each:

- `wrappers.dfy` (`Wrappers`): `Option`. `Slot` is what `d.get(key)` can see in a dict: a missing key, a None value, or a string. It also models Python's `x or default` on strings.
- `strings.dfy` (`Strings`): the Python string behaviour the rest relies on.
  - `str.replace` and ASCII `str.title`.
  - Slicing with a possibly negative bound.
  - `str(n)`, including `{:,}` thousands separators, and reading numbers back.
  - `str.join`.
  - Code-point string order, and `sorted(set(...))`.
- `table_mappings.dfy` (`TableMappings`): the four change-log tables, their display names, and the automatic name clean-up.
- `tally.dfy` (`Tally`): occurrence counts, distinct values, and a stable sort by descending count. These model pandas `nunique` and `value_counts` and the per-table tally of the summary text.
- `queries.dfy` (`Queries`):
  - grouping of change records by their exact (update time, update user) pair, newest first;
  - the numbered "Session N" narrative;
  - the campaign summary statistics.
- `data_formatter.dfy` (`DataFormatter`):
  - `truncate_text`;
  - the rows of the raw and the grouped change grids;
  - the markdown statistics text;
  - the connection-status line.
- `validation.dfy` (`Validation`):
  - the first-failure-wins input validation;
  - Python's `int()` on a string;
  - the date-range, API-key and record-limit checks.
- `campaign_service.dfy` (`CampaignService`): conversion of raw sessions into session and entry records.
- `response.dfy` (`Response`): the analysis response object. This covers constructor defaults, the formatted text, and the dictionary form with its inverse.

Modelling choices:

- Timestamps are integers, because only their order matters. Dates handed to the validator are parsed by a parameter `parse: string -> Option<int>`, which stands for `strptime` with `%Y-%m-%d`.
- The performer helper `get_performer_or_user` is a parameter of the session conversion. `services/campaign_service.py:11-16` imports it, and `format_grouped_changes_for_display`, from `utils/data_formatter.py`, which defines neither. `utils/__init__.py:1-5` imports the latter too. `ChangeEntry` and `ChangeSession` (line 9) are not defined either. So, as written, the service module fails at import.
- Where the Python code would raise, the model returns `None`:
  - `format_summary_stats` divides by a zero total, or calls `.replace` on a None table name.
  - `int()` is given a non-number.

`services/campaign_service.py:104-105` passes the dictionary from `get_campaign_summary_stats` straight into `format_summary_stats`. That dictionary has none of the keys `changes`, `top_fields`, `date_range_days`, `changes_per_day` and `most_active_user`. So this composition always shows both fallback lines, which `DataFormatter.SummaryOfQueryStatsShowsFallbacks` proves. The model does not claim that the streaming method reaches those lines. At `services/campaign_service.py:86` it passes four arguments to `get_campaign_changes`, which `database/queries.py:12` defines with two. At line 96 it calls `group_changes_by_user_and_date`, which the query class does not define. Either call raises, and the handler at lines 146-150 turns the exception into an error message. That handler is only reached once the failing imports above are repaired.

## Model

| member | source | states |
|---|---|---|
| Wrappers.OrElse | database/queries.py:110-111 | `v or '[empty]'`: a None or empty value yields the fallback, any other value is kept verbatim |
| Strings.SliceTo | utils/data_formatter.py:126 | `s[:k]` for any integer k: a prefix of length k, the whole string when k is at least the length, and counting from the end when k is negative |
| Strings.ReplaceChar | constants/table_mappings.py:25 | replacing one character by another, as the clean-up does with '_' and ' ', keeps the length and changes exactly the occurrences of that character |
| Strings.TitleShape | constants/table_mappings.py:25 | title-casing keeps length and non-letters; a letter is upper-cased at a word start and lower-cased elsewhere |
| Strings.CommasOnlySeparate | utils/data_formatter.py:91 | removing the commas of `{n:,}` gives back `str(n)` |
| Strings.StrLessTransitive | utils/data_formatter.py:45 | the order `sorted` uses on strings is transitive |
| Strings.StrLessTotal | utils/data_formatter.py:45 | of two different strings, one sorts before the other |
| Strings.SortedUniqueSpec | utils/data_formatter.py:45 | `sorted(set(xs))` is strictly increasing and holds exactly the values of xs |
| Strings.IncreasingListsItsSet | utils/data_formatter.py:49 | `len(set(xs))` equals the number of names in `sorted(set(xs))` |
| Strings.ParseNatToString | utils/data_formatter.py:75 | reading a rendered number back gives the number |
| Strings.NumberThenNonDigit | utils/data_formatter.py:75 | a rendered number followed by a non-digit can be split off again unambiguously |
| TableMappings.GetDisplayName | constants/table_mappings.py:19-25 | a registered table gets its fixed display name, any other its cleaned-up name |
| TableMappings.CleanTableNameShape | constants/table_mappings.py:25 | after dropping "_changes_log", the clean-up leaves no underscore, turns each underscore into a space, and keeps the length and every other non-letter |
| TableMappings.GetTableChoices | constants/table_mappings.py:27-29 | one (display name, table) pair per available table, in registry order |
| TableMappings.ChoicesUseHandWrittenNames | constants/table_mappings.py:4-17 | every available table has a hand-written display name, so no choice uses the clean-up |
| Tally.Distinct | database/queries.py:144-145 | the distinct values, each once, no more of them than values |
| Tally.ValueCountsSpec | database/queries.py:150-151 | value counts list each value once with its true count, most frequent first |
| Tally.TopCountsAreMostFrequent | database/queries.py:150 | a value left out of the first n counts occurs no more often than any listed value |
| Tally.ValueCountsSum | utils/data_formatter.py:58-64 | the counts add up to the number of values |
| Tally.DistinctFirstAppearance | utils/data_formatter.py:59-64 | the distinct values come in the order in which each first occurs, as a dict's keys do |
| Tally.SortByCountStable | utils/data_formatter.py:67 | the sort by descending count keeps tallies of equal count in their input order, as Python's stable `sorted` does |
| Tally.ValueCountsTieOrder | utils/data_formatter.py:57-67 | values of equal count are listed in the order in which they first occur |
| Queries.GroupChangesByTime | database/queries.py:44-85 | no groups for no records; one group per key, in key order |
| Queries.MembersCount | database/queries.py:63-78 | a group's member list holds each record with the group's key exactly as often as the input does, and no other record |
| Queries.MembersAppend | database/queries.py:63-78 | selecting the members of a concatenation concatenates the selections, so members keep their input order |
| Queries.GroupContents | database/queries.py:63-78 | a group's count equals the length of its change list, which holds exactly the records of its key, in input order |
| Queries.GroupsOrderedAndDistinct | database/queries.py:63-83 | groups are non-increasing in update time and no two share a key |
| Queries.EqualTimesByUser | database/queries.py:63-83 | groups with equal times come in ascending user order (pandas visits keys sorted, and the later sort is stable) |
| Queries.GroupsCoverKeyedRecords | database/queries.py:61-80 | every record with non-null time and user is in some group, and every group's key comes from a record |
| Queries.GroupingIsPartition | database/queries.py:61-80 | the group counts sum to the number of records whose time and user are not null |
| Queries.GroupMembersCarryTheKey | database/queries.py:63-78 | every change in a group comes from a record with exactly the group's time and user |
| Queries.SessionBlocks | database/queries.py:103-104 | the session blocks are numbered 1..n in list order |
| Queries.SessionBlockOpens | database/queries.py:104 | block n starts with "Session n:" |
| Queries.FormatChangesForAi | database/queries.py:97-116 | no groups give exactly "No changes found for this campaign."; otherwise a header stating the number of sessions, then the blocks in order |
| Queries.SessionCountReadsBack | database/queries.py:97-101 | the session count read back from the header is the number of groups, and a narrative of groups is never the no-changes text |
| Queries.DateRangeOf | database/queries.py:146-149 | the earliest and latest present time bound every present time and are attained; "not a time" exactly when every time is null |
| Queries.GetCampaignSummaryStats | database/queries.py:128-152 | no records give zero totals and no date range; otherwise the total is the number of records, the unique counts do not exceed it, and at most 5 most-changed fields are listed |
| Queries.SummaryStatsCounts | database/queries.py:142-151 | the unique counts count distinct non-null values; the top fields carry true counts in non-increasing order; user activity adds up to the non-null users |
| DataFormatter.TruncateText | utils/data_formatter.py:113-126 | short text is unchanged; for a limit of at least 3, longer text becomes exactly the limit long, ends in "..." and keeps the first limit-3 characters |
| DataFormatter.TruncateIdempotent | utils/data_formatter.py:113-126 | for a limit of at least 3, truncating twice equals truncating once |
| DataFormatter.TruncateShortLimitOverflows | utils/data_formatter.py:124-126 | below a limit of 3, a truncated text is longer than the limit |
| DataFormatter.TruncateShortLimitNotIdempotent | utils/data_formatter.py:124-126 | with limit 1, "ab" becomes "...", and truncating that again gives "...." |
| DataFormatter.ValueCell | utils/data_formatter.py:16-17 | a value cell is the first 100 characters, plus "..." exactly when the value is longer, never over 103 characters |
| DataFormatter.ValueCellAgainstTruncate | utils/data_formatter.py:16-17 | the cell equals `truncate_text(v, 103)` except for values of 101 to 103 characters. It always differs for 101 or 102 characters, and for 103 characters unless the value already ends in "..." |
| DataFormatter.TableRowOf | utils/data_formatter.py:12-20 | defaults: "Unknown" for a missing table, "N/A" for a missing user, "" for a missing value, "None" for a None value |
| DataFormatter.FormatChangesTable | utils/data_formatter.py:4-22 | no grid for no changes, else one row per change in order |
| DataFormatter.TruthyValues | utils/data_formatter.py:35-41 | the collected values are exactly the truthy values of the key |
| DataFormatter.TruthyValuesCount | utils/data_formatter.py:35-41 | each non-empty value is collected exactly as often as the key holds it, and the empty text never is |
| DataFormatter.TruthyValuesAppend | utils/data_formatter.py:35-41 | collecting from a concatenation concatenates the collected values, so they keep the order of the changes |
| DataFormatter.FormatGroupedChangesTable | utils/data_formatter.py:24-52 | no grid for no groups; a KeyError exactly when some group lacks 'update_time', 'change_count' or 'changes'; else one row per group in order |
| DataFormatter.TimeGroupsLackChangeCount | utils/data_formatter.py:46 | the groups the time grouping builds store 'changes_count', so handing any of them to the grouped grid raises a KeyError |
| DataFormatter.NamesCellSpec | utils/data_formatter.py:31-48 | Tables and Users are sorted, duplicate-free, comma-joined lists of the truthy values, "N/A" when there are none |
| DataFormatter.GroupedRowColumns | utils/data_formatter.py:43-50 | Fields Changed lists the first 5 names in input order, with "..." iff more exist; the summary counts the listed tables |
| DataFormatter.TableNames | utils/data_formatter.py:60-61 | the table name of each change, "Unknown" when missing; fails exactly when some table is None |
| DataFormatter.TableCountsSpec | utils/data_formatter.py:58-67 | per-table counts are distinct, true, non-increasing, sum to the number of changes, and are empty only when there are no changes |
| DataFormatter.TableCountsTieOrder | utils/data_formatter.py:57-67 | tables with equally many changes are listed in the order in which each first occurs among the changes |
| DataFormatter.SourcesSection | utils/data_formatter.py:86-93 | the fallback line for no counts; otherwise one line per table, failing on a zero total |
| DataFormatter.TopFieldLines | utils/data_formatter.py:104-106 | at most 10 top-field lines, one per listed field, in order |
| DataFormatter.FormatSummaryStats | utils/data_formatter.py:54-111 | fails exactly for a None table name or a zero total with changes present |
| DataFormatter.SummaryStatsSections | utils/data_formatter.py:69-111 | the text is heading, data sources, users, top fields; without a changes list or top fields it shows the fallback lines |
| DataFormatter.SummaryOfQueryStatsShowsFallbacks | services/campaign_service.py:104-105 | the statistics the summary query returns always render both fallback lines |
| DataFormatter.SummaryStatsShowsSelection | utils/data_formatter.py:75 | the statistics text prints the selected-tables line as written, with the selection size in both places |
| DataFormatter.SelectedLineReadsBack | utils/data_formatter.py:75 | the two numbers of the selected-tables line can be read back from it |
| DataFormatter.SelectedTablesLineAsWrittenClaimsAll | utils/data_formatter.py:75 | as written, the line's two numbers are always equal |
| DataFormatter.SelectedTablesLineStatesBoth | utils/data_formatter.py:75 | the corrected line states the selection size and the registry size, 4 |
| DataFormatter.FormatConnectionStatus | utils/data_formatter.py:128-141 | a success line starts with "✅ Connected to ", a failure line with "❌ Connection failed: " |
| DataFormatter.ConnectionStatusReadsBack | utils/data_formatter.py:138-141 | the line starts with the success prefix iff the connection succeeded; after the prefix, a success gives host:port/database and a failure gives the message, or "Unknown error" when the message key is missing |
| Validation.PyIntOfRendered | services/validation_service.py:48 | `int()` reads back any integer that `str()` renders (at most 4300 digits), also with surrounding whitespace |
| Validation.PyIntDigitLimit | services/validation_service.py:48 | `int()` refuses a plain run of more than 4300 digits |
| Validation.ValidateDateRange | services/validation_service.py:84-101 | accepts only when both dates parse |
| Validation.DateRangeOrder | services/validation_service.py:96-101 | equal dates are accepted; of two parsed dates, it accepts exactly when from <= to, and of two different days exactly one order |
| Validation.ValidateOpenaiApiKey | services/validation_service.py:103-114 | true iff the key starts with "sk-" and has more than 20 characters |
| Validation.ValidateRecordsLimit | services/validation_service.py:116-129 | true iff the limit is one of 1..1000 |
| Validation.ValidateCampaignInputs | services/validation_service.py:14-65 | success gives an empty message and an id >= 1 equal to `int(campaign_id)`; failure gives id 0 and a message; success iff every check holds |
| Validation.FirstFailureSpec | services/validation_service.py:30-63 | the first failure is absent iff every check passes, and otherwise is the message of a failing check preceded only by passing ones |
| Validation.FirstFailureAt | services/validation_service.py:30-63 | when check k is the first to fail, the first failure is check k's message |
| Validation.ValidationIsFirstFailure | services/validation_service.py:30-63 | validation fails with exactly the message of the first failing check, in the fixed order, and passes when none fails |
| Validation.LowIdLikeNonNumeric | services/validation_service.py:47-52 | an id that parses below 1 gets the same verdict as a non-numeric id |
| Validation.ApiKeyOnlyNeedsText | services/validation_service.py:43-44 | any two non-empty API keys get the same verdict, even a key the key check rejects |
| CampaignService.ResolveFieldName | services/campaign_service.py:163 | field_name if truthy, else field if truthy, else "unknown_field" |
| CampaignService.SessionTimestamp | services/campaign_service.py:158 | the timestamp is date, a space, time, then ":00" |
| CampaignService.EntryOf | services/campaign_service.py:167-179 | the user is the performer if truthy, else the session user; a missing value becomes "", a None value "None" |
| CampaignService.KeptChanges | services/campaign_service.py:155-165 | the kept changes are exactly those whose field is not performer, update_user or update_time |
| CampaignService.KeptChangesCount | services/campaign_service.py:162-165 | each kept change survives exactly as often as it occurs, and no other change does |
| CampaignService.KeptChangesAppend | services/campaign_service.py:162-165 | filtering a concatenation concatenates the filtered parts, so kept changes keep their input order |
| CampaignService.EntriesFollowKeptChanges | services/campaign_service.py:162-179 | one entry per kept change, in order; no entry for a skipped field; all carry the session timestamp |
| CampaignService.BuildChangeSessions | services/campaign_service.py:152-184 | no more sessions out than in |
| CampaignService.BuildChangeSessionsAppend | services/campaign_service.py:157-182 | converting a concatenation concatenates the results, so surviving sessions keep input order |
| CampaignService.OneSession | services/campaign_service.py:157-182 | a session is dropped iff none of its changes is kept; otherwise it keeps its timestamp and user, and its entries are those of its kept changes |
| CampaignService.SessionsAreNonEmpty | services/campaign_service.py:164-182 | every output session has entries, all with the session timestamp and none for a skipped field |
| Response.Make | models/base.py:8-18 | falsy summary, history and insights are replaced by their defaults; the raw response is kept |
| Response.MakeIsStable | models/base.py:15-18 | constructing again from a response's own fields changes nothing |
| Response.HistorySection | models/base.py:42-44 | the history section is absent exactly for an empty or placeholder history |
| Response.InsightsSection | models/base.py:46-50 | the insights section is present exactly when there are insights |
| Response.Bullets | models/base.py:48-49 | one "• insight" line per insight, in order |
| Response.ToFormattedText | models/base.py:38-52 | the text always starts with the summary block, followed by the two optional sections |
| Response.DefaultText | models/base.py:15-17 | a response built without arguments formats to the summary heading, "No summary available" and a blank line, nothing more |
| Response.NoHistoryWithoutOne | models/base.py:16 | a response built without a history shows no history section |
| Response.ToDict | models/base.py:29-36 | exactly the four keys, mirroring the fields |
| Response.DictRoundTrip | models/base.py:29-36 | reading the dictionary back gives the response |

## Left out

- Database access (`database/connection.py`) and the SQL query `get_campaign_changes`. These are I/O.
- The streaming orchestration `analyze_campaign_stream`: async steps, progress callbacks, JSON decoding.
  - Some helpers it calls are not part of this model: `group_changes_by_user_and_date`, `calculate_net_changes`, `format_net_changes_for_ai`, `format_grouped_changes_for_display` and `format_partial_response`.
  - `get_performer_or_user` is a parameter of the session conversion.
- `ChangeEntry` and `ChangeSession` are imported from a module that does not define them. Their fields are taken from the constructor calls in `_build_change_sessions`.
- The OpenAI client, the Gradio UI, configuration loading, packaging and prompt text.
- `to_json`, which is only JSON serialisation of `to_dict`.
- Floating point:
  - the per-table percentage is a parameter that renders `count / total * 100` with one decimal;
  - the average per day arrives already rendered.
- pandas timestamp conversion (`to_datetime`, `isoformat`). Times are integers, and a date range is the pair of extreme times or "not a time".
- Queries.GetCampaignSummaryStats: promises non-increasing counts but not pandas' tie order among equal counts, which pandas does not document. The model lists ties in order of first appearance.
- Queries.ChangeRecord, DataFormatter.Row and CampaignService.RawChange: all values are strings or None. A value of another type (numbers, timestamps) and its `str()` rendering are not modelled. This affects the `str(...)` of `ValueCell` (`utils/data_formatter.py:16-17`) and of `EntryOf` (`services/campaign_service.py:176-177`).
- DataFormatter.FormatGroupedChangesTable: a 'change_count' value that is not an integer, and a 'changes' value that is None, are not modelled.
- Strings.Title: handles ASCII letters only. Python's Unicode casing rules are not modelled.
- Validation.PyInt: accepts ASCII digits and ASCII whitespace only. Python's `int()` also accepts other Unicode digits and spaces.
- Validation.PyInt: the 4300-digit cap is Python's default. `sys.set_int_max_str_digits` can change it, and older Python releases have no cap.
- Validation.ValidateDateRange: `strptime` is the `parse` parameter. Its format rules are not modelled.
- Validation.ValidateCampaignInputs: only strings and lists are modelled, whose falsy values are "" and []. A None argument is treated like an empty one.
- DataFormatter.FormatSummaryStats: a key present with the value None is not modelled. Python would print "None" or fail in `{:,}`, and the model treats such a key as missing.
- DataFormatter.FormatConnectionStatus: `success` is a boolean, and a missing success key is false. The host, port and database keys are assumed present on success.
- CampaignService.BuildChangeSessions: a `changes` key holding None is not modelled. It would fail to iterate.

## Findings

| source | as written | input that shows it | evidently intended | confidence | as-written member | corrected member |
|---|---|---|---|---|---|---|
| utils/data_formatter.py:75 | the selected-tables line prints `len(selected_tables)` as both the number selected and the number available | selecting one of the four tables prints "1 out of 1 available" | the second number is the number of available tables, giving "1 out of 4 available" | medium, not executed | DataFormatter.SelectedTablesLineAsWrittenClaimsAll | DataFormatter.SelectedTablesLineStatesBoth |

`DataFormatter.FormatSummaryStats` renders the line as written (`DataFormatter.SelectedTablesLineAsWritten`). The corrected line is `DataFormatter.SelectedTablesLine`.
