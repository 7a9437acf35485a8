# potdbot core, modelled in Dafny

potdbot is a Discord bot for a "problem of the day" (POTD) club. A shared
spreadsheet holds one row per problem. The newest problem is in row 0, and
column 0 holds the problem number. Members of the club can:

- search the sheet for a problem by difficulty and genre. The genres are
  Algebra, Combinatorics, Geometry and Number theory, written `A`, `C`, `G`
  and `N`;
- ask for hints;
- build mock olympiad papers from a named template or from their own
  bracketed rules;
- mark problems as solved, read or to-do;
- rate the difficulty of problems from 0 to 14.

This project models the logic behind those commands:

| file | module | models |
|---|---|---|
| `PyStr.dfy` | `PyStr` | the Python string built-ins the bot relies on: `int()`, `str()`, `split`, `join`, `strip`, `upper`/`lower`, `isnumeric` |
| `Sheet.dfy` | `Sheet` | `get_potd_row`, `check_for_image_link` and `curator_id` from `utils/potd_utils.py` |
| `Selector.dfy` | `Selector` | `pick_potd` and `match_genre` from `utils/potd_utils.py` |
| `MockRules.dfy` | `MockRules` | `parse_mock_rules` and `stringify_mock_rules` from `cogs/mock.py` |
| `Mock.dfy` | `Mock` | the mock templates, `is_genre_legit`, the genre-drawing loop, paper assembly and the day split, `get_potd_statement`, and the `potd_mock_custom` guards from `cogs/mock.py` |
| `Search.dfy` | `Search` | `parse_genre_input`, the bound clamping of `potd_search`, the keyword filter, autocomplete and `potd_hint` from `cogs/main.py` |
| `Marking.dfy` | `Marking` | the status tables and their updates, the unrated lists, grouping by difficulty and by subject, the key sort, and `send_potd_solved` from `cogs/marking.py` |
| `Ratings.dfy` | `Ratings` | the rating format, `potd_rate`, `potd_mass_rate` and `potd_rating_remove` from `cogs/ratings.py` |

Modelling conventions:

- **Exceptions.** A Python exception that propagates becomes the `Raises`
  variant of `PyStr.Result`, with the exception class (`ValueError`,
  `IndexError`, `TypeError`) as its payload.
- **The sheet.** The sheet is a `seq<seq<string>>` parameter. Its column
  numbers from the configuration are a `Columns` record.
- **Database tables.** The database tables that commands update in place are
  `map` fields of a class:
  - `Marking.StatusTable.entries` is keyed by (user, problem). Its value is
    the status.
  - `Ratings.RatingsTable.ratings` is keyed by (problem, user). This is the
    table's primary key.
- **Randomness.** Each call to `random.choice` is a nondeterministic choice
  (`:|`), so every choice the source can make is covered. The
  rejection-sampling loops in `potd_mock` and `potd_mock_custom` take the
  sequence of random draws as a parameter.
- **Dates.** Date parsing and "today" are a `Calendar` parameter.

Where the code departs from its evident intent, or leaves a case to the
database, the model follows the code:

- **The variety check in `is_genre_legit`.** The comment at
  cogs/mock.py:256 asks the paper to cover as many of the allowed genres as
  possible, and cogs/mock.py:257-259 compute that number. But line 261
  compares it with `len(genres)`, the length of the whole draw, which line
  253 has already made equal to the number of problems. So the check never
  rejects a draw. `Mock.LegitIffFits` and `Mock.NoVarietyOutsideImo` state
  what the code does.
- **Duplicate problems in `potd_mass_rate`.** If the same problem appears
  twice among the new ratings, the second insert breaks the `ratings` primary
  key (`potd_id`, `user_id`). The model stops at that entry and returns
  `DuplicateKey`. Inserts made before it are kept.
- **The "already rated" reply of `potd_rate`.** It shows the rating just
  given, not the one that is stored (`Ratings.RatingsTable.Rate`).

## Model

| member | source | states |
|---|---|---|
| Sheet.CurrentPotd | utils/potd_utils.py:244-250 | the current problem number is readable exactly when cell (0,0) exists and parses as an integer, and it is that integer |
| Sheet.GetPotdRow | utils/potd_utils.py:244-261 | the lookup fails exactly when the current number cannot be read; a found row is the one `current - number` rows below the top, inside the sheet |
| Sheet.GetPotdRowFindsNumber | utils/potd_utils.py:244-261 | on a sheet numbered consecutively downwards, the found row carries the requested number, and nothing is found exactly when no row carries it |
| Sheet.RowOfNumber | utils/potd_utils.py:244-261 | on such a sheet, the row carrying number n is the one returned for n |
| Sheet.CheckForImageLink | utils/potd_utils.py:263-269 | rows shorter than 19 cells never have a link; a long row without the link column raises; a link is the non-empty cell of that column |
| Sheet.FindCurator | utils/potd_utils.py:75-83 | the result is the first column of the first curator row that mentions the value, or nothing when no row does |
| Sheet.CuratorId | utils/potd_utils.py:75-83 | an empty name has no curator; otherwise the curator is found exactly when some curator row matches, and it is the first match |
| Selector.MatchElementIsSubset | utils/potd_utils.py:342-348 | a genre element matches a row exactly when its letters are distinct and all appear in the row's genre |
| Selector.ScreenKeepsQualified | utils/potd_utils.py:353-391 | the per-row screen keeps a row exactly when it has the search's difficulty, genre, and a release date before today |
| Selector.FilterRows | utils/potd_utils.py:353-391 | the filter raises exactly when some row's screen raises, and otherwise keeps exactly the rows the screen keeps |
| Selector.RowIds | utils/potd_utils.py:394-397 | the id list raises exactly when some row lacks a readable id, and otherwise lists each row's id in order |
| Selector.CandidatesQualify | utils/potd_utils.py:353-397 | every candidate id belongs to a qualifying row, and every qualifying row contributes its id |
| Selector.BoundInclusive | utils/potd_utils.py:353-370 | a numeric difficulty passes exactly when it is within the inclusive bounds; with no upper bound a non-numeric difficulty passes, with a numeric upper bound it never does |
| Selector.ExcludedIds | utils/potd_utils.py:336-340 | solved and read problems are excluded exactly when unsolved problems are requested |
| Selector.WinningTier | utils/potd_utils.py:398-414 | the pick's pool is the non-excluded, not-yet-picked candidates if there are any; failing that, the candidates not yet picked; failing that, all candidates; it is empty only when there are no candidates |
| Selector.TierAvoidsPicked | utils/potd_utils.py:398-414 | while some candidate has not been picked yet, the pool holds no picked problem |
| Selector.PickPotd | utils/potd_utils.py:327-416 | errors from the filter propagate; no problem is returned exactly when there are no candidates; the chosen problem is in the pool and is not a repeat while an unpicked candidate remains |
| Selector.TwoRowScenario | utils/potd_utils.py:327-397 | a worked example: of problems 10 (G, difficulty 7) and 9 (A), a search for difficulty 7 in G yields [10], and a search in N yields nothing |
| MockRules.Brackets | cogs/mock.py:313 | each match of the non-greedy `\[.*?\]` starts with `[` and ends with `]` |
| MockRules.BracketsCons | cogs/mock.py:313 | a bracket whose inside has no `]` and no newline is matched whole, and the search resumes after it |
| MockRules.AddGenresSpec | cogs/mock.py:333-336 | the collected genres are exactly the old ones plus the subject letters of the input, upper-cased, with no repeats |
| MockRules.GenreLetters | cogs/mock.py:333-336 | the genre field keeps only distinct subject letters |
| MockRules.AddGenresKeeps | cogs/mock.py:333-336 | a field that already holds distinct subject letters is kept as it is |
| MockRules.ParseFields | cogs/mock.py:316-342 | a rule parses exactly when it has 2 or 3 fields, both bounds are integers, and the raw lower bound is at most the raw upper one (checked before clamping); the parsed bounds are then max(lower, 0) and min(upper, 14), with genres made of subject letters |
| MockRules.ParseRules | cogs/mock.py:315-345 | the rules parse exactly when every bracket parses, and then the i-th rule comes from the i-th bracket |
| MockRules.ParseMockRules | cogs/mock.py:309-347 | the loop computes the parse of the text: commas read as spaces, every bracket parsed, and `None` (the source's `False`) when any bracket is rejected |
| MockRules.StringifyMockRules | cogs/mock.py:349-357 | the text is the rules' bracket strings joined by spaces; genres `ACGN` or empty are omitted |
| MockRules.RoundTrip | cogs/mock.py:309-357 | parsing the stringified rules gives them back, each clamped to 0..14 with any empty genre set read as `ACGN` |
| MockRules.ParseRuleString | cogs/mock.py:315-345 | one stringified rule parses back to itself, normalised |
| MockRules.ClampCanInvert | cogs/mock.py:327-332 | the bounds are checked before they are clamped, so `[20 30]` gives a rule whose lower bound exceeds its upper |
| MockRules.CommaSpaceRejected | cogs/mock.py:312-318 | `[5, 7]` is rejected, because the comma becomes a second space and so an empty field |
| Mock.TemplateBounds | cogs/mock.py:54-112 | a template is known exactly when it is in the list of templates or is `AFMO`, and it has 4 to 8 problems |
| Mock.TemplateRangesOrdered | cogs/mock.py:73-112 | every template's bounds have lower ≤ upper, and only `AFMO` leaves the upper bound unset |
| Mock.GenreRule | cogs/mock.py:116-121 | one genre slot per problem, except for SMO2 and IGO, which have five; SMO2 has geometry first and not after; IGO is all geometry; every slot is a non-empty set of subject letters |
| Mock.LegitIffFits | cogs/mock.py:252-290 | outside IMO a draw is accepted exactly when each problem's genre is allowed in its slot; the variety check cannot fail |
| Mock.ImoLegit | cogs/mock.py:252-290 | an IMO draw is accepted exactly when it fits the slots and is balanced across the two days; an accepted draw has distinct genres for problems 1, 2, 4 and 5 |
| Mock.NoVarietyOutsideImo | cogs/mock.py:256-262 | a USAMO paper of six algebra problems passes the check |
| Mock.ImoSatisfiable | cogs/mock.py:269-288 | some IMO draw is accepted |
| Mock.DrawGenres | cogs/mock.py:124-126 | the loop returns the first accepted draw, after rejecting all earlier ones; only an exception from the check stops it early; it runs out of draws exactly when every draw is rejected |
| Mock.OnlyImoRaises | cogs/mock.py:252-290 | the check can raise only for IMO |
| Mock.AcceptedFits | cogs/mock.py:252-290 | an accepted draw fits the slot rules |
| Mock.GetPotdStatement | cogs/mock.py:292-307 | an unreadable current number propagates its exception; a number above the current one gives no statement; a row index past the bottom of the sheet raises IndexError; otherwise a statement is returned exactly when the row has a statement cell, and it is that cell |
| Mock.StatementOfNumberedRow | cogs/mock.py:292-307 | on a consecutively numbered sheet, a found statement belongs to the row carrying that number |
| Mock.PaperExtends | cogs/mock.py:134-149 | a paper built so far grows by one slot whose problem was picked with that slot's bounds and genre, avoiding earlier picks |
| Mock.FilledSlotFacts | cogs/mock.py:134-149 | every problem on a paper is a candidate for its slot, and it repeats no earlier problem unless its slot had no other choice |
| Mock.RepeatOnlyWhenForced | utils/potd_utils.py:398-414 | a problem picked from the pool is a candidate, and it is new whenever a new candidate existed |
| Mock.AssemblePaper | cogs/mock.py:134-149 | a finished paper has one problem per slot, each picked for its slot; on an exception, the slots filled before the failing slot are valid |
| Mock.DayLengths | cogs/mock.py:151-167 | the templates split into two days are exactly IMO, AMO, USAMO, USAJMO and CHINA, and each of their days holds half of the problems |
| Mock.PickHalves | cogs/mock.py:151-167 | the two days together hold the whole paper, in order |
| Mock.SplitDays | cogs/mock.py:151-167 | the papers hold exactly the problems in order; the five two-day templates give "(Day 1)" and "(Day 2)" papers of equal length; all others give one paper |
| Mock.MockTemplate | cogs/mock.py:52-167 | an unknown template is reported exactly when the upper-cased name is not a template; the draws run out exactly when every draw is rejected; the papers are the day split of a paper built on the first accepted draw, with one valid pick per slot, avoiding solved and read problems when asked to; an exception comes from the genre check or from a slot that cannot be filled after valid earlier slots |
| Mock.CustomGenreRule | cogs/mock.py:191-196 | one non-empty genre slot per rule: the rule's own genres when those are given, and all four subjects `ACGN` when they are empty |
| Mock.MockCustom | cogs/mock.py:176-242 | unparseable or empty rules are refused, and more than 15 rules are too many; the draws run out exactly when every draw is rejected; otherwise the reply echoes the stringified rules. A created paper has one valid pick per rule, on the first accepted draw, avoiding solved and read problems. "Unable" is reported only when, on that draw, some slot cannot be filled after valid earlier slots |
| Search.ParseGenreInput | cogs/main.py:143-172 | the loop builds the genre filter: one element per subject letter outside quotes, one element per quoted group |
| Search.FilterElementsAreSubjects | cogs/main.py:143-172 | every element of the filter is made of distinct subject letters |
| Search.UnquotedMeansAny | cogs/main.py:143-159 | with no quotes, a row matches exactly when its genre contains one of the subject letters typed |
| Search.QuotedMeansAll | cogs/main.py:161-170 | a quoted group matches exactly when the row's genre contains every subject letter in the group |
| Search.EmptyGroupMatchesAll | cogs/main.py:161-170 | a quoted group with no subject letter adds the empty element, which every row matches |
| Search.ClampBounds | cogs/main.py:76-79 | the clamped bounds satisfy 0 ≤ lower ≤ upper; a lower bound is only raised, to 0; bounds already within 0..99 are kept; the upper bound is 99 when the request reaches 99, max(upper, 0) when it ends below 99, and the new lower bound when the capped upper falls below it |
| Search.ClampKeepsRequested | cogs/main.py:76-79 | every difficulty in 0..99 that was requested lies in the clamped range, and, for a request that reaches 0, every difficulty in the clamped range was requested |
| Search.PotdSearch | cogs/main.py:60-95 | reversed bounds are refused exactly when lower > upper; otherwise errors from the filter propagate, the search never raises when the filter succeeds, "none found" is reported exactly when there are no candidates, and a fetched problem comes from the pool with no picks |
| Search.KeywordFilter | cogs/main.py:97-108 | keeps exactly the rows with a statement that contains every keyword, ignoring case |
| Search.KeywordFilterAppend | cogs/main.py:97-108 | the filter keeps the sheet's order |
| Search.NoKeywordsKeepsStatements | cogs/main.py:97-108 | with no keywords, every row that has a statement is kept |
| Search.KeywordCaseIgnored | cogs/main.py:97-108 | upper-casing the keywords does not change which rows are kept |
| Search.Truncate | cogs/main.py:119-122 | a cut statement is a prefix of at most n characters, and a short statement is kept whole |
| Search.Autocomplete | cogs/main.py:110-122 | at most 25 choices of at most 100 characters each; the k-th is the start of the k-th matching statement, and there are min(25, matches) of them |
| Search.PotdHint | cogs/main.py:176-238 | the row lookup's errors and misses come first; a hint number outside 1..3 is refused; an empty hint cell is reported missing; a found hint says whether the next hint exists |
| Search.HintFound | cogs/main.py:176-238 | on a consecutively numbered sheet, a hint is shown exactly when 1 ≤ hint ≤ 3 and the problem's row has that hint |
| Marking.ParseAll | cogs/marking.py:25-29 | the list parses exactly when every piece is an integer, and then it holds those integers in order |
| Marking.ParsedNumbersNonEmpty | cogs/marking.py:25-29 | a parsed list is never empty |
| Marking.PrintedNumbersParse | cogs/marking.py:25-29 | a comma-separated list of printed integers parses back to the same list |
| Marking.MarkedSpec | cogs/marking.py:40-94 | after marking, the table holds the old entries plus one per (user, number), and the marked entries have the new status |
| Marking.AlreadyMeans | cogs/marking.py:40-94 | a number is reported as already there exactly when it had the status or occurred earlier in the input |
| Marking.AddedAlreadyPartition | cogs/marking.py:40-94 | every number of the input is reported as either added or already there |
| Marking.NoPotdOf | cogs/marking.py:73-79 | the "no such problem" list is exactly the added numbers with no row |
| Marking.DiscussedOf | cogs/marking.py:80-94 | the "has discussion" list is exactly the added numbers whose row has a discussion link |
| Marking.UnmarkAfterMark | cogs/marking.py:160-188 | removing the numbers just marked deletes their entries and leaves every other entry unchanged |
| Marking.Notes | cogs/marking.py:96-143 | a discussion note appears exactly when some added problem has one and the status is not "todo"; a single added problem gets the "rate it" note exactly when the status is not "todo" |
| Marking.StatusTable.StatusUpdate | cogs/marking.py:23-143 | non-integer input and more than 200 numbers leave the table unchanged; otherwise the command either raises or updates, and an update leaves the old table with every number marked and lists the added, already present, missing and discussed problems; it raises exactly when the sheet's current number is unreadable and some number is added, and then the table holds the marks up to and including the first added number |
| Marking.StatusTable.MarkAll | cogs/marking.py:40-94 | the loop marks every number and reports it as added or already there; it raises exactly when the sheet's current number is unreadable and some number is added, so the sheet is read only for added numbers, and the raise happens at the first added number |
| Marking.StatusTable.StatusRemove | cogs/marking.py:160-188 | non-integer input and more than 200 numbers leave the table unchanged; otherwise the reply is "removed" for the parsed numbers, and each number's entry is deleted when it has the status |
| Marking.LookUpAdded | cogs/marking.py:73-94 | looking up an added number raises exactly when the sheet's current number is unreadable, and otherwise reports whether the row is missing and whether it has a discussion |
| Marking.UpdateStep | cogs/marking.py:40-94 | one loop step sets the status and files the number as added or already there |
| Marking.PotdUnrated | cogs/marking.py:258-266 | raises IndexError exactly when every solved or read problem is rated, and otherwise returns a solved or read problem that is not rated |
| Marking.UnratedLists | cogs/marking.py:281-282 | the two lists are exactly the solved, and the read, problems that are not rated |
| Marking.DifficultyOf | cogs/marking.py:311-319 | a number outside 1..current goes under "(Unknown)"; the lookup raises, with TypeError, exactly for a number in 1..current whose row lies past the sheet; otherwise the row's difficulty cell is returned when the row has one, and "(Unknown)" when the row is too short for it |
| Marking.DifficultyOfRowLookup | cogs/marking.py:311-319 | for a number between 1 and the current one, the difficulty is that row's cell, or "(Unknown)" when the row is too short; it raises exactly when the row is missing |
| Marking.Members | cogs/marking.py:321 | a group holds exactly the listed problems with that difficulty |
| Marking.KeyAtLeastTotal | cogs/marking.py:323-327 | any two difficulty keys are ordered by the sort key |
| Marking.KeyAtLeastTrans | cogs/marking.py:323-327 | the sort key order is transitive |
| Marking.Insert | cogs/marking.py:323-327 | inserting adds exactly one key |
| Marking.InsertDescending | cogs/marking.py:323-327 | inserting into a descending list keeps it descending |
| Marking.SortKeys | cogs/marking.py:323-327 | the sorted keys are a permutation of the keys, ordered numeric keys first by decreasing value, then other keys in decreasing string order |
| Marking.GroupByDifficulty | cogs/marking.py:309-327 | raises TypeError exactly when some problem's difficulty raises; otherwise the groups have distinct keys in sort order, each holds exactly the problems of its difficulty and is non-empty, and every problem's difficulty is a key |
| Marking.FileByDifficulty | cogs/marking.py:310-321 | the loop files every problem under its difficulty, and each difficulty appears once in the order first met |
| Marking.GroupsListed | cogs/marking.py:323-330 | after sorting, every key has a group, no key repeats, and every problem's difficulty is listed |
| Marking.GenreOf | cogs/marking.py:356-364 | a number outside 1..current has genre "(Unknown)"; the lookup raises, always IndexError, exactly when the row index falls past the bottom of the sheet; a row with a genre cell gives that cell, and a row too short for it gives "(Unknown)" |
| Marking.GenreOfRowLookup | cogs/marking.py:356-364 | with the current number read from the sheet, the lookup raises exactly where `get_potd_row` finds no row, and gives the genre cell of the row it finds, or "(Unknown)" when that row is too short |
| Marking.SubjectMembers | cogs/marking.py:366-368 | a subject's list holds exactly the problems whose genre contains its letter |
| Marking.GroupBySubject | cogs/marking.py:354-368 | raises IndexError exactly when some row is missing; otherwise there is one list for each of A, C, G and N, holding exactly that subject's problems |
| Marking.FileBySubject | cogs/marking.py:356-368 | one loop step appends the problem to the list of each subject in its genre |
| Marking.UnknownInNoSubject | cogs/marking.py:357-358 | a number outside 1..current is in no subject's list |
| Marking.BatchStep | cogs/marking.py:473-491 | a batch ends at a `,` or `]` after 1900 characters, at 2000 characters, or at the end of the text |
| Marking.Fill | cogs/marking.py:476-489 | the inner loop extends the batch by whole characters, to at least 1900 or to the end, never past 2000, and stops at the first cut |
| Marking.SendBatches | cogs/marking.py:473-491 | the batches concatenate to the text; there are none only for empty text; every batch but the last is full, and the last ends the text |
| Ratings.FormatRating | cogs/ratings.py:19-22 | a rating is shown as a spoiler code span `d||`…`||` |
| Ratings.FormatPadding | cogs/ratings.py:19-22 | ratings below 10 are padded with one trailing space, and others are not |
| Ratings.FormatRoundTrip | cogs/ratings.py:19-22 | the shown text reads back as the same rating |
| Ratings.FormatWidth | cogs/ratings.py:19-22 | every valid rating 0..14 is shown two characters wide |
| Ratings.RatingsTable.Rate | cogs/ratings.py:25-67 | a rating outside 0..14 is refused; a new rating is stored; an existing rating is kept unless overwrite is asked for; the valid-range invariant is preserved |
| Ratings.RatingsTable.RemoveRating | cogs/ratings.py:215-235 | removing reports "not rated" and changes nothing, or deletes exactly that entry and reports its rating; the range invariant is preserved |
| Ratings.RatingsTable.MassRate | cogs/ratings.py:89-155 | more than 200 lines are refused; otherwise the lines are parsed, entries already rated are set aside, and the new ones are inserted up to the first repeated problem, which is reported as a duplicate |
| Ratings.RatingsTable.ParseAndReport | cogs/ratings.py:98-113 | the parse loop collects the corrected parse of each line and each formatting error |
| Ratings.RatingsTable.ParseOne | cogs/ratings.py:99-113 | one line gives its entry, if any, and its formatting errors |
| Ratings.RatingsTable.InsertUnrated | cogs/ratings.py:132-136 | inserting stops at the first problem already inserted in this call and leaves the table holding the entries before it |
| Ratings.ParseLineAsWritten | cogs/ratings.py:98-113 | the source's line parse can raise only IndexError |
| Ratings.AsWrittenRaisesWhen | cogs/ratings.py:98-113 | the source's line parse raises exactly for a line with no tokens or a lone integer token |
| Ratings.ParseLineAgrees | cogs/ratings.py:98-113 | where the source's parse does not raise it agrees with the corrected parse, and where it raises the corrected parse skips the line |
| Ratings.LineRoundTrip | cogs/ratings.py:98-113 | a line "potd rating" parses back to the same entry and has exactly two tokens |
| Ratings.LoneIntegerRaises | cogs/ratings.py:98-113 | a line holding only an integer raises IndexError in the source and is skipped by the corrected parse |
| Ratings.BlankLineRaises | cogs/ratings.py:98-113 | every non-empty line made only of whitespace has no tokens, raises IndexError in the source, and is skipped by the corrected parse |
| Ratings.ParseLines | cogs/ratings.py:98-113 | at most one entry per line |
| Ratings.ParseLinesAgree | cogs/ratings.py:98-113 | the source's parse of all lines raises exactly when some non-empty line raises, and otherwise equals the corrected parse |
| Ratings.OneBadLineLosesAll | cogs/ratings.py:98-113 | a valid line followed by a lone integer makes the source raise, while the corrected parse keeps the valid entry |
| Ratings.LineReportsMeans | cogs/ratings.py:101-113 | a line is reported exactly when it is malformed |
| Ratings.ReportedMeans | cogs/ratings.py:98-113 | the reported lines are exactly the input's malformed lines |
| Ratings.LinesRoundTrip | cogs/ratings.py:98-113 | printed entries parse back to the same entries, with no errors reported |
| Ratings.InputRoundTrip | cogs/ratings.py:94-113 | a message of printed entries, one per line, splits into those lines and parses back to the same entries, with no errors reported |
| Ratings.UnratedOf | cogs/ratings.py:116-130 | the new entries are exactly those the user has not rated |
| Ratings.AlreadyRatedOf | cogs/ratings.py:116-130 | the set-aside entries are exactly those the user has rated |
| Ratings.PartitionCounts | cogs/ratings.py:125-130 | the new and set-aside entries together are exactly the parsed entries |
| Ratings.InsertAll | cogs/ratings.py:132-136 | inserting keeps every old key and adds a key for every entry |
| Ratings.DistinctPrefix | cogs/ratings.py:132-136 | the entries inserted before the first duplicate have distinct problems, and the stopping entry repeats an earlier one |
| Ratings.InsertAllKeys | cogs/ratings.py:132-136 | after inserting, the keys are exactly the old keys plus the user's entries |
| Ratings.InsertAllValues | cogs/ratings.py:132-136 | when the problems are distinct, each inserted entry's rating is stored and every other entry is unchanged |
| Ratings.MassRateStoresAnyRating | cogs/ratings.py:89-136 | mass rating stores a rating outside 0..14, so it breaks the range invariant that single rating keeps |

## Left out

- Discord I/O is not modelled: message texts, embeds, deleting the invoking message, `edit_source`, cooldowns and permission checks. Replies are modelled as datatypes that carry only the data the texts are built from.
- Fetching the sheet and the database is not modelled; both are parameters or fields. SQL transactions and commit behaviour are not modelled either. Each write takes effect immediately, so inserts before a duplicate-key failure are kept.
- The calendar (`datetime.strptime`, today's date) is a `Calendar` parameter whose parser is not modelled.
- The random distribution is not modelled: a choice may be any member of the pool.
- Mock.DrawGenres: the source retries forever. The model stops with `Ok(None)` when the supplied draws run out, so a loop that never accepts becomes a finite list of rejections.
- The `sd` flag of `generate_potd_list_output_string` (cogs/marking.py:395-461), the totals and the output strings are not modelled. Only the grouping for the `d` and `s` flags is.
- `potd_rating`, its median and the other rating-statistics commands use floating point and are not modelled. The blacklist and the other cogs are not modelled.
- LaTeX rendering and `potd_fetch` message formatting are not modelled. `potd_keywords` is covered by the keyword filter and `Sheet.CheckForImageLink`; its final random choice is not modelled.
- Marking.SortKeys: keys with equal sort value, such as "7" and "07", are not proved to keep their first-met order, as Python's stable `sorted` does.
- Search.ParseGenreInput: Python builds a quoted group by joining a `set`, whose order is unspecified. The model keeps first-occurrence order. Matching depends only on the letters, so no result changes.
- Case conversion, whitespace and `int()` are ASCII-only. `int()` of a string with `_` digit separators or non-ASCII digits is not modelled.
- Mock.GetPotdStatement: like the source, it does not test the number against 1. A number at or below 0 gives a row index past the bottom of a sheet with one row per problem, and so raises `IndexError`. The model keeps this as written rather than treating it as "no such problem".
- Ratings.RatingsTable.MassRate: a line such as "a b c" produces two formatting-error reports, as in the source. The texts of those reports are not modelled.
- Ratings.RatingsTable.MassRate: it uses the corrected line parse (see Findings). The source's abort on an `IndexError` is modelled separately by `Ratings.ParseLinesAsWritten`.

## Findings

| source | as written | input that shows it | evidently intended | confidence | as-written member | corrected member |
|---|---|---|---|---|---|---|
| cogs/ratings.py:98-113 | each line is split into tokens and `int(data[0])`, `int(data[1])` are read inside a `try` that catches only `ValueError`; a line with one token or none raises `IndexError`, which aborts the whole command before any rating is stored | the message "1 5" + newline + "7", or any line of spaces | such a line is reported as a formatting error and skipped, like a line whose tokens are not integers | high (not executed) | Ratings.ParseLinesAsWritten, Ratings.OneBadLineLosesAll | Ratings.ParseLines, Ratings.ParseLinesAgree |
