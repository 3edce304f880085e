# A verified model of the NL-to-SQL agent

`agent.py` is a command-line agent. It answers questions about a PostgreSQL
database by asking a local language model for SQL.

For each question it does the following:
- checks the input;
- scores the question's complexity and picks one of three models;
- builds a prompt from the schema, the foreign keys, the question and the
  previous error;
- pulls one SQL statement out of the model's reply and patches two known
  mistakes;
- cleans the text once more and executes it;
- on a database error, tries again with that error in the prompt, at most
  three times in all.

Every query is committed on success and rolled back on failure.

The model is split into modules that follow the program's sections:

| module | models |
|---|---|
| `Text` | `str.strip`, `str.replace`, the `in` test, `str.lower`, `\s`, `\w`, IGNORECASE |
| `InputValidation` | `is_valid_input` |
| `Database` | `execute_query` against a `Session` class |
| `Formatting` | the schema text, the foreign-key text, the log-field escaping |
| `Complexity` | `detect_complexity` and the model routing |
| `Extraction` | `extract_sql` |
| `Sanitizer` | `sanitize_sql` |
| `Agent` | the prompt, `agent_generate_sql`, the second cleaning pass, the retry loop |

The session holds the server's behaviour as a function from (statement number,
SQL text) to a reply. Its methods update fields in place:
- `state`, the transaction state: `Idle`, `InTransaction` or
  `InFailedTransaction`;
- `executed`, the number of statements the server function has answered;
- `current`, the last reply;
- `history`, the calls made so far.

`Valid()` says that `state` is the replay of `history` through the transaction
state machine. As in psycopg2's default mode, the first statement opens a
transaction. Once a statement fails, PostgreSQL refuses every later one with
"current transaction is aborted" (SQLSTATE 25P02) until a commit or a rollback
ends the transaction. The model gives that refusal itself: it does not consult
its server function for such a statement, nor count it.

The language model is a parameter: a function from (generation number, model
name, prompt) to the standard output of a run that succeeded, or `None` when
the run failed. The retry loop, `Agent.RepairLoop`, is a method with the
loop's own variables and its own invariant. It is proved equal to the
recursive specification `Agent.Repair`. It also states the session it leaves
behind: the calls of the attempts, in order, given by `Agent.RunTrace`. The
retry loop's properties
(at most three attempts, each error passed on to the next attempt, when it
stops, when it gives up) are lemmas about `Agent.Repair`.

The program's regular expressions are fixed patterns. They are written as
explicit scanners, with their backtracking worked out:
- `` ```sql\s*(.*?)``` `` takes the first opener and the first closer after it.
  Its group starts after the whitespace that follows the opener.
- `^\s*sql\s*\n` matches the longest whitespace run that ends in a line feed.
  Because `\s*` is greedy and backtracks, the match ends at the last line feed
  in that run.
- `EXTRACT\(YEAR FROM (\w+)\)` needs the whole word run to be followed by `)`.
- `\byr\b` is case-sensitive.

Neither `sanitize_sql` nor `extract_sql` is idempotent:
- `Sanitizer.SanitizeNotIdempotent`: a nested `EXTRACT(YEAR FROM ...)` loses
  one level per pass.
- `Extraction.ExtractionNotIdempotent`: a doubled `sql ` prefix loses one copy
  per pass.

## Model

| member | source | states |
|---|---|---|
| InputValidation.IsValidInput | agent.py:13-14 | a question is accepted exactly when its stripped form has at least 3 characters and it contains an ASCII letter |
| InputValidation.HasAsciiLetter | agent.py:14 | the letter search succeeds exactly when some character is an ASCII letter |
| InputValidation.NoLetterRejected | agent.py:14 | a question without any ASCII letter is turned away, whatever its length |
| InputValidation.TooShortRejected | agent.py:14 | a two-letter question is turned away |
| InputValidation.ListCustomersAccepted | agent.py:13-14 | an ordinary question is accepted |
| Text.Strip | agent.py:14 | the result of `strip()` has no whitespace at either end and is no longer than its input |
| Text.StripCutsSpaceAtEnds | agent.py:14 | `strip()` returns a slice of its input with only whitespace cut away before and after it |
| Text.StripOfStripped | agent.py:110 | text without whitespace at either end is left unchanged by `strip()` |
| Text.StripKeepsChars | agent.py:104 | every character of the stripped text occurs in the input |
| Text.Lower | agent.py:133 | `lower()` keeps the length and lowers each character on its own |
| Text.Contains | agent.py:141 | the `in` test holds exactly when the pattern occurs at some position |
| Text.ReplaceAbsent | agent.py:101 | `replace` leaves text without the pattern unchanged |
| Text.DeleteCharRemovesIt | agent.py:106 | deleting every occurrence of a character leaves none of it |
| Text.DeleteKeepsChars | agent.py:106 | deleting a pattern adds no new character |
| Database.Step | agent.py:34-45 | a commit or rollback ends the transaction; an execute outside an aborted transaction leaves it open exactly when it succeeded; an aborted transaction stays aborted until it ends |
| Database.ReplayConcat | agent.py:34-45 | replaying two histories one after the other is replaying their concatenation |
| Database.Session.constructor | agent.py:20-28 | a new session has no transaction, no statements and an empty history |
| Database.Session.Execute | agent.py:36 | in an aborted transaction the statement fails with the aborted message without consulting the server function or counting the statement; otherwise the server's reply for that statement number is kept and its failure message returned |
| Database.Session.FetchAll | agent.py:38 | fetching changes only the history and returns what the last reply left |
| Database.Session.Commit | agent.py:41 | a commit ends the transaction, reporting the error of an open transaction's commit |
| Database.Session.Rollback | agent.py:44 | a rollback ends the transaction |
| Database.FetchOf | agent.py:37-40 | `fetchall` returns rows exactly after a statement with a result set, and raises a database error exactly when the result fails to arrive |
| Database.QueryOutcome | agent.py:34-45 | rows come back exactly when no error does; an aborted transaction gives the aborted message; a failed statement or fetch gives its message; otherwise the commit decides the error |
| Database.AfterCommit | agent.py:41-45 | after the fetch, the commit's error is the result's error, and rows come back exactly when the commit succeeded |
| Database.ExecuteQuery | agent.py:34-45 | executing a query returns the outcome of its reply, appends its trace to the history, ends the transaction and keeps no pending reply; the statement is counted unless the transaction was aborted |
| Database.QueryEndsIdle | agent.py:41-45 | every query's trace ends with no transaction open |
| Database.CommitIffSuccess | agent.py:41-45 | a query ends with a commit exactly when it returns no error, and with a rollback exactly when it returns one |
| Database.NoResultSetGivesEmptyRows | agent.py:39-40 | a statement without a result set, such as an UPDATE, yields an empty row list and no error |
| Database.AbortedSessionFailsFast | agent.py:43-45 | in an aborted transaction the query fails with the aborted message and is rolled back |
| Database.QueriesKeepSessionIdle | agent.py:34-45 | after any query the session's replayed state is idle again |
| Formatting.FormatSchema | agent.py:58-62 | the dictionary-building loop produces the schema text of the rows |
| Formatting.GroupingStep | agent.py:60-61 | one `setdefault(...).append` step keeps the dictionary equal to the grouping of the rows seen so far |
| Formatting.GroupedText | agent.py:62 | the text built from the grouped dictionary is the schema text of the rows |
| Formatting.TablesListEachTableOnce | agent.py:59-62 | each table is listed once, every row's table is listed, and only those |
| Formatting.TablesKeepFirstSeenOrder | agent.py:59-62 | tables appear in the order they are first seen; later rows only add tables at the end |
| Formatting.ColumnsOfAppend | agent.py:60-61 | a table's columns from two row lists are its columns from the first followed by those from the second |
| Formatting.ColumnListed | agent.py:60-61 | every row's column is listed under its table |
| Formatting.ColumnsOfAbsent | agent.py:60-61 | a table that no row names has no columns |
| Formatting.TwoColumnsOneTable | agent.py:62 | two rows of one table give one entry with both columns joined by a comma |
| Formatting.Join | agent.py:62 | joining no parts gives the empty text, and one part gives that part |
| Formatting.JoinSnoc | agent.py:62 | joining one more part adds the separator and that part at the end |
| Formatting.RelationshipsText | agent.py:89-91 | the relationship text starts with its header |
| Formatting.KeyLinesAppend | agent.py:89-91 | the lines for two key lists are the first list's lines followed by the second's |
| Formatting.KeyListed | agent.py:89-91 | every foreign key's line occurs in the relationship text |
| Formatting.NoKeysHeaderOnly | agent.py:89-91 | without foreign keys the text is the header alone |
| Formatting.CsvSafe | agent.py:123-124 | a missing or empty field becomes empty; otherwise the length is kept and each line feed becomes a space and each comma a semicolon |
| Formatting.CsvSafeSeparatorFree | agent.py:123-124 | an escaped field has no comma and no line feed |
| Formatting.CsvSafeOfPlain | agent.py:123-124 | a field without commas and line feeds is logged unchanged |
| Formatting.ReplaceCharMaps | agent.py:123 | replacing one character by another maps each position on its own |
| Formatting.RowsCount | agent.py:122 | no results count as zero rows; otherwise the number of rows |
| Complexity.Level | agent.py:147-151 | level 1 exactly for score 0, level 2 exactly for scores 1 to 3, level 3 exactly for 4 and more |
| Complexity.DetectComplexity | agent.py:132-151 | the scoring loops compute the level of the question's score |
| Complexity.Hits | agent.py:140-145 | a keyword list contributes at most one hit per keyword |
| Complexity.HitsCountsDistinct | agent.py:140-145 | for distinct keywords, the hit count is the number of keywords found |
| Complexity.ScoreIsDistinctCueCount | agent.py:139-145 | the score is the number of structural cues found plus twice the number of advanced cues found |
| Complexity.TwoAdvancedCuesAreHard | agent.py:143-151 | two different advanced cues make a question level 3 |
| Complexity.NoCueIsSimple | agent.py:139-148 | a question is level 1 exactly when no structural or advanced cue occurs in it |
| Complexity.Level1WordAddsNothing | agent.py:135 | appending a simple-question cue word never changes the score: those cues are declared and never consulted |
| Complexity.CueUnaffectedByLevel1Word | agent.py:135-137 | no scoring cue is found in or across an appended simple-question cue word |
| Complexity.ScoringCueNotInLevel1Word | agent.py:135-137 | no scoring cue occurs inside a spaced simple-question cue word |
| Complexity.ScoringCueNotAcrossSeam | agent.py:135-137 | no scoring cue starts before an appended simple-question cue word and ends inside it |
| Complexity.RoutingIsInjective | agent.py:161-166 | the three levels are routed to three different models |
| Agent.RouteFor | agent.py:158-166 | every question is routed to one of the three models |
| Agent.PromptCarriesQuestionAndError | agent.py:204-226 | the prompt contains the question and the previous error, which shows as `None` on the first attempt |
| Agent.GenerateSql | agent.py:201-231 | the reported model is the routed one; no SQL comes back exactly when the model run fails or prints only whitespace; returned SQL has no whole-word lower-case `yr` |
| Agent.FailedModelRunYieldsNoSql | agent.py:179-231 | a failed model run gives no SQL |
| Extraction.ExtractSql | agent.py:98-110 | no SQL exactly for a missing or empty reply; SQL that comes back has no whitespace at either end |
| Extraction.FenceVariantsAgree | agent.py:101 | a reply opening with "``` sql", "``` SQL" or "``` Sql" is extracted as if it opened with "```sql" |
| Extraction.FenceVariantsAgreeAfter | agent.py:101 | the same holds when text without backticks comes before the spelling |
| Extraction.NormalizeAfterPlainText | agent.py:101 | the three rewrites leave a front without backticks as it is and treat the rest on its own |
| Extraction.NormalizeVariantFront | agent.py:101 | the three rewrites turn a leading variant spelling into "```sql" and treat the rest of the text on its own |
| Extraction.FindOpener | agent.py:102 | the search finds the first position where "```sql" starts in any letter case, or shows there is none |
| Extraction.FindCloser | agent.py:102 | the search finds the first "```" at or after a position, or shows there is none |
| Extraction.BlockSpan | agent.py:102-103 | a span is found exactly when the text has a fenced block, and then it is the first block: first opener, first closer after it |
| Extraction.FencedBlock | agent.py:102-103 | the group is found exactly when the text has a fenced block |
| Extraction.FirstBlockUnique | agent.py:102 | the first block of a text is unique |
| Extraction.NoOpener | agent.py:102-103 | with no opener there is no block |
| Extraction.NoCloser | agent.py:102-103 | with no closer after the first opener there is no block |
| Extraction.FirstBlockGroup | agent.py:102-104 | the captured group runs from after the opener's whitespace to the closer |
| Extraction.FramedBlockGroup | agent.py:102-104 | the first block framed by "```sql" and "```" strips like its interior |
| Extraction.FirstBlockUsed | agent.py:101-110 | a reply whose normalised text holds a block yields the cleaned, stripped block interior |
| Extraction.FirstBlockUsedAt | agent.py:101-110 | wherever the first block of the normalised text lies, the result is the clean-up of its stripped captured group |
| Extraction.RemoveBackticks | agent.py:106 | deleting the fences and backticks leaves no backtick and adds no character |
| Extraction.NoBlockNoBacktick | agent.py:105-106 | a reply without a fenced block yields SQL without backticks |
| Extraction.UnfencedText | agent.py:105-110 | a reply without backticks is only stripped and cleaned |
| Extraction.CleanStatementUnchanged | agent.py:105-110 | a one-line statement without backticks and not starting with "sql " comes back stripped and otherwise unchanged |
| Extraction.OneLineBlockExtracted | agent.py:101-110 | a one-line statement in a "```sql" block comes back exactly |
| Extraction.PrefixedStatementExtracted | agent.py:108-110 | one leading "sql " is cut off a one-line statement |
| Extraction.ExtractionNotIdempotent | agent.py:108-110 | a second pass cuts a second "sql " prefix, so extraction is not idempotent |
| Extraction.SpaceEnd | agent.py:107 | the scan ends at the first non-whitespace character after a position, or at the end |
| Extraction.LastNewlineIn | agent.py:107 | the scan finds the last line feed in a range, or shows there is none |
| Extraction.SqlLineMatchIsLongest | agent.py:107 | a match of `^\s*sql\s*\n` at the front is the longest one the pattern allows |
| Extraction.NoSqlLineMatch | agent.py:107 | when the scan finds no match, the pattern matches nowhere at the front |
| Extraction.SqlLineShape | agent.py:107 | a match starts its word after the leading whitespace and ends within the whitespace after it |
| Extraction.MatchNeedsNewline | agent.py:107 | a match needs a line feed |
| Extraction.NoNewlineNoSqlLine | agent.py:107 | text without a line feed loses no line |
| Extraction.BareSqlLineMatch | agent.py:107 | a bare "sql" line in front matches up to its line feed |
| Extraction.BareSqlLineDropped | agent.py:107 | a bare "sql" line at the start of a line is removed |
| Extraction.BareSqlLinesRemoved | agent.py:107 | any number of bare "sql" lines in front are all removed |
| Extraction.SqlLineMatchAppend | agent.py:107 | a match inside a part that ends a line is not changed by text after it that starts with a non-space |
| Extraction.RemoveSqlLinesAppend | agent.py:107 | the removal over a part that ends a line and the text after it is the removal over each, the second starting a line |
| Extraction.BareSqlLineDroppedAfter | agent.py:107 | a bare "sql" line after a finished line of other text is removed too |
| Extraction.RemoveSqlLines | agent.py:107 | removing the lines never lengthens the text or adds a character |
| Extraction.RemoveFirstSqlLine | agent.py:266 | without a match the text is unchanged; with one, at least four characters are cut from the front and the rest is kept |
| Extraction.RemoveFirstSqlLineKeepsChars | agent.py:266 | removing the first line adds no character |
| Extraction.CleanUp | agent.py:107-110 | the cleaned text has no whitespace at either end and no character the input lacked |
| Extraction.CleanUpOfPlainLine | agent.py:107-110 | one stripped line not starting with "sql " is left unchanged |
| Extraction.SqlPrefixDropped | agent.py:108-110 | one line starting with "sql " loses that prefix |
| Extraction.NormalizeOnlyTouchesBackticks | agent.py:101 | text whose only backticks are a final fence is left unchanged by the rewrites |
| Sanitizer.WordRun | agent.py:193 | the word run is the longest prefix of word characters |
| Sanitizer.RewriteExtractYear | agent.py:193 | the rewrite never lengthens the text |
| Sanitizer.ExtractYearReplaced | agent.py:193 | `EXTRACT(YEAR FROM w)` in any letter case becomes `w`, and the rewrite goes on after the closing parenthesis |
| Sanitizer.RewriteSkipsPrefix | agent.py:193 | text before the first match is copied unchanged |
| Sanitizer.NestedExtractRewritten | agent.py:193 | in a nested `EXTRACT(YEAR FROM EXTRACT(YEAR FROM w))` only the inner one can match, so one pass leaves one level |
| Sanitizer.RewriteWithoutParenUnchanged | agent.py:193 | text without a parenthesis is not rewritten |
| Sanitizer.NoYrLeft | agent.py:194 | after the replacement no whole-word `yr` is left |
| Sanitizer.NoYrUnchanged | agent.py:194 | text without a whole-word `yr` is left unchanged |
| Sanitizer.ReplaceYrIdempotent | agent.py:194 | replacing `yr` twice is replacing it once |
| Sanitizer.NoLowerYUnchanged | agent.py:194 | text without a lower-case `y` is left unchanged |
| Sanitizer.SanitizeSql | agent.py:189-195 | missing or empty SQL is returned as it is; SQL stays present exactly when it was; the result has no whole-word `yr` |
| Sanitizer.PlainSqlUnchanged | agent.py:189-195 | SQL without a parenthesis and without a lower-case `y` passes unchanged |
| Sanitizer.SanitizeAfterRewrite | agent.py:193-194 | when the EXTRACT rewrite leaves no lower-case `y`, sanitising is that rewrite |
| Sanitizer.SanitizeNotIdempotent | agent.py:189-195 | a nested EXTRACT loses one level per pass, so sanitising is not idempotent |
| Agent.SecondClean | agent.py:265-266 | the second pass leaves no backtick and adds no character |
| Agent.SecondCleanOfClean | agent.py:265-266 | text without backticks, with no whitespace at its ends and no bare first "sql" line, passes the second pass unchanged |
| Agent.RepairLoop | agent.py:252-286 | the retry loop, run on the session, returns the run of the specification `Repair` from the session's state before the loop; without attempts the session is unchanged, after any attempt it is idle with one statement counted per attempt (the first only outside an aborted transaction), and its history grows by the calls of the attempts in order |
| Agent.RetryStep | agent.py:270-279 | an attempt with a truthy error keeps the loop's invariant for the next attempt, with its calls added to the history |
| Agent.SuccessStep | agent.py:270-283 | an attempt without a truthy error ends the run with its rows, with its calls added to the history |
| Agent.RunTraceSnoc | agent.py:270 | one more attempt adds the calls of its `execute_query` to the run's history, from the state the earlier attempts left |
| Agent.QueryTraceStatements | agent.py:34-36 | each `execute_query` sends its statement exactly once |
| Agent.RunTraceStatements | agent.py:256-270 | a run sends exactly the SQL of its attempts, each once and in order |
| Agent.RepairExecutes | agent.py:257-283 | an attempt with SQL executes it; a truthy error leads to the next attempt from an idle session, any other ends the run with the rows |
| Agent.RepairNoSql | agent.py:261-263 | an attempt without SQL ends the run without executing anything |
| Agent.LoopStep | agent.py:270-283 | one executed attempt keeps the loop's invariant, or ends the run with the rows |
| Agent.NoSqlStep | agent.py:261-263 | an empty generation ends the run with the attempts made so far, whose calls make up the history added |
| Agent.ExhaustedStep | agent.py:285-286 | after the last attempt the run gives up with the last error, the history added being the calls of the attempts |
| Agent.AttemptsBounded | agent.py:252-256 | at most `3 - k` attempts are made from attempt `k` |
| Agent.ErrorsChain | agent.py:257-270 | each attempt's prompt gets the error of the attempt before it, and the first gets the starting error |
| Agent.StopsAtFirstFalsyError | agent.py:274-283 | every attempt but the last had a truthy error; the run succeeds exactly when the last attempt's error is falsy, with that attempt's rows |
| Agent.GaveUpAfterTruthyErrors | agent.py:274-286 | the run gives up exactly when all attempts left were made and all failed, reporting the last error; it ends for lack of SQL only with attempts left |
| Agent.AttemptsFollowPipeline | agent.py:257-266 | attempt `i` runs generation `k + i` on the routed model with the error it was given, and executes its cleaned form |
| Agent.QuestionAttempts | agent.py:252-270 | a question gets at most three attempts, the first with no previous error, each later one with the error of the one before |
| Agent.FailureReportedOnlyAfterThreeErrors | agent.py:285-286 | failure is reported exactly when three attempts were made and all returned truthy errors |
| Agent.NoSqlExecutesNothing | agent.py:261-263 | when the first generation yields no SQL, nothing is executed |
| Agent.EmptyErrorCountsAsSuccess | agent.py:274-283 | an empty error message counts as success, so the loop stops after that attempt, with no rows |
| Agent.CleanedAttempts | agent.py:257-270 | with a cleaning step that leaves no backticks, every attempt uses the pipeline's model and executes SQL without backticks |
| Agent.AgentAttemptsRoutedAndClean | agent.py:257-270 | every attempt of a question runs on its routed model and executes SQL without backticks |
| Agent.Answer | agent.py:248-250 | a question is turned away exactly when it fails the input check |
| Agent.HandleQuestion | agent.py:248-286 | a question is answered by the retry loop, with the session after it as the loop leaves it, or turned away with the session's state, count and history unchanged |
| Agent.InvalidQuestionTurnedAway | agent.py:248-250 | a two-letter question never reaches the model or the database |

## Left out

- Connecting to the database (agent.py:20-28) and closing it (agent.py:288-290): the session starts idle, with its server given as a function.
- The information-schema queries of `fetch_schema` and `fetch_relationships` (agent.py:52-58, 71-88): their rows are inputs to the formatting.
- The relationships query that `agent_generate_sql` issues before every generation (agent.py:202): the relationship text is fixed in `Agent.Context`, and its statement is taken not to change the session's transaction.
- Running the model with `subprocess` (agent.py:172-182): it is the `llm` function of `Agent.Context`, with `None` for a failed run.
- The time measurements (agent.py:170, 177, 180).
- Writing the log file, its header and its timestamp (agent.py:115-121, 125): only the escaping of fields and the row count are modelled.
- `print`, `input` and the `exit` command of the command loop (agent.py:238, 245-247): the model handles one question at a time.
- `Agent.BuildPrompt`: keeps the variable sections of the prompt in order, but not the fixed instruction text around them (agent.py:205-212, 225).
- Python's `str.lower()` and `\w` are modelled on ASCII. Non-ASCII characters that `lower()` maps to ASCII letters are not lowered, for example the Kelvin sign. This matters for the cue words in `detect_complexity`.
- Whitespace is modelled as Python's whitespace set, and IGNORECASE as ASCII case plus the four non-ASCII characters Python's engine matches for the pattern letters i, k and s (U+0130 and U+0131 for i, U+212A for k, U+017F for s).
- Errors not raised by the server are not modelled: a failed rollback, a lost connection, and exceptions outside `psycopg2`. The model covers a failed statement, a failed fetch, a statement without a result set and a failed commit.
- Text is a sequence of code points. Encoding and decoding the model's output is not modelled.
