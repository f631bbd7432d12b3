# A verified model of go-sqlcmd's script front end

This project models, in Dafny, the part of go-sqlcmd that turns script text into queries, and a few
self-contained algorithms beside it, and proves what they promise.

* **Batches** (`Lexing`, `LexingLaws`, `BatchState`, `Batches`): the mutable `Batch` that reads one chunk of input at
  a time, carries an open quote or comment from line to line, grows its buffer in place and records the
  offsets of `$(name)` references. Reading line by line is proved to be one lexical pass over the joined
  lines, and in every reachable state each recorded offset holds the reference it names. What a quote, a
  bracket, a comment and a reference are is stated with their characters.
* **Expansion** (`Expansion`, `Arguments`): putting values in the place of references, in a batch and in a command
  argument. Each reference is replaced once, nothing else changes, values are never read again, and the
  two pieces of code that do it agree.
* **Runs** (`Script`, `Nesting`, `Sqlcmds`, `Safety`, `Splitting`, `Cutting`, `Inlining`, `IncludeLimits`): the
  processor that executes `GO`, `:R` and `RESET`, as an object with a log of the queries the server
  received. A run sends exactly the batches of a cut that is defined on the lines alone, in read-only mode
  those that the check lets pass, and an include does what its lines would do in its place.
* **Read-only check** (`ReadOnly`, `Scanners`, `ReadOnlyMirror`, `ReadOnlyLocal`, `ReadOnlyWords`, `ReadOnlyLaws`,
  `ReadOnlyPieces`): the scanner that rejects statements by keyword. The verdict is blind to letter case,
  monotone in the option that allows EXEC, local to statements, and given by the first deciding words. On
  a statement put together from words, quoted texts, comments, signs and parentheses it is the promised one.
* **Showplans** (`Showplan`, `PlanParser`, `ShowplanParts`, `ShowplanTree`, `ShowplanDocument`, `PlanFile`):
  token-stream parsers against trees, what they keep of each element name, when a document's statements
  come out one by one, and the splitter of plan files against the loop that writes them.
* **Layout** (`AsciiTable`, `AsciiCells`, `AsciiFormatters`, `Wrapping`, `WrappingLaws`): cutting a table into
  segments with an optimality proof, where each cell is printed, and the stateful and the stateless line
  wrapper.
* **Configuration** (`UniqueNames`, `Config`, `ConfigLaws`, `Connections`, `ConfigStore`): unique names by
  pigeonhole, contexts, endpoints and users as a state machine, and when the current context has a server.
* **Variables, completion, browser** (`Variables`, `Completion`, `Browser`): the quoting of values and the
  variable store; binary search for keyword prefixes; the reply of the SQL Server Browser service.

Code that updates fields in the program is a class or a method with loops here, and each method is proved
equal to a specification function; the theorems are lemmas about those functions. `dafny verify
dfyconfig.toml` checks everything.

## Where the code differs from what one would expect

These are results of the model. Each is stated by a lemma, and where a property one would rely on fails for
some inputs, a lemma says exactly for which.

* `IncludeFile` resets the line number when the buffer is empty text (pkg/sqlcmd/sqlcmd.go:374-380). After
  a blank line and an include, the next reference is recorded at a wrong offset, and the query that is sent
  is wrong: `IncludeLimits.BlankBatchMisplacesReference`. `IncludeLimits.IncludeKeepsAlignedIff` gives the
  exact condition.
* An exit requested in an included file ends only that file's run: `Safety.IncludeNeverExits` for every
  include, and `IncludeLimits.ExitEndsOnlyTheFile` for a script that then sends another query.
* `parseStmtSimple` adds 0 to its depth after a `QueryPlan`, so it reads past its own end tag
  (internal/plan/parse.go:170-200), and the next statement's content ends up in it:
  `Showplan.NextStatementIsSwallowed`. It stops at its own end tag exactly when it holds no `QueryPlan`:
  `Showplan.StatementExactIff`. So a document with a plan in every statement yields one statement, or none
  when there are more of them than elements around them: `ShowplanDocument.PlansRunTogether`.
  `ShowplanDocument.DocumentExactIff` says exactly when the statements come out one by one.
* `FindUniqueContextName` advances its counter only when the context name is taken
  (internal/config/context.go:145-159). Deleting contexts leaves their users behind, and then it never ends:
  `Config.LeftoverUsersBlockTheName`. `Config.SearchEndsIff` says exactly when the search ends.
* `RemoveCurrentContext` takes the endpoint with it even when another context names it
  (internal/config/context.go:201-236), and asking for the context that is current then panics, since
  a context without its endpoint is taken for an error: `Connections.SharedEndpointIsLost`. `ConfigLaws.ConnectedIff` says
  exactly which operations keep every context's endpoint.
* `checkReadOnly` looks a variable up as it was written, `Set` under its upper case
  (pkg/sqlcmd/variables.go:73-89). `Variables.LowerCaseChangesServer` changes a read-only variable;
  `Variables.ReadOnlyChangesIff` says exactly which requests do.
* The read-only check stops looking at a WITH statement at its SELECT (pkg/sqlcmd/readonly.go:192-212), so
  a SELECT INTO behind WITH is accepted: `ReadOnlyWords.WithIntoPasses`. `ReadOnlyWords.SelectRejectedIff`
  and `ReadOnlyWords.WithRejectedIff` give the exact verdicts.
* The keyword table has `IDENTITY_INSERT` before `IDENTITYCOL` (pkg/console/complete.go:142-143), and the
  binary search misses the latter for three prefixes: `Completion.ShippedSearchIff`.
* Columns are cut to the screen width only down to one character (pkg/sqlcmd/format_ascii.go:83-91):
  `AsciiTable.GreedyFitsIff` says when the segments fit.

## Model

| member | source | states |
|---|---|---|
| Lexing.RefEnd | pkg/sqlcmd/parse.go:46-57 | finds the `)` that closes a reference with only name characters before it, and fails only when no `)` qualifies |
| Lexing.ScanKeepsSpans | pkg/sqlcmd/batch.go:234-268 | references recorded while scanning a chunk lie one after the other and each spells out exactly the text at its offset |
| Lexing.LexKeepsSpans | pkg/sqlcmd/batch.go:99-152 | the same for one pass over a whole text |
| LexingLaws.QuotesAndBracketsHide | pkg/sqlcmd/batch.go:234-260 | any text without a reference, between `'` and `'` or between `[` and `]` with the closer doubled in it, is passed over as a whole; without its closer the text stays open to the end |
| LexingLaws.DoubleQuotesHide | pkg/sqlcmd/batch.go:234-260 | between `"` and `"` the next `"` closes, and there is no doubling; without a closer the text stays open |
| LexingLaws.BlockCommentHides | pkg/sqlcmd/parse.go:20-28 | from `/*` to the first `*/` everything is passed over; without one the comment stays open |
| LexingLaws.LineCommentHides | pkg/sqlcmd/batch.go:99-152 | from `--` to the line feed or the end everything is passed over, and code follows |
| LexingLaws.ReferencesAreRead | pkg/sqlcmd/parse.go:46-57 | `$(` with letters, digits, underscores and hyphens and `)` is recorded at its place in code and in every kind of quote |
| LexingLaws.UnclosedIsMalformed | pkg/sqlcmd/batch.go:99-152 | `$(` whose name is followed by anything but `)` is an error in code and in every kind of quote |
| LexingLaws.CodeSkips | pkg/sqlcmd/batch.go:99-152 | text without quotes, comment signs and references stays code and records nothing |
| LexingLaws.WholeTexts | pkg/sqlcmd/batch.go:99-152 | as whole texts: a quoted or bracketed text ends in code with no references, and one without its closer ends quoted |
| LexingLaws.WholeTextsWithoutCloser | pkg/sqlcmd/batch.go:99-152 | the same for double quotes and both kinds of comment |
| BatchState.TextKeepsSound | pkg/sqlcmd/batch.go:155-178 | a chunk of text keeps the buffer nil only on line one, text only past it, and all spans disjoint and inside the buffer, also after the line number was set from outside |
| BatchState.TextKeepsAligned | pkg/sqlcmd/batch.go:155-178 | offset invariant, one step: after shifting the line's offsets and appending, every recorded span of the whole batch is the reference it names |
| BatchState.ReachableIsAligned | pkg/sqlcmd/batch.go:63-178 | offset invariant over every run of chunks and resets, with any setting of variables and commands at each step, through syntax errors and commands |
| BatchState.ScanIsLex | pkg/sqlcmd/batch.go:99-152 | scanning a line that stands inside a text gives the mode, references and error of lexing the text across that line |
| BatchState.FeedIsLex | pkg/sqlcmd/batch.go:81-178 | feeding lines to any aligned batch is one lexical pass over the lines joined by the terminator, started in the batch's mode |
| BatchState.LineAtATimeIsOnePass | pkg/sqlcmd/batch.go:81-178 | for a fresh batch: text, quote and comment state, recorded references and presence of a syntax error are those of one pass over the joined lines |
| Batches.ReadVariableReference | pkg/sqlcmd/parse.go:46-57 | the index loop finds the end of the reference, or none |
| Batches.ReadMultilineComment | pkg/sqlcmd/parse.go:20-28 | stops on the first `*/` after the opening star, and scanning goes on as if each character had been read in comment mode |
| Batches.ReadCommand | pkg/sqlcmd/parse.go:34-43 | matches exactly the text up to the first control character other than tab |
| Batches.MergeLine | pkg/sqlcmd/batch.go:155-165 | merging a line's offsets keeps all older entries and adds each of the line's entries moved, whatever the map order |
| Batches.MergedRecords | pkg/sqlcmd/batch.go:155-165 | the merged map holds exactly the old references followed by the moved ones |
| Batches.Batch.constructor | pkg/sqlcmd/batch.go:47-55 | a new batch is fresh: no text, line one, outside quotes and comments |
| Batches.Batch.Reset | pkg/sqlcmd/batch.go:63-74 | forgets text, mode and references, and takes over the given input as unprocessed |
| Batches.Batch.AddVariableLocation | pkg/sqlcmd/batch.go:263-268 | the line's map gains exactly this reference |
| Batches.Batch.ReadString | pkg/sqlcmd/batch.go:234-260 | finds the closing quote, honouring doubled quotes and brackets, records the references inside, or reports a malformed one, just as scanning character by character would |
| Batches.Batch.Append | pkg/sqlcmd/batch.go:188-209 | whether or not the buffer must grow, the text becomes old text, separator and new text, and a nil buffer takes no separator |
| Batches.Batch.Parse | pkg/sqlcmd/batch.go:99-152 | the loop over a chunk ends in the mode, references, command or error of the scan |
| Batches.Batch.AddText | pkg/sqlcmd/batch.go:155-178 | a finished line moves text, offsets and line number on together |
| Batches.Batch.Next | pkg/sqlcmd/batch.go:81-178 | reads the pending rest or the next line; text goes into the batch, a command leaves the batch as it was and its tail unread, an error clears batch and input, the end of input changes nothing |
| Expansion.SortedKeys | pkg/sqlcmd/sqlcmd.go:407-411 | the offsets of the map in increasing order, each once |
| Expansion.OffsetsAreSortedKeys | pkg/sqlcmd/sqlcmd.go:407-411 | the sorted map keys are the offsets of the recorded references in text order, so map order cannot matter |
| Expansion.GetRunnableQuery | pkg/sqlcmd/sqlcmd.go:399-426 | every slice is in range; the query is the expansion at the recorded references and the messages name the undefined ones in text order |
| Expansion.ExpandIsFill | pkg/sqlcmd/sqlcmd.go:399-426 | for every sequence of gaps and references: each reference becomes its value or stays, every gap stays, in order, and values are not read again |
| Expansion.AlignedIsRendered | pkg/sqlcmd/sqlcmd.go:399-426 | every text whose spans match is such a sequence, with just these references |
| Expansion.ResolveArgumentVariables | pkg/sqlcmd/commands.go:616-661 | the lazily created builder gives eager substitution from left to right, with the failure at the first undefined name |
| Arguments.ArgumentIsFilled | pkg/sqlcmd/commands.go:616-661 | for every sequence of gaps and references: the argument resolves to the text with the values in place, undefined references stay and are named in order, or the first of them is the error |
| Arguments.IncludeOpensFilled | pkg/sqlcmd/commands.go:377-383 | `:R` on such a path opens the file named by the path with its references replaced |
| Expansion.EnginesAgree | pkg/sqlcmd/commands.go:616-661 | on a comment-free line of text with well-formed references, resolving it as an argument equals reading it into a batch and expanding the batch |
| Script.FoundIsHead | pkg/sqlcmd/parse.go:34-43 | a command takes up the line up to the first control character other than tab, stands outside quotes and comments, and is the match of exactly that text |
| Script.CommandCharacters | pkg/sqlcmd/parse.go:34-43 | a command holds tabs and no other control character, and it stops at one or at the end of the line |
| Script.TailHasNoCommand | pkg/sqlcmd/batch.go:137-152 | what a command leaves unread of its line never holds a command |
| Nesting.DeeperIsSame | pkg/sqlcmd/sqlcmd.go:339-382 | a run that stays within a depth of nested files is the same run at every greater depth |
| Nesting.AcyclicIsWithin | pkg/sqlcmd/sqlcmd.go:339-382 | when no file includes itself, directly or not, every run stays within the rank of its files and so ends |
| Sqlcmds.Sqlcmd.RunnableQuery | pkg/sqlcmd/commands.go:294-298 | the query is the batch text expanded at the offsets the reader recorded |
| Sqlcmds.Sqlcmd.Send | pkg/sqlcmd/commands.go:310-315 | sends the query n times, stops at the first failure and keeps its code |
| Sqlcmds.Sqlcmd.GoCommand | pkg/sqlcmd/commands.go:272-318 | bad counts, empty batches, read-only rejections, failures and success: log, exit code and batch in each case |
| Sqlcmds.Sqlcmd.IncludeFile | pkg/sqlcmd/sqlcmd.go:339-382 | runs the file on the same batch, log and unread rest of the line, restores the input, and sets the line number as the code does; a missing file changes nothing |
| Sqlcmds.Sqlcmd.RunCommand | pkg/sqlcmd/commands.go:377-383 | `:R` runs the file its resolved argument names, without running the rest of its batch |
| Sqlcmds.Sqlcmd.RunRest | pkg/sqlcmd/sqlcmd.go:166-187 | at the end of input an empty batch returns the last error, otherwise the rest runs once if asked for |
| Sqlcmds.Sqlcmd.Act | pkg/sqlcmd/sqlcmd.go:183-208 | performs the command that was read, keeps its error for later, and stops on an exit request or on an error the settings do not ignore |
| Sqlcmds.Sqlcmd.Run | pkg/sqlcmd/sqlcmd.go:142-211 | the loop over commands, with nested runs through includes and what commands leave unread of their lines, computes the run as defined; it ends whenever the nesting of files does |
| Safety.RunIsSafe | pkg/sqlcmd/commands.go:294-318 | over every run, whatever the script, files and server: the log only grows, and in read-only mode every query added to it passes the check |
| Safety.GoLeaves | pkg/sqlcmd/commands.go:294-318 | the query is sent up to the first answer other than success; after success the batch is empty and the code unchanged, otherwise the batch is kept and the code is that of the answer |
| Safety.WalkIsSafe | pkg/sqlcmd/sqlcmd.go:142-211 | the same for any nested run from any session, with the exit code rule below |
| Safety.IncludeNeverExits | pkg/sqlcmd/sqlcmd.go:184-188 | no include asks the run around it to exit, whatever the file and the server |
| Safety.StoppedRunHasExitCode | pkg/sqlcmd/sqlcmd.go:184-208 | a run ended early by an error was told to stop on errors and leaves a non-zero exit code; one ended early by an exit leaves the code that the last query sent asked for |
| Splitting.FoundIff | pkg/sqlcmd/batch.go:137-148 | a line is taken for a command exactly outside quotes and comments, when it starts plainly and matches |
| Cutting.IncludeFreeIsWithin | pkg/sqlcmd/commands.go:377-383 | a script without includes where they would be commands opens no file, whatever its quotes and comments read like |
| Splitting.KindIsScan | pkg/sqlcmd/batch.go:81-178 | what the reader makes of a line is determined by the lines of the batch so far, lexed in one pass |
| Splitting.GoSends | pkg/sqlcmd/commands.go:272-318 | `GO n` sends the joined, expanded lines n times and clears the batch; a batch the read-only check rejects is cleared without being sent, with exit code 1 when errors end the run; for an empty batch it does nothing |
| Cutting.RunSendsTheCut | pkg/sqlcmd/sqlcmd.go:142-211 | with a server that does not fail, the log of a whole run is exactly those batches of the cut at `GO` lines that the read-only check lets pass, each n times, and the rest once; with `ExitOnError` a rejection leaves exit code 1, without it the code stays 0; lines in quotes and comments may read like commands and includes |
| Cutting.AllPassIff | pkg/sqlcmd/commands.go:299-308 | all batches of the cut are sent exactly when none is rejected, and so whenever writes are allowed |
| Cutting.PassingIsPrefix | pkg/sqlcmd/commands.go:299-308 | in a run that stops on errors, what is sent are the batches in front of the first rejected one |
| Cutting.CutKeepsText | pkg/sqlcmd/sqlcmd.go:142-211 | the non-blank lines of the batches are the non-blank text lines of the script in order, among them those in quotes and comments that read like commands: none is lost, moved or put into two batches |
| Inlining.WalkConcat | pkg/sqlcmd/sqlcmd.go:142-211 | running a text is running its first part and then, unless it stopped, the second; and so for staying within a depth |
| Inlining.WalkSplice | pkg/sqlcmd/sqlcmd.go:339-382 | runs of a script and of its inlining, from sessions that differ in the line number alone, stay so |
| Inlining.IncludeIsInlining | pkg/sqlcmd/sqlcmd.go:339-382 | when no included file ends in an exit or leaves a batch of one blank line, a run with `:R` sends the same queries and ends with the same exit code as the run of the inlined lines, which opens no file; blank lines and exits are allowed everywhere else |
| Inlining.RunSendsTheCutOfTheSplice | pkg/sqlcmd/sqlcmd.go:142-211 | splitting through includes: such a run sends exactly those batches of the cut of the inlined lines that the read-only check lets pass, with the same exit codes |
| Inlining.SpliceIsIncludeFree | pkg/sqlcmd/commands.go:377-383 | with acyclic includes the inlined lines hold no include that a run would follow |
| IncludeLimits.WithoutBlanksIsTidy | pkg/sqlcmd/sqlcmd.go:339-382 | scripts and files without blank lines and cycles, and servers that request no exit, meet the condition of inlining |
| IncludeLimits.InliningWithoutBlanks | pkg/sqlcmd/sqlcmd.go:339-382 | so for these a run with `:R` equals the run of the inlined lines, which hold no include |
| IncludeLimits.IncludeKeepsAlignedIff | pkg/sqlcmd/sqlcmd.go:374-380 | the line number set after an include keeps the offset invariant exactly when lines are echoed, or the batch is inside a quote or comment, or its text is not the empty text |
| IncludeLimits.RunKeepsAligned | pkg/sqlcmd/sqlcmd.go:142-211 | through GO, errors and includes, a run under the condition of inlining keeps every recorded offset on its reference |
| IncludeLimits.BlankBatchMisplacesReference | pkg/sqlcmd/sqlcmd.go:374-380 | a run over a blank line, an include of an empty file, a reference and GO sends the value followed by the end of the text, cut as if the reference stood one line terminator earlier |
| IncludeLimits.ExitEndsOnlyTheFile | pkg/sqlcmd/sqlcmd.go:184-188 | a run whose included file gets an exit request goes on and sends another query, which holds the text of the first |
| Scanners.Scanner.SkipBlockComment | pkg/sqlcmd/readonly.go:375-391 | skips a comment with comments nested in it, staying inside the text |
| Scanners.Scanner.SkipQuoted | pkg/sqlcmd/readonly.go:393-436 | skips any of the three quoting forms with doubled closers |
| Scanners.Scanner.SkipWS | pkg/sqlcmd/readonly.go:340-363 | skips all blanks and comments |
| Scanners.Scanner.SkipBalancedParens | pkg/sqlcmd/readonly.go:438-468 | skips to behind the matching parenthesis, ignoring those in quotes and comments |
| Scanners.Scanner.SkipToStatementEnd | pkg/sqlcmd/readonly.go:296-319 | skips to behind the next `;` outside quotes and comments |
| Scanners.Scanner.NextStatementKeyword | pkg/sqlcmd/readonly.go:223-245 | reads the first word of the next statement, and none only at the end of the text |
| Scanners.Scanner.NextKeyword | pkg/sqlcmd/readonly.go:250-292 | reads the next word outside parentheses, quotes and comments |
| Scanners.Scanner.CheckSelectInto | pkg/sqlcmd/readonly.go:157-184 | finds an INTO with a permanent target anywhere in the statement and leaves the cursor where it was |
| Scanners.Scanner.CheckCTE | pkg/sqlcmd/readonly.go:192-212 | judges the statement behind the common table expressions |
| Scanners.Scanner.CheckBeginTran | pkg/sqlcmd/readonly.go:129-139 | rejects BEGIN followed by TRAN or TRANSACTION, and rewinds otherwise |
| Scanners.Scanner.CheckCreateTemp | pkg/sqlcmd/readonly.go:142-153 | accepts CREATE TABLE for a temporary name alone |
| Scanners.Scanner.ClassifyKeyword | pkg/sqlcmd/readonly.go:93-125 | the verdict on a statement by its keyword, and the cursor position after judging |
| Scanners.CheckReadOnly | pkg/sqlcmd/readonly.go:29-43 | ends on every input and returns the keyword of the first rejected statement, if any |
| ReadOnly.CheckIsMonotone | pkg/sqlcmd/readonly.go:93-125 | what is accepted without EXEC is accepted with it; any other rejection is the same in both |
| ReadOnlyMirror.MirrorCheck | pkg/sqlcmd/readonly.go:29-43 | the verdict depends on the text from the cursor on, and on that only up to ASCII case |
| ReadOnlyMirror.CheckIsCaseBlind | pkg/sqlcmd/readonly.go:29-43 | changing ASCII letter case changes neither the verdict nor the reported keyword |
| ReadOnlyLocal.FirstStatement | pkg/sqlcmd/readonly.go:296-319 | a closed statement in front of a text is judged as if it stood alone, then the rest as if it stood alone |
| ReadOnlyLocal.CheckIsLocal | pkg/sqlcmd/readonly.go:29-43 | a text of closed statements is accepted exactly when each of them is, and otherwise reports the first rejected one's keyword |
| ReadOnlyLocal.AcceptedStartsAllowed | pkg/sqlcmd/readonly.go:93-125 | in an accepted text every statement starts with a keyword of the permitted list |
| ReadOnlyWords.SelectRejectedIff | pkg/sqlcmd/readonly.go:157-184 | a SELECT is rejected exactly when the first INTO or FROM among its words is an INTO with a permanent table |
| ReadOnlyWords.WithRejectedIff | pkg/sqlcmd/readonly.go:192-212 | after WITH the first data keyword decides, whatever follows it |
| ReadOnlyWords.AcceptedInto | pkg/sqlcmd/readonly.go:157-212 | an accepted statement that has an INTO with a permanent table does not start with SELECT, or has another INTO or a FROM in front of it; after WITH it stands anywhere behind a SELECT |
| ReadOnlyWords.AcceptedFirst | pkg/sqlcmd/readonly.go:29-43 | the first statement of an accepted text is itself accepted |
| ReadOnlyWords.WithIntoPasses | pkg/sqlcmd/readonly.go:192-212 | a WITH whose SELECT writes a permanent table is accepted |
| ReadOnlyLaws.QuotesHide | pkg/sqlcmd/readonly.go:393-436 | any text between single quotes, double quotes or brackets, with the closer doubled in it, is one token |
| ReadOnlyLaws.LineCommentHides | pkg/sqlcmd/readonly.go:365-373 | a `--` comment is one token and ends behind its line feed |
| ReadOnlyLaws.BlockCommentsNest | pkg/sqlcmd/readonly.go:375-391 | a block comment with another one in it ends with the second `*/` |
| ReadOnlyLaws.TempIsHashAfter | pkg/sqlcmd/readonly.go:142-153 | a name is temporary exactly when the first character that is not blank is `#` |
| ReadOnlyLaws.CreateAcceptedIff | pkg/sqlcmd/readonly.go:142-153 | CREATE is accepted exactly when its next word is TABLE with a `#` name behind it, and otherwise rejected as CREATE |
| ReadOnlyLaws.BeginRejectedIff | pkg/sqlcmd/readonly.go:129-139 | BEGIN is rejected exactly when its next word is TRAN or TRANSACTION, with both words |
| ReadOnlyLaws.WritingIsRejected | pkg/sqlcmd/readonly.go:93-125 | INSERT, UPDATE, DELETE, DROP, ALTER, TRUNCATE, MERGE, GRANT and the other writing keywords are rejected, whatever follows |
| ReadOnlyLaws.AcceptedDoesNotWrite | pkg/sqlcmd/readonly.go:29-43 | no statement of an accepted text starts with one of these, nor with EXEC or EXECUTE unless that is allowed |
| ReadOnlyLaws.HarmlessIsAccepted | pkg/sqlcmd/readonly.go:93-125 | SET, DECLARE, PRINT, USE, IF and the other harmless keywords are accepted |
| ReadOnlyPieces.WordsOfPieces | pkg/sqlcmd/readonly.go:250-292 | the words of a statement put together from words, quoted texts, comments, signs and nested parentheses are exactly the words outside parentheses, in order |
| ReadOnlyPieces.ParensOver | pkg/sqlcmd/readonly.go:438-468 | whatever piece stands inside parentheses, with parentheses, quotes or comments of its own, does not end them |
| ReadOnlyPieces.VerdictOfPieces | pkg/sqlcmd/readonly.go:29-43 | the verdict on such a statement for each kind of first word: SELECT by its first INTO or FROM, CREATE by TABLE and `#`, BEGIN by TRAN, WITH by the first data keyword, EXEC by the option, harmless and writing keywords by themselves |
| PlanParser.ParseWarnings | internal/plan/parse.go:299-340 | the nested loops compute the parse by depth, or fail at the end of the tokens |
| PlanParser.ParseRelOp | internal/plan/parse.go:249-297 | the same for operators and everything nested in them |
| PlanParser.ParseQueryPlan | internal/plan/parse.go:202-247 | the same for query plans |
| PlanParser.ParseStmtSimple | internal/plan/parse.go:170-200 | the same for statements, with the depth as the code counts it |
| PlanParser.ParseSinglePlan | internal/plan/parse.go:141-168 | the same for a whole document |
| Showplan.WarningsExact | internal/plan/parse.go:299-340 | on any element tree, consumes exactly through its own end tag and yields the warnings of the tree |
| Showplan.RelExact | internal/plan/parse.go:249-297 | on any element tree, consumes exactly through its own end tag and yields the operator of the tree |
| Showplan.PlanExact | internal/plan/parse.go:202-247 | on any element tree, consumes exactly through its own end tag and yields the plan of the tree |
| Showplan.StatementExactIff | internal/plan/parse.go:170-200 | a statement's parse ends at its own end tag exactly when no `QueryPlan` is in it |
| Showplan.NextStatementIsSwallowed | internal/plan/parse.go:170-200 | with one `QueryPlan`, the following statement's elements are read into this statement |
| ShowplanParts.PlanReads | internal/plan/parse.go:202-247 | of the elements outside `Warnings` and `RelOp`, a parsed query plan holds the last `MemoryGrantInfo`, `OptimizerHardwareDependentProperties` and `QueryTimeStats`, the number of `StatisticsInfo`, the last `Warnings` and as its root the last `RelOp`, parsed by itself |
| ShowplanParts.RelReads | internal/plan/parse.go:249-297 | likewise an operator holds all `RunTimeCountersPerThread`, the last `Object`, the last `Warnings` and as its children all `RelOp`, each parsed by itself |
| ShowplanParts.InStatementKeeps | internal/plan/parse.go:170-200 | likewise a statement keeps the last `StatementSetOptions` and the last `QueryPlan` |
| ShowplanDocument.DocumentExactIff | internal/plan/parse.go:141-200 | the statements of a document come out one by one exactly when only the last has query plans, and no more of them than there are elements around it; otherwise the parse fails or statements are missing |
| ShowplanDocument.PlansRunTogether | internal/plan/parse.go:141-200 | with one plan in every statement the parse fails when there are more statements than elements around them, and otherwise yields one statement that holds what all of them say |
| ShowplanTree.PreorderIsDocumentOrder | internal/plan/parse.go:249-297 | the operators of the tree in preorder are the `RelOp` tags outside `Warnings` in document order |
| ShowplanTree.CountersAreOwned | internal/plan/parse.go:249-297 | each operator gets exactly the thread counters whose innermost operator it is, in order |
| ShowplanTree.TreeProjection | internal/plan/parse.go:249-297 | both at once, for the operator element as it is parsed out of a token stream |
| PlanFile.WritePlans | pkg/sqlcmd/sqlcmd.go:520-527 | the writing loop puts each document on a line of its own |
| PlanFile.SplitPlanDocuments | internal/plan/parse.go:118-138 | the loop over the remaining text computes the chunks |
| PlanFile.SplitOfWritten | internal/plan/parse.go:118-138 | round trip: splitting what was written gives back the documents in order |
| PlanFile.RootElementIsDocument | internal/plan/parse.go:118-138 | a `ShowPlanXML` element with no tag in its content is such a document |
| PlanFile.ChunksInOrder | internal/plan/parse.go:118-138 | on any text the chunks are disjoint stretches in order, each up to its first closing tag, and no opening tag is left between them |
| AsciiTable.WidthIsTight | pkg/sqlcmd/format_ascii.go:34-63 | a column's width bounds its name and every cell, and one of them has it |
| AsciiTable.GreedyIsLayout | pkg/sqlcmd/format_ascii.go:101-120 | the segments cover every column once in order and each fits |
| AsciiTable.GreedyIsOptimal | pkg/sqlcmd/format_ascii.go:101-120 | no other division into fitting segments has fewer of them |
| AsciiTable.GreedyFitsIff | pkg/sqlcmd/format_ascii.go:101-120 | the segments fit the screen exactly when each column alone does |
| AsciiTable.OneSegment | pkg/sqlcmd/format_ascii.go:93-100 | a table that fits is one segment, so the short cut prints the same |
| AsciiTable.PadRight | pkg/sqlcmd/format_ascii.go:171-181 | exactly the width: the text and blanks, or the beginning of the text with three dots at its end when they have room |
| AsciiTable.PadLeft | pkg/sqlcmd/format_ascii.go:183-193 | exactly the width: blanks and the text, or the beginning of the text with three dots at its end when they have room |
| AsciiTable.LinesHaveTheWidth | pkg/sqlcmd/format_ascii.go:124-169 | rules, header and rows of a segment all have length one plus three more than each column's width |
| AsciiTable.TableFitsScreen | pkg/sqlcmd/format_ascii.go:73-169 | on a screen of five characters or more no printed line is longer than the screen, for any table |
| AsciiCells.SegmentShows | pkg/sqlcmd/format_ascii.go:124-169 | a segment has a line for every row between its names and its last rule; from two plus the widths before it on, a column shows the row's value, at the left, or at the right for numbers, with blanks around it or cut short, between separators |
| AsciiCells.CellIsPrinted | pkg/sqlcmd/format_ascii.go:73-169 | every cell of the table is printed exactly once: its column is in one block of lines and no other, and there in the line of its row |
| AsciiCells.GreedyCovers | pkg/sqlcmd/format_ascii.go:101-120 | whatever the screen, the segments cover every column once and in order |
| AsciiCells.LimitedWidth | pkg/sqlcmd/format_ascii.go:83-91 | a column keeps its width exactly when it fits between the borders or is at most one wide; otherwise it gets the screen less four, or one |
| AsciiCells.ShownInFull | pkg/sqlcmd/format_ascii.go:34-91 | in a column that fits the screen no name and no value is cut |
| AsciiFormatters.AsciiFormatter.constructor | pkg/sqlcmd/format_ascii.go:34-41 | widths start at those of the column names |
| AsciiFormatters.AsciiFormatter.AddRow | pkg/sqlcmd/format_ascii.go:43-63 | keeps the widths exact while rows are added |
| AsciiFormatters.AsciiFormatter.PrintAsciiTable | pkg/sqlcmd/format_ascii.go:73-122 | prints the lines of the greedy segments for the widths cut to the screen |
| AsciiFormatters.AsciiFormatter.PrintTableSegment | pkg/sqlcmd/format_ascii.go:124-169 | prints rule, header, rule, the rows in order, and a rule |
| AsciiFormatters.AsciiFormatter.SegmentEnd | pkg/sqlcmd/format_ascii.go:103-112 | the inner loop stops before the first column that does not fit |
| Wrapping.Writer.WriteOut | pkg/sqlcmd/format.go:138-166 | ends on every text, also when a wrap consumes nothing, and writes the wrapped text from the current column on |
| Wrapping.WrapKeeps | pkg/sqlcmd/format.go:138-166 | without the inserted line ends the output is the input |
| Wrapping.WrapBounds | pkg/sqlcmd/format.go:138-166 | no output line is longer than the width |
| Wrapping.WrapIsUnique | pkg/sqlcmd/format.go:138-166 | it is the one way to mark a text that inserts a line end exactly where a line is full and goes on |
| Wrapping.WritesWrapTheText | pkg/sqlcmd/format.go:138-166 | any sequence of writes wraps the concatenated text, keeps it, and keeps within the width |
| Wrapping.FitToScreen | pkg/sqlcmd/format.go:341-372 | the counting loop gives the marked text, for both line terminators |
| Wrapping.FitKeeps | pkg/sqlcmd/format.go:341-372 | without the inserted line ends the output is the input |
| Wrapping.FitBounds | pkg/sqlcmd/format.go:341-372 | no output line is longer than the width |
| Wrapping.FitIsWrap | pkg/sqlcmd/format.go:341-372 | on text without line breaks the stateless wrapper equals the stateful one from any column |
| WrappingLaws.FitIsExact | pkg/sqlcmd/format.go:341-372 | a line end is inserted exactly where the line is full and text follows that does not start with the line terminator |
| WrappingLaws.FitIsUnique | pkg/sqlcmd/format.go:341-372 | no other marking of the text has that property |
| WrappingLaws.WrapIsExact | pkg/sqlcmd/format.go:138-166 | the writer inserts a line end exactly where the line is full and text follows, a line terminator or not |
| UniqueNames.FindUniqueName | internal/config/endpoint.go:86-107 | the counting search ends and returns the name itself when free, else the first free numbered name |
| UniqueNames.UniqueName | internal/config/user.go:54-75 | the name found is not taken |
| UniqueNames.TakenGetsNumber | internal/config/user.go:54-75 | a taken name gets the least decimal number from 2 on behind it that makes a free name |
| UniqueNames.NumberIsBounded | internal/config/endpoint.go:86-107 | with n taken names the number is at least 2 and at most n + 1 |
| Config.SearchEndsIff | internal/config/context.go:140-163 | the numbered search for a context name ends exactly when the user name of the first free context name is free |
| Config.LeftoverUsersBlockTheName | internal/config/config.go:101-165 | adding a container context twice, deleting both contexts and adding it again searches for ever |
| Config.UniqueContext | internal/config/context.go:140-163 | when the search ends, neither the context name nor its user name is taken |
| Config.ApplyKeepsConsistent | internal/config/context.go:19-40 | every operation that returns keeps names pairwise distinct and the current context empty or present |
| Config.RunKeepsConsistent | internal/config/config.go:69-165 | so does every run of operations from a consistent configuration, whatever panics or never returns |
| Config.ReachableIsConsistent | internal/config/config.go:69-165 | and every run from the empty configuration |
| ConfigLaws.DeletedUser | internal/config/user.go:42-48 | the first user of that name is gone, and nothing else changes |
| ConfigLaws.DeletedEndpoint | internal/config/endpoint.go:29-35 | the first endpoint of that name is gone, and nothing else changes; panics exactly for the empty name |
| ConfigLaws.DeletedContext | internal/config/context.go:121-134 | the first context of that name is gone and the first that is left is current; endpoints and users stay |
| ConfigLaws.RemovedCurrent | internal/config/context.go:201-236 | the current context is gone with the first endpoint and the first user it names, all others stay in order, and the first context that is left is current |
| ConfigLaws.RemoveUndoesCreate | internal/config/config.go:101-165 | removing the current context after creating one gives back the lists as they were |
| ConfigLaws.DeleteUndoesAddEndpoint | internal/config/endpoint.go:18-35 | deleting the endpoint just added gives back the configuration |
| ConfigLaws.DeleteUndoesAddUser | internal/config/user.go:20-48 | deleting the user just added gives back the configuration |
| ConfigLaws.DeleteUndoesAddContext | internal/config/context.go:19-134 | deleting the context just added gives back the lists as they were |
| ConfigLaws.ConnectedIff | internal/config/context.go:201-236 | an operation keeps an endpoint for every context exactly when it deletes no endpoint that a remaining context names |
| Connections.CurrentIff | internal/config/context.go:64-97 | the current context gives its endpoint, and a user only if it names that user, exactly when it exists with its endpoint; otherwise the call panics |
| Connections.RunStaysConnected | internal/config/context.go:64-97 | over every run of operations that leave shared endpoints alone, asking for the current context never panics while there is one |
| Connections.CreatedIsCurrent | internal/config/config.go:101-165 | after a context is created for a container, it is current and stands for its address, port and container, and for the user `login@context` with that login |
| Connections.SharedEndpointIsLost | internal/config/context.go:201-236 | of two contexts with one endpoint, removing the current one leaves a current context for which the call panics |
| ConfigStore.Sqlconfig.Ordinal | internal/config/context.go:268-276 | the first position of a name, or the length |
| ConfigStore.Sqlconfig.FindUniqueContextName | internal/config/context.go:140-163 | whenever the search settles, the loop ends with that name |
| ConfigStore.Sqlconfig.AddContext | internal/config/context.go:19-40 | panics without a known endpoint, otherwise appends the context under a unique name |
| ConfigStore.Sqlconfig.DeleteContext | internal/config/context.go:121-134 | removes the context and makes the first remaining one current |
| ConfigStore.Sqlconfig.SetCurrentContextName | internal/config/context.go:185-192 | panics for an unknown name |
| ConfigStore.Sqlconfig.RemoveCurrentContext | internal/config/context.go:201-236 | removes the current context with its endpoint and user and makes the first remaining one current |
| ConfigStore.Sqlconfig.AddEndpoint | internal/config/endpoint.go:18-24 | appends under a unique name and returns it |
| ConfigStore.Sqlconfig.DeleteEndpoint | internal/config/endpoint.go:29-35 | removes the first endpoint of that name; panics for the empty name |
| ConfigStore.Sqlconfig.AddUser | internal/config/user.go:20-37 | panics on incomplete basic authentication, otherwise appends under a unique name |
| ConfigStore.Sqlconfig.DeleteUser | internal/config/user.go:42-48 | removes the first user of that name |
| ConfigStore.Sqlconfig.CurrentContext | internal/config/context.go:64-97 | the loop over all contexts finds the connection of the current one, or panics, as defined |
| ConfigStore.Sqlconfig.AddContextWithContainer | internal/config/config.go:101-165 | panics on a missing argument, otherwise adds endpoint, user and context under matching unique names and makes the context current |
| ConfigStore.Sqlconfig.Clean | internal/config/config.go:69-76 | empties the configuration |
| Variables.ReadDoubled | pkg/sqlcmd/variables.go:334-354 | accepts a text exactly when it is the doubling of some value, and returns that value |
| Variables.ParseValue | pkg/sqlcmd/variables.go:321-355 | unquoted text without blanks is itself; quoted text is accepted exactly when it is the quoting of the result |
| Variables.ParsedQuoted | pkg/sqlcmd/variables.go:321-355 | round trip: parsing a quoted value gives the value |
| Variables.DoublingIs | pkg/sqlcmd/variables.go:334-354 | in a quoting, text without quotes stays as it is and each quote becomes two |
| Variables.QuotedIsInjective | pkg/sqlcmd/variables.go:316-320 | different values have different quotings |
| Variables.ValidIdentifier | pkg/sqlcmd/variables.go:304-314 | the loop accepts exactly a letter or underscore followed by letters, digits, underscores and hyphens, and the empty name |
| Variables.RunKeepsSound | pkg/sqlcmd/variables.go:271-299 | over any run of `:setvar`, all names stay in upper case and no default variable disappears |
| Variables.SetvarGives | pkg/sqlcmd/variables.go:271-299 | an accepted `:setvar` gives the variable the value as written or as quoted, its default again, or none, and changes no other variable |
| Variables.ConnectionIsLocked | pkg/sqlcmd/variables.go:63-83 | exactly the six connection variables, spelled in capitals, are refused once they have a value |
| Variables.AsciiNames | pkg/sqlcmd/variables.go:304-314 | an ASCII name is valid exactly when it is empty or a letter or underscore and then letters, digits, underscores and hyphens |
| Variables.ReadOnlyChangesIff | pkg/sqlcmd/variables.go:73-83 | a non-empty read-only variable changes exactly when the request spells it in other letters, passes the name and guard checks, and brings no value or a different accepted one |
| Variables.UpperCaseRunsAreSafe | pkg/sqlcmd/variables.go:73-83 | no run of requests with upper-case names changes a non-empty read-only variable |
| Variables.LowerCaseChangesServer | pkg/sqlcmd/variables.go:73-89 | a request in lower-case letters changes the server variable |
| Variables.VariableStore.constructor | pkg/sqlcmd/variables.go:235-267 | the initial variables, with the environment's values taken over when asked for, in any order of the map |
| Variables.VariableStore.Set | pkg/sqlcmd/variables.go:86-89 | stores under the upper-case name and changes nothing else |
| Variables.VariableStore.Get | pkg/sqlcmd/variables.go:93-97 | finds the value under every spelling with the same upper case |
| Variables.VariableStore.Unset | pkg/sqlcmd/variables.go:100-103 | removes the upper-case name and nothing else |
| Variables.VariableStore.CheckReadOnly | pkg/sqlcmd/variables.go:73-83 | refuses exactly the non-empty read-only names as they are written |
| Variables.VariableStore.Setvar | pkg/sqlcmd/variables.go:271-299 | outcome and store in each case: bad name, read-only, undefined, reset, removal, bad value, new value |
| Completion.CompleteLine | pkg/console/complete.go:9-48 | for every table, completes to what the search finds; in a table sorted for the prefix that is a plain filter of the table, in table order |
| Completion.FoundIsMatching | pkg/console/complete.go:16-47 | in a table sorted for the prefix, search and expansion find exactly the words that start with it |
| Completion.FoundMatches | pkg/console/complete.go:31-45 | in any table, what is found is a stretch of it in which every word starts with the prefix |
| Completion.ShippedSearchIff | pkg/console/complete.go:64-245 | with the shipped order, in which one pair of neighbours is not in byte order, the search is right exactly for the prefixes other than IDENTITYC, IDENTITYCO and IDENTITYCOL |
| Completion.SortedIsSortedFor | pkg/console/complete.go:17-30 | any sorted table is in the order the search for any prefix needs |
| Completion.SidesMakeStretch | pkg/console/complete.go:31-39 | in a sorted table the matches found by walking up and down from one match are all there are |
| Completion.OfferedIff | pkg/console/complete.go:9-48 | a keyword is offered exactly when the last word, in any case, is its beginning |
| Completion.MergedReadsAsKeyword | pkg/console/complete.go:52-62 | a completion keeps the line up to the last word and reads on as the keyword |
| Completion.LastWordIsCompleted | pkg/console/complete.go:9-62 | the word behind the last blank or semicolon is replaced: by the keyword as listed if it starts with a capital letter, otherwise by the keyword in lower case |
| Completion.CutCompareIsSide | pkg/console/complete.go:20-25 | comparing with the cut word tells on which side the matches lie |
| Browser.ParseInstances | internal/legacy/sqlcmd.go:1108-1135 | the loop over tokens decodes names and values in turn |
| Browser.PrintedIsParsed | internal/legacy/sqlcmd.go:1108-1135 | round trip with the SVR_RESP layout, section 2.2.5 of [MC-SQLR]: reading a printed reply gives the printed instances, the later of two with the same name or key |
| Browser.CollectedIsExact | internal/legacy/sqlcmd.go:1126 | with distinct upper-case names every instance is found under its name and nothing else is |
| Browser.ValuesAreExact | internal/legacy/sqlcmd.go:1118 | with distinct keys the values are exactly the fields |
| Browser.ReplyIsExact | internal/legacy/sqlcmd.go:1108-1135 | the whole round trip: with distinct keys and names, reading a printed reply finds an instance under the upper case of each `InstanceName`, with exactly its fields, and no other |
| Browser.ParsedIsFiled | internal/legacy/sqlcmd.go:1108-1135 | whatever bytes arrive, every instance found has fields and stands under the upper case of its own name |

## Left out

- Text handed over with `-Q`, the `once` argument and multi-line chunks: the lexer refinement is for lines without a line feed, because `--` skips to the end of the whole chunk; `Batches.Batch.Next` itself is for any chunk.
- Regular expressions of commands, the batch terminator setting and the parsing of the count after `GO`: commands are a function from the text of a line to `GO n`, `:R path`, `RESET` or none.
- The other commands (`SETVAR`, `LISTVAR`, `LIST`, `EXIT`, `QUIT`, `ED`, `!!`, `CONNECT`, `OUT`, `ERROR`, `PERFTRACE`, `XML`, `ON ERROR`) inside runs; variables are constant during a run.
- Reader failures other than the end of input, interrupts, prompts, messages and echoing; file decoding and the reading of long lines in parts.
- The query driver: the server is a function from the log to its last answer. The exit code that an error severity level sets on a query that does not fail, and `ConnectDb`, which also writes the batch's line number, are not part of this model.
- Sqlcmds.Sqlcmd.Run: for input whose includes do not nest for ever, as a run over others does not end; and for a batch terminator that is not the empty text, with which a control character on the line would be read again and again.
- Cutting.RunSendsTheCut: for lines without control characters other than tab, since whether the rest of such a line is read depends on how its command ends; and for a server that does not fail. `Safety.GoLeaves` says what a `GO` does when it fails.
- Inlining.IncludeIsInlining: for included files that do not end in an exit or leave a batch of one blank line, and commands that take up their lines; `IncludeLimits` shows what happens otherwise.
- Expansion.EnginesAgree: for lines without `--` and `/*`, since a batch does not read references in comments and an argument does.
- Batches.Batch.Append: the first chunk's spare capacity is arbitrary, and the aliasing of the buffer with the raw line is not modelled.
- Completion.ShippedSearchIff: states what it needs of the shipped table, which is its length, seven of its words and the order of all others, and not the 180 words.
- AsciiTable.GreedyIsOptimal: for columns that each fit the screen, as they do after clamping on a screen of five characters or more.
- Bytes and runes: text is a sequence of characters, and lengths are in characters; Unicode tables are any tables that are right about ASCII, with an upper case that is stable.
- XML decoding, conversion of numeric attributes, `formatObjectInfo`, plan analysis and extraction from CSV: the parsers work on a token stream with attributes as text.
- The assembly of a table's rows from the database driver, control characters, colours, vertical output, headings and the terminal size, which is a parameter.
- Tables written through the wrapping writer at exactly the screen width.
- Saving and loading the configuration, and the encryption of passwords.
- ShowplanDocument.DocumentExactIff: for statements that stand side by side inside the same elements; conditions and other statements around them are not taken apart.
- ReadOnlyPieces.VerdictOfPieces: for one statement without a semicolon in it, in which every piece is followed by a blank or a line end; `ReadOnlyLocal.CheckIsLocal` takes a text of statements apart.
- Host name, environment and default editor are parameters of the variable store.
