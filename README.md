# mucher: question-bank parser, description builder, response scorer and chart data

This project models the core of `mucher.py`, an exam generator and grader,
and proves properties of that model in Dafny.

- **Question-bank parser.** It parses a workbook whose sheets are question
  categories. It cuts each sheet into blocks of five rows: a prompt and four
  responses. Every block with a prompt is written to the working folder as a
  text record named `<sheet>-<index>`, and the parser returns the sheet names
  (`QuestionBank`, bank.dfy).
- **Description builder.** It builds the script the external randomiser
  reads: the working directory, the seed, the first serial number, one `use`
  line per category and the number of variants (`Description`,
  description.dfy).
- **Grader.** It scores every row of a results table and counts every
  processed question into one report shared by the whole batch. The report
  holds, per category and in the order the categories were first met, the
  number of correct, missing and incorrect answers (`Grading`, grading.dfy).
  The report itself is a dictionary in insertion order, modelled as a list of
  entries in its own generic module (`Tallies`, report.dfy). Folding a batch
  of answer sheets into it, and that fold's order independence, live in
  `Batches` (batch.dfy).
- **Chart data.** It projects the report onto the series of the stacked bar
  chart (`Chart`, chart.dfy).
- **Python pieces.** `Text` (text.dfy) models the Python string operations
  the program relies on: `join`, `strip` and `str` of an integer. It also
  defines `Split`, which the program never calls. The model uses it to state
  how a written record and the description script read line by line.
  `Wrappers` (wrappers.dfy) holds `Option` and `Result`.

The model takes the source's own form:

- The loops of the parser, the response collector, the row loop of `ExamGrader.grade`
  and the per-student question loop are methods with loops. Each is proved
  equal to a specification function of its inputs.
- The working folder is a class `Folder` whose file log the writer appends to.
- The report dictionary is a class `Report` whose entries the scorer updates
  in place.
- The description text and the chart series are functions.

In these places the model follows what the code does, which is not what its
names or docstrings suggest:

- **Zip truncation.** A student's questions are the `zip` of the correct
  answers, the given answers and the labels. There are as many as the
  shortest of the three, not always as many as the given answers.
- **Aborting row.** An aborting row is a row of at least six columns whose
  given answers are text but whose correct answers are not. For such a row
  `zip` raises, which aborts the whole grading run. It does not leave just
  that row unscored. The model returns `Failure(CorrectAnswersNotText(i))`
  for the first such row `i`. A row with fewer than six columns, or whose
  given answers are not text, is skipped with a blank score before `zip` is
  reached, whatever its correct-answers cell holds.
- **Leading line.** The description script starts with an empty line.
- **Empty sheets.** An empty sheet writes no record but stays in the returned
  list of categories, so the script has a `use` line for it.
- **Responses.** A block keeps between zero and four responses: the present
  cells among the four rows after its prompt that exist. A cell of spaces
  becomes an empty string and is kept. A prompt of spaces is written as an
  empty prompt.
- **No idle entries.** A report entry is created only when a question of its
  category is counted. So no entry, and no chart bar, has a zero total.
- **Overlapping patterns.** The pattern `"<sheet>-*"` of a sheet is also a
  prefix of every record of a sheet whose name is that sheet's name followed
  by a dash. For sheets `a` and `a-1`, every record of `a-1`, such as
  `a-1-0`, starts with `a-`. If the randomiser reads `*` as a wildcard, the
  `use` line of `a` can draw the questions of `a-1`.

## Model

| member | source | states |
|---|---|---|
| QuestionBank.ParseQuestions | mucher.py:298-349 | A workbook without sheets is the error `NoSheets` and writes nothing. Otherwise the folder gains the records of every sheet, sheet after sheet, and the result is the names of all sheets in workbook order, empty ones included. |
| QuestionBank.WriteBank | mucher.py:322-346 | Appends exactly the records of the bank, sheet by sheet, to the folder. |
| QuestionBank.ParseSheet | mucher.py:323-346 | All of the method's branches append exactly the records of blocks `0 .. rows/5 - 1` that have a prompt: an empty sheet, exactly five rows, a multiple of five, or a remainder that is dropped. |
| QuestionBank.WriteBlocks | mucher.py:334-337 | The block loop appends, in index order, the record of every block below `count` that has a prompt. |
| QuestionBank.WriteQuestionFile | mucher.py:351-399 | Appends one record `<sheet>-<index>` with the trimmed prompt and responses in the delimiter format. Appends nothing when the start row is past the end or the prompt cell is empty. |
| QuestionBank.CollectResponses | mucher.py:383-389 | The responses are the trimmed present cells among the four rows after the prompt that exist, in row order, and there are at most four. |
| QuestionBank.BlockRecord | mucher.py:368-397 | Definition of one question file: none when the start row is past the end or its prompt cell is empty, otherwise the record `<sheet>-<index>` holding the stripped prompt and the collected responses. `BlockInRange` and `WriteQuestionFile` state its meaning. |
| QuestionBank.BlockContent | mucher.py:397 | Definition of the record text: the prompt, the delimiter, the responses joined by the delimiter, and a closing delimiter. `ContentGrammar`, `FullBlockContent` and `RecordLines` state what it reads as. |
| QuestionBank.RecordName | mucher.py:368 | Definition of the file name `<sheet>-<index>`. `LastDash` and `RecordNameInjective` show it determines the sheet and the index. |
| QuestionBank.ResponsesStep | mucher.py:384-389 | Looking at response row `start + i` adds its trimmed text exactly when the row exists and its cell is present. |
| QuestionBank.PresentCount | mucher.py:386-389 | At most one response per row, and exactly one per row when every cell is present. |
| QuestionBank.WindowShape | mucher.py:385-386 | The rows looked at are the rows of the range that exist, in order, and the range is cut short only by the end of the sheet. |
| QuestionBank.BlockInRange | mucher.py:343-346 | Every block index below `rows/5` starts inside the sheet with all its rows present. The block yields a record exactly when its prompt cell is present, and that record is `<sheet>-<i>` with its prompt and responses. |
| QuestionBank.SheetRecordsMembers | mucher.py:329-346 | A record belongs to a sheet's output exactly when it is the record of one of its complete blocks. |
| QuestionBank.BlocksMembers | mucher.py:335-337 | A record is among the first `k` blocks' output exactly when one of those blocks yields it. |
| QuestionBank.SheetRecordsCount | mucher.py:329-346 | A sheet of `n` rows gives at most `n/5` records. When every prompt is present it gives exactly that many, record `i` at position `i`. |
| QuestionBank.BlocksCount | mucher.py:335-337 | At most one record per block, and block `i` at position `i` when every prompt is present. |
| QuestionBank.RemainderDropped | mucher.py:338-346 | A sheet gives the same records as its rows cut down to the last complete block: the remainder rows are ignored. |
| QuestionBank.BlockPrefix | mucher.py:335-346 | A block does not see the rows after it. |
| QuestionBank.BlocksPrefix | mucher.py:335-346 | The first `k` blocks do not see the rows after them. |
| QuestionBank.SingleBlockSheet | mucher.py:329-331 | A sheet of exactly five rows with a prompt gives the single record `<sheet>-0`, with row 0 as prompt and rows 1-4 as responses. |
| QuestionBank.EmptySheet | mucher.py:325-327 | An empty sheet writes no record. |
| QuestionBank.ContentGrammar | mucher.py:397 | The record text is the prompt closed by the delimiter, then each response closed by the delimiter. With no responses it is the prompt followed by two delimiters. |
| QuestionBank.FullBlockContent | mucher.py:397 | With four responses the record is `<prompt>\n.\n<r1>\n.\n<r2>\n.\n<r3>\n.\n<r4>\n.\n`. |
| QuestionBank.TerminatedDots | mucher.py:397 | Closing every part with the delimiter is closing every part and a full-stop line with a line feed each. |
| QuestionBank.RecordLines | mucher.py:397 | Read line by line, a record of single-line parts is each part followed by a line holding a single full stop. |
| QuestionBank.DotLinesAt | mucher.py:397 | Line `2k` of a record is part `k`, and line `2k + 1` is the full stop after it. |
| QuestionBank.LastDash | mucher.py:368 | In a record name the dash after the sheet name is the last dash. |
| QuestionBank.RecordNameInjective | mucher.py:368 | Different sheets or block indices never give the same file name. |
| QuestionBank.SheetRecordsNamed | mucher.py:335-337 | Every record of a sheet is named after the sheet and one of its block indices, and the names differ. |
| QuestionBank.BankRecordsNamed | mucher.py:322-346 | Every record written for the bank is named after one of its sheets and a block index. |
| QuestionBank.BankNamesDistinct | mucher.py:322-346 | With distinct sheet names no two records of the bank share a file name, so no write overwrites another. |
| QuestionBank.BankRecordsStep | mucher.py:322-346 | Parsing one more sheet appends exactly that sheet's records. |
| QuestionBank.Folder.WriteText | mucher.py:398 | Writing a file adds exactly that record to the folder's log. |
| Text.TrimShape | mucher.py:380 | Stripping keeps one stretch of the text and removes only whitespace around it, and what remains neither starts nor ends with whitespace. |
| Text.Trim | mucher.py:380 | Definition of `str.strip()`: leading, then trailing whitespace removed, whitespace being the characters Python counts as such. `TrimShape` and `TrimIdempotent` state its meaning. |
| Text.TrimIdempotent | mucher.py:380 | Stripping twice is stripping once. |
| Text.TrimExample | mucher.py:380 | Stripping `"\x1fab\u3000"` gives `"ab"`: information separators and Unicode spaces count as whitespace, as they do for `str.strip()`. |
| Text.NatToStringDigits | mucher.py:368 | The index in a file name is all decimal digits, with no leading zero unless it is `0`. |
| Text.NatToStringRoundTrip | mucher.py:368 | Reading back the digits of a number gives the number. |
| Text.NatToStringInjective | mucher.py:368 | Different indices render differently. |
| Text.IntToStringDigits | mucher.py:409-418 | A rendered integer is digits, after a leading minus sign when negative. |
| Text.JoinConcat | mucher.py:397 | Joining two non-empty lists is joining each, with one separator between. |
| Text.JoinThenSeparator | mucher.py:397 | Joining and then adding a separator closes every part with it. |
| Text.SplitJoin | mucher.py:413-418 | Splitting on a separator that no part holds gives the parts back. |
| Text.SplitPiece | mucher.py:413-418 | A piece without the separator, followed by the separator, starts a new piece. |
| Description.UseLines | mucher.py:408-411 | One `use` line per sheet, in the given order. |
| Description.MuchDescription | mucher.py:401-418 | Definition of the description text: the f-string's pieces joined by line feeds, with the `use` lines joined into one piece. `DescriptionLines` and `UseLinePerSheet` state how it reads line by line. |
| Description.DescriptionLines | mucher.py:401-418 | Read line by line, the script is an empty line, `directory ".";`, `seed <seed>;` and `serial <serial>;`. Then comes exactly one `use` line per sheet in the given order, or a single empty line when there are none, then `create <n>;`. |
| Description.UseLinePerSheet | mucher.py:408-418 | With at least one sheet, the script has exactly `sheets + 5` lines, and line `4 + k` is the `use` line of sheet `k`. |
| Description.ScriptIsJoinedLines | mucher.py:413-418 | The script text is its lines joined by line feeds, with no line feed after the last. |
| Description.ScriptLinesSingle | mucher.py:413-418 | No line of the script holds a line feed when no sheet name does. |
| Description.UseLineSingle | mucher.py:409 | A `use` line of a single-line sheet name is one line. |
| Description.IntToStringSingleLine | mucher.py:415-418 | A rendered integer holds no line feed. |
| Description.EveryRecordSelected | mucher.py:322-346 | Every record the parser writes is selected by the `"<sheet>-*"` pattern of one of the returned sheet names. |
| Description.PatternOverlap | mucher.py:335-337 | When a sheet name is another sheet's name followed by a dash, the two names differ and every record of the longer one starts with the shorter one's `<sheet>-` prefix. |
| Description.OverlapExample | mucher.py:408-411 | The record `a-1-0` of sheet `a-1` starts with `a-`, the prefix of the pattern of sheet `a`. |
| Grading.Grade | mucher.py:664-700 | An empty table is the error `EmptyResults`. Otherwise the method's results agree with the specification function of the whole run: the score column and the report it leaves, or the error of the first aborting row (a row of at least six columns whose given answers are text but whose correct answers are not). |
| Grading.GradeAll | mucher.py:664-700 | Definition of a grading run: the empty-table error, the error of the first aborting row (a row of at least six columns whose given answers are text but whose correct answers are not), or the score column with the report of all rows' questions. `GradeAllSpec`, `GradeAllCounts` and `GradeAllKeys` state its meaning. |
| Grading.ScoreRows | mucher.py:672-697 | The row loop gives the score column of all rows and leaves in the report every processed question counted row after row. It stops with the error of the first aborting row (a row of at least six columns whose given answers are text but whose correct answers are not). |
| Grading.ScoreRow | mucher.py:673-697 | A row aborts the run exactly when it has at least six columns and its given answers are text but its correct answers are not, and then the report is unchanged. Otherwise the result is the row's score cell: blank for a short row or non-text given answers, the student's score otherwise. Exactly the row's questions are counted into the report. |
| Grading.DecodeRow | mucher.py:643-648 | A row is unscored exactly when it has fewer than six columns or its given answers are not text. It aborts exactly when it is long enough and its given answers are text but its correct answers are not. |
| Grading.DecodeScorable | mucher.py:680-688 | The columns are read from both ends: the labels from column 3 up to the fourth-last, then the correct and given answers. |
| Grading.DecodeEncode | mucher.py:680-688 | Decoding a row laid out from named fields gives those fields back. |
| Grading.EncodeDecode | mucher.py:680-688 | Every scorable row is the layout of its decoded fields. |
| Grading.CalculateStudentScore | mucher.py:709-752 | The score is the sum of the weights of the zipped questions. The report gains exactly those questions, each counted under its category with its outcome. |
| Grading.CountQuestion | mucher.py:731-750 | One question scores the weight of its outcome. Its category is added with zeroed counters when new, and exactly the counter of its outcome grows by one. |
| Grading.InsertThenBump | mucher.py:738-750 | Inserting a missing category and then bumping its entry is counting the answer. |
| Grading.Category | mucher.py:731-735 | The category is the label minus its last two characters, or the whole label when shorter than two. It is a prefix of the label. |
| Grading.Classify | mucher.py:742-750 | An answer is missing exactly when it is `-`, whatever the correct answer is. It is correct exactly when it is not `-` and equals the correct answer, and incorrect otherwise. |
| Grading.AnswersZip | mucher.py:729 | A student has as many questions as the shortest of the correct answers, the given answers and the labels, and question `i` pairs the elements at position `i`. |
| Grading.Answers | mucher.py:729-735 | Definition of a student's questions: the correct answers, the given answers and the labels zipped, each question carrying the category of its label and its outcome. `AnswersZip` states its length and elements. |
| Grading.StudentScore | mucher.py:727-752 | A score is the number of correct, missing and incorrect answers, each times its weight. Those three add up to the number of zipped questions. |
| Grading.ScoreByCounts | mucher.py:741-750 | The sum of weights over any prefix is the counts times the weights. |
| Grading.CountsAddUp | mucher.py:741-750 | Every question has exactly one of the three outcomes. |
| Grading.WorkedExample | mucher.py:741-750 | Correct answers `ABCD`, given answers `A-CX` and weights 4, 1 and 0 give outcomes correct, missing, correct and incorrect, and the score 9. |
| Grading.GradeAllSpec | mucher.py:664-700 | A run fails exactly when the table is empty or some row is a row of at least six columns whose given answers are text but whose correct answers are not. The error names the first such row. Otherwise there is one score cell per row, blank for unscored rows, and a report with one entry per category whose counters add up to the number of processed questions. |
| Grading.SkippedRow | mucher.py:643-685 | A one-row table whose row is skipped, being shorter than six columns or having given answers that are not text, grades to a blank score and an empty report, whatever its correct-answers cell holds. |
| Grading.SkippedRowsDoNotAbort | mucher.py:672-685 | A three-cell row, and a seven-cell row whose given and correct answers are both non-text values, each get a blank score instead of aborting the run. |
| Grading.GradeAllCounts | mucher.py:672-750 | Each counter of the report is the number of processed questions of its category with its outcome, over all rows. |
| Grading.GradeAllKeys | mucher.py:738-739 | A category is in the report exactly when some scored row has a question of it. |
| Grading.ReportIndependentOfBatchOrder | mucher.py:672-697 | Grading two batches of students in either order gives the same categories with the same counters. Only the order of the entries can differ. |
| Grading.ScoresFail | mucher.py:672-697 | Scoring the first `n` rows fails exactly when one of them is a row of at least six columns whose given answers are text but whose correct answers are not. |
| Grading.ScoresError | mucher.py:672-697 | The error names the first such row. |
| Grading.ScoresSucceed | mucher.py:672-697 | A successful run has one score cell per row, in row order. |
| Grading.FailureStays | mucher.py:672-697 | After a failure, later rows do not change the error. |
| Grading.ScoresAbort | mucher.py:687-696 | A run that reaches a row of at least six columns whose given answers are text but whose correct answers are not fails with that row's error. |
| Grading.GradeStep | mucher.py:672-697 | A row that does not abort adds its score cell and counts exactly its questions. |
| Grading.ViewAt | mucher.py:672-673 | Every row is decoded on its own. |
| Grading.SheetAt | mucher.py:690-696 | Every row contributes exactly its own questions. |
| Grading.SheetsAppend | mucher.py:672-697 | The questions of two tables one after the other are the questions of each. |
| Tallies.RecordSpec | mucher.py:738-750 | Counting an answer finds or appends its category's entry and bumps exactly the counter of its outcome. The entry is appended at the end when the category is new. |
| Tallies.Record | mucher.py:738-750 | Definition of counting one answer in the report: bump the outcome's counter of the category's entry, appending a zeroed entry at the end first when the category is new. `RecordSpec` and `RecordOther` state its meaning. |
| Tallies.RecordOther | mucher.py:738-750 | Counting an answer leaves the counters of every other category unchanged. |
| Tallies.TallyCounts | mucher.py:729-750 | After counting a student's answers, each counter is its old value plus the number of those answers with its category and outcome. |
| Tallies.TallyKeys | mucher.py:738-739 | After counting, a category has an entry exactly when it had one before or one of the answers has it. |
| Tallies.TallyDistinct | mucher.py:738-739 | Counting keeps one entry per category. |
| Tallies.TallyNoIdleEntries | mucher.py:738-750 | Counting keeps every entry counted at least once. |
| Tallies.TallyTotal | mucher.py:741-750 | Counting `n` answers adds exactly `n` to the sum of all counters. |
| Tallies.RecordTotal | mucher.py:741-750 | Counting one answer adds one to the sum of all counters. |
| Tallies.SameCounters | mucher.py:729-750 | Answers with the same multiset give the same counters, so the order of a student's questions does not matter to the report. |
| Tallies.TallyOrderIndependent | mucher.py:729-750 | The report does not depend on the order in which answers are counted, up to the order of its entries. |
| Tallies.OccurrencesMultiset | mucher.py:729-750 | The number of occurrences of an answer is its multiplicity in the multiset of answers. |
| Tallies.HasIffEntry | mucher.py:738 | `category in report` holds exactly when some entry carries the category. |
| Tallies.FindDistinct | mucher.py:738-750 | In a report with one entry per category, lookup by key finds each entry where it is. |
| Tallies.FindSnoc | mucher.py:738-739 | Lookup after appending an entry finds the old entry, or the new one for a new category. |
| Tallies.HasIffCounted | mucher.py:738-750 | Without idle entries, a category has an entry exactly when one of its counters is positive. |
| Tallies.Bump | mucher.py:744-750 | Bumping raises the chosen counter by one. |
| Batches.BatchCounts | mucher.py:672-750 | Each counter of the batch report is the number of answers with its category and outcome on all sheets counted. |
| Batches.BatchTotal | mucher.py:672-750 | The counters of the batch report add up to the number of answers counted. |
| Batches.BatchDistinct | mucher.py:672-750 | The batch report has one entry per category. |
| Batches.BatchKeys | mucher.py:672-739 | A category is in the batch report exactly when some sheet has an answer of it. |
| Batches.BatchNoIdleEntries | mucher.py:672-750 | Every entry of the batch report has been counted at least once. |
| Batches.BatchOrderIndependent | mucher.py:672-697 | Two batches of sheets counted in either order give the same categories with the same counters. |
| Batches.BatchOrderCounts | mucher.py:672-697 | Two batches of sheets counted in either order give the same counter for every category and outcome. |
| Batches.OccurrencesAppend | mucher.py:672-697 | The occurrences on two batches one after the other add up. |
| Chart.SeriesOfEntries | mucher.py:781-792 | For a report with one entry per category, there is no chart data exactly when the report is empty. Otherwise there is one bar per entry, in report order. Its segments are the entry's three counters, looked up by key. The third segment starts on top of the first two, and the bar is as high as the entry's total. |
| Chart.ResponseSeries | mucher.py:781-792 | Definition of the chart data: none for an empty report, otherwise the keys in order, the three counters looked up per key, and the pairwise sum of correct and missing. `SeriesOfEntries` states its meaning. |
| Chart.ChartOfBatch | mucher.py:781-792 | The chart of a batch report is drawn exactly when some answer was counted. Its bars are distinct categories, each segment the number of answers of that category with that outcome. All bars together are as high as the number of answers counted. |
| Chart.ChartOfGrading | mucher.py:781-792 | The chart of a grading run is the chart of its batch of rows, drawn exactly when at least one question was processed. |
| Chart.BarsTotal | mucher.py:787-792 | All bars together are as high as the report's total. |
| Chart.BarsUpTo | mucher.py:787-792 | The first `n` bars together are as high as the first `n` entries' totals. |
| Chart.EmptyIffNothingCounted | mucher.py:781-783 | A report without idle entries is empty exactly when it counts nothing. |
| Chart.CategoriesAt | mucher.py:786 | The categories are the report's keys in insertion order. |
| Chart.ColumnAt | mucher.py:787-789 | A column holds each listed category's counter, looked up by key. |
| Chart.AddPairwiseAt | mucher.py:792 | Pairwise addition keeps as many positions as the shorter column and adds the two at each. |

## Left out

- I/O is not modelled: reading the workbook and the results table, writing files and logging. The workbook arrives as a list of sheets, and the first cell of each row as `Option<string>`. `None` stands for an empty row or a NaN cell. A results cell is text, or another value with the text Python's `str()` makes of it. The working folder is the log of the files written, and the grading results come back as values rather than an updated spreadsheet.
- Validating the input paths is not modelled. Neither are the template, running the external randomiser and document compiler, copying files, the pipeline of the generation run, argument parsing and configuration.
- Python's `str()` of a non-text bank cell is not modelled: the cell's text is taken as given.
- Output is not modelled: writing the score column into the spreadsheet (mucher.py:699-705), and drawing, labelling and saving the figure (mucher.py:794-815). The chart's empty-report warning is modelled as the absence of chart data.
- Rows of unequal length are allowed. A spreadsheet gives every row the same width, and no contract here depends on it.
- Grade, ScoreRows: the model returns the error instead of raising. No score column is produced for the partial run, as in the program.
- QuestionBank.WriteBank, Grading.ScoreRows and Grading.ScoreRow split the body of one source loop into a method each. They do not correspond to functions of the program.
- Idempotence of grading is not stated as its own lemma. Grading is a function of the table and the policy, and `Grade` is proved equal to it, so two runs over the same table agree.
