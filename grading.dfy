/**
 * The response scorer of the exam grader.
 *
 * A results table has one row per student. Columns 0 to 2 are metadata,
 * the columns from 3 up to the fourth-last hold one category label per
 * question, and the last three hold the correct-answer string, the given
 * answer string and the student's identifier. Every question scores one of
 * three weights and bumps one of three counters of its category in a
 * report shared by the whole batch.
 */
module Grading {
  import opened Wrappers
  import opened Tallies
  import opened Batches

  /** Rows with fewer columns are left unscored. */
  const MinColumnsRequired: nat := 6
  /** The first column holding a question label. */
  const QuestionsStart: nat := 3
  /** The given answer that marks a question left unanswered. */
  const MissingMark: char := '-'

  /**
   * A cell of the results table: text, or any other value together with the
   * text Python's `str()` makes of it.
   */
  datatype TableCell = Text(text: string) | Other(shown: string)

  /** Python's `str(cell)`. */
  function Shown(c: TableCell): string
  {
    match c
    case Text(s) => s
    case Other(s) => s
  }

  datatype Policy = Policy(pointsCorrect: int, pointsMissing: int, pointsIncorrect: int)

  /**
   * The category of a question label: the label without the two characters
   * of its block suffix, or the label itself when it is shorter than that.
   */
  function Category(question: string): (c: string)
    ensures c <= question

    ensures |c| == if |question| >= 2 then |question| - 2 else |question|
  {
    if |question| >= 2 then question[..|question| - 2] else question
  }

  /**
   * How a given answer counts: the missing mark first, whatever the correct
   * answer is, then equality.
   */
  function Classify(correct: char, given: char): (o: Outcome)
    ensures o == Missing <==> given == MissingMark
    ensures o == Correct <==> given != MissingMark && given == correct
    ensures o == Incorrect <==> given != MissingMark && given != correct
  {
    if given == MissingMark then Missing
    else if correct == given then Correct
    else Incorrect
  }

  function Min3(a: nat, b: nat, c: nat): (m: nat)
    ensures m <= a && m <= b && m <= c
    ensures m == a || m == b || m == c
  {
    if a <= b && a <= c then a else if b <= c then b else c
  }

  /** Question `i` of a student: the `i`-th label, correct answer and given answer. */
  function AnswerAt(correct: string, given: string, labels: seq<TableCell>, i: nat): Answer<string>
    requires i < |correct| && i < |given| && i < |labels|
  {
    Answer(Category(Shown(labels[i])), Classify(correct[i], given[i]))
  }

  /**
   * The questions processed for one student: the correct answers, the given
   * answers and the labels zipped together, so as many as the shortest of
   * the three, each pairing the elements at its own position.
   */
  function Answers(correct: string, given: string, labels: seq<TableCell>): seq<Answer<string>>
  {
    if correct == [] || given == [] || labels == [] then []
    else [AnswerAt(correct, given, labels, 0)] + Answers(correct[1..], given[1..], labels[1..])
  }

  /**
   * The zip holds as many questions as the shortest of the three
   * sequences, each pairing the elements at its own position.
   */
  lemma {:induction false} AnswersZip(correct: string, given: string, labels: seq<TableCell>)
    ensures |Answers(correct, given, labels)| == Min3(|correct|, |given|, |labels|)
    ensures forall i :: 0 <= i < |Answers(correct, given, labels)| ==>
      Answers(correct, given, labels)[i] == AnswerAt(correct, given, labels, i)
  {
    if correct != [] && given != [] && labels != [] {
      AnswersZip(correct[1..], given[1..], labels[1..]);
    }
  }

  function Weight(p: Policy, o: Outcome): int
  {
    match o
    case Correct => p.pointsCorrect
    case Missing => p.pointsMissing
    case Incorrect => p.pointsIncorrect
  }

  /** The sum of the weights of the first `n` answers. */
  function ScoreUpTo(p: Policy, answers: seq<Answer<string>>, n: nat): int
    requires n <= |answers|
  {
    if n == 0 then 0 else ScoreUpTo(p, answers, n - 1) + Weight(p, answers[n - 1].outcome)
  }

  /** The sum of the weights of the answers. */
  function Score(p: Policy, answers: seq<Answer<string>>): int
  {
    ScoreUpTo(p, answers, |answers|)
  }

  /** How many of the first `n` answers have outcome `o`. */
  function CountUpTo(answers: seq<Answer<string>>, o: Outcome, n: nat): nat
    requires n <= |answers|
  {
    if n == 0 then 0 else CountUpTo(answers, o, n - 1) + (if answers[n - 1].outcome == o then 1 else 0)
  }

  /** Every answer has exactly one of the three outcomes. */
  lemma {:induction false} CountsAddUp(answers: seq<Answer<string>>, n: nat)
    requires n <= |answers|
    ensures CountUpTo(answers, Correct, n) + CountUpTo(answers, Missing, n) + CountUpTo(answers, Incorrect, n) == n
  {
    if n > 0 {
      CountsAddUp(answers, n - 1);
    }
  }

  lemma MulStep(w: int, c: int, b: bool)
    ensures w * (c + (if b then 1 else 0)) == w * c + (if b then w else 0)
  {
  }

  /** A score is the number of correct, missing and incorrect answers, each times its weight. */
  lemma {:induction false} ScoreByCounts(p: Policy, answers: seq<Answer<string>>, n: nat)
    requires n <= |answers|
    ensures ScoreUpTo(p, answers, n) ==
      p.pointsCorrect * CountUpTo(answers, Correct, n)
      + p.pointsMissing * CountUpTo(answers, Missing, n)
      + p.pointsIncorrect * CountUpTo(answers, Incorrect, n)
  {
    if n > 0 {
      ScoreByCounts(p, answers, n - 1);
      var o := answers[n - 1].outcome;
      MulStep(p.pointsCorrect, CountUpTo(answers, Correct, n - 1), o == Correct);
      MulStep(p.pointsMissing, CountUpTo(answers, Missing, n - 1), o == Missing);
      MulStep(p.pointsIncorrect, CountUpTo(answers, Incorrect, n - 1), o == Incorrect);
    }
  }

  /**
   * A student's score depends only on how many of their questions are
   * correct, missing and incorrect, and those three add up to the number of
   * questions processed.
   */
  lemma StudentScore(p: Policy, correct: string, given: string, labels: seq<TableCell>)
    ensures var a := Answers(correct, given, labels);
      Score(p, a) == p.pointsCorrect * CountUpTo(a, Correct, |a|)
        + p.pointsMissing * CountUpTo(a, Missing, |a|)
        + p.pointsIncorrect * CountUpTo(a, Incorrect, |a|)
      && CountUpTo(a, Correct, |a|) + CountUpTo(a, Missing, |a|) + CountUpTo(a, Incorrect, |a|)
        == Min3(|correct|, |given|, |labels|)
  {
    var a := Answers(correct, given, labels);
    AnswersZip(correct, given, labels);
    ScoreByCounts(p, a, |a|);
    CountsAddUp(a, |a|);
  }

  // ---------------------------------------------------------------------
  // Rows

  /** What one row of the results table is to the scorer. */
  datatype RowView =
    | Unscored
    | Scorable(correct: string, given: string, labels: seq<TableCell>)
    | CorrectNotText

  /**
   * Decodes the column layout: too few columns or a given-answer cell that is
   * not text leave the row unscored, whatever the correct-answer cell holds;
   * in a row that passes both checks, a correct-answer cell that is not text
   * cannot be iterated; otherwise the layout counts from both ends.
   */
  function DecodeRow(row: seq<TableCell>): (v: RowView)
    ensures v.Unscored? <==> |row| < MinColumnsRequired || !row[|row| - 2].Text?
    ensures v.CorrectNotText? <==> |row| >= MinColumnsRequired && row[|row| - 2].Text? && !row[|row| - 3].Text?
  {
    if |row| < MinColumnsRequired then Unscored
    else
      var givenAnswers := row[|row| - 2];
      if !givenAnswers.Text? then Unscored
      else
        var correctAnswers := row[|row| - 3];
        if !correctAnswers.Text? then CorrectNotText
        else Scorable(correctAnswers.text, givenAnswers.text, row[QuestionsStart..|row| - 3])
  }

  /** A row laid out from named fields: three metadata cells, the labels, the two answer strings, the student. */
  function EncodeRow(meta: seq<TableCell>, labels: seq<TableCell>, correct: string, given: string, student: TableCell): seq<TableCell>
    requires |meta| == QuestionsStart
  {
    meta + labels + [Text(correct), Text(given), student]
  }

  /** Decoding a row laid out from named fields gives back its fields. */
  lemma DecodeEncode(meta: seq<TableCell>, labels: seq<TableCell>, correct: string, given: string, student: TableCell)
    requires |meta| == QuestionsStart
    ensures DecodeRow(EncodeRow(meta, labels, correct, given, student)) == Scorable(correct, given, labels)
  {
    var row := EncodeRow(meta, labels, correct, given, student);
    assert row[QuestionsStart..|row| - 3] == labels;
  }

  /** Every scorable row is the layout of its decoded fields. */
  lemma EncodeDecode(row: seq<TableCell>)
    requires DecodeRow(row).Scorable?
    ensures var v := DecodeRow(row);
      row == EncodeRow(row[..QuestionsStart], v.labels, v.correct, v.given, row[|row| - 1])
  {
    var v := DecodeRow(row);
    assert row == row[..QuestionsStart] + v.labels + [row[|row| - 3], row[|row| - 2], row[|row| - 1]];
  }

  // ---------------------------------------------------------------------
  // The batch

  datatype ScoreCell = Blank | Points(value: int)

  datatype GradeError = EmptyResults | CorrectAnswersNotText(row: nat)

  /** The outcome of a grading run: the score column and the report. */
  datatype Graded = Graded(scores: seq<ScoreCell>, report: Tally<string>)

  /** The questions a decoded row contributes, none for a row that is not scorable. */
  function ViewAnswers(v: RowView): seq<Answer<string>>
  {
    match v
    case Scorable(c, g, l) => Answers(c, g, l)
    case _ => []
  }

  /** The score cell of a decoded row: blank for a row that is not scored. */
  function ViewScore(p: Policy, v: RowView): ScoreCell
  {
    match v
    case Scorable(c, g, l) => Points(Score(p, Answers(c, g, l)))
    case _ => Blank
  }

  /** The rows of a table as the scorer sees them. */
  function Views(rows: seq<seq<TableCell>>): (vs: seq<RowView>)
    ensures |vs| == |rows|
  {
    if rows == [] then [] else Views(rows[..|rows| - 1]) + [DecodeRow(rows[|rows| - 1])]
  }

  /** Each row is decoded on its own. */
  lemma {:induction false} ViewAt(rows: seq<seq<TableCell>>, i: nat)
    requires i < |rows|
    ensures Views(rows)[i] == DecodeRow(rows[i])
  {
    if i < |rows| - 1 {
      ViewAt(rows[..|rows| - 1], i);
    }
  }

  /** The score column of the first `n` rows, or the error of the first row that aborts the run. */
  function ScoresUpTo(p: Policy, vs: seq<RowView>, n: nat): Result<seq<ScoreCell>, GradeError>
    requires n <= |vs|
  {
    if n == 0 then Success([])
    else match ScoresUpTo(p, vs, n - 1)
      case Failure(e) => Failure(e)
      case Success(scores) =>
        if vs[n - 1].CorrectNotText? then Failure(CorrectAnswersNotText(n - 1))
        else Success(scores + [ViewScore(p, vs[n - 1])])
  }

  /** The answer sheets of the rows, one per row, empty for a row that is not scored. */
  function Sheets(vs: seq<RowView>): (r: seq<AnswerSheet<string>>)
    ensures |r| == |vs|
  {
    if vs == [] then [] else Sheets(vs[..|vs| - 1]) + [ViewAnswers(vs[|vs| - 1])]
  }

  /** Each row contributes its own answers. */
  lemma {:induction false} SheetAt(vs: seq<RowView>, i: nat)
    requires i < |vs|
    ensures Sheets(vs)[i] == ViewAnswers(vs[i])
  {
    if i < |vs| - 1 {
      SheetAt(vs[..|vs| - 1], i);
    }
  }

  /** The report after the first `n` rows: their answers counted row after row. */
  function BatchReport(vs: seq<RowView>, n: nat): Tally<string>
    requires n <= |vs|
  {
    TallyBatch(Sheets(vs), n)
  }

  /** A table without rows or without columns. */
  predicate TableEmpty(rows: seq<seq<TableCell>>)
  {
    forall i :: 0 <= i < |rows| ==> |rows[i]| == 0
  }

  /** Grades the whole table. */
  function GradeAll(p: Policy, rows: seq<seq<TableCell>>): Result<Graded, GradeError>
  {
    var vs := Views(rows);
    if TableEmpty(rows) then Failure(EmptyResults)
    else match ScoresUpTo(p, vs, |vs|)
      case Failure(e) => Failure(e)
      case Success(scores) => Success(Graded(scores, BatchReport(vs, |vs|)))
  }

  /**
   * Scoring the first `n` rows fails exactly when one of them aborts: it has
   * enough columns and text given answers, but correct answers that are not text.
   */
  lemma {:induction false} ScoresFail(p: Policy, vs: seq<RowView>, n: nat)
    requires n <= |vs|
    ensures ScoresUpTo(p, vs, n).Failure? <==> exists i :: 0 <= i < n && vs[i].CorrectNotText?
  {
    if n > 0 {
      ScoresFail(p, vs, n - 1);
    }
  }

  /** A failed run names the first row that aborts. */
  lemma {:induction false} ScoresError(p: Policy, vs: seq<RowView>, n: nat)
    requires n <= |vs|
    requires ScoresUpTo(p, vs, n).Failure?
    ensures ScoresUpTo(p, vs, n).error.CorrectAnswersNotText?
    ensures var i := ScoresUpTo(p, vs, n).error.row;
      && i < n && vs[i].CorrectNotText?
      && forall j :: 0 <= j < i ==> !vs[j].CorrectNotText?
  {
    if ScoresUpTo(p, vs, n - 1).Failure? {
      ScoresError(p, vs, n - 1);
    } else {
      ScoresFail(p, vs, n - 1);
    }
  }

  /** A successful run writes one score cell per row, in row order. */
  lemma {:induction false} ScoresSucceed(p: Policy, vs: seq<RowView>, n: nat)
    requires n <= |vs|
    requires ScoresUpTo(p, vs, n).Success?
    ensures |ScoresUpTo(p, vs, n).value| == n
    ensures forall i :: 0 <= i < n ==> ScoresUpTo(p, vs, n).value[i] == ViewScore(p, vs[i])
  {
    if n > 0 {
      ScoresSucceed(p, vs, n - 1);
    }
  }

  /** Once a run has failed, later rows do not change the error. */
  lemma {:induction false} FailureStays(p: Policy, vs: seq<RowView>, m: nat, n: nat)
    requires m <= n <= |vs|
    requires ScoresUpTo(p, vs, m).Failure?
    ensures ScoresUpTo(p, vs, n) == ScoresUpTo(p, vs, m)
  {
    if n > m {
      FailureStays(p, vs, m, n - 1);
    }
  }

  /**
   * Grading a table: an empty table, or one with a row of enough columns and
   * text given answers whose correct answers are not text, is an error, and
   * the error names the first such row;
   * otherwise exactly one score cell per row, blank for the unscored rows,
   * and a report with one entry per category whose counters add up to the
   * number of processed questions.
   */
  lemma GradeAllSpec(p: Policy, rows: seq<seq<TableCell>>)
    ensures GradeAll(p, rows).Failure? <==>
      TableEmpty(rows) || exists i :: 0 <= i < |rows| && DecodeRow(rows[i]).CorrectNotText?
    ensures GradeAll(p, rows).Failure? && !TableEmpty(rows) ==>
      && GradeAll(p, rows).error.CorrectAnswersNotText?
      && var i := GradeAll(p, rows).error.row;
        && i < |rows| && DecodeRow(rows[i]).CorrectNotText?
        && forall j :: 0 <= j < i ==> !DecodeRow(rows[j]).CorrectNotText?
    ensures GradeAll(p, rows).Success? ==>
      && |GradeAll(p, rows).value.scores| == |rows|
      && (forall i :: 0 <= i < |rows| ==> GradeAll(p, rows).value.scores[i] == ViewScore(p, DecodeRow(rows[i])))
      && Distinct(GradeAll(p, rows).value.report)
      && Total(GradeAll(p, rows).value.report) == Processed(Sheets(Views(rows)), |rows|)
  {
    var vs := Views(rows);
    forall i | 0 <= i < |rows| ensures vs[i] == DecodeRow(rows[i]) {
      ViewAt(rows, i);
    }
    ScoresFail(p, vs, |vs|);
    if ScoresUpTo(p, vs, |vs|).Failure? {
      ScoresError(p, vs, |vs|);
    } else {
      ScoresSucceed(p, vs, |vs|);
      BatchDistinct(Sheets(vs), |vs|);
      BatchTotal(Sheets(vs), |vs|);
    }
  }

  /**
   * A table of one row that is skipped before the answers are zipped grades
   * to a blank score and an empty report, whatever its correct-answer cell
   * holds.
   */
  lemma SkippedRow(p: Policy, row: seq<TableCell>)
    requires |row| > 0 && DecodeRow(row).Unscored?
    ensures GradeAll(p, [row]) == Success(Graded([Blank], []))
  {
    ViewAt([row], 0);
    SheetAt(Views([row]), 0);
    assert !TableEmpty([row]) by { assert |[row][0]| != 0; }
    var vs := Views([row]);
    assert vs == [Unscored];
    assert ScoresUpTo(p, vs, 1) == Success([] + [Blank]);
    assert Sheets(vs)[0] == ViewAnswers(Unscored) == [];
    assert TallyBatch(Sheets(vs), 1) == TallyAll(TallyBatch(Sheets(vs), 0), []);
    assert TallyAll<string>([], []) == [];
    assert ScoresUpTo(p, vs, 1).value == [Blank];
    assert BatchReport(vs, 1) == [];
    assert GradeAll(p, [row]) == Success(Graded(ScoresUpTo(p, vs, 1).value, BatchReport(vs, 1)));
  }

  /**
   * Skipped rows never abort the run: a short row and a row whose given
   * answers are not text each get a blank score, even when the cell where
   * the correct answers would be is not text.
   */
  lemma SkippedRowsDoNotAbort(p: Policy)
    ensures GradeAll(p, [[Other("x"), Text("A"), Text("B")]]) == Success(Graded([Blank], []))
    ensures GradeAll(p, [[Text("s"), Text("n"), Text("c"), Text("q1"), Other("nan"), Other("nan"), Text("id")]])
      == Success(Graded([Blank], []))
  {
    SkippedRow(p, [Other("x"), Text("A"), Text("B")]);
    SkippedRow(p, [Text("s"), Text("n"), Text("c"), Text("q1"), Other("nan"), Other("nan"), Text("id")]);
  }

  /**
   * The report of a run counts, for each category and outcome, the
   * processed questions that have them, over all scored rows.
   */
  lemma GradeAllCounts(p: Policy, rows: seq<seq<TableCell>>, c: string, o: Outcome)
    requires GradeAll(p, rows).Success?
    ensures Counter(Get(GradeAll(p, rows).value.report, c), o) ==
      BatchOccurrences(Sheets(Views(rows)), Answer(c, o), |rows|)
  {
    BatchCounts(Sheets(Views(rows)), |rows|, c, o);
  }

  /** A category is in the report of a run exactly when some scored row has a question of it. */
  lemma GradeAllKeys(p: Policy, rows: seq<seq<TableCell>>, k: string)
    requires GradeAll(p, rows).Success?
    ensures Has(GradeAll(p, rows).value.report, k) <==>
      exists i :: 0 <= i < |rows| && Covers(ViewAnswers(DecodeRow(rows[i])), k)
  {
    var vs := Views(rows);
    BatchKeys(Sheets(vs), |rows|, k);
    forall i | 0 <= i < |rows| ensures Sheets(vs)[i] == ViewAnswers(DecodeRow(rows[i])) {
      ViewAt(rows, i);
      SheetAt(vs, i);
    }
  }

  /** The answer sheets of two tables one after the other. */
  lemma SheetsAppend(xs: seq<seq<TableCell>>, ys: seq<seq<TableCell>>)
    ensures Sheets(Views(xs + ys)) == Sheets(Views(xs)) + Sheets(Views(ys))
  {
    var l, r := Sheets(Views(xs + ys)), Sheets(Views(xs)) + Sheets(Views(ys));
    forall i | 0 <= i < |l|
      ensures l[i] == r[i]
    {
      ViewAt(xs + ys, i);
      SheetAt(Views(xs + ys), i);
      if i < |xs| {
        ViewAt(xs, i);
        SheetAt(Views(xs), i);
        assert (xs + ys)[i] == xs[i];
      } else {
        ViewAt(ys, i - |xs|);
        SheetAt(Views(ys), i - |xs|);
        assert (xs + ys)[i] == ys[i - |xs|];
      }
    }
  }

  /**
   * Grading two batches of students in either order gives the same report,
   * up to the order of its entries: the same categories, each with the same
   * counters.
   */
  lemma ReportIndependentOfBatchOrder(p: Policy, xs: seq<seq<TableCell>>, ys: seq<seq<TableCell>>, k: string)
    requires GradeAll(p, xs + ys).Success? && GradeAll(p, ys + xs).Success?
    ensures Has(GradeAll(p, xs + ys).value.report, k) == Has(GradeAll(p, ys + xs).value.report, k)
    ensures Get(GradeAll(p, xs + ys).value.report, k) == Get(GradeAll(p, ys + xs).value.report, k)
  {
    SheetsAppend(xs, ys);
    SheetsAppend(ys, xs);
    BatchOrderIndependent(Sheets(Views(xs)), Sheets(Views(ys)), k);
  }

  /** The report dictionary shared by all students of one grading run. */
  class Report {
    var entries: Tally<string>

    constructor ()
      ensures entries == []
    {
      entries := [];
    }
  }

  /**
   * Adding the category with zeroed counters when it is missing and then
   * bumping its entry is counting the answer.
   */
  lemma InsertThenBump(t: Tally<string>, a: Answer<string>)
    ensures var t1 := if Has(t, a.category) then t else t + [Entry(a.category, NoCounts)];
      && Has(t1, a.category)
      && Record(t, a) == t1[Find(t1, a.category).value := Entry(a.category, Bump(t1[Find(t1, a.category).value].counts, a.outcome))]
  {
    RecordFromFind(t, a, 0);
    FindSnoc(t, Entry(a.category, NoCounts), a.category);
    if !Has(t, a.category) {
      var t1 := t + [Entry(a.category, NoCounts)];
      assert t1[|t| := Entry(a.category, Bump(NoCounts, a.outcome))] == t + [Entry(a.category, Bump(NoCounts, a.outcome))];
    }
  }

  /** Scores one question and counts it into `report`, in place. */
  method CountQuestion(p: Policy, correct: char, given: char, category: string, report: Report) returns (points: int)
    modifies report
    ensures points == Weight(p, Classify(correct, given))
    ensures report.entries == Record(old(report.entries), Answer(category, Classify(correct, given)))
  {
    InsertThenBump(report.entries, Answer(category, Classify(correct, given)));
    if !Has(report.entries, category) {
      report.entries := report.entries + [Entry(category, NoCounts)];
    }
    var idx := Find(report.entries, category).value;
    var counts := report.entries[idx].counts;
    if given == MissingMark {
      points := p.pointsMissing;
      report.entries := report.entries[idx := Entry(category, counts.(missing := counts.missing + 1))];
    } else if correct == given {
      points := p.pointsCorrect;
      report.entries := report.entries[idx := Entry(category, counts.(correct := counts.correct + 1))];
    } else {
      points := p.pointsIncorrect;
      report.entries := report.entries[idx := Entry(category, counts.(incorrect := counts.incorrect + 1))];
    }
  }

  /**
   * Scores one student and counts their answers into `report`, in place;
   * the questions are the zip of the three sequences.
   */
  method CalculateStudentScore(p: Policy, correctAnswers: string, givenAnswers: string, questions: seq<TableCell>,
                               report: Report) returns (totalScore: int)
    modifies report
    ensures totalScore == Score(p, Answers(correctAnswers, givenAnswers, questions))
    ensures report.entries == TallyAll(old(report.entries), Answers(correctAnswers, givenAnswers, questions))
  {
    ghost var answers := Answers(correctAnswers, givenAnswers, questions);
    AnswersZip(correctAnswers, givenAnswers, questions);
    var n := Min3(|correctAnswers|, |givenAnswers|, |questions|);
    totalScore := 0;
    for i := 0 to n
      invariant totalScore == ScoreUpTo(p, answers, i)
      invariant report.entries == TallyUpTo(old(report.entries), answers, i)
    {
      var correct, given, question := correctAnswers[i], givenAnswers[i], questions[i];
      var category := Category(Shown(question));
      var points := CountQuestion(p, correct, given, category, report);
      totalScore := totalScore + points;
    }
  }

  /** A row whose layout the scorer accepts decodes to its two answer strings and its labels. */
  lemma DecodeScorable(row: seq<TableCell>)
    requires |row| >= MinColumnsRequired && row[|row| - 2].Text? && row[|row| - 3].Text?
    ensures DecodeRow(row) == Scorable(row[|row| - 3].text, row[|row| - 2].text, row[QuestionsStart..|row| - 3])
  {
  }

  /** One more row that does not abort the run adds its score cell and its answers. */
  lemma GradeStep(p: Policy, vs: seq<RowView>, i: nat, scores: seq<ScoreCell>)
    requires i < |vs| && !vs[i].CorrectNotText?
    requires ScoresUpTo(p, vs, i) == Success(scores)
    ensures ScoresUpTo(p, vs, i + 1) == Success(scores + [ViewScore(p, vs[i])])
    ensures BatchReport(vs, i + 1) == TallyAll(BatchReport(vs, i), ViewAnswers(vs[i]))
  {
    SheetAt(vs, i);
  }

  /** A run that reaches a row that aborts fails there. */
  lemma ScoresAbort(p: Policy, vs: seq<RowView>, i: nat)
    requires i < |vs| && vs[i].CorrectNotText? && ScoresUpTo(p, vs, i).Success?
    ensures ScoresUpTo(p, vs, |vs|) == Failure(CorrectAnswersNotText(i))
  {
    FailureStays(p, vs, i + 1, |vs|);
  }

  /**
   * Scores one row of the results table into `report`, in place: a blank
   * cell for a row that is too short or has no given answers, the student's
   * score otherwise, and nothing when the given answers are text but the
   * correct answers are not, which aborts the run.
   */
  method ScoreRow(p: Policy, row: seq<TableCell>, report: Report) returns (cell: Option<ScoreCell>)
    modifies report
    ensures cell.None? <==> DecodeRow(row).CorrectNotText?
    ensures cell.Some? ==> cell.value == ViewScore(p, DecodeRow(row))
    ensures cell.Some? ==> report.entries == TallyAll(old(report.entries), ViewAnswers(DecodeRow(row)))
    ensures cell.None? ==> report.entries == old(report.entries)
  {
    if |row| < MinColumnsRequired {
      return Some(Blank);
    }
    var givenAnswers := row[|row| - 2];
    if !givenAnswers.Text? {
      return Some(Blank);
    }
    var correctAnswers := row[|row| - 3];
    if !correctAnswers.Text? {
      // zip cannot iterate a value that is not text
      return None;
    }
    var questions := row[QuestionsStart..|row| - 3];
    DecodeScorable(row);
    var studentScore := CalculateStudentScore(p, correctAnswers.text, givenAnswers.text, questions, report);
    return Some(Points(studentScore));
  }

  /**
   * The row loop of `ExamGrader.grade`: scores every row into `report`, which
   * starts empty, and stops at the first row whose correct answers are not
   * text. The result is the score column of the rows, or that row's error.
   */
  method ScoreRows(p: Policy, rows: seq<seq<TableCell>>, report: Report) returns (result: Result<seq<ScoreCell>, GradeError>)
    requires report.entries == []
    modifies report
    ensures result == ScoresUpTo(p, Views(rows), |rows|)
    ensures result.Success? ==> report.entries == BatchReport(Views(rows), |rows|)
  {
    ghost var vs := Views(rows);
    var scores: seq<ScoreCell> := [];
    for rowIdx := 0 to |rows|
      invariant ScoresUpTo(p, vs, rowIdx) == Success(scores)
      invariant report.entries == BatchReport(vs, rowIdx)
    {
      ViewAt(rows, rowIdx);
      var cell := ScoreRow(p, rows[rowIdx], report);
      if cell.None? {
        ScoresAbort(p, vs, rowIdx);
        return Failure(CorrectAnswersNotText(rowIdx));
      }
      GradeStep(p, vs, rowIdx, scores);
      scores := scores + [cell.value];
    }
    return Success(scores);
  }

  /**
   * Grades every row of the results table: one score cell per row and the
   * report of the whole batch; an empty table is an error.
   */
  method Grade(p: Policy, rows: seq<seq<TableCell>>) returns (result: Result<seq<ScoreCell>, GradeError>, report: Report)
    ensures fresh(report)
    ensures GradeAll(p, rows) == match result
      case Success(scores) => Success(Graded(scores, report.entries))
      case Failure(e) => Failure(e)
  {
    report := new Report();
    if TableEmpty(rows) {
      return Failure(EmptyResults), report;
    }
    result := ScoreRows(p, rows, report);
  }

  /**
   * The worked example: correct answers "ABCD", given answers "A-CX" and
   * weights 4, 1 and 0 score 9, with answers correct, missing, correct and
   * incorrect.
   */
  lemma WorkedExample(labels: seq<TableCell>)
    requires |labels| == 4
    ensures var a := Answers("ABCD", "A-CX", labels);
      |a| == 4
      && a[0].outcome == Correct && a[1].outcome == Missing
      && a[2].outcome == Correct && a[3].outcome == Incorrect
      && Score(Policy(4, 1, 0), a) == 9
  {
    var p, a := Policy(4, 1, 0), Answers("ABCD", "A-CX", labels);
    AnswersZip("ABCD", "A-CX", labels);
    assert a[0].outcome == Correct && a[1].outcome == Missing;
    assert a[2].outcome == Correct && a[3].outcome == Incorrect;
    assert ScoreUpTo(p, a, 1) == 4;
    assert ScoreUpTo(p, a, 2) == 5;
    assert ScoreUpTo(p, a, 3) == 9;
  }
}
