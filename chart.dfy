/**
 * The data behind the response chart: one stacked bar per category of the
 * report, in the order of the report, made of the correct, the missing and
 * the incorrect answers of that category. Drawing and saving the figure are
 * not modelled; only the series handed to the plotting library are.
 */
module Chart {
  import opened Wrappers
  import opened Tallies
  import opened Batches
  import opened Grading

  /**
   * The series of the chart: the category of each bar, the height of each of
   * its three segments, and where the third segment starts.
   */
  datatype Series<K> = Series(categories: seq<K>, correct: seq<nat>, missing: seq<nat>,
                              incorrect: seq<nat>, correctPlusMissing: seq<nat>)

  /** The keys of the report dictionary, in insertion order. */
  function Categories<K>(t: Tally<K>): seq<K>
  {
    if t == [] then [] else Categories(t[..|t| - 1]) + [t[|t| - 1].category]
  }

  /** One counter of every listed category, each looked up in the report by its key. */
  function Column<K(==)>(t: Tally<K>, keys: seq<K>, o: Outcome): seq<nat>
  {
    if keys == [] then [] else Column(t, keys[..|keys| - 1], o) + [Counter(Get(t, keys[|keys| - 1]), o)]
  }

  /** Two columns added position by position, as far as the shorter one goes. */
  function AddPairwise(xs: seq<nat>, ys: seq<nat>): seq<nat>
  {
    if xs == [] || ys == [] then [] else [xs[0] + ys[0]] + AddPairwise(xs[1..], ys[1..])
  }

  /** The chart data of a report; nothing is drawn for an empty report. */
  function ResponseSeries<K(==)>(t: Tally<K>): Option<Series<K>>
  {
    if t == [] then None
    else
      var categories := Categories(t);
      var correct := Column(t, categories, Correct);
      var missing := Column(t, categories, Missing);
      Some(Series(categories, correct, missing, Column(t, categories, Incorrect), AddPairwise(correct, missing)))
  }

  /** The keys are the categories of the entries, position by position. */
  lemma {:induction false} CategoriesAt<K>(t: Tally<K>)
    ensures |Categories(t)| == |t|
    ensures forall i :: 0 <= i < |t| ==> Categories(t)[i] == t[i].category
  {
    if t != [] {
      CategoriesAt(t[..|t| - 1]);
    }
  }

  /** A column holds the looked-up counter of each key, position by position. */
  lemma {:induction false} ColumnAt<K>(t: Tally<K>, keys: seq<K>, o: Outcome)
    ensures |Column(t, keys, o)| == |keys|
    ensures forall i :: 0 <= i < |keys| ==> Column(t, keys, o)[i] == Counter(Get(t, keys[i]), o)
  {
    if keys != [] {
      ColumnAt(t, keys[..|keys| - 1], o);
    }
  }

  /** Adding pairwise keeps as many positions as the shorter column and adds the two at each. */
  lemma {:induction false} AddPairwiseAt(xs: seq<nat>, ys: seq<nat>)
    ensures |AddPairwise(xs, ys)| == if |xs| <= |ys| then |xs| else |ys|
    ensures forall i :: 0 <= i < |AddPairwise(xs, ys)| ==> AddPairwise(xs, ys)[i] == xs[i] + ys[i]
  {
    if xs != [] && ys != [] {
      AddPairwiseAt(xs[1..], ys[1..]);
    }
  }

  /**
   * The chart of a report without repeated categories has one bar per entry,
   * in report order: its segments are the entry's three counters, the third
   * segment starts on top of the first two, and the bar is as high as the
   * number of answers the entry counts.
   */
  lemma SeriesOfEntries<K>(t: Tally<K>)
    requires Distinct(t)
    ensures ResponseSeries(t).None? <==> t == []
    ensures ResponseSeries(t).Some? ==>
      var s := ResponseSeries(t).value;
      && |s.categories| == |s.correct| == |s.missing| == |s.incorrect| == |s.correctPlusMissing| == |t|
      && forall i :: 0 <= i < |t| ==>
        && s.categories[i] == t[i].category
        && s.correct[i] == t[i].counts.correct
        && s.missing[i] == t[i].counts.missing
        && s.incorrect[i] == t[i].counts.incorrect
        && s.correctPlusMissing[i] == t[i].counts.correct + t[i].counts.missing
        && s.correctPlusMissing[i] + s.incorrect[i] == Size(t[i].counts)
  {
    if t != [] {
      var ks := Categories(t);
      CategoriesAt(t);
      ColumnAt(t, ks, Correct);
      ColumnAt(t, ks, Missing);
      ColumnAt(t, ks, Incorrect);
      AddPairwiseAt(Column(t, ks, Correct), Column(t, ks, Missing));
      forall i | 0 <= i < |t| ensures Get(t, ks[i]) == t[i].counts {
        FindDistinct(t, i);
      }
    }
  }

  /** The sum of the first `n` numbers of a column. */
  function SumUpTo(xs: seq<nat>, n: nat): nat
    requires n <= |xs|
  {
    if n == 0 then 0 else SumUpTo(xs, n - 1) + xs[n - 1]
  }

  function Sum(xs: seq<nat>): nat
  {
    SumUpTo(xs, |xs|)
  }

  /** The first `n` bars together are as high as the first `n` entries count answers. */
  lemma {:induction false} BarsUpTo<K>(t: Tally<K>, s: Series<K>, n: nat)
    requires n <= |t| == |s.correctPlusMissing| == |s.incorrect|
    requires forall i :: 0 <= i < |t| ==> s.correctPlusMissing[i] + s.incorrect[i] == Size(t[i].counts)
    ensures SumUpTo(s.correctPlusMissing, n) + SumUpTo(s.incorrect, n) == TotalUpTo(t, n)
  {
    if n > 0 {
      BarsUpTo(t, s, n - 1);
    }
  }

  /** All bars of the chart together are as high as the report counts answers. */
  lemma BarsTotal<K>(t: Tally<K>)
    requires Distinct(t) && t != []
    ensures Sum(ResponseSeries(t).value.correctPlusMissing) + Sum(ResponseSeries(t).value.incorrect) == Total(t)
  {
    SeriesOfEntries(t);
    BarsUpTo(t, ResponseSeries(t).value, |t|);
  }

  /** A report without idle entries is empty exactly when it counts no answer. */
  lemma EmptyIffNothingCounted<K>(t: Tally<K>)
    requires NoIdleEntries(t)
    ensures t == [] <==> Total(t) == 0
  {
    if t != [] {
      assert Size(t[|t| - 1].counts) > 0;
    }
  }

  /**
   * The chart of the report of a batch of answer sheets: it is drawn exactly
   * when at least one answer was counted; its bars are the categories met,
   * in the order first met, each segment the number of answers of that
   * category with that outcome, and all bars together as high as the number
   * of answers counted.
   */
  lemma ChartOfBatch<K>(sheets: seq<AnswerSheet<K>>, n: nat)
    requires n <= |sheets|
    ensures var t := TallyBatch(sheets, n);
      && (ResponseSeries(t).None? <==> Processed(sheets, n) == 0)
      && (ResponseSeries(t).Some? ==>
        var s := ResponseSeries(t).value;
        && |s.categories| == |s.correct| == |s.missing| == |s.incorrect| == |t|
        && (forall i, j :: 0 <= i < j < |t| ==> s.categories[i] != s.categories[j])
        && (forall i :: 0 <= i < |t| ==>
          && s.correct[i] == BatchOccurrences(sheets, Answer(s.categories[i], Correct), n)
          && s.missing[i] == BatchOccurrences(sheets, Answer(s.categories[i], Missing), n)
          && s.incorrect[i] == BatchOccurrences(sheets, Answer(s.categories[i], Incorrect), n))
        && Sum(s.correctPlusMissing) + Sum(s.incorrect) == Processed(sheets, n))
  {
    var t := TallyBatch(sheets, n);
    BatchDistinct(sheets, n);
    BatchTotal(sheets, n);
    BatchNoIdleEntries(sheets, n);
    EmptyIffNothingCounted(t);
    SeriesOfEntries(t);
    if t != [] {
      BarsTotal(t);
      forall i, o | 0 <= i < |t|
        ensures Counter(t[i].counts, o) == BatchOccurrences(sheets, Answer(t[i].category, o), n)
      {
        BatchCounts(sheets, n, t[i].category, o);
        FindDistinct(t, i);
      }
    }
  }

  /**
   * The chart of a successful grading run is the chart of the batch of its
   * rows' answer sheets: drawn exactly when at least one question was
   * processed, with the counts of processed questions as its segments.
   */
  lemma ChartOfGrading(p: Policy, rows: seq<seq<TableCell>>)
    requires GradeAll(p, rows).Success?
    ensures GradeAll(p, rows).value.report == TallyBatch(Sheets(Views(rows)), |rows|)
    ensures ResponseSeries(GradeAll(p, rows).value.report).None? <==> Processed(Sheets(Views(rows)), |rows|) == 0
  {
    ChartOfBatch(Sheets(Views(rows)), |rows|);
  }
}
