/**
 * A batch of answer sheets counted into one report, sheet after sheet:
 * the report a grading run builds over all the students of a results
 * table, stated independently of how a sheet is read from the table.
 */
module Batches {
  import opened Tallies

  /** An answer sheet: the categorised outcomes of one student, in question order. */
  type AnswerSheet<K> = seq<Answer<K>>

  /** The report after the first `n` sheets, counted in order into an empty report. */
  function TallyBatch<K(==)>(sheets: seq<AnswerSheet<K>>, n: nat): Tally<K>
    requires n <= |sheets|
  {
    if n == 0 then [] else TallyAll(TallyBatch(sheets, n - 1), sheets[n - 1])
  }

  /** How many of the answers on the first `n` sheets are `a`. */
  function BatchOccurrences<K(==)>(sheets: seq<AnswerSheet<K>>, a: Answer<K>, n: nat): nat
    requires n <= |sheets|
  {
    if n == 0 then 0
    else BatchOccurrences(sheets, a, n - 1) + Occurrences(sheets[n - 1], a, |sheets[n - 1]|)
  }

  /** How many answers the first `n` sheets hold. */
  function Processed<K>(sheets: seq<AnswerSheet<K>>, n: nat): nat
    requires n <= |sheets|
  {
    if n == 0 then 0 else Processed(sheets, n - 1) + |sheets[n - 1]|
  }

  /**
   * Each counter of the report is the number of answers of its category
   * with its outcome on the sheets counted so far.
   */
  lemma {:induction false} BatchCounts<K>(sheets: seq<AnswerSheet<K>>, n: nat, c: K, o: Outcome)
    requires n <= |sheets|
    ensures Counter(Get(TallyBatch(sheets, n), c), o) == BatchOccurrences(sheets, Answer(c, o), n)
  {
    if n > 0 {
      BatchCounts(sheets, n - 1, c, o);
      TallyCounts(TallyBatch(sheets, n - 1), sheets[n - 1], |sheets[n - 1]|, c, o);
    }
  }

  /** The counters of the report add up to the number of answers counted. */
  lemma {:induction false} BatchTotal<K>(sheets: seq<AnswerSheet<K>>, n: nat)
    requires n <= |sheets|
    ensures Total(TallyBatch(sheets, n)) == Processed(sheets, n)
  {
    if n > 0 {
      BatchTotal(sheets, n - 1);
      TallyTotal(TallyBatch(sheets, n - 1), sheets[n - 1], |sheets[n - 1]|);
    }
  }

  /** The report has one entry per category. */
  lemma {:induction false} BatchDistinct<K>(sheets: seq<AnswerSheet<K>>, n: nat)
    requires n <= |sheets|
    ensures Distinct(TallyBatch(sheets, n))
  {
    if n > 0 {
      BatchDistinct(sheets, n - 1);
      TallyDistinct(TallyBatch(sheets, n - 1), sheets[n - 1], |sheets[n - 1]|);
    }
  }

  /** The student answered a question of category `k` on this sheet. */
  ghost predicate Covers<K>(sheet: AnswerSheet<K>, k: K)
  {
    exists j :: 0 <= j < |sheet| && sheet[j].category == k
  }

  /** A category is in the report exactly when some sheet counted so far answers a question of it. */
  lemma {:induction false} BatchKeys<K>(sheets: seq<AnswerSheet<K>>, n: nat, k: K)
    requires n <= |sheets|
    ensures Has(TallyBatch(sheets, n), k) <==> exists i :: 0 <= i < n && Covers(sheets[i], k)
  {
    if n > 0 {
      BatchKeys(sheets, n - 1, k);
      TallyKeys(TallyBatch(sheets, n - 1), sheets[n - 1], |sheets[n - 1]|, k);
      if Covers(sheets[n - 1], k) {
        assert 0 <= n - 1 < n && Covers(sheets[n - 1], k);
      }
    }
  }

  /** Every entry of the report has been counted at least once. */
  lemma {:induction false} BatchNoIdleEntries<K>(sheets: seq<AnswerSheet<K>>, n: nat)
    requires n <= |sheets|
    ensures NoIdleEntries(TallyBatch(sheets, n))
  {
    if n > 0 {
      BatchNoIdleEntries(sheets, n - 1);
      TallyNoIdleEntries(TallyBatch(sheets, n - 1), sheets[n - 1], |sheets[n - 1]|);
    }
  }

  /** Sheets after the first `n` do not matter to the occurrences on the first `n`. */
  lemma {:induction false} OccurrencesPrefix<K>(sheets: seq<AnswerSheet<K>>, more: seq<AnswerSheet<K>>, a: Answer<K>, n: nat)
    requires n <= |sheets|
    ensures BatchOccurrences(sheets + more, a, n) == BatchOccurrences(sheets, a, n)
  {
    if n > 0 {
      OccurrencesPrefix(sheets, more, a, n - 1);
      assert (sheets + more)[n - 1] == sheets[n - 1];
    }
  }

  lemma {:induction false} OccurrencesAppendUpTo<K>(xs: seq<AnswerSheet<K>>, ys: seq<AnswerSheet<K>>, a: Answer<K>, n: nat)
    requires n <= |ys|
    ensures BatchOccurrences(xs + ys, a, |xs| + n) == BatchOccurrences(xs, a, |xs|) + BatchOccurrences(ys, a, n)
  {
    if n == 0 {
      OccurrencesPrefix(xs, ys, a, |xs|);
    } else {
      OccurrencesAppendUpTo(xs, ys, a, n - 1);
      assert (xs + ys)[|xs| + n - 1] == ys[n - 1];
    }
  }

  /** The occurrences on two batches of sheets one after the other add up. */
  lemma OccurrencesAppend<K>(xs: seq<AnswerSheet<K>>, ys: seq<AnswerSheet<K>>, a: Answer<K>)
    ensures BatchOccurrences(xs + ys, a, |xs + ys|) == BatchOccurrences(xs, a, |xs|) + BatchOccurrences(ys, a, |ys|)
  {
    OccurrencesAppendUpTo(xs, ys, a, |ys|);
  }

  /** Two batches with the same occurrences of an answer give reports with the same counter for it. */
  lemma SameOccurrencesSameCounter<K>(xs: seq<AnswerSheet<K>>, ys: seq<AnswerSheet<K>>, k: K, o: Outcome)
    requires BatchOccurrences(xs, Answer(k, o), |xs|) == BatchOccurrences(ys, Answer(k, o), |ys|)
    ensures Counter(Get(TallyBatch(xs, |xs|), k), o) == Counter(Get(TallyBatch(ys, |ys|), k), o)
  {
    BatchCounts(xs, |xs|, k, o);
    BatchCounts(ys, |ys|, k, o);
  }

  /** Two batches of sheets counted one after the other give the same counters under either order. */
  lemma BatchOrderCounts<K>(xs: seq<AnswerSheet<K>>, ys: seq<AnswerSheet<K>>, k: K, o: Outcome)
    ensures Counter(Get(TallyBatch(xs + ys, |xs + ys|), k), o) == Counter(Get(TallyBatch(ys + xs, |ys + xs|), k), o)
  {
    OccurrencesAppend(xs, ys, Answer(k, o));
    OccurrencesAppend(ys, xs, Answer(k, o));
    SameOccurrencesSameCounter(xs + ys, ys + xs, k, o);
  }

  /**
   * The report does not depend on which of two batches of students is
   * counted first: the same categories, with the same counters each; only
   * the order of the entries can differ.
   */
  lemma BatchOrderIndependent<K>(xs: seq<AnswerSheet<K>>, ys: seq<AnswerSheet<K>>, k: K)
    ensures Has(TallyBatch(xs + ys, |xs + ys|), k) == Has(TallyBatch(ys + xs, |ys + xs|), k)
    ensures Get(TallyBatch(xs + ys, |xs + ys|), k) == Get(TallyBatch(ys + xs, |ys + xs|), k)
  {
    var a, b := TallyBatch(xs + ys, |xs + ys|), TallyBatch(ys + xs, |ys + xs|);
    BatchOrderCounts(xs, ys, k, Correct);
    BatchOrderCounts(xs, ys, k, Missing);
    BatchOrderCounts(xs, ys, k, Incorrect);
    SameCounts(Get(a, k), Get(b, k));
    BatchNoIdleEntries(xs + ys, |xs + ys|);
    BatchNoIdleEntries(ys + xs, |ys + xs|);
    HasIffCounted(a, k);
    HasIffCounted(b, k);
  }

  /** Counters that agree on every outcome belong to the same counts. */
  lemma SameCounts(c: Counts, d: Counts)
    requires Counter(c, Correct) == Counter(d, Correct)
    requires Counter(c, Missing) == Counter(d, Missing)
    requires Counter(c, Incorrect) == Counter(d, Incorrect)
    ensures c == d
  {
  }
}
