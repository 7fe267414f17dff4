/**
 * The report of a grading run: for every question category, in the order
 * the categories were first met, how many answers were correct, missing
 * and incorrect. The report is a dictionary in insertion order, modelled as
 * a list of entries; its keys are any type with equality.
 */
module Tallies {
  import opened Wrappers

  datatype Outcome = Correct | Missing | Incorrect

  /** One processed question: its category and how it was answered. */
  datatype Answer<K> = Answer(category: K, outcome: Outcome)

  datatype Counts = Counts(correct: nat, missing: nat, incorrect: nat)

  const NoCounts: Counts := Counts(0, 0, 0)

  /** The counter an outcome bumps. */
  function Counter(c: Counts, o: Outcome): nat
  {
    match o
    case Correct => c.correct
    case Missing => c.missing
    case Incorrect => c.incorrect
  }

  function Size(c: Counts): nat
  {
    c.correct + c.missing + c.incorrect
  }

  /** `c` with the counter of `o` one higher. */
  function Bump(c: Counts, o: Outcome): (r: Counts)
    ensures Counter(r, o) == Counter(c, o) + 1
  {
    match o
    case Correct => c.(correct := c.correct + 1)
    case Missing => c.(missing := c.missing + 1)
    case Incorrect => c.(incorrect := c.incorrect + 1)
  }

  lemma BumpSize(c: Counts, o: Outcome)
    ensures Size(Bump(c, o)) == Size(c) + 1
  {
  }

  /** One entry of the report dictionary. */
  datatype Entry<K> = Entry(category: K, counts: Counts)

  /** The report dictionary: its entries in insertion order. */
  type Tally<K> = seq<Entry<K>>

  // ---------------------------------------------------------------------
  // Lookup

  /** The position of the first entry of a category at or after position `from`. */
  function FindFrom<K(==)>(t: Tally<K>, category: K, from: nat): (r: Option<nat>)
    requires from <= |t|
    ensures r.Some? ==> from <= r.value < |t| && t[r.value].category == category
    decreases |t| - from
  {
    if from == |t| then None
    else if t[from].category == category then Some(from)
    else FindFrom(t, category, from + 1)
  }

  /** The position of the entry of a category, the first one if there were several. */
  function Find<K(==)>(t: Tally<K>, category: K): (r: Option<nat>)
    ensures r.Some? ==> r.value < |t| && t[r.value].category == category
  {
    FindFrom(t, category, 0)
  }

  /** Whether the report has an entry for a category. */
  predicate Has<K(==)>(t: Tally<K>, category: K)
  {
    Find(t, category).Some?
  }

  /** The counters of a category, all zero when it has no entry. */
  function Get<K(==)>(t: Tally<K>, category: K): Counts
  {
    match Find(t, category)
    case None => NoCounts
    case Some(i) => t[i].counts
  }

  /** No category has two entries. */
  ghost predicate Distinct<K>(t: Tally<K>)
  {
    forall i, j :: 0 <= i < j < |t| ==> t[i].category != t[j].category
  }

  lemma {:induction false} FindFromNone<K>(t: Tally<K>, category: K, from: nat, i: nat)
    requires from <= i < |t| && FindFrom(t, category, from).None?
    ensures t[i].category != category
    decreases i - from
  {
    if from < i {
      FindFromNone(t, category, from + 1, i);
    }
  }

  /** A category has an entry exactly when some entry carries it. */
  lemma HasIffEntry<K>(t: Tally<K>, category: K)
    ensures Has(t, category) <==> exists i :: 0 <= i < |t| && t[i].category == category
  {
    if !Has(t, category) {
      forall i | 0 <= i < |t| ensures t[i].category != category {
        FindFromNone(t, category, 0, i);
      }
    }
  }

  /**
   * Two reports whose categories agree up to the length of the shorter one:
   * lookup in the longer one finds the same entry, or looks past the end of
   * the shorter one.
   */
  lemma {:induction false} FindFromSame<K>(t: Tally<K>, u: Tally<K>, k: K, from: nat)
    requires from <= |t| <= |u|
    requires forall j :: from <= j < |t| ==> u[j].category == t[j].category
    ensures FindFrom(t, k, from).Some? ==> FindFrom(u, k, from) == FindFrom(t, k, from)
    ensures FindFrom(t, k, from).None? ==> FindFrom(u, k, from) == FindFrom(u, k, |t|)
    decreases |t| - from
  {
    if from < |t| && t[from].category != k {
      FindFromSame(t, u, k, from + 1);
    }
  }

  /** Lookup sees only the categories of the entries. */
  lemma FindSameCategories<K>(t: Tally<K>, i: nat, e: Entry<K>, k: K)
    requires i < |t| && e.category == t[i].category
    ensures Find(t[i := e], k) == Find(t, k)
  {
    FindFromSame(t, t[i := e], k, 0);
  }

  /** Lookup after appending an entry. */
  lemma FindSnoc<K>(t: Tally<K>, e: Entry<K>, k: K)
    ensures Find(t + [e], k) == if Has(t, k) then Find(t, k) else if e.category == k then Some(|t|) else None
  {
    FindFromSame(t, t + [e], k, 0);
  }

  lemma {:induction false} FindFromDistinct<K>(t: Tally<K>, i: nat, from: nat)
    requires Distinct(t) && from <= i < |t|
    ensures FindFrom(t, t[i].category, from) == Some(i)
    decreases i - from
  {
    if from < i {
      FindFromDistinct(t, i, from + 1);
    }
  }

  /** In a report without repeated categories, every entry is found where it is. */
  lemma FindDistinct<K>(t: Tally<K>, i: nat)
    requires Distinct(t) && i < |t|
    ensures Find(t, t[i].category) == Some(i)
    ensures Get(t, t[i].category) == t[i].counts
  {
    FindFromDistinct(t, i, 0);
  }

  // ---------------------------------------------------------------------
  // Counting answers

  /**
   * Counts one answer, looking for its category from position `from` on: a
   * category seen for the first time gets a new entry at the end; then the
   * counter of the outcome is bumped.
   */
  function RecordFrom<K(==)>(t: Tally<K>, a: Answer<K>, from: nat): Tally<K>
    requires from <= |t|
    decreases |t| - from
  {
    if from == |t| then t + [Entry(a.category, Bump(NoCounts, a.outcome))]
    else if t[from].category == a.category then t[from := Entry(a.category, Bump(t[from].counts, a.outcome))]
    else RecordFrom(t, a, from + 1)
  }

  /** Counts one answer. */
  function Record<K(==)>(t: Tally<K>, a: Answer<K>): Tally<K>
  {
    RecordFrom(t, a, 0)
  }

  lemma {:induction false} RecordFromFind<K>(t: Tally<K>, a: Answer<K>, from: nat)
    requires from <= |t|
    ensures RecordFrom(t, a, from) == match FindFrom(t, a.category, from)
      case None => t + [Entry(a.category, Bump(NoCounts, a.outcome))]
      case Some(i) => t[i := Entry(a.category, Bump(t[i].counts, a.outcome))]
    decreases |t| - from
  {
    if from < |t| && t[from].category != a.category {
      RecordFromFind(t, a, from + 1);
    }
  }

  /**
   * Counting an answer bumps exactly the counter of its outcome in its
   * category, and adds an entry for the category at the end if it had none;
   * the categories already there keep their places.
   */
  lemma RecordSpec<K>(t: Tally<K>, a: Answer<K>)
    ensures Get(Record(t, a), a.category) == Bump(Get(t, a.category), a.outcome)
    ensures Has(Record(t, a), a.category)
    ensures |Record(t, a)| == if Has(t, a.category) then |t| else |t| + 1
    ensures forall i :: 0 <= i < |t| ==> Record(t, a)[i].category == t[i].category
    ensures !Has(t, a.category) ==> Record(t, a)[|t|].category == a.category
  {
    RecordFromFind(t, a, 0);
    var c := a.category;
    match Find(t, c)
    case None =>
      FindSnoc(t, Entry(c, Bump(NoCounts, a.outcome)), c);
    case Some(i) =>
      FindSameCategories(t, i, Entry(c, Bump(t[i].counts, a.outcome)), c);
  }

  /** Counting an answer leaves the counters of every other category as they were. */
  lemma RecordOther<K>(t: Tally<K>, a: Answer<K>, k: K)
    requires k != a.category
    ensures Get(Record(t, a), k) == Get(t, k)
    ensures Has(Record(t, a), k) == Has(t, k)
  {
    RecordFromFind(t, a, 0);
    match Find(t, a.category)
    case None =>
      FindSnoc(t, Entry(a.category, Bump(NoCounts, a.outcome)), k);
    case Some(i) =>
      FindSameCategories(t, i, Entry(a.category, Bump(t[i].counts, a.outcome)), k);
  }

  /** Counts the first `n` answers one after the other. */
  function TallyUpTo<K(==)>(t: Tally<K>, answers: seq<Answer<K>>, n: nat): Tally<K>
    requires n <= |answers|
  {
    if n == 0 then t else Record(TallyUpTo(t, answers, n - 1), answers[n - 1])
  }

  /** Counts all answers one after the other. */
  function TallyAll<K(==)>(t: Tally<K>, answers: seq<Answer<K>>): Tally<K>
  {
    TallyUpTo(t, answers, |answers|)
  }

  /** How many of the first `n` answers are `x`. */
  function Occurrences<K(==)>(answers: seq<Answer<K>>, x: Answer<K>, n: nat): nat
    requires n <= |answers|
  {
    if n == 0 then 0
    else Occurrences(answers, x, n - 1) + (if answers[n - 1] == x then 1 else 0)
  }

  lemma {:induction false} OccurrencesMultiset<K>(answers: seq<Answer<K>>, x: Answer<K>, n: nat)
    requires n <= |answers|
    ensures Occurrences(answers, x, n) == multiset(answers[..n])[x]
  {
    if n > 0 {
      OccurrencesMultiset(answers, x, n - 1);
      assert answers[..n] == answers[..n - 1] + [answers[n - 1]];
    }
  }

  /**
   * Every counter grows by exactly the number of answers of its category
   * and outcome, so counters never decrease.
   */
  lemma {:induction false} TallyCounts<K>(t: Tally<K>, answers: seq<Answer<K>>, n: nat, c: K, o: Outcome)
    requires n <= |answers|
    ensures Counter(Get(TallyUpTo(t, answers, n), c), o) == Counter(Get(t, c), o) + Occurrences(answers, Answer(c, o), n)
  {
    if n > 0 {
      TallyCounts(t, answers, n - 1, c, o);
      var m, last := TallyUpTo(t, answers, n - 1), answers[n - 1];
      if last.category != c {
        RecordOther(m, last, c);
      } else {
        RecordSpec(m, last);
      }
    }
  }

  /** Entries are only ever appended: the old categories stay first, in their order. */
  lemma {:induction false} TallyKeysPrefix<K>(t: Tally<K>, answers: seq<Answer<K>>, n: nat)
    requires n <= |answers|
    ensures |t| <= |TallyUpTo(t, answers, n)|
    ensures forall i :: 0 <= i < |t| ==> TallyUpTo(t, answers, n)[i].category == t[i].category
  {
    if n > 0 {
      TallyKeysPrefix(t, answers, n - 1);
      RecordSpec(TallyUpTo(t, answers, n - 1), answers[n - 1]);
    }
  }

  /** A category has an entry afterwards exactly when it had one before or one of the answers has it. */
  lemma {:induction false} TallyKeys<K>(t: Tally<K>, answers: seq<Answer<K>>, n: nat, k: K)
    requires n <= |answers|
    ensures Has(TallyUpTo(t, answers, n), k) <==> Has(t, k) || exists j :: 0 <= j < n && answers[j].category == k
  {
    if n > 0 {
      TallyKeys(t, answers, n - 1, k);
      var m, last := TallyUpTo(t, answers, n - 1), answers[n - 1];
      if last.category != k {
        RecordOther(m, last, k);
      } else {
        RecordSpec(m, last);
      }
    }
  }

  /** Counting never creates a second entry for a category. */
  lemma {:induction false} TallyDistinct<K>(t: Tally<K>, answers: seq<Answer<K>>, n: nat)
    requires n <= |answers|
    requires Distinct(t)
    ensures Distinct(TallyUpTo(t, answers, n))
  {
    if n > 0 {
      TallyDistinct(t, answers, n - 1);
      var m, last := TallyUpTo(t, answers, n - 1), answers[n - 1];
      RecordSpec(m, last);
      if !Has(m, last.category) {
        forall i | 0 <= i < |m| ensures m[i].category != last.category {
          HasIffEntry(m, last.category);
        }
      }
    }
  }

  /** Every entry has been counted at least once. */
  ghost predicate NoIdleEntries<K>(t: Tally<K>)
  {
    forall i :: 0 <= i < |t| ==> Size(t[i].counts) > 0
  }

  lemma NoIdleSnoc<K>(t: Tally<K>, e: Entry<K>)
    requires NoIdleEntries(t) && Size(e.counts) > 0
    ensures NoIdleEntries(t + [e])
  {
  }

  lemma NoIdleUpdate<K>(t: Tally<K>, i: nat, e: Entry<K>)
    requires NoIdleEntries(t) && i < |t| && Size(e.counts) > 0
    ensures NoIdleEntries(t[i := e])
  {
  }

  /** Counting an answer leaves no entry idle. */
  lemma RecordNoIdleEntries<K>(t: Tally<K>, a: Answer<K>)
    requires NoIdleEntries(t)
    ensures NoIdleEntries(Record(t, a))
  {
    RecordFromFind(t, a, 0);
    match Find(t, a.category)
    case None =>
      BumpSize(NoCounts, a.outcome);
      NoIdleSnoc(t, Entry(a.category, Bump(NoCounts, a.outcome)));
    case Some(i) =>
      BumpSize(t[i].counts, a.outcome);
      NoIdleUpdate(t, i, Entry(a.category, Bump(t[i].counts, a.outcome)));
  }

  lemma {:induction false} TallyNoIdleEntries<K>(t: Tally<K>, answers: seq<Answer<K>>, n: nat)
    requires n <= |answers|
    requires NoIdleEntries(t)
    ensures NoIdleEntries(TallyUpTo(t, answers, n))
  {
    if n > 0 {
      TallyNoIdleEntries(t, answers, n - 1);
      RecordNoIdleEntries(TallyUpTo(t, answers, n - 1), answers[n - 1]);
    }
  }

  /** Without idle entries, a category has an entry exactly when it has been counted. */
  lemma HasIffCounted<K>(t: Tally<K>, k: K)
    requires NoIdleEntries(t)
    ensures Has(t, k) <==> Size(Get(t, k)) > 0
  {
  }

  /** Answers with the same multiset give the same counters under each category. */
  lemma SameCounters<K>(t: Tally<K>, xs: seq<Answer<K>>, ys: seq<Answer<K>>, k: K, o: Outcome)
    requires multiset(xs) == multiset(ys)
    ensures Counter(Get(TallyAll(t, xs), k), o) == Counter(Get(TallyAll(t, ys), k), o)
  {
    TallyCounts(t, xs, |xs|, k, o);
    TallyCounts(t, ys, |ys|, k, o);
    OccurrencesMultiset(xs, Answer(k, o), |xs|);
    OccurrencesMultiset(ys, Answer(k, o), |ys|);
    assert xs[..|xs|] == xs;
    assert ys[..|ys|] == ys;
  }

  /**
   * Counting from a report without idle entries, answers with the same
   * multiset give a report with the same categories and the same counters
   * for each: only the order of the entries can differ.
   */
  lemma TallyOrderIndependent<K>(t: Tally<K>, xs: seq<Answer<K>>, ys: seq<Answer<K>>, k: K)
    requires NoIdleEntries(t)
    requires multiset(xs) == multiset(ys)
    ensures Has(TallyAll(t, xs), k) == Has(TallyAll(t, ys), k)
    ensures Get(TallyAll(t, xs), k) == Get(TallyAll(t, ys), k)
  {
    SameCounters(t, xs, ys, k, Correct);
    SameCounters(t, xs, ys, k, Missing);
    SameCounters(t, xs, ys, k, Incorrect);
    TallyNoIdleEntries(t, xs, |xs|);
    TallyNoIdleEntries(t, ys, |ys|);
    HasIffCounted(TallyAll(t, xs), k);
    HasIffCounted(TallyAll(t, ys), k);
  }

  // ---------------------------------------------------------------------
  // Totals

  /** The sum of all counters of the first `n` entries. */
  function TotalUpTo<K>(t: Tally<K>, n: nat): nat
    requires n <= |t|
  {
    if n == 0 then 0 else TotalUpTo(t, n - 1) + Size(t[n - 1].counts)
  }

  /** The sum of all counters of the report. */
  function Total<K>(t: Tally<K>): nat
  {
    TotalUpTo(t, |t|)
  }

  /** The sum over a prefix sees only the counters in it. */
  lemma {:induction false} TotalSame<K>(t: Tally<K>, u: Tally<K>, n: nat)
    requires n <= |t| && n <= |u|
    requires forall j :: 0 <= j < n ==> u[j].counts == t[j].counts
    ensures TotalUpTo(u, n) == TotalUpTo(t, n)
  {
    if n > 0 {
      TotalSame(t, u, n - 1);
    }
  }

  /** Replacing an entry changes the total by the difference of the two. */
  lemma {:induction false} TotalUpdate<K>(t: Tally<K>, i: nat, e: Entry<K>, n: nat)
    requires i < n <= |t|
    ensures TotalUpTo(t[i := e], n) + Size(t[i].counts) == TotalUpTo(t, n) + Size(e.counts)
  {
    if i < n - 1 {
      TotalUpdate(t, i, e, n - 1);
    } else {
      TotalSame(t, t[i := e], n - 1);
    }
  }

  /** Appending an entry adds its counters to the total. */
  lemma TotalSnoc<K>(t: Tally<K>, e: Entry<K>)
    ensures Total(t + [e]) == Total(t) + Size(e.counts)
  {
    TotalSame(t, t + [e], |t|);
  }

  /** Counting one answer adds one to the total. */
  lemma RecordTotal<K>(t: Tally<K>, a: Answer<K>)
    ensures Total(Record(t, a)) == Total(t) + 1
  {
    RecordFromFind(t, a, 0);
    match Find(t, a.category)
    case None =>
      var e := Entry(a.category, Bump(NoCounts, a.outcome));
      BumpSize(NoCounts, a.outcome);
      TotalSnoc(t, e);
    case Some(i) =>
      var e := Entry(a.category, Bump(t[i].counts, a.outcome));
      BumpSize(t[i].counts, a.outcome);
      TotalUpdate(t, i, e, |t|);
  }

  /** The total grows by exactly the number of answers counted, whatever they are. */
  lemma {:induction false} TallyTotal<K>(t: Tally<K>, answers: seq<Answer<K>>, n: nat)
    requires n <= |answers|
    ensures Total(TallyUpTo(t, answers, n)) == Total(t) + n
  {
    if n > 0 {
      TallyTotal(t, answers, n - 1);
      RecordTotal(TallyUpTo(t, answers, n - 1), answers[n - 1]);
    }
  }
}
