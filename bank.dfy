/**
 * The question-bank chunker and record serialiser of the exam generator.
 *
 * A bank is the list of sheets of a workbook, one category per sheet. Only
 * the first cell of each row matters: `None` stands for an empty row or an
 * empty (NaN) cell, `Some(text)` for anything else. Rows are cut into blocks
 * of five, a prompt and four responses, and every block whose prompt is
 * present is written to the working folder as a text record named
 * `<sheet>-<index>` in the delimiter format the randomiser reads.
 */
module QuestionBank {
  import opened Wrappers
  import opened Text

  /** Rows per question block: one prompt and its responses. */
  const RowsPerBlock: nat := 5
  /** Response rows that follow each prompt. */
  const ResponsesPerQuestion: nat := 4
  /** The record delimiter: a line holding a single full stop. */
  const Delimiter: string := "\n.\n"

  /** The first cell of a row. */
  type Cell = Option<string>

  datatype Sheet = Sheet(name: string, rows: seq<Cell>)

  /** A file of the working folder: its name and its text. */
  datatype Record = Record(name: string, content: string)

  datatype ParseError = NoSheets

  /** The file name of block `index` of a sheet. */
  function RecordName(sheet: string, index: nat): string
  {
    sheet + "-" + NatToString(index)
  }

  /** The trimmed text of the present cells among the first `n`, in row order. */
  function PresentUpTo(cells: seq<Cell>, n: nat): seq<string>
    requires n <= |cells|
  {
    if n == 0 then [] else PresentUpTo(cells, n - 1) + CellText(cells[n - 1])
  }

  /** The trimmed text of the present cells, in row order. */
  function Present(cells: seq<Cell>): seq<string>
  {
    PresentUpTo(cells, |cells|)
  }

  /** The trimmed text of a present cell; nothing for an empty one. */
  function CellText(c: Cell): seq<string>
  {
    match c
    case Some(v) => [Trim(v)]
    case None => []
  }

  /** At most one string per cell, and exactly one each when every cell is present. */
  lemma {:induction false} PresentCount(cells: seq<Cell>, n: nat)
    requires n <= |cells|
    ensures |PresentUpTo(cells, n)| <= n
    ensures |PresentUpTo(cells, n)| == n <==> forall k :: 0 <= k < n ==> cells[k].Some?
  {
    if n > 0 {
      PresentCount(cells, n - 1);
    }
  }

  /** The rows `lo .. hi - 1` of `rows` that exist. */
  function Window(rows: seq<Cell>, lo: nat, hi: nat): (w: seq<Cell>)
    ensures |w| <= hi - lo || hi < lo
  {
    var b := if hi < |rows| then hi else |rows|;
    var a := if lo < b then lo else b;
    rows[a..b]
  }

  /** The responses of the block whose prompt is row `start`. */
  function Responses(rows: seq<Cell>, start: nat): seq<string>
  {
    Present(Window(rows, start + 1, start + 1 + ResponsesPerQuestion))
  }

  /** The text of a record: the prompt, the responses, each closed by the delimiter. */
  function BlockContent(prompt: string, responses: seq<string>): string
  {
    prompt + Delimiter + Join(responses, Delimiter) + Delimiter
  }

  /**
   * The record written for block `index`, whose prompt row is `start`; none
   * when `start` is past the last row or the prompt cell is empty.
   */
  function BlockRecord(sheet: string, rows: seq<Cell>, index: nat, start: nat): Option<Record>
  {
    if start >= |rows| then None
    else match rows[start]
      case None => None
      case Some(q) => Some(Record(RecordName(sheet, index), BlockContent(Trim(q), Responses(rows, start))))
  }

  /** Block `i` of a sheet, which starts at row `5 * i`. */
  function Block(sheet: string, rows: seq<Cell>, i: nat): Option<Record>
  {
    BlockRecord(sheet, rows, i, RowsPerBlock * i)
  }

  /** The outcomes of blocks `0 .. k - 1`: a record or nothing each. */
  function BlockOptions(sheet: string, rows: seq<Cell>, k: nat): (opts: seq<Option<Record>>)
    ensures |opts| == k && forall i :: 0 <= i < k ==> opts[i] == Block(sheet, rows, i)
  {
    seq(k, i requires 0 <= i => Block(sheet, rows, i))
  }

  /** The records of blocks `0 .. k - 1`, in index order. */
  function Blocks(sheet: string, rows: seq<Cell>, k: nat): seq<Record>
  {
    Somes(BlockOptions(sheet, rows, k), k)
  }

  /** The records of a sheet: one per complete block with a prompt. */
  function SheetRecords(s: Sheet): seq<Record>
  {
    Blocks(s.name, s.rows, |s.rows| / RowsPerBlock)
  }

  /** The records of each sheet, sheet by sheet. */
  function SheetRecordLists(bank: seq<Sheet>): (xss: seq<seq<Record>>)
    ensures |xss| == |bank| && forall j :: 0 <= j < |bank| ==> xss[j] == SheetRecords(bank[j])
  {
    seq(|bank|, j requires 0 <= j < |bank| => SheetRecords(bank[j]))
  }

  /** The first `n` lists, one after the other. */
  function Concat<T>(xss: seq<seq<T>>, n: nat): seq<T>
    requires n <= |xss|
  {
    if n == 0 then [] else Concat(xss, n - 1) + xss[n - 1]
  }

  /** The records of the first `n` sheets of the bank, sheet after sheet. */
  function BankRecordsUpTo(bank: seq<Sheet>, n: nat): seq<Record>
    requires n <= |bank|
  {
    Concat(SheetRecordLists(bank), n)
  }

  /** One more sheet appends its records. */
  lemma BankRecordsStep(bank: seq<Sheet>, n: nat)
    requires n < |bank|
    ensures BankRecordsUpTo(bank, n + 1) == BankRecordsUpTo(bank, n) + SheetRecords(bank[n])
  {
  }

  /** The records of the whole bank, sheet after sheet. */
  function BankRecords(bank: seq<Sheet>): seq<Record>
  {
    BankRecordsUpTo(bank, |bank|)
  }

  /** The names of the sheets, empty ones included, in workbook order. */
  function SheetNames(bank: seq<Sheet>): (names: seq<string>)
    ensures |names| == |bank| && forall j :: 0 <= j < |bank| ==> names[j] == bank[j].name
  {
    seq(|bank|, j requires 0 <= j < |bank| => bank[j].name)
  }

  // ---------------------------------------------------------------------
  // Keeping the present values

  /** The values of the first `n` options that are present, in order. */
  function Somes<T>(xs: seq<Option<T>>, n: nat): seq<T>
    requires n <= |xs|
  {
    if n == 0 then [] else Somes(xs, n - 1) + OptionToSeq(xs[n - 1])
  }

  /** A value is kept exactly when one of the first `n` options holds it. */
  lemma {:induction false} SomesMembers<T>(xs: seq<Option<T>>, n: nat, v: T)
    requires n <= |xs|
    ensures v in Somes(xs, n) <==> exists i :: 0 <= i < n && xs[i] == Some(v)
  {
    if n > 0 {
      SomesMembers(xs, n - 1, v);
      if xs[n - 1] == Some(v) {
        assert Somes(xs, n)[|Somes(xs, n)| - 1] == v;
      }
    }
  }

  /** At most one value per option; all of them, in place, when every option is present. */
  lemma {:induction false} SomesCount<T>(xs: seq<Option<T>>, n: nat)
    requires n <= |xs|
    ensures |Somes(xs, n)| <= n
    ensures (forall i :: 0 <= i < n ==> xs[i].Some?) ==>
      |Somes(xs, n)| == n && forall i :: 0 <= i < n ==> Somes(xs, n)[i] == xs[i].value
  {
    if n > 0 {
      SomesCount(xs, n - 1);
    }
  }

  /** Options that agree on the first `n` keep the same values. */
  lemma {:induction false} SomesSame<T>(xs: seq<Option<T>>, ys: seq<Option<T>>, n: nat)
    requires n <= |xs| && n <= |ys|
    requires forall i :: 0 <= i < n ==> xs[i] == ys[i]
    ensures Somes(xs, n) == Somes(ys, n)
  {
    if n > 0 {
      SomesSame(xs, ys, n - 1);
    }
  }

  // ---------------------------------------------------------------------
  // Properties of the chunking

  /** Rows `lo .. hi - 1` where they exist: at most `hi - lo` rows, in order, cut short only by the end of the sheet. */
  lemma WindowShape(rows: seq<Cell>, lo: nat, hi: nat)
    requires lo <= hi
    ensures |Window(rows, lo, hi)| <= hi - lo
    ensures forall j :: 0 <= j < |Window(rows, lo, hi)| ==> Window(rows, lo, hi)[j] == rows[lo + j]
    ensures |Window(rows, lo, hi)| < hi - lo ==> lo + |Window(rows, lo, hi)| >= |rows|
  {
  }

  /**
   * A block below `|rows| / 5` lies wholly inside the sheet, so the writer's
   * start-index guard never fires: it yields a record exactly when its prompt
   * cell is present, and its responses come from rows `5i+1 .. 5i+4`.
   */
  lemma BlockInRange(sheet: string, rows: seq<Cell>, i: nat)
    requires i < |rows| / RowsPerBlock
    ensures RowsPerBlock * i + RowsPerBlock <= |rows|
    ensures Block(sheet, rows, i).Some? <==> rows[RowsPerBlock * i].Some?
    ensures rows[RowsPerBlock * i].Some? ==> Block(sheet, rows, i) == Some(Record(
      RecordName(sheet, i),
      BlockContent(Trim(rows[RowsPerBlock * i].value),
                   Present(rows[RowsPerBlock * i + 1 .. RowsPerBlock * i + RowsPerBlock]))))
  {
  }

  /** The records of blocks `0 .. k - 1` are those blocks that have a prompt. */
  lemma BlocksMembers(sheet: string, rows: seq<Cell>, k: nat, r: Record)
    ensures r in Blocks(sheet, rows, k) <==> exists i :: 0 <= i < k && Block(sheet, rows, i) == Some(r)
  {
    var opts := BlockOptions(sheet, rows, k);
    SomesMembers(opts, k, r);
    if exists i :: 0 <= i < k && Block(sheet, rows, i) == Some(r) {
      var i :| 0 <= i < k && Block(sheet, rows, i) == Some(r);
      assert opts[i] == Some(r);
    }
  }

  /**
   * A record belongs to a sheet's output exactly when it is the record of one
   * of the blocks `0 .. |rows| / 5 - 1`.
   */
  lemma SheetRecordsMembers(s: Sheet, r: Record)
    ensures r in SheetRecords(s) <==> exists i :: 0 <= i < |s.rows| / RowsPerBlock && Block(s.name, s.rows, i) == Some(r)
  {
    BlocksMembers(s.name, s.rows, |s.rows| / RowsPerBlock, r);
  }

  /** At most one record per block; exactly block `i` at position `i` when every prompt is present. */
  lemma BlocksCount(sheet: string, rows: seq<Cell>, k: nat)
    ensures |Blocks(sheet, rows, k)| <= k
    ensures (forall i :: 0 <= i < k ==> Block(sheet, rows, i).Some?) ==>
      |Blocks(sheet, rows, k)| == k &&
      forall i :: 0 <= i < k ==> Blocks(sheet, rows, k)[i] == Block(sheet, rows, i).value
  {
    SomesCount(BlockOptions(sheet, rows, k), k);
  }

  /** A sheet of `n` rows yields at most `n / 5` records, and exactly those when every prompt is present. */
  lemma SheetRecordsCount(s: Sheet)
    ensures |SheetRecords(s)| <= |s.rows| / RowsPerBlock
    ensures (forall i :: 0 <= i < |s.rows| / RowsPerBlock ==> s.rows[RowsPerBlock * i].Some?) ==>
      |SheetRecords(s)| == |s.rows| / RowsPerBlock &&
      forall i :: 0 <= i < |s.rows| / RowsPerBlock ==> SheetRecords(s)[i] == Block(s.name, s.rows, i).value
  {
    var k := |s.rows| / RowsPerBlock;
    if forall i :: 0 <= i < k ==> s.rows[RowsPerBlock * i].Some? {
      forall i | 0 <= i < k ensures Block(s.name, s.rows, i).Some? {
        BlockInRange(s.name, s.rows, i);
      }
    }
    BlocksCount(s.name, s.rows, k);
  }

  /** A block inside the first `m` rows does not see the rows after them. */
  lemma BlockPrefix(sheet: string, rows: seq<Cell>, m: nat, i: nat)
    requires m <= |rows| && RowsPerBlock * i + RowsPerBlock <= m
    ensures Block(sheet, rows[..m], i) == Block(sheet, rows, i)
  {
    var start := RowsPerBlock * i;
    assert Window(rows[..m], start + 1, start + 1 + ResponsesPerQuestion)
        == Window(rows, start + 1, start + 1 + ResponsesPerQuestion);
  }

  lemma BlocksPrefix(sheet: string, rows: seq<Cell>, m: nat, k: nat)
    requires m <= |rows| && RowsPerBlock * k <= m
    ensures Blocks(sheet, rows[..m], k) == Blocks(sheet, rows, k)
  {
    var xs, ys := BlockOptions(sheet, rows[..m], k), BlockOptions(sheet, rows, k);
    forall i | 0 <= i < k ensures xs[i] == ys[i] {
      BlockPrefix(sheet, rows, m, i);
    }
    SomesSame(xs, ys, k);
  }

  /**
   * The rows after the last complete block are dropped: a sheet gives the
   * same records as its first `5 * (n / 5)` rows. With seven rows, say, only
   * block 0 is written.
   */
  lemma RemainderDropped(s: Sheet)
    ensures SheetRecords(s) == SheetRecords(Sheet(s.name, s.rows[..RowsPerBlock * (|s.rows| / RowsPerBlock)]))
  {
    var k := |s.rows| / RowsPerBlock;
    var m := RowsPerBlock * k;
    assert |s.rows[..m]| / RowsPerBlock == k;
    BlocksPrefix(s.name, s.rows, m, k);
  }

  /** A sheet of exactly five rows with a prompt yields the single record `<sheet>-0`. */
  lemma SingleBlockSheet(s: Sheet)
    requires |s.rows| == RowsPerBlock && s.rows[0].Some?
    ensures SheetRecords(s) == [Record(s.name + "-0", BlockContent(Trim(s.rows[0].value), Present(s.rows[1..5])))]
  {
    BlockInRange(s.name, s.rows, 0);
    assert |s.rows| / RowsPerBlock == 1;
    var opts := BlockOptions(s.name, s.rows, 1);
    assert SheetRecords(s) == Somes(opts, 0) + OptionToSeq(opts[0]);
    assert RecordName(s.name, 0) == s.name + "-0";
  }

  /** A sheet without rows yields nothing. */
  lemma EmptySheet(s: Sheet)
    requires s.rows == []
    ensures SheetRecords(s) == []
  {
  }

  // ---------------------------------------------------------------------
  // Properties of the record format

  /**
   * The prompt and every response are each closed by exactly one delimiter;
   * without responses a second delimiter follows the first directly.
   */
  lemma ContentGrammar(prompt: string, responses: seq<string>)
    ensures responses == [] ==> BlockContent(prompt, responses) == prompt + Delimiter + Delimiter
    ensures responses != [] ==> BlockContent(prompt, responses) == Terminated([prompt] + responses, Delimiter)
  {
    if responses != [] {
      JoinThenSeparator(responses, Delimiter);
      assert ([prompt] + responses)[1..] == responses;
    }
  }

  /** With the full four responses the record is prompt and responses, each closed once. */
  lemma FullBlockContent(prompt: string, responses: seq<string>)
    requires |responses| == ResponsesPerQuestion
    ensures BlockContent(prompt, responses) ==
      prompt + Delimiter + responses[0] + Delimiter + responses[1] + Delimiter
      + responses[2] + Delimiter + responses[3] + Delimiter
  {
    ContentGrammar(prompt, responses);
    var d := Delimiter;
    var r0, r1, r2, r3 := responses[0], responses[1], responses[2], responses[3];
    assert [prompt] + responses == [prompt] + ([r0] + ([r1] + ([r2] + ([r3] + []))));
    TerminatedCons(r3, [], d);
    TerminatedCons(r2, [r3] + [], d);
    TerminatedCons(r1, [r2] + ([r3] + []), d);
    TerminatedCons(r0, [r1] + ([r2] + ([r3] + [])), d);
    TerminatedCons(prompt, [r0] + ([r1] + ([r2] + ([r3] + []))), d);
  }

  /** The lines of `Terminated(parts, Delimiter)`: every part followed by a line holding a full stop. */
  function DotLines(parts: seq<string>): (lines: seq<string>)
    ensures |lines| == 2 * |parts|
  {
    if parts == [] then [] else [parts[0], "."] + DotLines(parts[1..])
  }

  /** Line `2k` is part `k`, line `2k + 1` the full stop after it. */
  lemma {:induction false} DotLinesAt(parts: seq<string>, j: nat)
    requires j < 2 * |parts|
    ensures DotLines(parts)[j] == if j % 2 == 0 then parts[j / 2] else "."
  {
    if j >= 2 {
      DotLinesAt(parts[1..], j - 2);
      assert DotLines(parts)[j] == DotLines(parts[1..])[j - 2];
    }
  }

  /** Closing each part with the delimiter is closing each of its lines with a line feed. */
  lemma {:induction false} TerminatedDots(parts: seq<string>)
    ensures Terminated(parts, Delimiter) == Terminated(DotLines(parts), "\n")
  {
    if parts != [] {
      TerminatedDots(parts[1..]);
      var rest := Terminated(DotLines(parts[1..]), "\n");
      TerminatedCons(".", DotLines(parts[1..]), "\n");
      TerminatedCons(parts[0], ["."] + DotLines(parts[1..]), "\n");
      assert DotLines(parts) == [parts[0]] + (["."] + DotLines(parts[1..]));
      var p := parts[0];
      calc {
        p + "\n" + ("." + "\n" + rest);
        { assert "." + "\n" == ".\n"; }
        p + "\n" + (".\n" + rest);
        { AppendAssoc(p + "\n", ".\n", rest); }
        p + "\n" + ".\n" + rest;
        { AppendAssoc(p, "\n", ".\n"); assert "\n" + ".\n" == Delimiter; }
        p + Delimiter + rest;
      }
    }
  }

  /** Splitting lines each closed by the separator gives them back, and the empty piece after the last. */
  lemma {:induction false} SplitTerminated(lines: seq<string>, sep: char)
    requires forall k :: 0 <= k < |lines| ==> sep !in lines[k]
    ensures Split(Terminated(lines, [sep]), sep) == lines + [""]
  {
    if lines != [] {
      SplitTerminated(lines[1..], sep);
      SplitPiece(lines[0], sep, Terminated(lines[1..], [sep]));
      assert lines == [lines[0]] + lines[1..];
    }
  }

  /**
   * When no part spans several lines, splitting a record into lines gives
   * back the prompt and the responses, each followed by a "." line (and the
   * empty piece after the final line feed): the record is read back unambiguously.
   */
  lemma RecordLines(parts: seq<string>)
    requires forall k :: 0 <= k < |parts| ==> '\n' !in parts[k]
    ensures Split(Terminated(parts, Delimiter), '\n') == DotLines(parts) + [""]
  {
    TerminatedDots(parts);
    var lines := DotLines(parts);
    forall j | 0 <= j < |lines| ensures '\n' !in lines[j] {
      DotLinesAt(parts, j);
    }
    SplitTerminated(lines, '\n');
  }

  // ---------------------------------------------------------------------
  // Record names

  /** The dash after the sheet name is the last dash of a file name. */
  lemma LastDash(a: string, i: nat)
    ensures RecordName(a, i)[|a|] == '-'
    ensures forall p :: |a| < p < |RecordName(a, i)| ==> RecordName(a, i)[p] != '-'
  {
    var x := RecordName(a, i);
    NatToStringDigits(i);
    forall p | |a| < p < |x| ensures x[p] != '-' {
      assert x[p] == NatToString(i)[p - |a| - 1];
    }
  }

  /** Different sheets or different indices never give the same file name. */
  lemma RecordNameInjective(a: string, i: nat, b: string, j: nat)
    requires RecordName(a, i) == RecordName(b, j)
    ensures a == b && i == j
  {
    var x := RecordName(a, i);
    LastDash(a, i);
    LastDash(b, j);
    assert |a| == |b|;
    assert a == x[..|a|] == b;
    assert NatToString(i) == x[|a| + 1..] == NatToString(j);
    NatToStringInjective(i, j);
  }

  /** No two records of the sequence share a file name. */
  predicate NamesDistinct(rs: seq<Record>)
  {
    forall a, b :: 0 <= a < b < |rs| ==> rs[a].name != rs[b].name
  }

  /** Option `i` of the sequence, when present, is named after the sheet and `i`. */
  predicate NamedByIndex(sheet: string, opts: seq<Option<Record>>)
  {
    forall i :: 0 <= i < |opts| && opts[i].Some? ==> opts[i].value.name == RecordName(sheet, i)
  }

  /** Every block that yields a record names it after the sheet and the block index. */
  lemma BlockOptionsNamed(sheet: string, rows: seq<Cell>, k: nat)
    ensures NamedByIndex(sheet, BlockOptions(sheet, rows, k))
  {
  }

  /** The values kept from options named by index are named by indices below `n`, all different. */
  lemma {:induction false} SomesNamed(sheet: string, opts: seq<Option<Record>>, n: nat)
    requires n <= |opts| && NamedByIndex(sheet, opts)
    ensures forall r :: r in Somes(opts, n) ==> exists i :: 0 <= i < n && r.name == RecordName(sheet, i)
    ensures NamesDistinct(Somes(opts, n))
  {
    if n > 0 {
      SomesNamed(sheet, opts, n - 1);
      var prev := Somes(opts, n - 1);
      var all := Somes(opts, n);
      if opts[n - 1].Some? {
        var last := opts[n - 1].value;
        assert all == prev + [last];
        assert last.name == RecordName(sheet, n - 1);
        forall a | 0 <= a < |prev| ensures prev[a].name != last.name {
          assert prev[a] in prev;
          var i :| 0 <= i < n - 1 && prev[a].name == RecordName(sheet, i);
          if prev[a].name == last.name {
            RecordNameInjective(sheet, i, sheet, n - 1);
          }
        }
      }
    }
  }

  /** Every record of the sequence is named after `sheet` and some block index. */
  ghost predicate NamedAfter(rs: seq<Record>, sheet: string)
  {
    forall r :: r in rs ==> exists i: nat :: r.name == RecordName(sheet, i)
  }

  /** Every record of a sheet is named by its own block index, and the names differ. */
  lemma SheetRecordsNamed(s: Sheet)
    ensures NamedAfter(SheetRecords(s), s.name)
    ensures NamesDistinct(SheetRecords(s))
  {
    var k := |s.rows| / RowsPerBlock;
    BlockOptionsNamed(s.name, s.rows, k);
    SomesNamed(s.name, BlockOptions(s.name, s.rows, k), k);
  }

  /** No two sheets of the bank share a name (a workbook enforces this). */
  predicate SheetNamesDistinct(bank: seq<Sheet>)
  {
    forall a, b :: 0 <= a < b < |bank| ==> bank[a].name != bank[b].name
  }

  /** Lists named after their sheets concatenate to records named after one of the first `n` sheets. */
  lemma {:induction false} ConcatNamed(xss: seq<seq<Record>>, bank: seq<Sheet>, n: nat)
    requires n <= |xss| == |bank|
    requires forall j :: 0 <= j < |xss| ==> NamedAfter(xss[j], bank[j].name)
    ensures forall r :: r in Concat(xss, n) ==> exists j, i: nat :: 0 <= j < n && r.name == RecordName(bank[j].name, i)
  {
    if n > 0 {
      ConcatNamed(xss, bank, n - 1);
      forall r | r in Concat(xss, n)
        ensures exists j, i: nat :: 0 <= j < n && r.name == RecordName(bank[j].name, i)
      {
        if r !in Concat(xss, n - 1) {
          assert r in xss[n - 1];
          var i: nat :| r.name == RecordName(bank[n - 1].name, i);
          assert n - 1 < n;
        }
      }
    }
  }

  /** No record of `xs` shares a file name with a record of `ys`. */
  predicate NoClash(xs: seq<Record>, ys: seq<Record>)
  {
    forall a, b :: 0 <= a < |xs| && 0 <= b < |ys| ==> xs[a].name != ys[b].name
  }

  /** Two sequences without clashes, and without clashes between them, concatenate to one without. */
  lemma NamesDistinctAppend(xs: seq<Record>, ys: seq<Record>)
    requires NamesDistinct(xs) && NamesDistinct(ys) && NoClash(xs, ys)
    ensures NamesDistinct(xs + ys)
  {
    var all := xs + ys;
    forall a, b | 0 <= a < b < |all| ensures all[a].name != all[b].name {
      if b < |xs| {
        assert all[a] == xs[a] && all[b] == xs[b];
      } else if a >= |xs| {
        assert all[a] == ys[a - |xs|] && all[b] == ys[b - |xs|];
      } else {
        assert all[a] == xs[a] && all[b] == ys[b - |xs|];
      }
    }
  }

  /** Lists with distinct names of their own, named after distinct sheets, concatenate without a clash. */
  lemma {:induction false} ConcatDistinct(xss: seq<seq<Record>>, bank: seq<Sheet>, n: nat)
    requires n <= |xss| == |bank| && SheetNamesDistinct(bank)
    requires forall j :: 0 <= j < |xss| ==> NamedAfter(xss[j], bank[j].name) && NamesDistinct(xss[j])
    ensures NamesDistinct(Concat(xss, n))
  {
    if n > 0 {
      ConcatDistinct(xss, bank, n - 1);
      ConcatNamed(xss, bank, n - 1);
      var xs, ys := Concat(xss, n - 1), xss[n - 1];
      forall a, b | 0 <= a < |xs| && 0 <= b < |ys| ensures xs[a].name != ys[b].name {
        assert xs[a] in xs && ys[b] in ys;
        var j, i: nat :| 0 <= j < n - 1 && xs[a].name == RecordName(bank[j].name, i);
        var i': nat :| ys[b].name == RecordName(bank[n - 1].name, i');
        if xs[a].name == ys[b].name {
          RecordNameInjective(bank[j].name, i, bank[n - 1].name, i');
        }
      }
      NamesDistinctAppend(xs, ys);
    }
  }

  /** Every sheet's own records are named after it, with distinct names. */
  lemma SheetRecordListsNamed(bank: seq<Sheet>)
    ensures forall j :: 0 <= j < |bank| ==>
      NamedAfter(SheetRecordLists(bank)[j], bank[j].name) && NamesDistinct(SheetRecordLists(bank)[j])
  {
    forall j | 0 <= j < |bank|
      ensures NamedAfter(SheetRecordLists(bank)[j], bank[j].name) && NamesDistinct(SheetRecordLists(bank)[j])
    {
      SheetRecordsNamed(bank[j]);
    }
  }

  /** Every record of the bank is named after one of its sheets and a block index. */
  lemma BankRecordsNamed(bank: seq<Sheet>)
    ensures forall r :: r in BankRecords(bank) ==>
      exists j, i: nat :: 0 <= j < |bank| && r.name == RecordName(bank[j].name, i)
  {
    SheetRecordListsNamed(bank);
    ConcatNamed(SheetRecordLists(bank), bank, |bank|);
  }

  /**
   * With distinct sheet names all file names of the bank differ, so writing
   * the records one after the other never overwrites a file: the write log
   * is the folder's content.
   */
  lemma BankNamesDistinct(bank: seq<Sheet>)
    requires SheetNamesDistinct(bank)
    ensures NamesDistinct(BankRecords(bank))
  {
    SheetRecordListsNamed(bank);
    ConcatDistinct(SheetRecordLists(bank), bank, |bank|);
  }

  // ---------------------------------------------------------------------
  // The working folder and the writer

  /** Appending twice is appending the concatenation. */
  lemma AppendAssoc<T>(xs: seq<T>, ys: seq<T>, zs: seq<T>)
    ensures xs + ys + zs == xs + (ys + zs)
  {
  }

  /** The working folder, seen as the log of the files written into it. */
  class Folder {
    var files: seq<Record>

    constructor ()
      ensures files == []
    {
      files := [];
    }

    method WriteText(name: string, content: string)
      modifies this
      ensures files == old(files) + [Record(name, content)]
    {
      files := files + [Record(name, content)];
    }
  }

  /** How many of the first `n` rows of `w` exist: the smaller of `n` and `|w|`. */
  function RowsSeen(n: nat, w: seq<Cell>): nat
  {
    if n < |w| then n else |w|
  }

  /**
   * Looking at response row `start + i` extends the responses gathered so
   * far by its trimmed text when it exists and is present, and by nothing
   * otherwise.
   */
  lemma ResponsesStep(rows: seq<Cell>, start: nat, i: nat)
    requires 1 <= i <= ResponsesPerQuestion
    ensures var w := Window(rows, start + 1, start + 1 + ResponsesPerQuestion);
      PresentUpTo(w, RowsSeen(i, w)) ==
      PresentUpTo(w, RowsSeen(i - 1, w)) + (if start + i < |rows| then CellText(rows[start + i]) else [])
  {
    var w := Window(rows, start + 1, start + 1 + ResponsesPerQuestion);
    WindowShape(rows, start + 1, start + 1 + ResponsesPerQuestion);
    if start + i < |rows| {
      assert i - 1 < |w| && w[i - 1] == rows[start + i];
    }
  }

  /**
   * The response loop of the writer: the trimmed present cells among the
   * four rows after `start`, as far as they exist.
   */
  method CollectResponses(rows: seq<Cell>, start: nat) returns (responses: seq<string>)
    ensures responses == Responses(rows, start)
    ensures |responses| <= ResponsesPerQuestion
  {
    ghost var w := Window(rows, start + 1, start + 1 + ResponsesPerQuestion);
    responses := [];
    for i := 1 to ResponsesPerQuestion + 1
      invariant responses == PresentUpTo(w, RowsSeen(i - 1, w))
    {
      var respIdx := start + i;
      ResponsesStep(rows, start, i);
      if respIdx < |rows| && rows[respIdx].Some? {
        responses := responses + [Trim(rows[respIdx].value)];
      }
    }
    WindowShape(rows, start + 1, start + 1 + ResponsesPerQuestion);
    PresentCount(w, |w|);
  }

  /** Writes block `index` (prompt row `start`) of a sheet, if it has a prompt. */
  method WriteQuestionFile(folder: Folder, sheet: string, index: nat, rows: seq<Cell>, start: nat)
    modifies folder
    ensures folder.files == old(folder.files) + OptionToSeq(BlockRecord(sheet, rows, index, start))
  {
    var filename := RecordName(sheet, index);
    if start >= |rows| {
      return;
    }
    var questionRow := rows[start];
    if questionRow.None? {
      return;
    }
    var question := Trim(questionRow.value);
    var responses := CollectResponses(rows, start);
    var content := question + Delimiter + Join(responses, Delimiter) + Delimiter;
    folder.WriteText(filename, content);
  }

  /** Writing block `i` after the blocks before it gives the blocks up to `i`. */
  lemma WriteBlocksStep(base: seq<Record>, before: seq<Record>, after: seq<Record>,
                        sheet: string, rows: seq<Cell>, i: nat, count: nat)
    requires i < count
    requires before == base + Somes(BlockOptions(sheet, rows, count), i)
    requires after == before + OptionToSeq(BlockRecord(sheet, rows, i, RowsPerBlock * i))
    ensures after == base + Somes(BlockOptions(sheet, rows, count), i + 1)
  {
    var opts := BlockOptions(sheet, rows, count);
    assert opts[i] == BlockRecord(sheet, rows, i, RowsPerBlock * i);
    AppendAssoc(base, Somes(opts, i), OptionToSeq(opts[i]));
  }

  /** Writes the blocks `0 .. count - 1` of one sheet. */
  method WriteBlocks(folder: Folder, sheet: string, rows: seq<Cell>, count: nat)
    modifies folder
    ensures folder.files == old(folder.files) + Blocks(sheet, rows, count)
  {
    for i := 0 to count
      invariant folder.files == old(folder.files) + Somes(BlockOptions(sheet, rows, count), i)
    {
      var startIdx := RowsPerBlock * i;
      ghost var before := folder.files;
      WriteQuestionFile(folder, sheet, i, rows, startIdx);
      WriteBlocksStep(old(folder.files), before, folder.files, sheet, rows, i, count);
    }
  }

  /**
   * Writes the records of one sheet. The three branches the program takes
   * (exactly one block, a multiple of five rows, a remainder that is
   * dropped) all write the same blocks `0 .. |rows| / 5 - 1`.
   */
  method ParseSheet(folder: Folder, sheet: Sheet)
    modifies folder
    ensures folder.files == old(folder.files) + SheetRecords(sheet)
  {
    var elements := sheet.rows;
    if |elements| == 0 {
      // an empty sheet writes nothing but stays in the returned list
      assert SheetRecords(sheet) == [];
    } else if |elements| == RowsPerBlock {
      WriteQuestionFile(folder, sheet.name, 0, elements, 0);
      ghost var opts := BlockOptions(sheet.name, elements, 1);
      assert SheetRecords(sheet) == Somes(opts, 0) + OptionToSeq(opts[0]);
    } else if |elements| % RowsPerBlock == 0 {
      var numQuestions := |elements| / RowsPerBlock;
      WriteBlocks(folder, sheet.name, elements, numQuestions);
    } else {
      // the rows after the last complete block are dropped
      var numQuestions := |elements| / RowsPerBlock;
      WriteBlocks(folder, sheet.name, elements, numQuestions);
    }
  }

  /** Writes the records of every sheet of the bank, sheet after sheet. */
  method WriteBank(folder: Folder, bank: seq<Sheet>)
    modifies folder
    ensures folder.files == old(folder.files) + BankRecords(bank)
  {
    for s := 0 to |bank|
      invariant folder.files == old(folder.files) + BankRecordsUpTo(bank, s)
    {
      ParseSheet(folder, bank[s]);
      AppendAssoc(old(folder.files), BankRecordsUpTo(bank, s), SheetRecords(bank[s]));
      BankRecordsStep(bank, s);
    }
  }

  /**
   * Parses the bank into the folder and returns the names of all its sheets,
   * empty ones included; a workbook without sheets is an error.
   */
  method ParseQuestions(bank: seq<Sheet>, folder: Folder) returns (result: Result<seq<string>, ParseError>)
    modifies folder
    ensures bank == [] ==> result == Failure(NoSheets) && folder.files == old(folder.files)
    ensures bank != [] ==> result == Success(SheetNames(bank))
    ensures bank != [] ==> folder.files == old(folder.files) + BankRecords(bank)
  {
    if |bank| == 0 {
      return Failure(NoSheets);
    }
    WriteBank(folder, bank);
    return Success(SheetNames(bank));
  }
}
