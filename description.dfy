/**
 * The description script the randomiser reads: a working-directory line,
 * the seed, the first serial number, one `use` line per category in the
 * order the bank lists them, and the number of variants to create.
 */
module Description {
  import opened Text
  import opened QuestionBank

  /** The settings of one generation run that reach the script. */
  datatype Settings = Settings(usagePerCategory: int, seed: int, serialStart: int, numTests: int)

  /** The file-name pattern that selects every record of a sheet. */
  function Pattern(sheet: string): string
  {
    sheet + "-*"
  }

  /** The line asking for `usage` questions of one category. */
  function UseLine(usage: int, sheet: string): string
  {
    "use " + IntToString(usage) + " from \"" + Pattern(sheet) + "\";"
  }

  /** One `use` line per sheet, in the given order. */
  function UseLines(usage: int, sheets: seq<string>): (lines: seq<string>)
    ensures |lines| == |sheets|
    ensures forall k :: 0 <= k < |sheets| ==> lines[k] == UseLine(usage, sheets[k])
  {
    if sheets == [] then [] else [UseLine(usage, sheets[0])] + UseLines(usage, sheets[1..])
  }

  /** The lines before the `use` lines, the first of them empty. */
  function HeaderLines(cfg: Settings): seq<string>
  {
    ["", "directory \".\";", "seed " + IntToString(cfg.seed) + ";", "serial " + IntToString(cfg.serialStart) + ";"]
  }

  function CreateLine(cfg: Settings): string
  {
    "create " + IntToString(cfg.numTests) + ";"
  }

  /**
   * The script text: its pieces joined by line feeds, the `use` lines
   * themselves joined into one piece, and no line feed after the last line.
   */
  function MuchDescription(sheets: seq<string>, cfg: Settings): string
  {
    Join(HeaderLines(cfg) + [Join(UseLines(cfg.usagePerCategory, sheets), "\n"), CreateLine(cfg)], "\n")
  }

  /** A rendered integer holds no line feed. */
  lemma IntToStringSingleLine(i: int)
    ensures '\n' !in IntToString(i)
  {
    var s := IntToString(i);
    IntToStringDigits(i);
    forall k | 0 <= k < |s| ensures s[k] != '\n' {
      assert IsDigit(s[k]) || s[k] == '-';
    }
  }

  /** The lines the script consists of. */
  function ScriptLines(sheets: seq<string>, cfg: Settings): seq<string>
  {
    HeaderLines(cfg) + (if sheets == [] then [""] else UseLines(cfg.usagePerCategory, sheets)) + [CreateLine(cfg)]
  }

  /** Text around a single-line rendered integer stays on one line. */
  lemma AroundInt(pre: string, i: int, post: string)
    requires '\n' !in pre && '\n' !in post
    ensures '\n' !in pre + IntToString(i) + post
  {
    var s := pre + IntToString(i) + post;
    IntToStringSingleLine(i);
    forall k | 0 <= k < |s| ensures s[k] != '\n' {
      if k < |pre| {
        assert s[k] == pre[k];
      } else if k < |pre| + |IntToString(i)| {
        assert s[k] == IntToString(i)[k - |pre|];
      } else {
        assert s[k] == post[k - |pre| - |IntToString(i)|];
      }
    }
  }

  /** A `use` line of a single-line sheet name is one line. */
  lemma UseLineSingle(usage: int, sheet: string)
    requires '\n' !in sheet
    ensures '\n' !in UseLine(usage, sheet)
  {
    var post := " from \"" + Pattern(sheet) + "\";";
    forall k | 0 <= k < |post| ensures post[k] != '\n' {
      if 7 <= k < 7 + |sheet| {
        assert post[k] == sheet[k - 7];
      }
    }
    AroundInt("use ", usage, post);
    assert UseLine(usage, sheet) == "use " + IntToString(usage) + post;
  }

  /** No line of the script holds a line feed when no sheet name does. */
  lemma ScriptLinesSingle(sheets: seq<string>, cfg: Settings)
    requires forall k :: 0 <= k < |sheets| ==> '\n' !in sheets[k]
    ensures forall k :: 0 <= k < |ScriptLines(sheets, cfg)| ==> '\n' !in ScriptLines(sheets, cfg)[k]
  {
    var header := HeaderLines(cfg);
    var lines := ScriptLines(sheets, cfg);
    AroundInt("seed ", cfg.seed, ";");
    AroundInt("serial ", cfg.serialStart, ";");
    AroundInt("create ", cfg.numTests, ";");
    forall k | 0 <= k < |lines| ensures '\n' !in lines[k] {
      if k < |header| {
        assert lines[k] == header[k];
      } else if k == |lines| - 1 {
        assert lines[k] == CreateLine(cfg);
      } else if sheets != [] {
        assert lines[k] == UseLine(cfg.usagePerCategory, sheets[k - |header|]);
        UseLineSingle(cfg.usagePerCategory, sheets[k - |header|]);
      }
    }
  }

  /** The script text is its lines joined by line feeds. */
  lemma ScriptIsJoinedLines(sheets: seq<string>, cfg: Settings)
    ensures MuchDescription(sheets, cfg) == Join(ScriptLines(sheets, cfg), "\n")
  {
    var header := HeaderLines(cfg);
    var uses := UseLines(cfg.usagePerCategory, sheets);
    var create := CreateLine(cfg);
    if sheets != [] {
      JoinConcat(header, [Join(uses, "\n"), create], "\n");
      JoinConcat([Join(uses, "\n")], [create], "\n");
      JoinConcat(uses, [create], "\n");
      JoinConcat(header, uses + [create], "\n");
      assert header + [Join(uses, "\n"), create] == header + ([Join(uses, "\n")] + [create]);
      assert ScriptLines(sheets, cfg) == header + (uses + [create]);
    } else {
      assert Join(uses, "\n") == "";
      assert ScriptLines(sheets, cfg) == header + ["", create];
    }
  }

  /**
   * Read line by line, the script is the four header lines, then exactly one
   * `use` line per sheet in the given order (a single empty line when there
   * are no sheets), then the `create` line. Sheet names are assumed not to
   * hold a line feed.
   */
  lemma DescriptionLines(sheets: seq<string>, cfg: Settings)
    requires forall k :: 0 <= k < |sheets| ==> '\n' !in sheets[k]
    ensures Split(MuchDescription(sheets, cfg), '\n') ==
      HeaderLines(cfg) + (if sheets == [] then [""] else UseLines(cfg.usagePerCategory, sheets)) + [CreateLine(cfg)]
  {
    ScriptLinesSingle(sheets, cfg);
    ScriptIsJoinedLines(sheets, cfg);
    SplitJoin(ScriptLines(sheets, cfg), '\n');
  }

  /** The script has one `use` line for every sheet name, matched by position. */
  lemma UseLinePerSheet(sheets: seq<string>, cfg: Settings, k: nat)
    requires forall k :: 0 <= k < |sheets| ==> '\n' !in sheets[k]
    requires k < |sheets|
    ensures |Split(MuchDescription(sheets, cfg), '\n')| == |sheets| + 5
    ensures Split(MuchDescription(sheets, cfg), '\n')[4 + k] == UseLine(cfg.usagePerCategory, sheets[k])
  {
    DescriptionLines(sheets, cfg);
  }

  /**
   * Every record the bank parser writes is selected by the pattern of the
   * `use` line of the sheet it came from.
   */
  lemma EveryRecordSelected(bank: seq<Sheet>, r: Record)
    requires r in BankRecords(bank)
    ensures exists j :: 0 <= j < |bank| && SheetNames(bank)[j] + "-" <= r.name
  {
    BankRecordsNamed(bank);
    var j, i: nat :| 0 <= j < |bank| && r.name == RecordName(bank[j].name, i);
    assert SheetNames(bank)[j] + "-" <= r.name;
  }

  /**
   * The pattern of one sheet reaches further than its own records: when a
   * sheet name is another sheet's name followed by a dash, every record of
   * it also starts with the other sheet's prefix `<sheet>-`.
   */
  lemma PatternOverlap(shorter: string, longer: string, i: nat)
    requires shorter + "-" <= longer
    ensures shorter != longer
    ensures shorter + "-" <= RecordName(longer, i)
  {
    assert RecordName(longer, i) == longer + ("-" + NatToString(i));
  }

  /** Record `a-1-0` of sheet `a-1` starts with `a-`, the prefix the pattern of sheet `a` selects. */
  lemma OverlapExample()
    ensures RecordName("a-1", 0) == "a-1-0"
    ensures Pattern("a") == "a-*" && "a" + "-" <= RecordName("a-1", 0)
  {
    PatternOverlap("a", "a-1", 0);
  }
}
