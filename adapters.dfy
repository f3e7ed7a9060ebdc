/**
  The tool adapters of app.py: `check_ast_syntax`, `run_ruff`, `run_mypy`,
  `run_bandit`, `run_black_check`, `run_isort_check`, `run_pydocstyle` and
  `run_smoke_test`. Each turns one tool's raw result into finding rows and
  an optional "not available" reason.

  The effects at the edges are inputs: the temporary file's path `tmp`,
  what the subprocess did (`ProcOutcome`), what `json.loads` returned for
  stdout (`None` when it raised), and what `ast.parse` reported.
*/
module Adapters {
  import opened Wrappers
  import opened PyStr
  import opened Findings
  import opened Process
  import opened Seqs
  import opened LineParsers

  /** What an adapter returns: its rows and, when the tool is missing, the reason. */
  datatype ToolOutcome = ToolOutcome(rows: seq<Row>, unavailable: Option<string>)

  /** An exception an adapter lets escape: `json.loads` rejecting a tool's stdout. */
  datatype Raised = JsonDecodeError(tool: string)

  /** The result of a tool that was not found: no rows, and the reason. */
  function NotInstalled(tool: string): ToolOutcome {
    ToolOutcome([], Some(tool + " not installed"))
  }

  /** The result of a tool that ran: its rows, and no reason. */
  function Available(rows: seq<Row>): ToolOutcome {
    ToolOutcome(rows, None)
  }

  // ---------------------------------------------------------------- AST

  /** What `ast.parse` raised: `e.msg`, and `e.lineno` / `e.offset` (each may be `None`). */
  datatype SyntaxErrorInfo = SyntaxErrorInfo(msg: string, lineno: Value, offset: Value)

  /** The row `check_ast_syntax` builds from a syntax error. */
  function SyntaxRow(e: SyntaxErrorInfo): (r: Row)
    ensures r.source == "AST" && r.rule == Str("SyntaxError") && r.typ == Str("SyntaxError")
    ensures Normalised(Str(e.msg), r.message) && r.file == Str("<input>") && r.severity == Str("")
    ensures Normalised(e.lineno, r.line) && Normalised(e.offset, r.column)
  {
    NormRow("AST", Str("SyntaxError"), Str("SyntaxError"), Str(e.msg), e.lineno, e.offset, Str("<input>"), Nil)
  }

  /**
    `check_ast_syntax`, given what `ast.parse` did: no rows when the code
    parses, exactly one AST row for a syntax error.
  */
  function CheckAstSyntax(parsed: Option<SyntaxErrorInfo>): (rows: seq<Row>)
    ensures parsed.None? <==> rows == []
    ensures parsed.Some? ==> rows == [SyntaxRow(parsed.value)]
  {
    match parsed
    case None => []
    case Some(e) => [SyntaxRow(e)]
  }

  // ---------------------------------------------------------------- Ruff

  /** The command line `run_ruff` spawns. */
  function RuffCommand(tmp: string): seq<string> {
    ["ruff", "check", "--output-format=json", tmp]
  }

  /** A Ruff diagnostic's "location" object; `None` for a key that is absent. */
  datatype RuffLocation = RuffLocation(row: Option<Value>, column: Option<Value>)

  /** One decoded Ruff diagnostic; `None` for a key that is absent. */
  datatype RuffItem = RuffItem(
    code: Option<Value>,
    message: Option<Value>,
    location: Option<RuffLocation>,
    filename: Option<Value>)

  /**
    The row `run_ruff` builds from one diagnostic: rule from "code",
    message from "message", line and column from "location"'s "row" and
    "column" (empty when "location" is absent), and the file from
    "filename", "<input>" when that key is absent.
  */
  function RuffRow(item: RuffItem): (r: Row)
    ensures r.source == "Ruff" && r.typ == Str("Lint/Style") && r.severity == Str("")
    ensures Normalised(item.code.GetOr(Str("")), r.rule)
    ensures Normalised(item.message.GetOr(Str("")), r.message)
    ensures item.location.None? ==> r.line == Str("") && r.column == Str("")
    ensures item.location.Some? ==> Normalised(item.location.value.row.GetOr(Nil), r.line)
    ensures item.location.Some? ==> Normalised(item.location.value.column.GetOr(Nil), r.column)
    ensures item.filename.None? ==> r.file == Str("<input>")
    ensures item.filename.Some? ==> Normalised(item.filename.value, r.file)
  {
    var loc := item.location.GetOr(RuffLocation(None, None));
    NormRow("Ruff", item.code.GetOr(Str("")), Str("Lint/Style"), item.message.GetOr(Str("")),
            loc.row.GetOr(Nil), loc.column.GetOr(Nil), item.filename.GetOr(Str("<input>")), Nil)
  }

  /**
    `run_ruff`: return code 127 means "Ruff not installed" whatever the
    output; blank stdout means no rows; otherwise stdout is decoded, a
    decoding failure escapes, and each decoded diagnostic gives exactly
    one row, in order.
  */
  function RuffFindings(tmp: string, p: ProcOutcome, decoded: Option<seq<RuffItem>>): (r: Result<ToolOutcome, Raised>)
    ensures var c := Run(RuffCommand(tmp), p);
      && (c.rc == NotInstalledCode ==> r == Ok(NotInstalled("Ruff")))
      && (c.rc != NotInstalledCode && IsBlank(c.out) ==> r == Ok(Available([])))
      && (c.rc != NotInstalledCode && !IsBlank(c.out) && decoded.None? ==> r == Err(JsonDecodeError("Ruff")))
      && (c.rc != NotInstalledCode && !IsBlank(c.out) && decoded.Some? ==>
            r.Ok? && r.value.unavailable.None? && |r.value.rows| == |decoded.value|
            && forall k :: 0 <= k < |decoded.value| ==> r.value.rows[k] == RuffRow(decoded.value[k]))
  {
    var c := Run(RuffCommand(tmp), p);
    if c.rc == NotInstalledCode then Ok(NotInstalled("Ruff"))
    else if Strip(c.out) == [] then Ok(Available([]))
    else match decoded
      case None => Err(JsonDecodeError("Ruff"))
      case Some(items) => Ok(Available(MapSeq(RuffRow, items)))
  }

  /** `run_ruff` as the source writes it: the append loop over the decoded diagnostics. */
  method RunRuff(tmp: string, p: ProcOutcome, decoded: Option<seq<RuffItem>>) returns (res: Result<ToolOutcome, Raised>)
    ensures res == RuffFindings(tmp, p, decoded)
  {
    var c := Run(RuffCommand(tmp), p);
    if c.rc == NotInstalledCode {
      return Ok(NotInstalled("Ruff"));
    }
    if Strip(c.out) == [] {
      return Ok(Available([]));
    }
    if decoded.None? {
      return Err(JsonDecodeError("Ruff"));
    }
    var items := decoded.value;
    var rows: seq<Row> := [];
    var i := 0;
    while i < |items|
      invariant 0 <= i <= |items|
      invariant rows == MapSeq(RuffRow, items[..i])
    {
      MapSnoc(RuffRow, items, i);
      rows := rows + [RuffRow(items[i])];
      i := i + 1;
    }
    assert items[..i] == items;
    return Ok(Available(rows));
  }

  // ---------------------------------------------------------------- mypy

  /** The command line `run_mypy` spawns. */
  function MypyCommand(tmp: string): seq<string> {
    ["mypy", "--hide-error-context", "--no-pretty", "--show-column-numbers", "--no-error-summary", "--strict", tmp]
  }

  /**
    `run_mypy`: return code 127 means "mypy not installed"; otherwise the
    rows are those the mypy line parser accepts from the lines of
    `out + "\n" + err`, which are stdout's rows followed by stderr's.
  */
  function MypyFindings(tmp: string, p: ProcOutcome): (r: ToolOutcome)
    ensures var c := Run(MypyCommand(tmp), p);
      && (c.rc == NotInstalledCode ==> r == NotInstalled("mypy"))
      && (c.rc != NotInstalledCode ==>
            r == Available(LineRows(Mypy, tmp, SplitLines(c.out)) + LineRows(Mypy, tmp, SplitLines(c.err))))
  {
    var c := Run(MypyCommand(tmp), p);
    JoinedStreams(Mypy, tmp, c.out, c.err);
    if c.rc == NotInstalledCode then NotInstalled("mypy")
    else Available(LineRows(Mypy, tmp, SplitLines(c.out + "\n" + c.err)))
  }

  /** `run_mypy` as the source writes it: the loop over the output lines, skipping those it cannot read. */
  method RunMypy(tmp: string, p: ProcOutcome) returns (res: ToolOutcome)
    ensures res == MypyFindings(tmp, p)
  {
    var c := Run(MypyCommand(tmp), p);
    if c.rc == NotInstalledCode {
      return NotInstalled("mypy");
    }
    var lines := SplitLines(c.out + "\n" + c.err);
    var rows: seq<Row> := [];
    var i := 0;
    while i < |lines|
      invariant 0 <= i <= |lines|
      invariant rows == LineRows(Mypy, tmp, lines[..i])
    {
      LineRowsSnoc(Mypy, tmp, lines, i);
      var parsed := MypyLine(lines[i], tmp);
      if parsed.Some? {
        rows := rows + [parsed.value];
      }
      i := i + 1;
    }
    assert lines[..i] == lines;
    return Available(rows);
  }

  /**
    Every mypy row is a type finding on "<input>" with a stripped message,
    and it was read from a line of the output that names "<tmp>:".
  */
  lemma MypyRowsShape(tmp: string, p: ProcOutcome, row: Row)
    requires row in MypyFindings(tmp, p).rows
    ensures row.source == "mypy" && row.typ == Str("TypeError/Typing") && row.file == Str("<input>")
    ensures row.message.Str? && Strip(row.message.s) == row.message.s
    ensures var c := Run(MypyCommand(tmp), p);
      exists line :: line in SplitLines(c.out) + SplitLines(c.err) && Contains(line, tmp + ":")
  {
    var c := Run(MypyCommand(tmp), p);
    var lo, le := SplitLines(c.out), SplitLines(c.err);
    assert row in LineRows(Mypy, tmp, lo) + LineRows(Mypy, tmp, le);
    var line := MypyRowLine(tmp, lo, le, row);
  }

  /** The line of either stream that a mypy row was read from. */
  lemma MypyRowLine(tmp: string, lo: seq<string>, le: seq<string>, row: Row) returns (line: string)
    requires row in LineRows(Mypy, tmp, lo) + LineRows(Mypy, tmp, le)
    ensures line in lo + le && MypyLine(line, tmp) == Some(row)
  {
    var lines := if row in LineRows(Mypy, tmp, lo) then lo else le;
    RowFromLine(Mypy, tmp, lines, row);
    var j :| 0 <= j < |lines| && MypyLine(lines[j], tmp) == Some(row);
    line := lines[j];
    assert line in lo + le;
  }

  // ---------------------------------------------------------------- Bandit

  /** The command line `run_bandit` spawns. */
  function BanditCommand(tmp: string): seq<string> {
    ["bandit", "-f", "json", "-q", tmp]
  }

  /** One decoded Bandit issue; `None` for a key that is absent. */
  datatype BanditIssue = BanditIssue(
    testId: Option<Value>,
    issueText: Option<Value>,
    lineNumber: Option<Value>,
    filename: Option<Value>,
    issueSeverity: Option<Value>)

  /** Bandit's decoded report: its "results" list, `None` when the key is absent. */
  datatype BanditReport = BanditReport(results: Option<seq<BanditIssue>>)

  /**
    The row `run_bandit` builds from one issue: rule from "test_id",
    message from "issue_text", line from "line_number", file from
    "filename" and severity from "issue_severity"; the column is always
    empty.
  */
  function BanditRow(issue: BanditIssue): (r: Row)
    ensures r.source == "Bandit" && r.typ == Str("Security") && r.column == Str("")
    ensures Normalised(issue.testId.GetOr(Str("")), r.rule)
    ensures Normalised(issue.issueText.GetOr(Str("")), r.message)
    ensures Normalised(issue.lineNumber.GetOr(Nil), r.line)
    ensures Normalised(issue.filename.GetOr(Nil), r.file)
    ensures Normalised(issue.issueSeverity.GetOr(Nil), r.severity)
  {
    NormRow("Bandit", issue.testId.GetOr(Str("")), Str("Security"), issue.issueText.GetOr(Str("")),
            issue.lineNumber.GetOr(Nil), Nil, issue.filename.GetOr(Nil), issue.issueSeverity.GetOr(Nil))
  }

  /**
    `run_bandit`: return code 127 means "Bandit not installed"; blank
    stdout means no rows; otherwise stdout is decoded, a decoding failure
    escapes, and each issue under "results" (none when the key is absent)
    gives exactly one row, in order.
  */
  function BanditFindings(tmp: string, p: ProcOutcome, decoded: Option<BanditReport>): (r: Result<ToolOutcome, Raised>)
    ensures var c := Run(BanditCommand(tmp), p);
      && (c.rc == NotInstalledCode ==> r == Ok(NotInstalled("Bandit")))
      && (c.rc != NotInstalledCode && IsBlank(c.out) ==> r == Ok(Available([])))
      && (c.rc != NotInstalledCode && !IsBlank(c.out) && decoded.None? ==> r == Err(JsonDecodeError("Bandit")))
      && (c.rc != NotInstalledCode && !IsBlank(c.out) && decoded.Some? ==>
            var issues := decoded.value.results.GetOr([]);
            r.Ok? && r.value.unavailable.None? && |r.value.rows| == |issues|
            && forall k :: 0 <= k < |issues| ==> r.value.rows[k] == BanditRow(issues[k]))
  {
    var c := Run(BanditCommand(tmp), p);
    if c.rc == NotInstalledCode then Ok(NotInstalled("Bandit"))
    else if Strip(c.out) == [] then Ok(Available([]))
    else match decoded
      case None => Err(JsonDecodeError("Bandit"))
      case Some(report) => Ok(Available(MapSeq(BanditRow, report.results.GetOr([]))))
  }

  /** `run_bandit` as the source writes it: the append loop over the decoded issues. */
  method RunBandit(tmp: string, p: ProcOutcome, decoded: Option<BanditReport>) returns (res: Result<ToolOutcome, Raised>)
    ensures res == BanditFindings(tmp, p, decoded)
  {
    var c := Run(BanditCommand(tmp), p);
    if c.rc == NotInstalledCode {
      return Ok(NotInstalled("Bandit"));
    }
    var rows: seq<Row> := [];
    if Strip(c.out) != [] {
      if decoded.None? {
        return Err(JsonDecodeError("Bandit"));
      }
      var issues := decoded.value.results.GetOr([]);
      var i := 0;
      while i < |issues|
        invariant 0 <= i <= |issues|
        invariant rows == MapSeq(BanditRow, issues[..i])
      {
        MapSnoc(BanditRow, issues, i);
        rows := rows + [BanditRow(issues[i])];
        i := i + 1;
      }
      assert issues[..i] == issues;
    }
    return Ok(Available(rows));
  }

  // ---------------------------------------------------------------- Black and isort

  /** The command line `run_black_check` spawns. */
  function BlackCommand(tmp: string): seq<string> {
    ["black", "--check", "--diff", tmp]
  }

  /** The command line `run_isort_check` spawns. */
  function IsortCommand(tmp: string): seq<string> {
    ["isort", "--check-only", "--diff", tmp]
  }

  /** The one fixed row a failing Black check reports. */
  function BlackRow(): (r: Row)
    ensures r.source == "Black" && r.rule == Str("format") && r.typ == Str("Formatting")
    ensures r.message == Str("File would be reformatted") && r.file == Str("<input>")
    ensures r.line == Str("") && r.column == Str("") && r.severity == Str("")
  {
    NormRow("Black", Str("format"), Str("Formatting"), Str("File would be reformatted"), Nil, Nil, Str("<input>"), Nil)
  }

  /** The one fixed row a failing isort check reports. */
  function IsortRow(): (r: Row)
    ensures r.source == "isort" && r.rule == Str("imports") && r.typ == Str("Import Order")
    ensures r.message == Str("Imports not correctly sorted") && r.file == Str("<input>")
    ensures r.line == Str("") && r.column == Str("") && r.severity == Str("")
  {
    NormRow("isort", Str("imports"), Str("Import Order"), Str("Imports not correctly sorted"), Nil, Nil, Str("<input>"), Nil)
  }

  /**
    The decision Black's and isort's adapters share: return code 127 means
    the tool is not installed, 0 means no rows, and any other code — the
    timeout sentinel 124 included — gives exactly the tool's fixed row.
    The output streams are never read.
  */
  function ExitCodeCheck(tool: string, row: Row, c: Completed): (r: ToolOutcome)
    ensures c.rc == NotInstalledCode ==> r == NotInstalled(tool)
    ensures c.rc == 0 ==> r == Available([])
    ensures c.rc != NotInstalledCode && c.rc != 0 ==> r == Available([row])
  {
    if c.rc == NotInstalledCode then NotInstalled(tool)
    else if c.rc != 0 then Available([row])
    else Available([])
  }

  /** Black and isort read only the return code. */
  lemma ExitCodeIgnoresStreams(tool: string, row: Row, c: Completed)
    ensures ExitCodeCheck(tool, row, c) == ExitCodeCheck(tool, row, Completed(c.rc, "", ""))
  {
  }

  /**
    `run_black_check`: not installed when the executable is missing or exits with
    127, no rows when it exits with 0, and the fixed row for any other exit
    code and for a timeout.
  */
  function BlackFindings(tmp: string, p: ProcOutcome): (r: ToolOutcome)
    ensures p.NotFound? ==> r == NotInstalled("Black")
    ensures p.TimedOut? ==> r == Available([BlackRow()])
    ensures p.Exited? && p.returncode == NotInstalledCode ==> r == NotInstalled("Black")
    ensures p.Exited? && p.returncode == 0 ==> r == Available([])
    ensures p.Exited? && p.returncode != NotInstalledCode && p.returncode != 0 ==> r == Available([BlackRow()])
  {
    ExitCodeCheck("Black", BlackRow(), Run(BlackCommand(tmp), p))
  }

  /**
    `run_isort_check`: not installed when the executable is missing or exits with
    127, no rows when it exits with 0, and the fixed row for any other exit
    code and for a timeout.
  */
  function IsortFindings(tmp: string, p: ProcOutcome): (r: ToolOutcome)
    ensures p.NotFound? ==> r == NotInstalled("isort")
    ensures p.TimedOut? ==> r == Available([IsortRow()])
    ensures p.Exited? && p.returncode == NotInstalledCode ==> r == NotInstalled("isort")
    ensures p.Exited? && p.returncode == 0 ==> r == Available([])
    ensures p.Exited? && p.returncode != NotInstalledCode && p.returncode != 0 ==> r == Available([IsortRow()])
  {
    ExitCodeCheck("isort", IsortRow(), Run(IsortCommand(tmp), p))
  }

  /**
    A Black or isort run that timed out is reported as a formatting or
    import-order finding, because the timeout sentinel is a non-zero code.
  */
  lemma TimeoutReportsFinding(tmp: string)
    ensures BlackFindings(tmp, TimedOut) == Available([BlackRow()])
    ensures IsortFindings(tmp, TimedOut) == Available([IsortRow()])
  {
    assert Run(BlackCommand(tmp), TimedOut).rc == TimeoutCode;
    assert Run(IsortCommand(tmp), TimedOut).rc == TimeoutCode;
  }

  // ---------------------------------------------------------------- pydocstyle

  /** The command line `run_pydocstyle` spawns. */
  function PydocstyleCommand(tmp: string): seq<string> {
    ["pydocstyle", tmp]
  }

  /**
    `run_pydocstyle`: return code 127 means "pydocstyle not installed";
    otherwise the rows are those the pydocstyle line parser accepts from
    the lines of stdout. Standard error is never read.
  */
  function PydocstyleFindings(tmp: string, p: ProcOutcome): (r: ToolOutcome)
    ensures p.NotFound? ==> r == NotInstalled("pydocstyle")
    ensures p.TimedOut? ==> r == Available([])
    ensures p.Exited? && p.returncode == NotInstalledCode ==> r == NotInstalled("pydocstyle")
    ensures p.Exited? && p.returncode != NotInstalledCode ==>
              r == Available(LineRows(Pydocstyle, tmp, SplitLines(p.stdout)))
  {
    var c := Run(PydocstyleCommand(tmp), p);
    assert SplitLines("") == [];
    if c.rc == NotInstalledCode then NotInstalled("pydocstyle")
    else Available(LineRows(Pydocstyle, tmp, SplitLines(c.out)))
  }

  /** `run_pydocstyle` as the source writes it: the loop over stdout's lines, skipping those it cannot read. */
  method RunPydocstyle(tmp: string, p: ProcOutcome) returns (res: ToolOutcome)
    ensures res == PydocstyleFindings(tmp, p)
  {
    var c := Run(PydocstyleCommand(tmp), p);
    if c.rc == NotInstalledCode {
      return NotInstalled("pydocstyle");
    }
    var lines := SplitLines(c.out);
    var rows: seq<Row> := [];
    var i := 0;
    while i < |lines|
      invariant 0 <= i <= |lines|
      invariant rows == LineRows(Pydocstyle, tmp, lines[..i])
    {
      LineRowsSnoc(Pydocstyle, tmp, lines, i);
      var parsed := PydocstyleLine(lines[i], tmp);
      if parsed.Some? {
        rows := rows + [parsed.value];
      }
      i := i + 1;
    }
    assert lines[..i] == lines;
    return Available(rows);
  }

  /**
    Every pydocstyle row is a docstring finding on "<input>" with no
    column, whose message is a stripped stdout line that names "<tmp>:".
  */
  lemma PydocstyleRowsShape(tmp: string, p: ProcOutcome, row: Row)
    requires row in PydocstyleFindings(tmp, p).rows
    ensures row.source == "pydocstyle" && row.typ == Str("Docstring")
    ensures row.file == Str("<input>") && row.column == Str("")
    ensures exists line ::
      line in SplitLines(Run(PydocstyleCommand(tmp), p).out) && Contains(line, tmp + ":") && row.message == Str(Strip(line))
  {
    var lines := SplitLines(Run(PydocstyleCommand(tmp), p).out);
    RowFromLine(Pydocstyle, tmp, lines, row);
    var j :| 0 <= j < |lines| && PydocstyleLine(lines[j], tmp) == Some(row);
    assert lines[j] in lines;
  }

  /** pydocstyle's result does not depend on what it wrote to stderr. */
  lemma PydocstyleIgnoresStderr(tmp: string, rc: int, out: string, err1: string, err2: string)
    ensures PydocstyleFindings(tmp, Exited(rc, out, err1)) == PydocstyleFindings(tmp, Exited(rc, out, err2))
  {
  }

  /**
    A tool that itself exits with 127 cannot be told from a missing one:
    every adapter that checks the code reports it as not installed,
    whatever it printed.
  */
  lemma ExitCode127ReadsNotInstalled(tmp: string, out: string, err: string,
                                     ruffJson: Option<seq<RuffItem>>, banditJson: Option<BanditReport>)
    ensures RuffFindings(tmp, Exited(NotInstalledCode, out, err), ruffJson) == Ok(NotInstalled("Ruff"))
    ensures MypyFindings(tmp, Exited(NotInstalledCode, out, err)) == NotInstalled("mypy")
    ensures BanditFindings(tmp, Exited(NotInstalledCode, out, err), banditJson) == Ok(NotInstalled("Bandit"))
    ensures BlackFindings(tmp, Exited(NotInstalledCode, out, err)) == NotInstalled("Black")
    ensures IsortFindings(tmp, Exited(NotInstalledCode, out, err)) == NotInstalled("isort")
    ensures PydocstyleFindings(tmp, Exited(NotInstalledCode, out, err)) == NotInstalled("pydocstyle")
  {
  }

  // ---------------------------------------------------------------- smoke test

  /** The command line `run_smoke_test` spawns (with a 3-second timeout). */
  function SmokeCommand(tmp: string): seq<string> {
    ["python", "-I", "-X", "faulthandler", tmp]
  }

  /**
    The message of a failed smoke run: the first line of `(err or out).strip()`,
    or "Runtime error" when that is empty. It is never empty and never
    holds a line break; when it is a line of the output, it starts the
    stripped text.
  */
  function SmokeMessage(out: string, err: string): (m: string)
    ensures m != [] && Unbroken(m)
    ensures var t := Strip(if err != [] then err else out);
      && (t == [] ==> m == "Runtime error")
      && (t != [] ==> |m| <= |t| && m == t[..|m|] && (|m| < |t| ==> IsLineBreak(t[|m|])))
  {
    var t := Strip(if err != [] then err else out);
    if t == [] then
      RuntimeErrorText();
      "Runtime error"
    else
      FirstLine(t);
      SplitLines(t)[0]
  }

  lemma RuntimeErrorText()
    ensures Unbroken("Runtime error")
  {
    var m := "Runtime error";
    forall j | 0 <= j < |m| ensures !IsLineBreak(m[j]) {
      LineBreakIsSpace(m[j]);
    }
  }

  /** The row a failed smoke run reports. */
  function SmokeRow(out: string, err: string): (r: Row)
    ensures r.source == "Runtime" && r.rule == Str("") && r.typ == Str("Runtime")
    ensures r.message == Str(SmokeMessage(out, err)) && r.file == Str("<input>")
    ensures r.line == Str("") && r.column == Str("") && r.severity == Str("")
  {
    NormRow("Runtime", Str(""), Str("Runtime"), Str(SmokeMessage(out, err)), Nil, Nil, Str("<input>"), Nil)
  }

  /**
    `run_smoke_test`: no rows when disabled or when the run exits with 0,
    otherwise exactly one Runtime row. It has no "not installed" case: a
    missing interpreter is reported as a runtime failure.
  */
  function SmokeTest(enabled: bool, tmp: string, p: ProcOutcome): (r: ToolOutcome)
    ensures r.unavailable.None? && |r.rows| <= 1
    ensures !enabled ==> r.rows == []
    ensures enabled ==> var c := Run(SmokeCommand(tmp), p);
      (c.rc == 0 <==> r.rows == []) && (c.rc != 0 ==> r.rows == [SmokeRow(c.out, c.err)])
  {
    if !enabled then Available([])
    else
      var c := Run(SmokeCommand(tmp), p);
      if c.rc != 0 then Available([SmokeRow(c.out, c.err)]) else Available([])
  }

  /** With the interpreter missing the smoke test reports "python: not installed" as a runtime finding. */
  lemma SmokeMissingInterpreter(tmp: string)
    ensures SmokeTest(true, tmp, NotFound).rows == [SmokeRow("", "python: not installed")]
    ensures SmokeMessage("", "python: not installed") == "python: not installed"
  {
    MissingInterpreterMessage();
    assert SmokeCommand(tmp)[0] == "python";
    MissingInterpreterJoin();
  }

  lemma MissingInterpreterJoin()
    ensures "python" + ": not installed" == "python: not installed"
  {
  }

  lemma MissingInterpreterMessage()
    ensures SmokeMessage("", "python: not installed") == "python: not installed"
  {
    MissingInterpreterText();
    SingleLine("python: not installed");
  }

  lemma MissingInterpreterText()
    ensures var e := "python: not installed";
      !IsSpace(e[0]) && !IsSpace(e[|e| - 1]) && Unbroken(e)
  {
    var e := "python: not installed";
    forall j | 0 <= j < |e| ensures !IsLineBreak(e[j]) {
      LineBreakIsSpace(e[j]);
    }
  }
}
