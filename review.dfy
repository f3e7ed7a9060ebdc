/**
  The orchestration of app.py: `analyze` runs every adapter and keeps the
  rows under a fixed key order, `flatten` concatenates them, and the review
  button's handler first refuses blank input and non-Python code.
*/
module Review {
  import opened Wrappers
  import opened PyStr
  import opened Findings
  import opened Process
  import opened Seqs
  import opened Adapters

  /** One adapter's temporary path and what its subprocess did. */
  datatype ToolRun = ToolRun(tmp: string, proc: ProcOutcome)

  /**
    Everything the outside world contributes to one `analyze` call: what
    `ast.parse` reported, each adapter's run, what `json.loads` made of
    Ruff's and Bandit's stdout, and whether the smoke test is switched on.
  */
  datatype ToolRuns = ToolRuns(
    syntax: Option<SyntaxErrorInfo>,
    ruff: ToolRun,
    ruffJson: Option<seq<RuffItem>>,
    mypy: ToolRun,
    bandit: ToolRun,
    banditJson: Option<BanditReport>,
    black: ToolRun,
    isort: ToolRun,
    pydocstyle: ToolRun,
    smokeEnabled: bool,
    smoke: ToolRun)

  /** The dictionary `analyze` returns, as its (key, rows) pairs in insertion order. */
  type Report = seq<(string, seq<Row>)>

  /** The keys of `analyze`'s result, in order. */
  const ToolOrder: seq<string> := ["AST", "Ruff", "mypy", "Bandit", "Black", "isort", "pydocstyle", "Runtime"]

  /** The keys of a report, in order. */
  function Keys(report: Report): (ks: seq<string>)
    ensures |ks| == |report| && forall k :: 0 <= k < |report| ==> ks[k] == report[k].0
  {
    seq(|report|, k requires 0 <= k < |report| => report[k].0)
  }

  /** `report.values()`: the rows lists, in key order. */
  function Values(report: Report): (vs: seq<seq<Row>>)
    ensures |vs| == |report| && forall k :: 0 <= k < |report| ==> vs[k] == report[k].1
  {
    seq(|report|, k requires 0 <= k < |report| => report[k].1)
  }

  function RuffOf(runs: ToolRuns): Result<ToolOutcome, Raised> {
    RuffFindings(runs.ruff.tmp, runs.ruff.proc, runs.ruffJson)
  }

  function BanditOf(runs: ToolRuns): Result<ToolOutcome, Raised> {
    BanditFindings(runs.bandit.tmp, runs.bandit.proc, runs.banditJson)
  }

  /**
    `analyze`: the eight keys in the fixed order, each holding only its
    adapter's rows (the "not installed" reasons are dropped). A decoding
    failure in Ruff or Bandit escapes instead, Ruff's first since Ruff runs
    first.
  */
  function AnalyzeReport(runs: ToolRuns): (r: Result<Report, Raised>)
    ensures RuffOf(runs).Err? ==> r == Err(RuffOf(runs).error)
    ensures RuffOf(runs).Ok? && BanditOf(runs).Err? ==> r == Err(BanditOf(runs).error)
    ensures r.Ok? <==> RuffOf(runs).Ok? && BanditOf(runs).Ok?
    ensures r.Ok? ==> Keys(r.value) == ToolOrder
    ensures r.Ok? ==> Values(r.value) == [
      CheckAstSyntax(runs.syntax),
      RuffOf(runs).value.rows,
      MypyFindings(runs.mypy.tmp, runs.mypy.proc).rows,
      BanditOf(runs).value.rows,
      BlackFindings(runs.black.tmp, runs.black.proc).rows,
      IsortFindings(runs.isort.tmp, runs.isort.proc).rows,
      PydocstyleFindings(runs.pydocstyle.tmp, runs.pydocstyle.proc).rows,
      SmokeTest(runs.smokeEnabled, runs.smoke.tmp, runs.smoke.proc).rows]
  {
    match RuffOf(runs)
    case Err(e) => Err(e)
    case Ok(ruff) =>
      match BanditOf(runs)
      case Err(e) => Err(e)
      case Ok(bandit) =>
        Ok(ReportOf(
          CheckAstSyntax(runs.syntax),
          ruff.rows,
          MypyFindings(runs.mypy.tmp, runs.mypy.proc).rows,
          bandit.rows,
          BlackFindings(runs.black.tmp, runs.black.proc).rows,
          IsortFindings(runs.isort.tmp, runs.isort.proc).rows,
          PydocstyleFindings(runs.pydocstyle.tmp, runs.pydocstyle.proc).rows,
          SmokeTest(runs.smokeEnabled, runs.smoke.tmp, runs.smoke.proc).rows))
  }

  /** The dictionary literal of `analyze`, from the eight rows lists. */
  function ReportOf(ast: seq<Row>, ruff: seq<Row>, mypy: seq<Row>, bandit: seq<Row>,
                    black: seq<Row>, isort: seq<Row>, pydocstyle: seq<Row>, smoke: seq<Row>): (report: Report)
    ensures Keys(report) == ToolOrder
    ensures Values(report) == [ast, ruff, mypy, bandit, black, isort, pydocstyle, smoke]
  {
    [("AST", ast), ("Ruff", ruff), ("mypy", mypy), ("Bandit", bandit),
     ("Black", black), ("isort", isort), ("pydocstyle", pydocstyle), ("Runtime", smoke)]
  }

  /** The report's keys are distinct: each tool appears once. */
  lemma ToolOrderDistinct()
    ensures forall i, j :: 0 <= i < j < |ToolOrder| ==> ToolOrder[i] != ToolOrder[j]
  {
  }

  /** `analyze` as the source writes it: each adapter called in key order. */
  method Analyze(runs: ToolRuns) returns (res: Result<Report, Raised>)
    ensures res == AnalyzeReport(runs)
  {
    var ast := CheckAstSyntax(runs.syntax);
    var ruff := RunRuff(runs.ruff.tmp, runs.ruff.proc, runs.ruffJson);
    if ruff.Err? {
      return Err(ruff.error);
    }
    var mypy := RunMypy(runs.mypy.tmp, runs.mypy.proc);
    var bandit := RunBandit(runs.bandit.tmp, runs.bandit.proc, runs.banditJson);
    if bandit.Err? {
      return Err(bandit.error);
    }
    var black := BlackFindings(runs.black.tmp, runs.black.proc);
    var isort := IsortFindings(runs.isort.tmp, runs.isort.proc);
    var pydocstyle := RunPydocstyle(runs.pydocstyle.tmp, runs.pydocstyle.proc);
    var smoke := SmokeTest(runs.smokeEnabled, runs.smoke.tmp, runs.smoke.proc);
    return Ok(ReportOf(ast, ruff.value.rows, mypy.rows, bandit.value.rows, black.rows, isort.rows, pydocstyle.rows, smoke.rows));
  }

  /**
    `flatten`: every tool's rows, tool after tool, each list in its own
    order; as many rows as all the lists together.
  */
  method Flatten(report: Report) returns (rows: seq<Row>)
    ensures rows == Concat(Values(report))
    ensures |rows| == TotalLength(Values(report))
  {
    rows := [];
    var i := 0;
    while i < |report|
      invariant 0 <= i <= |report|
      invariant rows == Concat(Values(report)[..i])
    {
      assert Values(report)[..i + 1][..i] == Values(report)[..i];
      rows := rows + report[i].1;
      i := i + 1;
    }
    assert Values(report)[..i] == Values(report);
    ConcatLength(Values(report));
  }

  /**
    In the flattened rows, tool `k`'s rows sit unchanged as one block,
    right after the rows of the tools before it; and there are no rows at
    all exactly when every tool found nothing.
  */
  lemma FlattenedBlocks(report: Report, k: nat)
    requires k < |report|
    ensures var vs := Values(report);
      var start := TotalLength(vs[..k]);
      start + |report[k].1| <= |Concat(vs)| && Concat(vs)[start..start + |report[k].1|] == report[k].1
    ensures Concat(Values(report)) == [] <==> forall j :: 0 <= j < |report| ==> report[j].1 == []
  {
    var vs := Values(report);
    ConcatBlock(vs, k);
    ConcatLength(vs);
    TotalLengthZero(vs);
  }

  // ---------------------------------------------------------------- the input gate

  /** The sidebar's language choice. */
  datatype Language = Auto | Python | JavaScriptOther

  /** The substrings whose presence makes "Auto" take the code for Python. */
  const PythonTokens: seq<string> := ["import ", "def ", "class "]

  /** `any(tok in code for tok in [...])`. */
  predicate LooksLikePython(code: string) {
    exists k :: 0 <= k < |PythonTokens| && Contains(code, PythonTokens[k])
  }

  /** The code looks like Python exactly when it holds "import ", "def " or "class ". */
  lemma LooksLikePythonIff(code: string)
    ensures LooksLikePython(code) <==> Contains(code, "import ") || Contains(code, "def ") || Contains(code, "class ")
  {
    assert PythonTokens[0] == "import " && PythonTokens[1] == "def " && PythonTokens[2] == "class ";
  }

  /**
    The language the review uses: the chosen one, or for "Auto" Python
    when the uploaded file's name ends in ".py" or the code holds one of
    the Python tokens, and "JavaScript / Other" otherwise.
  */
  function DetectLanguage(choice: Language, uploadedName: Option<string>, code: string): (lang: Language)
    ensures choice != Auto ==> lang == choice
    ensures choice == Auto ==> lang != Auto
    ensures choice == Auto ==>
      (lang == Python <==> (uploadedName.Some? && EndsWith(uploadedName.value, ".py")) || LooksLikePython(code))
  {
    if choice != Auto then choice
    else if uploadedName.Some? && EndsWith(uploadedName.value, ".py") then Python
    else if LooksLikePython(code) then Python
    else JavaScriptOther
  }

  /** What the review button's handler does before analysing: warn and stop, or go on. */
  datatype GateOutcome = Warn(message: string) | Proceed

  const EmptyInputWarning: string := "Please paste code or upload a file first."
  const NotPythonWarning: string := "This enhanced checker focuses on Python. Paste Python code for full results."

  /**
    The gate at the start of the review: blank code (empty or only white
    space) is refused first; then code whose language is not Python.
    Analysis goes ahead exactly when the code is not blank and its
    language is Python.
  */
  function Gate(choice: Language, uploadedName: Option<string>, code: string): (g: GateOutcome)
    ensures IsBlank(code) ==> g == Warn(EmptyInputWarning)
    ensures !IsBlank(code) && DetectLanguage(choice, uploadedName, code) != Python ==> g == Warn(NotPythonWarning)
    ensures g == Proceed <==> !IsBlank(code) && DetectLanguage(choice, uploadedName, code) == Python
  {
    if code == [] || Strip(code) == [] then Warn(EmptyInputWarning)
    else if DetectLanguage(choice, uploadedName, code) != Python then Warn(NotPythonWarning)
    else Proceed
  }

  /** With "Auto", code that defines a function is reviewed as Python whatever the upload's name. */
  lemma AutoTakesDefAsPython(uploadedName: Option<string>, before: string, after: string)
    ensures Gate(Auto, uploadedName, before + "def " + after) == Proceed
  {
    var code := before + "def " + after;
    assert code[|before|..|before| + 4] == "def ";
    assert OccursAt(code, PythonTokens[1], |before|);
    ContainsOccurs(code, PythonTokens[1], |before|);
    assert code[|before|] == 'd';
    assert !IsBlank(code);
  }

  /** What pressing the review button produces. */
  datatype ReviewOutcome =
    | Warned(message: string)
    | Reported(results: Report, combined: seq<Row>)
    | Crashed(error: Raised)

  /**
    The review button's handler: the gate, then `analyze`, then `flatten`.
    The combined rows are the per-tool rows concatenated in key order.
  */
  method ReviewCode(choice: Language, uploadedName: Option<string>, code: string, runs: ToolRuns)
    returns (outcome: ReviewOutcome)
    ensures Gate(choice, uploadedName, code).Warn? ==> outcome == Warned(Gate(choice, uploadedName, code).message)
    ensures Gate(choice, uploadedName, code).Proceed? && AnalyzeReport(runs).Err? ==>
      outcome == Crashed(AnalyzeReport(runs).error)
    ensures Gate(choice, uploadedName, code).Proceed? && AnalyzeReport(runs).Ok? ==>
      outcome == Reported(AnalyzeReport(runs).value, Concat(Values(AnalyzeReport(runs).value)))
  {
    var g := Gate(choice, uploadedName, code);
    if g.Warn? {
      return Warned(g.message);
    }
    var results := Analyze(runs);
    if results.Err? {
      return Crashed(results.error);
    }
    var combined := Flatten(results.value);
    return Reported(results.value, combined);
  }
}
