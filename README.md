# RevU finding normalisation, modelled in Dafny

RevU is a Streamlit code reviewer. It runs a Python snippet through a built-in
syntax check and six external tools (Ruff, mypy, Bandit, Black, isort,
pydocstyle), plus an optional runtime smoke test. It turns each tool's raw
result into uniform eight-field finding rows and shows them as one report.
This project models that normalisation layer of `app.py` and proves what it
promises:

- the row constructor `_norm_row`;
- the subprocess-result classifier `_run`;
- the eight adapters;
- `analyze` and `flatten`;
- the input gate with its language detection.

Every external effect is an input value:

- `ProcOutcome` is what the subprocess did: `NotFound`, `TimedOut` or `Exited(rc, out, err)`.
- An optional decoded JSON document is what `json.loads` returned; `None` means it raised.
- An optional `SyntaxErrorInfo` is what `ast.parse` raised.
- The temporary file's path is a string parameter.

Modules:

- `Wrappers`: `Option` and `Result`.
- `PyStr`: the Python string operations the parsers rely on, with the edge cases the parsers reach:
  - `isspace`, `strip`;
  - `splitlines`, including `\r\n`, `\v`, `\f`, `\x1c`-`\x1e`, `\x85`, U+2028 and U+2029;
  - `split(sep, maxsplit)`, `split()`;
  - `in`, `find`, `rfind`, slicing, `endswith`.
- `PyInt`: `int(text)` on ASCII digits and `str(int)`. `int()` skips surrounding ASCII space, tab, newline, vertical tab, form feed and carriage return, and non-ASCII white space; it keeps `\x1c`-`\x1f`, which `str.strip` removes. It accepts a sign and single underscores between digits.
- `Findings`: Python values and their truthiness, the row, `_norm_row`, and the CSV header projection.
- `Process`: `_run`'s classification.
- `Seqs`: generic sequence facts:
  - keeping the present values of a sequence of options;
  - mapping;
  - concatenating blocks.
- `LineParsers`: the per-line parsers of mypy and pydocstyle and the rows they collect.
- `Adapters`: one spec function per adapter. The four adapters with append loops (Ruff, mypy, Bandit, pydocstyle) are also methods proved equal to their spec function.
- `Review`: `analyze`, `flatten`, the gate, and the review handler.

Quirks of the source that the model keeps (there is a lemma for each):

- Black and isort report a finding when they time out, because 124 is a non-zero exit code (`TimeoutReportsFinding`).
- A real process that exits with 127 reads as "not installed" (`ExitCode127ReadsNotInstalled`).
- `json.loads` failures in Ruff or Bandit are not caught, so `analyze` fails. Within the model these are the only failures of `analyze`.
- mypy's "Type"/"Note" classification is computed and never used: the row is the same whatever the third field says (`MypyDiagnostic`).
- pydocstyle's parser reads the location line, so a module-level finding gets the rule "level" rather than its D-code (`PydocstyleModuleLevel`).
- The smoke test has no "not installed" branch: a missing interpreter becomes a Runtime row reading "python: not installed" (`SmokeMissingInterpreter`).

## Model

| member | source | states |
|---|---|---|
| Findings.OrEmpty | app.py:88-90 | `v or ""` keeps a truthy value and turns a falsy one into ""; the result is "" or truthy |
| Findings.FalsyByKind | app.py:88-90 | the falsy values are exactly None, False, 0 and "" |
| Findings.NormRow | app.py:84-91 | `source` is kept as given; each of rule, type, message, line, column, file and severity is "" when the argument is falsy (None, False, 0, "") and the argument itself otherwise |
| Findings.NormRowIdempotent | app.py:84-91 | every field of a built row is "" or truthy; rebuilding a row from its own fields gives the same row |
| Findings.Entries | app.py:87-91 | a row has exactly the eight keys, in the order Source, Rule, Type, Message, Line, Column, File, Severity/Level |
| Findings.HeaderDistinct | app.py:87-91 | the eight keys are distinct |
| Findings.Lookup | app.py:81 | `get(key, default)` gives the value of the first pair with that key, or the default when no pair has it |
| Findings.CsvRecord | app.py:81 | one value per header, each `r.get(k, "")` |
| Findings.CsvRecordOfHeader | app.py:81 | with the standard header, a CSV record is the row's eight fields in order; a header the row lacks is written as "" |
| Process.Run | app.py:67-74 | a missing executable gives (127, "", "<cmd[0]>: not installed"); a timeout gives (124, "", "timeout"); an exited process gives its own code and streams |
| Process.RunConflatesOnlySentinels | app.py:67-74 | two different outcomes give the same triple only when one is a real exit with exactly the other's sentinel triple |
| PyStr.Strip | app.py:113 | `strip()` is empty exactly for blank text; otherwise both ends are non-white-space |
| PyStr.StripTrims | app.py:113 | `strip()` is a slice of the text with only white space before and after it |
| PyStr.StripPadded | app.py:113 | text with white space around a core that begins and ends with non-space strips to that core |
| PyStr.StripIdempotent | app.py:140-144 | stripping twice is the same as stripping once |
| PyStr.ContainsIff | app.py:137 | `sub in s` holds exactly when `sub` occurs at some index of `s` |
| PyStr.EndsWithIff | app.py:274 | `s.endswith(suffix)` holds exactly when `s` is some text followed by `suffix` |
| PyStr.Find | app.py:137 | the first index at which the substring occurs, or none when it occurs nowhere |
| PyStr.LastIndexOf | app.py:147 | `rfind` gives the last index of the character, or none exactly when it is absent |
| PyStr.SplitOnce | app.py:139 | `split(sep, 1)` gives none exactly when `sep` is absent; otherwise the text is head + sep + tail with `sep` first occurring after head |
| PyStr.SplitMax | app.py:140 | `split(":", 3)` gives at least one and at most 4 pieces |
| PyStr.SplitMaxJoins | app.py:140 | the pieces of a split joined back with the separator give the text |
| PyStr.SplitMaxPieces | app.py:140 | no piece but the last holds the separator, nor does the last when fewer than `maxsplit` cuts were made |
| PyStr.SplitMaxCons | app.py:140 | a split with cuts to spare takes the text before the first separator as its first piece |
| PyStr.SplitWhitespace | app.py:219-220 | `split()` gives non-empty pieces without white space, and none exactly for blank text |
| PyStr.SplitJoinedWords | app.py:219-220 | words joined by single spaces split back into the same words |
| PyStr.SplitLines | app.py:136 | `splitlines()` gives lines without break characters, none exactly for empty text; the first line is the text before the first break, and a non-empty text without a break is one line |
| PyStr.SplitJoinedLines | app.py:136 | lines without breaks joined by "\n", the last one non-empty, split back into exactly those lines |
| PyStr.SplitLinesJoin | app.py:136 | the lines of `a + "\n" + b` are the lines of `a`, then at most one empty line, then the lines of `b` |
| PyStr.FirstLine | app.py:239 | the first line of text starting with a non-space is a non-empty prefix that ends at the first line break |
| PyInt.ParseInt | app.py:142 | `int()` succeeds only on text that is not all `int()` white space |
| PyInt.ParseIntReads | app.py:142 | a successful `int()` reads a non-empty slice of the text as a signed number, with only `int()` white space around it |
| PyInt.ParseIntPadded | app.py:142 | `int()` white space around a signed number does not change its value |
| PyInt.ParseIntKeepsSeparator | app.py:142 | `\x1f` is white space to `str.strip` but not to `int()`: `int("\x1f5")` fails |
| PyInt.ParseShowInt | app.py:142 | `int(str(i)) == i` for every integer |
| LineParsers.BracketTag | app.py:145-147 | the tag is "" when either bracket is missing, holds no '[', and when non-empty appears in the message as "[tag]" |
| LineParsers.BracketTagBetweenLast | app.py:145-147 | with the last '[' at i and the last ']' at j, the tag is the text strictly between them when i < j, and "" when the last ']' comes first |
| LineParsers.BeforeColon | app.py:220 | `w.split(":")[0]` is the ':'-free prefix of `w` that is all of `w` or is followed by ':' |
| LineParsers.AfterPath | app.py:137-139 | a remainder exists only for a line that holds "<tmp>:" |
| LineParsers.AfterPathFirst | app.py:137-139 | a remainder exists exactly when the line holds "<tmp>:"; the line is head + "<tmp>:" + remainder, with head ending where "<tmp>:" first occurs |
| LineParsers.MypyMessage | app.py:142-144 | the message is the last field, stripped: the fourth with four fields, the third (`rest2`) with three |
| LineParsers.MypyRow | app.py:145-148 | source "mypy", type "TypeError/Typing", file "<input>", empty severity, the rule is the message's bracket tag, and line and column are normalised |
| LineParsers.MypyLine | app.py:136-150 | a row only from a line holding "<tmp>:"; each row has source "mypy", type "TypeError/Typing", file "<input>", a stripped message and a rule without '[' |
| LineParsers.MypyLineFields | app.py:136-150 | a remainder a:b:tail with ':'-free a and b gives a row exactly when `int(a)` and `int(b)` succeed, holding those numbers and the part of tail after its first ':' (all of tail without one), stripped |
| LineParsers.MypyLineFewFields | app.py:141 | a remainder with fewer than two ':' gives no row |
| LineParsers.MypyLineReads | app.py:136-150 | every mypy row comes from a remainder a:b:tail with ':'-free a and b that both read as integers, and is the row of those numbers and tail's message |
| LineParsers.MypyThreeFields | app.py:142-144 | "<tmp>:<line>:<col>:<message>" without a fourth ':' gives one row whose message is the stripped third field (`rest2`) |
| LineParsers.MypyDiagnostic | app.py:136-148 | "<tmp>:<line>:<col>:<kind>:<message>" gives exactly one row with that line, that column and the stripped message (':' inside the message included), whatever `kind` says |
| LineParsers.PydocstyleRow | app.py:221 | source "pydocstyle", type "Docstring", file "<input>", empty column and severity, the stripped line as message |
| LineParsers.PydocstyleLine | app.py:215-223 | a row only from a line holding ':' and "<tmp>:"; its message is the stripped line and its column is empty |
| LineParsers.PydocstyleTag | app.py:220 | the rule is the last word up to its first ':' when the remainder holds ':', else "Dxxx" |
| LineParsers.PydocstyleLineReads | app.py:215-221 | every pydocstyle row comes from a line holding ':' and "<tmp>:" whose remainder's first word reads as the line number; the rule is that remainder's tag |
| LineParsers.PydocstyleLineSkips | app.py:217-223 | a remainder that is blank, or whose first word is not an integer, gives no row |
| LineParsers.PydocstyleLocation | app.py:215-221 | "<tmp>:<line> <words>" gives a row with that line number, and its rule is the last word up to ':' (or "Dxxx") |
| LineParsers.PydocstyleModuleLevel | app.py:218-221 | the location line "<tmp>:1 at module level:" gives rule "level" and line 1 |
| LineParsers.LineRows | app.py:135-150 | the rows collected from a list of lines are never more than the lines |
| LineParsers.LineRowsFollowLines | app.py:135-150 | at most one row per line, in line order: row k comes from the k-th accepted line, accepted lines' indices increase, and every other line gives no row |
| LineParsers.RowFromLine | app.py:135-150 | every collected row was parsed from one of the lines |
| LineParsers.LineRowsAppend | app.py:136 | reading two blocks of lines gives the two blocks' rows one after the other |
| LineParsers.LineRowsSnoc | app.py:136-148 | reading one more line appends that line's row, if any |
| LineParsers.EmptyLineSkipped | app.py:137 | an empty line gives no row from either parser |
| LineParsers.JoinedStreams | app.py:136 | the rows from `out + "\n" + err` are stdout's rows followed by stderr's |
| Adapters.SyntaxRow | app.py:99-103 | source "AST", rule and type "SyntaxError", file "<input>", message, line and column from the error |
| Adapters.CheckAstSyntax | app.py:94-104 | no rows exactly when the code parses; one AST row for a syntax error |
| Adapters.RuffRow | app.py:117-121 | rule from "code", message from "message", line and column from "location" (empty without it), file from "filename" or "<input>" when the key is absent |
| Adapters.RuffFindings | app.py:107-122 | 127 gives "Ruff not installed" without reading output; blank stdout gives no rows; a decoding failure escapes; otherwise exactly one row per decoded item, in order |
| Adapters.RunRuff | app.py:107-122 | the append loop computes exactly `RuffFindings` |
| Adapters.MypyFindings | app.py:128-151 | 127 gives "mypy not installed"; otherwise the rows are the parser's rows from stdout followed by those from stderr |
| Adapters.RunMypy | app.py:135-151 | the loop over the lines, skipping unreadable ones, computes exactly `MypyFindings` |
| Adapters.MypyRowsShape | app.py:136-150 | every mypy row is a "TypeError/Typing" finding on "<input>" with a stripped message, read from an output line naming "<tmp>:" |
| Adapters.BanditRow | app.py:167-171 | rule from "test_id", message from "issue_text", line from "line_number", file from "filename", severity from "issue_severity", column always "" |
| Adapters.BanditFindings | app.py:157-172 | 127 gives "Bandit not installed"; blank stdout gives no rows; a decoding failure escapes; otherwise one row per issue under "results" (none when the key is absent), in order |
| Adapters.RunBandit | app.py:163-172 | the append loop computes exactly `BanditFindings` |
| Adapters.ExitCode127ReadsNotInstalled | app.py:111-112 | a tool that really exits with 127 is reported as not installed by every adapter that checks the code, whatever it printed |
| Adapters.BlackRow | app.py:186 | the fixed Black row: rule "format", type "Formatting", message "File would be reformatted", file "<input>" |
| Adapters.IsortRow | app.py:201 | the fixed isort row: rule "imports", type "Import Order", message "Imports not correctly sorted", file "<input>" |
| Adapters.ExitCodeCheck | app.py:182-186 | 127 gives "not installed", 0 gives no rows, any other code gives exactly the fixed row |
| Adapters.ExitCodeIgnoresStreams | app.py:181-187 | Black's and isort's results depend on the return code alone |
| Adapters.BlackFindings | app.py:178-187 | a missing executable or exit code 127 gives "Black not installed"; exit code 0 gives no rows; a timeout or any other code gives exactly Black's row |
| Adapters.IsortFindings | app.py:193-202 | a missing executable or exit code 127 gives "isort not installed"; exit code 0 gives no rows; a timeout or any other code gives exactly isort's row |
| Adapters.TimeoutReportsFinding | app.py:185-186 | a timed-out Black or isort run is reported as one formatting or import-order finding |
| Adapters.PydocstyleFindings | app.py:208-224 | a missing executable or exit code 127 gives "pydocstyle not installed"; a timeout gives no rows; any other exit gives the parser's rows from the lines of stdout |
| Adapters.RunPydocstyle | app.py:214-224 | the loop over stdout's lines computes exactly `PydocstyleFindings` |
| Adapters.PydocstyleRowsShape | app.py:215-221 | every pydocstyle row is a "Docstring" finding on "<input>" with no column, whose message is a stripped stdout line naming "<tmp>:" |
| Adapters.PydocstyleIgnoresStderr | app.py:215 | pydocstyle's result does not depend on its stderr |
| Adapters.SmokeMessage | app.py:238-239 | the message is never empty and holds no line break; it is "Runtime error" when `(err or out).strip()` is empty, else that text's first line |
| Adapters.SmokeRow | app.py:240 | source and type "Runtime", empty rule, file "<input>", the smoke message |
| Adapters.SmokeTest | app.py:230-241 | never a reason; no rows when disabled; when enabled, no rows exactly when the run exits with 0, else exactly one Runtime row |
| Adapters.SmokeMissingInterpreter | app.py:235-240 | a missing interpreter is reported as the Runtime finding "python: not installed" |
| Review.AnalyzeReport | app.py:247-258 | keys exactly AST, Ruff, mypy, Bandit, Black, isort, pydocstyle, Runtime; each adapter's rows only, with reasons dropped; within the model it fails exactly when Ruff or Bandit fails to decode, Ruff's failure first |
| Review.ToolOrderDistinct | app.py:248-257 | the eight keys are distinct |
| Review.Analyze | app.py:247-258 | calling the adapters in key order computes exactly `AnalyzeReport` |
| Review.ReportOf | app.py:248-257 | the dictionary literal has the eight keys in order, each with its own tool's rows |
| Review.Flatten | app.py:260-264 | the flattened rows are the lists concatenated in key order, as many as all lists together |
| Review.FlattenedBlocks | app.py:260-264 | each tool's rows sit unchanged as one block right after the earlier tools' rows; no rows at all exactly when every list is empty |
| Review.LooksLikePythonIff | app.py:276 | the code looks like Python exactly when it holds "import ", "def " or "class " |
| Review.DetectLanguage | app.py:272-279 | an explicit choice is kept; "Auto" gives Python exactly when the upload's name ends in ".py" or the code holds "import ", "def " or "class ", else "JavaScript / Other" |
| Review.Gate | app.py:268-283 | blank code gets the paste-code warning first; otherwise non-Python gets the Python-only warning; analysis proceeds exactly for non-blank Python code |
| Review.AutoTakesDefAsPython | app.py:273-277 | with "Auto", code containing "def " proceeds to analysis whatever the upload is called |
| Review.ReviewCode | app.py:267-289 | a gate warning stops the review; otherwise the result is the analysis and its flattening, or the escaped decoding error |

## Left out

- The Streamlit UI is left out: page setup, sidebar, widgets, upload decoding, tables, the info/success messages and download buttons. It is presentation only. The sidebar choice, the upload's name and the smoke-test switch are parameters.
- `_tmp_py` and the `os.remove` clean-up are left out (file-system I/O). The temporary path is a parameter.
- `subprocess.run` is left out: the process outcome is an input. The 25-second and 3-second timeouts, and the unused `cwd`, have no counterpart.
- `json.loads` and `ast.parse` are library parsers. Their results are inputs, and the model assumes they are consistent with the text. Only the shapes the adapters index without failing are modelled: a list of objects for Ruff and an object for Bandit. A null "location" or "results", a Ruff item that is not an object, or a non-list Ruff document other than `{}` or `""` would raise in the source, and the model does not represent them. The documents `{}` and `""` iterate nothing and give no rows, just as `[]` does, which the model's empty item list covers.
- JSON values are limited to null, booleans, integers and strings. Floats, lists and objects as field values are left out.
- `e.msg` of a syntax error is always a string here. A `None` message, which the f-string would render as "None", is left out.
- PyInt.ParseInt: `int()` also accepts non-ASCII decimal digits, and since Python 3.11 it refuses more than 4300 digits by default (the limit depends on version and configuration). The model accepts ASCII digits only and has no length limit. `ShowInt` has no length limit either.
- Review.AnalyzeReport: the model's `analyze` fails only on a Ruff or Bandit decoding error. In the source, other exceptions also escape. `ast.parse` raises `ValueError` on a NUL byte before Python 3.12, and `check_ast_syntax` catches only `SyntaxError`. `_run` catches only `FileNotFoundError` and `TimeoutExpired`, so a `PermissionError` or a `UnicodeDecodeError` on the output escapes. These are left out because they come from the interpreter and the operating system.
- CSV quoting and encoding (`csv.DictWriter`, UTF-8) are library behaviour. Only the header projection at app.py:81 is modelled.
- error_benchmark.py is not part of this model. It only provokes interpreter errors and has no logic of its own.
