/**
  The two line-oriented parsers of app.py: the mypy parser (lines 136-150)
  and the pydocstyle parser (lines 215-223). Each reads one output line,
  looks for the temporary file's path followed by ':', and yields at most
  one finding row; a line it cannot read is skipped, as the source's
  `except Exception: continue` does.
*/
module LineParsers {
  import opened Wrappers
  import opened PyStr
  import opened PyInt
  import opened Findings
  import opened Seqs

  /**
    mypy's error code, `msg[msg.rfind("[")+1 : msg.rfind("]")]` when both
    brackets occur, else "": the text between the last '[' and the last ']',
    empty when that ']' comes first.
  */
  function BracketTag(msg: string): (tag: string)
    ensures '[' !in msg || ']' !in msg ==> tag == []
    ensures '[' !in tag
    ensures tag != [] ==> exists i: nat :: OccursAt(msg, "[" + tag + "]", i)
  {
    match (LastIndexOf(msg, '['), LastIndexOf(msg, ']'))
    case (Some(i), Some(j)) =>
      var tag := Slice(msg, i + 1, j);
      assert forall k :: 0 <= k < |tag| ==> tag[k] == msg[i + 1..][k];
      assert tag != [] ==> msg[i..j + 1] == "[" + tag + "]" && OccursAt(msg, "[" + tag + "]", i);
      tag
    case _ => []
  }

  /**
    The tag is fixed by the last '[' and the last ']' wherever they are: the
    text strictly between them when the '[' comes first, else "".
  */
  lemma BracketTagBetweenLast(msg: string, i: nat, j: nat)
    requires i < |msg| && msg[i] == '[' && '[' !in msg[i + 1..]
    requires j < |msg| && msg[j] == ']' && ']' !in msg[j + 1..]
    ensures i < j ==> BracketTag(msg) == msg[i + 1..j]
    ensures j <= i ==> BracketTag(msg) == []
  {
    LastIndexUnique(msg, '[', i);
    LastIndexUnique(msg, ']', j);
    BracketTagOf(msg, i, j);
    if i < j {
      SliceInside(msg, i + 1, j);
    }
  }

  lemma BracketTagOf(msg: string, i: nat, j: nat)
    requires LastIndexOf(msg, '[') == Some(i) && LastIndexOf(msg, ']') == Some(j)
    ensures BracketTag(msg) == Slice(msg, i + 1, j)
  {
  }

  lemma SliceInside(s: string, lo: nat, hi: nat)
    requires lo <= hi <= |s|
    ensures Slice(s, lo, hi) == s[lo..hi]
  {
  }

  /** The index of a `c` with none after it is the one `rfind` returns. */
  lemma LastIndexUnique(s: string, c: char, i: nat)
    requires i < |s| && s[i] == c && c !in s[i + 1..]
    ensures LastIndexOf(s, c) == Some(i)
  {
    assert c in s by { assert s[i] == c; }
  }

  /** `w.split(":")[0]`: the text of `w` before its first ':'. */
  function BeforeColon(w: string): (r: string)
    ensures ':' !in r
    ensures |r| <= |w| && r == w[..|r|]
    ensures |r| < |w| ==> w[|r|] == ':'
  {
    match IndexOf(w, ':')
    case None => w
    case Some(i) => w[..i]
  }

  /**
    The text after the first "<tmp>:" of a line that contains the temporary
    path: `_, rest = line.split(f"{tmp}:", 1)` behind the guard `tmp in line`.
    `None` when the guard fails or the unpacking raises.
  */
  function AfterPath(line: string, tmp: string): (rest: Option<string>)
    ensures rest.Some? ==> Contains(line, tmp + ":")
  {
    if !Contains(line, tmp) then None
    else match SplitOnce(line, tmp + ":")
      case None => None
      case Some((head, rest)) => Some(rest)
  }

  /**
    The guard and the unpacking together: a remainder exists exactly when the
    line holds "<tmp>:", and it is the text after the FIRST "<tmp>:".
  */
  lemma AfterPathFirst(line: string, tmp: string)
    ensures AfterPath(line, tmp).Some? <==> Contains(line, tmp + ":")
    ensures AfterPath(line, tmp).Some? ==>
              && line == line[..|line| - |tmp| - 1 - |AfterPath(line, tmp).value|] + tmp + ":" + AfterPath(line, tmp).value
              && Find(line, tmp + ":") == Some(|line| - |tmp| - 1 - |AfterPath(line, tmp).value|)
  {
    var sep := tmp + ":";
    if Contains(line, sep) {
      var i := Find(line, sep).value;
      assert line[i..i + |tmp|] == sep[..|tmp|] == tmp;
      ContainsOccurs(line, tmp, i);
      var (head, rest) := SplitOnce(line, sep).value;
      assert OccursAt(line, sep, |head|) by {
        assert line[|head|..|head| + |sep|] == sep;
      }
      assert |line| == |head| + |sep| + |rest|;
      assert line[..|head|] == head;
      assert line == head + tmp + ":" + rest;
    }
  }

  /** mypy's message: the stripped fourth field when there is one, else the stripped third. */
  function MypyMessage(parts: seq<string>): (msg: string)
    requires 3 <= |parts| <= 4
    ensures msg == Strip(parts[|parts| - 1])
    ensures Strip(msg) == msg
  {
    var rest2 := Strip(parts[2]);
    var field := if |parts| == 4 then parts[3] else parts[2];
    StripIdempotent(field);
    if |parts| == 4 then Strip(parts[3]) else rest2
  }

  /** The row mypy's parser builds from a line number, a column and a message. */
  function MypyRow(ln: int, col: int, msg: string): (r: Row)
    ensures r.source == "mypy" && r.typ == Str("TypeError/Typing")
    ensures r.file == Str("<input>") && r.severity == Str("")
    ensures r.message == Str(msg) && r.rule == Str(BracketTag(msg))
    ensures Normalised(Int(ln), r.line) && Normalised(Int(col), r.column)
  {
    NormRow("mypy", Str(BracketTag(msg)), Str("TypeError/Typing"), Str(msg),
            Int(ln), Int(col), Str("<input>"), Nil)
  }

  /**
    One line of mypy's output (`out + "\n" + err`, split into lines). A row
    comes only from a line containing "<tmp>:" whose remainder has at least
    three ':'-separated fields, the first two of them integers: line and
    column. The message is the stripped fourth field when there is one, else
    the stripped third; the rule is its bracketed tag. (The source also
    computes whether the third field says "error", and never uses it.)
  */
  function MypyLine(line: string, tmp: string): (r: Option<Row>)
    ensures r.Some? ==> Contains(line, tmp + ":")
    ensures r.Some? ==>
      && r.value.source == "mypy" && r.value.typ == Str("TypeError/Typing")
      && r.value.file == Str("<input>") && r.value.severity == Str("")
      && r.value.message.Str? && Strip(r.value.message.s) == r.value.message.s
      && r.value.rule.Str? && '[' !in r.value.rule.s
  {
    match AfterPath(line, tmp)
    case None => None
    case Some(rest) =>
      var parts := SplitMax(rest, ':', 3);
      if |parts| < 3 then None
      else match ParseInt(parts[0])
        case None => None
        case Some(ln) =>
          match ParseInt(parts[1])
          case None => None
          case Some(col) => Some(MypyRow(ln, col, MypyMessage(parts)))
  }

  /** pydocstyle's rule: the last word up to its first ':' when the remainder holds a ':', else "Dxxx". */
  function PydocstyleTag(rest: string, words: seq<string>): (tag: string)
    requires words != []
    ensures ':' in rest ==> tag == BeforeColon(words[|words| - 1])
    ensures ':' !in rest ==> tag == "Dxxx"
  {
    if ':' in rest then BeforeColon(words[|words| - 1]) else "Dxxx"
  }

  /** The row pydocstyle's parser builds from a line, its line number and its rule. */
  function PydocstyleRow(line: string, ln: int, tag: string): (r: Row)
    requires ':' in line
    ensures r.source == "pydocstyle" && r.typ == Str("Docstring")
    ensures r.file == Str("<input>") && r.severity == Str("") && r.column == Str("")
    ensures r.message == Str(Strip(line)) && r.rule == Str(tag)
    ensures Normalised(Int(ln), r.line)
  {
    assert Strip(line) != [] by {
      var i :| 0 <= i < |line| && line[i] == ':';
      assert !IsSpace(line[i]);
    }
    NormRow("pydocstyle", Str(tag), Str("Docstring"), Str(Strip(line)), Int(ln), Nil, Str("<input>"), Nil)
  }

  /**
    One line of pydocstyle's standard output. A row comes only from a line
    containing ':' and "<tmp>:" whose remainder starts with an integer word
    (the line number). The message is the whole stripped line; the column
    is empty.
  */
  function PydocstyleLine(line: string, tmp: string): (r: Option<Row>)
    ensures r.Some? ==> ':' in line && Contains(line, tmp + ":")
    ensures r.Some? ==>
      && r.value.source == "pydocstyle" && r.value.typ == Str("Docstring")
      && r.value.file == Str("<input>") && r.value.severity == Str("") && r.value.column == Str("")
      && r.value.message == Str(Strip(line))
  {
    if ':' !in line then None
    else match AfterPath(line, tmp)
      case None => None
      case Some(rest) =>
        var words := SplitWhitespace(rest);
        if words == [] then None
        else match ParseInt(words[0])
          case None => None
          case Some(ln) => Some(PydocstyleRow(line, ln, PydocstyleTag(rest, words)))
  }

  /** `str` of an integer never holds a ':'. */
  lemma ShowIntNoColon(i: int)
    ensures ':' !in ShowInt(i)
  {
  }

  /** The last two fields: one cut at the first ':' when the message may hold more. */
  lemma MypyLastFields(kind: string, msg: string)
    requires ':' !in kind
    ensures var p := SplitMax(kind + [':'] + msg, ':', 1);
      |p| == 2 && p[0] == kind && p[1] == msg
  {
    assert SplitMax(msg, ':', 0) == [msg];
    SplitMaxCons(kind, ':', msg, 0);
  }

  /** The column, kind and message fields, cut by two splits. */
  lemma MypyTailFields(b: string, kind: string, msg: string)
    requires ':' !in b && ':' !in kind
    ensures var p := SplitMax(b + [':'] + (kind + [':'] + msg), ':', 2);
      |p| == 3 && p[0] == b && p[1] == kind && p[2] == msg
  {
    MypyLastFields(kind, msg);
    SplitMaxCons(b, ':', kind + [':'] + msg, 1);
  }

  /** The fields mypy's parser cuts from "<a>:<b>:<kind>:<message>" when only the message may hold a ':'. */
  lemma MypyFields(a: string, b: string, kind: string, msg: string)
    requires ':' !in a && ':' !in b && ':' !in kind
    ensures var p := SplitMax(a + [':'] + (b + [':'] + (kind + [':'] + msg)), ':', 3);
      |p| == 4 && p[0] == a && p[1] == b && p[2] == kind && p[3] == msg
  {
    MypyTailFields(b, kind, msg);
    SplitMaxCons(a, ':', b + [':'] + (kind + [':'] + msg), 2);
  }

  /** A printed mypy line is the path, a ':', and the remainder with its colons nested to the right. */
  lemma ColonLine(tmp: string, a: string, b: string, kind: string, msg: string)
    ensures tmp + ":" + a + ":" + b + ":" + kind + ":" + msg
         == tmp + ":" + (a + [':'] + (b + [':'] + (kind + [':'] + msg)))
  {
  }

  /** How mypy's parser reads a line once its remainder and its four fields are known. */
  lemma MypyReads(line: string, tmp: string, rest: string, parts: seq<string>, ln: int, col: int)
    requires AfterPath(line, tmp) == Some(rest) && SplitMax(rest, ':', 3) == parts && |parts| == 4
    requires ParseInt(parts[0]) == Some(ln) && ParseInt(parts[1]) == Some(col)
    ensures MypyLine(line, tmp) == Some(MypyRow(ln, col, Strip(parts[3])))
  {
  }

  /**
    A diagnostic as mypy prints it with column numbers,
    "<tmp>:<line>:<column>:<kind>:<message>", becomes one row carrying that
    line, that column and the stripped message, whatever ':' the message
    itself holds.
  */
  lemma MypyDiagnostic(tmp: string, ln: int, col: int, kind: string, msg: string)
    requires ':' !in kind
    ensures MypyLine(tmp + ":" + ShowInt(ln) + ":" + ShowInt(col) + ":" + kind + ":" + msg, tmp)
         == Some(MypyRow(ln, col, Strip(msg)))
  {
    var a, b := ShowInt(ln), ShowInt(col);
    ColonLine(tmp, a, b, kind, msg);
    ShowIntNoColon(ln);
    ShowIntNoColon(col);
    ParseShowInt(ln);
    ParseShowInt(col);
    MypyFieldsRead(tmp, a, b, kind, msg, ln, col);
  }

  /** A line "<tmp>:<a>:<b>:<kind>:<message>" whose first two fields read as integers becomes one row. */
  lemma MypyFieldsRead(tmp: string, a: string, b: string, kind: string, msg: string, ln: int, col: int)
    requires ':' !in a && ':' !in b && ':' !in kind
    requires ParseInt(a) == Some(ln) && ParseInt(b) == Some(col)
    ensures MypyLine(tmp + ":" + (a + [':'] + (b + [':'] + (kind + [':'] + msg))), tmp)
         == Some(MypyRow(ln, col, Strip(msg)))
  {
    var rest := a + [':'] + (b + [':'] + (kind + [':'] + msg));
    AfterLeadingPath(tmp, rest);
    MypyFields(a, b, kind, msg);
    MypyReads(tmp + ":" + rest, tmp, rest, SplitMax(rest, ':', 3), ln, col);
  }

  /** The message mypy reads from the text after the column: the part after its first ':' when there is one, stripped. */
  function TailMessage(tail: string): string {
    var q := SplitMax(tail, ':', 1);
    Strip(q[|q| - 1])
  }

  /** How mypy's parser reads a line once its remainder and its fields are known. */
  lemma MypyLineOfParts(line: string, tmp: string, rest: string, parts: seq<string>, a: string, b: string, m: string)
    requires AfterPath(line, tmp) == Some(rest) && SplitMax(rest, ':', 3) == parts && |parts| >= 3
    requires parts[0] == a && parts[1] == b && Strip(parts[|parts| - 1]) == m
    ensures MypyLine(line, tmp)
         == if ParseInt(a).Some? && ParseInt(b).Some?
            then Some(MypyRow(ParseInt(a).value, ParseInt(b).value, m))
            else None
  {
  }

  /** The three splits of "<a>:<b>:<tail>" with ':'-free `a` and `b`: `a`, `b`, then the split of `tail`. */
  lemma MypyCut(a: string, b: string, tail: string)
    requires ':' !in a && ':' !in b
    ensures var p, q := SplitMax(a + [':'] + (b + [':'] + tail), ':', 3), SplitMax(tail, ':', 1);
      |p| == |q| + 2 && p[0] == a && p[1] == b && p[|p| - 1] == q[|q| - 1]
  {
    SplitMaxCons(b, ':', tail, 1);
    SplitMaxCons(a, ':', b + [':'] + tail, 2);
  }

  /** The fields of "<a>:<b>:<tail>" as the parser reads them. */
  lemma MypyFieldsOf(a: string, b: string, tail: string, rest: string, parts: seq<string>)
    requires ':' !in a && ':' !in b
    requires rest == a + ":" + b + ":" + tail && parts == SplitMax(rest, ':', 3)
    ensures |parts| >= 3 && parts[0] == a && parts[1] == b && Strip(parts[|parts| - 1]) == TailMessage(tail)
  {
    ColonNest(a, b, tail);
    MypyCut(a, b, tail);
  }

  lemma ColonNest(a: string, b: string, tail: string)
    ensures a + ":" + b + ":" + tail == a + [':'] + (b + [':'] + tail)
  {
  }

  /**
    A line whose remainder after "<tmp>:" is "<a>:<b>:<tail>", with
    ':'-free `a` and `b`, gives a row exactly when `a` and `b` read as
    integers: that line and column, and the message read from `tail`.
    Otherwise `int()` raises and the line is skipped.
  */
  lemma MypyLineFields(line: string, tmp: string, a: string, b: string, tail: string)
    requires ':' !in a && ':' !in b
    requires AfterPath(line, tmp) == Some(a + ":" + b + ":" + tail)
    ensures MypyLine(line, tmp)
         == if ParseInt(a).Some? && ParseInt(b).Some?
            then Some(MypyRow(ParseInt(a).value, ParseInt(b).value, TailMessage(tail)))
            else None
  {
    var rest := a + ":" + b + ":" + tail;
    var parts := SplitMax(rest, ':', 3);
    MypyFieldsOf(a, b, tail, rest, parts);
    MypyLineOfParts(line, tmp, rest, parts, a, b, TailMessage(tail));
  }

  /** A remainder after "<tmp>:" with fewer than two ':' has fewer than three fields: the line is skipped. */
  lemma MypyLineFewFields(line: string, tmp: string, a: string, b: string)
    requires ':' !in a && ':' !in b
    requires AfterPath(line, tmp) == Some(a) || AfterPath(line, tmp) == Some(a + ":" + b)
    ensures MypyLine(line, tmp) == None
  {
    assert SplitMax(b, ':', 2) == [b];
    SplitMaxCons(a, ':', b, 2);
    assert SplitMax(a, ':', 3) == [a];
    assert a + ":" + b == a + [':'] + b;
  }

  /**
    Every row mypy's parser yields comes from a remainder "<a>:<b>:<tail>"
    with ':'-free `a` and `b` that read as the row's line and column.
  */
  lemma MypyLineReads(line: string, tmp: string)
    requires MypyLine(line, tmp).Some?
    ensures exists a, b, tail ::
              && ':' !in a && ':' !in b
              && AfterPath(line, tmp) == Some(a + ":" + b + ":" + tail)
              && ParseInt(a).Some? && ParseInt(b).Some?
              && MypyLine(line, tmp) == Some(MypyRow(ParseInt(a).value, ParseInt(b).value, TailMessage(tail)))
  {
    var rest := AfterPath(line, tmp).value;
    var parts := SplitMax(rest, ':', 3);
    var a, b, tail := parts[0], parts[1], JoinWith(parts[2..], ':');
    FieldsJoin(rest, parts);
    MypyLineFields(line, tmp, a, b, tail);
  }

  /** The remainder is its first two fields and the join of the others, with ':' between. */
  lemma FieldsJoin(rest: string, parts: seq<string>)
    requires parts == SplitMax(rest, ':', 3) && |parts| >= 3
    ensures ':' !in parts[0] && ':' !in parts[1]
    ensures rest == parts[0] + ":" + parts[1] + ":" + JoinWith(parts[2..], ':')
  {
    SplitMaxPieces(rest, ':', 3);
    SplitMaxJoins(rest, ':', 3);
    assert parts == [parts[0]] + parts[1..];
    JoinWithFront(parts[0], parts[1..], ':');
    assert parts[1..] == [parts[1]] + parts[2..];
    JoinWithFront(parts[1], parts[2..], ':');
  }

  /**
    A diagnostic mypy prints without a kind field, "<tmp>:<line>:<column>:<message>"
    with a ':'-free message, becomes a row with that line, that column and the
    stripped message: the third field stands in for the missing fourth.
  */
  lemma MypyThreeFields(tmp: string, ln: int, col: int, msg: string)
    requires ':' !in msg
    ensures MypyLine(tmp + ":" + ShowInt(ln) + ":" + ShowInt(col) + ":" + msg, tmp)
         == Some(MypyRow(ln, col, Strip(msg)))
  {
    var a, b := ShowInt(ln), ShowInt(col);
    var rest := a + ":" + b + ":" + msg;
    assert tmp + ":" + a + ":" + b + ":" + msg == tmp + ":" + rest;
    AfterLeadingPath(tmp, rest);
    ShowIntNoColon(ln);
    ShowIntNoColon(col);
    ParseShowInt(ln);
    ParseShowInt(col);
    assert SplitMax(msg, ':', 1) == [msg];
    MypyLineFields(tmp + ":" + rest, tmp, a, b, msg);
  }

  /**
    Every row pydocstyle's parser yields comes from a line holding ':' whose
    remainder after "<tmp>:" has a first word that reads as an integer: the
    row's line. The rule is read from the remainder's words.
  */
  lemma PydocstyleLineReads(line: string, tmp: string)
    requires PydocstyleLine(line, tmp).Some?
    ensures ':' in line && AfterPath(line, tmp).Some?
    ensures var rest := AfterPath(line, tmp).value; var words := SplitWhitespace(rest);
      && words != [] && ParseInt(words[0]).Some?
      && PydocstyleLine(line, tmp) == Some(PydocstyleRow(line, ParseInt(words[0]).value, PydocstyleTag(rest, words)))
  {
  }

  /** A remainder that is blank, or whose first word is not an integer, makes `int()` raise: the line is skipped. */
  lemma PydocstyleLineSkips(line: string, tmp: string, rest: string)
    requires AfterPath(line, tmp) == Some(rest)
    requires IsBlank(rest) || ParseInt(SplitWhitespace(rest)[0]).None?
    ensures PydocstyleLine(line, tmp) == None
  {
  }

  /** How pydocstyle's parser reads a line once its remainder and words are known. */
  lemma PydocstyleReads(line: string, tmp: string, rest: string, words: seq<string>, ln: int)
    requires ':' in line && AfterPath(line, tmp) == Some(rest)
    requires SplitWhitespace(rest) == words && words != [] && ParseInt(words[0]) == Some(ln)
    ensures PydocstyleLine(line, tmp) == Some(PydocstyleRow(line, ln, PydocstyleTag(rest, words)))
  {
  }

  /** The remainder after "<tmp>:" of a line that starts with it. */
  lemma AfterLeadingPath(tmp: string, rest: string)
    ensures ':' in tmp + ":" + rest
    ensures AfterPath(tmp + ":" + rest, tmp) == Some(rest)
  {
    var line := tmp + ":" + rest;
    assert line == tmp + (":" + rest) == (tmp + ":") + rest;
    FindPrefix(tmp, ":" + rest);
    SplitOnceAtStart(tmp + ":", rest);
    assert line[|tmp|] == ':';
  }

  /**
    A location line as pydocstyle prints it, "<tmp>:<line> <words>", becomes a
    row carrying that line number. Its rule is the last word cut at its first
    ':' when the remainder holds a ':', else "Dxxx".
  */
  lemma PydocstyleLocation(tmp: string, ln: int, ctx: seq<string>, rest: string, last: string)
    requires ctx != [] && AllWords(ctx) && ctx[|ctx| - 1] == last
    requires rest == JoinWith([ShowInt(ln)] + ctx, ' ')
    ensures var r := PydocstyleLine(tmp + ":" + rest, tmp);
      && r.Some?
      && Normalised(Int(ln), r.value.line)
      && r.value.rule == Str(if ':' in rest then BeforeColon(last) else "Dxxx")
  {
    LocationWords(ln, ctx);
    AfterLeadingPath(tmp, rest);
    PydocstyleReads(tmp + ":" + rest, tmp, rest, [ShowInt(ln)] + ctx, ln);
  }

  /** The words of a location line's remainder: the line number's digits, then the context words. */
  lemma LocationWords(ln: int, ctx: seq<string>)
    requires ctx != [] && AllWords(ctx)
    ensures var words := [ShowInt(ln)] + ctx;
      && SplitWhitespace(JoinWith(words, ' ')) == words
      && words != [] && ParseInt(words[0]) == Some(ln) && words[|words| - 1] == ctx[|ctx| - 1]
  {
    var words := [ShowInt(ln)] + ctx;
    ShowIntWord(ln);
    AllWordsCons(ShowInt(ln), ctx);
    SplitJoinedWords(words);
    ParseShowInt(ln);
  }

  /**
    pydocstyle's location line for a module, "<tmp>:1 at module level:",
    gets the rule "level": the parser reads the location line, not the
    indented line below it that names the D-code.
  */
  lemma PydocstyleModuleLevel(tmp: string)
    ensures var r := PydocstyleLine(tmp + ":" + "1 at module level:", tmp);
      r.Some? && r.value.rule == Str("level") && r.value.line == Int(1)
  {
    ModuleLevelWords();
    ModuleLevelJoin();
    ModuleLevelColon();
    PydocstyleLocation(tmp, 1, ["at", "module", "level:"], "1 at module level:", "level:");
  }

  lemma ModuleLevelWords()
    ensures var ctx := ["at", "module", "level:"];
      ctx != [] && AllWords(ctx) && ctx[|ctx| - 1] == "level:"
  {
    var ctx := ["at", "module", "level:"];
    assert IsWord(ctx[0]) && IsWord(ctx[1]) && IsWord(ctx[2]);
  }

  lemma ModuleLevelJoin()
    ensures JoinWith([ShowInt(1)] + ["at", "module", "level:"], ' ') == "1 at module level:"
  {
    var ws := [ShowInt(1)] + ["at", "module", "level:"];
    assert ShowInt(1) == "1";
    assert ws[1..][1..][1..] == ["level:"];
    assert JoinWith(ws[1..][1..], ' ') == "module level:";
    assert JoinWith(ws[1..], ' ') == "at module level:";
  }

  lemma ModuleLevelColon()
    ensures ':' in "1 at module level:"
    ensures BeforeColon("level:") == "level"
  {
    assert "1 at module level:"[17] == ':';
    assert IndexOf("level:", ':') == Some(5);
  }

  /** Which of the two parsers reads the lines. */
  datatype LineTool = Mypy | Pydocstyle

  function ParseLine(tool: LineTool, line: string, tmp: string): Option<Row> {
    match tool
    case Mypy => MypyLine(line, tmp)
    case Pydocstyle => PydocstyleLine(line, tmp)
  }

  /** What the parser makes of each line, in line order. */
  function Parsed(tool: LineTool, tmp: string, lines: seq<string>): (ps: seq<Option<Row>>)
    ensures |ps| == |lines|
    ensures forall k :: 0 <= k < |lines| ==> ps[k] == ParseLine(tool, lines[k], tmp)
  {
    MapSeq(line => ParseLine(tool, line, tmp), lines)
  }

  /** The rows the adapter's loop appends, reading `lines` in order. */
  function LineRows(tool: LineTool, tmp: string, lines: seq<string>): (rows: seq<Row>)
    ensures |rows| <= |lines|
  {
    SomesLength(Parsed(tool, tmp, lines));
    Somes(Parsed(tool, tmp, lines))
  }

  /**
    At most one row per line, in line order: the k-th row comes from the
    k-th accepted line, the accepted lines' indices increase strictly, and
    every other line yields nothing.
  */
  lemma LineRowsFollowLines(tool: LineTool, tmp: string, lines: seq<string>)
    ensures var rows, acc := LineRows(tool, tmp, lines), Present(Parsed(tool, tmp, lines));
      && |rows| == |acc| <= |lines|
      && (forall k :: 0 <= k < |acc| ==> acc[k] < |lines| && ParseLine(tool, lines[acc[k]], tmp) == Some(rows[k]))
      && (forall k, m :: 0 <= k < m < |acc| ==> acc[k] < acc[m])
      && (forall j :: 0 <= j < |lines| && j !in acc ==> ParseLine(tool, lines[j], tmp).None?)
  {
    SomesFollowPositions(Parsed(tool, tmp, lines));
  }

  /** Every row comes from some line the parser accepted. */
  lemma RowFromLine(tool: LineTool, tmp: string, lines: seq<string>, row: Row)
    requires row in LineRows(tool, tmp, lines)
    ensures exists j :: 0 <= j < |lines| && ParseLine(tool, lines[j], tmp) == Some(row)
  {
    var rows := LineRows(tool, tmp, lines);
    var k :| 0 <= k < |rows| && rows[k] == row;
    LineRowsFollowLines(tool, tmp, lines);
    var j := Present(Parsed(tool, tmp, lines))[k];
    assert ParseLine(tool, lines[j], tmp) == Some(row);
  }

  /** Reading two blocks of lines one after the other gives the two blocks' rows one after the other. */
  lemma LineRowsAppend(tool: LineTool, tmp: string, a: seq<string>, b: seq<string>)
    ensures LineRows(tool, tmp, a + b) == LineRows(tool, tmp, a) + LineRows(tool, tmp, b)
  {
    MapAppend(line => ParseLine(tool, line, tmp), a, b);
    SomesAppend(Parsed(tool, tmp, a), Parsed(tool, tmp, b));
  }

  /** Reading one more line adds that line's row, if any, at the end: the step of the adapter's loop. */
  lemma LineRowsSnoc(tool: LineTool, tmp: string, lines: seq<string>, i: nat)
    requires i < |lines|
    ensures LineRows(tool, tmp, lines[..i + 1])
         == LineRows(tool, tmp, lines[..i]) + (match ParseLine(tool, lines[i], tmp) case Some(r) => [r] case None => [])
  {
    assert lines[..i + 1] == lines[..i] + [lines[i]];
    LineRowsAppend(tool, tmp, lines[..i], [lines[i]]);
    assert Parsed(tool, tmp, [lines[i]]) == [ParseLine(tool, lines[i], tmp)];
    SomesSingleton(ParseLine(tool, lines[i], tmp));
  }

  /** An empty line yields no row from either parser. */
  lemma EmptyLineSkipped(tool: LineTool, tmp: string)
    ensures ParseLine(tool, "", tmp).None?
  {
    assert !Contains("", tmp + ":");
  }

  /** A lone empty line contributes no rows. */
  lemma EmptyLineNoRows(tool: LineTool, tmp: string)
    ensures LineRows(tool, tmp, [""]) == []
  {
    EmptyLineSkipped(tool, tmp);
    assert Parsed(tool, tmp, [""]) == [ParseLine(tool, "", tmp)];
    SomesSingleton(ParseLine(tool, "", tmp));
  }

  /**
    Reading the lines of `out + "\n" + err` gives the rows of stdout
    followed by the rows of stderr, whatever empty line the join adds.
  */
  lemma JoinedStreams(tool: LineTool, tmp: string, out: string, err: string)
    ensures LineRows(tool, tmp, SplitLines(out + "\n" + err))
         == LineRows(tool, tmp, SplitLines(out)) + LineRows(tool, tmp, SplitLines(err))
  {
    var lo, le := SplitLines(out), SplitLines(err);
    SplitLinesJoin(out, err);
    LineRowsAppend(tool, tmp, lo, le);
    if SplitLines(out + "\n" + err) != lo + le {
      LineRowsAppend(tool, tmp, lo + [""], le);
      LineRowsAppend(tool, tmp, lo, [""]);
      EmptyLineNoRows(tool, tmp);
      assert LineRows(tool, tmp, lo + [""]) == LineRows(tool, tmp, lo);
    }
  }
}
