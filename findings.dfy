/**
  The uniform finding row of app.py (`_norm_row`) and the values it holds.
  A Python value reaching a row is `None`, a boolean, an integer or a
  string; `v or ""` keeps a truthy `v` and turns a falsy one into "".
*/
module Findings {

  /** The Python values that reach a finding row (JSON null is `None`). */
  datatype Value = Nil | Bool(b: bool) | Int(i: int) | Str(s: string)

  /** Python truthiness: `None`, `False`, `0` and `""` are falsy. */
  predicate Falsy(v: Value) {
    v == Nil || v == Bool(false) || v == Int(0) || v == Str("")
  }

  /** Truthiness, constructor by constructor: `None` is falsy, a boolean is falsy when false, a number when zero, a string when empty. */
  lemma FalsyByKind()
    ensures Falsy(Nil)
    ensures forall b: bool :: Falsy(Bool(b)) <==> !b
    ensures forall i: int :: Falsy(Int(i)) <==> i == 0
    ensures forall s: string :: Falsy(Str(s)) <==> s == ""
  {
  }

  /** `v or ""`. */
  function OrEmpty(v: Value): (r: Value)
    ensures Normalised(v, r)
    ensures r == Str("") || !Falsy(r)
  {
    if Falsy(v) then Str("") else v
  }

  /** A row field that came from `arg or ""`: the argument itself when it is truthy, "" otherwise. */
  predicate Normalised(arg: Value, field: Value) {
    (Falsy(arg) ==> field == Str("")) && (!Falsy(arg) ==> field == arg)
  }

  /** A finding row: the dictionary `_norm_row` builds, one field per key. */
  datatype Row = Row(
    source: string,
    rule: Value,
    typ: Value,
    message: Value,
    line: Value,
    column: Value,
    file: Value,
    severity: Value)

  /** The keys of a row, in the order the dictionary is built and the CSV header lists them. */
  const Header: seq<string> := ["Source", "Rule", "Type", "Message", "Line", "Column", "File", "Severity/Level"]

  /**
    `_norm_row`: `source` is kept as given and every other argument goes
    through `or ""`, so a falsy rule, type, message, line, column, file or
    severity becomes "" and any other value is copied unchanged.
  */
  function NormRow(source: string, rule: Value, typ: Value, msg: Value,
                   line: Value, col: Value, file: Value, sev: Value): (r: Row)
    ensures r.source == source
    ensures Normalised(rule, r.rule) && Normalised(typ, r.typ) && Normalised(msg, r.message)
    ensures Normalised(line, r.line) && Normalised(col, r.column)
    ensures Normalised(file, r.file) && Normalised(sev, r.severity)
  {
    Row(source, OrEmpty(rule), OrEmpty(typ), OrEmpty(msg), OrEmpty(line), OrEmpty(col), OrEmpty(file), OrEmpty(sev))
  }

  /** A field `_norm_row` wrote is "" or a truthy value: never `None`, `False` or `0`. */
  predicate Clean(v: Value) {
    v == Str("") || !Falsy(v)
  }

  /** Every field of a row `_norm_row` built is clean. */
  predicate CleanRow(r: Row) {
    Clean(r.rule) && Clean(r.typ) && Clean(r.message) && Clean(r.line)
    && Clean(r.column) && Clean(r.file) && Clean(r.severity)
  }

  /** Rows built by `_norm_row` are clean, and building again from their own fields gives them back. */
  lemma NormRowIdempotent(source: string, rule: Value, typ: Value, msg: Value,
                          line: Value, col: Value, file: Value, sev: Value)
    ensures CleanRow(NormRow(source, rule, typ, msg, line, col, file, sev))
    ensures var r := NormRow(source, rule, typ, msg, line, col, file, sev);
      NormRow(r.source, r.rule, r.typ, r.message, r.line, r.column, r.file, r.severity) == r
  {
  }

  /** The row as the dictionary's (key, value) pairs, in insertion order. */
  function Entries(r: Row): (e: seq<(string, Value)>)
    ensures |e| == |Header|
    ensures forall k :: 0 <= k < |e| ==> e[k].0 == Header[k]
  {
    [("Source", Str(r.source)), ("Rule", r.rule), ("Type", r.typ), ("Message", r.message),
     ("Line", r.line), ("Column", r.column), ("File", r.file), ("Severity/Level", r.severity)]
  }

  /** The eight keys are distinct, so a row has exactly eight keys. */
  lemma HeaderDistinct()
    ensures |Header| == 8
    ensures forall i, j :: 0 <= i < j < |Header| ==> Header[i] != Header[j]
  {
  }

  /** `d.get(key, default)` on a dictionary given by its pairs: the first pair with that key. */
  function Lookup(e: seq<(string, Value)>, key: string, default: Value): (v: Value)
    ensures (forall k :: 0 <= k < |e| ==> e[k].0 != key) ==> v == default
    ensures forall k :: 0 <= k < |e| && e[k].0 == key && (forall j :: 0 <= j < k ==> e[j].0 != key) ==> v == e[k].1
  {
    if e == [] then default
    else if e[0].0 == key then e[0].1
    else Lookup(e[1..], key, default)
  }

  /** The values `_to_csv` writes for one row: `r.get(k, "")` for each header `k`. */
  function CsvRecord(r: Row, headers: seq<string>): (vals: seq<Value>)
    ensures |vals| == |headers|
    ensures forall k :: 0 <= k < |headers| ==> vals[k] == Lookup(Entries(r), headers[k], Str(""))
  {
    seq(|headers|, k requires 0 <= k < |headers| => Lookup(Entries(r), headers[k], Str("")))
  }

  /**
    Written with the standard header, a CSV record holds the row's eight
    fields in order; a header the row does not have is written as "".
  */
  lemma CsvRecordOfHeader(r: Row, extra: string)
    requires extra !in Header
    ensures CsvRecord(r, Header) == [Str(r.source), r.rule, r.typ, r.message, r.line, r.column, r.file, r.severity]
    ensures CsvRecord(r, [extra]) == [Str("")]
  {
    var e := Entries(r);
    var vals := CsvRecord(r, Header);
    forall k | 0 <= k < 8 ensures vals[k] == e[k].1 {
      HeaderDistinct();
    }
  }
}
