/**
  Python's `int(text)` on decimal text, and `str(n)`, its inverse on integers.
  `int` accepts surrounding white space of its own kind (`IsIntSpace`), one
  optional sign and ASCII digits with single underscores between them
  ("1_000"); anything else raises `ValueError`, modelled as `None`.
*/
module PyInt {
  import opened Wrappers
  import opened PyStr

  predicate IsDigit(c: char) {
    '0' <= c <= '9'
  }

  /**
    The digit part `int` accepts: ASCII digits, with single underscores only
    between two digits ("1_000", not "_1", "1_" or "1__0"). Read from the
    right: a final digit after a shorter group, after a group and one
    underscore, or alone.
  */
  predicate IsDigitGroup(d: string)
    decreases |d|
  {
    && |d| > 0 && IsDigit(d[|d| - 1])
    && (|d| == 1 || IsDigitGroup(d[..|d| - 1]) || (|d| >= 3 && d[|d| - 2] == '_' && IsDigitGroup(d[..|d| - 2])))
  }

  /** A digit group starts with a digit. */
  lemma {:induction false} DigitGroupStart(d: string)
    requires IsDigitGroup(d)
    ensures IsDigit(d[0])
    decreases |d|
  {
    if |d| > 1 {
      if IsDigitGroup(d[..|d| - 1]) {
        DigitGroupStart(d[..|d| - 1]);
      } else {
        DigitGroupStart(d[..|d| - 2]);
      }
    }
  }

  /** The number the digits of `d` spell, underscores ignored. */
  function DigitsValue(d: string): nat
    requires IsDigitGroup(d)
    decreases |d|
  {
    var last := d[|d| - 1] as int - '0' as int;
    if |d| == 1 then last
    else if IsDigitGroup(d[..|d| - 1]) then 10 * DigitsValue(d[..|d| - 1]) + last
    else 10 * DigitsValue(d[..|d| - 2]) + last
  }

  /**
    The white space `int()` skips around a numeral. CPython first rewrites every
    non-ASCII character that `isspace` accepts to a space, then skips only the
    ASCII space, \t, \n, \v, \f and \r. The ASCII separators \x1c-\x1f, which
    `isspace` accepts, are not skipped, so `int("\x1f5")` raises.
  */
  predicate IsIntSpace(c: char) {
    c == ' ' || c == '\t' || c == '\n' || c == '\U{B}' || c == '\U{C}' || c == '\r'
    || ('\U{7F}' < c && IsSpace(c))
  }

  /** Every character `int()` skips is white space to `isspace` too. */
  lemma IntSpaceIsSpace(c: char)
    ensures IsIntSpace(c) ==> IsSpace(c)
  {
  }

  /** `s` is empty or made of `int()`'s white space only. */
  predicate IsIntBlank(s: string) {
    forall k :: 0 <= k < |s| ==> IsIntSpace(s[k])
  }

  /** The index of the first character of `s` at or after `i` that `int()` does not skip, or `|s|`. */
  function IntSpaceEnd(s: string, i: nat): (n: nat)
    requires i <= |s|
    ensures i <= n <= |s|
    ensures forall k :: i <= k < n ==> IsIntSpace(s[k])
    ensures n < |s| ==> !IsIntSpace(s[n])
    decreases |s| - i
  {
    if i < |s| && IsIntSpace(s[i]) then IntSpaceEnd(s, i + 1) else i
  }

  /** The index just after the last character of `s[..j]` that `int()` does not skip, or 0. */
  function IntSpaceStart(s: string, j: nat): (n: nat)
    requires j <= |s|
    ensures n <= j
    ensures forall k :: n <= k < j ==> IsIntSpace(s[k])
    ensures n > 0 ==> !IsIntSpace(s[n - 1])
  {
    if j > 0 && IsIntSpace(s[j - 1]) then IntSpaceStart(s, j - 1) else j
  }

  lemma {:induction false} IntSpaceEndUnique(s: string, i: nat, n: nat)
    requires i <= n <= |s|
    requires forall k :: i <= k < n ==> IsIntSpace(s[k])
    requires n < |s| ==> !IsIntSpace(s[n])
    ensures IntSpaceEnd(s, i) == n
    decreases n - i
  {
    if i < n {
      IntSpaceEndUnique(s, i + 1, n);
    }
  }

  lemma {:induction false} IntSpaceStartUnique(s: string, j: nat, n: nat)
    requires n <= j <= |s|
    requires forall k :: n <= k < j ==> IsIntSpace(s[k])
    requires n > 0 ==> !IsIntSpace(s[n - 1])
    ensures IntSpaceStart(s, j) == n
    decreases j
  {
    if n < j {
      IntSpaceStartUnique(s, j - 1, n);
    }
  }

  /** `s` without the white space `int()` skips at either end; empty exactly when nothing else is left. */
  function IntStrip(s: string): (t: string)
    ensures t == [] <==> IsIntBlank(s)
    ensures t == [] || (!IsIntSpace(t[0]) && !IsIntSpace(t[|t| - 1]))
  {
    var i := IntSpaceEnd(s, 0);
    if i == |s| then []
    else
      var j := IntSpaceStart(s, |s|);
      assert i < j;
      s[i..j]
  }

  /** `int(s)`: `None` where Python raises `ValueError`. */
  function ParseInt(s: string): (r: Option<int>)
    ensures r.Some? ==> !IsIntBlank(s)
  {
    ParseSigned(IntStrip(s))
  }

  /**
    What `int()` accepts: a signed numeral between margins of its own white
    space, read as that numeral.
  */
  lemma ParseIntReads(s: string)
    requires ParseInt(s).Some?
    ensures exists i: nat, j: nat ::
              i < j <= |s| && IsIntBlank(s[..i]) && IsIntBlank(s[j..]) && ParseSigned(s[i..j]) == ParseInt(s)
  {
    var i := IntSpaceEnd(s, 0);
    var j := IntSpaceStart(s, |s|);
    assert IsIntBlank(s[..i]);
    assert IsIntBlank(s[j..]);
  }

  /** And conversely: margins of `int()`'s white space around a numeral do not change how it reads. */
  lemma ParseIntPadded(pre: string, t: string, post: string)
    requires IsIntBlank(pre) && IsIntBlank(post)
    requires t != [] && !IsIntSpace(t[0]) && !IsIntSpace(t[|t| - 1])
    ensures ParseInt(pre + t + post) == ParseSigned(t)
  {
    var s := pre + t + post;
    assert forall k :: 0 <= k < |pre| ==> s[k] == pre[k];
    assert forall k :: |pre| + |t| <= k < |s| ==> s[k] == post[k - |pre| - |t|];
    assert s[|pre|] == t[0] && s[|pre| + |t| - 1] == t[|t| - 1];
    IntSpaceEndUnique(s, 0, |pre|);
    IntSpaceStartUnique(s, |s|, |pre| + |t|);
    assert s[|pre|..|pre| + |t|] == t;
  }

  /** The ASCII separator \x1f is white space to `strip` but not to `int()`: `int("\x1f5")` raises. */
  lemma ParseIntKeepsSeparator()
    ensures IsSpace('\U{1F}') && ParseInt("\U{1F}5") == None
  {
    var s := "\U{1F}5";
    assert IntSpaceEnd(s, 0) == 0;
    assert IntSpaceStart(s, |s|) == |s|;
    assert s[0..|s|] == s;
  }

  /** `int` on text with no surrounding white space: an optional sign, then a digit group. */
  function ParseSigned(t: string): Option<int> {
    if |t| > 0 && (t[0] == '-' || t[0] == '+') then
      var d := t[1..];
      if !IsDigitGroup(d) then None
      else
        var v: int := DigitsValue(d);
        Some(if t[0] == '-' then -v else v)
    else if IsDigitGroup(t) then Some(DigitsValue(t))
    else None
  }

  function DigitChar(k: nat): (c: char)
    requires k < 10
    ensures IsDigit(c) && c as int - '0' as int == k
  {
    ('0' as int + k) as char
  }

  /** `str(n)` for a natural number: its decimal digits, most significant first. */
  function ShowNat(n: nat): (s: string)
    ensures |s| > 0 && forall i :: 0 <= i < |s| ==> IsDigit(s[i])
  {
    if n < 10 then [DigitChar(n)] else ShowNat(n / 10) + [DigitChar(n % 10)]
  }

  /** `str(i)` for an integer. */
  function ShowInt(i: int): (s: string)
    ensures |s| > 0 && forall k :: 0 <= k < |s| ==> IsDigit(s[k]) || (k == 0 && s[k] == '-')
  {
    if i < 0 then "-" + ShowNat(-i) else ShowNat(i)
  }

  /** `str` of an integer is a single word: digits and perhaps a leading minus sign, no white space. */
  lemma ShowIntWord(i: int)
    ensures IsWord(ShowInt(i))
  {
    var s := ShowInt(i);
    forall k | 0 <= k < |s|
      ensures !IsSpace(s[k])
    {
      assert IsDigit(s[k]) || s[k] == '-';
    }
  }

  /** The digits `str` writes are a digit group that spells the number back. */
  lemma {:induction false} ShowNatValue(n: nat)
    ensures IsDigitGroup(ShowNat(n)) && DigitsValue(ShowNat(n)) == n
  {
    var s := ShowNat(n);
    if n >= 10 {
      ShowNatValue(n / 10);
      assert s[..|s| - 1] == ShowNat(n / 10);
    }
  }

  /** A digit group parses to its value. */
  lemma ParseDigitGroup(d: string)
    requires IsDigitGroup(d)
    ensures ParseInt(d) == Some(DigitsValue(d))
  {
    DigitGroupStart(d);
    assert ParseSigned(d) == Some(DigitsValue(d));
    StrippedParse(d);
  }

  /** A digit group after a minus sign parses to the negated value. */
  lemma ParseNegativeDigitGroup(d: string)
    requires IsDigitGroup(d)
    ensures ParseInt("-" + d) == Some(-(DigitsValue(d) as int))
  {
    var s := "-" + d;
    assert s[1..] == d;
    assert ParseSigned(s) == Some(-(DigitsValue(d) as int));
    assert s[0] == '-' && s[|s| - 1] == d[|d| - 1];
    StrippedParse(s);
  }

  /** Text that starts and ends with a character `int()` does not skip is parsed as it stands. */
  lemma StrippedParse(s: string)
    requires s != [] && !IsIntSpace(s[0]) && !IsIntSpace(s[|s| - 1])
    ensures ParseInt(s) == ParseSigned(s)
  {
    assert IntSpaceEnd(s, 0) == 0;
    assert IntSpaceStart(s, |s|) == |s|;
    assert s[0..|s|] == s;
  }

  /** Decimal text parses back to the number it was written from: `int(str(i)) == i`. */
  lemma ParseShowInt(i: int)
    ensures ParseInt(ShowInt(i)) == Some(i)
  {
    if i < 0 {
      ParseShowNegative(i);
    } else {
      ParseShowNonNegative(i);
    }
  }

  lemma ParseShowNegative(i: int)
    requires i < 0
    ensures ParseInt(ShowInt(i)) == Some(i)
  {
    ShowNegative(i);
    ParseNegativeDigitGroup(ShowNat(-i));
  }

  /** A negative number is written as a minus sign before the digits of its magnitude. */
  lemma ShowNegative(i: int)
    requires i < 0
    ensures ShowInt(i) == "-" + ShowNat(-i)
    ensures IsDigitGroup(ShowNat(-i)) && -(DigitsValue(ShowNat(-i)) as int) == i
  {
    ShowNatValue(-i);
  }

  lemma ParseShowNonNegative(i: int)
    requires i >= 0
    ensures ParseInt(ShowInt(i)) == Some(i)
  {
    ShowNatValue(i);
    ParseDigitGroup(ShowNat(i));
  }
}
