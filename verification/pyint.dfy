/**
 Python's `int(text)` on a string, as both prototypes use it to read the
 playback count: surrounding whitespace is ignored, one optional sign, then
 decimal digits in which single underscores may separate digits, at most
 `MaxStrDigits` digits in all (the conversion limit CPython enforces since
 3.11). Anything else raises `ValueError`, modelled as `None`.
 */
module PyInt {
  import opened Common

  /** The characters `int()` strips: those `str.isspace()` accepts, except the
      four information separators U+001C..U+001F, which `int()` rejects. */
  predicate IsSpace(c: char)
  {
    || c == ' ' || '\t' <= c <= '\r'                // space, \t \n \v \f \r
    || c == '\U{85}' || c == '\U{a0}'
    || c == '\U{1680}' || '\U{2000}' <= c <= '\U{200a}'
    || c == '\U{2028}' || c == '\U{2029}' || c == '\U{202f}' || c == '\U{205f}' || c == '\U{3000}'
  }

  predicate IsDigit(c: char)
  {
    '0' <= c <= '9'
  }

  function TrimLeft(s: string): (t: string)
    ensures |t| <= |s| && t == s[|s| - |t|..]
    ensures |t| > 0 ==> !IsSpace(t[0])
    ensures forall i :: 0 <= i < |s| - |t| ==> IsSpace(s[i])
  {
    if |s| > 0 && IsSpace(s[0]) then TrimLeft(s[1..]) else s
  }

  function TrimRight(s: string): (t: string)
    ensures |t| <= |s| && t == s[..|t|]
    ensures |t| > 0 ==> !IsSpace(t[|t| - 1])
    ensures forall i :: |t| <= i < |s| ==> IsSpace(s[i])
  {
    if |s| > 0 && IsSpace(s[|s| - 1]) then TrimRight(s[..|s| - 1]) else s
  }

  /** `str.strip()`: the text without its leading and trailing whitespace. */
  function Strip(s: string): string
  {
    TrimRight(TrimLeft(s))
  }

  /** A digit string as `int()` accepts it: digits, where an underscore may
      stand between two digits but not first, last or next to another underscore. */
  predicate Grouped(s: string)
  {
    && |s| > 0
    && IsDigit(s[0])
    && DigitsOrUnderscores(s)
    && forall i :: 0 <= i < |s| && s[i] == '_' ==> i + 1 < |s| && IsDigit(s[i + 1])
  }

  predicate DigitsOrUnderscores(s: string)
  {
    forall i :: 0 <= i < |s| ==> IsDigit(s[i]) || s[i] == '_'
  }

  /** `sys.int_info.default_max_str_digits`: `int()` refuses decimal text with
      more digits than this (underscores and the sign are not counted). */
  const MaxStrDigits: nat := 4300

  /** The number of digits in a string. */
  function DigitCount(s: string): nat
  {
    if |s| == 0 then 0
    else DigitCount(s[..|s| - 1]) + (if IsDigit(s[|s| - 1]) then 1 else 0)
  }

  function DigitValue(c: char): nat
    requires IsDigit(c)
  {
    (c as int - '0' as int) as nat
  }

  /** The number a digit string denotes, underscores ignored. */
  function Value(s: string): nat
    requires DigitsOrUnderscores(s)
  {
    if |s| == 0 then 0
    else if s[|s| - 1] == '_' then Value(s[..|s| - 1])
    else Value(s[..|s| - 1]) * 10 + DigitValue(s[|s| - 1])
  }

  /** `int(s)` for a `str` argument; `None` where Python raises `ValueError`. */
  function ParseInt(s: string): Option<int>
  {
    ParseTrimmed(Strip(s))
  }

  /** The sign and digits that remain once whitespace is stripped. */
  function ParseTrimmed(t: string): Option<int>
  {
    var signed := |t| > 0 && (t[0] == '+' || t[0] == '-');
    var digits := if signed then t[1..] else t;
    if !Grouped(digits) || DigitCount(digits) > MaxStrDigits then None
    else
      var v: int := Value(digits);
      Some(if signed && t[0] == '-' then -v else v)
  }

  /** `str(n)` for a natural number. */
  function Decimal(n: nat): (s: string)
    ensures |s| > 0
    ensures forall i :: 0 <= i < |s| ==> IsDigit(s[i])
  {
    if n < 10 then [('0' as int + n) as char]
    else Decimal(n / 10) + [('0' as int + n % 10) as char]
  }

  /** `str(i)`: the canonical decimal text of an integer. */
  function Show(i: int): string
  {
    if i < 0 then "-" + Decimal(-i) else Decimal(i)
  }

  /** The number of digits `str(i)` has. */
  function ShownDigits(i: int): nat
  {
    |Decimal(if i < 0 then -i else i)|
  }

  lemma {:induction false} DecimalValue(n: nat)
    ensures Value(Decimal(n)) == n
  {
    if n >= 10 {
      var d := Decimal(n / 10);
      var s := Decimal(n);
      assert s[..|s| - 1] == d;
      DecimalValue(n / 10);
    }
  }

  /** Round trip: `int(str(i)) == i` for every integer, negative and zero
      included, as long as its text stays within the digit limit; past it,
      `int()` raises. */
  lemma ParseShow(i: int)
    ensures ParseInt(Show(i)) == if ShownDigits(i) <= MaxStrDigits then Some(i) else None
  {
    var s := Show(i);
    TrimmedShow(i);
    assert !IsSpace(s[0]) && !IsSpace(s[|s| - 1]);
    StripClean(s);
  }

  lemma TrimmedShow(i: int)
    ensures |Show(i)| > 0 && (Show(i)[0] == '-' || IsDigit(Show(i)[0])) && IsDigit(Show(i)[|Show(i)| - 1])
    ensures ParseTrimmed(Show(i)) == if ShownDigits(i) <= MaxStrDigits then Some(i) else None
  {
    var n: nat := if i < 0 then -i else i;
    var d := Decimal(n);
    DecimalValue(n);
    DecimalGrouped(n);
    AllDigitsCount(d);
    if i < 0 {
      ParseNegative(d);
    } else {
      ParseUnsigned(d);
    }
  }

  lemma ParseUnsigned(d: string)
    requires Grouped(d)
    ensures ParseTrimmed(d) == if DigitCount(d) <= MaxStrDigits then Some(Value(d) as int) else None
  {
  }

  lemma ParseNegative(d: string)
    requires Grouped(d)
    ensures ParseTrimmed("-" + d) == if DigitCount(d) <= MaxStrDigits then Some(-(Value(d) as int)) else None
  {
    assert ("-" + d)[1..] == d;
  }

  lemma {:induction false} AllDigitsCount(s: string)
    requires forall i :: 0 <= i < |s| ==> IsDigit(s[i])
    ensures DigitCount(s) == |s|
  {
    if |s| > 0 {
      AllDigitsCount(s[..|s| - 1]);
    }
  }

  lemma DecimalGrouped(n: nat)
    ensures Grouped(Decimal(n))
  {
  }

  /** Text that neither starts nor ends with whitespace is left alone by `strip`. */
  lemma StripClean(s: string)
    requires |s| > 0 && !IsSpace(s[0]) && !IsSpace(s[|s| - 1])
    ensures Strip(s) == s
  {
    assert TrimLeft(s) == s;
  }

  /** Whitespace around the number does not change what `int()` reads. */
  lemma ParsePadded(pre: string, s: string, post: string)
    requires forall i :: 0 <= i < |pre| ==> IsSpace(pre[i])
    requires forall i :: 0 <= i < |post| ==> IsSpace(post[i])
    requires |s| > 0 && !IsSpace(s[0]) && !IsSpace(s[|s| - 1])
    ensures ParseInt(pre + s + post) == ParseInt(s)
  {
    StripPadded(pre, s, post);
    StripPadded([], s, []);
    assert [] + s + [] == s;
  }

  lemma {:induction false} StripPadded(pre: string, s: string, post: string)
    requires forall i :: 0 <= i < |pre| ==> IsSpace(pre[i])
    requires forall i :: 0 <= i < |post| ==> IsSpace(post[i])
    requires |s| > 0 && !IsSpace(s[0]) && !IsSpace(s[|s| - 1])
    ensures Strip(pre + s + post) == s
  {
    LeftPadded(pre, s + post);
    assert pre + s + post == pre + (s + post);
    RightPadded(s, post);
  }

  lemma {:induction false} LeftPadded(pre: string, s: string)
    requires forall i :: 0 <= i < |pre| ==> IsSpace(pre[i])
    requires |s| > 0 && !IsSpace(s[0])
    ensures TrimLeft(pre + s) == s
    decreases |pre|
  {
    if |pre| > 0 {
      assert (pre + s)[1..] == pre[1..] + s;
      LeftPadded(pre[1..], s);
    } else {
      assert pre + s == s;
    }
  }

  lemma {:induction false} RightPadded(s: string, post: string)
    requires forall i :: 0 <= i < |post| ==> IsSpace(post[i])
    requires |s| > 0 && !IsSpace(s[|s| - 1])
    ensures TrimRight(s + post) == s
    decreases |post|
  {
    if |post| > 0 {
      assert (s + post)[..|s + post| - 1] == s + post[..|post| - 1];
      RightPadded(s, post[..|post| - 1]);
    } else {
      assert s + post == s;
    }
  }

  /** Text without a single decimal digit (empty and blank text included) raises `ValueError`. */
  lemma NoDigitIsRejected(s: string)
    requires forall i :: 0 <= i < |s| ==> !IsDigit(s[i])
    ensures ParseInt(s) == None
  {
    var l := TrimLeft(s);
    var t := TrimRight(l);
    forall i | 0 <= i < |t|
      ensures !IsDigit(t[i])
    {
      assert t[i] == l[i] == s[|s| - |l| + i];
    }
    NoDigitTrimmed(t);
  }

  lemma NoDigitTrimmed(t: string)
    requires forall i :: 0 <= i < |t| ==> !IsDigit(t[i])
    ensures ParseTrimmed(t) == None
  {
    if |t| > 1 {
      assert t[1..][0] == t[1];
    }
  }
}
