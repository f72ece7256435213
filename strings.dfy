/** The handful of Python `str` operations the converter relies on:
    `strip()`, `split(sep)`, `sep.join(...)`, the `in` substring test and
    `int(text)` for base-10 text. */
module Strings {
  import opened Wrappers

  /** The characters Python's `str.isspace` accepts (those `strip()` removes):
      tab through carriage return, the four information separators, space,
      next line, no-break space, and the Unicode space separators. */
  predicate IsSpace(c: char) {
    || c == ' '
    || '\t' <= c <= '\r'
    || '\U{001C}' <= c <= '\U{001F}'
    || c == '\U{0085}' || c == '\U{00A0}' || c == '\U{1680}'
    || '\U{2000}' <= c <= '\U{200A}'
    || c == '\U{2028}' || c == '\U{2029}' || c == '\U{202F}' || c == '\U{205F}' || c == '\U{3000}'
  }

  /** Every character of `s[lo..hi]` is whitespace. */
  predicate SpacesIn(s: string, lo: nat, hi: nat)
    requires lo <= hi <= |s|
  {
    forall i :: lo <= i < hi ==> IsSpace(s[i])
  }

  predicate AllSpace(s: string) {
    SpacesIn(s, 0, |s|)
  }

  /** Index of the first non-whitespace character (|s| when there is none). */
  function StripStart(s: string): (lo: nat)
    ensures lo <= |s| && SpacesIn(s, 0, lo)
    ensures lo < |s| ==> !IsSpace(s[lo])
    decreases |s|
  {
    if s != [] && IsSpace(s[0]) then 1 + StripStart(s[1..]) else 0
  }

  /** Index just past the last non-whitespace character (0 when there is none). */
  function StripEnd(s: string): (hi: nat)
    ensures hi <= |s| && SpacesIn(s, hi, |s|)
    ensures hi > 0 ==> !IsSpace(s[hi - 1])
    decreases |s|
  {
    if s != [] && IsSpace(s[|s| - 1]) then StripEnd(s[..|s| - 1]) else |s|
  }

  /** `s.strip()`: `s` without its leading and trailing whitespace. */
  function Strip(s: string): (r: string)
    ensures r != [] ==> !IsSpace(r[0]) && !IsSpace(r[|r| - 1])
    ensures r == [] <==> AllSpace(s)
    ensures r != [] ==> r == s[StripStart(s)..StripEnd(s)]
  {
    var lo, hi := StripStart(s), StripEnd(s);
    assert lo < |s| ==> lo < hi;
    if lo <= hi then s[lo..hi] else []
  }

  /** `strip()` is determined by its contract: any slice of `s` that is
      surrounded by whitespace and neither starts nor ends with whitespace is it. */
  lemma StripUnique(s: string, lo: nat, hi: nat)
    requires lo <= hi <= |s|
    requires SpacesIn(s, 0, lo) && SpacesIn(s, hi, |s|)
    requires lo < hi ==> !IsSpace(s[lo]) && !IsSpace(s[hi - 1])
    ensures Strip(s) == s[lo..hi]
  {
    if lo < hi {
      assert StripStart(s) == lo;
      assert StripEnd(s) == hi;
    } else {
      assert AllSpace(s);
    }
  }

  lemma SpacesInConcat(s: string, lo: nat, mid: nat, hi: nat)
    requires lo <= mid <= hi <= |s| && SpacesIn(s, lo, mid) && SpacesIn(s, mid, hi)
    ensures SpacesIn(s, lo, hi)
  {
  }

  /** Whitespace in `a` stays whitespace in `a + t`. */
  lemma SpacesInLeft(a: string, t: string, lo: nat, hi: nat)
    requires lo <= hi <= |a| && SpacesIn(a, lo, hi)
    ensures SpacesIn(a + t, lo, hi)
  {
    var s := a + t;
    forall i | lo <= i < hi ensures IsSpace(s[i]) {
      assert s[i] == a[i];
    }
  }

  /** Whitespace in `t` stays whitespace in `a + t`, shifted by `|a|`. */
  lemma SpacesInRight(a: string, t: string, lo: nat, hi: nat)
    requires lo <= hi <= |t| && SpacesIn(t, lo, hi)
    ensures SpacesIn(a + t, |a| + lo, |a| + hi)
  {
    var s := a + t;
    forall i | |a| + lo <= i < |a| + hi ensures IsSpace(s[i]) {
      assert s[i] == t[i - |a|];
    }
  }

  /** Leading whitespace does not change `strip()`. */
  lemma StripPadLeft(a: string, t: string)
    requires AllSpace(a)
    ensures Strip(a + t) == Strip(t)
  {
    if AllSpace(t) {
      StripPadBlank(a, t);
    } else {
      StripPadLeftSome(a, t);
    }
  }

  /** Trailing whitespace does not change `strip()`. */
  lemma StripPadRight(t: string, b: string)
    requires AllSpace(b)
    ensures Strip(t + b) == Strip(t)
  {
    if AllSpace(t) {
      StripPadBlank(t, b);
    } else {
      StripPadRightSome(t, b);
    }
  }

  lemma StripPadBlank(a: string, t: string)
    requires AllSpace(a) && AllSpace(t)
    ensures Strip(a + t) == [] && Strip(t) == [] && Strip(a) == []
  {
    var s := a + t;
    SpacesInLeft(a, t, 0, |a|);
    SpacesInRight(a, t, 0, |t|);
    SpacesInConcat(s, 0, |a|, |s|);
    StripUnique(s, 0, 0);
    StripUnique(t, 0, 0);
    StripUnique(a, 0, 0);
  }

  lemma StripPadLeftSome(a: string, t: string)
    requires AllSpace(a) && !AllSpace(t)
    ensures Strip(a + t) == Strip(t)
  {
    var s := a + t;
    var lo, hi := StripStart(t), StripEnd(t);
    SpacesInLeft(a, t, 0, |a|);
    SpacesInRight(a, t, 0, lo);
    SpacesInConcat(s, 0, |a|, |a| + lo);
    SpacesInRight(a, t, hi, |t|);
    SliceRight(a, t, lo, hi);
    StripUnique(s, |a| + lo, |a| + hi);
    StripUnique(t, lo, hi);
  }

  lemma SliceRight(a: string, t: string, lo: nat, hi: nat)
    requires lo < hi <= |t|
    ensures (a + t)[|a| + lo] == t[lo] && (a + t)[|a| + hi - 1] == t[hi - 1]
    ensures (a + t)[|a| + lo..|a| + hi] == t[lo..hi]
  {
  }

  lemma StripPadRightSome(t: string, b: string)
    requires AllSpace(b) && !AllSpace(t)
    ensures Strip(t + b) == Strip(t)
  {
    var s := t + b;
    var lo, hi := StripStart(t), StripEnd(t);
    SpacesInRight(t, b, 0, |b|);
    SpacesInLeft(t, b, 0, lo);
    SpacesInLeft(t, b, hi, |t|);
    SpacesInConcat(s, hi, |t|, |s|);
    assert s[lo] == t[lo] && s[hi - 1] == t[hi - 1];
    assert s[lo..hi] == t[lo..hi];
    StripUnique(s, lo, hi);
    StripUnique(t, lo, hi);
  }

  /** A string that neither starts nor ends with whitespace is its own `strip()`. */
  lemma StripOfTrimmed(s: string)
    requires s != [] ==> !IsSpace(s[0]) && !IsSpace(s[|s| - 1])
    ensures Strip(s) == s
  {
    StripUnique(s, 0, |s|);
  }

  /** Index of the first occurrence of `c` in `s`. */
  function IndexOf(s: string, c: char): (i: nat)
    requires c in s
    ensures i < |s| && s[i] == c && c !in s[..i]
  {
    if s[0] == c then 0 else 1 + IndexOf(s[1..], c)
  }

  lemma {:induction false} IndexOfUnique(s: string, c: char, k: nat)
    requires k < |s| && s[k] == c && c !in s[..k]
    ensures IndexOf(s, c) == k
  {
    if k > 0 {
      assert s[0] == s[..k][0];
      assert s[1..][..k - 1] == s[..k][1..];
      IndexOfUnique(s[1..], c, k - 1);
    }
  }

  lemma IndexOfAfter(a: string, c: char, b: string)
    requires c !in a
    ensures c in a + [c] + b && IndexOf(a + [c] + b, c) == |a|
  {
    var s := a + [c] + b;
    assert s[|a|] == c;
    assert s[..|a|] == a;
    IndexOfUnique(s, c, |a|);
  }

  /** `sep.join(parts)` for a one-character separator. */
  function Join(parts: seq<string>, sep: char): string
  {
    if |parts| == 0 then []
    else if |parts| == 1 then parts[0]
    else parts[0] + [sep] + Join(parts[1..], sep)
  }

  /** `s.split(sep)`: the pieces between separators, in order; joining them
      back gives `s`, and no piece holds the separator. */
  function Split(s: string, sep: char): (parts: seq<string>)
    ensures |parts| >= 1
    ensures forall i :: 0 <= i < |parts| ==> sep !in parts[i]
    ensures Join(parts, sep) == s
    decreases |s|
  {
    if sep in s then
      var i := IndexOf(s, sep);
      var rest := Split(s[i + 1..], sep);
      assert Join([s[..i]] + rest, sep) == s[..i] + [sep] + s[i + 1..] by {
        assert ([s[..i]] + rest)[1..] == rest;
      }
      [s[..i]] + rest
    else
      [s]
  }

  /** `s` splits into a single piece exactly when it holds no separator. */
  lemma SplitSingle(s: string, sep: char)
    ensures |Split(s, sep)| == 1 <==> sep !in s
  {
    if sep in s {
      var i := IndexOf(s, sep);
      assert |Split(s[i + 1..], sep)| >= 1;
    }
  }

  /** Splitting undoes joining: the two determine each other. */
  lemma {:induction false} SplitJoin(parts: seq<string>, sep: char)
    requires |parts| >= 1
    requires forall i :: 0 <= i < |parts| ==> sep !in parts[i]
    ensures Split(Join(parts, sep), sep) == parts
    decreases |parts|
  {
    if |parts| > 1 {
      var rest := parts[1..];
      var s := Join(parts, sep);
      var j := Join(rest, sep);
      assert s == parts[0] + [sep] + j;
      IndexOfAfter(parts[0], sep, j);
      AroundSeparator(parts[0], sep, j);
      SplitAt(s, sep, |parts[0]|);
      SplitJoin(rest, sep);
      assert parts == [parts[0]] + rest;
    }
  }

  /** The first piece of a split ends at the first separator. */
  lemma SplitAt(s: string, sep: char, i: nat)
    requires sep in s && i == IndexOf(s, sep)
    ensures Split(s, sep) == [s[..i]] + Split(s[i + 1..], sep)
  {
  }

  lemma AroundSeparator(a: string, c: char, b: string)
    ensures (a + [c] + b)[..|a|] == a && (a + [c] + b)[|a| + 1..] == b
  {
  }

  /** The `in` operator on strings: `sub` occurs in `s` as a contiguous slice. */
  predicate Contains(s: string, sub: string)
    decreases |s|
  {
    sub <= s || (s != [] && Contains(s[1..], sub))
  }

  lemma {:induction false} ContainsAt(s: string, sub: string, i: nat)
    requires i + |sub| <= |s| && s[i..i + |sub|] == sub
    ensures Contains(s, sub)
    decreases i
  {
    if i > 0 {
      assert s[1..][i - 1..i - 1 + |sub|] == sub;
      ContainsAt(s[1..], sub, i - 1);
    }
  }

  predicate IsDigit(c: char) {
    '0' <= c <= '9'
  }

  function DigitValue(c: char): nat
    requires IsDigit(c)
  {
    (c as int) - ('0' as int)
  }

  /** The characters of `t` other than `_`. */
  function DropUnderscores(t: string): (r: string)
    ensures |r| <= |t|
    ensures '_' !in r
  {
    if t == [] then []
    else (if t[0] == '_' then [] else [t[0]]) + DropUnderscores(t[1..])
  }

  /** What `int()` accepts between the optional sign and the end: digits,
      with single underscores allowed between two digits. */
  predicate IsDigitGroup(t: string)
    decreases |t|
  {
    && t != [] && IsDigit(t[0])
    && (|t| == 1 || IsDigitGroup(if t[1] == '_' then t[2..] else t[1..]))
  }

  /** A digit group holds only digits and underscores, and ends in a digit. */
  lemma {:induction false} GroupChars(t: string)
    requires IsDigitGroup(t)
    ensures forall i :: 0 <= i < |t| ==> IsDigit(t[i]) || t[i] == '_'
    ensures IsDigit(t[|t| - 1])
    decreases |t|
  {
    if |t| > 1 {
      var k := if t[1] == '_' then 2 else 1;
      GroupChars(t[k..]);
      assert forall i :: k <= i < |t| ==> t[i] == t[k..][i - k];
    }
  }

  /** No underscore of a digit group is followed by another. */
  lemma {:induction false} GroupSingleUnderscores(t: string, i: nat)
    requires IsDigitGroup(t) && i + 1 < |t|
    ensures t[i] != '_' || t[i + 1] != '_'
    decreases |t|
  {
    var k := if t[1] == '_' then 2 else 1;
    if i >= k {
      GroupSingleUnderscores(t[k..], i - k);
    } else if k == 2 && i == 1 {
      assert t[2..][0] == t[2];
    }
  }

  /** The base-10 value of a string of digits, most significant first. */
  function DigitsValue(ds: string): nat
    requires forall i :: 0 <= i < |ds| ==> IsDigit(ds[i])
  {
    if ds == [] then 0
    else DigitsValue(ds[..|ds| - 1]) * 10 + DigitValue(ds[|ds| - 1])
  }

  lemma DropUnderscoresDigits(t: string)
    requires forall i :: 0 <= i < |t| ==> IsDigit(t[i]) || t[i] == '_'
    ensures forall i :: 0 <= i < |DropUnderscores(t)| ==> IsDigit(DropUnderscores(t)[i])
  {
    if t != [] {
      DropUnderscoresDigits(t[1..]);
    }
  }

  /** The value of a digit group: its digits read in base 10. */
  function GroupValue(body: string): nat
    requires IsDigitGroup(body)
  {
    GroupChars(body);
    DropUnderscoresDigits(body);
    DigitsValue(DropUnderscores(body))
  }

  /** Python's `int(text)` in base 10: surrounding whitespace, an optional sign,
      then a digit group; `None` where Python raises `ValueError`. */
  function ParseInt(text: string): (r: Option<int>)
  {
    ParseSigned(Strip(text))
  }

  /** `int()` of text with no surrounding whitespace. */
  function ParseSigned(t: string): (r: Option<int>)
  {
    var signed := t != [] && (t[0] == '-' || t[0] == '+');
    var body := if signed then t[1..] else t;
    if !IsDigitGroup(body) then None
    else if signed && t[0] == '-' then Some(-(GroupValue(body) as int))
    else Some(GroupValue(body))
  }

  /** The decimal spelling of `n`, as `str(n)` writes it. */
  function NatToString(n: nat): (s: string)
    ensures s != []
    ensures forall i :: 0 <= i < |s| ==> IsDigit(s[i])
  {
    if n < 10 then ['0' + n as char]
    else NatToString(n / 10) + ['0' + (n % 10) as char]
  }

  lemma {:induction false} DigitsValueOfNatToString(n: nat)
    ensures DigitsValue(NatToString(n)) == n
  {
    var s := NatToString(n);
    if n >= 10 {
      DigitsValueOfNatToString(n / 10);
      assert s[..|s| - 1] == NatToString(n / 10);
    }
  }

  lemma DropUnderscoresOfDigits(t: string)
    requires forall i :: 0 <= i < |t| ==> IsDigit(t[i])
    ensures DropUnderscores(t) == t
  {
    if t != [] {
      DropUnderscoresOfDigits(t[1..]);
    }
  }

  lemma DigitsAreGroup(ds: string)
    requires ds != [] && forall i :: 0 <= i < |ds| ==> IsDigit(ds[i])
    ensures IsDigitGroup(ds) && GroupValue(ds) == DigitsValue(ds)
  {
    DigitsFormGroup(ds);
    DropUnderscoresOfDigits(ds);
  }

  lemma {:induction false} DigitsFormGroup(ds: string)
    requires ds != [] && forall i :: 0 <= i < |ds| ==> IsDigit(ds[i])
    ensures IsDigitGroup(ds)
    decreases |ds|
  {
    if |ds| > 1 {
      assert ds[1] != '_';
      DigitsFormGroup(ds[1..]);
    }
  }

  lemma DigitNotSpace(c: char)
    requires IsDigit(c)
    ensures !IsSpace(c) && c != '-' && c != '+'
  {
  }

  lemma StripOfDigits(ds: string)
    requires ds != [] && forall i :: 0 <= i < |ds| ==> IsDigit(ds[i])
    ensures Strip(ds) == ds
  {
    DigitNotSpace(ds[0]);
    DigitNotSpace(ds[|ds| - 1]);
    StripOfTrimmed(ds);
  }

  lemma StripOfNegative(ds: string)
    requires ds != [] && forall i :: 0 <= i < |ds| ==> IsDigit(ds[i])
    ensures Strip("-" + ds) == "-" + ds
  {
    var m := "-" + ds;
    assert m[0] == '-' && m[|m| - 1] == ds[|ds| - 1];
    DigitNotSpace(ds[|ds| - 1]);
    StripOfTrimmed(m);
  }

  lemma ParseSignedOfDigits(ds: string, v: nat)
    requires ds != [] && forall i :: 0 <= i < |ds| ==> IsDigit(ds[i])
    requires v == DigitsValue(ds)
    ensures ParseSigned(ds) == Some(v)
  {
    DigitsAreGroup(ds);
    DigitNotSpace(ds[0]);
    ParseSignedOfGroup(ds, v);
  }

  lemma ParseSignedOfGroup(ds: string, v: nat)
    requires IsDigitGroup(ds) && v == GroupValue(ds) && ds[0] != '-' && ds[0] != '+'
    ensures ParseSigned(ds) == Some(v)
  {
  }

  lemma ParseSignedOfMinusGroup(ds: string, v: nat)
    requires IsDigitGroup(ds) && v == GroupValue(ds)
    ensures ParseSigned("-" + ds) == Some(-(v as int))
  {
    var t := "-" + ds;
    assert t[0] == '-' && t[1..] == ds;
  }

  lemma ParseSignedOfNegative(ds: string, v: nat)
    requires ds != [] && forall i :: 0 <= i < |ds| ==> IsDigit(ds[i])
    requires v == DigitsValue(ds)
    ensures ParseSigned("-" + ds) == Some(-(v as int))
  {
    DigitsAreGroup(ds);
    ParseSignedOfMinusGroup(ds, v);
  }

  /** `int()` of a digit string `ds` whose base-10 value is `v`, with or
      without a minus sign, is `v` or `-v`. */
  lemma ParseIntOfDigits(ds: string, v: nat)
    requires ds != [] && forall i :: 0 <= i < |ds| ==> IsDigit(ds[i])
    requires v == DigitsValue(ds)
    ensures ParseInt(ds) == Some(v as int)
    ensures ParseInt("-" + ds) == Some(-(v as int))
  {
    StripOfDigits(ds);
    ParseSignedOfDigits(ds, v);
    StripOfNegative(ds);
    ParseSignedOfNegative(ds, v);
  }

  /** `int()` reads back what `str()` writes, for either sign. */
  lemma ParseIntOfNatToString(n: nat)
    ensures ParseInt(NatToString(n)) == Some(n)
    ensures ParseInt("-" + NatToString(n)) == Some(-(n as int))
  {
    DigitsValueOfNatToString(n);
    ParseIntOfDigits(NatToString(n), n);
  }
}
