/** Text helpers with the meaning the backend's Python gives them:
    `"\n".join(parts)`, `text.split("\n")`, `str(n)` for an integer `n`,
    and `int(s)` for a string `s` (base 10). */
module Text {
  import opened Common

  const Newline: char := '\n'

  /** `"\n".join(parts)`: no separator before the first part or after the last. */
  function JoinLines(parts: seq<string>): (text: string)
    ensures parts == [] ==> text == ""
    ensures |parts| == 1 ==> text == parts[0]
    decreases |parts|
  {
    if parts == [] then ""
    else if |parts| == 1 then parts[0]
    else parts[0] + [Newline] + JoinLines(parts[1..])
  }

  /** `text.split("\n")`: always at least one piece. */
  function SplitOnNewline(text: string): (pieces: seq<string>)
    ensures |pieces| >= 1
    decreases |text|
  {
    if text == [] then [""]
    else if text[0] == Newline then [""] + SplitOnNewline(text[1..])
    else
      var rest := SplitOnNewline(text[1..]);
      [[text[0]] + rest[0]] + rest[1..]
  }

  predicate NoNewline(s: string) {
    Newline !in s
  }

  lemma {:induction false} SplitSingleLine(a: string)
    requires NoNewline(a)
    ensures SplitOnNewline(a) == [a]
    decreases |a|
  {
    if a != [] {
      SplitSingleLine(a[1..]);
      assert a == [a[0]] + a[1..];
    }
  }

  lemma {:induction false} SplitAfterLine(a: string, b: string)
    requires NoNewline(a)
    ensures SplitOnNewline(a + [Newline] + b) == [a] + SplitOnNewline(b)
    decreases |a|
  {
    var t := a + [Newline] + b;
    if a == [] {
      assert t == [Newline] + b;
      assert t[1..] == b;
    } else {
      assert t[1..] == a[1..] + [Newline] + b;
      assert t[0] == a[0];
      SplitAfterLine(a[1..], b);
      assert a == [a[0]] + a[1..];
    }
  }

  /** Splitting the joined lines gives the lines back, when none of them holds a newline. */
  lemma {:induction false} SplitJoinLines(parts: seq<string>)
    requires |parts| >= 1
    requires forall i :: 0 <= i < |parts| ==> NoNewline(parts[i])
    ensures SplitOnNewline(JoinLines(parts)) == parts
    decreases |parts|
  {
    if |parts| == 1 {
      SplitSingleLine(parts[0]);
    } else {
      SplitJoinLines(parts[1..]);
      SplitAfterLine(parts[0], JoinLines(parts[1..]));
      assert parts == [parts[0]] + parts[1..];
    }
  }

  /** The joined text ends with the last part, so it ends in a newline only if that part does. */
  lemma {:induction false} JoinLinesEndsWithLast(parts: seq<string>)
    requires |parts| >= 1
    ensures |JoinLines(parts)| >= |parts[|parts| - 1]|
    ensures JoinLines(parts)[|JoinLines(parts)| - |parts[|parts| - 1]|..] == parts[|parts| - 1]
    decreases |parts|
  {
    if |parts| > 1 {
      JoinLinesEndsWithLast(parts[1..]);
    }
  }

  /** The joined text starts with the first part followed by a newline when more parts follow. */
  lemma JoinLinesStartsWithFirst(parts: seq<string>)
    requires |parts| >= 2
    ensures |JoinLines(parts)| > |parts[0]|
    ensures JoinLines(parts)[..|parts[0]| + 1] == parts[0] + [Newline]
  {
  }

  // ---- str(n) ----

  predicate IsDigit(c: char) {
    '0' <= c <= '9'
  }

  function DigitChar(d: nat): (c: char)
    requires d < 10
    ensures IsDigit(c)
  {
    ['0', '1', '2', '3', '4', '5', '6', '7', '8', '9'][d]
  }

  function DigitValue(c: char): (d: nat)
    requires IsDigit(c)
    ensures d < 10 && DigitChar(d) == c
  {
    (c as int - '0' as int)
  }

  /** The value of a string of decimal digits, most significant first. */
  function DigitsValue(ds: string): nat
    requires forall i :: 0 <= i < |ds| ==> IsDigit(ds[i])
    decreases |ds|
  {
    if ds == [] then 0
    else DigitsValue(ds[..|ds| - 1]) * 10 + DigitValue(ds[|ds| - 1])
  }

  /** `str(n)` for `n >= 0`: decimal digits, most significant first. */
  function NatToDecimal(n: nat): (s: string)
    ensures |s| >= 1
    decreases n
  {
    if n < 10 then [DigitChar(n)] else NatToDecimal(n / 10) + [DigitChar(n % 10)]
  }

  /** The decimal form of `n` consists of digits, denotes `n`, and has no
      leading zero. */
  lemma {:induction false} NatToDecimalDigits(n: nat)
    ensures forall i :: 0 <= i < |NatToDecimal(n)| ==> IsDigit(NatToDecimal(n)[i])
    ensures DigitsValue(NatToDecimal(n)) == n
    ensures |NatToDecimal(n)| > 1 ==> NatToDecimal(n)[0] != '0'
    decreases n
  {
    if n >= 10 {
      NatToDecimalDigits(n / 10);
      var s := NatToDecimal(n);
      assert s[..|s| - 1] == NatToDecimal(n / 10);
      assert s[0] == NatToDecimal(n / 10)[0];
    }
  }

  /** `str(i)` for any integer: a minus sign before the digits of a negative value. */
  function IntToDecimal(i: int): (s: string)
    ensures |s| >= 1
    ensures s[0] == '-' <==> i < 0
  {
    if i < 0 then ['-'] + NatToDecimal(-i)
    else
      NatToDecimalDigits(i);
      NatToDecimal(i)
  }

  /** The decimal form of an integer holds no newline. */
  lemma IntToDecimalSingleLine(i: int)
    ensures NoNewline(IntToDecimal(i))
  {
    var m: nat := if i < 0 then -i else i;
    NatToDecimalDigits(m);
    var s := IntToDecimal(i);
    forall k | 0 <= k < |s| ensures s[k] != Newline {
      if i < 0 && k > 0 {
        assert s[k] == NatToDecimal(m)[k - 1];
      }
    }
  }

  // ---- int(s) ----

  /** The ASCII characters Python's `int()` skips around a numeral: space,
      tab, newline, carriage return, vertical tab and form feed. The ASCII
      separators U+001C to U+001F, which `str.strip` would remove, are not
      among them. */
  predicate IsPySpace(c: char) {
    c == ' ' || c == '\t' || c == '\n' || c == '\r' || c == '\U{0B}' || c == '\U{0C}'
  }

  /** `t` is `s` with a run of blanks cut from each end, nothing else. */
  predicate IsTrimOf(t: string, s: string) {
    exists i, j :: 0 <= i <= j <= |s| && t == s[i..j]
      && (forall k :: 0 <= k < i ==> IsPySpace(s[k]))
      && (forall k :: j <= k < |s| ==> IsPySpace(s[k]))
  }

  lemma TrimOfSelf(s: string)
    ensures IsTrimOf(s, s)
  {
    assert s == s[0..|s|];
  }

  lemma TrimOfTail(s: string, t: string)
    requires s != [] && IsPySpace(s[0]) && IsTrimOf(t, s[1..])
    ensures IsTrimOf(t, s)
  {
    var rest := s[1..];
    var i, j :| 0 <= i <= j <= |rest| && t == rest[i..j]
      && (forall k :: 0 <= k < i ==> IsPySpace(rest[k]))
      && (forall k :: j <= k < |rest| ==> IsPySpace(rest[k]));
    assert t == s[i + 1..j + 1];
    forall k | 0 <= k < i + 1 ensures IsPySpace(s[k]) {
      if k > 0 { assert s[k] == rest[k - 1]; }
    }
    forall k | j + 1 <= k < |s| ensures IsPySpace(s[k]) {
      assert s[k] == rest[k - 1];
    }
  }

  lemma TrimOfFront(s: string, t: string)
    requires s != [] && IsPySpace(s[|s| - 1]) && IsTrimOf(t, s[..|s| - 1])
    ensures IsTrimOf(t, s)
  {
    var front := s[..|s| - 1];
    var i, j :| 0 <= i <= j <= |front| && t == front[i..j]
      && (forall k :: 0 <= k < i ==> IsPySpace(front[k]))
      && (forall k :: j <= k < |front| ==> IsPySpace(front[k]));
    assert t == s[i..j];
    forall k | 0 <= k < i ensures IsPySpace(s[k]) {
      assert s[k] == front[k];
    }
    forall k | j <= k < |s| ensures IsPySpace(s[k]) {
      if k < |front| { assert s[k] == front[k]; }
    }
  }

  /** `s.strip()` over the blanks `int()` skips: the trimmed text keeps every
      character between the first and the last non-blank one. */
  function StripSpace(s: string): (t: string)
    ensures IsTrimOf(t, s)
    ensures t != [] ==> !IsPySpace(t[0]) && !IsPySpace(t[|t| - 1])
    ensures (forall i :: 0 <= i < |s| ==> !IsPySpace(s[i])) ==> t == s
    decreases |s|
  {
    if s == [] then TrimOfSelf(s); []
    else if IsPySpace(s[0]) then
      var t := StripSpace(s[1..]);
      TrimOfTail(s, t);
      t
    else if IsPySpace(s[|s| - 1]) then
      var t := StripSpace(s[..|s| - 1]);
      TrimOfFront(s, t);
      t
    else TrimOfSelf(s); s
  }

  /** Stripping keeps every non-blank character. */
  lemma StripSpaceKeeps(s: string, k: nat)
    requires k < |s| && !IsPySpace(s[k])
    ensures s[k] in StripSpace(s)
  {
    var t := StripSpace(s);
    var i, j :| 0 <= i <= j <= |s| && t == s[i..j]
      && (forall k :: 0 <= k < i ==> IsPySpace(s[k]))
      && (forall k :: j <= k < |s| ==> IsPySpace(s[k]));
    assert t[k - i] == s[k];
  }

  /** A base-10 numeral as Python's grammar allows it: digits, single
      underscores only between two digits. */
  predicate IsNumeral(b: string) {
    && |b| >= 1
    && IsDigit(b[0])
    && IsDigit(b[|b| - 1])
    && (forall i :: 0 <= i < |b| ==> IsDigit(b[i]) || b[i] == '_')
    && (forall i :: 0 <= i < |b| - 1 && b[i] == '_' ==> IsDigit(b[i + 1]))
  }

  function IsNotUnderscore(c: char): bool { c != '_' }

  /** The digits of a numeral with its `_` separators removed, in order. */
  function DropUnderscores(b: string): (ds: string)
    requires forall i :: 0 <= i < |b| ==> IsDigit(b[i]) || b[i] == '_'
    ensures forall i :: 0 <= i < |ds| ==> IsDigit(ds[i])
    ensures (forall i :: 0 <= i < |b| ==> IsDigit(b[i])) ==> ds == b
    decreases |b|
  {
    if b == [] then []
    else if b[|b| - 1] == '_' then DropUnderscores(b[..|b| - 1])
    else DropUnderscores(b[..|b| - 1]) + [b[|b| - 1]]
  }

  /** Dropping the separators keeps every other character, in order. */
  lemma {:induction false} DropUnderscoresIsFilter(b: string)
    requires forall i :: 0 <= i < |b| ==> IsDigit(b[i]) || b[i] == '_'
    ensures DropUnderscores(b) == Filter(b, IsNotUnderscore)
    decreases |b|
  {
    if b != [] {
      var front, last := b[..|b| - 1], b[|b| - 1];
      assert b == front + [last];
      DropUnderscoresIsFilter(front);
      FilterConcat(front, [last], IsNotUnderscore);
      assert [last][1..] == [];
    }
  }

  predicate AllDigits(ds: string) {
    forall k :: 0 <= k < |ds| ==> IsDigit(ds[k])
  }

  /** `int(s)` with base 10: `None` where Python raises `ValueError`. A
      string of plain digits denotes its decimal value. */
  function ParsePyInt(s: string): (r: Option<int>)
    ensures StripSpace(s) == [] ==> r.None?
    ensures s != [] && AllDigits(s) ==> r == Some(DigitsValue(s))
  {
    ParseStripped(StripSpace(s))
  }

  /** The numeral `int()` reads once the blanks are stripped: an optional
      sign, then digits with single `_` separators. */
  function ParseStripped(t: string): Option<int> {
    if t == [] then None
    else
      var negative := t[0] == '-';
      var body := if t[0] == '-' || t[0] == '+' then t[1..] else t;
      if !IsNumeral(body) then None
      else
        var magnitude: int := DigitsValue(DropUnderscores(body));
        Some(if negative then -magnitude else magnitude)
  }

  /** `int()` skips a blank in front of the numeral. */
  lemma ParsePyIntBlankBefore(s: string)
    ensures ParsePyInt([' '] + s) == ParsePyInt(s)
  {
    var t := [' '] + s;
    assert t[1..] == s && IsPySpace(t[0]);
    assert StripSpace(t) == StripSpace(s);
  }

  /** A leading zero does not change the value of a digit string. */
  lemma {:induction false} DigitsValueLeadingZero(ds: string)
    requires AllDigits(ds)
    ensures AllDigits(['0'] + ds) && DigitsValue(['0'] + ds) == DigitsValue(ds)
    decreases |ds|
  {
    var s := ['0'] + ds;
    assert forall k :: 0 < k < |s| ==> s[k] == ds[k - 1];
    if ds != [] {
      DigitsValueLeadingZero(ds[..|ds| - 1]);
      assert s[..|s| - 1] == ['0'] + ds[..|ds| - 1];
    }
  }

  /** `int()` accepts leading zeros. */
  lemma ParsePyIntLeadingZero(ds: string)
    requires ds != [] && AllDigits(ds)
    ensures ParsePyInt(['0'] + ds) == Some(DigitsValue(ds))
  {
    DigitsValueLeadingZero(ds);
  }

  /** `int()` refuses a blank between digits. */
  lemma ParsePyIntInnerBlank(a: string, b: string)
    requires a != [] && b != [] && AllDigits(a) && AllDigits(b)
    ensures ParsePyInt(a + [' '] + b) == None
  {
    var s := a + [' '] + b;
    assert s[0] == a[0] && s[|s| - 1] == b[|b| - 1];
    assert StripSpace(s) == s;
    assert s[|a|] == ' ';
  }

  /** `int()` refuses a numeral that follows a file separator (U+001C): that
      character is not one of the blanks it skips. */
  lemma ParsePyIntFileSeparator(ds: string)
    requires ds != [] && AllDigits(ds)
    ensures ParsePyInt(['\U{1C}'] + ds) == None
  {
    var s := ['\U{1C}'] + ds;
    assert s[0] == '\U{1C}' && s[|s| - 1] == ds[|ds| - 1];
    assert StripSpace(s) == s;
    assert !IsDigit(s[0]) && s[0] != '_';
  }

  /** The decimal form of an integer has no space to strip. */
  lemma DecimalUnstripped(i: int)
    ensures StripSpace(IntToDecimal(i)) == IntToDecimal(i)
  {
    var s := IntToDecimal(i);
    var m: nat := if i < 0 then -i else i;
    NatToDecimalDigits(m);
    forall k | 0 <= k < |s| ensures !IsPySpace(s[k]) {
      if i < 0 && k > 0 {
        assert s[k] == NatToDecimal(m)[k - 1];
      }
    }
  }

  /** The decimal form of `m` is a numeral that denotes `m`. */
  lemma DecimalNumeral(m: nat)
    ensures IsNumeral(NatToDecimal(m))
    ensures DigitsValue(DropUnderscores(NatToDecimal(m))) == m
  {
    NatToDecimalDigits(m);
  }

  /** `int(str(i)) == i`. */
  lemma ParseDecimalRoundTrip(i: int)
    ensures ParsePyInt(IntToDecimal(i)) == Some(i)
  {
    var s := IntToDecimal(i);
    var m: nat := if i < 0 then -i else i;
    var digits := NatToDecimal(m);
    DecimalUnstripped(i);
    DecimalNumeral(m);
    assert IsDigit(digits[0]);
    assert (if s[0] == '-' || s[0] == '+' then s[1..] else s) == digits;
    assert (s[0] == '-') == (i < 0);
  }
}
