/** The handful of Python `str` and `pathlib` behaviours the modelled code
    relies on: `strip`, `isdigit`, `replace`, `count`, `lower`, `split`,
    `startswith`/`endswith`, decimal rendering, and the `name`/`suffix`/`stem`
    of a path. */
module Text {

  /** Python's `str.isspace`: the 29 code points `strip()` removes by default. */
  predicate IsSpace(c: char) {
    c in {'\U{0009}', '\U{000A}', '\U{000B}', '\U{000C}', '\U{000D}', '\U{001C}', '\U{001D}', '\U{001E}',
          '\U{001F}', ' ', '\U{0085}', '\U{00A0}', '\U{1680}', '\U{2000}', '\U{2001}', '\U{2002}',
          '\U{2003}', '\U{2004}', '\U{2005}', '\U{2006}', '\U{2007}', '\U{2008}', '\U{2009}', '\U{200A}',
          '\U{2028}', '\U{2029}', '\U{202F}', '\U{205F}', '\U{3000}'}
  }

  /** True when every character is whitespace (the empty string included). */
  predicate IsBlank(s: string) {
    forall i :: 0 <= i < |s| ==> IsSpace(s[i])
  }

  /** `s.lstrip()`: the suffix left after dropping leading whitespace. */
  function StripLeft(s: string): (r: string)
    ensures |r| <= |s| && r == s[|s| - |r|..]
    ensures IsBlank(s[..|s| - |r|])
    ensures r == [] || !IsSpace(r[0])
  {
    if |s| > 0 && IsSpace(s[0]) then StripLeft(s[1..]) else s
  }

  /** `s.rstrip()`: the prefix left after dropping trailing whitespace. */
  function StripRight(s: string): (r: string)
    ensures |r| <= |s| && r == s[..|r|]
    ensures IsBlank(s[|r|..])
    ensures r == [] || !IsSpace(r[|r| - 1])
  {
    if |s| > 0 && IsSpace(s[|s| - 1]) then StripRight(s[..|s| - 1]) else s
  }

  /** `s.strip()`. */
  function Strip(s: string): string {
    StripRight(StripLeft(s))
  }

  /** Stripping an all-whitespace string leaves nothing. */
  lemma {:induction false} StripLeftBlank(s: string)
    requires IsBlank(s)
    ensures StripLeft(s) == []
  {
    if |s| > 0 {
      StripLeftBlank(s[1..]);
    }
  }

  /** A non-space character survives `lstrip`. */
  lemma {:induction false} StripLeftKeeps(s: string, k: nat)
    requires k < |s| && !IsSpace(s[k])
    ensures |s| - |StripLeft(s)| <= k
  {
    if IsSpace(s[0]) {
      StripLeftKeeps(s[1..], k - 1);
    }
  }

  /** A non-space character survives `rstrip`. */
  lemma {:induction false} StripRightKeeps(s: string, k: nat)
    requires k < |s| && !IsSpace(s[k])
    ensures k < |StripRight(s)|
  {
    if IsSpace(s[|s| - 1]) {
      StripRightKeeps(s[..|s| - 1], k);
    }
  }

  /** `s.strip()` is empty exactly when `s` consists of whitespace only. */
  lemma {:induction false} StripEmptyIffBlank(s: string)
    ensures Strip(s) == [] <==> IsBlank(s)
  {
    if IsBlank(s) {
      StripLeftBlank(s);
      assert Strip(s) == StripRight([]);
    } else {
      var k :| 0 <= k < |s| && !IsSpace(s[k]);
      StripKeeps(s, k);
    }
  }

  /** A non-space character survives `strip`, so the result is not empty. */
  lemma StripKeeps(s: string, k: nat)
    requires k < |s| && !IsSpace(s[k])
    ensures Strip(s) != []
  {
    var l := StripLeft(s);
    StripLeftKeeps(s, k);
    var j := k - (|s| - |l|);
    assert l[j] == s[k];
    StripRightKeeps(l, j);
  }

  predicate IsAsciiDigit(c: char) {
    '0' <= c <= '9'
  }

  /** Python's `str.isdigit` restricted to ASCII digits: non-empty and all digits. */
  predicate IsDigits(s: string) {
    |s| > 0 && forall i :: 0 <= i < |s| ==> IsAsciiDigit(s[i])
  }

  /** `s.replace(c, '')`. */
  function Remove(s: string, c: char): (r: string)
    ensures |r| <= |s|
    ensures forall i :: 0 <= i < |r| ==> r[i] != c
    ensures forall i :: 0 <= i < |s| && s[i] != c ==> s[i] in r
    ensures forall x :: x in r ==> x in s
  {
    if |s| == 0 then []
    else if s[0] == c then Remove(s[1..], c)
    else [s[0]] + Remove(s[1..], c)
  }

  /** `s.count(c)` for a one-character needle. */
  function Count(s: string, c: char): nat {
    if |s| == 0 then 0 else (if s[0] == c then 1 else 0) + Count(s[1..], c)
  }

  /** `c.lower()` on ASCII letters; every other character is left alone. */
  function LowerChar(c: char): char {
    if 'A' <= c <= 'Z' then (c as int + 32) as char else c
  }

  /** `s.lower()`, see `LowerChar`. */
  function Lower(s: string): (r: string)
    ensures |r| == |s|
    ensures forall i :: 0 <= i < |s| ==> r[i] == LowerChar(s[i])
  {
    seq(|s|, i requires 0 <= i < |s| => LowerChar(s[i]))
  }

  predicate StartsWith(s: string, prefix: string) {
    |prefix| <= |s| && s[..|prefix|] == prefix
  }

  predicate EndsWith(s: string, suffix: string) {
    |suffix| <= |s| && s[|s| - |suffix|..] == suffix
  }

  /** `s.split(sep)` with an explicit one-character separator: never empty,
      and no part contains the separator. */
  function Split(s: string, sep: char): (r: seq<string>)
    ensures |r| >= 1
    ensures forall k :: 0 <= k < |r| ==> sep !in r[k]
    ensures |r| == Count(s, sep) + 1
  {
    if |s| == 0 then [""]
    else
      var rest := Split(s[1..], sep);
      if s[0] == sep then [""] + rest
      else [[s[0]] + rest[0]] + rest[1..]
  }

  /** Splitting a separator-free head off: `(a + sep + t).split(sep) == [a] + t.split(sep)`. */
  lemma {:induction false} SplitAfterPart(a: string, t: string, sep: char)
    requires sep !in a
    ensures Split(a + [sep] + t, sep) == [a] + Split(t, sep)
  {
    if |a| == 0 {
      assert a + [sep] + t == [sep] + t;
      assert ([sep] + t)[1..] == t;
    } else {
      var s := a + [sep] + t;
      assert s[0] == a[0];
      assert s[1..] == a[1..] + [sep] + t;
      SplitAfterPart(a[1..], t, sep);
      assert [a[0]] + a[1..] == a;
    }
  }

  /** A string without the separator splits into itself alone. */
  lemma {:induction false} SplitWithoutSeparator(a: string, sep: char)
    requires sep !in a
    ensures Split(a, sep) == [a]
  {
    if |a| > 0 {
      SplitWithoutSeparator(a[1..], sep);
      assert [a[0]] + a[1..] == a;
    }
  }

  /** The first code point of each run of decimal digits (general category
      Nd) in Unicode 15.0 beyond ASCII '0'..'9'. Every run is ten consecutive
      code points holding the digits 0..9 in order; with the ASCII digits these
      are the characters `\d` matches and `int()` accepts. */
  const DecimalRunStarts: seq<int> := [
      0x660, 0x6F0, 0x7C0, 0x966, 0x9E6, 0xA66, 0xAE6,
      0xB66, 0xBE6, 0xC66, 0xCE6, 0xD66, 0xDE6, 0xE50, 0xED0,
      0xF20, 0x1040, 0x1090, 0x17E0, 0x1810, 0x1946, 0x19D0, 0x1A80,
      0x1A90, 0x1B50, 0x1BB0, 0x1C40, 0x1C50, 0xA620, 0xA8D0, 0xA900,
      0xA9D0, 0xA9F0, 0xAA50, 0xABF0, 0xFF10, 0x104A0, 0x10D30, 0x11066,
      0x110F0, 0x11136, 0x111D0, 0x112F0, 0x11450, 0x114D0, 0x11650, 0x116C0,
      0x11730, 0x118E0, 0x11950, 0x11C50, 0x11D50, 0x11DA0, 0x11F50, 0x16A60,
      0x16AC0, 0x16B50, 0x1D7CE, 0x1D7D8, 0x1D7E2, 0x1D7EC, 0x1D7F6, 0x1E140,
      0x1E2F0, 0x1E4F0, 0x1E950, 0x1FBF0]

  /** The index of the run holding `c`, searching from run `i`; `|DecimalRunStarts|` if none. */
  function DecimalRun(c: char, i: nat): (k: nat)
    requires i <= |DecimalRunStarts|
    ensures i <= k <= |DecimalRunStarts|
    ensures k < |DecimalRunStarts| ==> DecimalRunStarts[k] <= c as int < DecimalRunStarts[k] + 10
    decreases |DecimalRunStarts| - i
  {
    if i == |DecimalRunStarts| then i
    else if DecimalRunStarts[i] <= c as int < DecimalRunStarts[i] + 10 then i
    else DecimalRun(c, i + 1)
  }

  /** A Unicode decimal digit. */
  predicate IsDecimalChar(c: char) {
    IsAsciiDigit(c) || DecimalRun(c, 0) < |DecimalRunStarts|
  }

  /** `int(c)` for a Unicode decimal digit. */
  function DecimalCharValue(c: char): (d: nat)
    requires IsDecimalChar(c)
    ensures d <= 9
  {
    if IsAsciiDigit(c) then DigitValue(c) else c as int - DecimalRunStarts[DecimalRun(c, 0)]
  }

  /** The ASCII digits are decimal digits with their usual values. */
  lemma AsciiDigitIsDecimal(c: char)
    requires IsAsciiDigit(c)
    ensures IsDecimalChar(c) && DecimalCharValue(c) == DigitValue(c)
  {
  }

  /** The character of a decimal digit 0..9. */
  function DigitChar(d: nat): char
    requires d < 10
  {
    ('0' as int + d) as char
  }

  /** The value of an ASCII digit. */
  function DigitValue(c: char): nat
    requires IsAsciiDigit(c)
  {
    c as int - '0' as int
  }

  /** Python's `str(n)` for a non-negative integer. */
  function Decimal(n: nat): (r: string)
    ensures IsDigits(r)
    ensures DecimalValue(r) == n
    ensures n < 10 ==> |r| == 1
    ensures 10 <= n < 100 ==> |r| == 2
    ensures 100 <= n < 1000 ==> |r| == 3
    ensures 1000 <= n < 10000 ==> |r| == 4
    ensures n < 1000000 ==> |r| <= 6
  {
    if n < 10 then [DigitChar(n)]
    else
      var prefix := Decimal(n / 10);
      var r := prefix + [DigitChar(n % 10)];
      assert r[..|r| - 1] == prefix;
      r
  }

  /** `int(s)` for a string of ASCII digits. */
  function DecimalValue(s: string): nat
    requires forall i :: 0 <= i < |s| ==> IsAsciiDigit(s[i])
  {
    if |s| == 0 then 0 else DecimalValue(s[..|s| - 1]) * 10 + DigitValue(s[|s| - 1])
  }

  function Pow10(k: nat): nat {
    if k == 0 then 1 else 10 * Pow10(k - 1)
  }

  /** A string of k digits denotes a number below 10^k. */
  lemma {:induction false} DecimalValueBound(s: string)
    requires forall i :: 0 <= i < |s| ==> IsAsciiDigit(s[i])
    ensures DecimalValue(s) < Pow10(|s|)
  {
    if |s| > 0 {
      DecimalValueBound(s[..|s| - 1]);
    }
  }

  /** `f"{n:0{width}d}"`: the decimal form padded with zeros on the left. */
  function ZeroPad(n: nat, width: nat): (r: string)
    ensures forall i :: 0 <= i < |r| ==> IsAsciiDigit(r[i])
    ensures DecimalValue(r) == n
    ensures |Decimal(n)| <= width ==> |r| == width
  {
    var d := Decimal(n);
    if |d| >= width then d
    else
      var zeros := seq(width - |d|, _ => '0');
      LeadingZeros(zeros, d);
      zeros + d
  }

  /** Leading zeros do not change the value of a digit string. */
  lemma {:induction false} LeadingZeros(zeros: string, d: string)
    requires forall i :: 0 <= i < |zeros| ==> zeros[i] == '0'
    requires forall i :: 0 <= i < |d| ==> IsAsciiDigit(d[i])
    ensures DecimalValue(zeros + d) == DecimalValue(d)
    decreases |d|
  {
    if |d| == 0 {
      assert zeros + d == zeros;
      AllZeros(zeros);
    } else {
      var s := zeros + d;
      assert s[..|s| - 1] == zeros + d[..|d| - 1];
      LeadingZeros(zeros, d[..|d| - 1]);
    }
  }

  lemma {:induction false} AllZeros(zeros: string)
    requires forall i :: 0 <= i < |zeros| ==> zeros[i] == '0'
    ensures DecimalValue(zeros) == 0
  {
    if |zeros| > 0 {
      AllZeros(zeros[..|zeros| - 1]);
    }
  }

  /** Index of the last occurrence of `c`, or -1 (Python's `str.rfind`). */
  function LastIndexOf(s: string, c: char): (i: int)
    ensures -1 <= i < |s|
    ensures i >= 0 ==> s[i] == c
    ensures forall j :: i < j < |s| ==> s[j] != c
  {
    if |s| == 0 then -1
    else if s[|s| - 1] == c then |s| - 1
    else LastIndexOf(s[..|s| - 1], c)
  }

  /** `PurePosixPath(p).name` for a normalised path: the text after the last '/'. */
  function BaseName(p: string): string {
    p[LastIndexOf(p, '/') + 1..]
  }

  /** `PurePath(name).suffix`: from the last '.' on, when that dot is neither
      the first nor the last character; otherwise empty. */
  function Suffix(name: string): string {
    var i := LastIndexOf(name, '.');
    if 0 < i < |name| - 1 then name[i..] else ""
  }

  /** `PurePath(name).stem`: the name without its suffix. */
  function Stem(name: string): string {
    var i := LastIndexOf(name, '.');
    if 0 < i < |name| - 1 then name[..i] else name
  }

  /** The name is always its stem followed by its suffix. */
  lemma StemSuffixSplit(name: string)
    ensures Stem(name) + Suffix(name) == name
  {
  }
}
