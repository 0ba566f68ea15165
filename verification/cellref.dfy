/** Spreadsheet cell addresses as openpyxl spells them: the column letter of
    `get_column_letter` (bijective base 26, "A".."ZZZ") and the coordinate
    "<letters><row>" of `cell.coordinate`. */
module CellRefs {
  import opened Text

  /** The largest column `get_column_letter` accepts ("ZZZ"). */
  const MaxColumn := 18278

  predicate IsUpperLetter(c: char) {
    'A' <= c <= 'Z'
  }

  predicate IsLetters(s: string) {
    forall i :: 0 <= i < |s| ==> IsUpperLetter(s[i])
  }

  /** The column number a run of letters denotes: "A" = 1, "Z" = 26, "AA" = 27. */
  function ColumnIndex(s: string): (n: nat)
    requires IsLetters(s)
    ensures |s| >= 1 ==> n >= 1
    ensures |s| <= 1 ==> n <= 26
    ensures |s| <= 2 ==> n <= 702
    ensures |s| <= 3 ==> n <= MaxColumn
  {
    if |s| == 0 then 0
    else ColumnIndex(s[..|s| - 1]) * 26 + (s[|s| - 1] as int - 'A' as int + 1)
  }

  /** `get_column_letter(n)`. */
  function ColumnLetter(n: nat): (r: string)
    requires 1 <= n <= MaxColumn
    ensures 1 <= |r| && IsLetters(r)
    ensures ColumnIndex(r) == n
    decreases n
  {
    var last := [('A' as int + (n - 1) % 26) as char];
    var q := (n - 1) / 26;
    if q == 0 then last
    else
      var r := ColumnLetter(q) + last;
      assert r[..|r| - 1] == ColumnLetter(q);
      r
  }

  /** The letter of the 0-based column `j` ("" past the last column). */
  function LetterOf(j: nat): string {
    if j < MaxColumn then ColumnLetter(j + 1) else ""
  }

  /** Every run of one to three letters is the letter of exactly one column:
      `get_column_letter` is onto "A".."ZZZ". */
  lemma {:induction false} ColumnLetterOnto(s: string)
    requires 1 <= |s| <= 3 && IsLetters(s)
    ensures 1 <= ColumnIndex(s) <= MaxColumn
    ensures ColumnLetter(ColumnIndex(s)) == s
  {
    var p, c := s[..|s| - 1], s[|s| - 1];
    assert s == p + [c];
    if |p| > 0 {
      ColumnLetterOnto(p);
    }
    LetterAppended(p, c);
  }

  /** The column number of letters `p` followed by `c`. */
  lemma ColumnIndexAppend(p: string, c: char)
    requires IsLetters(p) && IsUpperLetter(c)
    ensures IsLetters(p + [c])
    ensures ColumnIndex(p + [c]) == ColumnIndex(p) * 26 + (c as int - 'A' as int) + 1
  {
    var s := p + [c];
    assert s[..|s| - 1] == p && s[|s| - 1] == c;
  }

  /** Appending a letter to the spelling of column q spells column q * 26 + (c - 'A') + 1. */
  lemma LetterAppended(p: string, c: char)
    requires |p| <= 2 && IsLetters(p) && IsUpperLetter(c)
    requires |p| > 0 ==> ColumnLetter(ColumnIndex(p)) == p
    ensures ColumnLetter(ColumnIndex(p + [c])) == p + [c]
  {
    ColumnIndexAppend(p, c);
    var n := ColumnIndex(p + [c]);
    assert n <= MaxColumn;
    if |p| == 0 {
      ColumnLetterStep(n, 0, c);
      assert [c] == p + [c];
    } else {
      ColumnLetterStep(n, ColumnIndex(p), c);
    }
  }

  /** One step of `get_column_letter`: the column q * 26 + (c - 'A') + 1 is
      spelled as column q followed by the letter c. */
  lemma ColumnLetterStep(n: nat, q: nat, c: char)
    requires IsUpperLetter(c) && n == q * 26 + (c as int - 'A' as int) + 1 && n <= MaxColumn
    ensures q == 0 ==> ColumnLetter(n) == [c]
    ensures q > 0 ==> ColumnLetter(n) == ColumnLetter(q) + [c]
  {
    var x := c as int - 'A' as int;
    assert (n - 1) / 26 == q && (n - 1) % 26 == x;
    assert ('A' as int + x) as char == c;
  }

  /** `cell.coordinate` for the cell at (row, col), e.g. "B7". */
  function Coordinate(row: nat, col: nat): string
    requires 1 <= col <= MaxColumn
  {
    ColumnLetter(col) + Decimal(row)
  }

  /** How many characters precede the first ASCII digit. */
  function LettersBeforeDigit(s: string): nat {
    if |s| == 0 || IsAsciiDigit(s[0]) then 0 else 1 + LettersBeforeDigit(s[1..])
  }

  lemma {:induction false} LettersBeforeDigits(a: string, b: string)
    requires IsLetters(a) && IsDigits(b)
    ensures LettersBeforeDigit(a + b) == |a|
  {
    if |a| == 0 {
      assert a + b == b;
    } else {
      assert (a + b)[1..] == a[1..] + b;
      LettersBeforeDigits(a[1..], b);
    }
  }

  /** Distinct cells have distinct coordinates, so a map keyed by coordinate
      loses no cell. */
  lemma CoordinateInjective(r1: nat, c1: nat, r2: nat, c2: nat)
    requires 1 <= c1 <= MaxColumn && 1 <= c2 <= MaxColumn
    requires Coordinate(r1, c1) == Coordinate(r2, c2)
    ensures r1 == r2 && c1 == c2
  {
    var a, b := ColumnLetter(c1), Decimal(r1);
    var c, d := ColumnLetter(c2), Decimal(r2);
    LettersBeforeDigits(a, b);
    LettersBeforeDigits(c, d);
    assert |a| == |c|;
    assert a == (a + b)[..|a|] && c == (c + d)[..|c|];
    assert b == (a + b)[|a|..] && d == (c + d)[|c|..];
  }

  /** A coordinate is letters then digits, so it holds no ':' and can stand
      on either side of a range. */
  lemma CoordinateHasNoColon(row: nat, col: nat)
    requires 1 <= col <= MaxColumn
    ensures ':' !in Coordinate(row, col)
  {
    var a, b := ColumnLetter(col), Decimal(row);
    assert forall k :: 0 <= k < |a + b| ==> (a + b)[k] != ':' by {
      forall k | 0 <= k < |a + b|
        ensures (a + b)[k] != ':'
      {
        if k < |a| { assert IsUpperLetter(a[k]); } else { assert IsAsciiDigit(b[k - |a|]); }
      }
    }
  }
}
