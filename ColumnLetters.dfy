/** Column letters ↔ column numbers, as `get_column_number` in delete_image_xlsx.py and
    delete_image.py computes them: bijective base 26 (A = 1, Z = 26, AA = 27), case-insensitive,
    with no validation of the characters. */
module ColumnLetters {
  import opened Common

  /** The digit a character contributes: `ord(c) - ord('A') + 1` (not validated, so any
      character has a value, possibly zero or negative). */
  function DigitOf(c: char): int
  {
    c as int - 'A' as int + 1
  }

  /** The specification of the accumulator loop, read left to right. */
  function ColumnValue(u: string): int
  {
    if u == [] then 0 else ColumnValue(u[..|u| - 1]) * 26 + DigitOf(u[|u| - 1])
  }

  /** The column number of `letters` after upper-casing. */
  function ColumnNumber(letters: string): int
  {
    ColumnValue(ToUpper(letters))
  }

  /** `get_column_number`: the Python loop `result = result * 26 + (ord(char) - ord('A') + 1)`
      over `column_letter.upper()`. */
  method GetColumnNumber(columnLetter: string) returns (result: int)
    ensures result == ColumnNumber(columnLetter)
  {
    var upper := ToUpper(columnLetter);
    result := 0;
    var i := 0;
    while i < |upper|
      invariant 0 <= i <= |upper|
      invariant result == ColumnValue(upper[..i])
    {
      assert upper[..i + 1][..i] == upper[..i];
      result := result * 26 + (upper[i] as int - 'A' as int + 1);
      i := i + 1;
    }
    assert upper[..|upper|] == upper;
  }

  /** Letters are read case-insensitively: `"ab"` and `"AB"` name the same column. */
  lemma CaseInsensitive(s: string)
    ensures ColumnNumber(ToLower(s)) == ColumnNumber(s)
  {
    assert ToUpper(ToLower(s)) == ToUpper(s);
  }

  predicate IsColumnLetters(s: string)
  {
    s != [] && forall i :: 0 <= i < |s| ==> IsAsciiUpper(s[i])
  }

  /** The inverse direction (openpyxl's `get_column_letter`): the letters of column `n`. */
  function ColumnLetter(n: int): (r: string)
    requires n >= 1
    ensures IsColumnLetters(r)
    decreases n
  {
    var q := (n - 1) / 26;
    var last := ('A' as int + (n - 1) % 26) as char;
    if q == 0 then [last] else ColumnLetter(q) + [last]
  }

  lemma {:induction false} LettersHavePositiveValue(s: string)
    requires IsColumnLetters(s)
    ensures ColumnValue(s) >= 1
    decreases |s|
  {
    if |s| > 1 {
      LettersHavePositiveValue(s[..|s| - 1]);
    }
  }

  /** Every column number ≥ 1 is reached: the letters of `n` read back as `n`. */
  lemma {:induction false} NumberOfLetter(n: int)
    requires n >= 1
    ensures ColumnNumber(ColumnLetter(n)) == n
    decreases n
  {
    var r := ColumnLetter(n);
    var q := (n - 1) / 26;
    assert ToUpper(r) == r;
    assert DigitOf(r[|r| - 1]) == (n - 1) % 26 + 1;
    assert ColumnValue(r) == ColumnValue(r[..|r| - 1]) * 26 + DigitOf(r[|r| - 1]);
    if q == 0 {
      assert r[..|r| - 1] == [];
    } else {
      NumberOfLetter(q);
      assert ToUpper(ColumnLetter(q)) == ColumnLetter(q);
      assert r[..|r| - 1] == ColumnLetter(q);
    }
  }

  /** And no two letter strings share a number: reading then writing gives the letters back. */
  lemma {:induction false} LetterOfNumber(s: string)
    requires IsColumnLetters(s)
    ensures ColumnNumber(s) >= 1 && ColumnLetter(ColumnNumber(s)) == s
    decreases |s|
  {
    assert ToUpper(s) == s;
    LettersHavePositiveValue(s);
    var init := s[..|s| - 1];
    var d := DigitOf(s[|s| - 1]);
    assert 1 <= d <= 26;
    if init == [] {
      assert ColumnValue(s) == d;
    } else {
      LetterOfNumber(init);
      assert ToUpper(init) == init;
      var v := ColumnValue(init);
      assert ColumnValue(s) == v * 26 + d;
      assert (v * 26 + d - 1) / 26 == v;
      assert (v * 26 + d - 1) % 26 == d - 1;
      assert s == init + [s[|s| - 1]];
    }
  }

  lemma Examples()
    ensures ColumnNumber("A") == 1 && ColumnNumber("Z") == 26 && ColumnNumber("AA") == 27
    ensures ColumnNumber("b") == 2
  {
  }
}
