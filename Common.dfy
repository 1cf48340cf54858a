/** Shared vocabulary: optional values, results, and the string operations that the
    scripts and the web code use (trim, split, join, replace, case, decimal text). */
module Common {

  datatype Option<+T> = None | Some(value: T)

  datatype Result<+T, +E> = Ok(value: T) | Err(error: E)

  // ---------------------------------------------------------------- characters

  /** White space as the `\s` class of JavaScript regular expressions and `String.trim` see it. */
  predicate IsSpace(c: char)
  {
    c == ' ' || c == '\t' || c == '\n' || c == '\r' || c == '\U{000B}' || c == '\U{000C}'
    || c == '\U{00A0}' || c == '\U{1680}' || ('\U{2000}' <= c <= '\U{200A}')
    || c == '\U{2028}' || c == '\U{2029}' || c == '\U{202F}' || c == '\U{205F}'
    || c == '\U{3000}' || c == '\U{FEFF}'
  }

  predicate IsDigit(c: char) { '0' <= c <= '9' }

  predicate IsAsciiUpper(c: char) { 'A' <= c <= 'Z' }

  predicate IsAsciiLower(c: char) { 'a' <= c <= 'z' }

  predicate IsAsciiLetter(c: char) { IsAsciiUpper(c) || IsAsciiLower(c) }

  function ToLowerChar(c: char): char
  {
    if IsAsciiUpper(c) then (c as int + 32) as char else c
  }

  function ToUpperChar(c: char): char
  {
    if IsAsciiLower(c) then (c as int - 32) as char else c
  }

  /** `toLowerCase` on the ASCII letters; every other character is kept as it is, where
      `toLowerCase` would also fold letters such as `É`, or expand `İ` to two code units. */
  function ToLower(s: string): (r: string)
    ensures |r| == |s|
    ensures forall i :: 0 <= i < |s| ==> r[i] == ToLowerChar(s[i])
  {
    if s == [] then [] else [ToLowerChar(s[0])] + ToLower(s[1..])
  }

  function ToUpper(s: string): (r: string)
    ensures |r| == |s|
    ensures forall i :: 0 <= i < |s| ==> r[i] == ToUpperChar(s[i])
  {
    if s == [] then [] else [ToUpperChar(s[0])] + ToUpper(s[1..])
  }

  // ---------------------------------------------------------------- trimming

  function TrimStart(s: string): (r: string)
    ensures |r| <= |s|
    ensures r == [] || !IsSpace(r[0])
  {
    if s != [] && IsSpace(s[0]) then TrimStart(s[1..]) else s
  }

  function TrimEnd(s: string): (r: string)
    ensures |r| <= |s|
    ensures r == [] || !IsSpace(r[|r| - 1])
  {
    if s != [] && IsSpace(s[|s| - 1]) then TrimEnd(s[..|s| - 1]) else s
  }

  /** `TrimStart` removes white space only, and only from the front. */
  lemma {:induction false} TrimStartDrops(s: string)
    ensures TrimStart(s) == s[|s| - |TrimStart(s)|..]
    ensures forall i :: 0 <= i < |s| - |TrimStart(s)| ==> IsSpace(s[i])
    decreases |s|
  {
    if s != [] && IsSpace(s[0]) {
      TrimStartDrops(s[1..]);
    }
  }

  /** `TrimEnd` removes white space only, and only from the back. */
  lemma {:induction false} TrimEndDrops(s: string)
    ensures TrimEnd(s) == s[..|TrimEnd(s)|]
    ensures forall i :: |TrimEnd(s)| <= i < |s| ==> IsSpace(s[i])
    decreases |s|
  {
    if s != [] && IsSpace(s[|s| - 1]) {
      TrimEndDrops(s[..|s| - 1]);
    }
  }

  /** `String.prototype.trim` / Python `str.strip()`. */
  function Trim(s: string): (r: string)
    ensures |r| <= |s|
    ensures r == [] || (!IsSpace(r[0]) && !IsSpace(r[|r| - 1]))
  {
    TrimEndDrops(TrimStart(s));
    TrimEnd(TrimStart(s))
  }

  /** A string that already starts and ends with something other than white space is its own trim. */
  lemma TrimOfTrimmed(s: string)
    requires s == [] || (!IsSpace(s[0]) && !IsSpace(s[|s| - 1]))
    ensures Trim(s) == s
  {
    assert TrimStart(s) == s;
  }

  /** Trimming only removes characters. */
  lemma TrimKeepsOut(s: string, c: char)
    requires c !in s
    ensures c !in Trim(s)
  {
    TrimStartDrops(s);
    TrimEndDrops(TrimStart(s));
  }

  predicate IsBlank(s: string)
  {
    forall i :: 0 <= i < |s| ==> IsSpace(s[i])
  }

  lemma TrimEmptyIffBlank(s: string)
    ensures Trim(s) == [] <==> IsBlank(s)
  {
    var t := TrimStart(s);
    TrimStartDrops(s);
    TrimEndDrops(t);
    if Trim(s) == [] {
      assert t == [];
    }
    if IsBlank(s) {
      TrimStartOfBlank(s);
    }
  }

  lemma TrimStartOfBlank(s: string)
    requires IsBlank(s)
    ensures TrimStart(s) == []
  {
    if s != [] {
      TrimStartOfBlank(s[1..]);
    }
  }

  /** Removes every white-space character (the `/\s+/g` → '' replacement). */
  function RemoveSpaces(s: string): (r: string)
    ensures |r| <= |s|
    ensures forall i :: 0 <= i < |r| ==> !IsSpace(r[i])
  {
    if s == [] then []
    else if IsSpace(s[0]) then RemoveSpaces(s[1..])
    else [s[0]] + RemoveSpaces(s[1..])
  }

  /** The length of the run of white space that `s` starts with. */
  function SpaceRun(s: string): (n: nat)
    ensures n <= |s|
    ensures s != [] && IsSpace(s[0]) ==> n >= 1
  {
    if s != [] && IsSpace(s[0]) then 1 + SpaceRun(s[1..]) else 0
  }

  /** `replace(/\s+/g, ' ')`: every run of white space becomes one space. */
  function CollapseSpaces(s: string): (r: string)
    decreases |s|
  {
    if s == [] then []
    else if IsSpace(s[0]) then [' '] + CollapseSpaces(s[SpaceRun(s)..])
    else [s[0]] + CollapseSpaces(s[1..])
  }

  /** `s.replace(/\s+/g, ' ').trim()`: white space collapsed, then trimmed. */
  function Clean(s: string): (r: string)
    ensures r == [] || (!IsSpace(r[0]) && !IsSpace(r[|r| - 1]))
  {
    Trim(CollapseSpaces(s))
  }

  // ---------------------------------------------------------------- searching

  predicate StartsWith(s: string, prefix: string)
  {
    |prefix| <= |s| && s[..|prefix|] == prefix
  }

  predicate EndsWith(s: string, suffix: string)
  {
    |suffix| <= |s| && s[|s| - |suffix|..] == suffix
  }

  predicate ContainsAt(s: string, sub: string, i: nat)
  {
    i + |sub| <= |s| && s[i..i + |sub|] == sub
  }

  predicate Contains(s: string, sub: string)
  {
    exists i :: 0 <= i <= |s| && ContainsAt(s, sub, i)
  }

  /** First index of `sub` in `s` at or after `from`, as `indexOf` computes it. */
  function IndexFrom(s: string, sub: string, from: nat): (r: Option<nat>)
    decreases |s| - from
    ensures r.Some? ==> from <= r.value && ContainsAt(s, sub, r.value)
    ensures r.Some? ==> forall j: nat :: from <= j < r.value ==> !ContainsAt(s, sub, j)
    ensures r.None? ==> forall j: nat :: from <= j ==> !ContainsAt(s, sub, j)
  {
    if from + |sub| > |s| then None
    else if s[from..from + |sub|] == sub then Some(from)
    else IndexFrom(s, sub, from + 1)
  }

  function IndexOf(s: string, sub: string): (r: Option<nat>)
    ensures r.Some? <==> Contains(s, sub)
    ensures r.Some? ==> ContainsAt(s, sub, r.value)
    ensures r.Some? ==> forall j: nat :: j < r.value ==> !ContainsAt(s, sub, j)
  {
    IndexFrom(s, sub, 0)
  }

  // ---------------------------------------------------------------- splitting and joining

  /** `s.split(sep)` for a one-character separator: never empty (see `JoinOfSplit` for what the
      pieces are). */
  function Split(s: string, sep: char): (r: seq<string>)
    ensures |r| >= 1
    decreases |s|
  {
    if sep !in s then [s]
    else
      var k := FirstIndexOfChar(s, sep);
      [s[..k]] + Split(s[k + 1..], sep)
  }

  function FirstIndexOfChar(s: string, c: char): (k: nat)
    requires c in s
    ensures k < |s| && s[k] == c
    ensures forall j :: 0 <= j < k ==> s[j] != c
  {
    if s[0] == c then 0 else 1 + FirstIndexOfChar(s[1..], c)
  }

  /** What follows the last `sep` in `s` (all of `s` when there is none): `s.split(sep).at(-1)`. */
  function LastSegment(s: string, sep: char): string
    decreases |s|
  {
    if sep !in s then s else LastSegment(s[FirstIndexOfChar(s, sep) + 1..], sep)
  }

  /** The first piece of a split is a prefix of the text with no separator in it; without a
      separator the text is its own single piece. */
  lemma SplitHead(s: string, sep: char)
    ensures sep !in Split(s, sep)[0]
    ensures StartsWith(s, Split(s, sep)[0])
    ensures sep !in s ==> Split(s, sep) == [s]
  {
    if sep in s {
      var k := FirstIndexOfChar(s, sep);
      assert Split(s, sep)[0] == s[..k];
      assert forall j :: 0 <= j < k ==> s[..k][j] == s[j];
    }
  }

  /** The pieces of a split hold no separator, and joining them with it gives back `s`. */
  lemma {:induction false} JoinOfSplit(s: string, sep: char)
    ensures Join(Split(s, sep), [sep]) == s
    ensures forall i :: 0 <= i < |Split(s, sep)| ==> sep !in Split(s, sep)[i]
    decreases |s|
  {
    if sep in s {
      var k := FirstIndexOfChar(s, sep);
      var t := s[k + 1..];
      JoinOfSplit(t, sep);
      assert Split(s, sep) == [s[..k]] + Split(t, sep);
      assert s == s[..k] + [sep] + t;
    }
  }

  /** `LastSegment` is the last piece of the split. */
  lemma {:induction false} LastOfSplit(s: string, sep: char)
    ensures Split(s, sep)[|Split(s, sep)| - 1] == LastSegment(s, sep)
    decreases |s|
  {
    if sep in s {
      var k := FirstIndexOfChar(s, sep);
      var t := s[k + 1..];
      var rest := Split(t, sep);
      LastOfSplit(t, sep);
      assert Split(s, sep) == [s[..k]] + rest;
      assert LastSegment(s, sep) == LastSegment(t, sep);
      assert |Split(s, sep)| == |rest| + 1;
    }
  }

  /** Splitting the join of separator-free pieces gives the pieces back. */
  lemma {:induction false} SplitJoin(parts: seq<string>, sep: char)
    requires parts != [] && forall k :: 0 <= k < |parts| ==> sep !in parts[k]
    ensures Split(Join(parts, [sep]), sep) == parts
  {
    if |parts| == 1 {
      assert Join(parts, [sep]) == parts[0];
    } else {
      var s := Join(parts, [sep]);
      var rest := Join(parts[1..], [sep]);
      assert s == parts[0] + [sep] + rest;
      FirstIndexAfter(parts[0], sep, rest);
      assert s[..|parts[0]|] == parts[0];
      assert s[|parts[0]| + 1..] == rest;
      SplitJoin(parts[1..], sep);
    }
  }

  lemma FirstIndexAfter(a: string, sep: char, rest: string)
    requires sep !in a
    ensures sep in a + [sep] + rest && FirstIndexOfChar(a + [sep] + rest, sep) == |a|
  {
    var s := a + [sep] + rest;
    assert s[|a|] == sep;
  }

  /** The `filter(Boolean)` of strings that are all non-empty keeps them all. */
  lemma {:induction false} NonEmptyOfNonEmpty(ss: seq<string>)
    requires forall k :: 0 <= k < |ss| ==> ss[k] != []
    ensures NonEmpty(ss) == ss
  {
    if ss != [] {
      NonEmptyOfNonEmpty(ss[1..]);
    }
  }

  /** `parts.join(sep)`. */
  function Join(parts: seq<string>, sep: string): string
  {
    if parts == [] then []
    else if |parts| == 1 then parts[0]
    else parts[0] + sep + Join(parts[1..], sep)
  }

  /** The maximal non-empty runs of characters outside `isSep`: what
      `s.split(/[sep]+/).filter(Boolean)` returns. */
  function Tokens(s: string, isSep: char -> bool): (r: seq<string>)
    ensures forall i :: 0 <= i < |r| ==> r[i] != [] && forall j :: 0 <= j < |r[i]| ==> !isSep(r[i][j])
    decreases |s|
  {
    if s == [] then []
    else if isSep(s[0]) then Tokens(s[1..], isSep)
    else
      var n := RunLength(s, isSep);
      [s[..n]] + Tokens(s[n..], isSep)
  }

  function RunLength(s: string, isSep: char -> bool): (n: nat)
    ensures n <= |s|
    ensures forall j :: 0 <= j < n ==> !isSep(s[j])
    ensures n < |s| ==> isSep(s[n])
    ensures s != [] && !isSep(s[0]) ==> n >= 1
  {
    if s == [] || isSep(s[0]) then 0 else 1 + RunLength(s[1..], isSep)
  }

  /** Drops the empty strings (`filter(Boolean)` on strings). */
  function NonEmpty(ss: seq<string>): (r: seq<string>)
    ensures |r| <= |ss|
    ensures forall i :: 0 <= i < |r| ==> r[i] != []
    ensures forall x :: x in r <==> x in ss && x != []
  {
    if ss == [] then []
    else if ss[0] == [] then NonEmpty(ss[1..])
    else [ss[0]] + NonEmpty(ss[1..])
  }

  function TrimAll(ss: seq<string>): (r: seq<string>)
    ensures |r| == |ss|
    ensures forall i :: 0 <= i < |ss| ==> r[i] == Trim(ss[i])
  {
    if ss == [] then [] else [Trim(ss[0])] + TrimAll(ss[1..])
  }

  // ---------------------------------------------------------------- replacing

  /** `s.replaceAll(from, to)` / `s.replace(/from/g, to)`: left to right, non-overlapping. */
  function ReplaceAll(s: string, from: string, to: string): (r: string)
    requires from != []
    decreases |s|
  {
    if |s| < |from| then s
    else if s[..|from|] == from then to + ReplaceAll(s[|from|..], from, to)
    else [s[0]] + ReplaceAll(s[1..], from, to)
  }

  /** Replaces every occurrence of one character by another. */
  function ReplaceChar(s: string, from: char, to: char): (r: string)
    ensures |r| == |s|
    ensures from != to ==> from !in r
    ensures forall i :: 0 <= i < |s| ==> r[i] == (if s[i] == from then to else s[i])
  {
    if s == [] then [] else [if s[0] == from then to else s[0]] + ReplaceChar(s[1..], from, to)
  }

  // ---------------------------------------------------------------- decimal text

  function DigitChar(d: nat): char
    requires d < 10
  {
    ('0' as int + d) as char
  }

  /** Decimal text of a natural number, without leading zeros. */
  function NatToString(n: nat): (r: string)
    ensures r != []
    ensures forall i :: 0 <= i < |r| ==> IsDigit(r[i])
    ensures n < 10 ==> |r| == 1
    ensures n >= 10 ==> |r| >= 2
    decreases n
  {
    if n < 10 then [DigitChar(n)] else NatToString(n / 10) + [DigitChar(n % 10)]
  }

  function IntToString(n: int): (r: string)
    ensures r != []
  {
    if n < 0 then "-" + NatToString(-n) else NatToString(n)
  }

  /** `String(n).padStart(width, '0')`. */
  function PadLeft(s: string, width: nat, fill: char): (r: string)
    ensures |r| == if |s| >= width then |s| else width
    ensures EndsWith(r, s)
    ensures |s| >= width ==> r == s
  {
    if |s| >= width then s else Repeat(fill, width - |s|) + s
  }

  /** `n` copies of `c`. */
  function Repeat<T>(c: T, n: nat): (r: seq<T>)
    ensures |r| == n && forall i :: 0 <= i < n ==> r[i] == c
  {
    if n == 0 then [] else [c] + Repeat(c, n - 1)
  }

  predicate AllDigits(s: string)
  {
    forall i :: 0 <= i < |s| ==> IsDigit(s[i])
  }

  /** Digits followed by digits are digits. */
  lemma DigitsConcat(a: string, b: string)
    requires AllDigits(a) && AllDigits(b)
    ensures AllDigits(a + b)
  {
    forall k | 0 <= k < |a + b| ensures IsDigit((a + b)[k]) {
      if k < |a| { assert (a + b)[k] == a[k]; } else { assert (a + b)[k] == b[k - |a|]; }
    }
  }

  /** The text `/^(\d{4})-(\d{2})$/` accepts: four digits, a hyphen, two digits. */
  predicate IsMonthText(month: string)
  {
    |month| == 7 && IsDigit(month[0]) && IsDigit(month[1]) && IsDigit(month[2])
    && IsDigit(month[3]) && month[4] == '-' && IsDigit(month[5]) && IsDigit(month[6])
  }

  /** Value of a string of decimal digits. */
  function DigitsValue(s: string): (n: nat)
    requires AllDigits(s)
    decreases |s|
  {
    if s == [] then 0 else DigitsValue(s[..|s| - 1]) * 10 + (s[|s| - 1] as int - '0' as int)
  }

  lemma {:induction false} DigitsValueOfNatToString(n: nat)
    ensures AllDigits(NatToString(n)) && DigitsValue(NatToString(n)) == n
    decreases n
  {
    var r := NatToString(n);
    if n >= 10 {
      DigitsValueOfNatToString(n / 10);
      assert r[..|r| - 1] == NatToString(n / 10);
    }
  }

  lemma DigitsValueBound(s: string)
    requires AllDigits(s)
    ensures DigitsValue(s) < Pow10(|s|)
    decreases |s|
  {
    if s != [] {
      DigitsValueBound(s[..|s| - 1]);
    }
  }

  function Pow10(k: nat): (r: nat)
    ensures r >= 1
  {
    if k == 0 then 1 else 10 * Pow10(k - 1)
  }

  // ---------------------------------------------------------------- sums and counts

  function Sum(xs: seq<int>): int
  {
    if xs == [] then 0 else xs[0] + Sum(xs[1..])
  }

  lemma SumAppend(xs: seq<int>, ys: seq<int>)
    ensures Sum(xs + ys) == Sum(xs) + Sum(ys)
  {
    if xs != [] {
      assert (xs + ys)[0] == xs[0];
      assert (xs + ys)[1..] == xs[1..] + ys;
      SumAppend(xs[1..], ys);
    } else {
      assert xs + ys == ys;
    }
  }

  function Max(a: int, b: int): int { if a >= b then a else b }

  function Min(a: int, b: int): int { if a <= b then a else b }

  /** `Math.min(hi, Math.max(lo, x))`. */
  function Clamp(x: int, lo: int, hi: int): (r: int)
    requires lo <= hi
    ensures lo <= r <= hi
    ensures lo <= x <= hi ==> r == x
  {
    Min(hi, Max(lo, x))
  }

  // ---------------------------------------------------------------- a stable sort by key

  /** Puts `x` before the first element whose key is not smaller. */
  function InsertByKey<T>(x: T, sorted: seq<T>, key: T -> real): (r: seq<T>)
    ensures multiset(r) == multiset(sorted) + multiset{x}
    ensures |r| == |sorted| + 1
  {
    if sorted == [] || key(x) <= key(sorted[0]) then [x] + sorted
    else
      assert sorted == [sorted[0]] + sorted[1..];
      [sorted[0]] + InsertByKey(x, sorted[1..], key)
  }

  /** `[...xs].sort((a, b) => key(a) - key(b))`: ascending keys, ties in their original order. */
  function SortByKey<T>(xs: seq<T>, key: T -> real): (r: seq<T>)
    ensures multiset(r) == multiset(xs)
    ensures |r| == |xs|
  {
    if xs == [] then []
    else
      assert xs == [xs[0]] + xs[1..];
      InsertByKey(xs[0], SortByKey(xs[1..], key), key)
  }

  predicate SortedByKey<T>(xs: seq<T>, key: T -> real)
  {
    forall i, j :: 0 <= i < j < |xs| ==> key(xs[i]) <= key(xs[j])
  }

  lemma {:induction false} InsertKeepsSorted<T>(x: T, sorted: seq<T>, key: T -> real)
    requires SortedByKey(sorted, key)
    ensures SortedByKey(InsertByKey(x, sorted, key), key)
  {
    if sorted != [] && key(x) > key(sorted[0]) {
      InsertKeepsSorted(x, sorted[1..], key);
      var rest := InsertByKey(x, sorted[1..], key);
      assert multiset(rest) == multiset(sorted[1..]) + multiset{x};
      forall i | 0 <= i < |rest|
        ensures key(sorted[0]) <= key(rest[i])
      {
        assert rest[i] in multiset(rest);
        if rest[i] != x {
          assert rest[i] in sorted[1..];
        }
      }
    }
  }

  /** The sort orders by key and only rearranges. */
  lemma {:induction false} SortIsSorted<T>(xs: seq<T>, key: T -> real)
    ensures SortedByKey(SortByKey(xs, key), key)
  {
    if xs != [] {
      SortIsSorted(xs[1..], key);
      InsertKeepsSorted(xs[0], SortByKey(xs[1..], key), key);
    }
  }

  // ---------------------------------------------------------------- text order

  /** `a.localeCompare(b)` read as an order on character codes: -1, 0 or 1. */
  function CompareText(a: string, b: string): (r: int)
    ensures -1 <= r <= 1
    ensures r == 0 <==> a == b
  {
    if a == [] then (if b == [] then 0 else -1)
    else if b == [] then 1
    else if a[0] < b[0] then -1
    else if a[0] > b[0] then 1
    else CompareText(a[1..], b[1..])
  }

  lemma {:induction false} CompareTextFlips(a: string, b: string)
    ensures CompareText(b, a) == -CompareText(a, b)
  {
    if a != [] && b != [] && a[0] == b[0] {
      CompareTextFlips(a[1..], b[1..]);
    }
  }

  lemma {:induction false} CompareTextChains(a: string, b: string, c: string)
    requires CompareText(a, b) <= 0 && CompareText(b, c) <= 0
    ensures CompareText(a, c) <= 0
  {
    if a != [] && b != [] && c != [] && a[0] == b[0] && b[0] == c[0] {
      CompareTextChains(a[1..], b[1..], c[1..]);
    }
  }

  // ---------------------------------------------------------------- slicing

  /** How `Array.prototype.slice` reads one of its bounds: a negative one counts from the end,
      and both are clamped to the array. */
  function SliceIndex(i: int, len: nat): (r: nat)
    ensures r <= len
    ensures 0 <= i <= len ==> r == i
  {
    if i < 0 then (if len + i < 0 then 0 else len + i) else if i > len then len else i
  }

  /** `xs.slice(start, end)`. */
  function JsSlice<T>(xs: seq<T>, start: int, end: int): (r: seq<T>)
    ensures |r| <= |xs|
    ensures 0 <= start <= end ==> |r| <= end - start
    ensures 0 <= start <= end <= |xs| ==> r == xs[start..end]
  {
    var s := SliceIndex(start, |xs|);
    var e := SliceIndex(end, |xs|);
    if s < e then xs[s..e] else []
  }

  /** A prefix one longer is the prefix with the next element appended; proved over an
      element type the solver knows nothing about, so no element is unfolded. */
  lemma PrefixSnoc<T>(s: seq<T>, i: nat)
    requires i < |s|
    ensures s[..i + 1] == s[..i] + [s[i]]
  {
  }

  /** Some element of a non-empty sequence satisfies `p` exactly when the last one does or
      one before it. */
  lemma ExistsSnoc<T>(s: seq<T>, front: seq<T>, p: T -> bool)
    requires s != [] && front == s[..|s| - 1]
    ensures (exists i :: 0 <= i < |s| && p(s[i])) <==>
      (exists i :: 0 <= i < |front| && p(front[i])) || p(s[|s| - 1])
  {
    var n := |s| - 1;
    if exists i :: 0 <= i < n && p(front[i]) {
      var i :| 0 <= i < n && p(front[i]);
      assert front[i] == s[i];
    }
    if (exists i :: 0 <= i < |s| && p(s[i])) && !p(s[n]) {
      var i :| 0 <= i < |s| && p(s[i]);
      assert front[i] == s[i];
    }
  }

  /** Appending to a sequence keeps what is already there. */
  lemma IndexOfAppend<T>(b: seq<T>, t: seq<T>, j: nat)
    requires j < |b|
    ensures j < |b + t| && (b + t)[j] == b[j]
  {
  }
}
