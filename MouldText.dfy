/** Text helpers shared by the two mould-transfer notice parsers of the web front end (the one
    under `src/utils/pdf` and the newer one under `packages/frontend/src/utils/pdf`): the row
    record, white-space and checkbox clean-up, the date patterns, the search for the move date
    and the cut of the detail table out of the whole text.

    Regular expressions are written out as matchers. A matcher `XAt(s, i)` says whether the
    pattern matches at position `i`, taking each greedy run the way the JavaScript engine
    settles it; `FirstFrom` then finds the leftmost such position, as `match`/`exec` do. */
module MouldText {
  import opened Common
  import JsNumber

  /** One detail row of a notice. */
  datatype Row = Row(index: int, partNo: string, mouldName: string, mouldNo: string,
                     mouldFactory: string, moveTo: string, sealSampleNo: string)

  function BlankRow(index: int): Row
  {
    Row(index, "", "", "", "", "", "")
  }

  // ---------------------------------------------------------------- characters and runs

  /** `\w`. */
  predicate IsWord(c: char) { IsAsciiLetter(c) || IsDigit(c) || c == '_' }

  /** `[□☐✓✔✅]`. */
  predicate IsCheckbox(c: char) { c == '□' || c == '☐' || c == '✓' || c == '✔' || c == '✅' }

  /** Where `\s*` starting at `i` ends. */
  function SkipSpaces(s: string, i: nat): (j: nat)
    requires i <= |s|
    ensures i <= j <= |s|
    ensures j < |s| ==> !IsSpace(s[j])
    decreases |s| - i
  {
    if i < |s| && IsSpace(s[i]) then SkipSpaces(s, i + 1) else i
  }

  /** Length of the run of digits that starts at `i`. */
  function DigitsFrom(s: string, i: nat): (n: nat)
    requires i <= |s|
    ensures i + n <= |s|
    ensures forall k :: i <= k < i + n ==> IsDigit(s[k])
    ensures i + n < |s| ==> !IsDigit(s[i + n])
    decreases |s| - i
  {
    if i < |s| && IsDigit(s[i]) then 1 + DigitsFrom(s, i + 1) else 0
  }

  /** `\b` at position `i`: a word character on exactly one side. */
  predicate Boundary(s: string, i: nat)
  {
    (0 < i <= |s| && IsWord(s[i - 1])) != (i < |s| && IsWord(s[i]))
  }

  /** The leftmost position at or after `from` where the matcher `p` succeeds. */
  function FirstFrom(s: string, from: nat, p: (string, nat) -> bool): (r: Option<nat>)
    requires from <= |s|
    ensures r.Some? ==> from <= r.value <= |s| && p(s, r.value)
    ensures r.Some? ==> forall j :: from <= j < r.value ==> !p(s, j)
    ensures r.None? ==> forall j :: from <= j <= |s| ==> !p(s, j)
    decreases |s| - from
  {
    if p(s, from) then Some(from)
    else if from == |s| then None
    else FirstFrom(s, from + 1, p)
  }

  // ---------------------------------------------------------------- string operations

  /** `s.replace(target, repl)` with a string pattern: only the first occurrence. */
  function ReplaceFirst(s: string, target: string, repl: string): (r: string)
    ensures !Contains(s, target) ==> r == s
  {
    var i := IndexOf(s, target);
    if i.None? then s else s[..i.value] + repl + s[i.value + |target|..]
  }

  /** `s.indexOf(sub)`: -1 when absent. */
  function JsIndexOf(s: string, sub: string): (r: int)
    ensures -1 <= r <= |s|
  {
    JsIndexFrom(s, sub, 0)
  }

  function JsIndexFrom(s: string, sub: string, from: nat): (r: int)
    ensures r == -1 || from <= r <= |s|
    decreases |s| - from
  {
    if from + |sub| > |s| then -1
    else if s[from..from + |sub|] == sub then from
    else JsIndexFrom(s, sub, from + 1)
  }

  /** `indexOf` gives -1 exactly when `sub` does not occur, and otherwise its first occurrence. */
  lemma JsIndexOfMeaning(s: string, sub: string)
    ensures var r := JsIndexOf(s, sub);
      (r == -1 <==> !Contains(s, sub))
      && (r >= 0 ==> ContainsAt(s, sub, r) && forall j :: 0 <= j < r ==> !ContainsAt(s, sub, j))
  {
    JsIndexFromIsIndexFrom(s, sub, 0);
    var i := IndexOf(s, sub);
  }

  lemma {:induction false} JsIndexFromIsIndexFrom(s: string, sub: string, from: nat)
    ensures JsIndexFrom(s, sub, from) == (var i := IndexFrom(s, sub, from); if i.None? then -1 else i.value)
    decreases |s| - from
  {
    if from + |sub| <= |s| && s[from..from + |sub|] != sub {
      JsIndexFromIsIndexFrom(s, sub, from + 1);
    }
  }

  /** `s.replace(/c/g, '')`. */
  function RemoveChar(s: string, c: char): (r: string)
    ensures c !in r
    ensures |r| <= |s|
  {
    if s == [] then [] else (if s[0] == c then [] else [s[0]]) + RemoveChar(s[1..], c)
  }

  /** `s.split(/\s+/).filter(Boolean)`. */
  function WsTokens(s: string): (r: seq<string>)
    ensures forall i :: 0 <= i < |r| ==> r[i] != [] && forall j :: 0 <= j < |r[i]| ==> !IsSpace(r[i][j])
  {
    Tokens(s, IsSpace)
  }

  /** `normalizeText`: carriage returns dropped, tabs and no-break spaces made plain spaces. */
  function NormalizeText(s: string): (r: string)
    ensures '\r' !in r && '\t' !in r && '\U{00A0}' !in r
  {
    ReplaceChar(ReplaceChar(RemoveChar(s, '\r'), '\U{00A0}', ' '), '\t', ' ')
  }

  function TrimEndAll(ss: seq<string>): (r: seq<string>)
    ensures |r| == |ss|
    ensures forall i :: 0 <= i < |ss| ==> r[i] == TrimEnd(ss[i])
  {
    if ss == [] then [] else [TrimEnd(ss[0])] + TrimEndAll(ss[1..])
  }

  /** `text.split('\n').map((l) => l.trimEnd()).filter((l) => l.length > 0)`. */
  function TextLines(text: string): (r: seq<string>)
    ensures forall i :: 0 <= i < |r| ==> r[i] != []
  {
    NonEmpty(TrimEndAll(Split(text, '\n')))
  }

  /** `line.replace(/^\s*[□☐✓✔✅]\s*\/, '')`: a leading checkbox and the white space around it
      are dropped. */
  function StripCheckboxPrefix(s: string): (r: string)
    ensures |r| <= |s| && r == s[|s| - |r|..]
  {
    var a := SkipSpaces(s, 0);
    if a < |s| && IsCheckbox(s[a]) then s[SkipSpaces(s, a + 1)..] else s
  }

  /** `Number(digits)` then `Number.isFinite`: the value, unless a double cannot hold it. */
  function IndexNumber(digits: string): Option<int>
    requires AllDigits(digits)
  {
    if DigitsValue(digits) < JsNumber.OverflowBound then Some(DigitsValue(digits)) else None
  }

  /** The first digit run, as `s.match(/(\d+)/)?.[1]` gives it; "" when there is none. */
  function FirstDigits(s: string): (r: string)
    ensures AllDigits(r)
  {
    var i := FirstFrom(s, 0, DigitAt);
    if i.None? then ""
    else
      var n := DigitsFrom(s, i.value);
      DigitSlice(s, i.value, n);
      s[i.value..i.value + n]
  }

  predicate DigitAt(s: string, i: nat) { i < |s| && IsDigit(s[i]) }

  lemma DigitSlice(s: string, a: nat, n: nat)
    requires a + n <= |s| && forall k :: a <= k < a + n ==> IsDigit(s[k])
    ensures AllDigits(s[a..a + n])
  {
    var t := s[a..a + n];
    forall k | 0 <= k < n ensures IsDigit(t[k]) {
      assert t[k] == s[a + k];
    }
  }

  // ---------------------------------------------------------------- part numbers

  predicate IsWordOrDot(c: char) { IsWord(c) || c == '.' }

  /** Length of the run of `[\w.]` that starts at `i`. */
  function WordDotRun(s: string, i: nat): (n: nat)
    requires i <= |s|
    ensures i + n <= |s|
    decreases |s| - i
  {
    if i < |s| && IsWordOrDot(s[i]) then 1 + WordDotRun(s, i + 1) else 0
  }

  /** The largest `e` in `lo..hi` with `\b` at `e` (and a word character before it when
      `wordEnd`): where a greedy `[\w.]` run settles when the pattern goes on with `\b`. */
  function LastBoundary(s: string, lo: nat, hi: nat, wordEnd: bool): (r: Option<nat>)
    ensures r.Some? ==> lo <= r.value <= hi && Boundary(s, r.value)
    decreases hi
  {
    if hi < lo then None
    else if Boundary(s, hi) && (!wordEnd || (0 < hi <= |s| && IsWord(s[hi - 1]))) then Some(hi)
    else if hi == lo then None
    else LastBoundary(s, lo, hi - 1, wordEnd)
  }

  /** The letter a part-number pattern starts with: `C`, `[A-Z]?` or `[A-Z]`. */
  datatype Lead = LeadC | OptionalUpper | Upper

  /** Where the leading letter ends at `i`: `[A-Z]?` takes an upper-case letter when there is
      one, and never gives it back, since a digit must follow either way. */
  function LeadEnd(s: string, i: nat, lead: Lead): (r: Option<nat>)
    requires i < |s|
    ensures r.Some? ==> i <= r.value <= i + 1
  {
    match lead
    case LeadC => if s[i] == 'C' then Some(i + 1) else None
    case OptionalUpper => if IsAsciiUpper(s[i]) then Some(i + 1) else Some(i)
    case Upper => if IsAsciiUpper(s[i]) then Some(i + 1) else None
  }

  /** `\b(<lead>\d[\w.]+)\b` (or `\b(<lead>\d[\w.]*\w)\b` when `wordEnd`) at `i`: where the
      match ends. */
  function PartEnd(s: string, i: nat, lead: Lead, wordEnd: bool): (r: Option<nat>)
    ensures r.Some? ==> i < r.value <= |s|
  {
    if !(i < |s| && Boundary(s, i)) then None
    else
      var j := LeadEnd(s, i, lead);
      if j.None? || !(j.value < |s| && IsDigit(s[j.value])) then None
      else
        var run := WordDotRun(s, j.value + 1);
        if run == 0 then None else LastBoundary(s, j.value + 2, j.value + 1 + run, wordEnd)
  }

  // ---------------------------------------------------------------- dates

  /** `\d{4}-\d{2}-\d{2}` at `i`. */
  predicate IsoAt(s: string, i: nat)
  {
    i + 10 <= |s| && IsDigit(s[i]) && IsDigit(s[i + 1]) && IsDigit(s[i + 2]) && IsDigit(s[i + 3])
    && s[i + 4] == '-' && IsDigit(s[i + 5]) && IsDigit(s[i + 6])
    && s[i + 7] == '-' && IsDigit(s[i + 8]) && IsDigit(s[i + 9])
  }

  /** A whole string of the form `YYYY-MM-DD`. */
  predicate IsIsoDate(s: string)
  {
    |s| == 10 && IsoAt(s, 0)
  }

  /** `\b(\d{4}-\d{2}-\d{2})\b` at `i`. */
  predicate StrictDateAt(s: string, i: nat)
  {
    IsoAt(s, i) && Boundary(s, i) && Boundary(s, i + 10)
  }

  /** The first match of `\b(\d{4}-\d{2}-\d{2})\b`, as text. */
  function StrictDate(s: string): (r: Option<string>)
    ensures r.Some? ==> IsIsoDate(r.value)
  {
    var i := FirstFrom(s, 0, StrictDateAt);
    if i.None? then None
    else
      assert StrictDateAt(s, i.value);
      IsoSlice(s, i.value);
      Some(s[i.value..i.value + 10])
  }

  lemma IsoSlice(s: string, i: nat)
    requires IsoAt(s, i)
    ensures IsIsoDate(s[i..i + 10])
  {
    var r := s[i..i + 10];
    assert forall k :: 0 <= k < 10 ==> r[k] == s[i + k];
  }

  /** The groups of a year-month-day match, and where the match ends. */
  datatype DateParts = DateParts(year: string, month: string, day: string, end: nat)

  /** The separator classes of the date patterns: `[-/]`, `[-/.]`, `年` and `月`. */
  datatype Sep = DashSlash | DashSlashDot | YearMark | MonthMark

  predicate SepAt(sep: Sep, c: char)
  {
    match sep
    case DashSlash => c == '-' || c == '/'
    case DashSlashDot => c == '-' || c == '/' || c == '.'
    case YearMark => c == '年'
    case MonthMark => c == '月'
  }

  /** How many digits `(\d{1,2})` (when `short`) or `(\d{2})` takes at `i`; 0 when it fails.
      The greedy choice is final: the character after it is never a digit, space or
      separator that a shorter choice would let through. */
  function DigitGroup(s: string, i: nat, short: bool): (n: nat)
    requires i <= |s|
    ensures i + n <= |s| && forall k :: i <= k < i + n ==> IsDigit(s[k])
    ensures n <= 2 && (n == 1 ==> short)
  {
    var run := DigitsFrom(s, i);
    if run >= 2 then 2 else if short && run == 1 then 1 else 0
  }

  /** `\s*[sep]\s*(\d{n})` from `i`: where the digit group starts and how long it is. */
  function GroupAfter(s: string, i: nat, sep: Sep, short: bool): (r: Option<(nat, nat)>)
    requires i <= |s|
    ensures r.Some? ==> i < r.value.0 && r.value.0 + r.value.1 <= |s| && 1 <= r.value.1 <= 2
    ensures r.Some? ==> short || r.value.1 == 2
    ensures r.Some? ==> forall k :: r.value.0 <= k < r.value.0 + r.value.1 ==> IsDigit(s[k])
  {
    var a := SkipSpaces(s, i);
    if !(a < |s| && SepAt(sep, s[a])) then None
    else
      var b := SkipSpaces(s, a + 1);
      var m := DigitGroup(s, b, short);
      if m == 0 then None else Some((b, m))
  }

  /** `(\d{4})\s*[sep1]\s*(\d{n})\s*[sep2]\s*(\d{n})` at `i`, where `(\d{n})` is `(\d{1,2})`
      when `short` holds and `(\d{2})` otherwise. */
  function DatePartsAt(s: string, i: nat, sep1: Sep, sep2: Sep, short: bool)
    : (r: Option<DateParts>)
    ensures r.Some? ==> i < r.value.end <= |s|
  {
    if !(i + 4 <= |s| && DigitsFrom(s, i) >= 4) then None
    else
      var m := GroupAfter(s, i + 4, sep1, short);
      if m.None? then None
      else
        var d := GroupAfter(s, m.value.0 + m.value.1, sep2, short);
        if d.None? then None
        else
          Some(DateParts(s[i..i + 4], s[m.value.0..m.value.0 + m.value.1],
                         s[d.value.0..d.value.0 + d.value.1], d.value.0 + d.value.1))
  }

  /** A group of `(\d{1,2})`, or of `(\d{2})` when not `short`. */
  predicate GroupOk(g: string, short: bool)
  {
    1 <= |g| <= 2 && AllDigits(g) && (short || |g| == 2)
  }

  /** The groups of a date match: four digits, then one or two (exactly two unless `short`). */
  lemma DatePartsShape(s: string, i: nat, sep1: Sep, sep2: Sep, short: bool)
    requires DatePartsAt(s, i, sep1, sep2, short).Some?
    ensures var p := DatePartsAt(s, i, sep1, sep2, short).value;
      i + 4 <= |s| && p.year == s[i..i + 4] && AllDigits(p.year)
      && GroupOk(p.month, short) && GroupOk(p.day, short)
  {
    DigitSlice(s, i, 4);
    DateMonthShape(s, i, sep1, sep2, short);
    DateDayShape(s, i, sep1, sep2, short);
  }

  lemma DateMonthShape(s: string, i: nat, sep1: Sep, sep2: Sep, short: bool)
    requires DatePartsAt(s, i, sep1, sep2, short).Some?
    ensures GroupOk(DatePartsAt(s, i, sep1, sep2, short).value.month, short)
  {
    GroupAfterShape(s, i + 4, sep1, short);
  }

  lemma DateDayShape(s: string, i: nat, sep1: Sep, sep2: Sep, short: bool)
    requires DatePartsAt(s, i, sep1, sep2, short).Some?
    ensures GroupOk(DatePartsAt(s, i, sep1, sep2, short).value.day, short)
  {
    var m := GroupAfter(s, i + 4, sep1, short).value;
    GroupAfterShape(s, m.0 + m.1, sep2, short);
  }

  lemma GroupAfterShape(s: string, i: nat, sep: Sep, short: bool)
    requires i <= |s|
    ensures var g := GroupAfter(s, i, sep, short);
      g.Some? ==> GroupOk(s[g.value.0..g.value.0 + g.value.1], short)
  {
    var g := GroupAfter(s, i, sep, short);
    if g.Some? {
      DigitSlice(s, g.value.0, g.value.1);
    }
  }

  /** `(\d{4})\s*[-/]\s*(\d{2})\s*[-/]\s*(\d{2})` at `i`. */
  predicate SpacedDateAt(s: string, i: nat)
  {
    DatePartsAt(s, i, DashSlash, DashSlash, false).Some?
  }

  /** `pad2`: a one-character string gets a leading zero. */
  function Pad2(n: string): (r: string)
    ensures |n| == 1 ==> r == ['0'] + n
    ensures |n| != 1 ==> r == n
  {
    if |n| == 1 then "0" + n else n
  }

  /** `YYYY-MM-DD` from the groups, month and day padded to two digits. */
  function JoinDate(p: DateParts): (r: string)
    requires |p.year| == 4 && AllDigits(p.year)
    requires 1 <= |p.month| <= 2 && AllDigits(p.month) && 1 <= |p.day| <= 2 && AllDigits(p.day)
    ensures IsIsoDate(r)
  {
    var r := p.year + "-" + Pad2(p.month) + "-" + Pad2(p.day);
    assert r[0..4] == p.year && r[5..7] == Pad2(p.month) && r[8..10] == Pad2(p.day);
    r
  }

  // ---------------------------------------------------------------- the move date

  const MoveTimeKey: string := "模具移模时间"

  /** `模具移模时间(\d{4}-\d{2}-\d{2})` at `i` of the space-free text. */
  predicate CompactDateAt(s: string, i: nat)
  {
    ContainsAt(s, MoveTimeKey, i) && IsoAt(s, i + 6)
  }

  /** Where `模具\s*移模\s*时间` starting at `i` ends. */
  function KeyEnd(s: string, i: nat): (r: Option<nat>)
    ensures r.Some? ==> r.value <= |s|
  {
    if !ContainsAt(s, "模具", i) then None
    else
      var a := SkipSpaces(s, i + 2);
      if !ContainsAt(s, "移模", a) then None
      else
        var b := SkipSpaces(s, a + 2);
        if !ContainsAt(s, "时间", b) then None else Some(b + 2)
  }

  /** `[\s\S]{0,80}?(\d{4}\s*[-/]\s*\d{2}\s*[-/]\s*\d{2})` from `from`: the lazy gap tries 0, 1,
      … up to 80 characters; the result is where the date starts and ends. */
  function LazyDate(s: string, from: nat, k: nat): (r: Option<(nat, nat)>)
    ensures r.Some? ==> from + k <= r.value.0 <= from + 80 && r.value.0 < r.value.1 <= |s|
    decreases 81 - k
  {
    if k > 80 || from + k > |s| then None
    else
      var p := DatePartsAt(s, from + k, DashSlash, DashSlash, false);
      if p.Some? then Some((from + k, p.value.end)) else LazyDate(s, from, k + 1)
  }

  predicate LooseKeyDateAt(s: string, i: nat)
  {
    var e := KeyEnd(s, i);
    e.Some? && LazyDate(s, e.value, 0).Some?
  }

  /** The date text captured by `模具\s*移模\s*时间[\s\S]{0,80}?(\d{4}\s*[-/]\s*\d{2}\s*[-/]\s*\d{2})`. */
  function LooseKeyDate(s: string): Option<string>
  {
    var i := FirstFrom(s, 0, LooseKeyDateAt);
    if i.None? then None
    else
      assert LooseKeyDateAt(s, i.value);
      var d := LazyDate(s, KeyEnd(s, i.value).value, 0).value;
      Some(s[d.0..d.1])
  }

  /** The first line that mentions the move-time label once white space is removed. */
  function KeyLine(lines: seq<string>, from: nat): (r: Option<nat>)
    requires from <= |lines|
    ensures r.Some? ==> from <= r.value < |lines| && Contains(RemoveSpaces(lines[r.value]), MoveTimeKey)
    decreases |lines| - from
  {
    if from == |lines| then None
    else if Contains(RemoveSpaces(lines[from]), MoveTimeKey) then Some(from)
    else KeyLine(lines, from + 1)
  }

  /** The offsets around the label line in the order the candidates are sorted: nearer first,
      and of two equally near lines the one above first. */
  const Offsets: seq<int> := [0, -1, 1, -2, 2, -3, 3]

  /** The date of the line `off` away from line `at`, or "" when there is no such line, it is
      empty, or no date is found in it. */
  function CandidateAt(lines: seq<string>, at: int, off: int, parse: string -> string): string
  {
    var j := at + off;
    if 0 <= j < |lines| && lines[j] != [] then parse(lines[j]) else ""
  }

  /** Which of `Offsets` (from the `j`-th on) gives the first date; `|Offsets|` when none does. */
  function FirstCandidate(lines: seq<string>, at: int, parse: string -> string, j: nat): (k: nat)
    requires j <= |Offsets|
    ensures j <= k <= |Offsets|
    ensures k < |Offsets| ==> CandidateAt(lines, at, Offsets[k], parse) != ""
    ensures forall m :: j <= m < k ==> CandidateAt(lines, at, Offsets[m], parse) == ""
    decreases |Offsets| - j
  {
    if j == |Offsets| then j
    else if CandidateAt(lines, at, Offsets[j], parse) != "" then j
    else FirstCandidate(lines, at, parse, j + 1)
  }

  /** `findMouldMoveDate`: the date right after the label in the space-free text; else the first
      spaced date within 80 characters of the label, if `parse` reads it; else the nearest line
      around the label line that `parse` reads a date from. */
  function FindMouldMoveDate(rawText: string, lines: seq<string>, parse: string -> string): string
  {
    var compact := RemoveSpaces(rawText);
    var c := FirstFrom(compact, 0, CompactDateAt);
    if c.Some? then
      assert CompactDateAt(compact, c.value);
      compact[c.value + 6..c.value + 16]
    else
      var loose := LooseKeyDate(rawText);
      if loose.Some? && parse(loose.value) != "" then parse(loose.value)
      else
        var k := KeyLine(lines, 0);
        if k.None? then ""
        else
          var j := FirstCandidate(lines, k.value, parse, 0);
          if j == |Offsets| then "" else CandidateAt(lines, k.value, Offsets[j], parse)
  }

  /** Candidate `a` comes before candidate `b` in the sorted list. */
  predicate Nearer(a: int, b: int)
  {
    (if a < 0 then -a else a) < (if b < 0 then -b else b)
    || ((if a < 0 then -a else a) == (if b < 0 then -b else b) && a < 0 <= b)
  }

  /** `Offsets` is the order of `candidates.sort` over the offsets -3..3: sorted by `Nearer` and
      holding each offset once. */
  lemma OffsetsSorted()
    ensures forall a, b :: 0 <= a < b < |Offsets| ==> Nearer(Offsets[a], Offsets[b])
    ensures forall off :: -3 <= off <= 3 <==> off in Offsets
  {
  }

  /** A date found by the search always has the `YYYY-MM-DD` form when `parse` only returns
      that form or "". */
  lemma MoveDateShape(rawText: string, lines: seq<string>, parse: string -> string)
    requires forall s :: parse(s) == "" || IsIsoDate(parse(s))
    ensures var r := FindMouldMoveDate(rawText, lines, parse); r == "" || IsIsoDate(r)
  {
    var compact := RemoveSpaces(rawText);
    var c := FirstFrom(compact, 0, CompactDateAt);
    if c.Some? {
      assert CompactDateAt(compact, c.value);
      IsoSlice(compact, c.value + 6);
    }
  }

  // ---------------------------------------------------------------- the table section

  const TableKey: string := "零件图号"
  const AttachmentKey: string := "附件"
  const ApprovalKey: string := "报告审批意见"

  /** A line at which the detail table ends. */
  predicate IsTableEnd(line: string)
  {
    Contains(line, AttachmentKey) || Contains(line, ApprovalKey)
  }

  /** `extractTableSection`: from the first 零件图号 up to the earliest 附件 or 报告审批意见 after
      it; the whole text when there is no 零件图号. */
  function ExtractTableSection(rawText: string): string
  {
    var start := IndexOf(rawText, TableKey);
    if start.None? then rawText
    else
      var tail := rawText[start.value..];
      var e1 := IndexOf(tail, AttachmentKey);
      var e2 := IndexOf(tail, ApprovalKey);
      if e1.None? && e2.None? then tail
      else if e2.None? || (e1.Some? && e1.value <= e2.value) then tail[..e1.value]
      else tail[..e2.value]
  }

  lemma NoOccurrenceBefore(s: string, sub: string, m: nat)
    requires m <= |s| && sub != []
    requires forall j: nat :: j < m ==> !ContainsAt(s, sub, j)
    ensures !Contains(s[..m], sub)
  {
    forall j | 0 <= j <= m ensures !ContainsAt(s[..m], sub, j) {
      if j + |sub| <= m {
        assert s[..m][j..j + |sub|] == s[j..j + |sub|];
        assert !ContainsAt(s, sub, j);
      }
    }
  }

  lemma KeyStartsClear(tail: string)
    requires StartsWith(tail, TableKey)
    ensures forall j: nat :: j < 4 ==> !ContainsAt(tail, AttachmentKey, j) && !ContainsAt(tail, ApprovalKey, j)
  {
    forall j: nat | j < 4 ensures !ContainsAt(tail, AttachmentKey, j) && !ContainsAt(tail, ApprovalKey, j) {
      assert tail[j] == TableKey[j];
      assert j + 2 <= |tail| ==> tail[j..j + 2][0] == tail[j];
      assert j + 6 <= |tail| ==> tail[j..j + 6][0] == tail[j];
    }
  }

  /** The section is the whole text when 零件图号 is absent; otherwise it starts with the first
      零件图号, holds neither end marker, and is cut exactly where the first one begins. */
  lemma ExtractTableSectionMeaning(rawText: string)
    ensures !Contains(rawText, TableKey) ==> ExtractTableSection(rawText) == rawText
    ensures Contains(rawText, TableKey) ==>
      var tail := rawText[IndexOf(rawText, TableKey).value..];
      var r := ExtractTableSection(rawText);
      StartsWith(tail, r) && StartsWith(r, TableKey)
      && !Contains(r, AttachmentKey) && !Contains(r, ApprovalKey)
      && (r == tail || ContainsAt(tail, AttachmentKey, |r|) || ContainsAt(tail, ApprovalKey, |r|))
  {
    var start := IndexOf(rawText, TableKey);
    if start.Some? {
      var tail := rawText[start.value..];
      assert StartsWith(tail, TableKey) by {
        assert tail[..4] == rawText[start.value..start.value + 4];
      }
      KeyStartsClear(tail);
      var e1 := IndexOf(tail, AttachmentKey);
      var e2 := IndexOf(tail, ApprovalKey);
      var m := if e1.None? && e2.None? then |tail|
        else if e2.None? || (e1.Some? && e1.value <= e2.value) then e1.value else e2.value;
      assert ExtractTableSection(rawText) == tail[..m];
      NoOccurrenceBefore(tail, AttachmentKey, m);
      NoOccurrenceBefore(tail, ApprovalKey, m);
      assert m >= 4;
      assert tail[..m][..4] == tail[..4];
    }
  }
}
