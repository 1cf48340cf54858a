/** The text patterns of the mould-transfer notice parser under `packages/frontend/src/utils/pdf`,
    the newer of the two in the web front end: the hyphen variants seen in PDF text, the three
    date forms, the table header labels, the seal, mould and part number patterns, and the
    shapes of row lines.

    As in `MouldText`, a regular expression is written out as a matcher: `MatchEnd(p, s, i)`
    says where pattern `p` ends when it matches at position `i`, taking each greedy run the way
    the JavaScript engine settles it, and `First` finds the leftmost match as `match`/`exec`
    do. */
module MouldTransferText {
  import opened Common
  import opened MouldText

  // ---------------------------------------------------------------- hyphens

  /** `[-－—–‑−]`: the hyphen-minus, the full-width hyphen-minus, the em and en dashes, the
      non-breaking hyphen and the minus sign. */
  predicate IsHyphen(c: char)
  {
    c == '-' || c == '\U{FF0D}' || c == '\U{2014}' || c == '\U{2013}' || c == '\U{2011}' || c == '\U{2212}'
  }

  /** `[-－—]`, the narrower class the name clean-up and the part-number checks use. */
  predicate IsDash(c: char)
  {
    c == '-' || c == '\U{FF0D}' || c == '\U{2014}'
  }

  /** `replace(/[－—–‑−]/g, '-')`: every hyphen variant becomes the hyphen-minus. */
  function Dehyphen(s: string): (r: string)
    ensures |r| == |s|
  {
    if s == [] then [] else [if IsHyphen(s[0]) then '-' else s[0]] + Dehyphen(s[1..])
  }

  /** Each character is kept, except that a hyphen variant becomes `-`. */
  lemma {:induction false} DehyphenMeaning(s: string)
    ensures forall i :: 0 <= i < |s| ==> Dehyphen(s)[i] == (if IsHyphen(s[i]) then '-' else s[i])
    decreases |s|
  {
    if s != [] {
      DehyphenMeaning(s[1..]);
      assert forall i :: 1 <= i < |s| ==> Dehyphen(s)[i] == Dehyphen(s[1..])[i - 1];
    }
  }

  lemma {:induction false} DehyphenAppend(a: string, b: string)
    ensures Dehyphen(a + b) == Dehyphen(a) + Dehyphen(b)
  {
    DehyphenMeaning(a + b);
    DehyphenMeaning(a);
    DehyphenMeaning(b);
    var r := Dehyphen(a + b);
    assert forall i :: 0 <= i < |a| ==> r[i] == Dehyphen(a)[i] by {
      assert forall i :: 0 <= i < |a| ==> (a + b)[i] == a[i];
    }
    assert forall i :: 0 <= i < |b| ==> r[|a| + i] == Dehyphen(b)[i] by {
      assert forall i :: 0 <= i < |b| ==> (a + b)[|a| + i] == b[i];
    }
  }

  // ---------------------------------------------------------------- white space

  lemma {:induction false} RemoveSpacesAppend(a: string, b: string)
    ensures RemoveSpaces(a + b) == RemoveSpaces(a) + RemoveSpaces(b)
    decreases |a|
  {
    if a == [] {
      assert a + b == b;
    } else {
      assert (a + b)[0] == a[0];
      assert (a + b)[1..] == a[1..] + b;
      RemoveSpacesAppend(a[1..], b);
    }
  }

  lemma {:induction false} RemoveSpacesOfBlank(s: string)
    requires IsBlank(s)
    ensures RemoveSpaces(s) == []
    decreases |s|
  {
    if s != [] {
      RemoveSpacesOfBlank(s[1..]);
    }
  }

  /** Text without white space is its own space-free form. */
  lemma {:induction false} RemoveSpacesOfSolid(s: string)
    requires forall i :: 0 <= i < |s| ==> !IsSpace(s[i])
    ensures RemoveSpaces(s) == s
    decreases |s|
  {
    if s != [] {
      RemoveSpacesOfSolid(s[1..]);
    }
  }

  lemma {:induction false} RemoveSpacesOfCollapse(s: string)
    ensures RemoveSpaces(CollapseSpaces(s)) == RemoveSpaces(s)
    decreases |s|
  {
    if s != [] {
      if IsSpace(s[0]) {
        var n := SpaceRun(s);
        RemoveSpacesOfCollapse(s[n..]);
        assert CollapseSpaces(s) == [' '] + CollapseSpaces(s[n..]);
        RemoveSpacesAppend([' '], CollapseSpaces(s[n..]));
        SpaceRunBlank(s);
        RemoveSpacesOfBlank(s[..n]);
        assert s == s[..n] + s[n..];
        RemoveSpacesAppend(s[..n], s[n..]);
      } else {
        RemoveSpacesOfCollapse(s[1..]);
      }
    }
  }

  lemma {:induction false} SpaceRunBlank(s: string)
    ensures IsBlank(s[..SpaceRun(s)])
    decreases |s|
  {
    if s != [] && IsSpace(s[0]) {
      SpaceRunBlank(s[1..]);
      assert s[..SpaceRun(s)] == [s[0]] + s[1..][..SpaceRun(s[1..])];
    }
  }

  lemma RemoveSpacesOfTrim(s: string)
    ensures RemoveSpaces(Trim(s)) == RemoveSpaces(s)
  {
    RemoveSpacesOfTrimStart(s);
    RemoveSpacesOfTrimEnd(TrimStart(s));
  }

  lemma {:induction false} RemoveSpacesOfTrimStart(s: string)
    ensures RemoveSpaces(TrimStart(s)) == RemoveSpaces(s)
    decreases |s|
  {
    if s != [] && IsSpace(s[0]) {
      RemoveSpacesOfTrimStart(s[1..]);
    }
  }

  lemma RemoveSpacesOfTrimEnd(t: string)
    ensures RemoveSpaces(TrimEnd(t)) == RemoveSpaces(t)
  {
    TrimEndDrops(t);
    var u := TrimEnd(t);
    assert t == u + t[|u|..];
    assert IsBlank(t[|u|..]);
    RemoveSpacesOfBlank(t[|u|..]);
    RemoveSpacesAppend(u, t[|u|..]);
  }

  /** Compressing white space before removing it changes nothing. */
  lemma RemoveSpacesOfClean(s: string)
    ensures RemoveSpaces(Clean(s)) == RemoveSpaces(s)
  {
    RemoveSpacesOfTrim(CollapseSpaces(s));
    RemoveSpacesOfCollapse(s);
  }

  /** `normalizeMouldNo`: white space compressed, then removed. */
  function NormalizeMouldNo(s: string): (r: string)
  {
    RemoveSpaces(Clean(s))
  }

  /** `normalizeSealNo`: white space compressed and removed, hyphen variants made `-`. */
  function NormalizeSealNo(s: string): (r: string)
  {
    Dehyphen(RemoveSpaces(Clean(s)))
  }

  /** A mould number is normalised to the text without any white space. */
  lemma NormalizeMouldNoMeaning(s: string)
    ensures NormalizeMouldNo(s) == RemoveSpaces(s)
    ensures forall i :: 0 <= i < |NormalizeMouldNo(s)| ==> !IsSpace(NormalizeMouldNo(s)[i])
  {
    RemoveSpacesOfClean(s);
  }

  /** A seal number is normalised to the text without white space and with every hyphen
      variant made `-`. */
  lemma NormalizeSealNoMeaning(s: string)
    ensures NormalizeSealNo(s) == Dehyphen(RemoveSpaces(s))
    ensures forall i :: 0 <= i < |NormalizeSealNo(s)| ==>
      !IsSpace(NormalizeSealNo(s)[i]) && (IsHyphen(NormalizeSealNo(s)[i]) ==> NormalizeSealNo(s)[i] == '-')
  {
    RemoveSpacesOfClean(s);
    DehyphenMeaning(RemoveSpaces(s));
  }

  // ---------------------------------------------------------------- dates

  /** `(\d{4})\s*[-/.]\s*(\d{1,2})\s*[-/.]\s*(\d{1,2})` at `i`. */
  predicate LooseDateAt(s: string, i: nat)
  {
    DatePartsAt(s, i, DashSlashDot, DashSlashDot, true).Some?
  }

  /** `(\d{4})\s*年\s*(\d{1,2})\s*月\s*(\d{1,2})` at `i` (the optional `日` after it changes
      no group). */
  predicate CnDateAt(s: string, i: nat)
  {
    DatePartsAt(s, i, YearMark, MonthMark, true).Some?
  }

  /** The groups of a date match rejoined as `YYYY-MM-DD`, month and day padded. */
  function PaddedDate(s: string, i: nat, sep1: Sep, sep2: Sep): (r: string)
    requires DatePartsAt(s, i, sep1, sep2, true).Some?
    ensures IsIsoDate(r)
  {
    DatePartsShape(s, i, sep1, sep2, true);
    JoinDate(DatePartsAt(s, i, sep1, sep2, true).value)
  }

  /** `tryParseDate`: the first strict `YYYY-MM-DD`; else the first date written with `-`, `/`
      or `.`; else the first date written with 年 and 月; "" when there is none. */
  function TryParseDate(s: string): (r: string)
    ensures r == "" || IsIsoDate(r)
  {
    var strict := StrictDate(s);
    if strict.Some? then strict.value
    else
      var loose := FirstFrom(s, 0, LooseDateAt);
      if loose.Some? then
        assert LooseDateAt(s, loose.value);
        PaddedDate(s, loose.value, DashSlashDot, DashSlashDot)
      else
        var cn := FirstFrom(s, 0, CnDateAt);
        if cn.Some? then
          assert CnDateAt(s, cn.value);
          PaddedDate(s, cn.value, YearMark, MonthMark)
        else ""
  }

  /** The parse fails exactly when none of the three forms occurs anywhere. */
  lemma TryParseDateMeaning(s: string)
    ensures TryParseDate(s) == "" <==>
      forall i :: 0 <= i <= |s| ==> !StrictDateAt(s, i) && !LooseDateAt(s, i) && !CnDateAt(s, i)
  {
    var strict := FirstFrom(s, 0, StrictDateAt);
    if strict.Some? {
      assert StrictDateAt(s, strict.value);
    } else {
      var loose := FirstFrom(s, 0, LooseDateAt);
      if loose.Some? {
        assert LooseDateAt(s, loose.value);
      } else {
        var cn := FirstFrom(s, 0, CnDateAt);
        if cn.Some? {
          assert CnDateAt(s, cn.value);
        }
      }
    }
  }

  /** A date already in `YYYY-MM-DD` form comes back unchanged. */
  lemma IsoDateKept(s: string)
    requires IsIsoDate(s)
    ensures TryParseDate(s) == s
  {
    assert StrictDateAt(s, 0);
    assert s[0..10] == s;
  }

  /** No strict date fits in fewer than ten characters. */
  lemma NoStrictInShort(s: string)
    requires |s| < 10
    ensures FirstFrom(s, 0, StrictDateAt).None?
  {
    forall j | 0 <= j <= |s| ensures !StrictDateAt(s, j) { }
  }

  /** A date written with slashes is rejoined with `-` and padded to two-digit month and
      day. */
  lemma LooseDateExample(a: string)
    requires a == "2024/3/5"
    ensures TryParseDate(a) == "2024-03-05"
  {
    NoStrictInShort(a);
    LooseDateGroups(a);
    assert FirstFrom(a, 0, LooseDateAt) == Some(0);
    assert DatePartsAt(a, 0, DashSlashDot, DashSlashDot, true).value == DateParts("2024", "3", "5", 8);
  }

  lemma LooseDateGroups(a: string)
    requires a == "2024/3/5"
    ensures DigitsFrom(a, 0) >= 4
    ensures GroupAfter(a, 4, DashSlashDot, true) == Some((5, 1)) && GroupAfter(a, 6, DashSlashDot, true) == Some((7, 1))
  {
    assert forall k :: 0 <= k < 4 ==> IsDigit(a[k]);
    assert !IsDigit(a[4]);
    assert DigitsFrom(a, 5) == 1;
    assert DigitsFrom(a, 7) == 1;
  }


  /** A date written with 年 and 月 is rejoined the same way. */
  lemma CnDateExample(b: string)
    requires b == "2024年3月5日"
    ensures TryParseDate(b) == "2024-03-05"
  {
    NoStrictInShort(b);
    CnDateNotLoose(b);
    CnDateGroups(b);
    assert FirstFrom(b, 0, CnDateAt) == Some(0);
    assert DatePartsAt(b, 0, YearMark, MonthMark, true).value == DateParts("2024", "3", "5", 8);
  }

  /** 年 is not one of the separators of the dotted form, so that form is not found. */
  lemma CnDateNotLoose(b: string)
    requires b == "2024年3月5日"
    ensures FirstFrom(b, 0, LooseDateAt).None?
  {
    CnDateNoYearSep(b);
    forall j | 0 <= j <= |b| ensures !LooseDateAt(b, j) {
      if 0 < j {
        CnDateShortRuns(b, j);
      }
    }
  }

  lemma CnDateNoYearSep(b: string)
    requires b == "2024年3月5日"
    ensures !LooseDateAt(b, 0)
  {
    assert GroupAfter(b, 4, DashSlashDot, true).None?;
  }

  /** After the first character no run of four digits starts. */
  lemma CnDateShortRuns(b: string, j: nat)
    requires b == "2024年3月5日" && 0 < j <= |b|
    ensures DigitsFrom(b, j) < 4
  {
    assert !IsDigit(b[4]) && !IsDigit(b[6]) && !IsDigit(b[8]);
  }

  lemma CnDateGroups(b: string)
    requires b == "2024年3月5日"
    ensures DigitsFrom(b, 0) >= 4
    ensures GroupAfter(b, 4, YearMark, true) == Some((5, 1)) && GroupAfter(b, 6, MonthMark, true) == Some((7, 1))
  {
    assert forall k :: 0 <= k < 4 ==> IsDigit(b[k]);
    assert !IsDigit(b[4]);
    assert DigitsFrom(b, 5) == 1;
    assert DigitsFrom(b, 7) == 1;
  }

  // ---------------------------------------------------------------- table header

  const PartKey: string := "零件图号"
  const NameKey: string := "模具名称"
  const MouldNoKey: string := "模具编号"
  const FactoryKey: string := "模具厂家"
  const MoveToKeys: seq<string> := ["移至地方", "移至地点"]
  const SealKeys: seq<string> := ["封样单号", "封样号"]

  /** `includesAny`. */
  predicate IncludesAny(s: string, keys: seq<string>)
  {
    exists k :: k in keys && Contains(s, k)
  }

  /** Length of the run of `#` that `s` starts with. */
  function HashRun(s: string): (n: nat)
    ensures n <= |s|
  {
    if s != [] && s[0] == '#' then 1 + HashRun(s[1..]) else 0
  }

  /** `compactLine`: white space removed, leading `#` dropped, colons removed. */
  function CompactLine(line: string): string
  {
    var t := RemoveSpaces(line);
    RemoveChar(RemoveChar(t[HashRun(t)..], '\U{FF1A}'), ':')
  }

  /** `isTableHeaderCompact`: the compact line names all six columns, either spelling of the
      destination and of the seal number. */
  predicate IsTableHeaderCompact(c: string)
  {
    Contains(c, PartKey) && Contains(c, NameKey) && Contains(c, MouldNoKey) && Contains(c, FactoryKey)
    && IncludesAny(c, MoveToKeys) && IncludesAny(c, SealKeys)
  }

  predicate IsHeaderLine(line: string)
  {
    IsTableHeaderCompact(CompactLine(line))
  }

  predicate MentionsPartKey(line: string)
  {
    Contains(CompactLine(line), PartKey)
  }

  /** `isHeaderLabelLine`: a whole header line, a line that is one column label, or a short
      line naming the destination or the seal number column. */
  predicate IsHeaderLabelLine(line: string)
  {
    var c := CompactLine(line);
    c != "" &&
    (IsTableHeaderCompact(c) || c == PartKey || c == NameKey || c == MouldNoKey || c == FactoryKey
     || (IncludesAny(c, MoveToKeys) && |c| <= 6) || (IncludesAny(c, SealKeys) && |c| <= 6))
  }

  /** Length of the run of `[#\s]` that `s` starts with. */
  function HashSpaceRun(s: string): (n: nat)
    ensures n <= |s|
  {
    if s != [] && (s[0] == '#' || IsSpace(s[0])) then 1 + HashSpaceRun(s[1..]) else 0
  }

  /** `stripHeaderTokens`: the labels and colons of a header line replaced by spaces, and the
      rest compressed; what the header line holds besides its labels. */
  function StripHeaderTokens(line: string): string
  {
    var s := line[HashSpaceRun(line)..];
    var s := ReplaceAll(ReplaceAll(ReplaceAll(ReplaceAll(s, PartKey, " "), NameKey, " "), MouldNoKey, " "), FactoryKey, " ");
    var s := ReplaceAll(ReplaceAll(s, MoveToKeys[0], " "), MoveToKeys[1], " ");
    var s := ReplaceAll(ReplaceAll(s, SealKeys[0], " "), SealKeys[1], " ");
    Clean(ReplaceChar(ReplaceChar(s, '\U{FF1A}', ' '), ':', ' '))
  }

  /** The first line at or after `from` that satisfies `p`. */
  function FirstWhere(lines: seq<string>, from: nat, p: string -> bool): (r: Option<nat>)
    requires from <= |lines|
    ensures r.Some? ==> from <= r.value < |lines| && p(lines[r.value])
    ensures r.Some? ==> forall j :: from <= j < r.value ==> !p(lines[j])
    ensures r.None? ==> forall j :: from <= j < |lines| ==> !p(lines[j])
    decreases |lines| - from
  {
    if from == |lines| then None
    else if p(lines[from]) then Some(from)
    else FirstWhere(lines, from + 1, p)
  }

  /** Where the detail table starts, and what the header line holds besides its labels. */
  datatype HeaderBlock = HeaderBlock(start: nat, tailLine: string)

  /** `findTableHeaderBlock`: the first line naming all six columns; else the first line that
      mentions 零件图号. */
  function FindTableHeaderBlock(lines: seq<string>): (r: Option<HeaderBlock>)
    ensures r.Some? ==> r.value.start < |lines|
  {
    var h := FirstWhere(lines, 0, IsHeaderLine);
    if h.Some? then Some(HeaderBlock(h.value, StripHeaderTokens(lines[h.value])))
    else
      var k := FirstWhere(lines, 0, MentionsPartKey);
      if k.Some? then Some(HeaderBlock(k.value, StripHeaderTokens(lines[k.value]))) else None
  }

  /** There is no header exactly when no line mentions 零件图号; a whole header line, when
      there is one, is the one taken, and otherwise the first line that mentions 零件图号. */
  lemma FindTableHeaderBlockMeaning(lines: seq<string>)
    ensures FindTableHeaderBlock(lines).None? <==> forall j :: 0 <= j < |lines| ==> !MentionsPartKey(lines[j])
    ensures (exists j :: 0 <= j < |lines| && IsHeaderLine(lines[j])) ==>
      var b := FindTableHeaderBlock(lines).value;
      IsHeaderLine(lines[b.start]) && forall j :: 0 <= j < b.start ==> !IsHeaderLine(lines[j])
    ensures (forall j :: 0 <= j < |lines| ==> !IsHeaderLine(lines[j])) && FindTableHeaderBlock(lines).Some? ==>
      var b := FindTableHeaderBlock(lines).value;
      MentionsPartKey(lines[b.start]) && forall j :: 0 <= j < b.start ==> !MentionsPartKey(lines[j])
  {
    var h := FirstWhere(lines, 0, IsHeaderLine);
    if h.Some? {
      assert MentionsPartKey(lines[h.value]);
    }
  }

  // ---------------------------------------------------------------- row line shapes

  /** Where `^\s*\d+(?:[.、]|\s)\s+` ends on `s`: a row number, then a full stop, an
      enumeration comma or a space, then at least one more space. */
  function NewRowEnd(s: string): (r: Option<nat>)
    ensures r.Some? ==> r.value <= |s|
  {
    var a := SkipSpaces(s, 0);
    var n := DigitsFrom(s, a);
    if n >= 1 && a + n + 1 < |s| && (s[a + n] == '.' || s[a + n] == '、' || IsSpace(s[a + n])) && IsSpace(s[a + n + 1])
    then Some(SkipSpaces(s, a + n + 1))
    else None
  }

  /** `isNewRowLine`. */
  predicate IsNewRowLine(s: string)
  {
    NewRowEnd(s).Some?
  }

  /** The digits of `^\s*(\d+)(?:[.、]|\s)\s+`. */
  function RowNumberDigits(s: string): (r: string)
    ensures AllDigits(r)
  {
    var a := SkipSpaces(s, 0);
    var n := DigitsFrom(s, a);
    DigitSlice(s, a, n);
    s[a..a + n]
  }

  /** `isIndexOnlyLine`: `^\s*(?:[□☐✓✔✅]?\s*)?(\d+)\s*(?:[.、])?\s*$`, a bare row number. */
  predicate IsIndexOnlyLine(s: string)
  {
    var a := SkipSpaces(s, 0);
    var b := if a < |s| && IsCheckbox(s[a]) then SkipSpaces(s, a + 1) else a;
    var n := DigitsFrom(s, b);
    var c := SkipSpaces(s, b + n);
    var d := if c < |s| && (s[c] == '.' || s[c] == '、') then c + 1 else c;
    n >= 1 && SkipSpaces(s, d) == |s|
  }

  /** `isCjkWord`: `^[一-龥]+$` on the trimmed text. */
  predicate IsCjk(c: char) { '\U{4E00}' <= c <= '\U{9FA5}' }

  predicate IsCjkWord(s: string)
  {
    var t := Trim(s);
    t != [] && forall i :: 0 <= i < |t| ==> IsCjk(t[i])
  }

  /** `/[一-龥]/.test(s)`. */
  predicate HasCjk(s: string)
  {
    exists i :: 0 <= i < |s| && IsCjk(s[i])
  }

  /** `isJunkLine`: the line holds one of the two private-use glyphs U+EDD9 and U+EDDA that
      some PDF fonts emit. */
  predicate IsJunkLine(s: string)
  {
    '\U{EDD9}' in s || '\U{EDDA}' in s
  }

  // ---------------------------------------------------------------- patterns

  /** `[A-Z0-9]`, and `[A-Za-z0-9]` under the `i` flag. */
  predicate IsCodeChar(c: char, anyCase: bool)
  {
    IsAsciiUpper(c) || IsDigit(c) || (anyCase && IsAsciiLower(c))
  }

  /** Length of the run of code characters that starts at `i`. */
  function CodeRun(s: string, i: nat, anyCase: bool): (n: nat)
    requires i <= |s|
    ensures i + n <= |s|
    ensures forall k :: i <= k < i + n ==> IsCodeChar(s[k], anyCase)
    ensures i + n < |s| ==> !IsCodeChar(s[i + n], anyCase)
    decreases |s| - i
  {
    if i < |s| && IsCodeChar(s[i], anyCase) then 1 + CodeRun(s, i + 1, anyCase) else 0
  }

  /** `\s*[-－—–‑−]\s*` from `i` (`\s*[-－—]\s*` when `narrow`): where it ends. Spaces are
      followed by a hyphen or by something the pattern goes on with, never by more spaces, so
      the greedy runs are final. */
  function HyphenGap(s: string, i: nat, narrow: bool): (r: Option<nat>)
    requires i <= |s|
    ensures r.Some? ==> i < r.value <= |s|
  {
    var a := SkipSpaces(s, i);
    if a < |s| && (if narrow then IsDash(s[a]) else IsHyphen(s[a])) then Some(SkipSpaces(s, a + 1)) else None
  }

  /** `(?:\s*[-－—–‑−]\s*|\s+)`: a hyphen with optional spaces, or spaces alone. */
  function SepEnd(s: string, i: nat): (r: Option<nat>)
    requires i <= |s|
    ensures r.Some? ==> i < r.value <= |s|
  {
    var h := HyphenGap(s, i, false);
    if h.Some? then h
    else
      var a := SkipSpaces(s, i);
      if a > i then Some(a) else None
  }

  /** Where the pieces of a seal number lie: the code at `code .. code + len`, the date at
      `date .. date + 8`, the serial number at `serial .. end`. */
  datatype SealSpan = SealSpan(code: nat, len: nat, date: nat, serial: nat, end: nat)

  /** `ML\s*H\s*[A-Z0-9]+\s*H\s*\d{8}\s*H\s*\d+` at `i`, the seal-number pattern with the
      white-space and digit classes it is meant to have. The code run stops at the first
      character that is not a capital or a digit, which the hyphen gap needs, and the serial
      digits are taken greedily. */
  function SealAt(s: string, i: nat): (r: Option<SealSpan>)
    ensures r.Some? ==> i + 2 < r.value.end <= |s| && ContainsAt(s, "ML", i)
  {
    if !ContainsAt(s, "ML", i) then None
    else
      var a := HyphenGap(s, i + 2, false);
      if a.None? then None
      else
        var n := CodeRun(s, a.value, false);
        if n == 0 then None
        else
          var b := HyphenGap(s, a.value + n, false);
          if b.None? || DigitsFrom(s, b.value) < 8 then None
          else
            var c := HyphenGap(s, b.value + 8, false);
            if c.None? then None
            else
              var m := DigitsFrom(s, c.value);
              if m == 0 then None else Some(SealSpan(a.value, n, b.value, c.value, c.value + m))
  }

  /** Where the seal pattern ends when it matches at `i`. */
  function SealEnd(s: string, i: nat): (r: Option<nat>)
    ensures r.Some? ==> i + 2 < r.value <= |s| && ContainsAt(s, "ML", i)
  {
    var p := SealAt(s, i);
    if p.None? then None else Some(p.value.end)
  }

  /** What a seal match holds: `ML`, a hyphen gap, the code, a hyphen gap, eight digits, a
      hyphen gap and the serial digits. */
  lemma SealAtShape(s: string, i: nat, p: SealSpan)
    requires SealAt(s, i) == Some(p)
    ensures i + 2 <= |s| && HyphenGap(s, i + 2, false) == Some(p.code)
    ensures p.len >= 1 && p.code + p.len <= |s| && forall k :: p.code <= k < p.code + p.len ==> IsCodeChar(s[k], false)
    ensures HyphenGap(s, p.code + p.len, false) == Some(p.date)
    ensures p.date + 8 <= |s| && forall k :: p.date <= k < p.date + 8 ==> IsDigit(s[k])
    ensures HyphenGap(s, p.date + 8, false) == Some(p.serial)
    ensures p.serial < p.end <= |s| && forall k :: p.serial <= k < p.end ==> IsDigit(s[k])
  {
  }

  /** Length of the run of the character `c` that starts at `i`. */
  function CharRun(s: string, i: nat, c: char): (n: nat)
    requires i <= |s|
    ensures i + n <= |s|
    decreases |s| - i
  {
    if i < |s| && s[i] == c then 1 + CharRun(s, i + 1, c) else 0
  }

  /** `\\` followed by `letter*`: what `\\s*` and `\\d…` compile to when written inside
      `String.raw`, a literal backslash and then letters. */
  function Escaped(s: string, i: nat, letter: char): (r: Option<nat>)
    requires i <= |s|
    ensures r.Some? ==> i < r.value <= |s| && s[i] == '\\'
  {
    if i < |s| && s[i] == '\\' then Some(i + 1 + CharRun(s, i + 1, letter)) else None
  }

  /** `SEAL_NO_RE` as it is compiled: `String.raw` keeps both backslashes of every `\\s` and
      `\\d`, so the pattern asks for a literal backslash and then letters `s` or `d` where white
      space and digits were meant: `ML\\s*H\\s*[A-Z0-9]+\\s*H\\s*\\d{8}\\s*H\\s*\\d+`. */
  function SealAsWrittenEnd(s: string, i: nat): (r: Option<nat>)
    ensures r.Some? ==> i + 3 <= r.value <= |s| && ContainsAt(s, "ML", i) && s[i + 2] == '\\'
  {
    if !ContainsAt(s, "ML", i) then None
    else
      var a := Escaped(s, i + 2, 's');
      if a.None? || !(a.value < |s| && IsHyphen(s[a.value])) then None
      else
        var b := Escaped(s, a.value + 1, 's');
        if b.None? then None
        else
          var n := CodeRun(s, b.value, false);
          var c := Escaped(s, b.value + n, 's');
          if n == 0 || c.None? || !(c.value < |s| && IsHyphen(s[c.value])) then None
          else
            var d := Escaped(s, c.value + 1, 's');
            if d.None? || !(d.value < |s| && s[d.value] == '\\' && CharRun(s, d.value + 1, 'd') >= 8) then None
            else
              var e := Escaped(s, d.value + 9, 's');
              if e.None? || !(e.value < |s| && IsHyphen(s[e.value])) then None
              else
                var f := Escaped(s, e.value + 1, 's');
                if f.None? || !(f.value < |s| && s[f.value] == '\\') then None
                else
                  var m := CharRun(s, f.value + 1, 'd');
                  if m == 0 then None else Some(f.value + 1 + m)
  }

  /** `(ML\s*\d+)` at `i`: where the mould number ends. */
  function MouldNoEnd(s: string, i: nat): (r: Option<nat>)
    ensures r.Some? ==> i + 2 < r.value <= |s| && ContainsAt(s, "ML", i)
  {
    if !ContainsAt(s, "ML", i) then None
    else
      var a := SkipSpaces(s, i + 2);
      var n := DigitsFrom(s, a);
      if n == 0 then None else Some(a + n)
  }

  /** `([A-Z]?\d[\w.]+)\.(?=\s|$)` at `i`: a part number cut off after a dot. The run of
      `[\w.]` is maximal, so the dot the pattern ends with is its last character, and only then
      can white space or the end follow. Returns where the match ends, one past that dot. */
  function DanglingEnd(s: string, i: nat): (r: Option<nat>)
    ensures r.Some? ==> i + 2 < r.value <= |s| && s[r.value - 1] == '.'
  {
    if i >= |s| then None
    else
      var j := LeadEnd(s, i, OptionalUpper);
      if j.None? || !(j.value < |s| && IsDigit(s[j.value])) then None
      else
        var run := WordDotRun(s, j.value + 1);
        var k := j.value + run;
        if run >= 2 && s[k] == '.' && (k + 1 == |s| || IsSpace(s[k + 1])) then Some(k + 1) else None
  }

  /** `ML\s*[-－—]\s*[A-Z0-9]+\s*[-－—]\s*\d{6,8}\s*[-－—]\s*\d+` under the `i` flag, the seal-like
      fragments the name clean-up removes. `\d{6,8}` can only settle on the whole digit run,
      since a digit after it leaves no hyphen to match. */
  function SealLikeEnd(s: string, i: nat): (r: Option<nat>)
    ensures r.Some? ==> i + 2 < r.value <= |s|
  {
    if !(i + 2 <= |s| && ToLowerChar(s[i]) == 'm' && ToLowerChar(s[i + 1]) == 'l') then None
    else
      var a := HyphenGap(s, i + 2, true);
      if a.None? then None
      else
        var n := CodeRun(s, a.value, true);
        var b := HyphenGap(s, a.value + n, true);
        if n == 0 || b.None? then None
        else
          var d := DigitsFrom(s, b.value);
          if d < 6 || d > 8 then None
          else
            var c := HyphenGap(s, b.value + d, true);
            if c.None? then None
            else
              var m := DigitsFrom(s, c.value);
              if m == 0 then None else Some(c.value + m)
  }

  /** `\b\d{2}\s*[-－—]\s*\d+\b`: a two-digit number, a dash and a number. */
  function DashNumberEnd(s: string, i: nat): (r: Option<nat>)
    ensures r.Some? ==> i + 2 < r.value <= |s|
  {
    if !(i <= |s| && Boundary(s, i) && DigitsFrom(s, i) >= 2) then None
    else
      var h := HyphenGap(s, i + 2, true);
      if h.None? then None
      else
        var m := DigitsFrom(s, h.value);
        if m >= 1 && Boundary(s, h.value + m) then Some(h.value + m) else None
  }

  /** `\s+(\d+)\s+`: a number standing alone between spaces. */
  function SpacedNumberEnd(s: string, i: nat): (r: Option<nat>)
    ensures r.Some? ==> i < r.value <= |s|
  {
    if i > |s| then None
    else
      var a := SkipSpaces(s, i);
      var n := DigitsFrom(s, a);
      var b := SkipSpaces(s, a + n);
      if a > i && n >= 1 && b > a + n then Some(b) else None
  }

  /** The three spellings of a seal number split by the PDF extraction. */
  datatype SplitKind =
    | DaySplit      // `(ML)sep([A-Z0-9]+)sep(\d{6})\s*(\d{2})sep(\d+)`
    | HyphensLost   // `\bML sep ([A-Z0-9]+) sep (\d{6})\s*(\d{2}) sep (\d{6,})\b`
    | SerialSplit   // `\bML sep ([A-Z0-9]+) sep (\d{8})\s+(\d{5,})\b`

  /** The groups of a split seal number: the code, the first six and the last two digits of
      the date, the serial number, and where the match ends. */
  datatype SealGroups = SealGroups(code: string, ym: string, dd: string, serial: string, end: nat)

  /** A split seal number of the given kind at `i`. */
  function SplitSealAt(s: string, i: nat, kind: SplitKind): (r: Option<SealGroups>)
    ensures r.Some? ==> i + 2 < r.value.end <= |s|
  {
    if !ContainsAt(s, "ML", i) || (kind != DaySplit && !Boundary(s, i)) then None
    else
      var a := SepEnd(s, i + 2);
      if a.None? then None else CodeGroups(s, a.value, kind)
  }

  /** The groups of a seal number whose code starts at `a`, after its `ML` and separator. */
  function CodeGroups(s: string, a: nat, kind: SplitKind): (r: Option<SealGroups>)
    requires a <= |s|
    ensures r.Some? ==> a < r.value.end <= |s|
  {
    var n := CodeRun(s, a, false);
    var b := SepEnd(s, a + n);
    if n == 0 || b.None? || DigitsFrom(s, b.value) < (if kind == SerialSplit then 8 else 6) then None
    else
      var code := s[a..a + n];
      if kind == SerialSplit then SerialGroups(s, code, b.value)
      else DateGroups(s, code, b.value, kind)
  }

  /** The groups of a seal number once a code of capitals and digits is matched: an
      `\s+(\d{5,})\b` serial after the eight digits of the date at `b`. */
  function SerialGroups(s: string, code: string, b: nat): (r: Option<SealGroups>)
    requires b + 8 <= |s|
    ensures r.Some? ==> b + 8 < r.value.end <= |s|
  {
    var c := SkipSpaces(s, b + 8);
    var m := DigitsFrom(s, c);
    if c == b + 8 || m < 5 || !Boundary(s, c + m) then None
    else Some(SealGroups(code, s[b..b + 6], s[b + 6..b + 8], s[c..c + m], c + m))
  }

  /** The groups of a seal number once a code of capitals and digits is matched: the six
      digits at `b`, two more after optional spaces, a separator, and the serial (six digits
      or more ending at a word boundary for `HyphensLost`, any digits for `DaySplit`). */
  function DateGroups(s: string, code: string, b: nat, kind: SplitKind): (r: Option<SealGroups>)
    requires b + 6 <= |s|
    ensures r.Some? ==> b + 6 < r.value.end <= |s|
  {
    var d := SkipSpaces(s, b + 6);
    if DigitsFrom(s, d) < 2 then None
    else
      var e := SepEnd(s, d + 2);
      if e.None? then None else DaySerial(s, code, b, d, e.value, kind)
  }

  /** The serial number at `e` that ends a seal number whose day digits are at `d`. */
  function DaySerial(s: string, code: string, b: nat, d: nat, e: nat, kind: SplitKind): (r: Option<SealGroups>)
    requires b + 6 <= d && d + 2 < e <= |s|
    ensures r.Some? ==> b + 6 < r.value.end <= |s|
  {
    var m := DigitsFrom(s, e);
    if m < (if kind == HyphensLost then 6 else 1) || (kind == HyphensLost && !Boundary(s, e + m)) then None
    else Some(SealGroups(code, s[b..b + 6], s[d..d + 2], s[e..e + m], e + m))
  }

  /** The groups a split seal number is rebuilt from: a code of capitals and digits, six and
      two digits of the date, and a serial number of digits. */
  predicate GroupsShaped(g: SealGroups)
  {
    g.code != [] && AllCode(g.code)
    && |g.ym| == 6 && AllDigits(g.ym) && |g.dd| == 2 && AllDigits(g.dd)
    && g.serial != [] && AllDigits(g.serial)
  }

  /** The groups of a split spelling: a code of capitals and digits, six and two digits of
      the date, and a serial number of digits. */
  lemma SplitGroupsShape(s: string, i: nat, kind: SplitKind)
    requires SplitSealAt(s, i, kind).Some?
    ensures GroupsShaped(SplitSealAt(s, i, kind).value)
  {
    var a := SepEnd(s, i + 2).value;
    assert SplitSealAt(s, i, kind) == CodeGroups(s, a, kind);
    CodeGroupsShape(s, a, kind);
  }

  lemma CodeGroupsShape(s: string, a: nat, kind: SplitKind)
    requires a <= |s| && CodeGroups(s, a, kind).Some?
    ensures GroupsShaped(CodeGroups(s, a, kind).value)
  {
    var n := CodeRun(s, a, false);
    var b := SepEnd(s, a + n).value;
    var code := s[a..a + n];
    CodeSlice(s, a, n);
    if kind == SerialSplit {
      assert CodeGroups(s, a, kind) == SerialGroups(s, code, b);
      SerialGroupsShape(s, code, b);
    } else {
      assert CodeGroups(s, a, kind) == DateGroups(s, code, b, kind);
      DateGroupsShape(s, code, b, kind);
    }
  }

  lemma SerialGroupsShape(s: string, code: string, b: nat)
    requires b + 8 <= |s| && DigitsFrom(s, b) >= 8
    requires code != [] && AllCode(code)
    requires SerialGroups(s, code, b).Some?
    ensures GroupsShaped(SerialGroups(s, code, b).value)
  {
    var c := SkipSpaces(s, b + 8);
    MadeGroupsShaped(s, code, b, b + 6, c, DigitsFrom(s, c));
  }

  lemma DateGroupsShape(s: string, code: string, b: nat, kind: SplitKind)
    requires b + 6 <= |s| && DigitsFrom(s, b) >= 6
    requires code != [] && AllCode(code)
    requires DateGroups(s, code, b, kind).Some?
    ensures GroupsShaped(DateGroups(s, code, b, kind).value)
  {
    var d := SkipSpaces(s, b + 6);
    var e := SepEnd(s, d + 2).value;
    assert DateGroups(s, code, b, kind) == DaySerial(s, code, b, d, e, kind);
    MadeGroupsShaped(s, code, b, d, e, DigitsFrom(s, e));
  }

  lemma MadeGroupsShaped(s: string, code: string, b: nat, d: nat, e: nat, m: nat)
    requires b + 6 <= |s| && DigitsFrom(s, b) >= 6
    requires d + 2 <= |s| && DigitsFrom(s, d) >= 2
    requires e + m <= |s| && DigitsFrom(s, e) >= m >= 1
    requires code != [] && AllCode(code)
    ensures GroupsShaped(SealGroups(code, s[b..b + 6], s[d..d + 2], s[e..e + m], e + m))
  {
    DigitSlice(s, b, 6);
    DigitSlice(s, d, 2);
    DigitSlice(s, e, m);
  }

  lemma DigitSlice(s: string, lo: nat, n: nat)
    requires lo + n <= |s| && DigitsFrom(s, lo) >= n
    ensures AllDigits(s[lo..lo + n])
  {
    var t := s[lo..lo + n];
    forall k | 0 <= k < |t| ensures IsDigit(t[k]) {
      assert t[k] == s[lo + k];
    }
  }

  /** A code of capitals and digits. */
  predicate AllCode(t: string)
  {
    forall k :: 0 <= k < |t| ==> IsCodeChar(t[k], false)
  }

  lemma CodeSlice(s: string, lo: nat, n: nat)
    requires lo + n <= |s| && CodeRun(s, lo, false) >= n
    ensures AllCode(s[lo..lo + n])
  {
    var t := s[lo..lo + n];
    forall k | 0 <= k < |t| ensures IsCodeChar(t[k], false) {
      assert t[k] == s[lo + k];
    }
  }

  /** The patterns of the parser. */
  datatype Pattern =
    | Seal
    | SealAsWritten
    | MouldNo
    | Part(lead: Lead)
    | Dangling
    | SealLike
    | DashNumber
    | SpacedNumber
    | SplitSeal(kind: SplitKind)

  /** Where pattern `p` ends when it matches at `i`. Every pattern takes at least one
      character. */
  function MatchEnd(p: Pattern, s: string, i: nat): (r: Option<nat>)
    ensures r.Some? ==> i < r.value <= |s|
  {
    match p
    case Seal => SealEnd(s, i)
    case SealAsWritten => SealAsWrittenEnd(s, i)
    case MouldNo => MouldNoEnd(s, i)
    case Part(lead) => PartEnd(s, i, lead, true)
    case Dangling => DanglingEnd(s, i)
    case SealLike => SealLikeEnd(s, i)
    case DashNumber => DashNumberEnd(s, i)
    case SpacedNumber => SpacedNumberEnd(s, i)
    case SplitSeal(kind) =>
      var g := SplitSealAt(s, i, kind);
      if g.Some? then Some(g.value.end) else None
  }

  /** The leftmost match of `p` at or after `from`, as its start and end. */
  function First(p: Pattern, s: string, from: nat): (r: Option<(nat, nat)>)
    ensures r.Some? ==> from <= r.value.0 < r.value.1 <= |s| && MatchEnd(p, s, r.value.0) == Some(r.value.1)
    ensures r.Some? ==> forall j :: from <= j < r.value.0 ==> MatchEnd(p, s, j).None?
    ensures r.None? ==> forall j :: from <= j <= |s| ==> MatchEnd(p, s, j).None?
    decreases |s| + 1 - from
  {
    if from > |s| then None
    else
      var e := MatchEnd(p, s, from);
      if e.Some? then Some((from, e.value)) else First(p, s, from + 1)
  }

  /** `s.match(re)?.[1] ?? ''` for a pattern whose group is the whole match. */
  function FirstText(p: Pattern, s: string): (r: string)
    ensures r == "" <==> First(p, s, 0).None?
  {
    var m := First(p, s, 0);
    if m.None? then "" else s[m.value.0..m.value.1]
  }

  /** `s.replace(/re/g, ' ')` from `from` on: every match, left to right and each search
      starting where the last match ended, becomes one space. */
  function ReplaceEach(p: Pattern, s: string, from: nat): (r: string)
    requires from <= |s|
    decreases |s| - from
  {
    var m := First(p, s, from);
    if m.None? then s[from..] else s[from..m.value.0] + " " + ReplaceEach(p, s, m.value.1)
  }

  /** A text in which the pattern matches nowhere is left as it is. */
  lemma ReplaceEachNoMatch(p: Pattern, s: string)
    requires forall j :: 0 <= j <= |s| ==> MatchEnd(p, s, j).None?
    ensures ReplaceEach(p, s, 0) == s
  {
  }

  /** Every match of `p` from `from` on, as `matchAll` finds them. */
  function AllMatches(p: Pattern, s: string, from: nat): (ms: seq<(nat, nat)>)
    requires from <= |s|
    ensures forall k :: 0 <= k < |ms| ==> from <= ms[k].0 < ms[k].1 <= |s| && MatchEnd(p, s, ms[k].0) == Some(ms[k].1)
    decreases |s| - from
  {
    var m := First(p, s, from);
    if m.None? then [] else [m.value] + AllMatches(p, s, m.value.1)
  }

  // ---------------------------------------------------------------- the seal pattern

  /** The seal pattern as compiled can only match where a backslash follows `ML`; PDF text of
      a seal number has none, so no seal number is ever found by it. */
  lemma SealAsWrittenNeedsBackslash(s: string)
    requires '\\' !in s
    ensures First(SealAsWritten, s, 0).None?
  {
  }

  /** A seal number as it is printed on a notice is missed by the pattern as compiled. */
  lemma SealNumberMissed(s: string)
    requires s == "ML-FYJYD-20241105-1001642"
    ensures FirstText(SealAsWritten, s) == ""
  {
    assert forall k :: 0 <= k < |s| ==> s[k] != '\\';
    SealAsWrittenNeedsBackslash(s);
  }

  /** The pattern as meant finds the same seal number whole. */
  lemma SealNumberFound(s: string)
    requires s == "ML-FYJYD-20241105-1001642"
    ensures FirstText(Seal, s) == s
  {
    SealNumberGaps(s);
    SealNumberRuns(s);
    assert SealAt(s, 0) == Some(SealSpan(3, 5, 9, 18, 25));
    assert s[0..25] == s;
  }

  lemma SealNumberGaps(s: string)
    requires s == "ML-FYJYD-20241105-1001642"
    ensures ContainsAt(s, "ML", 0)
    ensures HyphenGap(s, 2, false) == Some(3) && HyphenGap(s, 8, false) == Some(9) && HyphenGap(s, 17, false) == Some(18)
  {
    assert s[0..2] == "ML";
  }

  lemma SealNumberRuns(s: string)
    requires s == "ML-FYJYD-20241105-1001642"
    ensures CodeRun(s, 3, false) == 5 && DigitsFrom(s, 9) >= 8 && DigitsFrom(s, 18) == 7
  {
    assert forall k :: 3 <= k < 8 ==> IsCodeChar(s[k], false);
    assert !IsCodeChar(s[8], false);
    assert forall k :: 9 <= k < 17 ==> IsDigit(s[k]);
    assert forall k :: 18 <= k < 25 ==> IsDigit(s[k]);
  }

  /** A seal number in the form the notices print: `ML-`, a code of capitals and digits, `-`,
      the eight-digit date, `-` and the serial number. */
  predicate IsSealText(t: string)
  {
    StartsWith(t, "ML-") &&
    var parts := Split(t[3..], '-');
    |parts| == 3 && parts[0] != [] && (forall k :: 0 <= k < |parts[0]| ==> IsCodeChar(parts[0][k], false))
    && |parts[1]| == 8 && AllDigits(parts[1]) && parts[2] != [] && AllDigits(parts[2])
  }

  /** The printed form from its three parts. */
  lemma SealTextOf(code: string, date: string, serial: string)
    requires code != [] && AllCode(code)
    requires |date| == 8 && AllDigits(date) && serial != [] && AllDigits(serial)
    ensures IsSealText(SealText(code, date, serial))
  {
    var t := "ML-" + code + "-" + date + "-" + serial;
    assert t[..3] == "ML-";
    assert Join([serial], "-") == serial;
    assert Join([date, serial], "-") == date + "-" + serial;
    assert t[3..] == Join([code, date, serial], "-");
    assert '-' !in code by { assert forall k :: 0 <= k < |code| ==> code[k] != '-'; }
    assert '-' !in date by { assert forall k :: 0 <= k < |date| ==> date[k] != '-'; }
    assert '-' !in serial by { assert forall k :: 0 <= k < |serial| ==> serial[k] != '-'; }
    SplitJoin([code, date, serial], '-');
  }

  /** White space dropped and hyphen variants made `-`, in one pass: the normal form of a seal
      number once `Clean` has run. */
  function Normal(t: string): string
  {
    if t == [] then []
    else (if IsSpace(t[0]) then [] else [if IsHyphen(t[0]) then '-' else t[0]]) + Normal(t[1..])
  }

  /** The one-pass form is the two replacements `normalizeSealNo` makes. */
  lemma {:induction false} NormalIsDehyphen(t: string)
    ensures Normal(t) == Dehyphen(RemoveSpaces(t))
    decreases |t|
  {
    if t != [] {
      NormalIsDehyphen(t[1..]);
      if !IsSpace(t[0]) {
        DehyphenAppend([t[0]], RemoveSpaces(t[1..]));
      }
    }
  }

  lemma {:induction false} NormalAppend(a: string, b: string)
    ensures Normal(a + b) == Normal(a) + Normal(b)
    decreases |a|
  {
    if a == [] {
      assert a + b == b;
    } else {
      assert (a + b)[0] == a[0];
      assert (a + b)[1..] == a[1..] + b;
      NormalAppend(a[1..], b);
    }
  }

  lemma NormalSplit(s: string, x: nat, y: nat, z: nat)
    requires x <= y <= z <= |s|
    ensures Normal(s[x..z]) == Normal(s[x..y]) + Normal(s[y..z])
  {
    assert s[x..z] == s[x..y] + s[y..z];
    NormalAppend(s[x..y], s[y..z]);
  }

  lemma {:induction false} NormalOfBlank(t: string)
    requires IsBlank(t)
    ensures Normal(t) == []
    decreases |t|
  {
    if t != [] {
      NormalOfBlank(t[1..]);
    }
  }

  /** Text without white space or hyphen variants is its own normal form. */
  lemma {:induction false} NormalOfPlain(t: string)
    requires forall k :: 0 <= k < |t| ==> !IsSpace(t[k]) && !IsHyphen(t[k])
    ensures Normal(t) == t
    decreases |t|
  {
    if t != [] {
      NormalOfPlain(t[1..]);
    }
  }

  lemma SkipSpacesBlank(s: string, i: nat)
    requires i <= |s|
    ensures IsBlank(s[i..SkipSpaces(s, i)])
    decreases |s| - i
  {
    if i < |s| && IsSpace(s[i]) {
      SkipSpacesBlank(s, i + 1);
      assert s[i..SkipSpaces(s, i)] == [s[i]] + s[i + 1..SkipSpaces(s, i)];
    }
  }

  /** The normal form of a spaced hyphen `\s*H\s*` is `-`. */
  lemma GapNormal(s: string, x: nat, y: nat)
    requires x <= |s| && HyphenGap(s, x, false) == Some(y)
    ensures Normal(s[x..y]) == "-"
  {
    var a := SkipSpaces(s, x);
    SkipSpacesBlank(s, x);
    SkipSpacesBlank(s, a + 1);
    NormalOfBlank(s[x..a]);
    NormalOfBlank(s[a + 1..y]);
    NormalSplit(s, x, a, y);
    NormalSplit(s, a, a + 1, y);
    assert s[a..a + 1] == [s[a]];
  }

  lemma PlainNormal(s: string, x: nat, y: nat)
    requires x <= y <= |s| && forall k :: x <= k < y ==> !IsSpace(s[k]) && !IsHyphen(s[k])
    ensures Normal(s[x..y]) == s[x..y]
  {
    var u := s[x..y];
    forall k | 0 <= k < |u| ensures !IsSpace(u[k]) && !IsHyphen(u[k]) {
      assert u[k] == s[x + k];
    }
    NormalOfPlain(u);
  }

  /** Three neighbouring pieces whose normal forms are known. */
  lemma Join3(s: string, x: nat, y: nat, z: nat, w: nat, a: string, b: string, c: string)
    requires x <= y <= z <= w <= |s|
    requires Normal(s[x..y]) == a && Normal(s[y..z]) == b && Normal(s[z..w]) == c
    ensures Normal(s[x..w]) == a + (b + c)
  {
    NormalSplit(s, x, y, w);
    NormalSplit(s, y, z, w);
  }

  /** The printed form of a seal number from its three parts. */
  function SealText(code: string, date: string, serial: string): string
  {
    "ML-" + code + "-" + date + "-" + serial
  }

  lemma SealTextNested(code: string, date: string, serial: string)
    ensures "ML" + ("-" + (code + ("-" + (date + ("-" + serial))))) == SealText(code, date, serial)
  {
  }

  /** The date, a hyphen gap and the serial number, normalised. */
  lemma DateSerialNormal(s: string, d: nat, sr: nat, e: nat)
    requires d + 8 <= sr <= e <= |s| && forall k :: d <= k < d + 8 ==> IsDigit(s[k])
    requires Normal(s[d + 8..sr]) == "-"
    requires forall k :: sr <= k < e ==> IsDigit(s[k])
    ensures Normal(s[d..e]) == s[d..d + 8] + ("-" + s[sr..e])
  {
    PlainNormal(s, d, d + 8);
    PlainNormal(s, sr, e);
    Join3(s, d, d + 8, sr, e, s[d..d + 8], "-", s[sr..e]);
  }

  /** The code, a hyphen gap and what follows, normalised. */
  lemma CodeNormal(s: string, c: nat, len: nat, d: nat, e: nat, t: string)
    requires c + len <= d <= e <= |s| && forall k :: c <= k < c + len ==> IsCodeChar(s[k], false)
    requires Normal(s[c + len..d]) == "-"
    requires Normal(s[d..e]) == t
    ensures Normal(s[c..e]) == s[c..c + len] + ("-" + t)
  {
    PlainNormal(s, c, c + len);
    Join3(s, c, c + len, d, e, s[c..c + len], "-", t);
  }

  /** `ML`, a hyphen gap and what follows, normalised. */
  lemma MlNormal(s: string, i: nat, c: nat, e: nat, u: string)
    requires ContainsAt(s, "ML", i) && i + 2 <= c <= e <= |s|
    requires Normal(s[i + 2..c]) == "-"
    requires Normal(s[c..e]) == u
    ensures Normal(s[i..e]) == "ML" + ("-" + u)
  {
    assert s[i..i + 2] == "ML";
    NormalOfPlain(s[i..i + 2]);
    Join3(s, i, i + 2, c, e, "ML", "-", u);
  }

  /** The normal form of the text a seal match covers, from its pieces. */
  lemma SealPiecesNormal(s: string, i: nat, p: SealSpan)
    requires ContainsAt(s, "ML", i) && i + 2 <= p.code <= p.code + p.len <= p.date <= p.date + 8 <= p.serial <= p.end <= |s|
    requires forall k :: p.code <= k < p.code + p.len ==> IsCodeChar(s[k], false)
    requires forall k :: p.date <= k < p.date + 8 ==> IsDigit(s[k])
    requires forall k :: p.serial <= k < p.end ==> IsDigit(s[k])
    requires Normal(s[i + 2..p.code]) == "-" && Normal(s[p.code + p.len..p.date]) == "-" && Normal(s[p.date + 8..p.serial]) == "-"
    ensures Normal(s[i..p.end]) == SealText(s[p.code..p.code + p.len], s[p.date..p.date + 8], s[p.serial..p.end])
  {
    var code, date, serial := s[p.code..p.code + p.len], s[p.date..p.date + 8], s[p.serial..p.end];
    DateSerialNormal(s, p.date, p.serial, p.end);
    CodeNormal(s, p.code, p.len, p.date, p.end, date + ("-" + serial));
    MlNormal(s, i, p.code, p.end, code + ("-" + (date + ("-" + serial))));
    SealTextNested(code, date, serial);
  }

  /** Each of the three hyphen gaps of a seal match normalises to `-`. */
  lemma SealGapsNormal(s: string, i: nat, p: SealSpan)
    requires i + 2 <= |s| && HyphenGap(s, i + 2, false) == Some(p.code)
    requires p.code + p.len <= |s| && HyphenGap(s, p.code + p.len, false) == Some(p.date)
    requires p.date + 8 <= |s| && HyphenGap(s, p.date + 8, false) == Some(p.serial)
    ensures Normal(s[i + 2..p.code]) == "-" && Normal(s[p.code + p.len..p.date]) == "-" && Normal(s[p.date + 8..p.serial]) == "-"
  {
    GapNormal(s, i + 2, p.code);
    GapNormal(s, p.code + p.len, p.date);
    GapNormal(s, p.date + 8, p.serial);
  }

  /** The three parts of a seal match have the shapes the printed form requires. */
  lemma SealPartsShape(s: string, p: SealSpan)
    requires p.len >= 1 && p.code + p.len <= |s| && forall k :: p.code <= k < p.code + p.len ==> IsCodeChar(s[k], false)
    requires p.date + 8 <= |s| && forall k :: p.date <= k < p.date + 8 ==> IsDigit(s[k])
    requires p.serial < p.end <= |s| && forall k :: p.serial <= k < p.end ==> IsDigit(s[k])
    ensures var code := s[p.code..p.code + p.len];
      code != [] && forall k :: 0 <= k < |code| ==> IsCodeChar(code[k], false)
    ensures AllDigits(s[p.date..p.date + 8]) && AllDigits(s[p.serial..p.end])
  {
    var code := s[p.code..p.code + p.len];
    forall k | 0 <= k < |code| ensures IsCodeChar(code[k], false) {
      assert code[k] == s[p.code + k];
    }
    DigitSlice(s, p.date, 8);
    DigitSlice(s, p.serial, p.end - p.serial);
  }

  /** Every seal number the pattern as meant finds normalises to the printed form
      `ML-CODE-YYYYMMDD-NNN`, whatever hyphen variants and spaces the PDF text had. */
  lemma SealNormalized(s: string, i: nat)
    requires SealEnd(s, i).Some?
    ensures IsSealText(NormalizeSealNo(s[i..SealEnd(s, i).value]))
  {
    var p := SealAt(s, i).value;
    SealAtShape(s, i, p);
    SealGapsNormal(s, i, p);
    SealPiecesNormal(s, i, p);
    SealPartsShape(s, p);
    var t := s[i..p.end];
    NormalIsDehyphen(t);
    RemoveSpacesOfClean(t);
    SealTextOf(s[p.code..p.code + p.len], s[p.date..p.date + 8], s[p.serial..p.end]);
  }

  // ---------------------------------------------------------------- part numbers

  /** `extractPartNo`: in the compressed line, a `C` part number ending in a word character;
      else any `[A-Z]?\d…` word; else a part number the extraction cut off after a dot,
      without that dot; "" when there is none. */
  function ExtractPartNo(line: string): (r: string)
  {
    PartNoIn(Clean(line))
  }

  /** The three part-number patterns tried in turn on an already compressed line. */
  function PartNoIn(s: string): (r: string)
  {
    var c := First(Part(LeadC), s, 0);
    if c.Some? then s[c.value.0..c.value.1]
    else
      var l := First(Part(OptionalUpper), s, 0);
      if l.Some? then s[l.value.0..l.value.1]
      else
        var d := First(Dangling, s, 0);
        if d.Some? then s[d.value.0..d.value.1 - 1] else ""
  }

  /** A part number found is a piece of the compressed line that starts with a capital or a
      digit and is at least two characters long; "" exactly when none of the three patterns
      matches. */
  lemma ExtractPartNoShape(line: string)
    ensures var r := ExtractPartNo(line);
      (r == "" <==> First(Part(LeadC), Clean(line), 0).None? && First(Part(OptionalUpper), Clean(line), 0).None?
                     && First(Dangling, Clean(line), 0).None?)
      && (r != "" ==> |r| >= 2 && (IsAsciiUpper(r[0]) || IsDigit(r[0])) && Contains(Clean(line), r))
  {
    PartNoInShape(Clean(line));
  }

  lemma PartNoInShape(s: string)
    ensures var r := PartNoIn(s);
      (r == "" <==> First(Part(LeadC), s, 0).None? && First(Part(OptionalUpper), s, 0).None? && First(Dangling, s, 0).None?)
      && (r != "" ==> |r| >= 2 && (IsAsciiUpper(r[0]) || IsDigit(r[0])) && Contains(s, r))
  {
    var c := First(Part(LeadC), s, 0);
    var l := First(Part(OptionalUpper), s, 0);
    var d := First(Dangling, s, 0);
    if c.Some? {
      PartStart(s, c.value.0, LeadC);
      SliceContained(s, c.value.0, c.value.1);
    } else if l.Some? {
      PartStart(s, l.value.0, OptionalUpper);
      SliceContained(s, l.value.0, l.value.1);
    } else if d.Some? {
      SliceContained(s, d.value.0, d.value.1 - 1);
    }
  }

  lemma SliceContained(s: string, a: nat, b: nat)
    requires a <= b <= |s|
    ensures Contains(s, s[a..b])
  {
    assert ContainsAt(s, s[a..b], a);
  }

  lemma PartStart(s: string, i: nat, lead: Lead)
    requires PartEnd(s, i, lead, true).Some?
    ensures i + 2 <= PartEnd(s, i, lead, true).value && (IsAsciiUpper(s[i]) || IsDigit(s[i]))
  {
  }

  /** `/^ML\b/i`. */
  predicate StartsWithMl(s: string)
  {
    |s| >= 2 && ToLowerChar(s[0]) == 'm' && ToLowerChar(s[1]) == 'l' && !(|s| > 2 && IsWord(s[2]))
  }

  /** `/^\d{1,3}(?:\.\d{1,3})*$/`: dot-separated groups of one to three digits. */
  predicate IsSmallDotted(s: string)
  {
    var parts := Split(s, '.');
    forall k :: 0 <= k < |parts| ==> 1 <= |parts[k]| <= 3 && AllDigits(parts[k])
  }

  /** `/^\d{2}[-－—]\d+$/`. */
  predicate IsDayDashNumber(s: string)
  {
    |s| >= 4 && IsDigit(s[0]) && IsDigit(s[1]) && IsDash(s[2]) && AllDigits(s[3..])
  }

  /** `isLikelyPartNo`: at least five characters with a digit, and a letter or a dot, that do
      not read as a mould number, a row or section number, or a day-and-serial fragment. */
  predicate IsLikelyPartNo(v: string)
  {
    var s := Trim(v);
    s != "" && !StartsWithMl(s) && !IsSmallDotted(s) && !IsDayDashNumber(s) && |s| >= 5
    && (exists k :: 0 <= k < |s| && IsDigit(s[k]))
    && ((exists k :: 0 <= k < |s| && IsAsciiLetter(s[k])) || '.' in s)
  }

  /** `isPartNoSuffixToken`: `^\d+(?:\.\d+)+$` on the trimmed text, digit groups joined by
      dots, at least two of them. */
  predicate IsPartNoSuffixToken(s: string)
  {
    var parts := Split(Trim(s), '.');
    |parts| >= 2 && forall k :: 0 <= k < |parts| ==> parts[k] != [] && AllDigits(parts[k])
  }

  /** `isPartNoPrefixToken`: trimmed, it holds a letter and ends with a dot. */
  predicate IsPartNoPrefixToken(s: string)
  {
    var v := Trim(s);
    v != [] && (exists k :: 0 <= k < |v| && IsAsciiLetter(v[k])) && v[|v| - 1] == '.'
  }

  /** `joinSplitPartNo`. */
  function JoinSplitPartNo(prefix: string, suffix: string): string
  {
    RemoveSpaces(Trim(prefix) + Trim(suffix))
  }

  /** A split part number is joined as prefix then suffix with all white space removed. */
  lemma JoinSplitPartNoMeaning(prefix: string, suffix: string)
    ensures JoinSplitPartNo(prefix, suffix) == RemoveSpaces(prefix) + RemoveSpaces(suffix)
  {
    RemoveSpacesAppend(Trim(prefix), Trim(suffix));
    RemoveSpacesOfTrim(prefix);
    RemoveSpacesOfTrim(suffix);
  }

  /** A prefix token never reads as a suffix token: it ends with a dot where a suffix token
      ends with a digit. */
  lemma PrefixIsNoSuffix(s: string)
    requires IsPartNoPrefixToken(s)
    ensures !IsPartNoSuffixToken(s)
  {
    var v := Trim(s);
    JoinOfSplit(v, '.');
    var parts := Split(v, '.');
    if IsPartNoSuffixToken(s) {
      LastOfSplit(v, '.');
      LastSegmentOfDot(v);
      assert false;
    }
  }

  /** The last piece of a split on `.` of a text ending in `.` is empty. */
  lemma LastSegmentOfDot(v: string)
    requires v != [] && v[|v| - 1] == '.'
    ensures LastSegment(v, '.') == []
    decreases |v|
  {
    var k := FirstIndexOfChar(v, '.');
    if k < |v| - 1 {
      var t := v[k + 1..];
      assert t[|t| - 1] == '.';
      LastSegmentOfDot(t);
    }
  }
}
