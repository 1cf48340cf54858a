/** The mould-transfer notice parser under `src/utils/pdf`, the earlier of the two in the web
    front end. It checks the notice title, finds the move date and the table header, reads the
    detail rows line by line, and falls back to a pattern search over the whole table text when
    no row was read. */
module MouldTransferLegacy {
  import opened Common
  import opened MouldText

  const Title: string := "美菱移模通知单（外调）"

  const TitleError: string := "未识别到表头“美菱移模通知单（外调）”，无法判定为移模单。"
  const DateError: string := "未能从“模具移模时间”处提取日期（YYYY-MM-DD）。"
  const HeaderError: string := "未找到明细表表头（零件图号/模具名称/模具编号/模具厂家/移至地方/封样单号）。"
  const NoRowsError: string := "未解析到任何明细行。"

  // ---------------------------------------------------------------- dates

  /** `tryParseDate`: the first strict `YYYY-MM-DD`, else the first date written with `-` or
      `/` and optional spaces and exactly two-digit month and day, rejoined with `-`; else "". */
  function TryParseDate(s: string): (r: string)
    ensures r == "" || IsIsoDate(r)
  {
    var strict := StrictDate(s);
    if strict.Some? then strict.value
    else
      var i := FirstFrom(s, 0, SpacedDateAt);
      if i.None? then ""
      else
        assert SpacedDateAt(s, i.value);
        var p := DatePartsAt(s, i.value, DashSlash, DashSlash, false).value;
        DatePartsShape(s, i.value, DashSlash, DashSlash, false);
        assert p.year + "-" + p.month + "-" + p.day == JoinDate(p);
        p.year + "-" + p.month + "-" + p.day
  }

  /** The parse fails exactly when neither pattern matches anywhere. */
  lemma TryParseDateMeaning(s: string)
    ensures TryParseDate(s) == "" <==> forall i :: 0 <= i <= |s| ==> !StrictDateAt(s, i) && !SpacedDateAt(s, i)
  {
    var strict := FirstFrom(s, 0, StrictDateAt);
    if strict.Some? {
      assert StrictDateAt(s, strict.value);
    } else {
      var i := FirstFrom(s, 0, SpacedDateAt);
      if i.Some? {
        assert SpacedDateAt(s, i.value);
      }
    }
  }

  /** A date already in `YYYY-MM-DD` form comes back unchanged. */
  lemma IsoDateKept(s: string)
    requires IsIsoDate(s)
    ensures TryParseDate(s) == s
  {
    assert StrictDateAt(s, 0);
    assert s[0..10] == s;
  }

  // ---------------------------------------------------------------- line shapes

  /** `isTableHeader`: with white space removed, the line names all six columns. */
  predicate IsTableHeader(line: string)
  {
    var c := RemoveSpaces(line);
    Contains(c, "零件图号") && Contains(c, "模具名称") && Contains(c, "模具编号")
    && Contains(c, "模具厂家") && Contains(c, "移至地方") && Contains(c, "封样单号")
  }

  /** The first table-header line at or after `from`. */
  function HeaderLine(lines: seq<string>, from: nat): (r: Option<nat>)
    requires from <= |lines|
    ensures r.Some? ==> from <= r.value < |lines| && IsTableHeader(lines[r.value])
    ensures r.Some? ==> forall j :: from <= j < r.value ==> !IsTableHeader(lines[j])
    ensures r.None? ==> forall j :: from <= j < |lines| ==> !IsTableHeader(lines[j])
    decreases |lines| - from
  {
    if from == |lines| then None
    else if IsTableHeader(lines[from]) then Some(from)
    else HeaderLine(lines, from + 1)
  }

  /** Where `^\s*\d+\s+` ends on `s`. */
  function NewRowEnd(s: string): (r: Option<nat>)
    ensures r.Some? ==> r.value <= |s|
  {
    var a := SkipSpaces(s, 0);
    var n := DigitsFrom(s, a);
    if n >= 1 && a + n < |s| && IsSpace(s[a + n]) then Some(SkipSpaces(s, a + n)) else None
  }

  /** `isNewRowLine`: a row number followed by white space. */
  predicate IsNewRowLine(s: string)
  {
    NewRowEnd(s).Some?
  }

  /** The digits of `^\s*(\d+)\s+`. */
  function RowNumberDigits(s: string): (r: string)
    ensures AllDigits(r)
  {
    var a := SkipSpaces(s, 0);
    var n := DigitsFrom(s, a);
    DigitSlice(s, a, n);
    s[a..a + n]
  }

  /** `isIndexOnlyLine`: `^\s*(?:[□☐✓✔✅]?\s*)?(\d+)\s*$`, a bare row number. */
  predicate IsIndexOnlyLine(s: string)
  {
    var a := SkipSpaces(s, 0);
    var b := if a < |s| && IsCheckbox(s[a]) then SkipSpaces(s, a + 1) else a;
    var n := DigitsFrom(s, b);
    n >= 1 && SkipSpaces(s, b + n) == |s|
  }

  // ---------------------------------------------------------------- patterns

  predicate IsUpperOrDigit(c: char) { IsAsciiUpper(c) || IsDigit(c) }

  function UpperDigitRun(s: string, i: nat): (n: nat)
    requires i <= |s|
    ensures i + n <= |s|
    decreases |s| - i
  {
    if i < |s| && IsUpperOrDigit(s[i]) then 1 + UpperDigitRun(s, i + 1) else 0
  }

  /** `(ML-[A-Z0-9]+-\d{8}-\d+)` at `i`: where the match ends. */
  function SealEnd(s: string, i: nat): (r: Option<nat>)
    ensures r.Some? ==> i + 3 <= r.value <= |s| && ContainsAt(s, "ML-", i)
  {
    if !ContainsAt(s, "ML-", i) then None
    else
      var a := i + 3 + UpperDigitRun(s, i + 3);
      if a == i + 3 || !(a + 10 <= |s| && s[a] == '-' && DigitsFrom(s, a + 1) >= 8 && s[a + 9] == '-') then None
      else
        var n := DigitsFrom(s, a + 10);
        if n == 0 then None else Some(a + 10 + n)
  }

  /** The leftmost seal number at or after `from`, as its start and end. */
  function SealFrom(s: string, from: nat): (r: Option<(nat, nat)>)
    ensures r.Some? ==> from <= r.value.0 && r.value.0 + 3 <= r.value.1 <= |s| && ContainsAt(s, "ML-", r.value.0)
    decreases |s| + 1 - from
  {
    if from > |s| then None
    else
      var e := SealEnd(s, from);
      if e.Some? then Some((from, e.value)) else SealFrom(s, from + 1)
  }

  /** The first seal number in `s`, "" when there is none. */
  function FirstSeal(s: string): (r: string)
    ensures r == "" || StartsWith(r, "ML-")
  {
    var m := SealFrom(s, 0);
    if m.None? then ""
    else
      assert s[m.value.0..m.value.1][..3] == s[m.value.0..m.value.0 + 3];
      s[m.value.0..m.value.1]
  }

  /** `\b(ML\d+)\b` at `i`: the digit run must be whole, since a shorter one ends between two
      digits where there is no `\b`. */
  function MouldNoEnd(s: string, i: nat): (r: Option<nat>)
    ensures r.Some? ==> i + 2 < r.value <= |s| && ContainsAt(s, "ML", i)
  {
    if !(Boundary(s, i) && ContainsAt(s, "ML", i)) then None
    else
      var n := DigitsFrom(s, i + 2);
      if n >= 1 && Boundary(s, i + 2 + n) then Some(i + 2 + n) else None
  }

  /** The leftmost mould number at or after `from`, as its start and end. */
  function MouldNoFrom(s: string, from: nat): (r: Option<(nat, nat)>)
    ensures r.Some? ==> from <= r.value.0 && r.value.0 + 2 < r.value.1 <= |s| && ContainsAt(s, "ML", r.value.0)
    decreases |s| + 1 - from
  {
    if from > |s| then None
    else
      var e := MouldNoEnd(s, from);
      if e.Some? then Some((from, e.value)) else MouldNoFrom(s, from + 1)
  }

  /** The first mould number in `s`, "" when there is none. */
  function FirstMouldNo(s: string): (r: string)
    ensures r == "" || StartsWith(r, "ML")
  {
    var m := MouldNoFrom(s, 0);
    if m.None? then ""
    else
      assert s[m.value.0..m.value.1][..2] == s[m.value.0..m.value.0 + 2];
      s[m.value.0..m.value.1]
  }

  /** The leftmost match of `\b(<lead>\d[\w.]+)\b` at or after `from`, as its start and end. */
  function PartFrom(s: string, from: nat, lead: Lead): (r: Option<(nat, nat)>)
    ensures r.Some? ==> from <= r.value.0 < r.value.1 <= |s|
    decreases |s| + 1 - from
  {
    if from > |s| then None
    else
      var e := PartEnd(s, from, lead, false);
      if e.Some? then Some((from, e.value)) else PartFrom(s, from + 1, lead)
  }

  /** The first part number of the given lead in `s`, "" when there is none. */
  function FirstPart(s: string, lead: Lead): string
  {
    var m := PartFrom(s, 0, lead);
    if m.None? then "" else s[m.value.0..m.value.1]
  }

  /** `extractPartNo`: a `C` part number if there is one, else any `[A-Z]?\d[\w.]+` word. */
  function ExtractPartNo(line: string): string
  {
    var s := Clean(line);
    var c := FirstPart(s, LeadC);
    if c != "" then c else FirstPart(s, OptionalUpper)
  }

  // ---------------------------------------------------------------- columns

  /** `s.split(/\s{2,}/)`: cut at every run of two or more white-space characters. */
  function WideSplit(s: string): (r: seq<string>)
    decreases |s|
  {
    var p := FirstFrom(s, 0, WideGapAt);
    if p.None? then [s]
    else
      assert WideGapAt(s, p.value);
      [s[..p.value]] + WideSplit(s[SkipSpaces(s, p.value)..])
  }

  predicate WideGapAt(s: string, i: nat) { i + 1 < |s| && IsSpace(s[i]) && IsSpace(s[i + 1]) }

  /** `.` of a regular expression: anything but a line terminator. */
  predicate IsLineChar(c: char) { c != '\n' && c != '\r' && c != '\U{2028}' && c != '\U{2029}' }

  /** `splitColumns`: columns separated by two or more spaces, a leading `1 B22197.21.1.3`
      column split back into its row number and part number; a line with fewer than two such
      columns is split at every run of white space instead. */
  function SplitColumns(line: string): (r: seq<string>)
    ensures forall k :: 0 <= k < |r| ==> r[k] != []
  {
    var cols := NonEmpty(WideSplit(Trim(line)));
    if |cols| >= 2 then
      var c := cols[0];
      var n := DigitsFrom(c, 0);
      var a := SkipSpaces(c, n);
      if n >= 1 && a > n && a < |c| && !IsSpace(c[a]) && forall k :: a <= k < |c| ==> IsLineChar(c[k]) then
        [c[..n], c[a..]] + cols[1..]
      else cols
    else WsTokens(Trim(line))
  }

  // ---------------------------------------------------------------- one row from one line

  /** What is left of a line once the numbered patterns are taken out, as name, factory and
      destination. */
  datatype Residue = Residue(name: string, factory: string, moveTo: string)

  /** Three or more tokens: the last two are the factory and the destination and the rest is
      the name; two tokens: name and factory; otherwise the name only. */
  function Residual(tokens: seq<string>): Residue
  {
    var n := |tokens|;
    if n >= 3 then Residue(Join(tokens[..n - 2], " "), tokens[n - 2], tokens[n - 1])
    else if n == 2 then Residue(tokens[0], tokens[1], "")
    else if n == 1 then Residue(tokens[0], "", "")
    else Residue("", "", "")
  }

  predicate IsToken(t: string)
  {
    t != [] && forall j :: 0 <= j < |t| ==> !IsSpace(t[j])
  }

  lemma RunOfToken(t: string, rest: string)
    requires IsToken(t)
    ensures RunLength(t + rest, IsSpace) == |t| + RunLength(rest, IsSpace)
    decreases |t|
  {
    if |t| > 1 {
      assert (t + rest)[1..] == t[1..] + rest;
      RunOfToken(t[1..], rest);
    } else {
      assert (t + rest)[1..] == rest;
    }
  }

  lemma TokensOfToken(t: string)
    requires IsToken(t)
    ensures WsTokens(t) == [t]
  {
    RunOfToken(t, []);
    assert t + [] == t;
    assert RunLength(t, IsSpace) == |t|;
    assert t[..|t|] == t;
    assert t[|t|..] == [];
    assert Tokens(t, IsSpace) == [t[..|t|]] + Tokens(t[|t|..], IsSpace);
  }

  /** A token, one space, then more text: the token comes off first. */
  lemma TokensOfGlue(t: string, rest: string)
    requires IsToken(t)
    ensures WsTokens(t + (" " + rest)) == [t] + WsTokens(rest)
  {
    var gap := " " + rest;
    var s := t + gap;
    RunOfToken(t, gap);
    assert RunLength(gap, IsSpace) == 0 by { assert IsSpace(gap[0]); }
    assert s[..|t|] == t;
    assert s[|t|..] == gap;
    assert Tokens(s, IsSpace) == [t] + Tokens(gap, IsSpace) by { assert s[0] == t[0]; }
    assert gap[1..] == rest;
  }

  /** Joining tokens with single spaces and splitting again gives the tokens back. */
  lemma {:induction false} TokensOfJoin(ts: seq<string>)
    requires forall k :: 0 <= k < |ts| ==> IsToken(ts[k])
    ensures WsTokens(Join(ts, " ")) == ts
  {
    if |ts| == 1 {
      TokensOfToken(ts[0]);
    } else if |ts| > 1 {
      var rest := Join(ts[1..], " ");
      assert Join(ts, " ") == ts[0] + (" " + rest);
      TokensOfGlue(ts[0], rest);
      TokensOfJoin(ts[1..]);
      assert ts == [ts[0]] + ts[1..];
    }
  }

  /** No token is lost: the name's tokens, then the factory and the destination when set, are
      the tokens in their order. */
  lemma ResidualKeepsTokens(tokens: seq<string>)
    requires forall k :: 0 <= k < |tokens| ==> IsToken(tokens[k])
    ensures var r := Residual(tokens);
      WsTokens(r.name) + NonEmpty([r.factory, r.moveTo]) == tokens
  {
    var n := |tokens|;
    if n >= 3 {
      TokensOfJoin(tokens[..n - 2]);
      assert tokens == tokens[..n - 2] + [tokens[n - 2], tokens[n - 1]];
    } else if n == 2 {
      TokensOfToken(tokens[0]);
      assert tokens == [tokens[0], tokens[1]];
    } else if n == 1 {
      TokensOfToken(tokens[0]);
    }
  }

  /** `s.replace(/^\s*\d+\s+/, '')`. */
  function DropRowNumber(s: string): string
  {
    var e := NewRowEnd(s);
    if e.Some? then s[e.value..] else s
  }

  /** `s` with the first occurrence of a found value replaced by a space, then compressed. */
  function Without(s: string, found: string): string
  {
    if found != "" then Clean(ReplaceFirst(s, found, " ")) else s
  }

  /** `parseSingleLineRow`: the seal number, the mould number and the part number are taken out
      of the line in that order, and what is left is split into name, factory and destination. */
  function ParseSingleLineRow(index: int, line: string): (r: Row)
    ensures r.index == index
  {
    var s0 := DropRowNumber(Clean(StripCheckboxPrefix(line)));
    var seal := FirstSeal(s0);
    var s1 := Without(s0, seal);
    var mouldNo := FirstMouldNo(s1);
    var s2 := Without(s1, mouldNo);
    var partNo := ExtractPartNo(s2);
    var s3 := Without(s2, partNo);
    var rest := Residual(WsTokens(s3));
    Row(index, Clean(partNo), Clean(rest.name), Clean(mouldNo), Clean(rest.factory), Clean(rest.moveTo), Clean(seal))
  }

  /** The seal and mould numbers of a one-line row are the first ones on the line, so they
      carry their patterns' prefixes. */
  lemma SingleLineNumbers(index: int, line: string)
    ensures var r := ParseSingleLineRow(index, line);
      (r.sealSampleNo == "" || StartsWith(r.sealSampleNo, "ML-"))
      && (r.mouldNo == "" || StartsWith(r.mouldNo, "ML"))
  {
    var s0 := DropRowNumber(Clean(StripCheckboxPrefix(line)));
    var seal := FirstSeal(s0);
    var s1 := Without(s0, seal);
    CleanOfPattern(seal, "ML-");
    CleanOfPattern(FirstMouldNo(s1), "ML");
  }

  /** A value found by a pattern has no white space, so compressing it changes nothing. */
  lemma CleanOfPattern(v: string, prefix: string)
    requires v == "" || StartsWith(v, prefix)
    requires prefix != [] && forall k :: 0 <= k < |prefix| ==> !IsSpace(prefix[k])
    ensures Clean(v) == "" || StartsWith(Clean(v), prefix)
  {
    if v != "" {
      assert v[..|prefix|] == prefix;
      assert !IsSpace(v[0]) by { assert v[0] == prefix[0]; }
      CollapseKeepsPrefix(v, prefix);
      var c := CollapseSpaces(v);
      assert c[..|prefix|] == prefix;
      assert TrimStart(c) == c by { assert !IsSpace(c[0]) by { assert c[0] == prefix[0]; } }
      TrimEndDrops(c);
      TrimEndKeepsPrefix(c, prefix);
    }
  }

  lemma CollapseKeepsPrefix(v: string, prefix: string)
    requires StartsWith(v, prefix) && forall k :: 0 <= k < |prefix| ==> !IsSpace(prefix[k])
    ensures StartsWith(CollapseSpaces(v), prefix)
    decreases |prefix|
  {
    if prefix != [] {
      assert v[0] == prefix[0];
      assert CollapseSpaces(v) == [v[0]] + CollapseSpaces(v[1..]);
      assert v[1..][..|prefix| - 1] == prefix[1..];
      CollapseKeepsPrefix(v[1..], prefix[1..]);
    }
  }

  lemma TrimEndKeepsPrefix(c: string, prefix: string)
    requires StartsWith(c, prefix) && forall k :: 0 <= k < |prefix| ==> !IsSpace(prefix[k])
    ensures StartsWith(TrimEnd(c), prefix)
    decreases |c|
  {
    if c != [] && IsSpace(c[|c| - 1]) {
      if |c| - 1 < |prefix| {
        // the last character would be a character of the prefix, which is not white space
        assert false;
      }
      assert c[..|c| - 1][..|prefix|] == prefix;
      TrimEndKeepsPrefix(c[..|c| - 1], prefix);
    }
  }

  // ---------------------------------------------------------------- filling a row

  /** Text left over goes to the first empty of name, factory and destination, and is added to
      the name when all three are set. */
  function Leftover(r: Row, s: string): (out: Row)
    ensures out.index == r.index && out.partNo == r.partNo && out.mouldNo == r.mouldNo
      && out.sealSampleNo == r.sealSampleNo
    ensures r.mouldFactory != "" ==> out.mouldFactory == r.mouldFactory
    ensures r.moveTo != "" ==> out.moveTo == r.moveTo
    ensures out.mouldFactory != r.mouldFactory ==> r.mouldName != "" && out.mouldName == r.mouldName && out.moveTo == r.moveTo
    ensures out.moveTo != r.moveTo ==> r.mouldName != "" && r.mouldFactory != "" && out.mouldName == r.mouldName
  {
    if r.mouldName == "" then r.(mouldName := s)
    else if r.mouldFactory == "" then r.(mouldFactory := s)
    else if r.moveTo == "" then r.(moveTo := s)
    else r.(mouldName := Clean(r.mouldName + " " + s))
  }

  /** The seal, mould and part numbers a line supplies to a row, each only where the row has
      none, and the text left once they are taken out. */
  function TakeNumbers(row: Row, s0: string): (out: (Row, string))
    ensures out.0.index == row.index && out.0.mouldName == row.mouldName
      && out.0.mouldFactory == row.mouldFactory && out.0.moveTo == row.moveTo
    ensures row.sealSampleNo != "" ==> out.0.sealSampleNo == row.sealSampleNo
    ensures row.mouldNo != "" ==> out.0.mouldNo == row.mouldNo
    ensures row.partNo != "" ==> out.0.partNo == row.partNo
    ensures out.0.sealSampleNo != row.sealSampleNo ==> StartsWith(out.0.sealSampleNo, "ML-")
    ensures out.0.mouldNo != row.mouldNo ==> StartsWith(out.0.mouldNo, "ML")
  {
    var seal := if row.sealSampleNo == "" then FirstSeal(s0) else "";
    var s1 := Without(s0, seal);
    var mouldNo := if row.mouldNo == "" then FirstMouldNo(s1) else "";
    var s2 := Without(s1, mouldNo);
    var upper := FirstPart(s2, Upper);
    var part := if row.partNo != "" then "" else if upper != "" then upper else FirstPart(s2, OptionalUpper);
    var r := row.(sealSampleNo := if seal != "" then seal else row.sealSampleNo,
                  mouldNo := if mouldNo != "" then mouldNo else row.mouldNo,
                  partNo := if part != "" then part else row.partNo);
    (r, Without(s2, part))
  }

  /** `fillMissingFieldsFromLine` as a value: the row after the line has filled what it can. */
  function FilledRow(row: Row, line: string): Row
  {
    var s0 := Clean(StripCheckboxPrefix(line));
    if s0 == "" then row
    else
      var t := TakeNumbers(row, s0);
      if t.1 == "" then t.0 else Leftover(t.0, t.1)
  }

  /** `fillMissingFieldsFromLine`, step by step on the row it is given. */
  method FillMissingFieldsFromLine(row: Row, line: string) returns (r: Row)
    ensures r == FilledRow(row, line)
  {
    r := row;
    var s := Clean(StripCheckboxPrefix(line));
    if s == "" {
      return;
    }
    var seal := "";
    if r.sealSampleNo == "" {
      seal := FirstSeal(s);
      if seal != "" {
        r := r.(sealSampleNo := seal);
      }
    }
    s := Without(s, seal);
    var mouldNo := "";
    if r.mouldNo == "" {
      mouldNo := FirstMouldNo(s);
      if mouldNo != "" {
        r := r.(mouldNo := mouldNo);
      }
    }
    s := Without(s, mouldNo);
    var part := "";
    if r.partNo == "" {
      part := FirstPart(s, Upper);
      if part == "" {
        part := FirstPart(s, OptionalUpper);
      }
      if part != "" {
        r := r.(partNo := part);
      }
    }
    s := Without(s, part);
    if s == "" {
      return;
    }
    r := Leftover(r, s);
  }

  /** Filling never overwrites a known seal, mould or part number, nor a known factory or
      destination; a number it fills in has its pattern's prefix; and of name, factory and
      destination at most one changes, never one after an empty one. */
  lemma FillKeepsKnownFields(row: Row, line: string)
    ensures var r := FilledRow(row, line);
      r.index == row.index
      && (row.sealSampleNo != "" ==> r.sealSampleNo == row.sealSampleNo)
      && (row.mouldNo != "" ==> r.mouldNo == row.mouldNo)
      && (row.partNo != "" ==> r.partNo == row.partNo)
      && (row.mouldFactory != "" ==> r.mouldFactory == row.mouldFactory)
      && (row.moveTo != "" ==> r.moveTo == row.moveTo)
      && (r.sealSampleNo != row.sealSampleNo ==> StartsWith(r.sealSampleNo, "ML-"))
      && (r.mouldNo != row.mouldNo ==> StartsWith(r.mouldNo, "ML"))
      && (r.mouldFactory != row.mouldFactory ==> row.mouldName != "" && r.mouldName == row.mouldName && r.moveTo == row.moveTo)
      && (r.moveTo != row.moveTo ==> row.mouldName != "" && row.mouldFactory != "" && r.mouldName == row.mouldName)
  {
    var s0 := Clean(StripCheckboxPrefix(line));
    if s0 != "" {
      var t := TakeNumbers(row, s0);
      if t.1 != "" {
        assert FilledRow(row, line) == Leftover(t.0, t.1);
      } else {
        assert FilledRow(row, line) == t.0;
      }
    }
  }

  // ---------------------------------------------------------------- the whole-text fallback

  /** Positions of one match of the fallback pattern
      `(C\d[\w.]+)[\s\S]{0,80}?\b(ML\d+)\b[\s\S]{0,80}?(ML-[A-Z0-9]+-\d{8}-\d+)`. */
  datatype GlobalMatch = GlobalMatch(start: nat, partEnd: nat, mouldStart: nat, mouldEnd: nat,
                                     sealStart: nat, sealEnd: nat)

  /** The groups follow one another inside `s` and start with `C`, `ML` and `ML-`. */
  predicate MatchShape(m: GlobalMatch, s: string)
  {
    m.start < m.partEnd <= m.mouldStart && m.mouldStart + 2 < m.mouldEnd <= m.sealStart
    && m.sealStart + 3 <= m.sealEnd <= |s| && s[m.start] == 'C' && ContainsAt(s, "ML", m.mouldStart) && ContainsAt(s, "ML-", m.sealStart)
  }

  /** The lazy gap before the seal number: 0, 1, … 80 characters. */
  function SealAfter(s: string, q: nat, k: nat): (r: Option<(nat, nat)>)
    ensures r.Some? ==> q <= r.value.0 && r.value.0 + 3 <= r.value.1 <= |s| && ContainsAt(s, "ML-", r.value.0)
    decreases 81 - k
  {
    if k > 80 || q + k > |s| then None
    else
      var u := SealEnd(s, q + k);
      if u.Some? then Some((q + k, u.value)) else SealAfter(s, q, k + 1)
  }

  /** The lazy gap before the mould number, each try going on to look for the seal number. */
  function MouldAfter(s: string, e: nat, k: nat): (r: Option<(nat, nat, nat, nat)>)
    ensures r.Some? ==> e <= r.value.0 && r.value.0 + 2 < r.value.1 <= r.value.2 && r.value.2 + 3 <= r.value.3 <= |s|
    ensures r.Some? ==> ContainsAt(s, "ML", r.value.0) && ContainsAt(s, "ML-", r.value.2)
    decreases 81 - k
  {
    if k > 80 || e + k > |s| then None
    else
      var q := MouldNoEnd(s, e + k);
      if q.None? then MouldAfter(s, e, k + 1)
      else
        var t := SealAfter(s, q.value, 0);
        if t.Some? then Some((e + k, q.value, t.value.0, t.value.1)) else MouldAfter(s, e, k + 1)
  }

  /** The part-number group gives back one character at a time, longest first. */
  function PartBacktrack(s: string, i: nat, e: nat): (r: Option<GlobalMatch>)
    requires i < |s| && s[i] == 'C'
    ensures r.Some? ==> r.value.start == i && i + 3 <= r.value.partEnd <= e && MatchShape(r.value, s)
    decreases e
  {
    if e < i + 3 then None
    else
      var m := MouldAfter(s, e, 0);
      if m.Some? then Some(GlobalMatch(i, e, m.value.0, m.value.1, m.value.2, m.value.3))
      else PartBacktrack(s, i, e - 1)
  }

  /** The fallback pattern at `i`. */
  function GlobalMatchAt(s: string, i: nat): (r: Option<GlobalMatch>)
    ensures r.Some? ==> r.value.start == i && MatchShape(r.value, s)
  {
    if !(i + 3 <= |s| && s[i] == 'C' && IsDigit(s[i + 1])) then None
    else
      var run := WordDotRun(s, i + 2);
      if run == 0 then None else PartBacktrack(s, i, i + 2 + run)
  }

  /** The leftmost match of the fallback pattern at or after `from`. */
  function NextGlobal(s: string, from: nat): (r: Option<GlobalMatch>)
    ensures r.Some? ==> from <= r.value.start && MatchShape(r.value, s)
    decreases |s| + 1 - from
  {
    if from > |s| then None
    else
      var m := GlobalMatchAt(s, from);
      if m.Some? then m else NextGlobal(s, from + 1)
  }

  /** The row one match gives: the text between the part and the mould number is the name, and
      between the mould and the seal number the first word is the factory and the rest the
      destination. */
  function RowOfMatch(s: string, m: GlobalMatch, index: int): (r: Row)
    requires MatchShape(m, s)
    ensures r.index == index
    ensures StartsWith(r.partNo, "C") && StartsWith(r.mouldNo, "ML") && StartsWith(r.sealSampleNo, "ML-")
  {
    var segment := s[m.start..m.sealEnd];
    var partNo := s[m.start..m.partEnd];
    var mouldNo := s[m.mouldStart..m.mouldEnd];
    var seal := s[m.sealStart..m.sealEnd];
    var between := Trim(JsSlice(segment, JsIndexOf(segment, partNo) + |partNo|, JsIndexOf(segment, mouldNo)));
    var after := Trim(JsSlice(segment, JsIndexOf(segment, mouldNo) + |mouldNo|, JsIndexOf(segment, seal)));
    var tail := WsTokens(after);
    assert partNo[..1] == [s[m.start]];
    assert mouldNo[..2] == s[m.mouldStart..m.mouldStart + 2];
    assert seal[..3] == s[m.sealStart..m.sealStart + 3];
    Row(index, partNo, Clean(between), mouldNo, if tail == [] then "" else tail[0],
        Join(if tail == [] then [] else tail[1..], " "), seal)
  }

  /** Every match from `from` on, each search starting where the last match ended. */
  function MatchesFrom(s: string, from: nat): (ms: seq<GlobalMatch>)
    requires from <= |s|
    ensures forall k :: 0 <= k < |ms| ==> MatchShape(ms[k], s)
    decreases |s| - from
  {
    var m := NextGlobal(s, from);
    if m.None? then [] else [m.value] + MatchesFrom(s, m.value.sealEnd)
  }

  /** `xs.map((x, k) => f(x, k + 1))`: each element with its position counted from 1. */
  function MapNumbered<T, U>(xs: seq<T>, f: (T, nat) --> U): (ys: seq<U>)
    requires forall k :: 0 <= k < |xs| ==> f.requires(xs[k], k + 1)
    ensures |ys| == |xs|
  {
    if xs == [] then []
    else MapNumbered(xs[..|xs| - 1], f) + [f(xs[|xs| - 1], |xs|)]
  }

  lemma {:induction false} MapNumberedAt<T, U>(xs: seq<T>, f: (T, nat) --> U, k: nat)
    requires forall j :: 0 <= j < |xs| ==> f.requires(xs[j], j + 1)
    requires k < |xs|
    ensures MapNumbered(xs, f)[k] == f(xs[k], k + 1)
  {
    var n := |xs| - 1;
    if k < n {
      MapNumberedAt(xs[..n], f, k);
      assert xs[..n][k] == xs[k];
    }
  }

  /** The rows of the matches, numbered from 1. */
  function RowsOfMatches(s: string, ms: seq<GlobalMatch>): (rows: seq<Row>)
    requires forall k :: 0 <= k < |ms| ==> MatchShape(ms[k], s)
  {
    MapNumbered(ms, (m, index) requires MatchShape(m, s) => RowOfMatch(s, m, index))
  }

  lemma RowsOfMatchesShape(s: string, ms: seq<GlobalMatch>)
    requires forall k :: 0 <= k < |ms| ==> MatchShape(ms[k], s)
    ensures forall k :: 0 <= k < |ms| ==> RowsOfMatches(s, ms)[k].index == k + 1
    ensures forall k :: 0 <= k < |ms| ==>
      (StartsWith(RowsOfMatches(s, ms)[k].partNo, "C") && StartsWith(RowsOfMatches(s, ms)[k].mouldNo, "ML")
       && StartsWith(RowsOfMatches(s, ms)[k].sealSampleNo, "ML-"))
  {
    var f := (m, index) requires MatchShape(m, s) => RowOfMatch(s, m, index);
    forall k | 0 <= k < |ms|
      ensures RowsOfMatches(s, ms)[k] == RowOfMatch(s, ms[k], k + 1)
    {
      MapNumberedAt(ms, f, k);
    }
  }

  /** `parseRowsByGlobalRegex`. */
  function GlobalRows(sectionText: string): seq<Row>
  {
    var s := Clean(sectionText);
    RowsOfMatches(s, MatchesFrom(s, 0))
  }

  /** The fallback rows are numbered 1, 2, … in order, and each has a part number starting with
      `C`, a mould number starting with `ML` and a seal number starting with `ML-`. */
  lemma GlobalRowsShape(sectionText: string)
    ensures var rows := GlobalRows(sectionText);
      forall k :: 0 <= k < |rows| ==>
        rows[k].index == k + 1 && StartsWith(rows[k].partNo, "C")
        && StartsWith(rows[k].mouldNo, "ML") && StartsWith(rows[k].sealSampleNo, "ML-")
  {
    var s := Clean(sectionText);
    RowsOfMatchesShape(s, MatchesFrom(s, 0));
  }

  /** `parseRowsByGlobalRegex`: the white space is compressed, the matches are read, and each
      match gives the next row. */
  method ParseRowsByGlobalRegex(sectionText: string) returns (rows: seq<Row>)
    ensures rows == GlobalRows(sectionText)
  {
    var s := Clean(sectionText);
    var ms := ExecAll(s);
    rows := RowsOfMatches(s, ms);
  }

  /** `exec` in a loop, each search starting where the last match ended. */
  method ExecAll(s: string) returns (ms: seq<GlobalMatch>)
    ensures ms == MatchesFrom(s, 0)
  {
    ms := [];
    var pos := 0;
    while true
      invariant pos <= |s|
      invariant ms + MatchesFrom(s, pos) == MatchesFrom(s, 0)
      decreases |s| - pos
    {
      var m := NextGlobal(s, pos);
      if m.None? {
        assert ms == MatchesFrom(s, 0);
        break;
      }
      assert MatchesFrom(s, pos) == [m.value] + MatchesFrom(s, m.value.sealEnd);
      ms := ms + [m.value];
      pos := m.value.sealEnd;
    }
  }

  // ---------------------------------------------------------------- reading the table

  /** A new row starts at a part number when there is no row yet, or the current row already
      has a different part number, or has both a part number and a seal number. */
  predicate StartsNewRow(rows: seq<Row>, partNo: string)
  {
    rows == []
    || (rows[|rows| - 1].partNo != "" && rows[|rows| - 1].partNo != partNo)
    || (rows[|rows| - 1].partNo != "" && rows[|rows| - 1].sealSampleNo != "")
  }

  /** The row laid out by columns: part, name, mould number, factory, destination, and the
      remaining columns joined as the seal number. */
  function ColumnsRow(index: int, cols: seq<string>, partNo: string): Row
  {
    Row(index, if |cols| > 0 then cols[0] else partNo,
        if |cols| > 1 then cols[1] else "", if |cols| > 2 then cols[2] else "",
        if |cols| > 3 then cols[3] else "", if |cols| > 4 then cols[4] else "",
        Join(if |cols| > 5 then cols[5..] else [], " "))
  }

  /** Whether a row line is missing any field that filling may supply. */
  predicate Incomplete(r: Row)
  {
    r.partNo == "" || r.mouldNo == "" || r.sealSampleNo == "" || r.mouldFactory == "" || r.moveTo == ""
  }

  /** What one table line does: nothing, a new row, or a new value for the current row. */
  datatype Change = Keep | Append(row: Row) | ReplaceLast(row: Row)

  /** The change one table line makes; the last row read is the current one. */
  function LineChange(rows: seq<Row>, line: string): Change
  {
    var cleaned := StripCheckboxPrefix(line);
    if IsIndexOnlyLine(cleaned) then
      var d := FirstDigits(cleaned);
      var n := IndexNumber(d);
      if d == "" || n.None? then Keep else Append(BlankRow(n.value))
    else if IsNewRowLine(cleaned) then
      var n := IndexNumber(RowNumberDigits(cleaned));
      if n.None? then Keep
      else
        var row := ParseSingleLineRow(n.value, cleaned);
        Append(if Incomplete(row) then FilledRow(row, cleaned) else row)
    else
      var partNo := ExtractPartNo(cleaned);
      if partNo != "" && StartsNewRow(rows, partNo) then
        Append(FilledRow(ColumnsRow(|rows| + 1, SplitColumns(cleaned), partNo), cleaned))
      else if rows == [] then Keep
      else ReplaceLast(FilledRow(rows[|rows| - 1], line))
  }

  /** A change applied to the rows: only the last row can be replaced, so every earlier row is
      kept, and at most one row is added. */
  function Apply(rows: seq<Row>, c: Change): (next: seq<Row>)
    ensures |rows| <= |next| <= |rows| + 1
    ensures forall k :: 0 <= k < |rows| - 1 ==> next[k] == rows[k]
    ensures c.Append? ==> next == rows + [c.row]
  {
    match c
    case Keep => rows
    case Append(r) => rows + [r]
    case ReplaceLast(r) => if rows == [] then rows else rows[|rows| - 1 := r]
  }

  /** What one table line does to the rows read so far. */
  function LineStep(rows: seq<Row>, line: string): seq<Row>
  {
    Apply(rows, LineChange(rows, line))
  }

  /** `xs.reduce(f, a)`: the steps applied in order. */
  function FoldSteps<A, X>(xs: seq<X>, a: A, f: (A, X) -> A): A
  {
    if xs == [] then a else f(FoldSteps(xs[..|xs| - 1], a, f), xs[|xs| - 1])
  }

  lemma FoldStepsStep<A, X>(xs: seq<X>, a: A, f: (A, X) -> A, i: nat)
    requires i < |xs|
    ensures FoldSteps(xs[..i + 1], a, f) == f(FoldSteps(xs[..i], a, f), xs[i])
  {
    assert xs[..i + 1][..i] == xs[..i];
  }

  /** The rows the table lines give, line after line. */
  function RowsOf(lines: seq<string>): seq<Row>
  {
    FoldSteps(lines, [], LineStep)
  }

  /** A table gives at most one row per line, and once a later row has started, the rows before
      it are never changed again: only the current row is still filled in. */
  lemma {:induction false} RowsSettled(lines: seq<string>, i: nat)
    requires i <= |lines|
    ensures |RowsOf(lines)| <= |lines|
    ensures |RowsOf(lines[..i])| <= |RowsOf(lines)|
    ensures forall k :: 0 <= k < |RowsOf(lines[..i])| - 1 ==> RowsOf(lines)[k] == RowsOf(lines[..i])[k]
    decreases |lines|
  {
    if lines != [] {
      var init := lines[..|lines| - 1];
      var last := lines[|lines| - 1];
      assert RowsOf(lines) == LineStep(RowsOf(init), last);
      if i == |lines| {
        assert lines[..i] == lines;
        RowsSettled(init, |init|);
      } else {
        assert init[..i] == lines[..i];
        RowsSettled(init, i);
      }
    }
  }

  /** The first line at or after `from` that ends the table (附件 or 报告审批意见), or the end. */
  function TableEnd(lines: seq<string>, from: nat): (e: nat)
    requires from <= |lines|
    ensures from <= e <= |lines|
    ensures e < |lines| ==> IsTableEnd(lines[e])
    ensures forall j :: from <= j < e ==> !IsTableEnd(lines[j])
    decreases |lines| - from
  {
    if from == |lines| || IsTableEnd(lines[from]) then from else TableEnd(lines, from + 1)
  }

  /** One line of the row loop, the current row updated in place as the last element. */
  method ApplyLine(rows: seq<Row>, line: string) returns (next: seq<Row>)
    ensures next == LineStep(rows, line)
  {
    var c := Keep;
    var cleaned := StripCheckboxPrefix(line);
    if IsIndexOnlyLine(cleaned) {
      var d := FirstDigits(cleaned);
      var n := IndexNumber(d);
      if d != "" && n.Some? {
        c := Append(BlankRow(n.value));
      }
    } else if IsNewRowLine(cleaned) {
      var n := IndexNumber(RowNumberDigits(cleaned));
      if n.Some? {
        var row := ParseSingleLineRow(n.value, cleaned);
        if Incomplete(row) {
          row := FillMissingFieldsFromLine(row, cleaned);
        }
        c := Append(row);
      }
    } else {
      var partNo := ExtractPartNo(cleaned);
      if partNo != "" && StartsNewRow(rows, partNo) {
        var row := ColumnsRow(|rows| + 1, SplitColumns(cleaned), partNo);
        row := FillMissingFieldsFromLine(row, cleaned);
        c := Append(row);
      } else if rows != [] {
        var current := FillMissingFieldsFromLine(rows[|rows| - 1], line);
        c := ReplaceLast(current);
      }
    }
    assert c == LineChange(rows, line);
    next := Apply(rows, c);
  }

  /** A line before the table's end that does not end it leaves the end still ahead. */
  lemma TableEndAhead(lines: seq<string>, from: nat, j: nat)
    requires from + j < |lines| && from + j <= TableEnd(lines, from)
    requires !IsTableEnd(lines[from..][j])
    ensures from + j + 1 <= TableEnd(lines, from)
  {
    assert lines[from..][j] == lines[from + j];
  }

  /** Lines `from` to `i` of the whole text are the first `i - from` lines of its tail. */
  lemma TailPrefix(lines: seq<string>, from: nat, i: nat)
    requires from <= i <= |lines|
    ensures lines[from..][..i - from] == lines[from..i]
  {
  }

  /** The row loop from line `from`, stopping at the first line that ends the table. */
  method ScanRows(lines: seq<string>, from: nat) returns (rows: seq<Row>)
    requires from <= |lines|
    ensures rows == RowsOf(lines[from..TableEnd(lines, from)])
  {
    var tail := lines[from..];
    ghost var e := TableEnd(lines, from) - from;
    rows := [];
    var j := 0;
    assert tail[..j] == [];
    while j < |tail|
      invariant j <= e <= |tail|
      invariant rows == RowsOf(tail[..j])
      decreases |tail| - j
    {
      if IsTableEnd(tail[j]) {
        break;
      }
      TableEndAhead(lines, from, j);
      rows := NextRows(tail, j, rows);
      j := j + 1;
    }
    assert j == e;
    TailPrefix(lines, from, TableEnd(lines, from));
    assert tail[..j] == lines[from..TableEnd(lines, from)];
  }

  /** The loop's step: the rows of the first `i` lines and the next line give the rows of the
      first `i + 1` lines. */
  method NextRows(lines: seq<string>, i: nat, rows: seq<Row>) returns (next: seq<Row>)
    requires i < |lines| && rows == RowsOf(lines[..i])
    ensures next == RowsOf(lines[..i + 1])
  {
    next := ApplyLine(rows, lines[i]);
    FoldStepsStep(lines, [], LineStep, i);
  }

  // ---------------------------------------------------------------- the whole notice

  datatype Notice = Notice(mouldMoveDate: string, rows: seq<Row>, rawText: string)

  datatype Failure = Failure(error: string, rawText: string)

  /** `parseMouldTransferFromText` as a value. */
  function ParseNotice(text: string): Result<Notice, Failure>
  {
    NoticeOf(NormalizeText(text))
  }

  /** The notice read from the normalised text `raw`. */
  function NoticeOf(raw: string): Result<Notice, Failure>
  {
    if !Contains(RemoveSpaces(raw), Title) then Err(Failure(TitleError, raw))
    else
      var lines := TextLines(raw);
      var date := FindMouldMoveDate(raw, lines, TryParseDate);
      if date == "" then Err(Failure(DateError, raw))
      else
        var h := HeaderLine(lines, 0);
        if h.None? then Err(Failure(HeaderError, raw))
        else
          var rows := NoticeRows(raw, lines, h.value);
          if rows == [] then Err(Failure(NoRowsError, raw)) else Ok(Notice(date, rows, raw))
  }

  /** The rows under the header up to the table's end; when the lines give none, the rows the
      pattern fallback finds in the table section. */
  function NoticeRows(raw: string, lines: seq<string>, h: nat): seq<Row>
    requires h < |lines|
  {
    var rows := RowsOf(lines[h + 1..TableEnd(lines, h + 1)]);
    if rows != [] then rows else GlobalRows(ExtractTableSection(raw))
  }

  /** `parseMouldTransferFromText`. */
  method ParseMouldTransferFromText(text: string) returns (r: Result<Notice, Failure>)
    ensures r == ParseNotice(text)
  {
    var raw := NormalizeText(text);
    if !Contains(RemoveSpaces(raw), Title) {
      return Err(Failure(TitleError, raw));
    }
    var lines := TextLines(raw);
    var date := FindMouldMoveDate(raw, lines, TryParseDate);
    if date == "" {
      return Err(Failure(DateError, raw));
    }
    var h := HeaderLine(lines, 0);
    if h.None? {
      return Err(Failure(HeaderError, raw));
    }
    var rows := ScanRows(lines, h.value + 1);
    if rows == [] {
      rows := ParseRowsByGlobalRegex(ExtractTableSection(raw));
      if rows == [] {
        return Err(Failure(NoRowsError, raw));
      }
    }
    return Ok(Notice(date, rows, raw));
  }

  /** The title, the move date and the header are each required, in that order. */
  lemma NoticeFailures(raw: string)
    ensures var r := NoticeOf(raw);
      (r == Err(Failure(TitleError, raw)) <==> !Contains(RemoveSpaces(raw), Title))
      && (r == Err(Failure(DateError, raw)) <==>
            Contains(RemoveSpaces(raw), Title) && FindMouldMoveDate(raw, TextLines(raw), TryParseDate) == "")
      && (r == Err(Failure(HeaderError, raw)) <==>
            Contains(RemoveSpaces(raw), Title) && FindMouldMoveDate(raw, TextLines(raw), TryParseDate) != ""
            && forall j :: 0 <= j < |TextLines(raw)| ==> !IsTableHeader(TextLines(raw)[j]))
  {
  }

  /** A notice that is read has a `YYYY-MM-DD` move date, at least one row and the normalised
      text. */
  lemma NoticeRead(raw: string)
    ensures var r := NoticeOf(raw);
      r.Ok? ==> IsIsoDate(r.value.mouldMoveDate) && r.value.rows != [] && r.value.rawText == raw
  {
    MoveDateShape(raw, TextLines(raw), TryParseDate);
  }

}
