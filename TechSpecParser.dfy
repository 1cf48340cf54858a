/** The reader of injection-mould technical-specification sheets in the web client: drawing
    numbers with slash abbreviations, the size list, the header and column search, the per-row
    product lists, the label search of the form layout, and the records a sheet yields. */
module TechSpecParser {
  import opened Common

  /** A cell as the sheet reader hands it over: text, or another value together with its
      `String(...)` text. A missing cell is the empty text. */
  datatype Cell = Text(s: string) | Other(shown: string)

  /** `normalize`: the cell as trimmed text. */
  function Normalize(c: Cell): string
  {
    match c
    case Text(s) => Trim(s)
    case Other(t) => Trim(t)
  }

  /** `normalizeLoose`: trimmed, without white space, fullwidth colon as ':', lower case. */
  function NormalizeLoose(c: Cell): string
  {
    ToLower(ReplaceChar(RemoveSpaces(Normalize(c)), '：', ':'))
  }

  /** `row[i]`, an empty cell past the end of the row. */
  function CellAt(row: seq<Cell>, i: int): Cell
  {
    if 0 <= i < |row| then row[i] else Text("")
  }

  // ---------------------------------------------------------------- drawing numbers

  /** `.split(sep).map(trim).filter(Boolean)`. */
  function Pieces(s: string, sep: char): seq<string>
  {
    NonEmpty(TrimAll(Split(s, sep)))
  }

  predicate IsTokenSep(c: char) { IsSpace(c) || c == ';' }

  /** The tokens of the drawing cell: split on white space and ';', the fullwidth '；' counting
      as ';'. */
  function DrawingTokens(raw: string): seq<string>
  {
    NonEmpty(TrimAll(Tokens(ReplaceChar(raw, '；', ';'), IsTokenSep)))
  }

  /** The base's parts with the last `|suffix|` of them replaced by the suffix's parts. */
  function Overwritten(base: seq<string>, suffix: seq<string>): (r: seq<string>)
    requires |suffix| <= |base|
    ensures |r| == |base|
    ensures r[..|base| - |suffix|] == base[..|base| - |suffix|]
    ensures r[|base| - |suffix|..] == suffix
  {
    base[..|base| - |suffix|] + suffix
  }

  /** One abbreviated segment after the first, completed from the base's '.'-parts. */
  function ExpandSuffix(baseParts: seq<string>, seg: string): string
  {
    var suffixParts := Pieces(seg, '.');
    if |suffixParts| == 0 || |baseParts| == 0 then seg
    else if |baseParts| - |suffixParts| == 1 then Join([baseParts[0]] + suffixParts, ".")
    else if |suffixParts| <= |baseParts| then Join(Overwritten(baseParts, suffixParts), ".")
    else seg
  }

  /** `expandSlashToken`: a token `base/suffix/...` stands for the base and one drawing per
      suffix; a token without two slash segments stands for itself. */
  function ExpandSlashToken(token: string): (r: seq<string>)
    ensures |r| >= 1
  {
    if '/' !in token then [token]
    else
      var segments := Pieces(token, '/');
      if |segments| <= 1 then [token]
      else
        [segments[0]] + ExpandSuffixes(Pieces(segments[0], '.'), segments[1..])
  }

  /** `ExpandSuffix` of each segment, in order. */
  function ExpandSuffixes(baseParts: seq<string>, segs: seq<string>): (r: seq<string>)
    ensures |r| == |segs|
  {
    if segs == [] then []
    else ExpandSuffixes(baseParts, segs[..|segs| - 1]) + [ExpandSuffix(baseParts, segs[|segs| - 1])]
  }

  /** `tokens.flatMap(expandSlashToken)`. */
  function ExpandTokens(tokens: seq<string>): seq<string>
  {
    if tokens == [] then [] else ExpandSlashToken(tokens[0]) + ExpandTokens(tokens[1..])
  }

  /** `parseDrawings`: the drawing numbers a cell lists. */
  function ParseDrawings(val: string): (r: seq<string>)
    ensures forall i :: 0 <= i < |r| ==> r[i] != []
  {
    var raw := Trim(val);
    if raw == [] then [] else NonEmpty(TrimAll(ExpandTokens(DrawingTokens(raw))))
  }

  /** The overwrite loop of `expandSlashToken`. */
  method OverwriteTail(baseParts: seq<string>, suffixParts: seq<string>) returns (next: seq<string>)
    requires |suffixParts| <= |baseParts|
    ensures next == Overwritten(baseParts, suffixParts)
  {
    next := baseParts;
    var start := |baseParts| - |suffixParts|;
    var i := 0;
    while i < |suffixParts|
      invariant 0 <= i <= |suffixParts|
      invariant |next| == |baseParts|
      invariant forall j :: 0 <= j < |next| ==>
                  next[j] == (if start <= j < start + i then suffixParts[j - start] else baseParts[j])
    {
      next := next[start + i := suffixParts[i]];
      i := i + 1;
    }
    assert next == Overwritten(baseParts, suffixParts);
  }

  /** The body of the loop over the segments after the base. */
  method ExpandOne(baseParts: seq<string>, seg: string) returns (d: string)
    ensures d == ExpandSuffix(baseParts, seg)
  {
    var suffixParts := Pieces(seg, '.');
    if |suffixParts| == 0 || |baseParts| == 0 {
      d := seg;
    } else if |baseParts| - |suffixParts| == 1 {
      d := Join([baseParts[0]] + suffixParts, ".");
    } else if |suffixParts| <= |baseParts| {
      var next := OverwriteTail(baseParts, suffixParts);
      d := Join(next, ".");
    } else {
      d := seg;
    }
  }

  /** `expandSlashToken` as the source runs it: the base first, then one push per segment. */
  method ExpandSlash(token: string) returns (results: seq<string>)
    ensures results == ExpandSlashToken(token)
  {
    if '/' !in token {
      return [token];
    }
    var segments := Pieces(token, '/');
    if |segments| <= 1 {
      return [token];
    }
    var rest := ExpandSegments(Pieces(segments[0], '.'), segments);
    results := [segments[0]] + rest;
  }

  /** The loop over the segments after the base. */
  method ExpandSegments(baseParts: seq<string>, segments: seq<string>) returns (results: seq<string>)
    requires |segments| >= 1
    ensures results == ExpandSuffixes(baseParts, segments[1..])
  {
    results := [];
    var i := 1;
    while i < |segments|
      invariant 1 <= i <= |segments|
      invariant results == ExpandSuffixes(baseParts, segments[1..i])
    {
      var d := ExpandOne(baseParts, segments[i]);
      assert segments[1..i + 1][..i - 1] == segments[1..i];
      results := results + [d];
      i := i + 1;
    }
    assert segments[1..i] == segments[1..];
  }

  // ---------------------------------------------------------------- what the drawings are

  /** Blank input lists no drawing. */
  lemma BlankHasNoDrawings(val: string)
    requires IsBlank(val)
    ensures ParseDrawings(val) == []
  {
    TrimEmptyIffBlank(val);
  }

  /** Every drawing number is non-empty and trimmed. */
  lemma DrawingsAreTrimmed(val: string)
    ensures forall i :: 0 <= i < |ParseDrawings(val)| ==>
              ParseDrawings(val)[i] != [] && Trim(ParseDrawings(val)[i]) == ParseDrawings(val)[i]
  {
    var raw := Trim(val);
    if raw != [] {
      var ts := TrimAll(ExpandTokens(DrawingTokens(raw)));
      NonEmptyOfTrimmed(ts);
      forall i | 0 <= i < |NonEmpty(ts)|
        ensures Trim(NonEmpty(ts)[i]) == NonEmpty(ts)[i]
      {
        TrimOfTrimmed(NonEmpty(ts)[i]);
      }
    }
  }

  /** Neither empty nor with white space at either end. */
  predicate Trimmed(s: string)
  {
    s != [] && !IsSpace(s[0]) && !IsSpace(s[|s| - 1])
  }

  /** What `filter(Boolean)` keeps of trimmed-or-empty strings is trimmed. */
  lemma {:induction false} NonEmptyOfTrimmed(ts: seq<string>)
    requires forall k :: 0 <= k < |ts| ==> ts[k] == [] || Trimmed(ts[k])
    ensures forall i :: 0 <= i < |NonEmpty(ts)| ==> Trimmed(NonEmpty(ts)[i])
  {
    if ts != [] {
      NonEmptyOfTrimmed(ts[1..]);
    }
  }

  /** A slash token yields one drawing per segment, the base segment first. */
  lemma SlashTokenShape(token: string)
    requires '/' in token && |Pieces(token, '/')| >= 2
    ensures |ExpandSlashToken(token)| == |Pieces(token, '/')|
    ensures ExpandSlashToken(token)[0] == Pieces(token, '/')[0]
    ensures '/' !in ExpandSlashToken(token)[0]
  {
    PiecesFacts(token, '/');
  }

  /** The pieces of a split hold no separator, are non-empty and are their own trim. */
  lemma PiecesFacts(s: string, sep: char)
    ensures forall i :: 0 <= i < |Pieces(s, sep)| ==>
              Pieces(s, sep)[i] != [] && sep !in Pieces(s, sep)[i] && Trim(Pieces(s, sep)[i]) == Pieces(s, sep)[i]
  {
    var parts := Split(s, sep);
    var ts := TrimAll(parts);
    var r := NonEmpty(ts);
    JoinOfSplit(s, sep);
    TrimAllClean(parts, sep);
    forall i | 0 <= i < |r|
      ensures sep !in r[i] && Trim(r[i]) == r[i]
    {
      assert r[i] in ts;
    }
  }

  /** Trimming strings without the separator gives strings without it that are their own
      trim. */
  lemma TrimAllClean(parts: seq<string>, sep: char)
    requires forall i :: 0 <= i < |parts| ==> sep !in parts[i]
    ensures forall j :: 0 <= j < |parts| ==> sep !in TrimAll(parts)[j] && Trim(TrimAll(parts)[j]) == TrimAll(parts)[j]
  {
    forall j | 0 <= j < |parts|
      ensures sep !in Trim(parts[j]) && Trim(Trim(parts[j])) == Trim(parts[j])
    {
      TrimKeepsOut(parts[j], sep);
      TrimOfTrimmed(Trim(parts[j]));
    }
  }

  /** The completed suffix, split back into its '.'-parts, is the base's parts with the
      trailing ones replaced by the suffix's: as many parts as the base, ending in the suffix.
      The "one part fewer" rule is the case `|suffix| == |base| - 1` of the same. */
  lemma SuffixCompletion(base: string, seg: string)
    requires Pieces(base, '.') != [] && Pieces(seg, '.') != []
    requires |Pieces(seg, '.')| <= |Pieces(base, '.')|
    ensures Pieces(ExpandSuffix(Pieces(base, '.'), seg), '.') == Overwritten(Pieces(base, '.'), Pieces(seg, '.'))
  {
    var b := Pieces(base, '.');
    var s := Pieces(seg, '.');
    var parts := Overwritten(b, s);
    ExpandSuffixJoins(b, seg);
    PiecesFacts(base, '.');
    PiecesFacts(seg, '.');
    OverwrittenClean(b, s);
    PiecesOfJoin(parts, '.');
  }

  /** Either completion rule joins the overwritten parts with '.'. */
  lemma ExpandSuffixJoins(b: seq<string>, seg: string)
    requires b != [] && Pieces(seg, '.') != [] && |Pieces(seg, '.')| <= |b|
    ensures ExpandSuffix(b, seg) == Join(Overwritten(b, Pieces(seg, '.')), ['.'])
  {
    var s := Pieces(seg, '.');
    assert |b| - |s| == 1 ==> [b[0]] + s == Overwritten(b, s);
    assert "." == ['.'];
  }

  /** Overwriting clean parts with clean parts gives clean parts. */
  lemma OverwrittenClean(b: seq<string>, s: seq<string>)
    requires |s| <= |b|
    requires forall k :: 0 <= k < |b| ==> b[k] != [] && '.' !in b[k] && Trim(b[k]) == b[k]
    requires forall k :: 0 <= k < |s| ==> s[k] != [] && '.' !in s[k] && Trim(s[k]) == s[k]
    ensures forall k :: 0 <= k < |b| ==>
      Overwritten(b, s)[k] != [] && '.' !in Overwritten(b, s)[k] && Trim(Overwritten(b, s)[k]) == Overwritten(b, s)[k]
  {
    var parts := Overwritten(b, s);
    forall k | 0 <= k < |parts|
      ensures parts[k] != [] && '.' !in parts[k] && Trim(parts[k]) == parts[k]
    {
      if k < |b| - |s| {
        assert parts[k] == parts[..|b| - |s|][k] == b[k];
      } else {
        assert parts[k] == parts[|b| - |s|..][k - (|b| - |s|)] == s[k - (|b| - |s|)];
      }
    }
  }

  /** Splitting, trimming and filtering the join of clean parts gives the parts back. */
  lemma PiecesOfJoin(parts: seq<string>, sep: char)
    requires parts != []
    requires forall k :: 0 <= k < |parts| ==> parts[k] != [] && sep !in parts[k] && Trim(parts[k]) == parts[k]
    ensures Pieces(Join(parts, [sep]), sep) == parts
  {
    SplitJoin(parts, sep);
    TrimAllOfTrimmed(parts);
    NonEmptyOfNonEmpty(parts);
  }

  /** Trimming strings that are their own trim changes nothing. */
  lemma TrimAllOfTrimmed(ss: seq<string>)
    requires forall k :: 0 <= k < |ss| ==> Trim(ss[k]) == ss[k]
    ensures TrimAll(ss) == ss
  {
    assert forall k :: 0 <= k < |ss| ==> TrimAll(ss)[k] == ss[k];
  }

  // ---------------------------------------------------------------- sizes

  predicate IsSizeSep(c: char) { IsSpace(c) || c == '/' }

  /** `parseSizes`: the cell split on white space and '/'. */
  function ParseSizes(val: string): seq<string>
  {
    NonEmpty(TrimAll(Tokens(Trim(val), IsSizeSep)))
  }

  /** The size list of a row with `n` drawings: a lone size stands for every drawing, and the
      list is padded with empty sizes up to the number of drawings. */
  function FittedSizes(n: nat, sizes: seq<string>): seq<string>
  {
    var s := if n > 1 && |sizes| == 1 && sizes[0] != [] then Repeat(sizes[0], n) else sizes;
    if |s| < n then s + Repeat("", n - |s|) else s
  }

  /** The broadcast, then the padding loop of `buildSpecDataFromRow` (its trimming loop never
      runs: the list is never longer than the maximum it is cut to). */
  method FitSizes(n: nat, sizes: seq<string>) returns (productSizes: seq<string>)
    ensures productSizes == FittedSizes(n, sizes)
  {
    productSizes := sizes;
    if n > 1 && |productSizes| == 1 && productSizes[0] != [] {
      productSizes := Repeat(productSizes[0], n);
    }
    var maxLength := Max(n, |productSizes|);
    ghost var base := productSizes;
    while |productSizes| < maxLength
      invariant |base| <= |productSizes| <= maxLength
      invariant productSizes == base + Repeat("", |productSizes| - |base|)
      decreases maxLength - |productSizes|
    {
      productSizes := productSizes + [""];
      assert productSizes == base + Repeat("", |productSizes| - |base|);
    }
  }

  /** One size per drawing, or more when there are more sizes; a lone size is repeated for
      every drawing, and otherwise the given sizes come first, padded with empty ones. */
  lemma FittedSizesShape(n: nat, sizes: seq<string>)
    ensures |FittedSizes(n, sizes)| == if n > 1 && |sizes| == 1 && sizes[0] != [] then n else Max(n, |sizes|)
    ensures n > 1 && |sizes| == 1 && sizes[0] != [] ==>
              forall i :: 0 <= i < n ==> FittedSizes(n, sizes)[i] == sizes[0]
    ensures !(n > 1 && |sizes| == 1 && sizes[0] != []) ==>
              FittedSizes(n, sizes)[..|sizes|] == sizes &&
              forall i :: |sizes| <= i < |FittedSizes(n, sizes)| ==> FittedSizes(n, sizes)[i] == ""
  {
  }

  // ---------------------------------------------------------------- header and columns

  const Title := "注塑模具制作规格表"

  /** A header cell filter of `findColumnIndexFiltered`; `AnyCell` is `findColumnIndex`. */
  datatype CellFilter = AnyCell | Without(word: string) | CountHeader

  predicate Accepts(f: CellFilter, cell: string)
  {
    match f
    case AnyCell => true
    case Without(w) => !Contains(cell, w)
    case CountHeader => Contains(cell, "穴") || Contains(cell, "腔") || Contains(cell, "型腔数") || Contains(cell, "模具")
  }

  predicate MentionsAny(cell: string, keywords: seq<string>)
  {
    exists k :: 0 <= k < |keywords| && Contains(cell, ToLower(keywords[k]))
  }

  /** The `match` of `findColumnIndexFiltered` on one header cell. */
  predicate IsColumnHeader(cell: string, keywords: seq<string>, f: CellFilter)
  {
    Accepts(f, ToLower(cell)) && MentionsAny(ToLower(cell), keywords)
  }

  /** The first header cell from `i` on that matches, or -1. */
  function FirstHeaderFrom(row: seq<string>, keywords: seq<string>, f: CellFilter, i: nat): (r: int)
    requires i <= |row|
    ensures r == -1 || i <= r < |row|
    ensures r >= 0 ==> IsColumnHeader(row[r], keywords, f)
    ensures forall j :: i <= j < (if r < 0 then |row| else r) ==> !IsColumnHeader(row[j], keywords, f)
    decreases |row| - i
  {
    if i == |row| then -1
    else if IsColumnHeader(row[i], keywords, f) then i
    else FirstHeaderFrom(row, keywords, f, i + 1)
  }

  /** `findColumnIndexFiltered` (and `findColumnIndex` with `AnyCell`): the sub-header row first
      when it is preferred, then the main header row, then the sub-header row. */
  function ColumnIndex(main: seq<string>, sub: seq<string>, keywords: seq<string>, f: CellFilter,
                       preferSub: bool): int
  {
    var inSub := FirstHeaderFrom(sub, keywords, f, 0);
    var inMain := FirstHeaderFrom(main, keywords, f, 0);
    if preferSub && sub != [] && inSub >= 0 then inSub
    else if inMain >= 0 then inMain
    else if !preferSub && sub != [] then inSub
    else -1
  }

  /** The column search as the source runs it: up to three scans, returning on the first hit. */
  method FindColumnIndex(main: seq<string>, sub: seq<string>, keywords: seq<string>, f: CellFilter,
                         preferSub: bool) returns (col: int)
    ensures col == ColumnIndex(main, sub, keywords, f, preferSub)
  {
    var hasSub := |sub| > 0;
    if preferSub && hasSub {
      col := Scan(sub, keywords, f);
      if col >= 0 {
        return;
      }
    }
    col := Scan(main, keywords, f);
    if col >= 0 {
      return;
    }
    if !preferSub && hasSub {
      col := Scan(sub, keywords, f);
      return;
    }
    col := -1;
  }

  /** One scan of a header row. */
  method Scan(row: seq<string>, keywords: seq<string>, f: CellFilter) returns (col: int)
    ensures col == FirstHeaderFrom(row, keywords, f, 0)
  {
    var i := 0;
    while i < |row|
      invariant 0 <= i <= |row|
      invariant FirstHeaderFrom(row, keywords, f, 0) == FirstHeaderFrom(row, keywords, f, i)
    {
      if IsColumnHeader(row[i], keywords, f) {
        return i;
      }
      i := i + 1;
    }
    return -1;
  }

  /** The column found is a matching header cell of one of the two rows; -1 means no cell of
      either row matches; a preferred sub-header wins whenever one of its cells matches, and
      otherwise a matching main-header cell wins. */
  lemma ColumnIndexMeaning(main: seq<string>, sub: seq<string>, keywords: seq<string>, f: CellFilter,
                           preferSub: bool)
    ensures var c := ColumnIndex(main, sub, keywords, f, preferSub);
      (c == -1 <==> (forall j :: 0 <= j < |main| ==> !IsColumnHeader(main[j], keywords, f))
                    && (forall j :: 0 <= j < |sub| ==> !IsColumnHeader(sub[j], keywords, f)))
      && (c >= 0 ==> (c < |main| && IsColumnHeader(main[c], keywords, f))
                     || (c < |sub| && IsColumnHeader(sub[c], keywords, f)))
      && (preferSub && (exists j :: 0 <= j < |sub| && IsColumnHeader(sub[j], keywords, f)) ==>
            c == FirstHeaderFrom(sub, keywords, f, 0))
      && (!preferSub && (exists j :: 0 <= j < |main| && IsColumnHeader(main[j], keywords, f)) ==>
            c == FirstHeaderFrom(main, keywords, f, 0))
  {
  }

  /** A header row as text: `row.map(normalizeLoose).join('|')`. */
  function RowText(row: seq<Cell>): string
  {
    Join(seq(|row|, k requires 0 <= k < |row| => NormalizeLoose(row[k])), "|")
  }

  predicate IsMainHeader(row: seq<Cell>)
  {
    var t := RowText(row);
    (Contains(t, "零件图号") || Contains(t, "图号")) && (Contains(t, "零件名称") || Contains(t, "名称"))
  }

  predicate IsSubHeader(row: seq<Cell>)
  {
    Contains(RowText(row), "材料") || Contains(RowText(row), "材质")
  }

  /** The first of the top 20 rows naming both a drawing and a name column. */
  function MainHeaderFrom(rows: seq<seq<Cell>>, i: nat): (r: Option<nat>)
    requires i <= Min(20, |rows|)
    ensures r.Some? ==> i <= r.value < Min(20, |rows|) && IsMainHeader(rows[r.value])
    ensures forall j :: i <= j < (if r.Some? then r.value else Min(20, |rows|)) ==> !IsMainHeader(rows[j])
    decreases Min(20, |rows|) - i
  {
    if i == Min(20, |rows|) then None
    else if IsMainHeader(rows[i]) then Some(i)
    else MainHeaderFrom(rows, i + 1)
  }

  /** The sub-header row, the row right after the main header when it names the material. */
  function SubHeader(rows: seq<seq<Cell>>, main: nat): Option<nat>
  {
    if main + 1 < |rows| && IsSubHeader(rows[main + 1]) then Some(main + 1) else None
  }

  function NormalizedRow(row: seq<Cell>): seq<string>
  {
    seq(|row|, k requires 0 <= k < |row| => Normalize(row[k]))
  }

  // ---------------------------------------------------------------- scoring

  /** Points a loose-normalised cell of the top-left 30×30 window adds to the sheet's score. */
  function CellScore(cell: string): nat
  {
    if cell == [] then 0
    else
      (if Contains(cell, Title) then 10 else 0)
      + (if Contains(cell, "型腔") then 3 else 0)
      + (if Contains(cell, "型芯") then 3 else 0)
      + (if Contains(cell, "产品外观尺寸") || Contains(cell, "外观尺寸") then 3 else 0)
      + (if Contains(cell, "项目经理") then 2 else 0)
      + (if Contains(cell, "零件图号") || cell == "图号" then 1 else 0)
      + (if Contains(cell, "零件名称") || cell == "名称" then 1 else 0)
  }

  function RowScore(row: seq<Cell>, n: nat): nat
    requires n <= |row|
  {
    if n == 0 then 0 else RowScore(row, n - 1) + CellScore(NormalizeLoose(row[n - 1]))
  }

  function SheetScore(rows: seq<seq<Cell>>, n: nat): nat
    requires n <= |rows|
  {
    if n == 0 then 0 else SheetScore(rows, n - 1) + RowScore(rows[n - 1], Min(30, |rows[n - 1]|))
  }

  predicate HasTitle(rows: seq<seq<Cell>>)
  {
    exists r, c :: 0 <= r < Min(30, |rows|) && 0 <= c < Min(30, |rows[r]|) && Contains(NormalizeLoose(rows[r][c]), Title)
  }

  /** `det.hasTitle || det.score >= 8`. */
  predicate LikelyTechSpec(rows: seq<seq<Cell>>)
  {
    HasTitle(rows) || SheetScore(rows, Min(30, |rows|)) >= 8
  }

  // ---------------------------------------------------------------- one product row

  datatype SpecData = SpecData(
    material: string, cavity: string, core: string, cavityCount: string, outerSize: string,
    drawings: seq<string>, names: seq<string>, quantities: seq<int>, weights: seq<int>,
    sizes: seq<string>, engineer: string, image: string)

  /** The columns found in the header; -1 for a column that is not there. */
  datatype Columns = Columns(material: int, cavity: int, core: int, cavityCount: int, size: int,
                             engineer: int, pm: int, image: int)

  /** A column's trimmed value, empty when the column is missing. */
  function ValueIn(row: seq<Cell>, col: int): string
  {
    if col >= 0 then Normalize(CellAt(row, col)) else ""
  }

  /** A picture cell counts only as text that starts with `http` or `data:`. */
  function ImageIn(row: seq<Cell>, col: int): string
  {
    if col >= 0 then
      match CellAt(row, col)
      case Text(s) => if StartsWith(s, "http") || StartsWith(s, "data:") then s else ""
      case Other(_) => ""
    else ""
  }

  /** `buildSpecDataFromRow`. */
  function BuildSpecData(row: seq<Cell>, cols: Columns, partDrawingRaw: string, partName: string): (d: SpecData)
    ensures d.drawings == ParseDrawings(partDrawingRaw)
    ensures |d.names| == |d.quantities| == |d.weights| == |d.drawings|
    ensures forall i :: 0 <= i < |d.names| ==> d.names[i] == partName && d.quantities[i] == 0 && d.weights[i] == 0
    ensures d.engineer == if ValueIn(row, cols.engineer) != [] then ValueIn(row, cols.engineer) else ValueIn(row, cols.pm)
  {
    var partSize := ValueIn(row, cols.size);
    var drawings := ParseDrawings(partDrawingRaw);
    var engineer := ValueIn(row, cols.engineer);
    SpecData(ValueIn(row, cols.material), ValueIn(row, cols.cavity), ValueIn(row, cols.core),
             ValueIn(row, cols.cavityCount), partSize, drawings, Repeat(partName, |drawings|),
             Repeat(0, |drawings|), Repeat(0, |drawings|), FittedSizes(|drawings|, ParseSizes(partSize)),
             if engineer != [] then engineer else ValueIn(row, cols.pm), ImageIn(row, cols.image))
  }

  // ---------------------------------------------------------------- the form layout

  /** The first non-empty value among the five cells right of `c`. */
  function ValueRightOf(row: seq<Cell>, c: nat, k: nat): (r: Option<nat>)
    requires c < k
    ensures r.Some? ==> k <= r.value < Min(c + 6, |row|) && Normalize(row[r.value]) != []
    ensures forall j :: k <= j < (if r.Some? then r.value else Min(c + 6, |row|)) ==> Normalize(row[j]) == []
    decreases |row| - k
  {
    if k >= Min(c + 6, |row|) then None
    else if Normalize(row[k]) != [] then Some(k)
    else ValueRightOf(row, c, k + 1)
  }

  predicate IsLabel(cell: string, keywords: seq<string>)
  {
    cell != [] && exists k :: 0 <= k < |keywords| && Contains(cell, keywords[k])
  }

  /** The first labelled value in a row, scanning the first 50 cells. */
  function LabelInRow(row: seq<Cell>, keywords: seq<string>, c: nat): (r: Option<(nat, nat)>)
    ensures r.Some? ==> c <= r.value.0 < r.value.1 < Min(r.value.0 + 6, |row|)
    ensures r.Some? ==> r.value.0 < Min(50, |row|) && IsLabel(Normalize(row[r.value.0]), keywords)
    ensures r.Some? ==> Normalize(row[r.value.1]) != []
    decreases |row| - c
  {
    if c >= Min(50, |row|) then None
    else if IsLabel(Normalize(row[c]), keywords) && ValueRightOf(row, c, c + 1).Some? then
      Some((c, ValueRightOf(row, c, c + 1).value))
    else LabelInRow(row, keywords, c + 1)
  }

  /** Where `findLabelValue` finds its value: the row, the label cell and the value cell. */
  function LabelHit(rows: seq<seq<Cell>>, keywords: seq<string>, r: nat): (h: Option<(nat, nat, nat)>)
    ensures h.Some? ==> r <= h.value.0 < Min(50, |rows|)
    ensures h.Some? ==> LabelInRow(rows[h.value.0], keywords, 0) == Some((h.value.1, h.value.2))
    decreases |rows| - r
  {
    if r >= Min(50, |rows|) then None
    else match LabelInRow(rows[r], keywords, 0)
      case Some(p) => Some((r, p.0, p.1))
      case None => LabelHit(rows, keywords, r + 1)
  }

  /** `findLabelValue`: the value next to the first label cell (top-left 50×50) that has one
      within the five cells to its right; empty when there is none. */
  function FindLabelValue(rows: seq<seq<Cell>>, keywords: seq<string>): (v: string)
  {
    match LabelHit(rows, keywords, 0)
    case Some(h) => Normalize(rows[h.0][h.2])
    case None => ""
  }

  /** A label value is a non-empty trimmed cell at most five cells right of a label cell,
      both inside the top-left 50×50 window. */
  lemma LabelValueMeaning(rows: seq<seq<Cell>>, keywords: seq<string>)
    ensures FindLabelValue(rows, keywords) != [] <==> LabelHit(rows, keywords, 0).Some?
    ensures LabelHit(rows, keywords, 0).Some? ==>
              var h := LabelHit(rows, keywords, 0).value;
              h.0 < Min(50, |rows|) && h.1 < Min(50, |rows[h.0]|) && h.1 < h.2 <= h.1 + 5 && h.2 < |rows[h.0]|
              && IsLabel(Normalize(rows[h.0][h.1]), keywords)
              && FindLabelValue(rows, keywords) == Normalize(rows[h.0][h.2])
  {
  }

  datatype Record = Record(sheetName: string, rowIndex: Option<nat>, partDrawingRaw: string,
                           partName: string, drawings: seq<string>, spec: SpecData)

  function OrElse(a: string, b: string): string { if a != [] then a else b }

  /** Any cell, loose-normalised, mentions the title. */
  predicate MentionsTitle(rows: seq<seq<Cell>>)
  {
    exists r, c :: 0 <= r < |rows| && 0 <= c < |rows[r]| && Contains(NormalizeLoose(rows[r][c]), Title)
  }

  /** `parseTechSpecSheetAsForm`: one record read from labels, when the title appears. */
  function FormRecord(sheetName: string, rows: seq<seq<Cell>>): (r: Option<Record>)
    ensures r.Some? ==> r.value.rowIndex.None? && r.value.drawings == ParseDrawings(r.value.partDrawingRaw)
    ensures r.Some? ==> |r.value.spec.names| == |r.value.drawings|
                        && |r.value.spec.sizes| == Max(|r.value.drawings|, |ParseSizes(r.value.spec.outerSize)|)
  {
    if !MentionsTitle(rows) then None
    else
      var partDrawingRaw := OrElse(FindLabelValue(rows, ["产品图号", "零件图号", "图号"]),
                                   FindLabelValue(rows, ["产品图号：", "零件图号："]));
      var partName := FindLabelValue(rows, ["产品名称", "零件名称"]);
      var size := FindLabelValue(rows, ["产品外观尺寸", "外观尺寸", "尺寸"]);
      var engineer := OrElse(FindLabelValue(rows, ["产品结构工程师", "结构工程师", "工程师"]),
                             FindLabelValue(rows, ["项目经理"]));
      var drawings := ParseDrawings(partDrawingRaw);
      var sizes := ParseSizes(size);
      var padded := if |sizes| < |drawings| then sizes + Repeat("", |drawings| - |sizes|) else sizes;
      Some(Record(sheetName, None, partDrawingRaw, partName, drawings,
        SpecData(FindLabelValue(rows, ["材料", "材质"]), FindLabelValue(rows, ["型腔", "前模"]),
                 FindLabelValue(rows, ["型芯", "后模"]),
                 FindLabelValue(rows, ["模具穴数", "模具腔数", "穴数", "腔数", "型腔数"]),
                 size, drawings, Repeat(partName, |drawings|), Repeat(0, |drawings|), Repeat(0, |drawings|),
                 padded, engineer, "")))
  }

  // ---------------------------------------------------------------- the table layout

  /** The data columns of the table layout. */
  function TableColumns(main: seq<string>, sub: seq<string>): Columns
  {
    Columns(
      ColumnIndex(main, sub, ["材料", "材质"], AnyCell, true),
      ColumnIndex(main, sub, ["型腔", "前模"], Without("数"), false),
      ColumnIndex(main, sub, ["型芯", "后模"], Without("数"), false),
      ColumnIndex(main, sub, ["模具穴数", "模具腔数", "穴数", "腔数", "型腔数"], CountHeader, false),
      ColumnIndex(main, sub, ["产品外观尺寸", "外观尺寸", "尺寸"], AnyCell, false),
      ColumnIndex(main, sub, ["产品结构工程师", "结构工程师", "工程师"], AnyCell, false),
      ColumnIndex(main, sub, ["项目经理"], AnyCell, false),
      ColumnIndex(main, sub, ["零件图片", "图片", "图示"], AnyCell, false))
  }

  /** The part-name column: `零件名称` if some header says so, else a `名称` that is not a
      `项目` (project) name. */
  function PartNameColumn(main: seq<string>, sub: seq<string>): int
  {
    var exact := ColumnIndex(main, sub, ["零件名称"], AnyCell, false);
    if exact >= 0 then exact else ColumnIndex(main, sub, ["名称"], Without("项目"), false)
  }

  /** The record of data row `r`, if its drawing cell is not empty. */
  function RowRecord(sheetName: string, rows: seq<seq<Cell>>, r: nat, drawingCol: nat, nameCol: nat,
                     cols: Columns): (rec: Option<Record>)
    requires r < |rows|
    ensures rec.Some? <==> Normalize(CellAt(rows[r], drawingCol)) != []
    ensures rec.Some? ==> FromDataRow(rec.value, rows, drawingCol, r, r + 1)
  {
    var partDrawingRaw := Normalize(CellAt(rows[r], drawingCol));
    var partName := Normalize(CellAt(rows[r], nameCol));
    if partDrawingRaw == [] then None
    else
      var spec := BuildSpecData(rows[r], cols, partDrawingRaw, partName);
      Some(Record(sheetName, Some(r), partDrawingRaw, partName, spec.drawings, spec))
  }

  /** The row a record was read from; -1 for the form layout's record. */
  function RowOf(rec: Record): int
  {
    if rec.rowIndex.Some? then rec.rowIndex.value else -1
  }

  /** A record read from data row `RowOf(rec)`, between `start` and `end`, whose drawing cell
      is not empty, with that cell's drawing numbers and one product entry per drawing. */
  predicate FromDataRow(rec: Record, rows: seq<seq<Cell>>, drawingCol: int, start: nat, end: nat)
    requires end <= |rows|
  {
    rec.rowIndex.Some? && start <= rec.rowIndex.value < end
    && rec.partDrawingRaw == Normalize(CellAt(rows[rec.rowIndex.value], drawingCol)) && rec.partDrawingRaw != []
    && rec.drawings == ParseDrawings(rec.partDrawingRaw) && |rec.spec.names| == |rec.drawings|
  }

  /** The records of the data rows `start .. end - 1`, in row order. */
  function TableRecords(sheetName: string, rows: seq<seq<Cell>>, start: nat, end: nat, drawingCol: nat,
                        nameCol: nat, cols: Columns): (recs: seq<Record>)
    requires end <= |rows|
    ensures forall i :: 0 <= i < |recs| ==> FromDataRow(recs[i], rows, drawingCol, start, end)
    ensures forall i, j :: 0 <= i < j < |recs| ==> RowOf(recs[i]) < RowOf(recs[j])
    decreases end
  {
    if end <= start then []
    else
      var before := TableRecords(sheetName, rows, start, end - 1, drawingCol, nameCol, cols);
      match RowRecord(sheetName, rows, end - 1, drawingCol, nameCol, cols)
      case Some(rec) => before + [rec]
      case None => before
  }

  /** The records of the table layout whose main header is row `m`: none when the drawing or
      the part-name column is missing. */
  function TableLayout(sheetName: string, rows: seq<seq<Cell>>, m: nat): (recs: seq<Record>)
    requires m < |rows|
    ensures forall i :: 0 <= i < |recs| ==> FromDataRow(recs[i], rows, TableDrawingColumn(rows, m), m + 1, |rows|)
  {
    var sub := SubHeader(rows, m);
    var mainRow := NormalizedRow(rows[m]);
    var subRow := SubHeaderRow(rows, m);
    var drawingCol := TableDrawingColumn(rows, m);
    var nameCol := PartNameColumn(mainRow, subRow);
    if drawingCol < 0 || nameCol < 0 then []
    else
      var start := if sub.Some? then sub.value + 1 else m + 1;
      TableRecords(sheetName, rows, start, |rows|, drawingCol, nameCol, TableColumns(mainRow, subRow))
  }

  /** The normalised sub-header row, empty when there is none. */
  function SubHeaderRow(rows: seq<seq<Cell>>, m: nat): seq<string>
  {
    var sub := SubHeader(rows, m);
    if sub.Some? then NormalizedRow(rows[sub.value]) else []
  }

  function TableDrawingColumn(rows: seq<seq<Cell>>, m: nat): int
    requires m < |rows|
  {
    ColumnIndex(NormalizedRow(rows[m]), SubHeaderRow(rows, m), ["零件图号", "图号"], AnyCell, false)
  }

  /** The form layout: at most one record, read from labels. */
  function FormLayout(sheetName: string, rows: seq<seq<Cell>>): (recs: seq<Record>)
    ensures |recs| <= 1
    ensures forall i :: 0 <= i < |recs| ==>
              recs[i].rowIndex.None? && recs[i].drawings == ParseDrawings(recs[i].partDrawingRaw)
              && |recs[i].spec.names| == |recs[i].drawings|
  {
    if LikelyTechSpec(rows) then
      match FormRecord(sheetName, rows)
      case Some(rec) => [rec]
      case None => []
    else []
  }

  /** `parseTechSpecExcel` on the rows of the first sheet: the table layout when a header row
      is found, else at most the one form record of a sheet that looks like a specification. */
  function SheetRecords(sheetName: string, rows: seq<seq<Cell>>): (recs: seq<Record>)
    ensures forall i :: 0 <= i < |recs| ==>
              recs[i].drawings == ParseDrawings(recs[i].partDrawingRaw) && |recs[i].spec.names| == |recs[i].drawings|
    ensures forall i :: 0 <= i < |recs| && recs[i].rowIndex.Some? ==>
              recs[i].rowIndex.value < |rows| && recs[i].partDrawingRaw != []
    ensures MainHeaderFrom(rows, 0).None? ==> |recs| <= 1
  {
    if |rows| < 2 then []
    else match MainHeaderFrom(rows, 0)
      case Some(m) => TableLayout(sheetName, rows, m)
      case None => FormLayout(sheetName, rows)
  }

  /** The record loop of `parseTechSpecExcel`, one push per data row with a drawing. */
  method ReadTable(sheetName: string, rows: seq<seq<Cell>>, start: nat, drawingCol: nat, nameCol: nat,
                   cols: Columns) returns (records: seq<Record>)
    ensures records == TableRecords(sheetName, rows, start, |rows|, drawingCol, nameCol, cols)
  {
    records := [];
    var r := start;
    if r > |rows| {
      return;
    }
    while r < |rows|
      invariant start <= r <= |rows|
      invariant records == TableRecords(sheetName, rows, start, r, drawingCol, nameCol, cols)
    {
      var rec := ReadRow(sheetName, rows, r, drawingCol, nameCol, cols);
      TableRecordsStep(sheetName, rows, start, r, drawingCol, nameCol, cols);
      if rec.Some? {
        records := records + [rec.value];
      }
      r := r + 1;
    }
  }

  /** The records up to row `r` inclusive are those before it and then row `r`'s, if any. */
  lemma TableRecordsStep(sheetName: string, rows: seq<seq<Cell>>, start: nat, r: nat, drawingCol: nat,
                         nameCol: nat, cols: Columns)
    requires start <= r < |rows|
    ensures TableRecords(sheetName, rows, start, r + 1, drawingCol, nameCol, cols)
         == TableRecords(sheetName, rows, start, r, drawingCol, nameCol, cols)
            + (match RowRecord(sheetName, rows, r, drawingCol, nameCol, cols) case Some(x) => [x] case None => [])
  {
  }

  /** One pass of the record loop: skip a row whose drawing cell is empty, else build its record. */
  method ReadRow(sheetName: string, rows: seq<seq<Cell>>, r: nat, drawingCol: nat, nameCol: nat,
                 cols: Columns) returns (rec: Option<Record>)
    requires r < |rows|
    ensures rec == RowRecord(sheetName, rows, r, drawingCol, nameCol, cols)
  {
    var partDrawingRaw := Normalize(CellAt(rows[r], drawingCol));
    if partDrawingRaw == [] {
      return None;
    }
    var partName := Normalize(CellAt(rows[r], nameCol));
    var spec := BuildSpecData(rows[r], cols, partDrawingRaw, partName);
    rec := Some(Record(sheetName, Some(r), partDrawingRaw, partName, spec.drawings, spec));
  }

  /** A header without a drawing column or without a part-name column yields no record. */
  lemma MissingColumnGivesNothing(sheetName: string, rows: seq<seq<Cell>>)
    requires |rows| >= 2 && MainHeaderFrom(rows, 0).Some?
    requires var m := MainHeaderFrom(rows, 0).value;
      TableDrawingColumn(rows, m) < 0 || PartNameColumn(NormalizedRow(rows[m]), SubHeaderRow(rows, m)) < 0
    ensures SheetRecords(sheetName, rows) == []
  {
  }
}
