/** The sales-order routes of packages/backend/routes/sales-orders.js: the category and
    path-safe code derived from a project code, the compact `YYYYMMDD` date, and the split of
    an order into new orders (validation, numbering, and the reassignment of lines and
    attachments). The list and the order-number rule are in `OrderList` and `DocNumber`. */
module SalesOrders {
  import opened Common
  import opened JsNumber
  import DocNumber

  // ---------------------------------------------------------------- categories

  const Mould: string := "塑胶模具"
  const Machining: string := "零件加工"
  const Rework: string := "修改模具"
  const Other: string := "其他"

  /** `getCategoryFromProjectCode`: the code is trimmed and upper-cased, and its prefix
      JH01/JH03/JH05 names the category. A falsy code ("") is 其他. */
  function CategoryOf(projectCode: string): (r: string)
    ensures r == Mould || r == Machining || r == Rework || r == Other
    ensures projectCode == [] ==> r == Other
    ensures r == Mould <==> StartsWith(ToUpper(Trim(projectCode)), "JH01")
    ensures r == Machining <==> StartsWith(ToUpper(Trim(projectCode)), "JH03")
    ensures r == Rework <==> StartsWith(ToUpper(Trim(projectCode)), "JH05")
  {
    if projectCode == [] then Other
    else
      var code := ToUpper(Trim(projectCode));
      if StartsWith(code, "JH01") then Mould
      else if StartsWith(code, "JH03") then Machining
      else if StartsWith(code, "JH05") then Rework
      else Other
  }

  lemma UpperKeepsEnds(s: string)
    requires s == [] || (!IsSpace(s[0]) && !IsSpace(s[|s| - 1]))
    ensures var u := ToUpper(s); u == [] || (!IsSpace(u[0]) && !IsSpace(u[|u| - 1]))
  {
  }

  lemma {:induction false} UpperIsIdempotent(s: string)
    ensures ToUpper(ToUpper(s)) == ToUpper(s)
  {
    var u := ToUpper(s);
    assert forall i :: 0 <= i < |u| ==> ToUpperChar(u[i]) == u[i];
  }

  /** The category depends only on the trimmed, upper-cased code: normalising a code first
      does not change its category. */
  lemma CategoryIgnoresCaseAndSpaces(projectCode: string)
    requires Trim(projectCode) != []
    ensures CategoryOf(ToUpper(Trim(projectCode))) == CategoryOf(projectCode)
  {
    var t := Trim(projectCode);
    var u := ToUpper(t);
    UpperKeepsEnds(t);
    TrimOfTrimmed(u);
    UpperIsIdempotent(t);
  }

  // ---------------------------------------------------------------- path-safe codes

  /** The characters `/ \ ? % * : | " < >` that cannot appear in a path segment. */
  predicate IsPathUnsafe(c: char)
  {
    c == '/' || c == '\\' || c == '?' || c == '%' || c == '*' || c == ':' || c == '|'
    || c == '"' || c == '<' || c == '>'
  }

  function ReplaceUnsafe(s: string): (r: string)
    ensures |r| == |s|
    ensures forall i :: 0 <= i < |s| ==> r[i] == (if IsPathUnsafe(s[i]) then '_' else s[i])
  {
    if s == [] then [] else [if IsPathUnsafe(s[0]) then '_' else s[0]] + ReplaceUnsafe(s[1..])
  }

  /** `safeProjectCodeForPath`: a falsy code is UNKNOWN; otherwise the trimmed code with each
      unsafe character replaced by `_`. */
  function SafeProjectCodeForPath(projectCode: string): (r: string)
    ensures forall i :: 0 <= i < |r| ==> !IsPathUnsafe(r[i])
    ensures projectCode == [] ==> r == "UNKNOWN"
    ensures projectCode != [] ==> |r| == |Trim(projectCode)|
    ensures projectCode != [] ==> forall i :: 0 <= i < |r| ==>
      (r[i] == Trim(projectCode)[i] || (r[i] == '_' && IsPathUnsafe(Trim(projectCode)[i])))
  {
    if projectCode == [] then "UNKNOWN" else ReplaceUnsafe(Trim(projectCode))
  }

  /** A code that is only white space is truthy, so it does not become UNKNOWN: it becomes
      the empty path segment. */
  lemma BlankCodeIsEmptySegment()
    ensures SafeProjectCodeForPath("  ") == ""
  {
    assert TrimStart("  ") == "";
  }

  /** Applying the rule to its own non-empty output changes nothing. */
  lemma SafeCodeIsStable(projectCode: string)
    requires SafeProjectCodeForPath(projectCode) != []
    ensures SafeProjectCodeForPath(SafeProjectCodeForPath(projectCode)) == SafeProjectCodeForPath(projectCode)
  {
    var r := SafeProjectCodeForPath(projectCode);
    if projectCode != [] {
      var t := Trim(projectCode);
      assert !IsSpace(r[0]) && !IsSpace(r[|r| - 1]);
      TrimOfTrimmed(r);
      assert ReplaceUnsafe(r) == r;
    }
  }

  // ---------------------------------------------------------------- YYYYMMDD

  /** What `toYYYYMMDD` may receive: nothing (a falsy value), a string, a valid `Date` given
      by its local calendar fields, or an invalid `Date`. */
  datatype DateInput = Falsy | Text(s: string) | Instant(year: int, month: nat, day: nat) | InvalidDate

  predicate IsDateSep(c: char) { c == '-' || c == '/' }

  /** `/^(\d{4})[-/](\d{1,2})[-/](\d{1,2})/` on a text: the year, month and day digits. The
      month takes two digits only if a separator follows them; the day takes a second digit
      whenever there is one. */
  function DatePrefix(t: string): (r: Option<(string, string, string)>)
    ensures r.Some? ==> |r.value.0| == 4 && AllDigits(r.value.0)
    ensures r.Some? ==> 1 <= |r.value.1| <= 2 && AllDigits(r.value.1)
    ensures r.Some? ==> 1 <= |r.value.2| <= 2 && AllDigits(r.value.2)
  {
    if |t| >= 7 && AllDigits(t[..4]) && IsDateSep(t[4]) && IsDigit(t[5]) then
      var dayAt: nat := if IsDigit(t[6]) && |t| > 7 && IsDateSep(t[7]) then 8
                        else if IsDateSep(t[6]) then 7 else 0;
      if dayAt == 0 || |t| <= dayAt || !IsDigit(t[dayAt]) then None
      else
        var month := if dayAt == 8 then [t[5], t[6]] else [t[5]];
        var day := if |t| > dayAt + 1 && IsDigit(t[dayAt + 1]) then [t[dayAt], t[dayAt + 1]] else [t[dayAt]];
        Some((t[..4], month, day))
    else None
  }

  /** `String(n).padStart(2, '0')` */
  function Pad2(n: string): string
  {
    PadLeft(n, 2, '0')
  }

  /** `toYYYYMMDD`. A string is trimmed and read by the date pattern; a string the pattern
      rejects goes through `new Date(text)`, whose result is `parsed`. */
  function ToYYYYMMDD(val: DateInput, parsed: DateInput): (r: Option<string>)
    requires parsed.Instant? || parsed.InvalidDate?
  {
    match val
    case Falsy => None
    case Text(s) =>
      if s == [] then None
      else
        var m := DatePrefix(Trim(s));
        if m.Some? then Some(m.value.0 + Pad2(m.value.1) + Pad2(m.value.2))
        else CalendarText(parsed)
    case _ => CalendarText(val)
  }

  /** The `Date` branch: local year, then month and day padded to two digits. */
  function CalendarText(d: DateInput): Option<string>
  {
    if d.Instant? then Some(IntToString(d.year) + Pad2(NatToString(d.month)) + Pad2(NatToString(d.day)))
    else None
  }

  /** The pattern reads a date written `Y-M-D` or `Y/M/D` (either separator, one- or two-digit
      month and day). It is anchored only at the start: whatever follows the day, when it
      does not begin with a further digit, is ignored. */
  lemma DatePrefixReads(y: string, sep1: char, m: string, sep2: char, d: string, rest: string)
    requires |y| == 4 && AllDigits(y) && IsDateSep(sep1) && IsDateSep(sep2)
    requires 1 <= |m| <= 2 && AllDigits(m) && 1 <= |d| <= 2 && AllDigits(d)
    requires rest == [] || !IsDigit(rest[0])
    ensures DatePrefix(y + [sep1] + m + [sep2] + d + rest) == Some((y, m, d))
  {
    var t := y + [sep1] + m + [sep2] + d + rest;
    assert t[..4] == y && t[4] == sep1 && t[5] == m[0];
    var dayAt := 6 + |m|;
    assert t[dayAt - 1] == sep2;
    if |m| == 2 {
      assert t[6] == m[1];
      assert m == [t[5], t[6]];
    } else {
      assert m == [t[5]];
    }
    assert t[dayAt] == d[0];
    if |d| == 2 {
      assert t[dayAt + 1] == d[1];
      assert d == [t[dayAt], t[dayAt + 1]];
    } else {
      assert |t| == dayAt + 1 || t[dayAt + 1] == rest[0];
      assert d == [t[dayAt]];
    }
  }

  /** Eight digits holding a year text and the values of a month and a day. */
  predicate IsCompactDate(v: string, y: string, m: string, d: string)
  {
    |v| == 8 && AllDigits(v) && v[..4] == y
    && AllDigits(v[4..6]) && AllDigits(m) && DigitsValue(v[4..6]) == DigitsValue(m)
    && AllDigits(v[6..]) && AllDigits(d) && DigitsValue(v[6..]) == DigitsValue(d)
  }

  /** Such a date string, with or without a time after it, becomes eight digits whose parts
      have the values of the year, month and day. */
  lemma DateTextCompacts(y: string, sep1: char, m: string, sep2: char, d: string, rest: string,
                         parsed: DateInput)
    requires parsed.Instant? || parsed.InvalidDate?
    requires |y| == 4 && AllDigits(y) && IsDateSep(sep1) && IsDateSep(sep2)
    requires 1 <= |m| <= 2 && AllDigits(m) && 1 <= |d| <= 2 && AllDigits(d)
    requires rest == [] || (!IsDigit(rest[0]) && !IsSpace(rest[|rest| - 1]))
    ensures var r := ToYYYYMMDD(Text(y + [sep1] + m + [sep2] + d + rest), parsed);
      r.Some? && IsCompactDate(r.value, y, m, d)
  {
    DateTextIsTrimmed(y, sep1, m, sep2, d, rest);
    DatePrefixReads(y, sep1, m, sep2, d, rest);
    Compacted(y, m, d);
  }

  lemma DateTextIsTrimmed(y: string, sep1: char, m: string, sep2: char, d: string, rest: string)
    requires |y| == 4 && AllDigits(y) && 1 <= |d| <= 2 && AllDigits(d)
    requires rest == [] || !IsSpace(rest[|rest| - 1])
    ensures Trim(y + [sep1] + m + [sep2] + d + rest) == y + [sep1] + m + [sep2] + d + rest
  {
    var t := y + [sep1] + m + [sep2] + d + rest;
    assert t[0] == y[0] && t[|t| - 1] == (if rest == [] then d[|d| - 1] else rest[|rest| - 1]);
    TrimOfTrimmed(t);
  }

  lemma Compacted(y: string, m: string, d: string)
    requires |y| == 4 && AllDigits(y)
    requires 1 <= |m| <= 2 && AllDigits(m) && 1 <= |d| <= 2 && AllDigits(d)
    ensures IsCompactDate(y + Pad2(m) + Pad2(d), y, m, d)
  {
    PaddedValue(m);
    PaddedValue(d);
    CompactParts(y, Pad2(m), Pad2(d), m, d);
  }

  lemma CompactParts(y: string, pm: string, pd: string, m: string, d: string)
    requires |y| == 4 && AllDigits(y) && AllDigits(m) && AllDigits(d)
    requires |pm| == 2 && AllDigits(pm) && DigitsValue(pm) == DigitsValue(m)
    requires |pd| == 2 && AllDigits(pd) && DigitsValue(pd) == DigitsValue(d)
    ensures IsCompactDate(y + pm + pd, y, m, d)
  {
    var v := y + pm + pd;
    assert AllDigits(v) by {
      DigitsConcat(y, pm);
      DigitsConcat(y + pm, pd);
    }
    assert v[..4] == y && v[4..6] == pm && v[6..] == pd;
  }

  lemma PaddedValue(s: string)
    requires 1 <= |s| <= 2 && AllDigits(s)
    ensures |Pad2(s)| == 2 && AllDigits(Pad2(s)) && DigitsValue(Pad2(s)) == DigitsValue(s)
  {
    if |s| == 1 {
      DocNumber.LeadingZeros(1, s);
    }
  }

  // ---------------------------------------------------------------- split: choosing lines

  /** A row of the order table or of the attachment table as the split sees it: its own id
      (订单ID or 附件ID), the order line it belongs to (订单ID), and its order number. */
  datatype Entry = Entry(key: int, detailId: int, orderNo: string)

  datatype Db = Db(rows: seq<Entry>, attachments: seq<Entry>)

  /** One requested group: `String(g.key || '')` and the `detailIds` array (an empty array
      when the request's value is not an array). */
  datatype SplitRequest = SplitRequest(key: string, detailIds: seq<Value>)

  /** A group kept for the split, with its normalised ids. */
  datatype NewGroup = NewGroup(key: string, detailIds: seq<int>)

  /** An entry of the reply's `created` list. */
  datatype Created = Created(groupKey: string, orderNo: string, movedDetailIds: seq<int>)

  datatype SplitOutcome = Rejected(code: int) | Done(created: seq<Created>, db: Db)

  /** `Number(id)` when it is an integer > 0. */
  function PositiveId(v: Value): (r: Option<int>)
    ensures r.Some? ==> r.value > 0
  {
    var n := ToNumber(v);
    if n.Finite? && n.v == n.v.Floor as real && n.v > 0.0 then Some(n.v.Floor) else None
  }

  /** `allDetailIds`: the positive ids of the source order's lines. */
  function SourceIds(rows: seq<Entry>, source: string): set<int>
  {
    set e | e in rows && e.orderNo == source && e.detailId > 0 :: e.detailId
  }

  /** `normalizedIds`: the requested ids that are positive integers and lines of the source
      order, in request order. */
  function NormalizedIds(ids: seq<Value>, all: set<int>): (r: seq<int>)
    ensures forall i :: 0 <= i < |r| ==> r[i] in all
  {
    if ids == [] then []
    else
      var rest := NormalizedIds(ids[..|ids| - 1], all);
      var p := PositiveId(ids[|ids| - 1]);
      if p.Some? && p.value in all then rest + [p.value] else rest
  }

  /** Whether a request group is kept: its trimmed key is neither empty nor 'origin' and
      at least one of its ids survives normalisation. */
  predicate Kept(g: SplitRequest, all: set<int>)
  {
    Trim(g.key) != [] && Trim(g.key) != "origin" && NormalizedIds(g.detailIds, all) != []
  }

  function Selected(reqs: seq<SplitRequest>, all: set<int>): (r: seq<NewGroup>)
    ensures |r| <= |reqs|
    ensures forall i :: 0 <= i < |r| ==> r[i].detailIds != [] && r[i].key != [] && r[i].key != "origin"
  {
    if reqs == [] then []
    else
      var rest := Selected(reqs[..|reqs| - 1], all);
      var g := reqs[|reqs| - 1];
      if Kept(g, all) then rest + [NewGroup(Trim(g.key), NormalizedIds(g.detailIds, all))] else rest
  }

  function IdSet(ids: seq<int>): set<int>
  {
    set i | i in ids
  }

  /** `movedDetailIds`: every id of the kept groups. */
  function MovedOf(gs: seq<NewGroup>): set<int>
  {
    if gs == [] then {} else MovedOf(gs[..|gs| - 1]) + IdSet(gs[|gs| - 1].detailIds)
  }

  lemma {:induction false} MovedWithin(reqs: seq<SplitRequest>, all: set<int>)
    ensures MovedOf(Selected(reqs, all)) <= all
    ensures Selected(reqs, all) != [] <==> MovedOf(Selected(reqs, all)) != {}
  {
    if reqs != [] {
      var prefix := reqs[..|reqs| - 1];
      MovedWithin(prefix, all);
      var sel := Selected(reqs, all);
      if sel != Selected(prefix, all) {
        assert sel[..|sel| - 1] == Selected(prefix, all);
        assert sel[|sel| - 1].detailIds[0] in MovedOf(sel);
      }
    }
  }

  lemma {:induction false} MovedMembers(gs: seq<NewGroup>, id: int)
    ensures id in MovedOf(gs) <==> exists i :: 0 <= i < |gs| && id in gs[i].detailIds
  {
    if gs != [] {
      var prefix := gs[..|gs| - 1];
      MovedMembers(prefix, id);
      if id in MovedOf(prefix) {
        var i :| 0 <= i < |prefix| && id in prefix[i].detailIds;
        assert gs[i] == prefix[i];
      }
      if exists i :: 0 <= i < |gs| && id in gs[i].detailIds {
        var i :| 0 <= i < |gs| && id in gs[i].detailIds;
        if i < |prefix| {
          assert prefix[i] == gs[i];
        }
      }
    }
  }

  lemma SelectedStep(reqs: seq<SplitRequest>, all: set<int>, i: nat)
    requires i < |reqs|
    ensures Selected(reqs[..i + 1], all) ==
      if Kept(reqs[i], all) then Selected(reqs[..i], all) + [NewGroup(Trim(reqs[i].key), NormalizedIds(reqs[i].detailIds, all))]
      else Selected(reqs[..i], all)
  {
    assert reqs[..i + 1][..i] == reqs[..i];
  }

  lemma MovedStep(gs: seq<NewGroup>, g: NewGroup)
    ensures MovedOf(gs + [g]) == MovedOf(gs) + IdSet(g.detailIds)
  {
    assert (gs + [g])[..|gs|] == gs;
  }

  /** The `for … of groups` loop that builds `newGroups` and `movedDetailIds`. */
  method SelectGroups(reqs: seq<SplitRequest>, all: set<int>)
    returns (newGroups: seq<NewGroup>, moved: set<int>)
    ensures newGroups == Selected(reqs, all)
    ensures moved == MovedOf(newGroups)
  {
    newGroups, moved := [], {};
    var i := 0;
    while i < |reqs|
      invariant i <= |reqs|
      invariant newGroups == Selected(reqs[..i], all)
      invariant moved == MovedOf(newGroups)
    {
      var key := Trim(reqs[i].key);
      var ids := NormalizedIds(reqs[i].detailIds, all);
      SelectedStep(reqs, all, i);
      if key != [] && key != "origin" && ids != [] {
        MovedStep(newGroups, NewGroup(key, ids));
        newGroups := newGroups + [NewGroup(key, ids)];
        moved := moved + IdSet(ids);
      }
      i := i + 1;
    }
    assert reqs[..|reqs|] == reqs;
  }

  // ---------------------------------------------------------------- split: numbering

  /** The serial that the `MAX(TRY_CAST(RIGHT(订单编号, 3) AS INT))` query reads from one
      order number: the number must be like `XS-<date>-%` and like `XS-________-___`, and
      its last three characters must be digits. */
  function SerialOf(no: string, date: string): (r: Option<nat>)
    ensures r.Some? ==> r.value < 1000
  {
    if |no| == 15 && no[..3] == "XS-" && no[11] == '-' && StartsWith(no, "XS-" + date + "-")
       && AllDigits(no[12..])
    then
      DigitsValueBound(no[12..]);
      assert Pow10(3) == 1000;
      Some(DigitsValue(no[12..]))
    else None
  }

  /** `lastSerial`: the largest such serial over the order table, 0 when there is none. */
  function LastSerial(rows: seq<Entry>, date: string): (n: nat)
  {
    if rows == [] then 0
    else
      var s := SerialOf(rows[|rows| - 1].orderNo, date);
      var rest := LastSerial(rows[..|rows| - 1], date);
      if s.Some? && s.value > rest then s.value else rest
  }

  lemma {:induction false} LastSerialIsMax(rows: seq<Entry>, date: string, i: nat)
    requires i < |rows| && SerialOf(rows[i].orderNo, date).Some?
    ensures SerialOf(rows[i].orderNo, date).value <= LastSerial(rows, date)
  {
    if i < |rows| - 1 {
      LastSerialIsMax(rows[..|rows| - 1], date, i);
    }
  }

  /** A number the route formats is read back by the serial query. */
  lemma SerialOfFormat(date: string, k: nat)
    requires |date| == 8 && AllDigits(date) && k < 1000
    ensures SerialOf(DocNumber.Format("XS", date, k), date) == Some(k)
  {
    NumberSlices(date, DocNumber.Serial3(k));
    DocNumber.Serial3Value(k);
  }

  /** The pieces of `XS-date-t` that the serial query looks at. */
  lemma NumberSlices(date: string, t: string)
    requires |date| == 8 && |t| == 3
    ensures var no := "XS" + "-" + date + "-" + t;
      |no| == 15 && no[..3] == "XS-" && no[11] == '-' && no[..12] == "XS-" + date + "-" && no[12..] == t
  {
  }

  /** The number of group `idx`: serial lastSerial + 1 + idx on the order's date, or one
      higher if that happens to be the source order's own number. */
  function NumberFor(date: string, lastSerial: nat, idx: nat, source: string): string
  {
    var no := DocNumber.Format("XS", date, lastSerial + 1 + idx);
    if no == source then DocNumber.Format("XS", date, lastSerial + 2 + idx) else no
  }

  function CreatedOf(gs: seq<NewGroup>, date: string, lastSerial: nat, source: string): (r: seq<Created>)
    ensures |r| == |gs|
    ensures forall i :: 0 <= i < |gs| ==>
      r[i] == Created(gs[i].key, NumberFor(date, lastSerial, i, source), gs[i].detailIds)
  {
    if gs == [] then []
    else
      CreatedOf(gs[..|gs| - 1], date, lastSerial, source)
      + [Created(gs[|gs| - 1].key, NumberFor(date, lastSerial, |gs| - 1, source), gs[|gs| - 1].detailIds)]
  }

  /** A number above the table's last serial (and below 1000) is not in the table. */
  lemma FormattedIsUnused(rows: seq<Entry>, date: string, k: nat)
    requires |date| == 8 && AllDigits(date)
    requires LastSerial(rows, date) < k < 1000
    ensures forall m :: 0 <= m < |rows| ==> rows[m].orderNo != DocNumber.Format("XS", date, k)
  {
    SerialOfFormat(date, k);
    forall m | 0 <= m < |rows|
      ensures rows[m].orderNo != DocNumber.Format("XS", date, k)
    {
      if rows[m].orderNo == DocNumber.Format("XS", date, k) {
        LastSerialIsMax(rows, date, m);
      }
    }
  }

  /** With fewer than 1000 serials in use on the date, group `i` gets serial
      lastSerial + 1 + i, a number no row of the table has: the bump is never needed. */
  lemma CreatedIsFresh(rows: seq<Entry>, gs: seq<NewGroup>, date: string, source: string, s0: nat, i: nat)
    requires |date| == 8 && AllDigits(date)
    requires s0 < |rows| && rows[s0].orderNo == source
    requires LastSerial(rows, date) + |gs| <= 999 && i < |gs|
    ensures var no := CreatedOf(gs, date, LastSerial(rows, date), source)[i].orderNo;
      no == DocNumber.Format("XS", date, LastSerial(rows, date) + 1 + i)
      && forall m :: 0 <= m < |rows| ==> rows[m].orderNo != no
  {
    FormattedIsUnused(rows, date, LastSerial(rows, date) + 1 + i);
  }

  // ---------------------------------------------------------------- split: moving lines

  /** The UPDATEs of one created group: entries of the source order whose line is among the
      group's ids get the group's number. */
  function Moved(es: seq<Entry>, source: string, c: Created): (r: seq<Entry>)
    ensures |r| == |es|
    ensures forall i :: 0 <= i < |es| ==> r[i] == (if es[i].orderNo == source && es[i].detailId in c.movedDetailIds
                                                then es[i].(orderNo := c.orderNo) else es[i])
  {
    if es == [] then []
    else
      [if es[0].orderNo == source && es[0].detailId in c.movedDetailIds then es[0].(orderNo := c.orderNo)
       else es[0]] + Moved(es[1..], source, c)
  }

  /** The groups' UPDATEs in order. */
  function Applied(es: seq<Entry>, source: string, cs: seq<Created>): (r: seq<Entry>)
    ensures |r| == |es|
    decreases |cs|
  {
    if cs == [] then es else Applied(Moved(es, source, cs[0]), source, cs[1..])
  }

  /** The number of the first group that lists a line. */
  function FirstGroupNo(cs: seq<Created>, id: int): Option<string>
  {
    if cs == [] then None
    else if id in cs[0].movedDetailIds then Some(cs[0].orderNo)
    else FirstGroupNo(cs[1..], id)
  }

  /** The loop over `created` with its attachment and line UPDATEs. */
  method MoveDetails(db: Db, source: string, created: seq<Created>) returns (after: Db)
    ensures after == Db(Applied(db.rows, source, created), Applied(db.attachments, source, created))
  {
    var rows, attachments := db.rows, db.attachments;
    var i := 0;
    while i < |created|
      invariant i <= |created|
      invariant Applied(rows, source, created[i..]) == Applied(db.rows, source, created)
      invariant Applied(attachments, source, created[i..]) == Applied(db.attachments, source, created)
    {
      assert created[i..][0] == created[i] && created[i..][1..] == created[i + 1..];
      attachments := Moved(attachments, source, created[i]);
      rows := Moved(rows, source, created[i]);
      i := i + 1;
    }
    after := Db(rows, attachments);
  }

  /** Where a line ends up: when no group takes the source number, an entry of the source
      order moves to the first group that lists its line, and every other entry stays. */
  lemma {:induction false} AppliedEntry(es: seq<Entry>, source: string, cs: seq<Created>, i: nat)
    requires i < |es|
    requires forall j :: 0 <= j < |cs| ==> cs[j].orderNo != source
    ensures Applied(es, source, cs)[i] ==
      (if es[i].orderNo == source && FirstGroupNo(cs, es[i].detailId).Some?
       then es[i].(orderNo := FirstGroupNo(cs, es[i].detailId).value) else es[i])
    decreases |cs|
  {
    if cs != [] {
      AppliedEntry(Moved(es, source, cs[0]), source, cs[1..], i);
    }
  }

  lemma {:induction false} FirstGroupFound(cs: seq<Created>, id: int)
    ensures FirstGroupNo(cs, id).Some? <==> exists j :: 0 <= j < |cs| && id in cs[j].movedDetailIds
  {
    if cs != [] {
      FirstGroupFound(cs[1..], id);
      if exists j :: 0 <= j < |cs| && id in cs[j].movedDetailIds {
        var j :| 0 <= j < |cs| && id in cs[j].movedDetailIds;
        if j > 0 {
          assert cs[1..][j - 1] == cs[j];
        }
      }
    }
  }

  // ---------------------------------------------------------------- split: the route

  /** The index of the first row of an order, if it has one (`sourceRows.length`). */
  function FirstRowOf(rows: seq<Entry>, no: string): (r: Option<nat>)
    ensures r.Some? ==> r.value < |rows| && rows[r.value].orderNo == no
    ensures r.None? ==> forall m :: 0 <= m < |rows| ==> rows[m].orderNo != no
  {
    if rows == [] then None
    else if rows[0].orderNo == no then Some(0)
    else
      var r := FirstRowOf(rows[1..], no);
      if r.Some? then Some(r.value + 1) else None
  }

  /** The groups the split creates, once the request has passed validation. */
  function CreatedFor(db: Db, source: string, reqs: seq<SplitRequest>, date: string): seq<Created>
  {
    CreatedOf(Selected(reqs, SourceIds(db.rows, source)), date, LastSerial(db.rows, date), source)
  }

  /** `POST /:orderNo/split` given the order's date text (`toYYYYMMDD` of its first line's
      date, or of today). Nothing is written when the request is rejected. */
  function SplitSpec(db: Db, sourceParam: string, groups: Option<seq<SplitRequest>>, date: string): (r: SplitOutcome)
    ensures r.Rejected? ==> r.code == 400 || r.code == 404
  {
    var source := Trim(sourceParam);
    if source == [] then Rejected(400)
    else if groups.None? || groups.value == [] then Rejected(400)
    else if FirstRowOf(db.rows, source).None? then Rejected(404)
    else
      var all := SourceIds(db.rows, source);
      var sel := Selected(groups.value, all);
      var moved := MovedOf(sel);
      if sel == [] || moved == {} then Rejected(400)
      else if |all| - |moved| < 1 then Rejected(400)
      else
        var created := CreatedFor(db, source, groups.value, date);
        Done(created, Db(Applied(db.rows, source, created), Applied(db.attachments, source, created)))
  }

  /** The route: validation, the selection loop, the numbering and the UPDATE loop. */
  method Split(db: Db, sourceParam: string, groups: Option<seq<SplitRequest>>, date: string)
    returns (r: SplitOutcome)
    ensures r == SplitSpec(db, sourceParam, groups, date)
  {
    var source := Trim(sourceParam);
    if source == [] {
      return Rejected(400);
    }
    if groups.None? || groups.value == [] {
      return Rejected(400);
    }
    if FirstRowOf(db.rows, source).None? {
      return Rejected(404);
    }
    var all := SourceIds(db.rows, source);
    var newGroups, moved := SelectGroups(groups.value, all);
    if newGroups == [] || moved == {} {
      return Rejected(400);
    }
    if |all| - |moved| < 1 {
      return Rejected(400);
    }
    var created := CreatedOf(newGroups, date, LastSerial(db.rows, date), source);
    assert created == CreatedFor(db, source, groups.value, date);
    var after := MoveDetails(db, source, created);
    r := Done(created, after);
  }

  /** Of the source's lines, some stay exactly when not all of them move. */
  lemma SomeStay(moved: set<int>, all: set<int>)
    requires moved <= all
    ensures |all| - |moved| >= 1 <==> moved < all
  {
    var rest := all - moved;
    assert all == moved + rest;
    assert moved * rest == {};
    if moved < all {
      assert rest != {};
    }
  }

  /** When each outcome happens: 400 for a blank order number or no groups, 404 for an
      unknown order, 400 when no line moves or when no line would stay; otherwise the
      split goes through. */
  lemma SplitOutcomes(db: Db, sourceParam: string, groups: Option<seq<SplitRequest>>, date: string)
    ensures var r := SplitSpec(db, sourceParam, groups, date);
      var source := Trim(sourceParam);
      var all := SourceIds(db.rows, source);
      (r == Rejected(404) <==> source != [] && groups.Some? && groups.value != []
                               && forall m :: 0 <= m < |db.rows| ==> db.rows[m].orderNo != source)
      && (r.Done? <==> source != [] && groups.Some? && groups.value != []
                       && FirstRowOf(db.rows, source).Some?
                       && MovedOf(Selected(groups.value, all)) != {}
                       && MovedOf(Selected(groups.value, all)) < all)
  {
    var source := Trim(sourceParam);
    if source != [] && groups.Some? && groups.value != [] {
      var all := SourceIds(db.rows, source);
      MovedWithin(groups.value, all);
      SomeStay(MovedOf(Selected(groups.value, all)), all);
    }
  }

  /** What a split that goes through creates. */
  lemma SplitCreates(db: Db, sourceParam: string, groups: Option<seq<SplitRequest>>, date: string)
    requires SplitSpec(db, sourceParam, groups, date).Done?
    ensures groups.Some? && FirstRowOf(db.rows, Trim(sourceParam)).Some?
    ensures SplitSpec(db, sourceParam, groups, date).created == CreatedFor(db, Trim(sourceParam), groups.value, date)
  {
  }

  /** Two groups never share a number below serial 1000. */
  lemma {:induction false} CreatedAreDistinct(rows: seq<Entry>, gs: seq<NewGroup>, date: string, source: string, s0: nat, i: nat, j: nat)
    requires |date| == 8 && AllDigits(date)
    requires s0 < |rows| && rows[s0].orderNo == source
    requires LastSerial(rows, date) + |gs| <= 999 && i < |gs| && j < |gs| && i != j
    ensures CreatedOf(gs, date, LastSerial(rows, date), source)[i].orderNo
            != CreatedOf(gs, date, LastSerial(rows, date), source)[j].orderNo
  {
    var last := LastSerial(rows, date);
    var cs := CreatedOf(gs, date, last, source);
    CreatedNumbers(rows, gs, date, source, s0, i, j);
    var x, y := cs[i].orderNo, cs[j].orderNo;
    DistinctNumbers(date, x, y, last + 1 + i, last + 1 + j);
  }

  /** Order numbers with different serials below 1000 on one date differ. */
  lemma {:induction false} DistinctNumbers(date: string, x: string, y: string, a: nat, b: nat)
    requires |date| == 8 && AllDigits(date) && a < 1000 && b < 1000 && a != b
    requires x == DocNumber.Format("XS", date, a) && y == DocNumber.Format("XS", date, b)
    ensures x != y
  {
    DocNumber.FormatInjective("XS", date, a, b);
  }

  /** The numbers of two groups, each its own serial. */
  lemma CreatedNumbers(rows: seq<Entry>, gs: seq<NewGroup>, date: string, source: string, s0: nat, i: nat, j: nat)
    requires |date| == 8 && AllDigits(date)
    requires s0 < |rows| && rows[s0].orderNo == source
    requires LastSerial(rows, date) + |gs| <= 999 && i < |gs| && j < |gs|
    ensures var cs := CreatedOf(gs, date, LastSerial(rows, date), source);
      cs[i].orderNo == DocNumber.Format("XS", date, LastSerial(rows, date) + 1 + i)
      && cs[j].orderNo == DocNumber.Format("XS", date, LastSerial(rows, date) + 1 + j)
  {
    CreatedIsFresh(rows, gs, date, source, s0, i);
    CreatedIsFresh(rows, gs, date, source, s0, j);
  }

  /** With fewer than 1000 serials in use on the date, every new number is new: group `i`
      gets serial lastSerial + 1 + i, no order in the table (the source included) has that
      number, and no two groups share one. */
  lemma SplitNumbersAreFresh(db: Db, sourceParam: string, groups: Option<seq<SplitRequest>>, date: string,
                             i: nat, j: nat)
    requires |date| == 8 && AllDigits(date)
    requires SplitSpec(db, sourceParam, groups, date).Done?
    requires LastSerial(db.rows, date) + |SplitSpec(db, sourceParam, groups, date).created| <= 999
    requires i < |SplitSpec(db, sourceParam, groups, date).created|
    ensures var cs := SplitSpec(db, sourceParam, groups, date).created;
      cs[i].orderNo == DocNumber.Format("XS", date, LastSerial(db.rows, date) + 1 + i)
      && (forall m :: 0 <= m < |db.rows| ==> db.rows[m].orderNo != cs[i].orderNo)
      && (j < |cs| && i != j ==> cs[i].orderNo != cs[j].orderNo)
  {
    var source := Trim(sourceParam);
    SplitCreates(db, sourceParam, groups, date);
    var gs := Selected(groups.value, SourceIds(db.rows, source));
    var s0 := FirstRowOf(db.rows, source).value;
    CreatedIsFresh(db.rows, gs, date, source, s0, i);
    if j < |gs| && i != j {
      CreatedAreDistinct(db.rows, gs, date, source, s0, i, j);
    }
  }

  /** After a split, an entry (line or attachment) of the source order whose line some group
      lists carries the number of the first group that lists it, and every other entry is
      unchanged. */
  lemma SplitMovesEntries(db: Db, sourceParam: string, groups: Option<seq<SplitRequest>>, date: string,
                          tableIsRows: bool, i: nat)
    requires |date| == 8 && AllDigits(date)
    requires SplitSpec(db, sourceParam, groups, date).Done?
    requires LastSerial(db.rows, date) + |SplitSpec(db, sourceParam, groups, date).created| <= 999
    requires i < |if tableIsRows then db.rows else db.attachments|
    ensures var r := SplitSpec(db, sourceParam, groups, date);
      var before := if tableIsRows then db.rows else db.attachments;
      var after := if tableIsRows then r.db.rows else r.db.attachments;
      var first := FirstGroupNo(r.created, before[i].detailId);
      after[i] == (if before[i].orderNo == Trim(sourceParam) && first.Some?
                   then before[i].(orderNo := first.value) else before[i])
  {
    var r := SplitSpec(db, sourceParam, groups, date);
    var source := Trim(sourceParam);
    var cs := r.created;
    forall j | 0 <= j < |cs|
      ensures cs[j].orderNo != source
    {
      SplitNumbersAreFresh(db, sourceParam, groups, date, j, j);
    }
    AppliedEntry(if tableIsRows then db.rows else db.attachments, source, cs, i);
  }

  /** After a split the source order keeps at least one line. */
  lemma SplitKeepsSource(db: Db, sourceParam: string, groups: Option<seq<SplitRequest>>, date: string)
    requires |date| == 8 && AllDigits(date)
    requires SplitSpec(db, sourceParam, groups, date).Done?
    requires LastSerial(db.rows, date) + |SplitSpec(db, sourceParam, groups, date).created| <= 999
    ensures exists m :: 0 <= m < |db.rows| && SplitSpec(db, sourceParam, groups, date).db.rows[m].orderNo
                                            == Trim(sourceParam)
  {
    var source := Trim(sourceParam);
    var all := SourceIds(db.rows, source);
    var sel := Selected(groups.value, all);
    var x := StayingLine(db, sourceParam, groups, date);
    var m := SourceRowOf(db.rows, source, x);
    MovedMembers(sel, x);
    SplitCreates(db, sourceParam, groups, date);
    FirstGroupFound(CreatedOf(sel, date, LastSerial(db.rows, date), source), x);
    SplitMovesEntries(db, sourceParam, groups, date, true, m);
  }

  /** A line of the source order that no group takes. */
  lemma StayingLine(db: Db, sourceParam: string, groups: Option<seq<SplitRequest>>, date: string) returns (x: int)
    requires SplitSpec(db, sourceParam, groups, date).Done?
    ensures groups.Some?
    ensures x in SourceIds(db.rows, Trim(sourceParam))
    ensures x !in MovedOf(Selected(groups.value, SourceIds(db.rows, Trim(sourceParam))))
  {
    var all := SourceIds(db.rows, Trim(sourceParam));
    var moved := MovedOf(Selected(groups.value, all));
    MovedWithin(groups.value, all);
    var rest := all - moved;
    assert all == moved + rest;
    assert moved * rest == {};
    x :| x in rest;
  }

  lemma SourceRowOf(rows: seq<Entry>, source: string, x: int) returns (m: nat)
    requires x in SourceIds(rows, source)
    ensures m < |rows| && rows[m].orderNo == source && rows[m].detailId == x
  {
    var e :| e in rows && e.orderNo == source && e.detailId == x;
    m :| m < |rows| && rows[m] == e;
  }
}
