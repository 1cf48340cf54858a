/** The text rules of the server-side reader of mould-transfer notices in PDF form
    (`packages/backend/utils/pdf/mouldTransferPdfParser.js`): keys without white space, the
    dash variants, seal numbers found in a cell, mould names, part numbers printed in two
    pieces, and the move date.

    Regular expressions are written out as matchers, as in `MouldText`: `XEnd(s, i)` says
    where the pattern matching at `i` ends, settling each greedy run the way the JavaScript
    engine does, and `FirstFrom` finds the leftmost match. */
module MouldTransferPdfText {
  import opened Common
  import opened MouldText

  // ---------------------------------------------------------------- keys

  /** `[\uE000-\uF8FF]`: the private-use area, where some PDF fonts put their glyphs. */
  predicate IsPrivateUse(c: char) { '\U{E000}' <= c <= '\U{F8FF}' }

  /** No white space and no private-use character. */
  predicate IsKeyText(s: string)
  {
    forall i :: 0 <= i < |s| ==> !IsSpace(s[i]) && !IsPrivateUse(s[i])
  }

  /** `replace(/[\uE000-\uF8FF]/g, '')`. */
  function DropPrivate(s: string): (r: string)
    ensures forall i :: 0 <= i < |r| ==> !IsPrivateUse(r[i])
    ensures forall c :: c in r <==> c in s && !IsPrivateUse(c)
  {
    if s == [] then []
    else
      assert s == [s[0]] + s[1..];
      (if IsPrivateUse(s[0]) then [] else [s[0]]) + DropPrivate(s[1..])
  }

  lemma {:induction false} RemoveSpacesHas(s: string)
    ensures forall c :: c in RemoveSpaces(s) <==> c in s && !IsSpace(c)
  {
    if s != [] {
      RemoveSpacesHas(s[1..]);
      assert s == [s[0]] + s[1..];
    }
  }

  lemma {:induction false} RemoveSpacesOfSpaceFree(s: string)
    requires forall i :: 0 <= i < |s| ==> !IsSpace(s[i])
    ensures RemoveSpaces(s) == s
  {
    if s != [] {
      RemoveSpacesOfSpaceFree(s[1..]);
      assert s == [s[0]] + s[1..];
    }
  }

  lemma {:induction false} DropPrivateOfPlain(s: string)
    requires forall i :: 0 <= i < |s| ==> !IsPrivateUse(s[i])
    ensures DropPrivate(s) == s
  {
    if s != [] {
      DropPrivateOfPlain(s[1..]);
      assert s == [s[0]] + s[1..];
    }
  }

  /** `normalizeKey`: white space removed, then the private-use characters, then a trim. */
  function NormalizeKey(s: string): (r: string)
    ensures IsKeyText(r)
  {
    var t := DropPrivate(RemoveSpaces(s));
    RemoveSpacesHas(s);
    assert forall i :: 0 <= i < |t| ==> !IsSpace(t[i]) by {
      forall i | 0 <= i < |t| ensures !IsSpace(t[i]) {
        assert t[i] in t;
      }
    }
    TrimOfTrimmed(t);
    Trim(t)
  }

  /** The key keeps exactly the characters of `s` that are neither white space nor private use,
      and a key is its own key, so normalising twice changes nothing. */
  lemma NormalizeKeyMeaning(s: string)
    ensures forall c :: c in NormalizeKey(s) <==> c in s && !IsSpace(c) && !IsPrivateUse(c)
    ensures IsKeyText(s) ==> NormalizeKey(s) == s
    ensures NormalizeKey(NormalizeKey(s)) == NormalizeKey(s)
  {
    RemoveSpacesHas(s);
    var t := DropPrivate(RemoveSpaces(s));
    assert NormalizeKey(s) == t;
    if IsKeyText(s) {
      RemoveSpacesOfSpaceFree(s);
      DropPrivateOfPlain(s);
    }
    var k := NormalizeKey(s);
    RemoveSpacesOfSpaceFree(k);
    DropPrivateOfPlain(k);
  }

  // ---------------------------------------------------------------- dashes

  /** `[－—–‑−]`: full-width hyphen-minus, em dash, en dash, non-breaking hyphen, minus sign. */
  predicate IsDashVariant(c: char)
  {
    c == '\U{FF0D}' || c == '\U{2014}' || c == '\U{2013}' || c == '\U{2011}' || c == '\U{2212}'
  }

  /** `[-－—–‑−]`. */
  predicate IsAnyHyphen(c: char) { c == '-' || IsDashVariant(c) }

  /** `normalizeHyphens`: every dash variant becomes '-'; nothing else changes. */
  function NormalizeHyphens(s: string): (r: string)
    ensures |r| == |s|
    ensures forall i {:trigger r[i]} :: 0 <= i < |s| ==> r[i] == (if IsDashVariant(s[i]) then '-' else s[i])
  {
    if s == [] then [] else [if IsDashVariant(s[0]) then '-' else s[0]] + NormalizeHyphens(s[1..])
  }

  /** No dash variant survives, and a second pass changes nothing. */
  lemma NormalizeHyphensDone(s: string)
    ensures forall i :: 0 <= i < |s| ==> !IsDashVariant(NormalizeHyphens(s)[i])
    ensures NormalizeHyphens(NormalizeHyphens(s)) == NormalizeHyphens(s)
  {
  }

  /** `normalizeSeal`: dashes made plain, white space removed. */
  function NormalizeSeal(s: string): string
  {
    RemoveSpaces(NormalizeHyphens(s))
  }

  // ---------------------------------------------------------------- seal numbers

  /** `[A-Z0-9]` under the `i` flag. */
  predicate IsCode(c: char) { IsAsciiLetter(c) || IsDigit(c) }

  predicate AllCode(s: string) { forall i :: 0 <= i < |s| ==> IsCode(s[i]) }

  /** Length of the run of `[A-Z0-9]` that starts at `i`. */
  function CodeRun(s: string, i: nat): (n: nat)
    requires i <= |s|
    ensures i + n <= |s|
    ensures forall k :: i <= k < i + n ==> IsCode(s[k])
    ensures i + n < |s| ==> !IsCode(s[i + n])
    decreases |s| - i
  {
    if i < |s| && IsCode(s[i]) then 1 + CodeRun(s, i + 1) else 0
  }

  /** `ML` under the `i` flag at `i`. */
  predicate MlAt(s: string, i: nat)
  {
    i + 2 <= |s| && ToUpperChar(s[i]) == 'M' && ToUpperChar(s[i + 1]) == 'L'
  }

  /** Where `ML[-－—–‑−][A-Z0-9]+[-－—–‑−]\d{8}[-－—–‑−]\d+` (flag `i`) matching at `i` ends.
      Every run is followed by a character outside its class, so the greedy choice is final. */
  function DashedSealEnd(s: string, i: nat): (r: Option<nat>)
    ensures r.Some? ==> i + 14 <= r.value <= |s|
  {
    if !(MlAt(s, i) && i + 2 < |s| && IsAnyHyphen(s[i + 2])) then None
    else
      var c := CodeRun(s, i + 3);
      var h := i + 3 + c;
      if c == 0 || !(h < |s| && IsAnyHyphen(s[h])) || DigitsFrom(s, h + 1) < 8 then None
      else if !(h + 9 < |s| && IsAnyHyphen(s[h + 9])) then None
      else
        var d := DigitsFrom(s, h + 10);
        if d == 0 then None else Some(h + 10 + d)
  }

  predicate DashedSealAt(s: string, i: nat) { DashedSealEnd(s, i).Some? }

  /** Where `PZ[_-]?JYFY\d{8,12}` (flag `i`) matching at `i` ends. */
  function PzEnd(s: string, i: nat): (r: Option<nat>)
    ensures r.Some? ==> i + 14 <= r.value <= |s|
  {
    if !(i + 2 <= |s| && ToUpperChar(s[i]) == 'P' && ToUpperChar(s[i + 1]) == 'Z') then None
    else
      var j := if i + 2 < |s| && (s[i + 2] == '_' || s[i + 2] == '-') then i + 3 else i + 2;
      if !(j + 4 <= |s| && ToUpperChar(s[j]) == 'J' && ToUpperChar(s[j + 1]) == 'Y'
           && ToUpperChar(s[j + 2]) == 'F' && ToUpperChar(s[j + 3]) == 'Y') then None
      else
        var d := DigitsFrom(s, j + 4);
        if d < 8 then None else Some(j + 4 + Min(d, 12))
  }

  predicate PzAt(s: string, i: nat) { PzEnd(s, i).Some? }

  /** `\s*[-－—–‑−]?\s*` from `i`. */
  function DashGap(s: string, i: nat): (j: nat)
    requires i <= |s|
    ensures i <= j <= |s|
  {
    var a := SkipSpaces(s, i);
    var b := if a < |s| && IsAnyHyphen(s[a]) then a + 1 else a;
    SkipSpaces(s, b)
  }

  /** `\s*[-－—–‑−]?\s*(\d{8})\s+(\d{5,})\b` from `e`: where the date group starts, and where
      the serial group starts and ends. */
  function SerialAfter(s: string, e: nat): (r: Option<(nat, nat, nat)>)
    requires e <= |s|
    ensures r.Some? ==> e <= r.value.0 && r.value.0 + 8 < r.value.1 && r.value.1 + 5 <= r.value.2 <= |s|
    ensures r.Some? ==> forall k :: r.value.0 <= k < r.value.0 + 8 ==> IsDigit(s[k])
    ensures r.Some? ==> forall k :: r.value.1 <= k < r.value.2 ==> IsDigit(s[k])
  {
    var c := DashGap(s, e);
    if DigitsFrom(s, c) < 8 || !(c + 8 < |s| && IsSpace(s[c + 8])) then None
    else
      var n := SkipSpaces(s, c + 8);
      var d := DigitsFrom(s, n);
      if d < 5 || !Boundary(s, n + d) then None else Some((c, n, n + d))
  }

  /** The code group `([A-Z0-9]+)` from `c`: the longest one, ending at or before `e`, after
      which the rest of the pattern matches (the engine gives characters back from the
      right until it does). */
  function CodeEnd(s: string, c: nat, e: nat): (r: Option<nat>)
    requires c <= e <= |s|
    ensures r.Some? ==> c < r.value <= e && SerialAfter(s, r.value).Some?
    decreases e - c
  {
    if e == c then None
    else if SerialAfter(s, e).Some? then Some(e)
    else CodeEnd(s, c, e - 1)
  }

  /** The three groups of a seal number whose last dash was lost. */
  datatype SealParts = SealParts(code: string, date: string, serial: string)

  predicate IsSealParts(p: SealParts)
  {
    p.code != [] && AllCode(p.code) && |p.date| == 8 && AllDigits(p.date)
    && |p.serial| >= 5 && AllDigits(p.serial)
  }

  lemma DigitSpan(s: string, a: nat, b: nat)
    requires a <= b <= |s| && forall k :: a <= k < b ==> IsDigit(s[k])
    ensures AllDigits(s[a..b])
  {
    assert forall k :: 0 <= k < b - a ==> s[a..b][k] == s[a + k];
  }

  lemma CodeSpan(s: string, a: nat, b: nat)
    requires a <= b <= |s| && forall k :: a <= k < b ==> IsCode(s[k])
    ensures AllCode(s[a..b])
  {
    assert forall k :: 0 <= k < b - a ==> s[a..b][k] == s[a + k];
  }

  /** The groups, once the code is known to end at `e`. */
  function GroupsAt(s: string, c: nat, e: nat): (r: SealParts)
    requires c < e <= |s| && forall k :: c <= k < e ==> IsCode(s[k])
    requires SerialAfter(s, e).Some?
    ensures IsSealParts(r)
  {
    var t := SerialAfter(s, e).value;
    CodeSpan(s, c, e);
    DigitSpan(s, t.0, t.0 + 8);
    DigitSpan(s, t.1, t.2);
    SealParts(s[c..e], s[t.0..t.0 + 8], s[t.1..t.2])
  }

  /** `\bML\s*[-－—–‑−]?\s*([A-Z0-9]+)\s*[-－—–‑−]?\s*(\d{8})\s+(\d{5,})\b` (flag `i`) at `i`. */
  function SpacedSeal(s: string, i: nat): (r: Option<SealParts>)
    ensures r.Some? ==> IsSealParts(r.value)
  {
    if !(Boundary(s, i) && MlAt(s, i)) then None
    else
      var c := DashGap(s, i + 2);
      var run := CodeRun(s, c);
      var e := CodeEnd(s, c, c + run);
      if e.None? then None else Some(GroupsAt(s, c, e.value))
  }

  predicate SpacedSealAt(s: string, i: nat) { SpacedSeal(s, i).Some? }

  /** A seal number of the `ML` family: `ML` in either case, a code, an eight-digit date and a
      serial, joined by plain dashes. */
  predicate IsMlSeal(r: string)
  {
    var parts := Split(r, '-');
    |parts| == 4 && |parts[0]| == 2
    && ToUpperChar(parts[0][0]) == 'M' && ToUpperChar(parts[0][1]) == 'L'
    && parts[1] != [] && AllCode(parts[1])
    && |parts[2]| == 8 && AllDigits(parts[2])
    && parts[3] != [] && AllDigits(parts[3])
  }

  /** A seal number of the `PZ_JYFY` family: `PZ`, an optional underscore, `JYFY` (either
      case) and 8 to 12 digits. */
  predicate IsPzSeal(r: string)
  {
    var j := if |r| > 2 && r[2] == '_' then 3 else 2;
    j + 12 <= |r| <= j + 16
    && ToUpperChar(r[0]) == 'P' && ToUpperChar(r[1]) == 'Z'
    && ToUpperChar(r[j]) == 'J' && ToUpperChar(r[j + 1]) == 'Y'
    && ToUpperChar(r[j + 2]) == 'F' && ToUpperChar(r[j + 3]) == 'Y'
    && AllDigits(r[j + 4..])
  }

  /** The first tier: a dashed `ML` number in the space-free text, its dashes made plain. */
  function DashedSeal(raw: string): (r: Option<string>)
    ensures r.Some? ==> IsMlSeal(r.value)
  {
    var compact := RemoveSpaces(raw);
    var m := FirstFrom(compact, 0, DashedSealAt);
    if m.None? then None
    else
      DashedShape(compact, m.value);
      Some(NormalizeSeal(compact[m.value..DashedSealEnd(compact, m.value).value]))
  }

  /** The second tier: a `PZ_JYFY` number in the space-free text, its hyphen made an
      underscore. */
  function PzSeal(raw: string): (r: Option<string>)
    ensures r.Some? ==> IsPzSeal(r.value)
  {
    var compact := RemoveSpaces(raw);
    var m := FirstFrom(compact, 0, PzAt);
    if m.None? then None
    else
      PzShape(compact, m.value);
      Some(ReplaceChar(compact[m.value..PzEnd(compact, m.value).value], '-', '_'))
  }

  /** The third tier: in the text with white space collapsed, an `ML` number whose last dash
      became a space, rebuilt with dashes. */
  function LostDashSeal(raw: string): (r: Option<string>)
    ensures r.Some? ==> IsMlSeal(r.value)
  {
    var spaced := CollapseSpaces(raw);
    var m := FirstFrom(spaced, 0, SpacedSealAt);
    if m.None? then None
    else
      Some(SealText(SpacedSeal(spaced, m.value).value))
  }

  /** The groups rebuilt as `ML-code-date-serial` and normalised. */
  function SealText(p: SealParts): (r: string)
    requires IsSealParts(p)
    ensures IsMlSeal(r)
  {
    JoinedSeal("ML", p.code, p.date, p.serial);
    NormalizeSeal("ML" + "-" + p.code + "-" + p.date + "-" + p.serial)
  }

  /** `extractSealFromText`: the first tier that finds a number; nothing when none does. What
      it yields is always a dashed `ML` seal number or a `PZ_JYFY` one. */
  function ExtractSealFromText(raw: string): (r: string)
    ensures r == "" || IsMlSeal(r) || IsPzSeal(r)
    ensures r == "" <==> DashedSeal(raw).None? && PzSeal(raw).None? && LostDashSeal(raw).None?
  {
    var m1 := DashedSeal(raw);
    if m1.Some? then m1.value
    else
      var pz := PzSeal(raw);
      if pz.Some? then pz.value
      else
        var m2 := LostDashSeal(raw);
        if m2.Some? then m2.value else ""
  }

  lemma NotDash(s: string)
    requires forall i :: 0 <= i < |s| ==> IsCode(s[i])
    ensures '-' !in s && forall i :: 0 <= i < |s| ==> !IsSpace(s[i]) && !IsDashVariant(s[i])
  {
    assert forall i :: 0 <= i < |s| ==> s[i] != '-';
  }

  /** Four dash-free pieces joined by dashes split back into themselves; normalising them
      changes nothing. */
  lemma JoinedSeal(ml: string, code: string, date: string, serial: string)
    requires |ml| == 2 && ToUpperChar(ml[0]) == 'M' && ToUpperChar(ml[1]) == 'L'
    requires code != [] && AllCode(code) && |date| == 8 && AllDigits(date)
    requires serial != [] && AllDigits(serial)
    ensures var s := ml + "-" + code + "-" + date + "-" + serial;
      NormalizeSeal(s) == s && IsMlSeal(s)
  {
    assert AllCode(ml) by { MlIsCode(ml); }
    assert AllCode(date) && AllCode(serial);
    JoinedSealShape(ml, code, date, serial);
    JoinedSealNormal(ml, code, date, serial);
  }

  lemma MlIsCode(ml: string)
    requires |ml| == 2 && ToUpperChar(ml[0]) == 'M' && ToUpperChar(ml[1]) == 'L'
    ensures AllCode(ml)
  {
  }

  lemma JoinedSealShape(ml: string, code: string, date: string, serial: string)
    requires |ml| == 2 && ToUpperChar(ml[0]) == 'M' && ToUpperChar(ml[1]) == 'L'
    requires AllCode(ml) && code != [] && AllCode(code) && |date| == 8 && AllDigits(date) && AllCode(date)
    requires serial != [] && AllDigits(serial) && AllCode(serial)
    ensures IsMlSeal(ml + "-" + code + "-" + date + "-" + serial)
  {
    NotDash(ml);
    NotDash(code);
    NotDash(date);
    NotDash(serial);
    JoinedSplit(ml, code, date, serial);
  }

  lemma JoinedSealNormal(ml: string, code: string, date: string, serial: string)
    requires AllCode(ml) && AllCode(code) && AllCode(date) && AllCode(serial)
    ensures var s := ml + "-" + code + "-" + date + "-" + serial;
      NormalizeSeal(s) == s
  {
    NotDash(ml);
    NotDash(code);
    NotDash(date);
    NotDash(serial);
    JoinedPlain(ml, code, date, serial);
  }

  lemma JoinedSplit(ml: string, code: string, date: string, serial: string)
    requires '-' !in ml && '-' !in code && '-' !in date && '-' !in serial
    ensures Split(ml + "-" + code + "-" + date + "-" + serial, '-') == [ml, code, date, serial]
  {
    JoinFour(ml, code, date, serial, "-");
    SplitJoin([ml, code, date, serial], '-');
  }

  lemma JoinedPlain(ml: string, code: string, date: string, serial: string)
    requires forall i :: 0 <= i < |ml| ==> !IsSpace(ml[i]) && !IsDashVariant(ml[i])
    requires forall i :: 0 <= i < |code| ==> !IsSpace(code[i]) && !IsDashVariant(code[i])
    requires forall i :: 0 <= i < |date| ==> !IsSpace(date[i]) && !IsDashVariant(date[i])
    requires forall i :: 0 <= i < |serial| ==> !IsSpace(serial[i]) && !IsDashVariant(serial[i])
    ensures var s := ml + "-" + code + "-" + date + "-" + serial;
      NormalizeHyphens(s) == s && RemoveSpaces(s) == s
  {
    var s := ml + "-" + code + "-" + date + "-" + serial;
    PlainConcat(ml, "-", code, "-");
    PlainConcat(ml + "-" + code + "-", date, "-", serial);
    RemoveSpacesOfSpaceFree(s);
  }

  lemma JoinFour(a: string, b: string, c: string, d: string, sep: string)
    ensures Join([a, b, c, d], sep) == a + sep + b + sep + c + sep + d
  {
    assert [a, b, c, d][1..] == [b, c, d];
    assert [b, c, d][1..] == [c, d];
    assert [c, d][1..] == [d];
    assert Join([c, d], sep) == c + sep + d;
    assert Join([b, c, d], sep) == b + sep + (c + sep + d);
    assert Join([a, b, c, d], sep) == a + sep + (b + sep + (c + sep + d));
  }

  /** Four pieces without white space or dash variants, one after another, have none either
      and are their own `normalizeHyphens`. */
  lemma PlainConcat(a: string, b: string, c: string, d: string)
    requires forall i :: 0 <= i < |a| ==> !IsSpace(a[i]) && !IsDashVariant(a[i])
    requires forall i :: 0 <= i < |b| ==> !IsSpace(b[i]) && !IsDashVariant(b[i])
    requires forall i :: 0 <= i < |c| ==> !IsSpace(c[i]) && !IsDashVariant(c[i])
    requires forall i :: 0 <= i < |d| ==> !IsSpace(d[i]) && !IsDashVariant(d[i])
    ensures var s := a + b + c + d;
      (forall i :: 0 <= i < |s| ==> !IsSpace(s[i]) && !IsDashVariant(s[i])) && NormalizeHyphens(s) == s
  {
    var s := a + b + c + d;
    forall i | 0 <= i < |s|
      ensures !IsSpace(s[i]) && !IsDashVariant(s[i])
    {
      if i < |a| {
        assert s[i] == a[i];
      } else if i < |a| + |b| {
        assert s[i] == b[i - |a|];
      } else if i < |a| + |b| + |c| {
        assert s[i] == c[i - |a| - |b|];
      } else {
        assert s[i] == d[i - |a| - |b| - |c|];
      }
    }
  }

  lemma {:induction false} HyphensAppend(a: string, b: string)
    ensures NormalizeHyphens(a + b) == NormalizeHyphens(a) + NormalizeHyphens(b)
  {
    if a != [] {
      assert (a + b)[0] == a[0];
      assert (a + b)[1..] == a[1..] + b;
      HyphensAppend(a[1..], b);
    }
  }

  lemma {:induction false} HyphensPlain(a: string)
    requires forall i :: 0 <= i < |a| ==> !IsDashVariant(a[i])
    ensures NormalizeHyphens(a) == a
  {
    if a != [] {
      HyphensPlain(a[1..]);
      assert a == [a[0]] + a[1..];
    }
  }

  /** A hyphen of any kind before a piece without dash variants becomes a plain one. */
  lemma HyphenAfter(a: string, x: char, b: string)
    requires IsAnyHyphen(x)
    requires forall i :: 0 <= i < |b| ==> !IsDashVariant(b[i])
    ensures NormalizeHyphens(a + [x] + b) == NormalizeHyphens(a) + "-" + b
  {
    HyphensAppend(a + [x], b);
    HyphensPlain(b);
    HyphensAppend(a, [x]);
    HyphenOne(x);
  }

  lemma HyphenOne(x: char)
    requires IsAnyHyphen(x)
    ensures NormalizeHyphens([x]) == "-"
  {
  }

  /** The dashed match, normalised, is the four pieces it was cut into, joined by dashes. */
  lemma DashedShape(s: string, i: nat)
    requires DashedSealAt(s, i)
    ensures IsMlSeal(NormalizeSeal(s[i..DashedSealEnd(s, i).value]))
  {
    var e := DashedSealEnd(s, i).value;
    var h := i + 3 + CodeRun(s, i + 3);
    CodeSpan(s, i + 3, h);
    DigitSpan(s, h + 1, h + 9);
    DigitSpan(s, h + 10, e);
    SealPieces(s, i, h, e);
    DashedPieces(s[i..i + 2], s[i + 2], s[i + 3..h], s[h], s[h + 1..h + 9], s[h + 9], s[h + 10..e]);
  }

  /** Four pieces cut apart by hyphens of any kind give a dashed `ML` seal number. */
  lemma DashedPieces(ml: string, x: char, code: string, y: char, date: string, z: char, serial: string)
    requires |ml| == 2 && ToUpperChar(ml[0]) == 'M' && ToUpperChar(ml[1]) == 'L'
    requires IsAnyHyphen(x) && IsAnyHyphen(y) && IsAnyHyphen(z)
    requires code != [] && AllCode(code) && |date| == 8 && AllDigits(date)
    requires serial != [] && AllDigits(serial)
    ensures IsMlSeal(NormalizeSeal(ml + [x] + code + [y] + date + [z] + serial))
  {
    assert AllCode(ml) && AllCode(date) && AllCode(serial);
    NotDash(ml);
    NotDash(code);
    NotDash(date);
    NotDash(serial);
    HyphensPlain(ml);
    HyphenAfter(ml, x, code);
    HyphenAfter(ml + [x] + code, y, date);
    HyphenAfter(ml + [x] + code + [y] + date, z, serial);
    var joined := ml + "-" + code + "-" + date + "-" + serial;
    JoinedSeal(ml, code, date, serial);
    JoinedPlain(ml, code, date, serial);
    assert NormalizeSeal(ml + [x] + code + [y] + date + [z] + serial) == RemoveSpaces(joined) == joined;
  }

  /** The match cut at its three hyphens. */
  lemma SealPieces(s: string, i: nat, h: nat, e: nat)
    requires i + 3 <= h && h + 10 <= e <= |s|
    ensures s[i..e] == s[i..i + 2] + [s[i + 2]] + s[i + 3..h] + [s[h]] + s[h + 1..h + 9] + [s[h + 9]] + s[h + 10..e]
  {
  }

  /** The `PZ` match with its hyphen made an underscore has the `PZ_JYFY` shape. */
  lemma PzShape(s: string, i: nat)
    requires PzAt(s, i)
    ensures IsPzSeal(ReplaceChar(s[i..PzEnd(s, i).value], '-', '_'))
  {
    var e := PzEnd(s, i).value;
    var m := s[i..e];
    var r := ReplaceChar(m, '-', '_');
    var j := if i + 2 < |s| && (s[i + 2] == '_' || s[i + 2] == '-') then i + 3 else i + 2;
    assert forall k :: 0 <= k < |m| ==> m[k] == s[i + k];
    var d := DigitsFrom(s, j + 4);
    assert e == j + 4 + Min(d, 12);
    assert (if |r| > 2 && r[2] == '_' then 3 else 2) == j - i;
    assert forall k :: j - i + 4 <= k < |r| ==> IsDigit(r[k]);
    DigitSpan(r, j - i + 4, |r|);
  }

  // ---------------------------------------------------------------- mould names

  /** `replace(/[\uE000-\uF8FF]/g, ' ')`. */
  function PrivateToSpace(s: string): (r: string)
    ensures |r| == |s|
    ensures forall i :: 0 <= i < |s| ==> r[i] == (if IsPrivateUse(s[i]) then ' ' else s[i])
  {
    if s == [] then [] else [if IsPrivateUse(s[0]) then ' ' else s[0]] + PrivateToSpace(s[1..])
  }

  /** `replace(/^(\d+)\s+/g, '')`: the leading number and the white space after it, when the
      text starts with a number followed by white space; with the number it removed. */
  function LeadingIndex(s: string): (r: Option<(string, string)>)
    ensures r.Some? ==> r.value.0 != [] && AllDigits(r.value.0)
  {
    var d := DigitsFrom(s, 0);
    if d > 0 && d < |s| && IsSpace(s[d]) then
      assert forall k :: 0 <= k < d ==> s[..d][k] == s[k];
      Some((s[..d], s[SkipSpaces(s, d)..]))
    else None
  }

  /** Where `\s+W\s+` matching at `i` ends, for a literal `W` that does not start with white
      space (so each run of white space is taken whole). */
  function SpacedWordEnd(s: string, i: nat, w: string): (r: Option<nat>)
    requires i <= |s|
    ensures r.Some? ==> i < r.value <= |s|
  {
    var a := SkipSpaces(s, i);
    if a == i || !ContainsAt(s, w, a) then None
    else
      var b := SkipSpaces(s, a + |w|);
      if b == a + |w| then None else Some(b)
  }

  /** `s.replace(/\s+W\s+/g, ' ')`: left to right, each match made one space. */
  function ReplaceSpacedWord(s: string, w: string): string
    decreases |s|
  {
    if s == [] then []
    else
      match SpacedWordEnd(s, 0, w)
      case Some(b) => " " + ReplaceSpacedWord(s[b..], w)
      case None => [s[0]] + ReplaceSpacedWord(s[1..], w)
  }

  /** The `\1` of the second pattern of `cleanMouldName`. The pattern has no capturing group,
      and a JavaScript pattern without the `u` flag reads `\1` that refers to no group as the
      octal escape for U+0001. */
  const OctalOne: string := "\U{0001}"

  /** `cleanMouldName` as written: private-use glyphs made spaces, white space collapsed and
      trimmed, the leading number removed, then `\s+\1\s+` (see `OctalOne`) made one space. */
  function CleanMouldNameAsWritten(name: string): (r: string)
    ensures r == [] || (!IsSpace(r[0]) && !IsSpace(r[|r| - 1]))
  {
    var s := Clean(PrivateToSpace(name));
    var t := match LeadingIndex(s) case Some(p) => p.1 case None => s;
    Trim(ReplaceSpacedWord(t, OctalOne))
  }

  /** `cleanMouldName` as its comment describes it: the leading number removed, and so is each
      later copy of that number standing between spaces ("2 把手盖 2 把手盖" gives "把手盖
      把手盖"). */
  function CleanMouldName(name: string): (r: string)
    ensures r == [] || (!IsSpace(r[0]) && !IsSpace(r[|r| - 1]))
  {
    var s := Clean(PrivateToSpace(name));
    match LeadingIndex(s)
    case Some(p) => Trim(ReplaceSpacedWord(p.1, p.0))
    case None => s
  }

  /** A word without white space is copied through the replacement. */
  lemma {:induction false} ReplaceCopiesWord(x: string, y: string, w: string)
    requires IsKeyText(x)
    ensures ReplaceSpacedWord(x + y, w) == x + ReplaceSpacedWord(y, w)
  {
    if x != [] {
      var s := x + y;
      assert s[0] == x[0];
      assert SkipSpaces(s, 0) == 0;
      assert s[1..] == x[1..] + y;
      assert IsKeyText(x[1..]) by {
        assert forall k :: 0 <= k < |x| - 1 ==> x[1..][k] == x[k + 1];
      }
      ReplaceCopiesWord(x[1..], y, w);
      assert x == [x[0]] + x[1..];
    } else {
      assert x + y == y;
    }
  }

  /** Words separated by single spaces, with no private-use character, are their own `Clean`. */
  predicate IsSpacedWords(ws: seq<string>)
  {
    forall k :: 0 <= k < |ws| ==> ws[k] != [] && IsKeyText(ws[k])
  }

  lemma {:induction false} CollapseOfWords(ws: seq<string>)
    requires IsSpacedWords(ws)
    ensures CollapseSpaces(Join(ws, " ")) == Join(ws, " ")
    decreases |ws|
  {
    if |ws| == 1 {
      CollapseOfWord(ws[0], []);
      assert ws[0] + [] == ws[0];
    } else if |ws| > 1 {
      var rest := Join(ws[1..], " ");
      CollapseOfWords(ws[1..]);
      JoinEnds(ws[1..]);
      assert rest[0] == ws[1][0];
      assert SpaceRun(" " + rest) == 1 by {
        assert (" " + rest)[1..] == rest;
      }
      assert CollapseSpaces(" " + rest) == " " + rest by {
        assert (" " + rest)[1..] == rest;
      }
      CollapseOfWord(ws[0], " " + rest);
      assert ws[0] + " " + rest == ws[0] + (" " + rest);
    }
  }

  lemma {:induction false} CollapseOfWord(w: string, rest: string)
    requires IsKeyText(w)
    ensures CollapseSpaces(w + rest) == w + CollapseSpaces(rest)
  {
    if w != [] {
      assert (w + rest)[0] == w[0] && !IsSpace(w[0]);
      assert (w + rest)[1..] == w[1..] + rest;
      assert IsKeyText(w[1..]) by {
        assert forall i :: 0 <= i < |w| - 1 ==> w[1..][i] == w[i + 1];
      }
      CollapseOfWord(w[1..], rest);
      assert w == [w[0]] + w[1..];
    } else {
      assert w + rest == rest;
    }
  }

  lemma {:induction false} PrivateToSpaceOfWords(ws: seq<string>)
    requires IsSpacedWords(ws)
    ensures PrivateToSpace(Join(ws, " ")) == Join(ws, " ")
    decreases |ws|
  {
    if |ws| > 1 {
      PrivateToSpaceOfWords(ws[1..]);
    }
  }

  lemma CleanOfWords(ws: seq<string>)
    requires ws != [] && IsSpacedWords(ws)
    ensures Clean(PrivateToSpace(Join(ws, " "))) == Join(ws, " ")
  {
    PrivateToSpaceOfWords(ws);
    CollapseOfWords(ws);
    var j := Join(ws, " ");
    JoinEnds(ws);
    TrimOfTrimmed(j);
  }

  lemma {:induction false} JoinEnds(ws: seq<string>)
    requires ws != [] && IsSpacedWords(ws)
    ensures var j := Join(ws, " "); j != [] && j[0] == ws[0][0] && j[|j| - 1] == ws[|ws| - 1][|ws[|ws| - 1]| - 1]
    decreases |ws|
  {
    if |ws| > 1 {
      JoinEnds(ws[1..]);
    }
  }

  /** As written, a number repeated inside the name survives: `"2 A 2 B"` becomes `"A 2 B"`
      for any words `A` and `B`. */
  lemma RepeatedIndexKept(d: string, a: string, b: string)
    requires d != [] && AllDigits(d)
    requires a != [] && IsKeyText(a) && b != [] && IsKeyText(b)
    ensures CleanMouldNameAsWritten(d + " " + (a + " " + (d + " " + b))) == a + " " + (d + " " + b)
  {
    NameStart(d, a, b);
    AsWrittenAfterIndex(d + " " + (a + " " + (d + " " + b)), d, a + " " + (d + " " + b));
    MarkNeverMatches(a, d, b);
    WordsTrimmed(a, d, b);
  }

  /** As intended, the repeated number goes too: `"2 A 2 B"` becomes `"A B"`. */
  lemma RepeatedIndexDropped(d: string, a: string, b: string)
    requires d != [] && AllDigits(d)
    requires a != [] && IsKeyText(a) && b != [] && IsKeyText(b)
    ensures CleanMouldName(d + " " + (a + " " + (d + " " + b))) == a + " " + b
  {
    NameStart(d, a, b);
    RepeatReplaced(a, d, b);
    TrimOfSpaced(a, b);
  }

  /** Once the leading number is found, the as-written cleaning goes on with the rest. */
  lemma AsWrittenAfterIndex(name: string, d: string, rest: string)
    requires LeadingIndex(Clean(PrivateToSpace(name))) == Some((d, rest))
    ensures CleanMouldNameAsWritten(name) == Trim(ReplaceSpacedWord(rest, OctalOne))
  {
  }

  /** `"A D B"` has no white space at its ends. */
  lemma WordsTrimmed(a: string, d: string, b: string)
    requires d != [] && AllDigits(d)
    requires a != [] && IsKeyText(a) && b != [] && IsKeyText(b)
    ensures Trim(a + " " + (d + " " + b)) == a + " " + (d + " " + b)
  {
    TrimOfSpaced(a, d + " " + b);
  }

  /** Two pieces joined by a space, the first not starting and the second not ending with
      white space, are already trimmed. */
  lemma TrimOfSpaced(x: string, y: string)
    requires x != [] && !IsSpace(x[0]) && y != [] && !IsSpace(y[|y| - 1])
    ensures Trim(x + " " + y) == x + " " + y
  {
    var s := x + " " + y;
    assert s[0] == x[0] && s[|s| - 1] == y[|y| - 1];
    TrimOfTrimmed(s);
  }

  /** `"D A D B"` made clean is itself, and it starts with the number `D`. */
  lemma NameStart(d: string, a: string, b: string)
    requires d != [] && AllDigits(d)
    requires a != [] && IsKeyText(a) && b != [] && IsKeyText(b)
    ensures LeadingIndex(Clean(PrivateToSpace(d + " " + (a + " " + (d + " " + b)))))
      == Some((d, a + " " + (d + " " + b)))
  {
    NameClean(d, a, b);
    var rest := a + " " + (d + " " + b);
    assert rest[0] == a[0];
    IndexOfWords(d, rest);
  }

  /** `"D A D B"` is already clean. */
  lemma NameClean(d: string, a: string, b: string)
    requires d != [] && AllDigits(d)
    requires a != [] && IsKeyText(a) && b != [] && IsKeyText(b)
    ensures Clean(PrivateToSpace(d + " " + (a + " " + (d + " " + b)))) == d + " " + (a + " " + (d + " " + b))
  {
    assert IsKeyText(d);
    var w1 := [b];
    assert Join(w1, " ") == b && IsSpacedWords(w1);
    var w2 := [d] + w1;
    WordsCons(d, w1);
    var w3 := [a] + w2;
    WordsCons(a, w2);
    var w4 := [d] + w3;
    WordsCons(d, w3);
    CleanOfWords(w4);
  }

  /** One more word in front of a list of words. */
  lemma WordsCons(x: string, ws: seq<string>)
    requires x != [] && IsKeyText(x) && ws != [] && IsSpacedWords(ws)
    ensures Join([x] + ws, " ") == x + " " + Join(ws, " ")
    ensures IsSpacedWords([x] + ws)
  {
    assert ([x] + ws)[1..] == ws;
  }

  /** In `"A D B"` no white space is followed by U+0001, so the as-written pattern never
      matches. */
  lemma MarkNeverMatches(a: string, d: string, b: string)
    requires d != [] && AllDigits(d)
    requires a != [] && IsKeyText(a) && b != [] && IsKeyText(b)
    ensures ReplaceSpacedWord(a + " " + (d + " " + b), OctalOne) == a + " " + (d + " " + b)
  {
    assert IsKeyText(d);
    WordsKept(d, b);
    var t := d + " " + b;
    assert t[0] == d[0];
    SpaceNoMark(t);
    WordBeforeSpace(a, t, OctalOne);
  }

  /** `"D B"` passes through the as-written replacement unchanged. */
  lemma WordsKept(d: string, b: string)
    requires d != [] && IsKeyText(d) && b != [] && IsKeyText(b)
    ensures ReplaceSpacedWord(d + " " + b, OctalOne) == d + " " + b
  {
    WordKept(b, OctalOne);
    SpaceNoMark(b);
    WordBeforeSpace(d, b, OctalOne);
  }

  /** A word without white space is left as it is. */
  lemma WordKept(x: string, w: string)
    requires IsKeyText(x)
    ensures ReplaceSpacedWord(x, w) == x
  {
    ReplaceCopiesWord(x, [], w);
    assert x + [] == x;
  }

  /** A word and the space after it: the word is copied, and the replacement goes on at the
      space. */
  lemma WordBeforeSpace(x: string, y: string, w: string)
    requires IsKeyText(x)
    ensures ReplaceSpacedWord(x + " " + y, w) == x + ReplaceSpacedWord(" " + y, w)
  {
    ReplaceCopiesWord(x, " " + y, w);
    assert x + " " + y == x + (" " + y);
  }

  /** A space followed by a word: no match of the as-written pattern starts there, since
      U+0001 would have to be followed by white space. */
  lemma SpaceNoMark(y: string)
    requires y != [] && !IsSpace(y[0])
    requires y[0] == '\U{0001}' ==> |y| == 1 || !IsSpace(y[1])
    ensures ReplaceSpacedWord(" " + y, OctalOne) == " " + ReplaceSpacedWord(y, OctalOne)
  {
    var s := " " + y;
    assert s[1] == y[0];
    assert SkipSpaces(s, 1) == 1;
    assert SkipSpaces(s, 0) == 1;
    if ContainsAt(s, OctalOne, 1) {
      assert |s| == 2 || s[2] == y[1];
      assert SkipSpaces(s, 2) == 2;
    }
    assert SpacedWordEnd(s, 0, OctalOne).None?;
    assert s[1..] == y;
  }

  /** In `"A D B"` the number between the spaces is one match of the intended pattern. */
  lemma RepeatReplaced(a: string, d: string, b: string)
    requires d != [] && AllDigits(d)
    requires a != [] && IsKeyText(a) && b != [] && IsKeyText(b)
    ensures ReplaceSpacedWord(a + " " + (d + " " + b), d) == a + " " + b
  {
    var t := d + " " + b;
    assert ReplaceSpacedWord(a + " " + t, d) == a + ReplaceSpacedWord(" " + t, d) by {
      WordBeforeSpace(a, t, d);
    }
    assert ReplaceSpacedWord(" " + t, d) == " " + b by {
      assert IsKeyText(d);
      SpacedMatch(d, b);
      WordKept(b, d);
    }
    assert a + " " + b == a + (" " + b);
  }

  /** `" D B"` starts with one match of `\s+D\s+`, which becomes one space. */
  lemma SpacedMatch(d: string, b: string)
    requires d != [] && IsKeyText(d) && b != [] && !IsSpace(b[0])
    ensures ReplaceSpacedWord(" " + (d + " " + b), d) == " " + ReplaceSpacedWord(b, d)
  {
    var s := " " + (d + " " + b);
    assert s[1..1 + |d|] == d;
    assert s[1 + |d|] == ' ' && s[2 + |d|] == b[0];
    assert SkipSpaces(s, 1 + |d|) == 2 + |d| by {
      assert SkipSpaces(s, 2 + |d|) == 2 + |d|;
    }
    assert SkipSpaces(s, 0) == 1 by {
      assert s[1] == d[0];
      assert SkipSpaces(s, 1) == 1;
    }
    assert SpacedWordEnd(s, 0, d) == Some(2 + |d|);
    assert s[2 + |d|..] == b;
  }

  /** The number a clean name starts with, and the rest after its space. */
  lemma IndexOfWords(d: string, rest: string)
    requires d != [] && AllDigits(d) && rest != [] && !IsSpace(rest[0])
    ensures LeadingIndex(d + " " + rest) == Some((d, rest))
  {
    var s := d + " " + rest;
    assert forall k :: 0 <= k < |d| ==> s[k] == d[k];
    assert s[|d|] == ' ';
    DigitsFromOf(s, 0, |d|);
    assert SkipSpaces(s, |d|) == |d| + 1 by {
      assert s[|d| + 1] == rest[0];
    }
    assert s[..|d|] == d;
    assert s[|d| + 1..] == rest;
  }

  lemma {:induction false} DigitsFromOf(s: string, i: nat, e: nat)
    requires i <= e < |s| && !IsDigit(s[e])
    requires forall k :: i <= k < e ==> IsDigit(s[k])
    ensures DigitsFrom(s, i) == e - i
    decreases e - i
  {
    if i < e {
      DigitsFromOf(s, i + 1, e);
    }
  }

  // ---------------------------------------------------------------- part numbers

  predicate IsDigitOrDot(c: char) { IsDigit(c) || c == '.' }

  /** Length of the run of digits and dots that starts at `i`. */
  function DottedRun(s: string, i: nat): (n: nat)
    requires i <= |s|
    ensures i + n <= |s|
    ensures forall k :: i <= k < i + n ==> IsDigitOrDot(s[k])
    ensures i + n < |s| ==> !IsDigitOrDot(s[i + n])
    decreases |s| - i
  {
    if i < |s| && IsDigitOrDot(s[i]) then 1 + DottedRun(s, i + 1) else 0
  }

  /** `\d+(?:\.\d+)+` as a whole: digits and dots, starting and ending with a digit, with at
      least one dot and never two dots in a row. */
  predicate IsDottedNumber(g: string)
  {
    |g| >= 3 && IsDigit(g[0]) && IsDigit(g[|g| - 1]) && '.' in g
    && (forall k :: 0 <= k < |g| ==> IsDigitOrDot(g[k]))
    && (forall k :: 0 <= k < |g| - 1 ==> !(g[k] == '.' && g[k + 1] == '.'))
  }

  /** Where `^(\d+(?:\.\d+)+)([A-Z].*\.)$` (flag `i`) splits the space-free part number, if it
      matches. The second group starts with a letter, so the first is the whole leading run of
      digits and dots. */
  function RotationPoint(s: string): (r: Option<nat>)
    ensures r.Some? ==> 0 < r.value < |s| - 1
    ensures r.Some? ==> IsDottedNumber(s[..r.value]) && IsAsciiLetter(s[r.value]) && s[|s| - 1] == '.'
  {
    var k := DottedRun(s, 0);
    if k < |s| && IsDottedNumber(s[..k]) && IsAsciiLetter(s[k]) && s[|s| - 1] == '.' then Some(k)
    else None
  }

  /** `normalizePartNo`: white space removed; a number printed with its trailing
      `digits.digits` piece first (`2.1B22197.21.`) is put back in order (`B22197.21.2.1`). */
  function NormalizePartNo(partNo: string): (r: string)
    ensures forall i :: 0 <= i < |r| ==> !IsSpace(r[i])
  {
    var s := RemoveSpaces(partNo);
    match RotationPoint(s)
    case Some(k) => s[k..] + s[..k]
    case None => s
  }

  /** The part number is either the space-free text itself or a rotation of it that starts
      with a letter and ends with the dotted number. */
  lemma NormalizePartNoRotation(partNo: string)
    ensures var s := RemoveSpaces(partNo); var r := NormalizePartNo(partNo);
      (RotationPoint(s).None? ==> r == s)
      && (RotationPoint(s).Some? ==>
            var k := RotationPoint(s).value;
            r == s[k..] + s[..k] && IsAsciiLetter(r[0]) && IsDottedNumber(r[|s| - k..]))
  {
    var s := RemoveSpaces(partNo);
    if RotationPoint(s).Some? {
      var k := RotationPoint(s).value;
      var r := s[k..] + s[..k];
      assert r[0] == s[k];
      assert r[|s| - k..] == s[..k];
    }
  }

  /** Normalising a normalised part number changes nothing: a rotated number starts with a
      letter, so it is not rotated again. */
  lemma NormalizePartNoIdempotent(partNo: string)
    ensures NormalizePartNo(NormalizePartNo(partNo)) == NormalizePartNo(partNo)
  {
    var s := RemoveSpaces(partNo);
    var r := NormalizePartNo(partNo);
    RemoveSpacesOfSpaceFree(r);
    if RotationPoint(s).Some? {
      var k := RotationPoint(s).value;
      assert r == s[k..] + s[..k];
      assert r[0] == s[k];
      assert DottedRun(r, 0) == 0;
      assert RotationPoint(r).None?;
    } else {
      assert r == s;
    }
  }

  /** A dotted number followed by a piece that starts with a letter and ends with a dot is
      put the other way round, as in the source's own example (`2.1` and `B22197.21.`). */
  lemma NormalizePartNoRotates(g: string, t: string)
    requires IsDottedNumber(g)
    requires t != [] && IsAsciiLetter(t[0]) && t[|t| - 1] == '.'
    requires forall i :: 0 <= i < |t| ==> !IsSpace(t[i])
    ensures NormalizePartNo(g + t) == t + g
  {
    var s := g + t;
    assert forall i :: 0 <= i < |s| ==> !IsSpace(s[i]) by {
      forall i | 0 <= i < |s| ensures !IsSpace(s[i]) {
        if i < |g| { assert s[i] == g[i]; } else { assert s[i] == t[i - |g|]; }
      }
    }
    RemoveSpacesOfSpaceFree(s);
    var n := DottedRun(s, 0);
    assert s[|g|] == t[0];
    assert forall k :: 0 <= k < |g| ==> s[k] == g[k];
    assert n == |g|;
    assert s[..n] == g && s[n..] == t;
  }

  // ---------------------------------------------------------------- the move date

  /** `\d{4}\s*[-/]\s*\d{1,2}\s*[-/]\s*\d{1,2}` at `i`; in a text without white space this is
      `\d{4}[-/]\d{1,2}[-/]\d{1,2}`. */
  predicate LooseDateAt(s: string, i: nat)
  {
    DatePartsAt(s, i, DashSlash, DashSlash, true).Some?
  }

  /** The matched date as `YYYY-MM-DD`: the pieces split at the separators, trimmed, month and
      day padded. */
  function LooseDateText(s: string, i: nat): (r: string)
    requires LooseDateAt(s, i)
    ensures IsIsoDate(r)
  {
    DatePartsShape(s, i, DashSlash, DashSlash, true);
    JoinDate(DatePartsAt(s, i, DashSlash, DashSlash, true).value)
  }

  /** `[\s\S]{0,80}?` followed by the loose date, from `from`: where the date starts. */
  function LazyLooseDate(s: string, from: nat, k: nat): (r: Option<nat>)
    ensures r.Some? ==> from + k <= r.value <= from + 80 && LooseDateAt(s, r.value)
    decreases 81 - k
  {
    if k > 80 || from + k > |s| then None
    else if LooseDateAt(s, from + k) then Some(from + k)
    else LazyLooseDate(s, from, k + 1)
  }

  /** `模具\s*移模\s*时间[\s\S]{0,80}?(\d{4}\s*[-/]\s*\d{1,2}\s*[-/]\s*\d{1,2})` at `i`. */
  predicate LabelledDateAt(s: string, i: nat)
  {
    var e := KeyEnd(s, i);
    e.Some? && LazyLooseDate(s, e.value, 0).Some?
  }

  /** `extractMoveDate`: in the space-free text, the first loose date from 120 characters
      before the first `模具移模时间` to 180 after it; else an ISO date right after that
      label; else, in the text as it is, a loose date at most 80 characters after the label
      (white space allowed inside it); else nothing. */
  function ExtractMoveDate(text: string): (r: string)
    ensures r == "" || IsIsoDate(r)
  {
    var compact := RemoveSpaces(text);
    var idx := JsIndexOf(compact, MoveTimeKey);
    var lo := if idx >= 120 then idx - 120 else 0;
    var hi := if idx + 180 <= |compact| then idx + 180 else |compact|;
    var around := if idx >= 0 && lo <= hi then compact[lo..hi] else [];
    var near := if idx >= 0 then FirstFrom(around, 0, LooseDateAt) else None;
    if near.Some? then LooseDateText(around, near.value)
    else
      var strict := FirstFrom(compact, 0, CompactDateAt);
      if strict.Some? then
        IsoSlice(compact, strict.value + 6);
        compact[strict.value + 6..strict.value + 16]
      else
        var m := FirstFrom(text, 0, LabelledDateAt);
        if m.None? then ""
        else LooseDateText(text, LazyLooseDate(text, KeyEnd(text, m.value).value, 0).value)
  }

  /** A space-free text holding the label with an ISO date right after it always yields a
      date. */
  lemma MoveDateFound(text: string, i: nat)
    requires CompactDateAt(RemoveSpaces(text), i)
    ensures ExtractMoveDate(text) != ""
  {
    var compact := RemoveSpaces(text);
    JsIndexOfMeaning(compact, MoveTimeKey);
    assert ContainsAt(compact, MoveTimeKey, i);
    assert JsIndexOf(compact, MoveTimeKey) >= 0;
  }
}
