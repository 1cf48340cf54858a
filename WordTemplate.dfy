/** The Word template tool (`create-word-template.js`): XML escaping of the five predefined
    entities of XML 1.0 (section 4.6) and the replacement of filled-in values by `{{key}}`
    placeholders inside the `<w:t>` text runs of a document. */
module WordTemplate {
  import opened Common
  import opened JsNumber

  // ---------------------------------------------------------------- entities

  /** The predefined entity of a markup character; any other character stands for itself. */
  function Entity(c: char): (e: string)
    ensures e != []
  {
    if c == '&' then "&amp;"
    else if c == '<' then "&lt;"
    else if c == '>' then "&gt;"
    else if c == '"' then "&quot;"
    else if c == '\'' then "&apos;"
    else [c]
  }

  const Markup: set<char> := {'&', '<', '>', '"', '\''}

  /** `s` with each of its characters in `cs` written as its entity. */
  function Escaped(s: string, cs: set<char>): string
  {
    if s == [] then [] else (if s[0] in cs then Entity(s[0]) else [s[0]]) + Escaped(s[1..], cs)
  }

  /** `escapeXml`: `&` first, then `<`, `>`, `"` and `'`; anything but a string gives "". */
  function EscapeXml(text: Value): string
  {
    if !text.Str? then ""
    else
      ReplaceAll(ReplaceAll(ReplaceAll(ReplaceAll(ReplaceAll(
        text.s, "&", "&amp;"), "<", "&lt;"), ">", "&gt;"), "\"", "&quot;"), "'", "&apos;")
  }

  /** `unescapeXml`: `&apos;`, `&quot;`, `&gt;`, `&lt;` and `&amp;` last; anything but a string
      gives "". */
  function UnescapeXml(text: Value): string
  {
    if !text.Str? then ""
    else
      ReplaceAll(ReplaceAll(ReplaceAll(ReplaceAll(ReplaceAll(
        text.s, "&apos;", "'"), "&quot;", "\""), "&gt;", ">"), "&lt;", "<"), "&amp;", "&")
  }

  /** Where an entity starts: `&` followed by one of the five names and `;`. */
  predicate EntityAt(e: string, i: nat)
  {
    ContainsAt(e, "&amp;", i) || ContainsAt(e, "&lt;", i) || ContainsAt(e, "&gt;", i)
      || ContainsAt(e, "&quot;", i) || ContainsAt(e, "&apos;", i)
  }

  /** Not one of the markup characters other than `&`. */
  predicate IsCharData(ch: char)
  {
    ch != '<' && ch != '>' && ch != '"' && ch != '\''
  }

  /** An entity starts with `&`, has no other `&` and no markup character. */
  lemma EntityChars(x: char)
    requires x in Markup
    ensures |Entity(x)| >= 4 && Entity(x)[0] == '&' && EntityAt(Entity(x), 0)
    ensures forall k :: 0 <= k < |Entity(x)| ==> IsCharData(Entity(x)[k]) && (k > 0 ==> Entity(x)[k] != '&')
  {
    var e := Entity(x);
    if x == '&' { assert e == "&amp;"; }
    else if x == '<' { assert e == "&lt;"; }
    else if x == '>' { assert e == "&gt;"; }
    else if x == '"' { assert e == "&quot;"; }
    else { assert e == "&apos;"; }
  }

  /** Two different entities differ in their second or third character. */
  lemma EntitiesDiffer(a: char, b: char)
    requires a in Markup && b in Markup && a != b
    ensures Entity(a)[1] != Entity(b)[1] || Entity(a)[2] != Entity(b)[2]
  {
    EntityChars(a);
    EntityChars(b);
  }

  // ---------------------------------------------------------------- facts about replacing

  /** A stretch without the pattern's first character is copied as it is. */
  lemma {:induction false} ReplaceSkips(x: string, y: string, from: string, to: string)
    requires from != [] && from[0] !in x
    ensures ReplaceAll(x + y, from, to) == x + ReplaceAll(y, from, to)
    decreases |x|
  {
    if x != [] {
      var s := x + y;
      assert s[0] == x[0];
      if |s| >= |from| {
        assert s[..|from|][0] == x[0];
        assert s[..|from|] != from;
        assert ReplaceAll(s, from, to) == [s[0]] + ReplaceAll(s[1..], from, to);
        assert s[1..] == x[1..] + y;
        assert from[0] !in x[1..];
        ReplaceSkips(x[1..], y, from, to);
        assert x == [x[0]] + x[1..];
      } else {
        assert |y| < |from|;
      }
    } else {
      assert x + y == y;
    }
  }

  /** A pattern found at the start is replaced, and the scan goes on after it. */
  lemma ReplaceHead(y: string, from: string, to: string)
    requires from != []
    ensures ReplaceAll(from + y, from, to) == to + ReplaceAll(y, from, to)
  {
    assert (from + y)[..|from|] == from;
    assert (from + y)[|from|..] == y;
  }

  lemma EscapedNone(s: string)
    ensures Escaped(s, {}) == s
  {
  }

  /** One step of the escape chain adds one character to the escaped set. */
  lemma {:induction false} EscapeStep(s: string, cs: set<char>, c: char)
    requires c in Markup && c !in cs && cs <= Markup && (if c == '&' then cs == {} else '&' in cs)
    ensures ReplaceAll(Escaped(s, cs), [c], Entity(c)) == Escaped(s, cs + {c})
    decreases |s|
  {
    if s != [] {
      var rest := Escaped(s[1..], cs);
      EscapeStep(s[1..], cs, c);
      if s[0] == c {
        ReplaceHead(rest, [c], Entity(c));
      } else if s[0] in cs {
        EntityChars(s[0]);
        assert c != '&' && !IsCharData(c);
        assert [c][0] !in Entity(s[0]);
        ReplaceSkips(Entity(s[0]), rest, [c], Entity(c));
      } else {
        ReplaceSkips([s[0]], rest, [c], Entity(c));
      }
    }
  }

  /** One step of the unescape chain takes one character out of the escaped set; `&amp;` goes
      last, so no `&` that the earlier steps look at is a raw one. */
  lemma {:induction false} UnescapeStep(s: string, cs: set<char>, c: char)
    requires c in cs && cs <= Markup && '&' in cs && (c == '&' ==> cs == {'&'})
    ensures ReplaceAll(Escaped(s, cs), Entity(c), [c]) == Escaped(s, cs - {c})
    decreases |s|
  {
    if s != [] {
      var rest := Escaped(s[1..], cs);
      var pat := Entity(c);
      UnescapeStep(s[1..], cs, c);
      if s[0] == c {
        ReplaceHead(rest, pat, [c]);
      } else if s[0] in cs {
        OtherEntitySkipped(s[0], c, rest);
      } else {
        assert s[0] != '&';
        ReplaceSkips([s[0]], rest, pat, [c]);
      }
    }
  }

  /** One step of the scan where the pattern does not start. */
  lemma ReplaceMiss(t: string, from: string, to: string)
    requires from != [] && t != [] && (|t| >= |from| ==> t[..|from|] != from)
    ensures ReplaceAll(t, from, to) == [t[0]] + ReplaceAll(t[1..], from, to)
  {
    if |t| < |from| {
      assert ReplaceAll(t[1..], from, to) == t[1..];
      assert t == [t[0]] + t[1..];
    }
  }

  /** A text that starts with `&`, has no other `&` in its first part `e`, and differs from the
      pattern in its second or third character is copied through that part. */
  lemma SkipOtherEntity(e: string, pat: string, rest: string, to: string)
    requires |e| >= 3 && |pat| >= 3 && e[0] == '&' && pat[0] == '&' && pat[0] !in e[1..]
    requires e[1] != pat[1] || e[2] != pat[2]
    ensures ReplaceAll(e + rest, pat, to) == e + ReplaceAll(rest, pat, to)
  {
    var t := e + rest;
    assert t[1] == e[1] && t[2] == e[2];
    if |t| >= |pat| {
      assert t[..|pat|][1] == t[1] && t[..|pat|][2] == t[2];
    }
    ReplaceMiss(t, pat, to);
    assert t[1..] == e[1..] + rest;
    ReplaceSkips(e[1..], rest, pat, to);
    assert [e[0]] + e[1..] == e;
  }

  /** The scan for one entity passes over a different entity unchanged. */
  lemma OtherEntitySkipped(a: char, c: char, rest: string)
    requires a in Markup && c in Markup && a != c
    ensures ReplaceAll(Entity(a) + rest, Entity(c), [c]) == Entity(a) + ReplaceAll(rest, Entity(c), [c])
  {
    EntityChars(a);
    EntityChars(c);
    EntitiesDiffer(a, c);
    var e := Entity(a);
    assert Entity(c)[0] !in e[1..];
    SkipOtherEntity(e, Entity(c), rest, [c]);
  }

  // ---------------------------------------------------------------- what escaping promises

  /** The replace chain writes every markup character as its entity, character by character. */
  lemma EscapeXmlIsPerCharacter(s: string)
    ensures EscapeXml(Str(s)) == Escaped(s, Markup)
  {
    EscapedNone(s);
    EscapeStep(s, {}, '&');
    assert {} + {'&'} == {'&'};
    EscapeStep(s, {'&'}, '<');
    assert {'&'} + {'<'} == {'&', '<'};
    EscapeStep(s, {'&', '<'}, '>');
    assert {'&', '<'} + {'>'} == {'&', '<', '>'};
    EscapeStep(s, {'&', '<', '>'}, '"');
    assert {'&', '<', '>'} + {'"'} == {'&', '<', '>', '"'};
    EscapeStep(s, {'&', '<', '>', '"'}, '\'');
    assert {'&', '<', '>', '"'} + {'\''} == Markup;
  }

  /** Unescaping an escaped string gives the string back. */
  lemma UnescapeOfEscape(s: string)
    ensures UnescapeXml(Str(EscapeXml(Str(s)))) == s
  {
    EscapeXmlIsPerCharacter(s);
    UnescapeStep(s, Markup, '\'');
    assert Markup - {'\''} == {'&', '<', '>', '"'};
    UnescapeStep(s, {'&', '<', '>', '"'}, '"');
    assert {'&', '<', '>', '"'} - {'"'} == {'&', '<', '>'};
    UnescapeStep(s, {'&', '<', '>'}, '>');
    assert {'&', '<', '>'} - {'>'} == {'&', '<'};
    UnescapeStep(s, {'&', '<'}, '<');
    assert {'&', '<'} - {'<'} == {'&'};
    UnescapeStep(s, {'&'}, '&');
    assert {'&'} - {'&'} == {};
    EscapedNone(s);
  }

  /** Escaped text holds no `<`, `>`, `"` or `'`, and every `&` in it starts an entity. */
  lemma {:induction false} EscapedIsCharacterData(s: string)
    ensures forall i :: 0 <= i < |Escaped(s, Markup)| ==>
      IsCharData(Escaped(s, Markup)[i]) && (Escaped(s, Markup)[i] == '&' ==> EntityAt(Escaped(s, Markup), i))
    decreases |s|
  {
    if s != [] {
      EscapedIsCharacterData(s[1..]);
      var head := if s[0] in Markup then Entity(s[0]) else [s[0]];
      var rest := Escaped(s[1..], Markup);
      var e := head + rest;
      forall i | 0 <= i < |e|
        ensures IsCharData(e[i]) && (e[i] == '&' ==> EntityAt(e, i))
      {
        if i < |head| {
          HeadIsCharacterData(s[0], rest, i);
        } else {
          var k := i - |head|;
          assert e[i] == rest[k];
          if rest[k] == '&' {
            EntityShifts(head, rest, k);
          }
        }
      }
    }
  }

  /** The escape of one character, put in front of any text, is character data, and an `&`
      in it starts an entity. */
  lemma HeadIsCharacterData(c: char, rest: string, i: nat)
    requires i < |if c in Markup then Entity(c) else [c]|
    ensures var e := (if c in Markup then Entity(c) else [c]) + rest;
            IsCharData(e[i]) && (e[i] == '&' ==> EntityAt(e, i))
  {
    var head := if c in Markup then Entity(c) else [c];
    var e := head + rest;
    assert e[i] == head[i];
    if c in Markup {
      EntityChars(c);
      if e[i] == '&' {
        assert i == 0;
        EntityHeads(head, rest);
      }
    }
  }

  lemma EntityHeads(head: string, rest: string)
    requires EntityAt(head, 0)
    ensures EntityAt(head + rest, 0)
  {
    assert forall n :: 0 <= n <= |head| ==> (head + rest)[..n] == head[..n];
  }

  lemma EntityShifts(head: string, rest: string, k: nat)
    requires k < |rest| && EntityAt(rest, k)
    ensures EntityAt(head + rest, |head| + k)
  {
    var e := head + rest;
    assert forall n :: k <= n <= |rest| ==> e[|head| + k..|head| + n] == rest[k..n];
  }

  /** `escapeXml` of a non-string is "" and so is `unescapeXml`. */
  lemma NonStringsGiveEmpty(v: Value)
    requires !v.Str?
    ensures EscapeXml(v) == "" && UnescapeXml(v) == ""
  {
  }

  // ---------------------------------------------------------------- the text-run pattern

  const OpenPrefix: string := "<w:t"
  const CloseTag: string := "</w:t>"

  /** The first index at or after `k` holding `c`. */
  function CharFrom(s: string, k: nat, c: char): (r: Option<nat>)
    ensures r.Some? ==> k <= r.value < |s| && s[r.value] == c && forall j :: k <= j < r.value ==> s[j] != c
    ensures r.None? ==> forall j :: k <= j < |s| ==> s[j] != c
    decreases |s| - k
  {
    if k >= |s| then None else if s[k] == c then Some(k) else CharFrom(s, k + 1, c)
  }

  /** Where one match of `(<w:t[^>]*>)([^<]*?)value([^<]*?)(</w:t>)` lies: the open tag is
      `s[start..open]`, the text before the value `s[open..at]`, the text after it
      `s[at + |value|..close]`, and the close tag `s[close..end]`. */
  datatype TextMatch = TextMatch(start: nat, open: nat, at: nat, close: nat, end: nat)

  predicate NoLt(s: string, i: nat, j: nat)
    requires i <= j <= |s|
  {
    forall k :: i <= k < j ==> s[k] != '<'
  }

  predicate MatchShape(s: string, value: string, m: TextMatch)
  {
    m.start + |OpenPrefix| < m.open <= m.at && m.at + |value| <= m.close && m.end == m.close + |CloseTag|
      && m.end <= |s|
      && ContainsAt(s, OpenPrefix, m.start) && s[m.open - 1] == '>'
      && (forall k :: m.start + |OpenPrefix| <= k < m.open - 1 ==> s[k] != '>')
      && NoLt(s, m.open, m.at) && s[m.at..m.at + |value|] == value
      && NoLt(s, m.at + |value|, m.close) && ContainsAt(s, CloseTag, m.close)
  }

  /** The lazy `([^<]*?)(</w:t>)` from `u`: it can only stop at the first `<`. */
  function CloseFrom(s: string, u: nat): (r: Option<nat>)
    requires u <= |s|
    ensures r.Some? ==>
      (u <= r.value && r.value + |CloseTag| <= |s| && NoLt(s, u, r.value) && ContainsAt(s, CloseTag, r.value))
  {
    var w := CharFrom(s, u, '<');
    if w.Some? && ContainsAt(s, CloseTag, w.value) then w else None
  }

  /** The lazy `([^<]*?)value` from `open`, trying the value at `t`, `t + 1`, … and taking the
      first place from which the rest of the pattern matches too. */
  function ValueFrom(s: string, start: nat, open: nat, t: nat, value: string): (r: Option<TextMatch>)
    requires open <= t <= |s| && NoLt(s, open, t)
    ensures r.Some? ==>
      (r.value.start == start && r.value.open == open && t <= r.value.at
       && r.value.at + |value| <= r.value.close && r.value.end == r.value.close + |CloseTag| <= |s|
       && NoLt(s, open, r.value.at) && s[r.value.at..r.value.at + |value|] == value
       && NoLt(s, r.value.at + |value|, r.value.close) && ContainsAt(s, CloseTag, r.value.close))
    decreases |s| - t
  {
    var close := if t + |value| <= |s| && s[t..t + |value|] == value then CloseFrom(s, t + |value|) else None;
    if close.Some? then Some(TextMatch(start, open, t, close.value, close.value + |CloseTag|))
    else if t < |s| && s[t] != '<' then ValueFrom(s, start, open, t + 1, value)
    else None
  }

  /** The match that starts at `i`, if any. */
  function MatchAt(s: string, i: nat, value: string): (r: Option<TextMatch>)
    ensures r.Some? ==> r.value.start == i && MatchShape(s, value, r.value)
  {
    if !ContainsAt(s, OpenPrefix, i) then None
    else
      var gt := CharFrom(s, i + |OpenPrefix|, '>');
      if gt.None? then None else ValueFrom(s, i, gt.value + 1, gt.value + 1, value)
  }

  // ---------------------------------------------------------------- replacing in text runs

  /** The placeholder of a key. */
  function Placeholder(key: string): string
  {
    "{{" + key + "}}"
  }

  /** The matched text with only the value replaced: open tag, text before, placeholder, text
      after, close tag, as the doc comment of `replaceContentWithPlaceholders` describes. */
  function Piece(s: string, value: string, m: TextMatch, ph: string): string
    requires MatchShape(s, value, m)
  {
    s[m.start..m.open] + s[m.open..m.at] + ph + s[m.at + |value|..m.close] + s[m.close..m.end]
  }

  /** What the replacement callback as written returns: its parameters are named as if there
      were five groups, so `after` receives the close tag and `closeTag` the match offset. */
  function PieceAsWritten(s: string, value: string, m: TextMatch, ph: string, offset: nat): string
    requires MatchShape(s, value, m)
  {
    s[m.start..m.open] + s[m.open..m.at] + ph + s[m.close..m.end] + NatToString(offset)
  }

  /** `result.replace(textTagPattern, …)` from position `p` on, with the intended pieces. */
  function ReplaceRunsFrom(s: string, p: nat, value: string, ph: string): string
    requires p <= |s|
    decreases |s| - p
  {
    if p == |s| then []
    else
      var m := MatchAt(s, p, value);
      if m.Some? then Piece(s, value, m.value, ph) + ReplaceRunsFrom(s, m.value.end, value, ph)
      else [s[p]] + ReplaceRunsFrom(s, p + 1, value, ph)
  }

  /** The same scan with the callback as written. */
  function ReplaceRunsAsWrittenFrom(s: string, p: nat, value: string, ph: string): string
    requires p <= |s|
    decreases |s| - p
  {
    if p == |s| then []
    else
      var m := MatchAt(s, p, value);
      if m.Some? then PieceAsWritten(s, value, m.value, ph, p) + ReplaceRunsAsWrittenFrom(s, m.value.end, value, ph)
      else [s[p]] + ReplaceRunsAsWrittenFrom(s, p + 1, value, ph)
  }

  /** The intended piece is the matched text with the value's span, and only that span,
      replaced: the tags and the rest of the run's text stay. */
  lemma PieceReplacesOnlyTheValue(s: string, value: string, m: TextMatch, ph: string)
    requires MatchShape(s, value, m)
    ensures Piece(s, value, m, ph) == s[m.start..m.at] + ph + s[m.at + |value|..m.end]
    ensures StartsWith(Piece(s, value, m, ph), s[m.start..m.open]) && EndsWith(Piece(s, value, m, ph), CloseTag)
  {
    assert s[m.start..m.open] + s[m.open..m.at] == s[m.start..m.at];
    assert s[m.at + |value|..m.close] + s[m.close..m.end] == s[m.at + |value|..m.end];
    assert s[m.close..m.end] == CloseTag;
  }

  /** With no match anywhere from `p` on, the text is left as it is, by either callback. */
  lemma {:induction false} NoMatchNoChange(s: string, p: nat, value: string, ph: string)
    requires p <= |s| && forall i :: p <= i < |s| ==> MatchAt(s, i, value).None?
    ensures ReplaceRunsFrom(s, p, value, ph) == s[p..]
    ensures ReplaceRunsAsWrittenFrom(s, p, value, ph) == s[p..]
    decreases |s| - p
  {
    if p < |s| {
      NoMatchNoChange(s, p + 1, value, ph);
      assert s[p..] == [s[p]] + s[p + 1..];
    }
  }

  /** Text outside `<w:t>` runs is never touched: a text with no `<w:t` is left as it is. */
  lemma NoRunNoChange(s: string, value: string, ph: string)
    requires !Contains(s, OpenPrefix)
    ensures ReplaceRunsFrom(s, 0, value, ph) == s
    ensures ReplaceRunsAsWrittenFrom(s, 0, value, ph) == s
  {
    forall i | 0 <= i < |s|
      ensures MatchAt(s, i, value).None?
    {
      if ContainsAt(s, OpenPrefix, i) {
        assert Contains(s, OpenPrefix);
      }
    }
    NoMatchNoChange(s, 0, value, ph);
  }

  /** The one match in `<w:t>ab</w:t>` for the value `a`. */
  lemma ExampleMatch()
    ensures MatchAt("<w:t>ab</w:t>", 0, "a") == Some(TextMatch(0, 5, 5, 7, 13))
    ensures MatchShape("<w:t>ab</w:t>", "a", TextMatch(0, 5, 5, 7, 13))
  {
    var s := "<w:t>ab</w:t>";
    assert s[..4] == OpenPrefix;
    assert s[4] == '>';
    assert CharFrom(s, 4, '>') == Some(4);
    assert s[5..6] == "a";
    assert s[6] == 'b' && s[7] == '<';
    assert CharFrom(s, 6, '<') == Some(7);
    assert s[7..13] == CloseTag;
    assert CloseFrom(s, 6) == Some(7);
  }

  /** The callback as written drops the text after the value and appends the match offset after
      the close tag: on `<w:t>ab</w:t>` with value `a` it gives `<w:t>{{k}}</w:t>0`. */
  lemma CallbackDropsTextAfterValue()
    ensures ReplaceRunsAsWrittenFrom("<w:t>ab</w:t>", 0, "a", Placeholder("k")) == "<w:t>{{k}}</w:t>0"
  {
    var s := "<w:t>ab</w:t>";
    var m := TextMatch(0, 5, 5, 7, 13);
    ExampleMatch();
    assert NatToString(0) == "0";
    assert ReplaceRunsAsWrittenFrom(s, 13, "a", Placeholder("k")) == [];
    assert s[0..5] == "<w:t>" && s[5..5] == [] && s[7..13] == CloseTag;
  }

  /** The intended callback keeps the text after the value: `<w:t>{{k}}b</w:t>`. */
  lemma CallbackAsIntended()
    ensures ReplaceRunsFrom("<w:t>ab</w:t>", 0, "a", Placeholder("k")) == "<w:t>{{k}}b</w:t>"
  {
    var s := "<w:t>ab</w:t>";
    ExampleMatch();
    assert ReplaceRunsFrom(s, 13, "a", Placeholder("k")) == [];
    assert s[0..5] == "<w:t>" && s[5..5] == [] && s[6..7] == "b" && s[7..13] == CloseTag;
  }

  // ---------------------------------------------------------------- the data map

  /** One entry of the data map: a placeholder key and the text of its value (`String(value)`),
      `None` for null and undefined. */
  datatype MapEntry = MapEntry(key: string, value: Option<string>)

  predicate Usable(e: MapEntry)
  {
    e.value.Some? && Trim(e.value.value) != ""
  }

  /** The `filter` step: entries with a null, undefined or blank value are dropped. */
  function UsableEntries(entries: seq<MapEntry>): (r: seq<MapEntry>)
    ensures |r| <= |entries|
    ensures forall e :: e in r <==> e in entries && Usable(e)
    ensures AllUsable(r)
  {
    if entries == [] then []
    else (if Usable(entries[0]) then [entries[0]] else []) + UsableEntries(entries[1..])
  }

  function ValueLength(e: MapEntry): nat
  {
    if e.value.Some? then |e.value.value| else 0
  }

  predicate AllUsable(order: seq<MapEntry>)
  {
    forall k :: 0 <= k < |order| ==> Usable(order[k])
  }

  /** The sort key: longer values first (the untrimmed `String(value).length`). */
  function LengthKey(e: MapEntry): real
  {
    -(ValueLength(e) as real)
  }

  /** The entries in the order they are replaced. */
  function ReplacementOrder(entries: seq<MapEntry>): (order: seq<MapEntry>)
    ensures AllUsable(order)
  {
    SortKeepsUsable(UsableEntries(entries));
    SortByKey(UsableEntries(entries), LengthKey)
  }

  /** Exactly the usable entries are replaced, each once, the longest value first. */
  lemma ReplacementOrderMeaning(entries: seq<MapEntry>)
    ensures var order := ReplacementOrder(entries);
      (forall e :: e in order <==> e in entries && Usable(e))
      && multiset(order) == multiset(UsableEntries(entries))
      && forall i, j :: 0 <= i < j < |order| ==> ValueLength(order[i]) >= ValueLength(order[j])
  {
    var usable := UsableEntries(entries);
    var order := SortByKey(usable, LengthKey);
    SortIsSorted(usable, LengthKey);
    assert forall e :: e in order <==> e in multiset(order);
    assert forall e :: e in usable <==> e in multiset(usable);
  }

  /** Sorting usable entries leaves them usable. */
  lemma SortKeepsUsable(xs: seq<MapEntry>)
    requires AllUsable(xs)
    ensures AllUsable(SortByKey(xs, LengthKey))
  {
    var r := SortByKey(xs, LengthKey);
    forall k | 0 <= k < |r|
      ensures Usable(r[k])
    {
      assert r[k] in multiset(r);
      var j :| 0 <= j < |xs| && xs[j] == r[k];
    }
  }

  /** One `result.replace(textTagPattern, …)`: with the callback as written, or with the
      intended one when `intended` holds. */
  function ReplaceRuns(s: string, value: string, ph: string, intended: bool): string
  {
    if intended then ReplaceRunsFrom(s, 0, value, ph) else ReplaceRunsAsWrittenFrom(s, 0, value, ph)
  }

  /** The document after the given entries, in order. */
  function ReplaceAllEntries(doc: string, order: seq<MapEntry>, intended: bool): string
    requires AllUsable(order)
  {
    if order == [] then doc
    else
      var last := order[|order| - 1];
      ReplaceRuns(ReplaceAllEntries(doc, order[..|order| - 1], intended), Trim(last.value.value), Placeholder(last.key), intended)
  }

  /** `replaceContentWithPlaceholders`: the callback as written, or the intended one when
      `intended` holds. */
  method ReplaceContentWithPlaceholders(docXml: string, entries: seq<MapEntry>, intended: bool) returns (result: string)
    ensures result == ReplaceAllEntries(docXml, ReplacementOrder(entries), intended)
  {
    var order := ReplacementOrder(entries);
    result := docXml;
    var i := 0;
    while i < |order|
      invariant i <= |order|
      invariant result == ReplaceAllEntries(docXml, order[..i], intended)
    {
      var e := order[i];
      ReplaceAllEntriesStep(docXml, order, i, intended);
      result := ReplaceRuns(result, Trim(e.value.value), Placeholder(e.key), intended);
      i := i + 1;
    }
    assert order[..i] == order;
  }

  /** One more entry of the order is one more `replace` on the document so far. */
  lemma ReplaceAllEntriesStep(doc: string, order: seq<MapEntry>, i: nat, intended: bool)
    requires AllUsable(order) && i < |order|
    ensures AllUsable(order[..i]) && AllUsable(order[..i + 1]) && Usable(order[i])
    ensures ReplaceAllEntries(doc, order[..i + 1], intended)
         == ReplaceRuns(ReplaceAllEntries(doc, order[..i], intended), Trim(order[i].value.value), Placeholder(order[i].key), intended)
  {
    assert order[..i + 1][..i] == order[..i];
  }

  /** A document without `<w:t>` runs comes out unchanged, whatever the entries. */
  lemma {:induction false} NoRunsNoChange(doc: string, order: seq<MapEntry>, intended: bool)
    requires AllUsable(order)
    requires !Contains(doc, OpenPrefix)
    ensures ReplaceAllEntries(doc, order, intended) == doc
  {
    if order != [] {
      var last := order[|order| - 1];
      NoRunsNoChange(doc, order[..|order| - 1], intended);
      NoRunNoChange(doc, Trim(last.value.value), Placeholder(last.key));
    }
  }

  /** The tool run: an empty data map stops it; otherwise the document text is rewritten,
      with the callback as written (`intended` false) or the intended one. */
  function TemplateOf(docXml: string, entries: seq<MapEntry>, intended: bool): (r: Option<string>)
    ensures r.None? <==> entries == []
    ensures !Contains(docXml, OpenPrefix) && entries != [] ==> r == Some(docXml)
  {
    if entries == [] then None
    else
      var order := ReplacementOrder(entries);
      NoRunsNoChangeIf(docXml, order, intended);
      Some(ReplaceAllEntries(docXml, order, intended))
  }

  lemma NoRunsNoChangeIf(doc: string, order: seq<MapEntry>, intended: bool)
    requires AllUsable(order)
    ensures !Contains(doc, OpenPrefix) ==> ReplaceAllEntries(doc, order, intended) == doc
  {
    if !Contains(doc, OpenPrefix) {
      NoRunsNoChange(doc, order, intended);
    }
  }

  /** On one run and one entry the two callbacks part ways: as written the text after the
      value is lost and the match offset follows the close tag; as intended only the value is
      replaced. */
  lemma TemplateOfExample()
    ensures TemplateOf("<w:t>ab</w:t>", [MapEntry("k", Some("a"))], false) == Some("<w:t>{{k}}</w:t>0")
    ensures TemplateOf("<w:t>ab</w:t>", [MapEntry("k", Some("a"))], true) == Some("<w:t>{{k}}b</w:t>")
  {
    var e := MapEntry("k", Some("a"));
    TrimOfTrimmed("a");
    assert Usable(e);
    assert UsableEntries([e]) == [e];
    var order := ReplacementOrder([e]);
    assert |order| == 1 && order[0] in multiset(order);
    assert order == [e];
    assert order[..0] == [];
    CallbackDropsTextAfterValue();
    CallbackAsIntended();
  }
}
