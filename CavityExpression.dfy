/** The cavity expression of a mould (src/utils/mould/cavityExpression.ts): free text such as
    "2*4+8" is normalised to '+'-joined terms `1*k`, one per usable part, with each cavity
    count `k` rounded and clamped to 1..64; and the "init done" flag test. */
module CavityExpression {
  import opened Common
  import opened JsNumber

  /** `toSafeCavity`: 1 for a non-finite number, else the rounded value clamped to 1..64. */
  function SafeCavity(n: Num): (k: int)
    ensures 1 <= k <= 64
    ensures !n.Finite? ==> k == 1
    ensures n.Finite? && 1.0 <= n.v <= 64.0 ==> k == Round(n.v)
    ensures n.Finite? && n.v < 1.0 ==> k == 1
    ensures n.Finite? && n.v >= 64.0 ==> k == 64
  {
    if !n.Finite? then 1 else Clamp(Round(n.v), 1, 64)
  }

  /** `1*${k}`. */
  function TermText(k: int): string
  {
    "1*" + IntToString(k)
  }

  function TermTexts(ks: seq<int>): (r: seq<string>)
    ensures |r| == |ks|
  {
    if ks == [] then [] else TermTexts(ks[..|ks| - 1]) + [TermText(ks[|ks| - 1])]
  }

  /** The text for a list of cavity counts: their terms joined by '+'. */
  function Render(ks: seq<int>): string
  {
    Join(TermTexts(ks), "+")
  }

  /** The text holding a part's count: what follows its last '*', trimmed, or the part itself. */
  function CountText(p: string): string
  {
    if '*' in p then Trim(LastSegment(p, '*')) else p
  }

  /** One '+'-part: its count, unless the count text is not a finite number, in which case
      the part is dropped. */
  function PartCount(p: string): (c: Option<int>)
    ensures c.Some? ==> 1 <= c.value <= 64
  {
    var n := StringToNumber(CountText(p));
    if n.Finite? then Some(SafeCavity(n)) else None
  }

  /** Each part's count, or `None` where the part is dropped. */
  function PartOptions(parts: seq<string>): seq<Option<int>>
  {
    seq(|parts|, k requires 0 <= k < |parts| => PartCount(parts[k]))
  }

  /** The values of the `Some`s, in order. */
  function Somes(cs: seq<Option<int>>): (r: seq<int>)
    ensures |r| <= |cs|
  {
    if cs == [] then []
    else
      var c := cs[|cs| - 1];
      Somes(cs[..|cs| - 1]) + (if c.Some? then [c.value] else [])
  }

  /** The counts of the parts that have one. */
  function PartCounts(parts: seq<string>): (ks: seq<int>)
    ensures |ks| <= |parts|
    ensures forall i :: 0 <= i < |ks| ==> 1 <= ks[i] <= 64
  {
    SomesInRange(PartOptions(parts));
    Somes(PartOptions(parts))
  }

  /** The parts of the expression, with white space removed, split at '+', empty ones gone. */
  function Parts(expr: string): seq<string>
  {
    NonEmpty(TrimAll(Split(expr, '+')))
  }

  /** The branch for an expression that is one plain number. */
  predicate PlainNumber(expr: string)
  {
    '+' !in expr && '*' !in expr && StringToNumber(expr).Finite?
  }

  /** The counts for a non-blank trimmed input: the plain number, else the parts' counts, else
      the whole input read as a number, else nothing. */
  function CountsOfRaw(raw: string): (ks: seq<int>)
    ensures forall i :: 0 <= i < |ks| ==> 1 <= ks[i] <= 64
  {
    var expr := RemoveSpaces(raw);
    if PlainNumber(expr) then [SafeCavity(StringToNumber(expr))]
    else
      var ks := PartCounts(Parts(expr));
      if ks != [] then ks
      else
        var fallback := StringToNumber(raw);
        if fallback.Finite? then [SafeCavity(fallback)] else []
  }

  /** The cavity counts `normalizeCavityExpression` writes out, for a string input (`None` is
      null or undefined). */
  function CavityCounts(input: Option<string>): (ks: seq<int>)
    ensures forall i :: 0 <= i < |ks| ==> 1 <= ks[i] <= 64
  {
    var raw := Trim(if input.Some? then input.value else "");
    if raw == [] then [] else CountsOfRaw(raw)
  }

  /** What `normalizeCavityExpression` returns. */
  function NormalizedCavity(input: Option<string>): string
  {
    Render(CavityCounts(input))
  }

  // ---------------------------------------------------------------- the code

  /** `normalizeCavityExpression`. */
  method NormalizeCavityExpression(input: Option<string>) returns (r: string)
    ensures r == NormalizedCavity(input)
  {
    var raw := Trim(if input.Some? then input.value else "");
    if raw == [] {
      return "";
    }
    var expr := RemoveSpaces(raw);
    var num := StringToNumber(expr);
    if num.Finite? && '+' !in expr && '*' !in expr {
      return TermText(SafeCavity(num));
    }
    assert !PlainNumber(expr);
    var terms := CollectTerms(Parts(expr));
    if terms != [] {
      return Join(terms, "+");
    }
    var fallback := StringToNumber(raw);
    r := if fallback.Finite? then TermText(SafeCavity(fallback)) else "";
  }

  /** The loop over the parts: one term for each part whose count is finite. */
  method CollectTerms(parts: seq<string>) returns (terms: seq<string>)
    ensures terms == TermTexts(PartCounts(parts))
  {
    ghost var opts := PartOptions(parts);
    terms := [];
    var i := 0;
    while i < |parts|
      invariant 0 <= i <= |parts|
      invariant terms == TermTexts(Somes(opts[..i]))
    {
      var c := ReadCount(parts[i]);
      assert c == opts[i];
      SomesStep(opts, i);
      if c.Some? {
        TermTextsSnoc(Somes(opts[..i]), c.value);
        terms := terms + [TermText(c.value)];
        assert Somes(opts[..i + 1]) == Somes(opts[..i]) + [c.value];
      } else {
        assert Somes(opts[..i + 1]) == Somes(opts[..i]);
      }
      i := i + 1;
    }
    assert opts[..i] == opts;
  }

  /** The count of one part (the body of the loop). */
  method ReadCount(p: string) returns (c: Option<int>)
    ensures c == PartCount(p)
  {
    var count := if '*' in p then Trim(LastSegment(p, '*')) else p;
    var n := StringToNumber(count);
    c := if n.Finite? then Some(SafeCavity(n)) else None;
  }

  /** `isInitDone`: `true` is done, `false` is not, anything else is done exactly when it
      converts to the number 1. */
  function IsInitDone(x: Value): bool
  {
    if x == Bool(true) then true
    else if x == Bool(false) then false
    else
      var n := ToNumber(x);
      if n.Finite? then n.v == 1.0 else false
  }

  // ---------------------------------------------------------------- reading a part

  /** The count text of a part with a '*' is the trimmed last piece of `p.split('*')`. */
  lemma CountTextIsLastPiece(p: string)
    requires '*' in p
    ensures var segs := TrimAll(Split(p, '*'));
      CountText(p) == segs[|segs| - 1]
  {
    LastOfSplit(p, '*');
  }

  lemma TermTextsSnoc(ks: seq<int>, k: int)
    ensures TermTexts(ks + [k]) == TermTexts(ks) + [TermText(k)]
  {
    assert (ks + [k])[..|ks|] == ks;
  }

  lemma {:induction false} TermTextsAt(ks: seq<int>)
    ensures forall i :: 0 <= i < |ks| ==> TermTexts(ks)[i] == TermText(ks[i])
  {
    if ks != [] {
      TermTextsAt(ks[..|ks| - 1]);
    }
  }

  lemma SomesStep(cs: seq<Option<int>>, i: nat)
    requires i < |cs|
    ensures Somes(cs[..i + 1]) == Somes(cs[..i]) + (if cs[i].Some? then [cs[i].value] else [])
  {
    assert cs[..i + 1][..i] == cs[..i];
  }

  /** A bound on every `Some` holds for every value `Somes` keeps. */
  lemma {:induction false} SomesInRange(cs: seq<Option<int>>)
    requires forall i :: 0 <= i < |cs| && cs[i].Some? ==> 1 <= cs[i].value <= 64
    ensures forall i :: 0 <= i < |Somes(cs)| ==> 1 <= Somes(cs)[i] <= 64
  {
    if cs != [] {
      SomesInRange(cs[..|cs| - 1]);
    }
  }

  /** When every option is a `Some`, `Somes` gives back their values. */
  lemma {:induction false} SomesOfSomes(cs: seq<Option<int>>, ks: seq<int>)
    requires |cs| == |ks| && forall i :: 0 <= i < |cs| ==> cs[i] == Some(ks[i])
    ensures Somes(cs) == ks
  {
    if cs != [] {
      SomesOfSomes(cs[..|cs| - 1], ks[..|ks| - 1]);
      assert ks == ks[..|ks| - 1] + [ks[|ks| - 1]];
    }
  }

  // ---------------------------------------------------------------- what the output looks like

  predicate TermChar(c: char)
  {
    c == '*' || c == '+' || IsDigit(c)
  }

  lemma {:induction false} JoinChars(parts: seq<string>, sep: string)
    requires forall i :: 0 <= i < |sep| ==> TermChar(sep[i])
    requires forall k, i :: 0 <= k < |parts| && 0 <= i < |parts[k]| ==> TermChar(parts[k][i])
    ensures forall i :: 0 <= i < |Join(parts, sep)| ==> TermChar(Join(parts, sep)[i])
  {
    if |parts| > 1 {
      JoinChars(parts[1..], sep);
      var rest := Join(parts[1..], sep);
      assert Join(parts, sep) == parts[0] + sep + rest;
      forall i | 0 <= i < |Join(parts, sep)| ensures TermChar(Join(parts, sep)[i]) {
        if i < |parts[0]| {
          assert Join(parts, sep)[i] == parts[0][i];
        } else if i < |parts[0]| + |sep| {
          assert Join(parts, sep)[i] == sep[i - |parts[0]|];
        } else {
          assert Join(parts, sep)[i] == rest[i - |parts[0]| - |sep|];
        }
      }
    }
  }

  /** A term is `1*` and the count's digits: it holds a '*' and no '+'. */
  lemma TermTextFacts(k: int)
    requires 1 <= k <= 64
    ensures TermText(k) == "1*" + NatToString(k)
    ensures forall i :: 0 <= i < |TermText(k)| ==> TermChar(TermText(k)[i]) && TermText(k)[i] != '+'
  {
    var t := TermText(k);
    var d := NatToString(k);
    assert t == "1*" + d;
    forall i | 0 <= i < |t| ensures TermChar(t[i]) && t[i] != '+' {
      if i >= 2 {
        assert t[i] == d[i - 2];
      }
    }
  }

  lemma TermsAreClean(ks: seq<int>)
    requires forall i :: 0 <= i < |ks| ==> 1 <= ks[i] <= 64
    ensures forall k :: 0 <= k < |ks| ==> TermTexts(ks)[k] != [] && '+' !in TermTexts(ks)[k]
    ensures forall k, i :: 0 <= k < |ks| && 0 <= i < |TermTexts(ks)[k]| ==> TermChar(TermTexts(ks)[k][i])
  {
    var parts := TermTexts(ks);
    TermTextsAt(ks);
    forall k | 0 <= k < |ks| ensures parts[k] != [] && '+' !in parts[k] {
      TermTextFacts(ks[k]);
      assert forall i :: 0 <= i < |parts[k]| ==> parts[k][i] != '+';
    }
    forall k, i | 0 <= k < |ks| && 0 <= i < |parts[k]| ensures TermChar(parts[k][i]) {
      TermTextFacts(ks[k]);
    }
  }

  /** A rendered expression is made of digits, '*' and '+', and contains a '*'. */
  lemma RenderFacts(ks: seq<int>)
    requires ks != [] && forall i :: 0 <= i < |ks| ==> 1 <= ks[i] <= 64
    ensures forall i :: 0 <= i < |Render(ks)| ==> TermChar(Render(ks)[i])
    ensures '*' in Render(ks)
  {
    var parts := TermTexts(ks);
    TermsAreClean(ks);
    JoinChars(parts, "+");
    var s := Render(ks);
    if |parts| > 1 {
      assert s == parts[0] + "+" + Join(parts[1..], "+");
    }
    TermTextsAt(ks);
    TermTextFacts(ks[0]);
    assert s[1] == parts[0][1] == '*';
  }

  lemma TermCharsAreNotSpaces(s: string)
    requires forall i :: 0 <= i < |s| ==> TermChar(s[i])
    ensures forall i :: 0 <= i < |s| ==> !IsSpace(s[i])
  {
  }

  lemma {:induction false} RemoveSpacesOfUnspaced(s: string)
    requires forall i :: 0 <= i < |s| ==> !IsSpace(s[i])
    ensures RemoveSpaces(s) == s
  {
    if s != [] {
      RemoveSpacesOfUnspaced(s[1..]);
    }
  }

  lemma TrimAllOfUnspaced(ss: seq<string>)
    requires forall k, i :: 0 <= k < |ss| && 0 <= i < |ss[k]| ==> !IsSpace(ss[k][i])
    ensures TrimAll(ss) == ss
  {
    forall k | 0 <= k < |ss| ensures Trim(ss[k]) == ss[k] {
      TrimOfUnspaced(ss[k]);
    }
  }

  // ---------------------------------------------------------------- reading the output back

  /** The count text of a term is the count's decimal text. */
  lemma CountTextOfTerm(k: int)
    requires 1 <= k <= 64
    ensures CountText(TermText(k)) == NatToString(k)
  {
    var d := NatToString(k);
    var p := TermText(k);
    assert p == "1*" + d;
    assert '*' !in d;
    assert FirstIndexOfChar(p, '*') == 1;
    assert p[2..] == d;
    assert LastSegment(p, '*') == d;
    TrimOfUnspaced(d);
  }

  /** A term reads back as its own count. */
  lemma PartCountOfTerm(k: int)
    requires 1 <= k <= 64
    ensures PartCount(TermText(k)) == Some(k)
  {
    CountTextOfTerm(k);
    NatTextToNumber(k);
    PartCountOfCount(TermText(k), NatToString(k), k);
  }

  lemma PartCountOfCount(p: string, c: string, k: int)
    requires 1 <= k <= 64 && CountText(p) == c && StringToNumber(c) == Finite(k as real)
    ensures PartCount(p) == Some(k)
  {
    assert Round(k as real) == k;
  }

  lemma PartCountsOfTerms(ks: seq<int>)
    requires forall i :: 0 <= i < |ks| ==> 1 <= ks[i] <= 64
    ensures PartCounts(TermTexts(ks)) == ks
  {
    var parts := TermTexts(ks);
    var opts := PartOptions(parts);
    TermTextsAt(ks);
    forall i | 0 <= i < |ks| ensures opts[i] == Some(ks[i]) {
      PartCountOfTerm(ks[i]);
    }
    SomesOfSomes(opts, ks);
  }

  /** Normalising is idempotent: an expression already in normal form comes back unchanged,
      with the same counts. */
  lemma Idempotent(ks: seq<int>)
    requires ks != [] && forall i :: 0 <= i < |ks| ==> 1 <= ks[i] <= 64
    ensures CavityCounts(Some(Render(ks))) == ks
    ensures NormalizedCavity(Some(Render(ks))) == Render(ks)
  {
    RenderIsNormalText(ks);
    PartsOfRender(ks);
    PartCountsOfTerms(ks);
    CountsOfNormalText(Render(ks), ks);
  }

  lemma RenderIsNormalText(ks: seq<int>)
    requires ks != [] && forall i :: 0 <= i < |ks| ==> 1 <= ks[i] <= 64
    ensures Trim(Render(ks)) == Render(ks) && RemoveSpaces(Render(ks)) == Render(ks)
    ensures '*' in Render(ks)
  {
    RenderFacts(ks);
    TermCharsAreNotSpaces(Render(ks));
    TrimOfUnspaced(Render(ks));
    RemoveSpacesOfUnspaced(Render(ks));
  }

  /** The '+'-parts of a rendered expression are its terms. */
  lemma PartsOfRender(ks: seq<int>)
    requires ks != [] && forall i :: 0 <= i < |ks| ==> 1 <= ks[i] <= 64
    ensures Parts(Render(ks)) == TermTexts(ks)
  {
    var parts := TermTexts(ks);
    TermsAreClean(ks);
    SplitJoin(parts, '+');
    assert "+" == ['+'];
    forall k | 0 <= k < |parts| ensures forall i :: 0 <= i < |parts[k]| ==> !IsSpace(parts[k][i]) {
      TermCharsAreNotSpaces(parts[k]);
    }
    TrimAllOfUnspaced(parts);
    NonEmptyOfNonEmpty(parts);
  }

  /** A trimmed text without white space that holds a '*' is read part by part. */
  lemma CountsOfNormalText(s: string, ks: seq<int>)
    requires ks != [] && Trim(s) == s && RemoveSpaces(s) == s && '*' in s
    requires PartCounts(Parts(s)) == ks
    ensures CavityCounts(Some(s)) == ks
  {
    assert s != [];
    assert !PlainNumber(s);
  }

  /** The output is empty exactly when no count was found; otherwise it starts with `1*`. */
  lemma RenderEmpty(ks: seq<int>)
    ensures Render(ks) == [] <==> ks == []
    ensures ks != [] ==> StartsWith(Render(ks), "1*")
  {
    if ks != [] {
      var parts := TermTexts(ks);
      TermTextsAt(ks);
      if |parts| > 1 {
        assert Join(parts, "+") == parts[0] + "+" + Join(parts[1..], "+");
      }
      assert Render(ks)[..2] == parts[0][..2];
    }
  }

  /** The done flag: `true` and the number 1 are done; `false`, 0, null and undefined are not. */
  lemma InitDoneValues()
    ensures IsInitDone(Bool(true)) && IsInitDone(Number(Finite(1.0)))
    ensures !IsInitDone(Bool(false)) && !IsInitDone(Number(Finite(0.0)))
    ensures !IsInitDone(Null) && !IsInitDone(Undefined) && !IsInitDone(Number(NaN))
  {
  }

  /** The text "1" is done; the empty text (which converts to 0) is not. */
  lemma InitDoneTexts()
    ensures IsInitDone(Str("1")) && !IsInitDone(Str(""))
  {
    DigitsToNumber("1");
  }
}
