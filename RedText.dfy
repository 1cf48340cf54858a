/** The red-text extractor (`extract-red-text-from-word.js`): the texts of the red runs of a
    Word document, trimmed and deduplicated in first-occurrence order, each given a generated
    placeholder name, and the data map from placeholder to text that the template tool reads. */
module RedText {
  import opened Common
  import opened Grouping
  import opened PlaceholderNames

  // ---------------------------------------------------------------- runs

  /** A `<w:color>` element: its `w:val` and `w:themeColor` attribute values. */
  datatype ColorTag = ColorTag(val: Option<string>, themeColor: Option<string>)

  /** A `<w:r>` run: its colour elements and the contents of its `<w:t>` elements, in order. */
  datatype Run = Run(colors: seq<ColorTag>, texts: seq<string>)

  /** The `w:val` values the extractor takes for red. */
  const RedValues: set<string> := {"FF0000", "DC143C", "C00000"}

  /** Both colour patterns carry the `i` flag, so the value and the theme name are compared
      without regard to ASCII case. */
  predicate IsRedColor(tag: ColorTag)
  {
    (tag.val.Some? && ToUpper(tag.val.value) in RedValues)
    || (tag.themeColor.Some? && ToLower(tag.themeColor.value) == "accent2")
  }

  predicate IsRed(run: Run)
  {
    exists k :: 0 <= k < |run.colors| && IsRedColor(run.colors[k])
  }

  /** The texts a red run contributes: each `<w:t>` content trimmed, the empty ones dropped. */
  function KeptTexts(texts: seq<string>): seq<string>
  {
    if texts == [] then []
    else
      var t := Trim(texts[|texts| - 1]);
      KeptTexts(texts[..|texts| - 1]) + (if t == [] then [] else [t])
  }

  /** What `extractRedText` collects from the runs, in document order. */
  function RedTexts(runs: seq<Run>): seq<string>
  {
    if runs == [] then []
    else
      var run := runs[|runs| - 1];
      RedTexts(runs[..|runs| - 1]) + (if IsRed(run) then KeptTexts(run.texts) else [])
  }

  /** The run loop of `extractRedText`, with the inner loop over the run's text elements. */
  method ExtractRedText(runs: seq<Run>) returns (redTexts: seq<string>)
    ensures redTexts == RedTexts(runs)
  {
    redTexts := [];
    var i := 0;
    while i < |runs|
      invariant i <= |runs|
      invariant redTexts == RedTexts(runs[..i])
    {
      var run := runs[i];
      assert runs[..i + 1][..i] == runs[..i];
      if IsRed(run) {
        var before := redTexts;
        var k := 0;
        while k < |run.texts|
          invariant k <= |run.texts|
          invariant redTexts == before + KeptTexts(run.texts[..k])
        {
          var text := Trim(run.texts[k]);
          assert run.texts[..k + 1][..k] == run.texts[..k];
          if text != [] {
            redTexts := redTexts + [text];
          }
          k := k + 1;
        }
        assert run.texts[..k] == run.texts;
      }
      i := i + 1;
    }
    assert runs[..i] == runs;
  }

  /** Some text element of the run trims to `t`. */
  predicate HasTrimmed(texts: seq<string>, t: string)
  {
    exists k :: 0 <= k < |texts| && Trim(texts[k]) == t
  }

  /** A text is kept from a run's text elements exactly when it is the non-empty trim of one
      of them. */
  lemma {:induction false} KeptTextsMembers(texts: seq<string>, t: string)
    ensures t in KeptTexts(texts) <==> t != [] && HasTrimmed(texts, t)
  {
    if texts != [] {
      var n := |texts| - 1;
      KeptTextsMembers(texts[..n], t);
      ExistsSnoc(texts, texts[..n], (x: string) => Trim(x) == t);
    }
  }

  /** Some red run has a text element that trims to `t`. */
  predicate InRedRun(runs: seq<Run>, t: string)
  {
    exists i :: 0 <= i < |runs| && IsRed(runs[i]) && HasTrimmed(runs[i].texts, t)
  }

  /** A text is extracted exactly when it is the non-empty trim of a text element of a red
      run; runs that are not red contribute nothing. */
  lemma {:induction false} RedTextsMembers(runs: seq<Run>, t: string)
    ensures t in RedTexts(runs) <==> t != [] && InRedRun(runs, t)
  {
    if runs != [] {
      var n := |runs| - 1;
      var run := runs[n];
      RedTextsMembers(runs[..n], t);
      KeptTextsMembers(run.texts, t);
      assert RedTexts(runs) == RedTexts(runs[..n]) + (if IsRed(run) then KeptTexts(run.texts) else []);
      InRedRunSnoc(runs, t);
    }
  }

  /** A red run of the last one has the text exactly when the last run does or one before it. */
  lemma InRedRunSnoc(runs: seq<Run>, t: string)
    requires runs != []
    ensures InRedRun(runs, t) <==>
      InRedRun(runs[..|runs| - 1], t) || (IsRed(runs[|runs| - 1]) && HasTrimmed(runs[|runs| - 1].texts, t))
  {
    ExistsSnoc(runs, runs[..|runs| - 1], (r: Run) => IsRed(r) && HasTrimmed(r.texts, t));
  }

  // ---------------------------------------------------------------- deduplication

  /** An entry of `uniqueTexts`: the text, its placeholder and its one-based number. */
  datatype UniqueText = UniqueText(text: string, placeholder: string, index: nat)

  /** The texts `uniqueTexts` receives: each trimmed text once, where it first occurs. */
  function FirstTexts(texts: seq<string>): (r: seq<string>)
    ensures NoDups(r)
    ensures forall t :: t in r <==> t != [] && exists i :: 0 <= i < |texts| && Trim(texts[i]) == t
  {
    if texts == [] then []
    else
      var n := |texts| - 1;
      var p := FirstTexts(texts[..n]);
      var t := Trim(texts[n]);
      assert forall i :: 0 <= i < n ==> texts[..n][i] == texts[i];
      if t != [] && t !in p then p + [t] else p
  }

  /** The entries for the distinct texts: the placeholder is generated from the text and the
      number of entries before it, which is also one less than the entry's number. */
  function Entries(unique: seq<string>): (r: seq<UniqueText>)
  {
    seq(|unique|, k requires 0 <= k < |unique| =>
      UniqueText(unique[k], GeneratePlaceholderName(unique[k], k), k + 1))
  }

  lemma EntriesSnoc(unique: seq<string>, t: string)
    ensures Entries(unique + [t])
      == Entries(unique) + [UniqueText(t, GeneratePlaceholderName(t, |unique|), |unique| + 1)]
  {
  }

  /** The deduplicating loop of `main`, with its `seenTexts` set. */
  method DedupeTexts(redTexts: seq<string>) returns (unique: seq<UniqueText>)
    ensures unique == Entries(FirstTexts(redTexts))
  {
    unique := [];
    ghost var texts: seq<string> := [];
    var seen: set<string> := {};
    var i := 0;
    while i < |redTexts|
      invariant i <= |redTexts|
      invariant texts == FirstTexts(redTexts[..i])
      invariant unique == Entries(texts)
      invariant forall t :: t in seen <==> t in texts
    {
      assert redTexts[..i + 1][..i] == redTexts[..i];
      var normalized := Trim(redTexts[i]);
      if normalized != [] && normalized !in seen {
        seen := seen + {normalized};
        EntriesSnoc(texts, normalized);
        unique := unique + [UniqueText(normalized, GeneratePlaceholderName(normalized, |unique|), |unique| + 1)];
        texts := texts + [normalized];
      }
      i := i + 1;
    }
    assert redTexts[..i] == redTexts;
  }

  /** Where each distinct text comes from: position `pos[a]` of the input is the first whose
      trim is the `a`-th distinct text, and the positions increase, so the distinct texts keep
      the order of their first occurrences. */
  function FirstPositions(texts: seq<string>): (pos: seq<nat>)
    ensures |pos| == |FirstTexts(texts)|
    ensures forall a :: 0 <= a < |pos| ==>
      pos[a] < |texts| && Trim(texts[pos[a]]) == FirstTexts(texts)[a]
    ensures forall a, j :: 0 <= a < |pos| && 0 <= j < pos[a] ==> Trim(texts[j]) != FirstTexts(texts)[a]
    ensures forall a, b :: 0 <= a < b < |pos| ==> pos[a] < pos[b]
  {
    if texts == [] then []
    else
      var n := |texts| - 1;
      var p := FirstPositions(texts[..n]);
      var t := Trim(texts[n]);
      var f := FirstTexts(texts[..n]);
      assert forall i :: 0 <= i < n ==> texts[..n][i] == texts[i];
      assert FirstTexts(texts) == if t != [] && t !in f then f + [t] else f;
      if t != [] && t !in f then p + [n] else p
  }

  // ---------------------------------------------------------------- data map

  /** `dataMap[item.placeholder] = item.text` over the entries in order: a later entry with
      the same placeholder overwrites an earlier one. */
  function DataMap(unique: seq<UniqueText>): map<string, string>
  {
    if unique == [] then map[]
    else
      var e := unique[|unique| - 1];
      DataMap(unique[..|unique| - 1])[e.placeholder := e.text]
  }

  method BuildDataMap(unique: seq<UniqueText>) returns (dataMap: map<string, string>)
    ensures dataMap == DataMap(unique)
  {
    dataMap := map[];
    var i := 0;
    while i < |unique|
      invariant i <= |unique|
      invariant dataMap == DataMap(unique[..i])
    {
      assert unique[..i + 1][..i] == unique[..i];
      dataMap := dataMap[unique[i].placeholder := unique[i].text];
      i := i + 1;
    }
    assert unique[..i] == unique;
  }

  /** No later entry has the placeholder of entry `k`. */
  predicate LastWithPlaceholder(unique: seq<UniqueText>, k: nat)
    requires k < |unique|
  {
    forall l :: k < l < |unique| ==> unique[l].placeholder != unique[k].placeholder
  }

  /** Some entry carries the placeholder `p`. */
  predicate HasPlaceholder(unique: seq<UniqueText>, p: string)
  {
    exists k :: 0 <= k < |unique| && unique[k].placeholder == p
  }

  /** The keys of the map are exactly the placeholders. */
  lemma {:induction false} DataMapKeys(unique: seq<UniqueText>)
    ensures forall p :: p in DataMap(unique) <==> HasPlaceholder(unique, p)
  {
    if unique != [] {
      var n := |unique| - 1;
      var init := unique[..n];
      DataMapKeys(init);
      forall p
        ensures HasPlaceholder(unique, p) <==> HasPlaceholder(init, p) || p == unique[n].placeholder
      {
        if HasPlaceholder(init, p) {
          var k :| 0 <= k < |init| && init[k].placeholder == p;
          assert unique[k] == init[k];
        }
        if HasPlaceholder(unique, p) {
          var k :| 0 <= k < |unique| && unique[k].placeholder == p;
          if k < n {
            assert init[k] == unique[k];
          }
        }
      }
    }
  }

  /** Each placeholder maps to the text of the last entry that carries it. */
  lemma {:induction false} DataMapLast(unique: seq<UniqueText>)
    ensures forall k :: 0 <= k < |unique| && LastWithPlaceholder(unique, k) ==>
      (unique[k].placeholder in DataMap(unique) && DataMap(unique)[unique[k].placeholder] == unique[k].text)
  {
    if unique != [] {
      var n := |unique| - 1;
      var init := unique[..n];
      DataMapLast(init);
      forall k | 0 <= k < n && LastWithPlaceholder(unique, k)
        ensures LastWithPlaceholder(init, k) && unique[k].placeholder != unique[n].placeholder
      {
        assert init[k] == unique[k];
        forall l | k < l < |init|
          ensures init[l].placeholder != init[k].placeholder
        {
          assert init[l] == unique[l];
        }
      }
    }
  }

  /** With pairwise different placeholders every entry's text survives in the map. */
  lemma DistinctPlaceholdersKeepEveryText(unique: seq<UniqueText>)
    requires forall k, l :: 0 <= k < l < |unique| ==> unique[k].placeholder != unique[l].placeholder
    ensures forall k :: 0 <= k < |unique| ==>
      unique[k].placeholder in DataMap(unique) && DataMap(unique)[unique[k].placeholder] == unique[k].text
  {
    DataMapLast(unique);
  }

  /** `a b` and `a-b` both clean to the placeholder `a_b`. */
  lemma SharedPlaceholder()
    ensures GeneratePlaceholderName("a b", 0) == "a_b" && GeneratePlaceholderName("a-b", 1) == "a_b"
  {
    assert MapChars("a b") == "a_b";
    assert MapChars("a-b") == "a_b";
    assert NoDoubleUnderscore("a_b");
    assert NoEdgeUnderscore("a_b");
  }

  /** Two different trimmed texts are both kept, in order. */
  lemma FirstTextsOfTwo(x: string, y: string)
    requires x != [] && y != [] && x != y && Trim(x) == x && Trim(y) == y
    ensures FirstTexts([x, y]) == [x, y]
  {
    assert [x, y][..1] == [x];
    assert [x][..0] == [];
    assert FirstTexts([x]) == [x];
  }

  /** Two entries with one placeholder leave the later text. */
  lemma DataMapOfTwo(e: UniqueText, f: UniqueText)
    requires e.placeholder == f.placeholder
    ensures DataMap([e, f]) == map[e.placeholder := f.text]
  {
    assert [e, f][..1] == [e];
    assert [e][..0] == [];
    assert DataMap([e]) == map[e.placeholder := e.text];
  }

  /** Two different texts can share a placeholder, and then the map keeps only the later one. */
  lemma PlaceholderCollision()
    ensures FirstTexts(["a b", "a-b"]) == ["a b", "a-b"]
    ensures DataMap(Entries(["a b", "a-b"])) == map["a_b" := "a-b"]
  {
    TrimOfTrimmed("a b");
    TrimOfTrimmed("a-b");
    FirstTextsOfTwo("a b", "a-b");
    SharedPlaceholder();
    var e := Entries(["a b", "a-b"]);
    assert e[0].placeholder == "a_b" && e[1] == UniqueText("a-b", "a_b", 2);
    assert e == [e[0], e[1]];
    DataMapOfTwo(e[0], e[1]);
  }

  // ---------------------------------------------------------------- the whole run

  /** The data map written for a document, or None when no red text was found and the tool
      returns without writing one. */
  function TemplateDataMap(runs: seq<Run>): Option<map<string, string>>
  {
    var red := RedTexts(runs);
    if red == [] then None else Some(DataMap(Entries(FirstTexts(red))))
  }

  /** No map is written exactly when no red run has a text element with something other than
      white space in it. */
  lemma NoMapIffNoRedText(runs: seq<Run>)
    ensures TemplateDataMap(runs).None? <==> forall t :: t != [] ==> !InRedRun(runs, t)
  {
    var red := RedTexts(runs);
    if red != [] {
      RedTextsMembers(runs, red[0]);
    } else {
      forall t | t != []
        ensures !InRedRun(runs, t)
      {
        RedTextsMembers(runs, t);
      }
    }
  }

  /** Every key of a written map is a well-formed placeholder and every value one of the
      extracted texts. */
  lemma MapEntriesComeFromRedTexts(runs: seq<Run>)
    ensures TemplateDataMap(runs).Some? ==>
      forall p :: p in TemplateDataMap(runs).value ==>
        WellFormedName(p) && TemplateDataMap(runs).value[p] in RedTexts(runs)
  {
    var red := RedTexts(runs);
    if red != [] {
      var unique := FirstTexts(red);
      var entries := Entries(unique);
      DataMapValues(entries);
      ExtractedTextsAreTrimmed(runs);
      forall k | 0 <= k < |entries|
        ensures WellFormedName(entries[k].placeholder) && entries[k].text in red
      {
        GeneratedNameIsWellFormed(unique[k], k);
        assert unique[k] in unique;
        TrimKeepsTexts(red, unique[k]);
      }
    }
  }

  lemma ExtractedTextsAreTrimmed(runs: seq<Run>)
    ensures forall x :: x in RedTexts(runs) ==> Trim(x) == x
  {
    forall x | x in RedTexts(runs)
      ensures Trim(x) == x
    {
      RedTextsMembers(runs, x);
      var i :| 0 <= i < |runs| && IsRed(runs[i]) && HasTrimmed(runs[i].texts, x);
      var k :| 0 <= k < |runs[i].texts| && Trim(runs[i].texts[k]) == x;
      TrimOfTrimmed(x);
    }
  }

  /** Every key and value of the map comes from one entry. */
  lemma {:induction false} DataMapValues(unique: seq<UniqueText>)
    ensures forall p :: p in DataMap(unique) ==>
      exists k :: 0 <= k < |unique| && unique[k].placeholder == p && DataMap(unique)[p] == unique[k].text
  {
    if unique != [] {
      var n := |unique| - 1;
      DataMapValues(unique[..n]);
      assert forall k :: 0 <= k < n ==> unique[..n][k] == unique[k];
    }
  }

  /** The extracted texts are already trimmed, so the second trim of the deduplicating loop
      finds each of them unchanged. */
  lemma TrimKeepsTexts(red: seq<string>, t: string)
    requires t in FirstTexts(red)
    requires forall x :: x in red ==> Trim(x) == x
    ensures t in red
  {
    var i :| 0 <= i < |red| && Trim(red[i]) == t;
  }
}
