/** `generatePlaceholderName`, which `extract-red-text-from-word.js` and
    `optimize-placeholder-names.js` both define with the same body: the text is reduced to
    CJK ideographs (U+4E00..U+9FA5), ASCII letters, digits and single underscores, an empty
    result falls back to `field_<index + 1>`, and the name is cut to 50 characters. */
module PlaceholderNames {
  import opened Common

  const MaxNameLength: nat := 50

  /** The characters of the class `[一-龥a-zA-Z0-9_]`. */
  predicate IsNameChar(c: char)
  {
    ('一' <= c <= '龥') || IsAsciiLetter(c) || IsDigit(c) || c == '_'
  }

  predicate AllNameChars(s: string)
  {
    forall i :: 0 <= i < |s| ==> IsNameChar(s[i])
  }

  predicate NoDoubleUnderscore(s: string)
  {
    forall i :: 0 <= i < |s| - 1 ==> !(s[i] == '_' && s[i + 1] == '_')
  }

  /** Neither end of the name is an underscore. */
  predicate NoEdgeUnderscore(s: string)
  {
    s == [] || (s[0] != '_' && s[|s| - 1] != '_')
  }

  /** `replace(/[^一-龥a-zA-Z0-9_]/g, '_')`. */
  function MapChars(s: string): string
  {
    seq(|s|, i requires 0 <= i < |s| => if IsNameChar(s[i]) then s[i] else '_')
  }

  /** `replace(/_+/g, '_')`: an underscore followed by another underscore is dropped. */
  function CollapseUnderscores(s: string): (r: string)
    ensures NoDoubleUnderscore(r)
    ensures forall c :: c in r <==> c in s
    ensures r == [] <==> s == []
    ensures s != [] ==> r[0] == s[0] && r[|r| - 1] == s[|s| - 1]
    ensures NoDoubleUnderscore(s) ==> r == s
  {
    if s == [] then []
    else if |s| >= 2 && s[0] == '_' && s[1] == '_' then CollapseUnderscores(s[1..])
    else [s[0]] + CollapseUnderscores(s[1..])
  }

  /** `replace(/^_|_$/g, '')`: one leading and one trailing underscore are removed. */
  function StripEdges(s: string): (r: string)
    ensures forall c :: c in r ==> c in s
    ensures forall c :: c != '_' ==> (c in r <==> c in s)
    ensures NoDoubleUnderscore(s) ==> NoDoubleUnderscore(r) && NoEdgeUnderscore(r)
    ensures NoEdgeUnderscore(s) ==> r == s
  {
    var t := if s != [] && s[0] == '_' then s[1..] else s;
    assert s != [] && s[0] == '_' ==> s == [s[0]] + t;
    if t != [] && t[|t| - 1] == '_' then
      assert t == t[..|t| - 1] + [t[|t| - 1]];
      t[..|t| - 1]
    else t
  }

  /** The name before the fallback and the length cut. */
  function Cleaned(text: string): string
  {
    StripEdges(CollapseUnderscores(MapChars(text)))
  }

  /** `field_<index + 1>`, the name of a text with nothing usable in it. */
  function FallbackName(index: nat): string
  {
    "field_" + NatToString(index + 1)
  }

  function Truncate(name: string): string
  {
    if |name| > MaxNameLength then name[..MaxNameLength] else name
  }

  function GeneratePlaceholderName(text: string, index: nat): string
  {
    var name := Cleaned(text);
    Truncate(if name == [] then FallbackName(index) else name)
  }

  /** A name as the generator can return it. */
  predicate WellFormedName(name: string)
  {
    1 <= |name| <= MaxNameLength && AllNameChars(name) && NoDoubleUnderscore(name)
  }

  /** The text has a CJK ideograph, a letter or a digit. */
  predicate HasWordChar(text: string)
  {
    exists i :: 0 <= i < |text| && IsNameChar(text[i]) && text[i] != '_'
  }

  /** The cleaned name keeps only name characters, has no doubled and no edge underscore,
      and is empty exactly when the text has no ideograph, letter or digit. */
  lemma CleanedShape(text: string)
    ensures AllNameChars(Cleaned(text))
    ensures NoDoubleUnderscore(Cleaned(text)) && NoEdgeUnderscore(Cleaned(text))
    ensures Cleaned(text) == [] <==> !HasWordChar(text)
  {
    var m := MapChars(text);
    var c := CollapseUnderscores(m);
    forall i | 0 <= i < |Cleaned(text)|
      ensures IsNameChar(Cleaned(text)[i])
    {
      var x := Cleaned(text)[i];
      assert x in c;
      var j :| 0 <= j < |m| && m[j] == x;
    }
    if HasWordChar(text) {
      var i :| 0 <= i < |text| && IsNameChar(text[i]) && text[i] != '_';
      assert m[i] in c;
      assert m[i] in Cleaned(text);
    } else {
      forall k | 0 <= k < |Cleaned(text)|
        ensures Cleaned(text)[k] == '_'
      {
        assert Cleaned(text)[k] in c;
      }
    }
  }

  lemma FallbackShape(index: nat)
    ensures AllNameChars(FallbackName(index)) && NoDoubleUnderscore(FallbackName(index))
  {
    var d := NatToString(index + 1);
    assert FallbackName(index) == "field_" + d;
    assert forall i :: 6 <= i < |FallbackName(index)| ==> FallbackName(index)[i] == d[i - 6];
  }

  /** The generated name is never empty, at most 50 characters long, built from name
      characters only, and never has two underscores in a row. */
  lemma GeneratedNameIsWellFormed(text: string, index: nat)
    ensures WellFormedName(GeneratePlaceholderName(text, index))
  {
    CleanedShape(text);
    FallbackShape(index);
  }

  /** Which branch the name comes from: the cleaned text when it has an ideograph, letter or
      digit (then the index plays no part), otherwise the `field_` fallback; either is cut,
      not altered, to 50 characters. */
  lemma GeneratedNameSource(text: string, index: nat)
    ensures HasWordChar(text) ==>
      |GeneratePlaceholderName(text, index)| <= |Cleaned(text)| &&
      GeneratePlaceholderName(text, index) == Cleaned(text)[..|GeneratePlaceholderName(text, index)|]
    ensures HasWordChar(text) ==>
      forall other: nat :: GeneratePlaceholderName(text, other) == GeneratePlaceholderName(text, index)
    ensures !HasWordChar(text) ==>
      |GeneratePlaceholderName(text, index)| <= |FallbackName(index)| &&
      GeneratePlaceholderName(text, index) == FallbackName(index)[..|GeneratePlaceholderName(text, index)|]
    ensures |GeneratePlaceholderName(text, index)| < MaxNameLength ==>
      GeneratePlaceholderName(text, index) == (if HasWordChar(text) then Cleaned(text) else FallbackName(index))
  {
    CleanedShape(text);
  }

  /** A name that is already clean and short enough comes back unchanged, so a generated
      name that does not end in an underscore is a fixed point of the generator. */
  lemma {:induction false} CleanNameIsFixedPoint(name: string, index: nat)
    requires name != [] && |name| <= MaxNameLength
    requires AllNameChars(name) && NoDoubleUnderscore(name) && NoEdgeUnderscore(name)
    ensures GeneratePlaceholderName(name, index) == name
  {
    assert MapChars(name) == name;
  }

  lemma GenerateIsIdempotent(text: string, index: nat, again: nat)
    requires NoEdgeUnderscore(GeneratePlaceholderName(text, index))
    ensures GeneratePlaceholderName(GeneratePlaceholderName(text, index), again)
      == GeneratePlaceholderName(text, index)
  {
    GeneratedNameIsWellFormed(text, index);
    CleanNameIsFixedPoint(GeneratePlaceholderName(text, index), again);
  }

  /** Punctuation and spaces become one underscore each. */
  lemma PunctuationBecomesOneUnderscore()
    ensures GeneratePlaceholderName("A-1  B", 0) == "A_1_B"
  {
    assert MapChars("A-1  B") == "A_1__B";
    assert CollapseUnderscores("A_1__B") == "A_1_B";
  }

  /** The underscores a surrounding space and bracket leave are stripped. */
  lemma EdgeUnderscoresStripped()
    ensures GeneratePlaceholderName(" (x) ", 3) == "x"
  {
    assert MapChars(" (x) ") == "__x__";
    assert CollapseUnderscores("__x__") == "_x_";
  }

  /** A text of symbols only falls back to its one-based index. */
  lemma SymbolsFallBackToIndex()
    ensures GeneratePlaceholderName("--", 4) == "field_5"
  {
    assert MapChars("--") == "__";
    assert CollapseUnderscores("__") == "_";
  }
}
