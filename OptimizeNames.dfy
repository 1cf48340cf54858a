/** The placeholder-name optimiser (`optimize-placeholder-names.js`): each value of a data map
    gets a name inferred from its shape (a drawing number, a mould number, a Chinese name, a
    year or a day), else from keywords, else from the generator, and colliding names get the
    suffixes `_1`, `_2`, … so that every value lands under a key of its own. */
module OptimizeNames {
  import opened Common
  import opened Grouping
  import opened PlaceholderNames

  // ---------------------------------------------------------------- patterns

  predicate IsCjk(c: char) { '一' <= c <= '龥' }

  predicate AllCjk(s: string)
  {
    forall i :: 0 <= i < |s| ==> IsCjk(s[i])
  }

  /** The length of the leading run of ASCII digits. */
  function DigitPrefix(s: string): (n: nat)
    ensures n <= |s|
    ensures forall j :: 0 <= j < n ==> IsDigit(s[j])
    ensures n < |s| ==> !IsDigit(s[n])
  {
    if s != [] && IsDigit(s[0]) then 1 + DigitPrefix(s[1..]) else 0
  }

  /** `\d+` runs separated by the characters of `seps`, in order, filling all of `s`. The
      separators are not digits, so each run is the whole leading run of digits. */
  predicate DigitRuns(s: string, seps: string)
    decreases |seps|
  {
    var n := DigitPrefix(s);
    if seps == [] then n >= 1 && n == |s|
    else n >= 1 && n < |s| && s[n] == seps[0] && DigitRuns(s[n + 1..], seps[1..])
  }

  /** The six patterns of `inferPlaceholderName`, in list order. */
  datatype Pattern = ProductDrawing | MouldNo | ProductName | Year | Day | CustomerName

  const Patterns: seq<Pattern> := [ProductDrawing, MouldNo, ProductName, Year, Day, CustomerName]

  /** Whether the whole text matches the pattern; `[A-Z]` under the `i` flag is an ASCII
      letter and `\d` an ASCII digit. */
  predicate Matches(p: Pattern, text: string)
  {
    match p
    case ProductDrawing =>  // /^[A-Z]\d+\.\d+\.\d+\.\d+\/\d+\.\d+$/i
      text != [] && IsAsciiLetter(text[0]) && DigitRuns(text[1..], ['.', '.', '.', '/', '.'])
    case MouldNo =>         // /^[A-Z]{2}\d+$/i
      |text| >= 2 && IsAsciiLetter(text[0]) && IsAsciiLetter(text[1]) && DigitRuns(text[2..], [])
    case ProductName =>     // /^[一-龥]{2,10}$/
      2 <= |text| <= 10 && AllCjk(text)
    case Year =>            // /^\d{4}$/
      |text| == 4 && AllDigits(text)
    case Day =>             // /^\d{1,2}$/
      1 <= |text| <= 2 && AllDigits(text)
    case CustomerName =>    // /^[一-龥]{2,4}$/
      2 <= |text| <= 4 && AllCjk(text)
  }

  function PatternName(p: Pattern): string
  {
    match p
    case ProductDrawing => "product_drawing"
    case MouldNo => "mould_no"
    case ProductName => "product_name"
    case Year => "year"
    case Day => "day"
    case CustomerName => "customer_name"
  }

  /** Which of the patterns the text matches, pattern by pattern. */
  function Hits(ps: seq<Pattern>, text: string): (h: seq<bool>)
    ensures |h| == |ps|
    ensures forall j :: 0 <= j < |ps| ==> h[j] == Matches(ps[j], text)
  {
    if ps == [] then [] else [Matches(ps[0], text)] + Hits(ps[1..], text)
  }

  /** The position of the first `true`. */
  function FirstTrue(h: seq<bool>): (r: Option<nat>)
    ensures r.Some? ==> r.value < |h| && h[r.value]
    ensures r.Some? ==> forall j :: 0 <= j < r.value ==> !h[j]
    ensures r.None? <==> forall j :: 0 <= j < |h| ==> !h[j]
  {
    if h == [] then None
    else if h[0] then Some(0)
    else
      var r := FirstTrue(h[1..]);
      assert forall j :: 1 <= j < |h| ==> h[1..][j - 1] == h[j];
      if r.Some? then Some(r.value + 1) else None
  }

  /** The position of the first pattern of `ps` the text matches. */
  function FirstMatch(ps: seq<Pattern>, text: string): (r: Option<nat>)
    ensures r.Some? ==> r.value < |ps| && Matches(ps[r.value], text)
    ensures r.Some? ==> forall j :: 0 <= j < r.value ==> !Matches(ps[j], text)
    ensures r.None? <==> forall j :: 0 <= j < |ps| ==> !Matches(ps[j], text)
  {
    FirstTrue(Hits(ps, text))
  }

  function InferPlaceholderName(text: string, index: nat): string
  {
    var m := FirstMatch(Patterns, text);
    if m.Some? then PatternName(Patterns[m.value])
    else if '盖' in text || '件' in text || '品' in text then "product_name"
    else if '模' in text then "mould_no"
    else GeneratePlaceholderName(text, index)
  }

  /** The inferred name is the name of the first pattern the text matches; with none, the
      keywords 盖, 件 and 品 give product_name and then 模 gives mould_no; only a text with
      neither a pattern nor a keyword is handed to the generator. */
  lemma InferredNameOrigin(text: string, index: nat)
    ensures forall j :: (0 <= j < |Patterns| && Matches(Patterns[j], text)
      && (forall l :: 0 <= l < j ==> !Matches(Patterns[l], text))
      ==> InferPlaceholderName(text, index) == PatternName(Patterns[j]))
    ensures (forall j :: 0 <= j < |Patterns| ==> !Matches(Patterns[j], text)) ==>
      InferPlaceholderName(text, index) ==
        (if '盖' in text || '件' in text || '品' in text then "product_name"
         else if '模' in text then "mould_no"
         else GeneratePlaceholderName(text, index))
  {
    var m := FirstMatch(Patterns, text);
    if m.Some? {
      forall j | 0 <= j < |Patterns| && Matches(Patterns[j], text)
        && (forall l :: 0 <= l < j ==> !Matches(Patterns[l], text))
        ensures j == m.value
      {
      }
    }
  }

  /** Every text of two to four ideographs already matches the Chinese product-name pattern,
      which comes earlier, so the customer-name pattern never decides a name. */
  lemma CustomerNamePatternIsShadowed(text: string)
    ensures Matches(CustomerName, text) ==> Matches(ProductName, text)
    ensures FirstMatch(Patterns, text) != Some(5)
  {
    assert Patterns[2] == ProductName && Patterns[5] == CustomerName;
  }

  lemma PatternNamesAreWellFormed(p: Pattern)
    ensures WellFormedName(PatternName(p)) && NoEdgeUnderscore(PatternName(p))
  {
  }

  /** Whatever branch decides, the inferred name is a well-formed placeholder name. */
  lemma InferredNameIsWellFormed(text: string, index: nat)
    ensures WellFormedName(InferPlaceholderName(text, index))
  {
    var m := FirstMatch(Patterns, text);
    if m.Some? {
      PatternNamesAreWellFormed(Patterns[m.value]);
    } else {
      PatternNamesAreWellFormed(ProductName);
      PatternNamesAreWellFormed(MouldNo);
      GeneratedNameIsWellFormed(text, index);
    }
  }

  /** A mould number: two letters and digits. */
  lemma MouldNumberShape()
    ensures InferPlaceholderName("ML01", 0) == "mould_no"
  {
    assert !Matches(Patterns[0], "ML01");
    assert "ML01"[2..] == "01";
    assert DigitPrefix("01") == 2;
    assert Matches(Patterns[1], "ML01");
    InferredNameOrigin("ML01", 0);
  }

  /** A four-digit year. */
  lemma YearShape()
    ensures InferPlaceholderName("2024", 0) == "year"
  {
    assert !Matches(Patterns[0], "2024");
    assert !Matches(Patterns[1], "2024");
    assert !Matches(Patterns[2], "2024");
    assert Matches(Patterns[3], "2024");
    InferredNameOrigin("2024", 0);
  }

  /** 张三 reads as a product name although the customer-name pattern matches it too. */
  lemma ShortChineseNameIsProductName()
    ensures Matches(CustomerName, "张三")
    ensures InferPlaceholderName("张三", 0) == "product_name"
  {
    assert !Matches(Patterns[0], "张三");
    assert !Matches(Patterns[1], "张三");
    assert Matches(Patterns[2], "张三");
    InferredNameOrigin("张三", 0);
  }

  // ---------------------------------------------------------------- unique keys

  /** The names an empty object literal already answers with something other than
      `undefined`: the properties it inherits from `Object.prototype`. */
  const Inherited: set<string> := {
    "constructor", "hasOwnProperty", "isPrototypeOf", "propertyIsEnumerable",
    "toLocaleString", "toString", "valueOf", "__defineGetter__", "__defineSetter__",
    "__lookupGetter__", "__lookupSetter__", "__proto__"
  }

  /** `optimizedMap[key] !== undefined`. */
  predicate Taken(m: map<string, string>, key: string)
  {
    key in m || key in Inherited
  }

  /** `${newKey}_${suffix}`. */
  function Suffixed(base: string, suffix: nat): string
  {
    base + "_" + NatToString(suffix)
  }

  lemma SuffixedIsInjective(base: string, a: nat, b: nat)
    requires Suffixed(base, a) == Suffixed(base, b)
    ensures a == b
  {
    var k := |base| + 1;
    assert NatToString(a) == Suffixed(base, a)[k..];
    assert NatToString(b) == Suffixed(base, b)[k..];
    DigitsValueOfNatToString(a);
    DigitsValueOfNatToString(b);
  }

  /** The suffixed keys tried before `next`. */
  function Tried(base: string, next: nat): set<string>
  {
    set s: nat | 1 <= s < next :: Suffixed(base, s)
  }

  lemma {:induction false} TriedCount(base: string, next: nat)
    requires next >= 1
    ensures |Tried(base, next)| == next - 1
  {
    if next > 1 {
      TriedCount(base, next - 1);
      assert Tried(base, next) == Tried(base, next - 1) + {Suffixed(base, next - 1)};
      if Suffixed(base, next - 1) in Tried(base, next - 1) {
        var s: nat :| 1 <= s < next - 1 && Suffixed(base, s) == Suffixed(base, next - 1);
        SuffixedIsInjective(base, s, next - 1);
      }
    }
  }

  /** When every suffix below `next` is taken, there are at least that many taken names, so
      the search for a free suffix cannot go on for ever. */
  lemma TriedBound(m: map<string, string>, base: string, next: nat)
    requires next >= 1
    requires forall t: nat :: 1 <= t < next ==> Taken(m, Suffixed(base, t))
    ensures next - 1 <= |m.Keys + Inherited|
  {
    var taken := m.Keys + Inherited;
    assert Tried(base, next) <= taken;
    TriedCount(base, next);
    assert taken == Tried(base, next) + (taken - Tried(base, next));
  }

  /** The key the while loop settles on: the name itself when it is free, otherwise the
      suffixed name with the smallest suffix that is free. */
  ghost predicate FirstFreeKey(m: map<string, string>, base: string, key: string)
  {
    (!Taken(m, base) && key == base)
    || (Taken(m, base) && exists s: nat :: (1 <= s && key == Suffixed(base, s) && !Taken(m, key)
          && forall t: nat :: 1 <= t < s ==> Taken(m, Suffixed(base, t))))
  }

  /** The key is the name itself or the name with a numeric suffix. */
  ghost predicate DerivedFrom(base: string, key: string)
  {
    key == base || exists s: nat :: 1 <= s && key == Suffixed(base, s)
  }

  /** The suffixing while loop; it ends because only finitely many names are taken. */
  method FreeKey(m: map<string, string>, base: string) returns (key: string)
    ensures FirstFreeKey(m, base, key)
    ensures !Taken(m, key) && DerivedFrom(base, key)
  {
    key := base;
    var suffix: nat := 1;
    while Taken(m, key)
      invariant suffix >= 1
      invariant key == (if suffix == 1 then base else Suffixed(base, suffix - 1))
      invariant suffix > 1 ==> Taken(m, base)
      invariant forall t: nat :: 1 <= t < suffix - 1 ==> Taken(m, Suffixed(base, t))
      decreases |m.Keys + Inherited| + 2 - suffix
    {
      TriedBound(m, base, suffix);
      key := Suffixed(base, suffix);
      suffix := suffix + 1;
    }
  }

  /** The forEach loop of `main`: each value is filed under the first free key derived from
      the name inferred for it and its position. */
  method OptimizeKeys(entries: seq<(string, string)>) returns (keys: seq<string>, optimized: map<string, string>)
    ensures |keys| == |entries|
    ensures NoDups(keys)
    ensures forall k :: k in optimized <==> k in keys
    ensures forall i :: 0 <= i < |entries| ==>
      keys[i] !in Inherited && keys[i] in optimized && optimized[keys[i]] == entries[i].1
    ensures forall i :: 0 <= i < |entries| ==> DerivedFrom(InferPlaceholderName(entries[i].1, i), keys[i])
  {
    keys := [];
    optimized := map[];
    var index := 0;
    while index < |entries|
      invariant index <= |entries| && Filed(entries, index, keys, optimized)
    {
      var value := entries[index].1;
      var newKey := InferPlaceholderName(value, index);
      var finalKey := FreeKey(optimized, newKey);
      FileNext(entries, index, keys, optimized, finalKey);
      optimized := optimized[finalKey := value];
      keys := keys + [finalKey];
      index := index + 1;
    }
  }

  /** The first `n` values filed: one key each, distinct, not inherited, naming the value, and
      derived from the value's inferred name; the dictionary holds exactly those keys. */
  ghost predicate Filed(entries: seq<(string, string)>, n: nat, keys: seq<string>, optimized: map<string, string>)
    requires n <= |entries|
  {
    |keys| == n && NoDups(keys)
    && (forall k :: k in optimized <==> k in keys)
    && (forall i :: 0 <= i < n ==> keys[i] !in Inherited && optimized[keys[i]] == entries[i].1)
    && (forall i :: 0 <= i < n ==> DerivedFrom(InferPlaceholderName(entries[i].1, i), keys[i]))
  }

  /** Filing the next value under a free key derived from its inferred name. */
  lemma FileNext(entries: seq<(string, string)>, n: nat, keys: seq<string>, optimized: map<string, string>, key: string)
    requires n < |entries| && Filed(entries, n, keys, optimized)
    requires !Taken(optimized, key) && DerivedFrom(InferPlaceholderName(entries[n].1, n), key)
    ensures Filed(entries, n + 1, keys + [key], optimized[key := entries[n].1])
  {
    var keys', optimized' := keys + [key], optimized[key := entries[n].1];
    forall i, j | 0 <= i < j < |keys'| ensures keys'[i] != keys'[j] {
      if j == n {
        assert keys'[i] == keys[i] && keys[i] in optimized;
      }
    }
    forall i | 0 <= i < n + 1
      ensures keys'[i] !in Inherited && optimized'[keys'[i]] == entries[i].1
      ensures DerivedFrom(InferPlaceholderName(entries[i].1, i), keys'[i])
    {
      if i < n {
        assert keys'[i] == keys[i] && keys[i] in optimized && keys[i] != key;
      }
    }
  }

  /** Two equal years: the second gets the first suffix. */
  lemma CollidingYears()
    ensures FirstFreeKey(map["year" := "2024"], "year", "year_1")
  {
    assert Suffixed("year", 1) == "year_1";
  }
}
