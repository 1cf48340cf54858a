/** The sort-field whitelists of the list routes: a plain object from field names to
    columns, read with `table[field]`. Reading a plain object also finds the members every
    object inherits from `Object.prototype`, so the model keeps both readings: the lookup
    as written and the own-key lookup the whitelists are meant to be. */
module SortClause {
  import opened Common

  /** The names every plain JavaScript object inherits from `Object.prototype`. */
  const ObjectMembers: set<string> := {
    "constructor", "hasOwnProperty", "isPrototypeOf", "propertyIsEnumerable", "toString",
    "toLocaleString", "valueOf", "__proto__", "__defineGetter__", "__defineSetter__",
    "__lookupGetter__", "__lookupSetter__"}

  /** The text an inherited member turns into inside a template string. */
  function MemberText(name: string): (t: string)
    ensures t != ""
  {
    if name == "__proto__" then "[object Object]"
    else if name == "constructor" then "function Object() { [native code] }"
    else "function " + name + "() { [native code] }"
  }

  /** `table[key]` as text, `None` when the read gives `undefined`. As written
      (`inherited` true) inherited members are found too. */
  function PropertyText(table: map<string, string>, key: string, inherited: bool): (r: Option<string>)
    ensures !inherited ==> (r.Some? <==> key in table)
    ensures r.Some? && key in table ==> r.value == table[key]
    ensures r.Some? && key !in table ==> inherited && key in ObjectMembers
  {
    if key in table then Some(table[key])
    else if inherited && key in ObjectMembers then Some(MemberText(key))
    else None
  }

  /** `(sortOrder || '').toString().toLowerCase()`; only ASCII letters lower to the letters
      of `asc` and `desc`, so ASCII lower-casing decides the same comparisons. */
  function Direction(sortOrder: Option<string>): string
  {
    ToLower(if sortOrder.Some? then sortOrder.value else "")
  }

  /** The lookup as written and the own-key lookup differ only on the inherited names. */
  lemma ReadingsAgree(table: map<string, string>, key: string)
    ensures key !in ObjectMembers ==> PropertyText(table, key, true) == PropertyText(table, key, false)
    ensures key in table ==> PropertyText(table, key, true) == PropertyText(table, key, false)
  {
  }

  /** The text of `constructor` read from a whitelist without that key starts with `f`,
      which no column of the whitelists does. */
  lemma ConstructorText(table: map<string, string>)
    requires "constructor" !in table
    ensures var r := PropertyText(table, "constructor", true);
      r.Some? && r.value == "function Object() { [native code] }" && r.value[0] == 'f'
  {
    assert "constructor" in ObjectMembers;
  }

  /** Lower-casing the usual spellings of `asc`. */
  lemma AscSpellings()
    ensures Direction(Some("asc")) == "asc" && Direction(Some("ASC")) == "asc" && Direction(Some("Asc")) == "asc"
  {
    assert ToLower("asc") == "asc";
    assert ToLower("ASC") == "asc";
    assert ToLower("Asc") == "asc";
  }

  /** Lower-casing the usual spellings of `desc`; a missing order is the empty text. */
  lemma DescSpellings()
    ensures Direction(Some("desc")) == "desc" && Direction(Some("DESC")) == "desc" && Direction(Some("Desc")) == "desc"
    ensures Direction(None) == ""
  {
    assert ToLower("desc") == "desc";
    assert ToLower("DESC") == "desc";
    assert ToLower("Desc") == "desc";
    assert ToLower("") == "";
  }

  /** Upper-casing the two directions. */
  lemma UpperDirections()
    ensures ToUpper("asc") == "ASC" && ToUpper("desc") == "DESC"
  {
    assert ToUpper("asc") == "ASC";
    assert ToUpper("desc") == "DESC";
  }
}
