/** The SpreadsheetML drawing part of an .xlsx package (ECMA-376 Part 1, section 20.5) as the
    Python scripts see it through ElementTree: the root's anchor children in document order,
    each with its `from`/`to` markers (zero-based `col`/`row`) and the first `pic`, `sp` and
    `grpSp` descendants with their first `cNvPr`. The package itself is a sequence of
    members in archive order. */
module Drawing {
  import opened Common

  /** The text of a `col` or `row` element: missing, an integer, or text `int()` rejects
      (which raises inside the scripts). */
  datatype Coord = Absent | Value(n: int) | Garbage

  /** An `xdr:from` or `xdr:to` marker. */
  datatype Marker = Marker(col: Coord, row: Coord)

  /** An `xdr:cNvPr` element; its `name` attribute may be missing. */
  datatype NvProps = NvProps(name: Option<string>)

  /** A `pic`, `sp` or `grpSp` element, with the first `cNvPr` below it. */
  datatype Shape = Shape(cNvPr: Option<NvProps>)

  datatype AnchorKind = TwoCell | OneCell | Absolute

  datatype Anchor = Anchor(
    kind: AnchorKind,
    from: Option<Marker>,
    to: Option<Marker>,
    pic: Option<Shape>,
    sp: Option<Shape>,
    grpSp: Option<Shape>)

  /** The contents of a package member: a drawing document that parses, or bytes that do not. */
  datatype Content = Xml(anchors: seq<Anchor>) | Opaque(bytes: seq<int>)

  datatype Entry = Entry(name: string, content: Content)

  type Archive = seq<Entry>

  predicate IsCellAnchor(a: Anchor)
  {
    a.kind == TwoCell || a.kind == OneCell
  }

  /** The drawing-member rule every script uses: the path contains `xl/drawings/drawing`
      and ends in `.xml`. */
  predicate IsDrawingMember(name: string)
  {
    Contains(name, "xl/drawings/drawing") && EndsWith(name, ".xml")
  }

  function Names(a: Archive): (r: seq<string>)
    ensures |r| == |a| && forall i :: 0 <= i < |a| ==> r[i] == a[i].name
  {
    if a == [] then [] else [a[0].name] + Names(a[1..])
  }

  predicate UniqueNames(a: Archive)
  {
    forall i, j :: 0 <= i < j < |a| ==> a[i].name != a[j].name
  }

  /** The drawing members, in archive order. */
  function DrawingMembers(a: Archive): (r: seq<string>)
    ensures forall n :: n in r <==> n in Names(a) && IsDrawingMember(n)
  {
    if a == [] then []
    else (if IsDrawingMember(a[0].name) then [a[0].name] else []) + DrawingMembers(a[1..])
  }

  /** The first member with a given name. */
  function Lookup(a: Archive, name: string): (r: Option<Content>)
    ensures r.Some? <==> name in Names(a)
    ensures r.Some? ==> Entry(name, r.value) in a
  {
    if a == [] then None
    else if a[0].name == name then Some(a[0].content)
    else Lookup(a[1..], name)
  }

  /** Replaces the contents of every member called `name`. */
  function Store(a: Archive, name: string, c: Content): (r: Archive)
    ensures Names(r) == Names(a)
    ensures forall i :: 0 <= i < |a| ==> r[i] == if a[i].name == name then Entry(name, c) else a[i]
  {
    if a == [] then [] else [if a[0].name == name then Entry(name, c) else a[0]] + Store(a[1..], name, c)
  }

  // ---------------------------------------------------------------- reading an anchor

  /** `int(elem.text)` on a present element: `None` when it raises. */
  predicate HasGarbage(m: Marker)
  {
    m.col.Garbage? || m.row.Garbage?
  }

  /** The zero-based origin of an anchor when its `from` has both `col` and `row`. */
  predicate HasOrigin(a: Anchor)
  {
    a.from.Some? && !a.from.value.col.Absent? && !a.from.value.row.Absent?
  }

  /** Reading the origin raises: both elements are present and one of them is not an integer. */
  predicate OriginRaises(a: Anchor)
  {
    HasOrigin(a) && HasGarbage(a.from.value)
  }

  /** The zero-based origin, when it is present and readable. */
  predicate HasReadableOrigin(a: Anchor)
  {
    HasOrigin(a) && a.from.value.col.Value? && a.from.value.row.Value?
  }

  function OriginCol(a: Anchor): int
    requires HasReadableOrigin(a)
  {
    a.from.value.col.n
  }

  function OriginRow(a: Anchor): int
    requires HasReadableOrigin(a)
  {
    a.from.value.row.n
  }

  /** The `name` of a shape's `cNvPr`, or None (ElementTree's `get('name')`). */
  function ShapeName(s: Option<Shape>): Option<string>
  {
    if s.Some? && s.value.cNvPr.Some? then s.value.cNvPr.value.name else None
  }

  /** Display-name resolution: the `pic` name, else the `sp` name, else the `grpSp` name;
      the first one that exists wins. */
  function ResolveName(a: Anchor): (r: Option<string>)
    ensures ShapeName(a.pic).Some? ==> r == ShapeName(a.pic)
    ensures ShapeName(a.pic).None? && ShapeName(a.sp).Some? ==> r == ShapeName(a.sp)
    ensures ShapeName(a.pic).None? && ShapeName(a.sp).None? ==> r == ShapeName(a.grpSp)
  {
    if ShapeName(a.pic).Some? then ShapeName(a.pic)
    else if ShapeName(a.sp).Some? then ShapeName(a.sp)
    else ShapeName(a.grpSp)
  }

  /** `findall('.//xdr:twoCellAnchor')` followed by `findall('.//xdr:oneCellAnchor')`: the
      order in which every script visits the anchors. */
  function OfKind(s: seq<Anchor>, k: AnchorKind): (r: seq<Anchor>)
    ensures |r| <= |s|
    ensures forall i :: 0 <= i < |r| ==> r[i].kind == k && r[i] in s
  {
    if s == [] then [] else (if s[0].kind == k then [s[0]] else []) + OfKind(s[1..], k)
  }

  function VisitOrder(s: seq<Anchor>): seq<Anchor>
  {
    OfKind(s, TwoCell) + OfKind(s, OneCell)
  }

  lemma OfKindAppend(s: seq<Anchor>, t: seq<Anchor>, k: AnchorKind)
    ensures OfKind(s + t, k) == OfKind(s, k) + OfKind(t, k)
  {
    if s == [] {
      assert s + t == t;
    } else {
      assert (s + t)[1..] == s[1..] + t;
      OfKindAppend(s[1..], t, k);
    }
  }
}
