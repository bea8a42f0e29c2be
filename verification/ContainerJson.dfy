// Reading and writing containers as JSON values: src/core/layoutnode_json.cpp and
// src/core/windowcontainer_json.cpp.

module ContainerJson {
  import opened Basics
  import opened Layout
  import opened Names
  import opened Containers
  import opened ContainerProofs
  import opened WindowContainerObject

  datatype Json =
    | JNull
    | JBool(truth: bool)
    | JNumber(number: real)
    | JString(text: string)
    | JArray(items: seq<Json>)
    | JObject(fields: map<string, Json>)

  // A missing key reads as undefined.
  function Field(o: Json, key: string): Option<Json>
    requires o.JObject?
  {
    if key in o.fields then Some(o.fields[key]) else None
  }

  function TextField(o: Json, key: string, allowEmpty: bool): Option<string>
    requires o.JObject?
  {
    match Field(o, key)
    case Some(JString(text)) => if !allowEmpty && text == "" then None else Some(text)
    case _ => None
  }

  // --------------------------------------------------------------------- nodes

  function OrientationText(orientation: Orientation): string {
    if orientation.Horizontal? then "horizontal" else "vertical"
  }

  function NodeToJson(t: LayoutNode): Json {
    match t
    case Leaf(id, w) =>
      JObject(map["id" := JString(id), "type" := JString("leaf"), "windowId" := JString(w)])
    case Split(id, orientation, ratio, first, second) =>
      JObject(map["id" := JString(id), "type" := JString("split"),
                  "orientation" := JString(OrientationText(orientation)),
                  "ratio" := JNumber(ratio),
                  "first" := NodeToJson(first), "second" := NodeToJson(second)])
  }

  function OrientationFromText(text: string): Option<Orientation> {
    if text == "horizontal" then Some(Horizontal)
    else if text == "vertical" then Some(Vertical)
    else None
  }

  function Checked(t: LayoutNode): Option<LayoutNode> {
    if Validate(t, {}, {}).valid then Some(t) else None
  }

  // What one object says before its children are read.
  datatype Shape =
    | LeafShape(id: string, windowId: string)
    | SplitShape(id: string, orientation: Orientation, ratio: real, first: Json, second: Json)

  function ReadShape(o: Json): (shape: Option<Shape>)
    requires o.JObject?
    ensures shape.Some? && shape.value.SplitShape? ==>
              && shape.value.first.JObject? && shape.value.second.JObject?
              && shape.value.first < o && shape.value.second < o
  {
    var id :- TextField(o, "id", false);
    var kind :- TextField(o, "type", false);
    if kind == "leaf" then
      var w :- TextField(o, "windowId", false);
      Some(LeafShape(id, w))
    else if kind == "split" then
      var text :- TextField(o, "orientation", false);
      var orientation :- OrientationFromText(text);
      match (Field(o, "ratio"), Field(o, "first"), Field(o, "second"))
      case (Some(JNumber(ratio)), Some(JObject(_)), Some(JObject(_))) =>
        Some(SplitShape(id, orientation, ratio, o.fields["first"], o.fields["second"]))
      case _ => None
    else None
  }

  // Every level validates the tree it has assembled before handing it up.
  function NodeFromJson(o: Json): Option<LayoutNode>
    requires o.JObject?
    decreases o
  {
    match ReadShape(o)
    case None => None
    case Some(LeafShape(id, w)) => Checked(Leaf(id, w))
    case Some(SplitShape(id, orientation, ratio, a, b)) =>
      var first :- NodeFromJson(a);
      var second :- NodeFromJson(b);
      Checked(Split(id, orientation, ratio, first, second))
  }

  // The same reader without any validation.
  function ParseNode(o: Json): Option<LayoutNode>
    requires o.JObject?
    decreases o
  {
    match ReadShape(o)
    case None => None
    case Some(LeafShape(id, w)) => Some(Leaf(id, w))
    case Some(SplitShape(id, orientation, ratio, a, b)) =>
      var first :- ParseNode(a);
      var second :- ParseNode(b);
      Some(Split(id, orientation, ratio, first, second))
  }

  lemma CheckedIffWellFormed(t: LayoutNode)
    ensures Checked(t) == if WellFormed(t) then Some(t) else None
  {
    ValidateDecides(t, {}, {});
  }

  // Validating at every level rejects exactly what validating the finished tree would: the
  // validation of a subtree never rejects part of a valid tree.
  lemma {:induction false} PerLevelValidation(o: Json)
    requires o.JObject?
    ensures NodeFromJson(o) ==
      match ParseNode(o)
      case Some(t) => if WellFormed(t) then Some(t) else None
      case None => None
  {
    hide ReadShape, WellFormed, Checked;
    match ReadShape(o) {
      case None =>
      case Some(LeafShape(id, w)) =>
        CheckedIffWellFormed(Leaf(id, w));
      case Some(SplitShape(id, orientation, ratio, a, b)) =>
        PerLevelValidation(a);
        PerLevelValidation(b);
        if ParseNode(a).Some? && ParseNode(b).Some? {
          var t := Split(id, orientation, ratio, ParseNode(a).value, ParseNode(b).value);
          CheckedIffWellFormed(t);
          PartsWellFormed(t);
        }
    }
  }

  lemma PartsWellFormed(t: LayoutNode)
    requires t.Split?
    ensures WellFormed(t) ==> WellFormed(t.first) && WellFormed(t.second)
  {
  }

  // The shape each node writes is the shape read back.
  lemma ShapeRoundTrip(t: LayoutNode)
    requires t.id != "" && (t.Leaf? ==> t.windowId != "")
    requires t.Split? ==> NodeToJson(t.first).JObject? && NodeToJson(t.second).JObject?
    ensures NodeToJson(t).JObject?
    ensures ReadShape(NodeToJson(t)) == Some(
      match t
      case Leaf(id, w) => LeafShape(id, w)
      case Split(id, orientation, ratio, first, second) =>
        SplitShape(id, orientation, ratio, NodeToJson(first), NodeToJson(second)))
  {
    if t.Split? {
      assert OrientationFromText(OrientationText(t.orientation)) == Some(t.orientation);
    }
  }

  lemma {:induction false} NodeRoundTrip(t: LayoutNode)
    requires WellFormed(t)
    ensures NodeToJson(t).JObject? && NodeFromJson(NodeToJson(t)) == Some(t)
  {
    hide NodeToJson, ReadShape, Checked;
    if t.Split? {
      NodeRoundTrip(t.first);
      NodeRoundTrip(t.second);
    }
    ShapeRoundTrip(t);
    CheckedIffWellFormed(t);
  }

  // ---------------------------------------------------------------- containers

  const SCHEMA_VERSION := 1.0

  function PageToJson(p: ContainerPage): Json {
    JObject(map["id" := JString(p.id), "name" := JString(p.name),
                "number" := JNumber(p.number as int as real), "root" := NodeToJson(p.root)])
  }

  function PagesToJson(ps: seq<ContainerPage>): seq<Json> {
    if ps == [] then [] else PagesToJson(ps[..|ps| - 1]) + [PageToJson(ps[|ps| - 1])]
  }

  function ToJson(c: Container): Json {
    JObject(map["schemaVersion" := JNumber(SCHEMA_VERSION), "id" := JString(c.id),
                "activePageId" := JString(c.activePageId),
                "pages" := JArray(PagesToJson(c.pages))])
  }

  // QJsonValue::toInt(-1): a whole number in the range of int, or -1.
  function ToInt(v: Json): int32 {
    match v
    case JNumber(n) =>
      if n == n.Floor as real && -0x8000_0000 <= n.Floor <= 0x7FFF_FFFF then n.Floor as int32 else -1
    case _ => -1
  }

  // The narrowing conversion int(index + 1).
  function DefaultNumber(index: nat): int32 {
    ((index + 1 + 0x8000_0000) % 0x1_0000_0000 - 0x8000_0000) as int32
  }

  function PageFromJson(v: Json, index: nat): Option<ContainerPage> {
    var isObject := v.JObject?;
    :- Need(isObject);
    var id :- TextField(v, "id", false);
    var rootValue :- Field(v, "root");
    :- Need(rootValue.JObject?);
    var root :- NodeFromJson(rootValue);
    var name := Field(v, "name");
    var number := Field(v, "number");
    var n := match number case Some(value) => ToInt(value) case None => DefaultNumber(index);
    var text := match name case Some(JString(s)) => s case _ => "";
    :- Need(name.Some? ==> name.value.JString?);
    :- Need(number.Some? ==> number.value.JNumber? && number.value.number == n as int as real);
    :- Need(n > 0 && ValidName(text));
    Some(ContainerPage(id, root, text, n))
  }

  function PagesFromJson(items: seq<Json>): Option<seq<ContainerPage>> {
    if items == [] then Some([])
    else
      var init :- PagesFromJson(items[..|items| - 1]);
      var last :- PageFromJson(items[|items| - 1], |items| - 1);
      Some(init + [last])
  }

  ghost function FromJson(o: Json): Option<Container>
    requires o.JObject?
  {
    var version := Field(o, "schemaVersion");
    :- Need(version == Some(JNumber(SCHEMA_VERSION)));
    var id :- TextField(o, "id", false);
    var active :- TextField(o, "activePageId", true);
    var pagesValue :- Field(o, "pages");
    :- Need(pagesValue.JArray?);
    var pages :- PagesFromJson(pagesValue.items);
    :- Need(ValidContainer(Container(id, pages, active)));
    Some(Container(id, pages, active))
  }

  lemma PageRoundTrip(p: ContainerPage, index: nat)
    requires PageWellFormed(p)
    ensures PageFromJson(PageToJson(p), index) == Some(p)
  {
    NodeRoundTrip(p.root);
    hide NodeToJson, NodeFromJson, WellFormed, ValidName;
    assert (p.number as int as real).Floor == p.number as int;
  }

  lemma PagesAppend(items: seq<Json>, item: Json)
    ensures PagesFromJson(items + [item]) ==
      match (PagesFromJson(items), PageFromJson(item, |items|))
      case (Some(init), Some(last)) => Some(init + [last])
      case _ => None
  {
    assert (items + [item])[..|items|] == items;
  }

  lemma {:induction false} PagesRoundTrip(ps: seq<ContainerPage>)
    requires forall p :: p in ps ==> PageWellFormed(p)
    ensures PagesFromJson(PagesToJson(ps)) == Some(ps)
    decreases |ps|
  {
    hide PageWellFormed, PageToJson, PageFromJson, PagesFromJson;
    if ps == [] {
      PagesEmpty();
    } else {
      var init, last := ps[..|ps| - 1], ps[|ps| - 1];
      PagesRoundTrip(init);
      PageRoundTrip(last, |PagesToJson(init)|);
      PagesAppend(PagesToJson(init), PageToJson(last));
      assert ps == init + [last];
    }
  }

  lemma PagesEmpty()
    ensures PagesFromJson([]) == Some([])
  {
  }

  lemma ContainerFields(c: Container)
    ensures var o := ToJson(c);
      && Field(o, "schemaVersion") == Some(JNumber(SCHEMA_VERSION))
      && Field(o, "id") == Some(JString(c.id))
      && Field(o, "activePageId") == Some(JString(c.activePageId))
      && Field(o, "pages") == Some(JArray(PagesToJson(c.pages)))
  {
  }

  lemma ContainerParts(c: Container)
    requires ValidContainer(c)
    ensures c.id != "" && forall p :: p in c.pages ==> PageWellFormed(p)
  {
  }

  // Writing and reading back is the identity on every valid container.
  lemma RoundTrip(c: Container)
    requires ValidContainer(c)
    ensures FromJson(ToJson(c)) == Some(c)
  {
    hide ValidContainer, PageWellFormed, ToJson, Field, PagesToJson, PagesFromJson;
    ContainerParts(c);
    PagesRoundTrip(c.pages);
    ContainerFields(c);
  }

  // Whatever is accepted is valid, and writing it back loses nothing.
  lemma AcceptedIsValid(o: Json)
    requires o.JObject? && FromJson(o).Some?
    ensures ValidContainer(FromJson(o).value)
    ensures FromJson(ToJson(FromJson(o).value)) == FromJson(o)
  {
    RoundTrip(FromJson(o).value);
  }

  // ------------------------------------------------------- the source's loops

  method WriteContainer(c: WindowContainer) returns (o: Json)
    ensures o == ToJson(c.Value())
  {
    var serializedPages := [];
    var i := 0;
    while i < |c.pages|
      invariant 0 <= i <= |c.pages|
      invariant serializedPages == PagesToJson(c.pages[..i])
    {
      assert c.pages[..i + 1][..i] == c.pages[..i];
      serializedPages := serializedPages + [PageToJson(c.pages[i])];
      i := i + 1;
    }
    assert c.pages[..|c.pages|] == c.pages;
    o := JObject(map["schemaVersion" := JNumber(SCHEMA_VERSION), "id" := JString(c.id),
                     "activePageId" := JString(c.activePageId), "pages" := JArray(serializedPages)]);
  }

  method ReadContainer(o: Json) returns (parsed: WindowContainer?)
    requires o.JObject?
    ensures if parsed == null then FromJson(o).None? else fresh(parsed) && FromJson(o) == Some(parsed.Value())
  {
    hide PageFromJson, ValidContainer;
    var version := Field(o, "schemaVersion");
    if version != Some(JNumber(SCHEMA_VERSION)) {
      return null;
    }
    var containerId := TextField(o, "id", false);
    var activePageId := TextField(o, "activePageId", true);
    var pagesValue := Field(o, "pages");
    if containerId.None? || activePageId.None? {
      return null;
    }
    if pagesValue.None? || !pagesValue.value.JArray? {
      return null;
    }
    var items := pagesValue.value.items;
    parsed := new WindowContainer(containerId.value);
    var index := 0;
    while index < |items|
      invariant 0 <= index <= |items|
      invariant parsed.id == containerId.value
      invariant PagesFromJson(items[..index]) == Some(parsed.pages)
    {
      assert items[..index + 1][..index] == items[..index];
      var page := PageFromJson(items[index], index);
      if page.None? {
        PagesStop(items, index + 1);
        return null;
      }
      parsed.pages := parsed.pages + [page.value];
      index := index + 1;
    }
    assert items[..|items|] == items;
    parsed.activePageId := activePageId.value;
    var valid := parsed.Validate();
    if !valid {
      return null;
    }
  }

  lemma {:induction false} PagesStop(items: seq<Json>, n: nat)
    requires n <= |items| && PagesFromJson(items[..n]).None?
    ensures PagesFromJson(items).None?
    decreases |items|
  {
    if n < |items| {
      var init := items[..|items| - 1];
      assert init[..n] == items[..n];
      PagesStop(init, n);
    } else {
      assert items[..n] == items;
    }
  }
}
