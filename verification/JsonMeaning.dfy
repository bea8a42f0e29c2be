// The JSON form itself, key by key, and that exactly what has it is read and written.

module JsonMeaning {
  import opened Basics
  import opened Layout
  import opened Names
  import opened Containers
  import opened ContainerProofs
  import opened ContainerJson

  predicate Says(o: Json, key: string, value: Json) {
    o.JObject? && key in o.fields && o.fields[key] == value
  }

  // The object stands for this tree. Other keys do not matter.
  ghost predicate Spells(o: Json, t: LayoutNode)
    decreases t
  {
    && o.JObject? && Says(o, "id", JString(t.id)) && t.id != ""
    && match t
       case Leaf(_, w) => Says(o, "type", JString("leaf")) && Says(o, "windowId", JString(w)) && w != ""
       case Split(_, orientation, ratio, first, second) =>
         && Says(o, "type", JString("split"))
         && Says(o, "orientation",
           JString(match orientation case Horizontal => "horizontal" case Vertical => "vertical"))
         && Says(o, "ratio", JNumber(ratio))
         && "first" in o.fields && Spells(o.fields["first"], first)
         && "second" in o.fields && Spells(o.fields["second"], second)
  }

  lemma SpellsObject(o: Json, t: LayoutNode)
    ensures Spells(o, t) ==> o.JObject?
  {
  }

  lemma ShapeSpells(o: Json, t: LayoutNode)
    requires o.JObject?
    ensures t.Leaf? ==> (ReadShape(o) == Some(LeafShape(t.id, t.windowId)) <==> Spells(o, t))
    ensures t.Split? && Spells(o, t) ==>
      ReadShape(o) == Some(SplitShape(t.id, t.orientation, t.ratio, o.fields["first"], o.fields["second"]))
    ensures t.Split? && ReadShape(o).Some? && ReadShape(o).value.SplitShape? ==>
      var s := ReadShape(o).value;
      && "first" in o.fields && "second" in o.fields && s.first == o.fields["first"] && s.second == o.fields["second"]
      && (Spells(o, t) <==>
           && s.id == t.id && s.orientation == t.orientation && s.ratio == t.ratio
           && Spells(s.first, t.first) && Spells(s.second, t.second))
  {
    if t.Split? && "first" in o.fields && "second" in o.fields {
      SpellsObject(o.fields["first"], t.first);
      SpellsObject(o.fields["second"], t.second);
    }
  }

  // Exactly the objects that stand for a tree are parsed, and as that tree.
  lemma {:induction false} ParsedSpells(o: Json, t: LayoutNode)
    requires o.JObject?
    ensures ParseNode(o) == Some(t) <==> Spells(o, t)
    decreases o
  {
    ShapeSpells(o, t);
    hide ReadShape, Spells;
    var shape := ReadShape(o);
    if shape.Some? && shape.value.SplitShape? && t.Split? {
      ParsedSpells(shape.value.first, t.first);
      ParsedSpells(shape.value.second, t.second);
    }
  }

  // A tree is read from exactly the objects that stand for it, if it is well formed.
  lemma NodeReadIff(o: Json, t: LayoutNode)
    requires o.JObject?
    ensures NodeFromJson(o) == Some(t) <==> Spells(o, t) && WellFormed(t)
  {
    PerLevelValidation(o);
    ParsedSpells(o, t);
    hide NodeFromJson, ParseNode, WellFormed, Spells;
  }

  lemma NodeWritten(t: LayoutNode)
    requires WellFormed(t)
    ensures NodeToJson(t).JObject? && Spells(NodeToJson(t), t)
  {
    NodeRoundTrip(t);
    NodeReadIff(NodeToJson(t), t);
    hide NodeToJson, NodeFromJson, Spells;
  }

  // The object stands for this page, the one at the index. Without a name it has the empty one,
  // and without a number its place in the list.
  ghost predicate SpellsPage(o: Json, p: ContainerPage, index: nat) {
    && o.JObject? && Says(o, "id", JString(p.id)) && p.id != ""
    && "root" in o.fields && o.fields["root"].JObject? && Spells(o.fields["root"], p.root)
    && (if "name" in o.fields then o.fields["name"] == JString(p.name) else p.name == "")
    && (if "number" in o.fields then o.fields["number"] == JNumber(p.number as int as real)
        else p.number as int == index + 1)
  }

  // A number field is accepted as it is written.
  lemma NumberRead(value: Json, n: int32)
    ensures value.JNumber? && ToInt(value) == n && value.number == n as int as real <==>
              value == JNumber(n as int as real)
  {
    assert (n as int as real).Floor == n as int;
  }

  lemma NumberMissing(index: nat)
    requires index < 0x7FFF_FFFF
    ensures DefaultNumber(index) as int == index + 1
  {
  }

  // Name and number of a page.
  lemma LabelsRead(v: Json, index: nat, p: ContainerPage)
    requires v.JObject? && index < 0x7FFF_FFFF
    ensures var name, number := Field(v, "name"), Field(v, "number");
      var n := match number case Some(value) => ToInt(value) case None => DefaultNumber(index);
      var text := match name case Some(JString(s)) => s case _ => "";
      && (name.Some? ==> name.value.JString?)
      && (number.Some? ==> number.value.JNumber? && number.value.number == n as int as real)
      && n == p.number && text == p.name <==>
        && (if "name" in v.fields then v.fields["name"] == JString(p.name) else p.name == "")
        && (if "number" in v.fields then v.fields["number"] == JNumber(p.number as int as real)
            else p.number as int == index + 1)
  {
    NumberMissing(index);
    if "number" in v.fields {
      NumberRead(v.fields["number"], p.number);
    }
    hide ToInt, DefaultNumber;
  }

  lemma PageReadIff(o: Json, p: ContainerPage, index: nat)
    requires index < 0x7FFF_FFFF
    ensures PageFromJson(o, index) == Some(p) <==>
              SpellsPage(o, p, index) && p.number > 0 && ValidName(p.name) && WellFormed(p.root)
  {
    if o.JObject? {
      LabelsRead(o, index, p);
    }
    if o.JObject? && "root" in o.fields && o.fields["root"].JObject? {
      NodeReadIff(o.fields["root"], p.root);
    }
    hide NodeFromJson, WellFormed, Spells, ValidName, ToInt, DefaultNumber;
  }

  ghost predicate SpellsPages(items: seq<Json>, ps: seq<ContainerPage>) {
    && |items| == |ps|
    && forall i :: 0 <= i < |ps| ==>
         SpellsPage(items[i], ps[i], i) && ps[i].number > 0 && ValidName(ps[i].name) && WellFormed(ps[i].root)
  }

  lemma {:induction false} PagesReadIff(items: seq<Json>, ps: seq<ContainerPage>)
    requires |items| < 0x7FFF_FFFF
    ensures PagesFromJson(items) == Some(ps) <==> SpellsPages(items, ps)
    decreases |items|
  {
    hide PageFromJson, SpellsPage, ValidName, WellFormed;
    if items == [] {
    } else if ps != [] {
      PagesReadIff(items[..|items| - 1], ps[..|ps| - 1]);
      PageReadIff(items[|items| - 1], ps[|ps| - 1], |items| - 1);
      assert ps == ps[..|ps| - 1] + [ps[|ps| - 1]];
    }
  }

  lemma TextRead(o: Json, key: string, allowEmpty: bool, text: string)
    requires o.JObject?
    ensures TextField(o, key, allowEmpty) == Some(text) <==> Says(o, key, JString(text)) && (allowEmpty || text != "")
  {
  }

  // The object stands for this container, in the one version of the schema there is.
  ghost predicate SpellsContainer(o: Json, c: Container) {
    && Says(o, "schemaVersion", JNumber(1.0)) && Says(o, "id", JString(c.id)) && c.id != ""
    && Says(o, "activePageId", JString(c.activePageId))
    && "pages" in o.fields && o.fields["pages"].JArray? && SpellsPages(o.fields["pages"].items, c.pages)
  }

  // A container is read from exactly the objects that stand for it, if it is valid.
  lemma ContainerReadIff(o: Json, c: Container)
    requires o.JObject?
    requires "pages" in o.fields && o.fields["pages"].JArray? ==> |o.fields["pages"].items| < 0x7FFF_FFFF
    ensures FromJson(o) == Some(c) <==> SpellsContainer(o, c) && ValidContainer(c)
  {
    hide PagesFromJson, SpellsPages, ValidContainer, TextField;
    if "pages" in o.fields && o.fields["pages"].JArray? {
      PagesReadIff(o.fields["pages"].items, c.pages);
    }
    TextRead(o, "id", false, c.id);
    TextRead(o, "activePageId", true, c.activePageId);
  }

  // What is written stands for the container.
  lemma ContainerWritten(c: Container)
    requires ValidContainer(c) && |c.pages| < 0x7FFF_FFFF
    ensures SpellsContainer(ToJson(c), c)
  {
    RoundTrip(c);
    ContainerFields(c);
    WrittenLength(c.pages);
    ContainerReadIff(ToJson(c), c);
    hide ToJson, FromJson, ValidContainer, SpellsContainer, PagesToJson;
  }

  lemma {:induction false} WrittenLength(ps: seq<ContainerPage>)
    ensures |PagesToJson(ps)| == |ps|
  {
    if ps != [] {
      WrittenLength(ps[..|ps| - 1]);
    }
  }
}
