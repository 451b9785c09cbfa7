/**
 * xmlToJson: the conversion of a parsed XML tree into a JavaScript object. Attributes go under
 * "@attributes", a text node becomes its string, and children are keyed by their node name, a
 * second child of the same name turning the entry into an array.
 */
module XmlJson {
  import opened Js

  /** The DOM nodes the conversion distinguishes: elements, text nodes, and every other kind (document, comment, ...). */
  datatype XNode =
    | Element(name: string, attributes: seq<(string, string)>, children: seq<XNode>)
    | Text(value: string)
    | Other(name: string, children: seq<XNode>)

  /** The JavaScript values the conversion builds; an object is its (key, value) pairs in insertion order. */
  datatype Json = JString(s: string) | JObject(fields: seq<(string, Json)>) | JArray(items: seq<Json>)

  type Fields = seq<(string, Json)>

  /** `nodeName`: the tag name of an element, "#text" for a text node. */
  function NodeName(n: XNode): string {
    match n
    case Element(name, _, _) => name
    case Text(_) => "#text"
    case Other(name, _) => name
  }

  function FieldLookup(fs: Fields, k: string): Option<Json> {
    if |fs| == 0 then None
    else if fs[0].0 == k then Some(fs[0].1)
    else FieldLookup(fs[1..], k)
  }

  /** `obj[k] = v`: replaces the value of an existing key in place, or appends a new key. */
  function SetField(fs: Fields, k: string, v: Json): Fields {
    if |fs| == 0 then [(k, v)]
    else if fs[0].0 == k then [(k, v)] + fs[1..]
    else [fs[0]] + SetField(fs[1..], k, v)
  }

  ghost predicate DistinctKeys(fs: Fields) {
    forall i, j :: 0 <= i < j < |fs| ==> fs[i].0 != fs[j].0
  }

  /** The "@attributes" object: one string property per attribute, in document order. */
  function AttributeFields(attrs: seq<(string, string)>): Fields {
    if |attrs| == 0 then []
    else
      var a := attrs[|attrs| - 1];
      SetField(AttributeFields(attrs[..|attrs| - 1]), a.0, JString(a.1))
  }

  /** The object before the children are added: "@attributes" for an element with at least one attribute. */
  function InitialFields(n: XNode): Fields {
    if n.Element? && |n.attributes| > 0 then [("@attributes", JObject(AttributeFields(n.attributes)))] else []
  }

  /** One child added: a new key, a push onto an existing array, or an existing value wrapped with the new one into an array. */
  function AddChild(fs: Fields, k: string, v: Json): Fields {
    match FieldLookup(fs, k)
    case None => SetField(fs, k, v)
    case Some(prev) => if prev.JArray? then SetField(fs, k, JArray(prev.items + [v])) else SetField(fs, k, JArray([prev, v]))
  }

  /** xmlToJson: a text node is its value, any other node an object built from its attributes and its children. */
  function Convert(n: XNode): (r: Json)
    decreases n, 1
    ensures n.Text? ==> r == JString(n.value)
    ensures !n.Text? ==> r.JObject?
  {
    if n.Text? then JString(n.value) else JObject(FoldChildren(n, |n.children|))
  }

  /** The object after the first k children of n have been added. */
  function FoldChildren(n: XNode, k: nat): Fields
    requires !n.Text? && k <= |n.children|
    decreases n, 0, k
  {
    if k == 0 then InitialFields(n)
    else
      var item := n.children[k - 1];
      AddChild(FoldChildren(n, k - 1), NodeName(item), Convert(item))
  }

  /** The converted children named k, in document order. */
  function Named(kids: seq<XNode>, k: string): (r: seq<Json>)
    ensures |r| <= |kids|
    ensures forall v :: v in r ==> !v.JArray?
  {
    if |kids| == 0 then []
    else
      var c := kids[|kids| - 1];
      Named(kids[..|kids| - 1], k) + if NodeName(c) == k then [Convert(c)] else []
  }

  /** The property the children named k leave behind: absent for none, the child for one, the array of them for more. */
  function Grouped(vs: seq<Json>): Option<Json> {
    if |vs| == 0 then None else if |vs| == 1 then Some(vs[0]) else Some(JArray(vs))
  }

  lemma {:induction false} SetFieldFacts(fs: Fields, k: string, v: Json)
    requires DistinctKeys(fs)
    ensures DistinctKeys(SetField(fs, k, v))
    ensures FieldLookup(SetField(fs, k, v), k) == Some(v)
    ensures forall other :: other != k ==> FieldLookup(SetField(fs, k, v), other) == FieldLookup(fs, other)
    ensures forall i :: 0 <= i < |SetField(fs, k, v)| ==> SetField(fs, k, v)[i].0 == k || exists j :: 0 <= j < |fs| && fs[j].0 == SetField(fs, k, v)[i].0
  {
    if |fs| > 0 && fs[0].0 != k {
      var rest := fs[1..];
      assert DistinctKeys(rest) by {
        forall i, j | 0 <= i < j < |rest| ensures rest[i].0 != rest[j].0 {
          assert rest[i] == fs[i + 1] && rest[j] == fs[j + 1];
        }
      }
      SetFieldFacts(rest, k, v);
      var b := SetField(rest, k, v);
      var r := [fs[0]] + b;
      assert r[1..] == b;
      forall i | 0 <= i < |r| ensures r[i].0 == k || exists j :: 0 <= j < |fs| && fs[j].0 == r[i].0 {
        if i > 0 && r[i].0 != k {
          var j :| 0 <= j < |rest| && rest[j].0 == b[i - 1].0;
          assert fs[j + 1].0 == r[i].0;
        }
      }
      forall i, j | 0 <= i < j < |r| ensures r[i].0 != r[j].0 {
        if i == 0 && r[j].0 != k {
          var m :| 0 <= m < |rest| && rest[m].0 == b[j - 1].0;
          assert fs[m + 1].0 == r[j].0;
        }
      }
    } else if |fs| > 0 {
      var r := [(k, v)] + fs[1..];
      assert r[1..] == fs[1..];
      assert forall i :: 0 < i < |r| ==> r[i] == fs[i];
    }
  }

  /** Adding one child keeps the keys distinct and leaves every other key's entry as it was. */
  lemma AddChildKeeps(fs: Fields, k: string, v: Json)
    requires DistinctKeys(fs)
    ensures DistinctKeys(AddChild(fs, k, v))
    ensures forall other :: other != k ==> FieldLookup(AddChild(fs, k, v), other) == FieldLookup(fs, other)
  {
    match FieldLookup(fs, k)
    case None =>
      SetFieldFacts(fs, k, v);
    case Some(prev) =>
      if prev.JArray? {
        SetFieldFacts(fs, k, JArray(prev.items + [v]));
      } else {
        SetFieldFacts(fs, k, JArray([prev, v]));
      }
  }

  /** Adding one child moves the entry for its name from Grouped(vs) to Grouped(vs + [v]). */
  lemma AddChildFacts(fs: Fields, k: string, v: Json, vs: seq<Json>)
    requires DistinctKeys(fs) && FieldLookup(fs, k) == Grouped(vs)
    requires !v.JArray? && forall w :: w in vs ==> !w.JArray?
    ensures FieldLookup(AddChild(fs, k, v), k) == Grouped(vs + [v])
  {
    match FieldLookup(fs, k)
    case None =>
      SetFieldFacts(fs, k, v);
    case Some(prev) =>
      if prev.JArray? {
        assert |vs| >= 2;
        SetFieldFacts(fs, k, JArray(prev.items + [v]));
      } else {
        assert |vs| == 1;
        assert [prev, v] == vs + [v];
        SetFieldFacts(fs, k, JArray([prev, v]));
      }
  }

  lemma {:induction false} AttributeFieldsDistinct(attrs: seq<(string, string)>)
    ensures DistinctKeys(AttributeFields(attrs))
  {
    if |attrs| > 0 {
      var a := attrs[|attrs| - 1];
      AttributeFieldsDistinct(attrs[..|attrs| - 1]);
      SetFieldFacts(AttributeFields(attrs[..|attrs| - 1]), a.0, JString(a.1));
    }
  }

  /** The children named k among kids and one more child. */
  lemma NamedSnoc(kids: seq<XNode>, item: XNode, name: string)
    ensures Named(kids + [item], name) == Named(kids, name) + if NodeName(item) == name then [Convert(item)] else []
  {
    assert (kids + [item])[..|kids|] == kids;
  }

  /** One more child keeps the entry of a name in step with the children so far that bear it. */
  lemma GroupStep(fs: Fields, kids: seq<XNode>, item: XNode, name: string)
    requires DistinctKeys(fs) && FieldLookup(fs, name) == Grouped(Named(kids, name))
    ensures FieldLookup(AddChild(fs, NodeName(item), Convert(item)), name) == Grouped(Named(kids + [item], name))
  {
    var k := NodeName(item);
    NamedSnoc(kids, item, name);
    if k == name {
      AddChildFacts(fs, k, Convert(item), Named(kids, k));
    } else {
      assert Named(kids + [item], name) == Named(kids, name);
      AddChildKeeps(fs, k, Convert(item));
    }
  }

  /** After any number of children the object's keys are distinct. */
  lemma {:induction false} FoldChildrenDistinct(n: XNode, k: nat)
    requires !n.Text? && k <= |n.children|
    ensures DistinctKeys(FoldChildren(n, k))
  {
    if k > 0 {
      var item := n.children[k - 1];
      FoldChildrenDistinct(n, k - 1);
      AddChildKeeps(FoldChildren(n, k - 1), NodeName(item), Convert(item));
    }
  }

  /** After k children every name other than "@attributes" holds the group of the children so far with that name. */
  lemma {:induction false} FoldChildrenGroups(n: XNode, k: nat, name: string)
    requires !n.Text? && k <= |n.children| && name != "@attributes"
    ensures FieldLookup(FoldChildren(n, k), name) == Grouped(Named(n.children[..k], name))
  {
    if k == 0 {
      assert n.children[..0] == [];
    } else {
      var item := n.children[k - 1];
      var prev := FoldChildren(n, k - 1);
      FoldChildrenGroups(n, k - 1, name);
      FoldChildrenDistinct(n, k - 1);
      TakeSnoc(n.children, k);
      GroupStep(prev, n.children[..k - 1], item, name);
    }
  }

  /** A name that no child bears keeps the entry it had before the children, "@attributes" in particular. */
  lemma {:induction false} FoldChildrenUnnamed(n: XNode, k: nat, name: string)
    requires !n.Text? && k <= |n.children|
    requires forall i :: 0 <= i < |n.children| ==> NodeName(n.children[i]) != name
    ensures FieldLookup(FoldChildren(n, k), name) == FieldLookup(FoldChildren(n, 0), name)
  {
    if k > 0 {
      var item := n.children[k - 1];
      var prev := FoldChildren(n, k - 1);
      assert NodeName(item) != name;
      FoldChildrenUnnamed(n, k - 1, name);
      FoldChildrenDistinct(n, k - 1);
      AddChildKeeps(prev, NodeName(item), Convert(item));
      assert FoldChildren(n, k) == AddChild(prev, NodeName(item), Convert(item));
    }
  }

  /**
   * The converted element: the keys are distinct; "@attributes" is present exactly when the element
   * has an attribute, holding each attribute's value by name; and for every other name the key is
   * absent without such children, the converted child for one, and the array of the converted
   * children in document order for two or more. (XML names never contain '@'.)
   */
  lemma ElementConversion(n: XNode)
    requires n.Element?
    requires forall i :: 0 <= i < |n.children| ==> NodeName(n.children[i]) != "@attributes"
    ensures var fs := Convert(n).fields;
      DistinctKeys(fs) &&
      (FieldLookup(fs, "@attributes").Some? <==> |n.attributes| > 0) &&
      (|n.attributes| > 0 ==> FieldLookup(fs, "@attributes") == Some(JObject(AttributeFields(n.attributes)))) &&
      forall name :: name != "@attributes" ==> FieldLookup(fs, name) == Grouped(Named(n.children, name))
  {
    FoldChildrenDistinct(n, |n.children|);
    FoldChildrenUnnamed(n, |n.children|, "@attributes");
    assert n.children[..|n.children|] == n.children;
    forall name | name != "@attributes"
      ensures FieldLookup(FoldChildren(n, |n.children|), name) == Grouped(Named(n.children, name))
    {
      FoldChildrenGroups(n, |n.children|, name);
    }
  }

  /** Named counts exactly the children with that name, so a key is present exactly when some child has that name. */
  lemma {:induction false} NamedEmptyIffAbsent(kids: seq<XNode>, k: string)
    ensures |Named(kids, k)| == 0 <==> forall i :: 0 <= i < |kids| ==> NodeName(kids[i]) != k
  {
    if |kids| > 0 {
      var init := kids[..|kids| - 1];
      NamedEmptyIffAbsent(init, k);
      assert forall i :: 0 <= i < |init| ==> init[i] == kids[i];
    }
  }

  /** An element with neither attributes nor children converts to the empty object. */
  lemma EmptyElement(name: string)
    ensures Convert(Element(name, [], [])) == JObject([])
  {
  }

  /** The attribute loop: each attribute sets its property on the "@attributes" object. */
  method CollectAttributes(attrs: seq<(string, string)>) returns (fs: Fields)
    ensures fs == AttributeFields(attrs) && DistinctKeys(fs)
  {
    fs := [];
    var i := 0;
    while i < |attrs|
      invariant 0 <= i <= |attrs|
      invariant fs == AttributeFields(attrs[..i])
    {
      assert attrs[..i + 1][..i] == attrs[..i];
      fs := SetField(fs, attrs[i].0, JString(attrs[i].1));
      i := i + 1;
    }
    assert attrs[..i] == attrs;
    AttributeFieldsDistinct(attrs);
  }

  /** xmlToJson itself: the attribute loop, then one recursive call per child, folding same-named children into arrays. */
  method XmlToJson(xml: XNode) returns (result: Json)
    ensures result == Convert(xml)
    decreases xml
  {
    if xml.Text? {
      return JString(xml.value);
    }
    var fs: Fields := [];
    if xml.Element? && |xml.attributes| > 0 {
      var attributes := CollectAttributes(xml.attributes);
      fs := [("@attributes", JObject(attributes))];
    }
    var i := 0;
    while i < |xml.children|
      invariant 0 <= i <= |xml.children|
      invariant fs == FoldChildren(xml, i)
    {
      var item := xml.children[i];
      var nodeName := NodeName(item);
      var converted := XmlToJson(item);
      var existing := FieldLookup(fs, nodeName);
      if existing.None? {
        fs := SetField(fs, nodeName, converted);
      } else if existing.value.JArray? {
        fs := SetField(fs, nodeName, JArray(existing.value.items + [converted]));
      } else {
        fs := SetField(fs, nodeName, JArray([existing.value, converted]));
      }
      i := i + 1;
    }
    result := JObject(fs);
  }
}
