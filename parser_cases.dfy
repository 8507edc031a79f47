/**
 * The cases of the parser's test fixture, each stated over the element tree
 * of the document the test parses.
 */
module ParserCases {
  import opened Wrappers
  import opened Keys
  import opened Markup
  import opened SettingsTree
  import opened TreeBuilder
  import opened BuilderProperties

  /** An element with neither attributes nor children. */
  function Leaf(tag: string, text: string): Element { Element(tag, [], [], text) }

  /** An element with children only; its own text plays no part once it has children. */
  function Parent(tag: string, children: seq<Element>): Element { Element(tag, [], children, "") }

  /** The tree built for a document whose root element is `e`, with no root name given. */
  function BuildRoot(e: Element): Node { Build(e, Some(e.tag)) }

  lemma KeyDiffers(a: string, b: string, i: nat)
    requires i < |a| && i < |b| && Fold(a[i]) != Fold(b[i])
    ensures !SameKey(a, b)
  {
    assert Lower(a)[i] != Lower(b)[i];
  }

  /** `<Dictionary><Key1>value1</Key1><Key2>value2</Key2></Dictionary>` */
  lemma ObjectFromSubelements()
    ensures var s := BuildRoot(Parent("Dictionary", [Leaf("Key1", "value1"), Leaf("Key2", "value2")]));
      && s.name == Some("Dictionary")
      && Lookup(s, "Key1") == Success(Value(Some("Key1"), "value1"))
      && Lookup(s, "Key2") == Success(Value(Some("Key2"), "value2"))
  {
    var d := Parent("Dictionary", [Leaf("Key1", "value1"), Leaf("Key2", "value2")]);
    KeyDiffers("Key1", "Key2", 3);
    assert SameKey(Tags(d.children)[0], "Key1") && SameKey(Tags(d.children)[1], "Key2");
    LookupGroupEntry(d, Some(d.tag), "Key1");
    LookupGroupEntry(d, Some(d.tag), "Key2");
  }

  /** A group of two leaves is an Array of their texts. */
  lemma ArrayOfTwoLeaves(e: Element, name: Option<string>, k: string, t: string, a: string, b: string)
    requires HasKey(Tags(e.children), k) && Members(e.children, k) == [Leaf(t, a), Leaf(t, b)]
    ensures Lookup(Build(e, name), k) == Success(Array(Some(t), [Value(None, a), Value(None, b)]))
  {
    PairGroupArray(e, name, k, Leaf(t, a), Leaf(t, b));
    LeafBuildsValue(Leaf(t, a), None);
    LeafBuildsValue(Leaf(t, b), None);
  }

  /** A group of exactly two elements is an Array of the two, each built on its own, in order. */
  lemma PairGroupArray(e: Element, name: Option<string>, k: string, c1: Element, c2: Element)
    requires HasKey(Tags(e.children), k) && Members(e.children, k) == [c1, c2]
    ensures Lookup(Build(e, name), k) == Success(Array(Some(c1.tag), [Build(c1, None), Build(c2, None)]))
  {
    var ms := Members(e.children, k);
    assert |ms| == 2 && ms[0] == c1 && ms[1] == c2;
    LookupGroupEntry(e, name, k);
    var l := Lookup(Build(e, name), k);
    var r := l.value;
    assert r.Array? && r.name == Some(c1.tag) && |r.items| == 2;
    assert r.items[0] == Build(c1, None) && r.items[1] == Build(c2, None);
    PairSeq(r.items, Build(c1, None), Build(c2, None));
    assert l == Success(r);
  }

  /** A sequence of length two is the pair of its two items. */
  lemma PairSeq<T>(s: seq<T>, a: T, b: T)
    requires |s| == 2 && s[0] == a && s[1] == b
    ensures s == [a, b]
  {
  }

  /** A leaf element builds the Value of its text. */
  lemma LeafBuildsValue(e: Element, name: Option<string>)
    requires e.attributes == [] && e.children == []
    ensures Build(e, name) == Value(name, e.text)
  {
  }

  /** Two sibling leaves with one tag become an Array of their texts under that tag. */
  lemma TwoLeavesArray(tag: string, t: string, a: string, b: string, name: Option<string>)
    ensures Lookup(Build(Parent(tag, [Leaf(t, a), Leaf(t, b)]), name), t)
         == Success(Array(Some(t), [Value(None, a), Value(None, b)]))
  {
    var p := Parent(tag, [Leaf(t, a), Leaf(t, b)]);
    assert SameKey(Tags(p.children)[0], t);
    MembersAll(p.children, t);
    ArrayOfTwoLeaves(p, name, t, t, a, b);
  }

  /** `<ArrayParent><Array>value1</Array><Array>value2</Array></ArrayParent>` */
  lemma ArrayFromSameKeys()
    ensures var s := BuildRoot(Parent("ArrayParent", [Leaf("Array", "value1"), Leaf("Array", "value2")]));
      && s.name == Some("ArrayParent")
      && Lookup(s, "Array") == Success(Array(Some("Array"), [Value(None, "value1"), Value(None, "value2")]))
  {
    TwoLeavesArray("ArrayParent", "Array", "value1", "value2", Some("ArrayParent"));
  }

  /** Two sibling elements with one tag are looked up as an Array of the two, each built on its own. */
  lemma TwoSiblingsArray(tag: string, c1: Element, c2: Element, name: Option<string>)
    requires c1.tag == c2.tag
    ensures Lookup(Build(Parent(tag, [c1, c2]), name), c1.tag)
         == Success(Array(Some(c1.tag), [Build(c1, None), Build(c2, None)]))
  {
    var p := Parent(tag, [c1, c2]);
    assert SameKey(Tags(p.children)[0], c1.tag);
    MembersAll(p.children, c1.tag);
    PairGroupArray(p, name, c1.tag, c1, c2);
  }

  /** `<object><item><subitem1>value1</subitem1></item><item><subitem2>value2</subitem2></item></object>` */
  lemma ArrayOfObjects()
    ensures var s := BuildRoot(Parent("object", [
                       Parent("item", [Leaf("subitem1", "value1")]),
                       Parent("item", [Leaf("subitem2", "value2")])]));
      && s.name == Some("object")
      && Lookup(s, "item").Success?
      && Children(Lookup(s, "item").value).Success?
      && |Children(Lookup(s, "item").value).value| == 2
      && Lookup(Children(Lookup(s, "item").value).value[0], "subitem1") == Success(Value(Some("subitem1"), "value1"))
      && Lookup(Children(Lookup(s, "item").value).value[1], "subitem2") == Success(Value(Some("subitem2"), "value2"))
  {
    var i1, i2 := Parent("item", [Leaf("subitem1", "value1")]), Parent("item", [Leaf("subitem2", "value2")]);
    TwoSiblingsArray("object", i1, i2, Some("object"));
    OneLeafObject("item", "subitem1", "value1", None);
    OneLeafObject("item", "subitem2", "value2", None);
  }

  /** A parent of a single leaf is an Object whose one key looks up the leaf's text. */
  lemma OneLeafObject(tag: string, t: string, v: string, name: Option<string>)
    ensures Lookup(Build(Parent(tag, [Leaf(t, v)]), name), t) == Success(Value(Some(t), v))
  {
    var p := Parent(tag, [Leaf(t, v)]);
    SingleChildStaysObject(p, name);
    assert SameKey(Tags(p.children)[0], t);
    LookupGroupEntry(p, name, t);
  }

  /** `<object><item><subitem>value1</subitem><subitem>value2</subitem></item><item><subitem>value3</subitem><subitem>value4</subitem></item></object>` */
  lemma ArrayOfArrays()
    ensures var s := BuildRoot(Parent("object", [
                       Parent("item", [Leaf("subitem", "value1"), Leaf("subitem", "value2")]),
                       Parent("item", [Leaf("subitem", "value3"), Leaf("subitem", "value4")])]));
      && s.name == Some("object")
      && Lookup(s, "item").Success?
      && Children(Lookup(s, "item").value).Success?
      && |Children(Lookup(s, "item").value).value| == 2
      && Lookup(Children(Lookup(s, "item").value).value[0], "subitem")
         == Success(Array(Some("subitem"), [Value(None, "value1"), Value(None, "value2")]))
      && Lookup(Children(Lookup(s, "item").value).value[1], "subitem")
         == Success(Array(Some("subitem"), [Value(None, "value3"), Value(None, "value4")]))
  {
    var i1 := Parent("item", [Leaf("subitem", "value1"), Leaf("subitem", "value2")]);
    var i2 := Parent("item", [Leaf("subitem", "value3"), Leaf("subitem", "value4")]);
    TwoSiblingsArray("object", i1, i2, Some("object"));
    TwoLeavesArray("item", "subitem", "value1", "value2", None);
    TwoLeavesArray("item", "subitem", "value3", "value4", None);
  }

  /** `<Mixed><SingleItem>SingleValue</SingleItem><DictItem><DictKey>DictValue</DictKey></DictItem><ArrayItem>ArrayValue1</ArrayItem><ArrayItem>ArrayValue2</ArrayItem></Mixed>` */
  function MixedDocument(): Element
  {
    Parent("Mixed", [
      Leaf("SingleItem", "SingleValue"),
      Parent("DictItem", [Leaf("DictKey", "DictValue")]),
      Leaf("ArrayItem", "ArrayValue1"),
      Leaf("ArrayItem", "ArrayValue2")])
  }

  /** The tags of the mixed document's children are three different keys. */
  lemma MixedTags()
    ensures var ts := Tags(MixedDocument().children);
      && SameKey(ts[0], "SingleItem") && SameKey(ts[1], "DictItem") && SameKey(ts[2], "ArrayItem") && SameKey(ts[3], "ArrayItem")
    ensures !SameKey("SingleItem", "DictItem") && !SameKey("SingleItem", "ArrayItem") && !SameKey("DictItem", "ArrayItem")
  {
    KeyDiffers("SingleItem", "DictItem", 0);
    KeyDiffers("SingleItem", "ArrayItem", 0);
    KeyDiffers("DictItem", "ArrayItem", 0);
  }

  lemma MixedSingleItem()
    ensures Lookup(BuildRoot(MixedDocument()), "SingleItem") == Success(Value(Some("SingleItem"), "SingleValue"))
  {
    var m := MixedDocument();
    MixedTags();
    MembersOne(m.children, "SingleItem", 0);
    LookupGroupEntry(m, Some(m.tag), "SingleItem");
  }

  lemma MixedDictItem()
    ensures Lookup(BuildRoot(MixedDocument()), "DictItem").Success?
    ensures Lookup(Lookup(BuildRoot(MixedDocument()), "DictItem").value, "DictKey")
         == Success(Value(Some("DictKey"), "DictValue"))
  {
    var m := MixedDocument();
    var dict := m.children[1];
    MixedTags();
    MembersOne(m.children, "DictItem", 1);
    LookupGroupEntry(m, Some(m.tag), "DictItem");
    assert SameKey(Tags(dict.children)[0], "DictKey");
    LookupGroupEntry(dict, Some("DictItem"), "DictKey");
  }

  lemma MixedArrayItem()
    ensures Lookup(BuildRoot(MixedDocument()), "ArrayItem")
         == Success(Array(Some("ArrayItem"), [Value(None, "ArrayValue1"), Value(None, "ArrayValue2")]))
  {
    var m := MixedDocument();
    MixedArrayGroup();
    ArrayOfTwoLeaves(m, Some(m.tag), "ArrayItem", "ArrayItem", "ArrayValue1", "ArrayValue2");
  }

  /** The ArrayItem group of the mixed document is its last two children. */
  lemma MixedArrayGroup()
    ensures HasKey(Tags(MixedDocument().children), "ArrayItem")
    ensures Members(MixedDocument().children, "ArrayItem")
         == [Leaf("ArrayItem", "ArrayValue1"), Leaf("ArrayItem", "ArrayValue2")]
  {
    var cs := MixedDocument().children;
    KeyDiffers("SingleItem", "ArrayItem", 0);
    KeyDiffers("DictItem", "ArrayItem", 0);
    GroupAfterTwo(cs[0], cs[1], cs[2], cs[3], "ArrayItem");
  }

  /** Two leading children of other keys are skipped, and the two trailing children of key `k` are its group. */
  lemma GroupAfterTwo(c0: Element, c1: Element, x: Element, y: Element, k: string)
    requires !SameKey(c0.tag, k) && !SameKey(c1.tag, k) && x.tag == k && y.tag == k
    ensures HasKey(Tags([c0, c1, x, y]), k)
    ensures Members([c0, c1, x, y], k) == [x, y]
  {
    var cs := [c0, c1, x, y];
    MembersSkip(cs, k, 2);
    assert cs[2..] == [x, y];
    MembersAll(cs[2..], k);
    assert Tags(cs)[2] == k;
  }

  /** One object holds a Value, an Object and an Array entry side by side. */
  lemma ObjectWithChildrenOfDifferentTypes()
    ensures var s := BuildRoot(MixedDocument());
      && s.name == Some("Mixed")
      && Lookup(s, "SingleItem") == Success(Value(Some("SingleItem"), "SingleValue"))
      && Lookup(s, "DictItem").Success?
      && Lookup(Lookup(s, "DictItem").value, "DictKey") == Success(Value(Some("DictKey"), "DictValue"))
      && Lookup(s, "ArrayItem")
         == Success(Array(Some("ArrayItem"), [Value(None, "ArrayValue1"), Value(None, "ArrayValue2")]))
  {
    MixedSingleItem();
    MixedDictItem();
    MixedArrayItem();
  }

  /** `<object key1='val1' key2='val2' />` */
  function AttributesOnly(): Element
  {
    Element("object", [Attribute("key1", "val1"), Attribute("key2", "val2")], [], "")
  }

  lemma ObjectFromAttributes()
    ensures var s := BuildRoot(AttributesOnly());
      && s.name == Some("object")
      && Lookup(s, "key1") == Success(Value(Some("key1"), "val1"))
      && Lookup(s, "key2") == Success(Value(Some("key2"), "val2"))
  {
    var o := AttributesOnly();
    var ns := Names(o.attributes);
    assert SameKey(ns[0], "key1") && SameKey(ns[1], "key2");
    KeyDiffers("key1", "key2", 3);
    LookupAttributeEntry(o, Some(o.tag), "key1");
    LookupAttributeEntry(o, Some(o.tag), "key2");
  }

  /** `<object item='value0' attr='test'><item>value1</item><item>value2</item></object>` */
  function ShadowingDocument(): Element
  {
    Element("object", [Attribute("item", "value0"), Attribute("attr", "test")],
            [Leaf("item", "value1"), Leaf("item", "value2")], "")
  }

  lemma ShadowingGroupsAndAttributes()
    ensures GroupHeads(ShadowingDocument()) == [Leaf("item", "value1")]
    ensures KeptAttributes(ShadowingDocument()) == [Attribute("attr", "test")]
  {
    var o := ShadowingDocument();
    KeyDiffers("attr", "item", 0);
    FirstOfEachKeyUnfold(o.children, TagOf, []);
    assert [] + [TagOf(o.children[0])] == ["item"];
    FirstOfEachKeyUnfold(o.children[1..], TagOf, ["item"]);
    assert SameKey(["item"][0], TagOf(o.children[1..][0]));
    assert o.children[1..][1..] == [];
    assert GroupHeads(o) == [Leaf("item", "value1")];
    var hs := Tags(GroupHeads(o));
    assert hs == ["item"];
    FirstOfEachKeyUnfold(o.attributes, NameOf, ["item"]);
    assert SameKey(["item"][0], NameOf(o.attributes[0]));
    assert ["item"] + [NameOf(o.attributes[0])] == ["item", "item"];
    FirstOfEachKeyUnfold(o.attributes[1..], NameOf, ["item", "item"]);
    assert o.attributes[1..][1..] == [];
  }

  lemma AttributeShadowedBySubelements()
    ensures var s := BuildRoot(ShadowingDocument());
      && s.name == Some("object")
      && Lookup(s, "item") == Success(Array(Some("item"), [Value(None, "value1"), Value(None, "value2")]))
      && Lookup(s, "attr") == Success(Value(Some("attr"), "test"))
      && |s.entries| == 2
  {
    var o := ShadowingDocument();
    ShadowingItem();
    ShadowingAttr();
    ShadowingGroupsAndAttributes();
    BuildEntries(o, Some(o.tag));
  }

  /** The `item` key of the shadowing document looks up the Array of the two sub-elements. */
  lemma ShadowingItem()
    ensures Lookup(BuildRoot(ShadowingDocument()), "item")
         == Success(Array(Some("item"), [Value(None, "value1"), Value(None, "value2")]))
  {
    var o := ShadowingDocument();
    assert SameKey(Tags(o.children)[0], "item");
    MembersAll(o.children, "item");
    ArrayOfTwoLeaves(o, Some(o.tag), "item", "item", "value1", "value2");
  }

  /** The `attr` key of the shadowing document looks up its attribute's value. */
  lemma ShadowingAttr()
    ensures Lookup(BuildRoot(ShadowingDocument()), "attr") == Success(Value(Some("attr"), "test"))
  {
    var o := ShadowingDocument();
    var ts, ns := Tags(o.children), Names(o.attributes);
    assert SameKey(ns[1], "attr");
    KeyDiffers("attr", "item", 0);
    assert !SameKey(ts[0], "attr") && !SameKey(ts[1], "attr");
    assert !SameKey(ns[0], "attr");
    LookupAttributeEntry(o, Some(o.tag), "attr");
  }

  /** `<root><value>string</value></root>`, looked up as `VALUE` */
  lemma KeyCaseIgnored()
    ensures Lookup(BuildRoot(Parent("root", [Leaf("value", "string")])), "VALUE")
         == Success(Value(Some("value"), "string"))
  {
    var r := Parent("root", [Leaf("value", "string")]);
    assert SameKey("value", "VALUE");
    LookupIgnoresCase(BuildRoot(r), "value", "VALUE");
    assert SameKey(Tags(r.children)[0], "value");
    LookupGroupEntry(r, Some(r.tag), "value");
  }

  /** A `load` that yields `root` for `text`: the markup parser accepting the test's document. */
  predicate Loads(load: string -> Result<Element, XmlError>, text: string, root: Element)
  {
    load(text) == Success(root)
  }

  /** Null and a single space give no tree, whatever the markup parser would say. */
  lemma NullOrWhiteSpaceGivesNoTree(load: string -> Result<Element, XmlError>)
    ensures Parse(None, None, load) == Absent
    ensures Parse(Some(" "), None, load) == Absent
  {
  }

  /** `<StringValue>{value}</StringValue>`, for the empty value as for any other */
  lemma SingleValue(value: string, load: string -> Result<Element, XmlError>)
    requires Loads(load, "<StringValue>" + value + "</StringValue>", Leaf("StringValue", value))
    ensures Parse(Some("<StringValue>" + value + "</StringValue>"), None, load)
         == Parsed(Value(Some("StringValue"), value))
  {
    var text := "<StringValue>" + value + "</StringValue>";
    assert text[0] == '<' && !IsWhiteSpace(text[0]);
  }

  /** `wrong file format` is rejected by the markup parser, and its diagnostic is the result. */
  lemma WrongFormatIsMalformed(load: string -> Result<Element, XmlError>)
    requires load("wrong file format").Failure?
    ensures Parse(Some("wrong file format"), None, load) == Malformed(load("wrong file format").error)
  {
    assert "wrong file format"[0] == 'w' && !IsWhiteSpace('w');
  }

  /** `<object key1='val1' key2='val2' />` parsed with the root name `overriden` */
  lemma OverriddenRootName(load: string -> Result<Element, XmlError>)
    requires Loads(load, "<object key1='val1' key2='val2' />", AttributesOnly())
    ensures var r := Parse(Some("<object key1='val1' key2='val2' />"), Some("overriden"), load);
      && r.Parsed?
      && r.root.name == Some("overriden")
      && Lookup(r.root, "key1") == Success(Value(Some("key1"), "val1"))
      && Lookup(r.root, "key2") == Success(Value(Some("key2"), "val2"))
  {
    var text := "<object key1='val1' key2='val2' />";
    assert text[0] == '<' && !IsWhiteSpace(text[0]);
    ObjectFromAttributes();
    BuildRenamesOnlyRoot(AttributesOnly(), Some("object"), Some("overriden"));
  }
}
