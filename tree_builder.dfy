/**
 * The tree builder: turns the root element of a parsed markup document into
 * a settings tree, inferring each node's kind from the element's shape.
 */
module TreeBuilder {
  import opened Wrappers
  import opened Keys
  import opened Markup
  import opened SettingsTree

  /** The first child of each group of `e`, in order of first occurrence. */
  function GroupHeads(e: Element): (r: seq<Element>)
    ensures |r| <= |e.children|
    ensures r == [] <==> e.children == []
  {
    if e.children == [] then []
    else
      FirstOfEachKeyUnfold(e.children, TagOf, []);
      FirstOfEachKey(e.children, TagOf, [])
  }

  /**
   * The attributes of `e` that become entries: those whose name is not the
   * key of a child-element group (the group shadows them) and not the name of
   * an earlier attribute, in declaration order.
   */
  function KeptAttributes(e: Element): (r: seq<Attribute>)
    ensures |r| <= |e.attributes|
    ensures forall i | 0 <= i < |r| :: !HasKey(Tags(GroupHeads(e)), r[i].name)
  {
    FirstOfEachKeyNotTaken(e.attributes, NameOf, Tags(GroupHeads(e)));
    FirstOfEachKey(e.attributes, NameOf, Tags(GroupHeads(e)))
  }

  /** The entry of an attribute: a Value named by the attribute, holding its literal value. */
  function AttributeNode(a: Attribute): (r: Node)
    ensures r.Value? && Matches(r, a.name)
  {
    Value(Some(a.name), a.value)
  }

  /**
   * Builds one element into a node called `name`. An element without
   * attributes and child elements becomes a Value holding its inner text;
   * any other element becomes an Object with one entry per child-element
   * group followed by one entry per kept attribute.
   */
  function Build(e: Element, name: Option<string>): (r: Node)
    ensures r.name == name
    ensures r.Value? <==> e.attributes == [] && e.children == []
    ensures r.Value? ==> r.value == e.text
    ensures !r.Value? ==> r.Object? && forall i | 0 <= i < |r.entries| :: r.entries[i].name.Some?
    decreases e, 1
  {
    if e.attributes == [] && e.children == [] then Value(name, e.text)
    else
      var heads, attrs := GroupHeads(e), KeptAttributes(e);
      Object(name,
        seq(|heads|, i requires 0 <= i < |heads| => GroupNode(e, heads[i].tag))
        + seq(|attrs|, i requires 0 <= i < |attrs| => AttributeNode(attrs[i])))
  }

  /**
   * The entry for the group of child elements of `e` with key `k`, named `k`:
   * a group of one element is that element built on its own; a larger group
   * is an Array of its members, each built on its own, in document order.
   */
  function GroupNode(e: Element, k: string): (r: Node)
    ensures r.name == Some(k)
    decreases e, 0
  {
    var ms := Members(e.children, k);
    if |ms| == 1 then Build(ms[0], Some(k))
    else Array(Some(k), seq(|ms|, i requires 0 <= i < |ms| => Build(ms[i], None)))
  }

  /** The characters that System.Char.IsWhiteSpace accepts: the Unicode separators and the white-space controls. */
  predicate IsWhiteSpace(c: char)
  {
    var n := c as int;
    || 0x09 <= n <= 0x0D || n == 0x20 || n == 0x85 || n == 0xA0 || n == 0x1680
    || 0x2000 <= n <= 0x200A || n == 0x2028 || n == 0x2029 || n == 0x202F || n == 0x205F || n == 0x3000
  }

  /** The input is absent, empty or made of white space only. */
  function IsNullOrWhiteSpace(text: Option<string>): (b: bool)
    ensures text == None || text == Some("") ==> b
    ensures text.Some? && (forall i | 0 <= i < |text.value| :: IsWhiteSpace(text.value[i])) ==> b
    ensures text.Some? && (exists i | 0 <= i < |text.value| :: !IsWhiteSpace(text.value[i])) ==> !b
  {
    match text
    case None => true
    case Some(s) => forall i | 0 <= i < |s| :: IsWhiteSpace(s[i])
  }

  /** What parsing a document gives: no tree, the root of a tree, or the markup parser's diagnostic. */
  datatype ParseOutcome = Absent | Parsed(root: Node) | Malformed(error: XmlError)

  /**
   * Parses `text` into a settings tree. Blank or absent text gives no tree.
   * Otherwise `load`, the markup parser, either rejects the text, and its
   * diagnostic is the result, or yields the root element, which is built into
   * a node named `rootName` when one is given and by its own tag otherwise.
   */
  function Parse(text: Option<string>, rootName: Option<string>, load: string -> Result<Element, XmlError>): (r: ParseOutcome)
    ensures r.Absent? <==> IsNullOrWhiteSpace(text)
    ensures r.Malformed? <==> !IsNullOrWhiteSpace(text) && load(text.value).Failure?
    ensures r.Malformed? ==> r.error == load(text.value).error
    ensures r.Parsed? ==> load(text.value).Success?
    ensures r.Parsed? ==> r.root.name == if rootName.Some? then rootName else Some(load(text.value).value.tag)
    ensures r.Parsed? ==> r.root == Build(load(text.value).value, r.root.name)
  {
    if IsNullOrWhiteSpace(text) then Absent
    else
      match load(text.value)
      case Failure(err) => Malformed(err)
      case Success(root) =>
        Parsed(Build(root, if rootName.Some? then rootName else Some(root.tag)))
  }
}
