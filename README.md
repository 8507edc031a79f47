# XML settings-tree builder

This project models the XML source of the Vostok configuration library:
`XmlConfigurationParser.Parse`, which turns an XML document into a
settings tree. Configuration consumers read that tree through one interface
that every format parser shares: an indexer that looks up keys ignoring case,
`Children`, `Value` and `Name`.

The model has three parts.

- **The settings tree** (`settings_tree.dfy`). A `Node` is a `Value` holding a
  string, an `Object` holding named entries, or an `Array` holding unnamed
  items. Every node may carry a name. An object entry's key is the entry's own
  name, and keys are compared ignoring case (`keys.dfy`). `Lookup` is the
  indexer. `Children`, `GetValue` and `WithName` are the other accessors.
  `WellFormed` is the shape every built tree keeps.
- **The markup element** (`markup.dfy`). This is the already-parsed element
  tree that the builder walks: a tag, attributes in declaration order, child
  elements in document order, and inner text. `Members` gives the group of one
  key: the children whose tag is that key, ignoring case.
- **The builder** (`tree_builder.dfy`). `Build(e, name)` decides each node's
  kind from the element's shape:
  - an element with no attributes and no children becomes a `Value` holding
    its inner text;
  - any other element becomes an `Object`;
  - a child tag that occurs once becomes that child, built recursively;
  - a child tag that occurs two or more times becomes one `Array` entry whose
    items are the occurrences, built recursively, in document order;
  - an attribute whose name is a child tag is dropped in favour of that tag's
    group;
  - every other attribute becomes a `Value` entry.

  `Parse` wraps `Build`. Null or blank text gives no tree. Text the markup
  parser rejects gives that parser's diagnostic. Otherwise the result is the
  root element built under the root name, if one is given, or else under its
  own tag.

`builder_properties.dfy` proves the builder's guarantees for every input:

- built trees are well formed, with unique keys ignoring case;
- what a lookup of any key returns: the child group, otherwise the attribute,
  otherwise not found;
- entries keep document order within groups and within attributes;
- a root name renames only the root.

`parser_cases.dfy` restates each case of the parser's test fixture over the
element tree of the document that the case parses.

The implementation file of the parser, `XmlConfigurationParser.cs`, is not
part of this model. The behaviour modelled is the one the fixture
`Vostok.Configuration.Sources.Xml.Tests/XmlConfigurationParser_Tests.cs`
pins. Where the fixture is silent, the model follows the node interface
that every format parser of the library produces (a case-insensitive
indexer, `Children`, `Value` and `Name`), and it states its own choice
under "Left out". Choices of
this kind:

- the names of array items;
- two attributes whose names differ only in case;
- the error kinds of the accessors.

## Model

| member | source | states |
|---|---|---|
| `Keys.IndexOfKey` | Vostok.Configuration.Sources.Xml.Tests/XmlConfigurationParser_Tests.cs:153-159 | The first position whose key is the same key ignoring case, or the length when there is none; it is below the length exactly when some key matches. |
| `Keys.FirstOfEachKey` | Vostok.Configuration.Sources.Xml.Tests/XmlConfigurationParser_Tests.cs:47-60 | The first-of-each-key selection never keeps more items than its input has. What it keeps is pinned by the four lemmas below: only first occurrences, of keys not taken, in order, with every free key covered. |
| `Keys.FirstOfEachKeyNotTaken` | Vostok.Configuration.Sources.Xml.Tests/XmlConfigurationParser_Tests.cs:137-151 | No item kept by the grouping has a key that is already taken (for attributes: the key of a child-element group). |
| `Keys.FirstOfEachKeyIsFirst` | Vostok.Configuration.Sources.Xml.Tests/XmlConfigurationParser_Tests.cs:47-60 | Each kept item is the first item in document order with its key. |
| `Keys.FirstOfEachKeyOrdered` | Vostok.Configuration.Sources.Xml.Tests/XmlConfigurationParser_Tests.cs:106-125 | The kept items appear in the order in which their keys first occur. |
| `Keys.FirstOfEachKeyCovers` | Vostok.Configuration.Sources.Xml.Tests/XmlConfigurationParser_Tests.cs:106-125 | Every key that is not taken is the key of some kept item, so no group or attribute is lost. |
| `SettingsTree.Find` | Vostok.Configuration.Sources.Xml.Tests/XmlConfigurationParser_Tests.cs:153-159 | Returns the first entry stored under the key ignoring case, and nothing exactly when no entry matches. |
| `SettingsTree.Lookup` | Vostok.Configuration.Sources.Xml.Tests/XmlConfigurationParser_Tests.cs:42-44 | The indexer succeeds exactly on an Object that has an entry under the key; the result is such an entry; otherwise it fails with KeyNotFound on an Object and NotObjectKind on any other node. |
| `SettingsTree.Children` | Vostok.Configuration.Sources.Xml.Tests/XmlConfigurationParser_Tests.cs:59 | An Object's entries or an Array's items in order; fails with NotCollectionKind exactly on a Value. |
| `SettingsTree.GetValue` | Vostok.Configuration.Sources.Xml.Tests/XmlConfigurationParser_Tests.cs:28 | A Value's payload; fails with NotValueKind exactly on the other kinds. |
| `SettingsTree.WithName` | Vostok.Configuration.Sources.Xml.Tests/XmlConfigurationParser_Tests.cs:168-176 | Renames a node while every lookup, its children and its value stay what they were. |
| `SettingsTree.LookupIgnoresCase` | Vostok.Configuration.Sources.Xml.Tests/XmlConfigurationParser_Tests.cs:153-159 | Two keys equal ignoring case look up the same result on any node. |
| `SettingsTree.LookupFindsEveryEntry` | Vostok.Configuration.Sources.Xml.Tests/XmlConfigurationParser_Tests.cs:31-45 | In a well-formed object, looking up an entry's own key returns that entry, so no entry is hidden by another. |
| `Markup.Members` | Vostok.Configuration.Sources.Xml.Tests/XmlConfigurationParser_Tests.cs:47-60 | The group of a key holds only children with that key ignoring case, and holds every such child. |
| `Markup.MembersAppend` | Vostok.Configuration.Sources.Xml.Tests/XmlConfigurationParser_Tests.cs:47-60 | The group of a concatenation is the group of the first part followed by the group of the second. With the one-element case, this fixes a group as the children with its key, each once, in document order. |
| `Markup.MembersStart` | Vostok.Configuration.Sources.Xml.Tests/XmlConfigurationParser_Tests.cs:47-60 | A group is non-empty exactly when some child has its key, and then it starts with the first such child. |
| `Markup.MembersIgnoreCase` | Vostok.Configuration.Sources.Xml.Tests/XmlConfigurationParser_Tests.cs:153-159 | Keys that are equal ignoring case have the same group. |
| `TreeBuilder.GroupHeads` | Vostok.Configuration.Sources.Xml.Tests/XmlConfigurationParser_Tests.cs:47-60 | There are never more groups than children, and there is at least one group exactly when the element has children. |
| `TreeBuilder.KeptAttributes` | Vostok.Configuration.Sources.Xml.Tests/XmlConfigurationParser_Tests.cs:137-151 | There are never more kept attributes than attributes, and no kept attribute's name is the key of a child-element group. |
| `TreeBuilder.IsNullOrWhiteSpace` | Vostok.Configuration.Sources.Xml.Tests/XmlConfigurationParser_Tests.cs:15-20 | Null, the empty string and every text made only of white-space characters (such as a single space) are blank, and a text holding any character outside the white-space set is not. |
| `TreeBuilder.Build` | Vostok.Configuration.Sources.Xml.Tests/XmlConfigurationParser_Tests.cs:22-29 | The node takes the given name. It is a Value exactly when the element has no attributes and no children, and the Value then holds the inner text, even when that text is empty. In every other case, an attributes-only element included, it is an Object whose entries are all named. |
| `TreeBuilder.GroupNode` | Vostok.Configuration.Sources.Xml.Tests/XmlConfigurationParser_Tests.cs:47-60 | A group's entry is named by the group's key. |
| `TreeBuilder.AttributeNode` | Vostok.Configuration.Sources.Xml.Tests/XmlConfigurationParser_Tests.cs:127-135 | An attribute's entry is a Value stored under the attribute's name. |
| `TreeBuilder.Parse` | Vostok.Configuration.Sources.Xml.Tests/XmlConfigurationParser_Tests.cs:15-20 | Absent exactly for null or white-space-only text. Malformed exactly when the markup parser rejects non-blank text, and it then carries the parser's diagnostic. Otherwise the root is named by the given root name, or else by the root tag, and it is the root element built under that name. |
| `BuilderProperties.GroupHeadsSpec` | Vostok.Configuration.Sources.Xml.Tests/XmlConfigurationParser_Tests.cs:106-125 | Groups are headed by the first child of each tag, in order of first occurrence, and they cover exactly the children's tags. |
| `BuilderProperties.KeptAttributesSpec` | Vostok.Configuration.Sources.Xml.Tests/XmlConfigurationParser_Tests.cs:137-151 | A kept attribute's name is no group's key, and the attribute is the first one with its name. Kept attributes stay in declaration order. Every attribute whose name no group takes has its name among them. |
| `BuilderProperties.EntryKeysDistinct` | Vostok.Configuration.Sources.Xml.Tests/XmlConfigurationParser_Tests.cs:137-151 | The keys of a built object are pairwise different ignoring case: group against group, attribute against attribute, and group against attribute. |
| `BuilderProperties.BuildKeysDistinct` | Vostok.Configuration.Sources.Xml.Tests/XmlConfigurationParser_Tests.cs:137-151 | No two entries of a built object share a key, so a shadowed attribute leaves no entry of its own. |
| `BuilderProperties.BuildWellFormed` | Vostok.Configuration.Sources.Xml.Tests/XmlConfigurationParser_Tests.cs:62-104 | Every built tree is well formed at every depth: object entries are named with unique keys, and array items are unnamed. |
| `BuilderProperties.GroupNodeWellFormed` | Vostok.Configuration.Sources.Xml.Tests/XmlConfigurationParser_Tests.cs:62-104 | Every group entry, whether it is a single child or an Array of built children, is well formed. |
| `BuilderProperties.LookupGroupEntry` | Vostok.Configuration.Sources.Xml.Tests/XmlConfigurationParser_Tests.cs:47-104 | A key that is a child's tag (even one an attribute also has) finds that tag's group. A group of one is the child built on its own. A group of two or more is an Array of the members built on their own, in document order. Either is named by the first member's tag. |
| `BuilderProperties.LookupAttributeEntry` | Vostok.Configuration.Sources.Xml.Tests/XmlConfigurationParser_Tests.cs:127-151 | A key that is no child's tag but an attribute's name finds a Value holding the first such attribute's value. |
| `BuilderProperties.LookupMissingKey` | Vostok.Configuration.Sources.Xml.Tests/XmlConfigurationParser_Tests.cs:127-151 | A key that is neither a child's tag nor an attribute's name is not found (KeyNotFound); a built Value answers NotObjectKind. |
| `BuilderProperties.EntriesInDocumentOrder` | Vostok.Configuration.Sources.Xml.Tests/XmlConfigurationParser_Tests.cs:106-125 | Group entries follow the first occurrences of their tags, and attribute entries follow the attributes' declaration order; the order between the two kinds is left open. |
| `BuilderProperties.SingleChildStaysObject` | Vostok.Configuration.Sources.Xml.Tests/XmlConfigurationParser_Tests.cs:62-81 | An element whose only content is one child element is an Object with exactly that child's entry; the child is never put in its place. |
| `BuilderProperties.BuildRenamesOnlyRoot` | Vostok.Configuration.Sources.Xml.Tests/XmlConfigurationParser_Tests.cs:168-176 | Building under another name gives the same tree with only the root renamed. |
| `BuilderProperties.ParseRootOverride` | Vostok.Configuration.Sources.Xml.Tests/XmlConfigurationParser_Tests.cs:168-176 | Parsing with a root name gives what parsing without one gives, with only the root renamed; absent and malformed outcomes are unchanged. |
| `ParserCases.NullOrWhiteSpaceGivesNoTree` | Vostok.Configuration.Sources.Xml.Tests/XmlConfigurationParser_Tests.cs:15-20 | Null and a single space give no tree. |
| `ParserCases.SingleValue` | Vostok.Configuration.Sources.Xml.Tests/XmlConfigurationParser_Tests.cs:22-29 | `<StringValue>v</StringValue>` gives a Value holding exactly v, for the empty v and for any other. |
| `ParserCases.ObjectFromSubelements` | Vostok.Configuration.Sources.Xml.Tests/XmlConfigurationParser_Tests.cs:31-45 | Distinct child tags become Value entries of an Object named after the root tag. |
| `ParserCases.ArrayFromSameKeys` | Vostok.Configuration.Sources.Xml.Tests/XmlConfigurationParser_Tests.cs:47-60 | Two children with one tag become one Array entry holding their texts in order. |
| `ParserCases.ArrayOfObjects` | Vostok.Configuration.Sources.Xml.Tests/XmlConfigurationParser_Tests.cs:62-81 | The items of an array are Objects with different keys, each built on its own. |
| `ParserCases.ArrayOfArrays` | Vostok.Configuration.Sources.Xml.Tests/XmlConfigurationParser_Tests.cs:83-104 | The items of an array hold Arrays of their own. |
| `ParserCases.ObjectWithChildrenOfDifferentTypes` | Vostok.Configuration.Sources.Xml.Tests/XmlConfigurationParser_Tests.cs:106-125 | One Object holds a Value entry, an Object entry and an Array entry side by side. |
| `ParserCases.ObjectFromAttributes` | Vostok.Configuration.Sources.Xml.Tests/XmlConfigurationParser_Tests.cs:127-135 | Attributes alone make an Object of Value entries. |
| `ParserCases.ShadowingGroupsAndAttributes` | Vostok.Configuration.Sources.Xml.Tests/XmlConfigurationParser_Tests.cs:137-151 | The shadowing document has one group (`item`) and keeps only the `attr` attribute. |
| `ParserCases.AttributeShadowedBySubelements` | Vostok.Configuration.Sources.Xml.Tests/XmlConfigurationParser_Tests.cs:137-151 | The `item` attribute gives way to the `item` Array, the `attr` attribute stays, and the object has exactly these two entries. |
| `ParserCases.KeyCaseIgnored` | Vostok.Configuration.Sources.Xml.Tests/XmlConfigurationParser_Tests.cs:153-159 | Looking up `VALUE` finds the `value` entry. |
| `ParserCases.WrongFormatIsMalformed` | Vostok.Configuration.Sources.Xml.Tests/XmlConfigurationParser_Tests.cs:161-166 | Text the markup parser rejects gives the Malformed outcome with the parser's diagnostic, and no tree. |
| `ParserCases.OverriddenRootName` | Vostok.Configuration.Sources.Xml.Tests/XmlConfigurationParser_Tests.cs:168-176 | With the root name `overriden`, the root is so named and its attribute entries are unchanged. |

## Left out

- Tokenising XML text and checking that it is well formed. This is System.Xml's work. It is the `load` parameter of `Parse`, a function from text to a root element or a diagnostic (`XmlError`: message, line, column). The model therefore says nothing about which texts are well formed. The fixture's cases assume `load` maps the test's document to the element tree written out beside it.
- How inner text is captured (whitespace, entities, CDATA, mixed content). The element's `text` is taken as the markup parser gives it.
- Namespaces, comments and processing instructions. Tags and attribute names are local names.
- Case folding beyond ASCII. `Keys.Fold` lowers only `A`-`Z`. .NET's ordinal case-insensitive comparison also folds non-ASCII letters, so two non-ASCII keys that differ only in case are different keys here.
- The order between attribute entries and group entries in one object. The model puts group entries first, but `BuilderProperties.EntriesInDocumentOrder` deliberately asserts only the order within each kind.
- The names of array items. The fixture never reads them, and the model leaves them unnamed: the key belongs to the array.
- Attributes whose names differ only in case. XML allows them, but they would collide as keys. The model keeps the first one and drops the later ones, just as a child group drops a same-named attribute.
- Accessor errors. The fixture only reads nodes that exist. `Lookup`, `Children` and `GetValue` fail with distinct error kinds where the library's indexer may instead answer null.
- Idempotence of parsing. `Parse` is a function, so parsing the same text twice gives equal trees by construction. No lemma states it.
- `System.Char.IsWhiteSpace` works on UTF-16 code units, and Dafny characters are Unicode scalar values. The white-space set in `TreeBuilder.IsWhiteSpace` is the same set of characters.
- The test harness (NUnit, FluentAssertions). Also file watching, the wiring of the source into the configuration pipeline, and the sibling JSON and INI parsers.
