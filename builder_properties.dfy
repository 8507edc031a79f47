/**
 * What the tree builder guarantees: the shape of every tree it builds, what a
 * lookup of any key in a built object returns, the order of the entries, and
 * the effect of naming the root.
 */
module BuilderProperties {
  import opened Wrappers
  import opened Keys
  import opened Markup
  import opened SettingsTree
  import opened TreeBuilder

  /**
   * The group heads are the first child of each key, in order of first
   * occurrence, and they have exactly the keys of the children.
   */
  lemma GroupHeadsSpec(e: Element)
    ensures forall i | 0 <= i < |GroupHeads(e)| ::
      && IndexOfKey(Tags(e.children), GroupHeads(e)[i].tag) < |e.children|
      && e.children[IndexOfKey(Tags(e.children), GroupHeads(e)[i].tag)] == GroupHeads(e)[i]
    ensures forall i, j | 0 <= i < j < |GroupHeads(e)| ::
      IndexOfKey(Tags(e.children), GroupHeads(e)[i].tag) < IndexOfKey(Tags(e.children), GroupHeads(e)[j].tag)
    ensures forall x :: HasKey(Tags(e.children), x) <==> HasKey(Tags(GroupHeads(e)), x)
  {
    forall i | 0 <= i < |GroupHeads(e)|
      ensures IndexOfKey(Tags(e.children), GroupHeads(e)[i].tag) < |e.children|
      ensures e.children[IndexOfKey(Tags(e.children), GroupHeads(e)[i].tag)] == GroupHeads(e)[i]
    {
      GroupHeadAt(e, i);
    }
    forall i, j | 0 <= i < j < |GroupHeads(e)|
      ensures IndexOfKey(Tags(e.children), GroupHeads(e)[i].tag) < IndexOfKey(Tags(e.children), GroupHeads(e)[j].tag)
    {
      FirstOfEachKeyOrderedAt(e.children, TagOf, [], i, j);
    }
    forall x ensures HasKey(Tags(e.children), x) <==> HasKey(Tags(GroupHeads(e)), x) {
      GroupHeadsHaveKey(e, x);
    }
  }

  /** The group head at `i` is the first child with its tag. */
  lemma GroupHeadAt(e: Element, i: nat)
    requires i < |GroupHeads(e)|
    ensures IndexOfKey(Tags(e.children), GroupHeads(e)[i].tag) < |e.children|
    ensures e.children[IndexOfKey(Tags(e.children), GroupHeads(e)[i].tag)] == GroupHeads(e)[i]
  {
    FirstOfEachKeyIsFirstAt(e.children, TagOf, [], i);
  }

  /** A key is some child's tag exactly when it is some group head's tag. */
  lemma GroupHeadsHaveKey(e: Element, x: string)
    ensures HasKey(Tags(e.children), x) <==> HasKey(Tags(GroupHeads(e)), x)
  {
    var cs, heads := e.children, GroupHeads(e);
    var ts, hs := Tags(cs), Tags(heads);
    if HasKey(ts, x) {
      var j :| 0 <= j < |ts| && SameKey(ts[j], x);
      FirstOfEachKeyCovers(cs, TagOf, []);
      assert HasKey(hs, cs[j].tag);
      HasSameKey(hs, cs[j].tag, x);
    }
    if HasKey(hs, x) {
      var i :| 0 <= i < |hs| && SameKey(hs[i], x);
      GroupHeadAt(e, i);
      var j := IndexOfKey(ts, heads[i].tag);
      assert ts[j] == heads[i].tag;
    }
  }

  /**
   * The kept attributes are the first attribute of each name that no group
   * shadows, in declaration order, and every attribute that no group shadows
   * has its name among them.
   */
  lemma KeptAttributesSpec(e: Element)
    ensures forall i | 0 <= i < |KeptAttributes(e)| ::
      && !HasKey(Tags(GroupHeads(e)), KeptAttributes(e)[i].name)
      && IndexOfKey(Names(e.attributes), KeptAttributes(e)[i].name) < |e.attributes|
      && e.attributes[IndexOfKey(Names(e.attributes), KeptAttributes(e)[i].name)] == KeptAttributes(e)[i]
    ensures forall i, j | 0 <= i < j < |KeptAttributes(e)| ::
      IndexOfKey(Names(e.attributes), KeptAttributes(e)[i].name) < IndexOfKey(Names(e.attributes), KeptAttributes(e)[j].name)
    ensures forall j | 0 <= j < |e.attributes| && !HasKey(Tags(GroupHeads(e)), e.attributes[j].name) ::
      HasKey(Names(KeptAttributes(e)), e.attributes[j].name)
  {
    var taken := Tags(GroupHeads(e));
    FirstOfEachKeyNotTaken(e.attributes, NameOf, taken);
    FirstOfEachKeyIsFirst(e.attributes, NameOf, taken);
    FirstOfEachKeyOrdered(e.attributes, NameOf, taken);
    FirstOfEachKeyCovers(e.attributes, NameOf, taken);
  }

  /** The entries of a built object: one per group, then one per kept attribute. */
  lemma BuildEntries(e: Element, name: Option<string>)
    requires e.attributes != [] || e.children != []
    ensures |Build(e, name).entries| == |GroupHeads(e)| + |KeptAttributes(e)|
    ensures forall i | 0 <= i < |GroupHeads(e)| ::
      Build(e, name).entries[i] == GroupNode(e, GroupHeads(e)[i].tag)
    ensures forall i | 0 <= i < |KeptAttributes(e)| ::
      Build(e, name).entries[|GroupHeads(e)| + i] == AttributeNode(KeptAttributes(e)[i])
  {
  }

  /** The keys of a built object's entries, in order: the group keys, then the kept attribute names. */
  function EntryKeys(e: Element): seq<string>
  {
    Tags(GroupHeads(e)) + Names(KeptAttributes(e))
  }

  /** The entry keys are pairwise different keys. */
  lemma EntryKeysDistinct(e: Element)
    ensures forall i, j | 0 <= i < j < |EntryKeys(e)| :: !SameKey(EntryKeys(e)[i], EntryKeys(e)[j])
  {
    forall i, j | 0 <= i < j < |EntryKeys(e)| ensures !SameKey(EntryKeys(e)[i], EntryKeys(e)[j]) {
      EntryKeysDistinctAt(e, i, j);
    }
  }

  /**
   * The entry keys at `i` and `j` differ: two groups are found at different
   * first occurrences, so are two kept attributes, and no kept attribute has
   * a group's key.
   */
  lemma EntryKeysDistinctAt(e: Element, i: nat, j: nat)
    requires i < j < |EntryKeys(e)|
    ensures !SameKey(EntryKeys(e)[i], EntryKeys(e)[j])
  {
    var heads, attrs := GroupHeads(e), KeptAttributes(e);
    var ks, g, hs := EntryKeys(e), |heads|, Tags(heads);
    if j < g {
      FirstOfEachKeyOrderedAt(e.children, TagOf, [], i, j);
      assert ks[i] == heads[i].tag && ks[j] == heads[j].tag;
      DistinctByIndex(Tags(e.children), heads[i].tag, heads[j].tag);
    } else if i < g {
      assert ks[i] == hs[i] && ks[j] == attrs[j - g].name;
      assert !HasKey(hs, attrs[j - g].name);
    } else {
      FirstOfEachKeyOrderedAt(e.attributes, NameOf, hs, i - g, j - g);
      assert ks[i] == attrs[i - g].name && ks[j] == attrs[j - g].name;
      DistinctByIndex(Names(e.attributes), attrs[i - g].name, attrs[j - g].name);
    }
  }

  /** The entries of a built object are named by the entry keys. */
  lemma BuildEntryNames(e: Element, name: Option<string>)
    requires e.attributes != [] || e.children != []
    ensures |Build(e, name).entries| == |EntryKeys(e)|
    ensures forall i | 0 <= i < |EntryKeys(e)| :: Build(e, name).entries[i].name == Some(EntryKeys(e)[i])
  {
    BuildEntries(e, name);
    var g := |GroupHeads(e)|;
    forall i | 0 <= i < |EntryKeys(e)| ensures Build(e, name).entries[i].name == Some(EntryKeys(e)[i]) {
      if i < g {
        assert EntryKeys(e)[i] == Tags(GroupHeads(e))[i] == GroupHeads(e)[i].tag;
      } else {
        assert EntryKeys(e)[i] == Names(KeptAttributes(e))[i - g] == KeptAttributes(e)[i - g].name;
      }
    }
  }

  /** No two entries of a built object share a key: groups are distinct, kept attributes are distinct, and no kept attribute is a group's key. */
  lemma BuildKeysDistinct(e: Element, name: Option<string>)
    requires e.attributes != [] || e.children != []
    ensures DistinctKeys(Build(e, name).entries)
  {
    BuildEntryNames(e, name);
    EntryKeysDistinct(e);
  }

  /**
   * Every tree the builder produces is well formed: object keys are unique
   * ignoring case, object entries are named, array items are not.
   */
  lemma {:induction false} BuildWellFormed(e: Element, name: Option<string>)
    ensures WellFormed(Build(e, name))
    decreases e, 1
  {
    if e.attributes != [] || e.children != [] {
      var es := Build(e, name).entries;
      var heads := GroupHeads(e);
      BuildEntries(e, name);
      BuildKeysDistinct(e, name);
      forall i | 0 <= i < |es| ensures es[i].name.Some? && WellFormed(es[i]) {
        if i < |heads| {
          GroupNodeWellFormed(e, heads[i].tag);
        }
      }
    }
  }

  lemma {:induction false} GroupNodeWellFormed(e: Element, k: string)
    ensures WellFormed(GroupNode(e, k))
    decreases e, 0
  {
    var ms := Members(e.children, k);
    if |ms| == 1 {
      BuildWellFormed(ms[0], Some(k));
    } else {
      forall i | 0 <= i < |ms| ensures WellFormed(Build(ms[i], None)) {
        BuildWellFormed(ms[i], None);
      }
    }
  }

  /** The position of the group of `k` among the entries of a built object. */
  lemma GroupPosition(e: Element, k: string) returns (h: nat)
    requires HasKey(Tags(e.children), k)
    ensures h < |GroupHeads(e)| && SameKey(GroupHeads(e)[h].tag, k)
    ensures forall i | 0 <= i < h :: !SameKey(GroupHeads(e)[i].tag, k)
  {
    var heads := GroupHeads(e);
    var ts, hs := Tags(e.children), Tags(heads);
    GroupHeadsSpec(e);
    h :| 0 <= h < |hs| && SameKey(hs[h], k);
    forall i | 0 <= i < h ensures !SameKey(heads[i].tag, k) {
      DistinctByIndex(ts, heads[i].tag, heads[h].tag);
    }
  }

  /** The group of a key that is a child's tag is named by its first member's tag: the tag of its group head. */
  lemma GroupOfHead(e: Element, h: nat, k: string)
    requires h < |GroupHeads(e)| && SameKey(GroupHeads(e)[h].tag, k)
    ensures Members(e.children, GroupHeads(e)[h].tag) == Members(e.children, k)
    ensures |Members(e.children, k)| > 0 && Members(e.children, k)[0].tag == GroupHeads(e)[h].tag
  {
    var cs, t := e.children, GroupHeads(e)[h].tag;
    GroupHeadsSpec(e);
    MembersStart(cs, k);
    MembersIgnoreCase(cs, t, k);
    IndexOfSameKey(Tags(cs), t, k);
    assert Tags(cs)[IndexOfKey(Tags(cs), t)] == t;
  }

  /**
   * A key that is some child element's tag looks up that tag's group, even
   * when an attribute has the same name. A group of one element gives that
   * element built on its own; a larger group gives an Array of its members,
   * each built on its own, in document order. Either is named by the first
   * member's tag.
   */
  lemma LookupGroupEntry(e: Element, name: Option<string>, k: string)
    requires HasKey(Tags(e.children), k)
    ensures |Members(e.children, k)| > 0
    ensures Lookup(Build(e, name), k).Success?
    ensures |Members(e.children, k)| == 1 ==>
      Lookup(Build(e, name), k).value == Build(Members(e.children, k)[0], Some(Members(e.children, k)[0].tag))
    ensures |Members(e.children, k)| >= 2 ==>
      && Lookup(Build(e, name), k).value.Array?
      && Lookup(Build(e, name), k).value.name == Some(Members(e.children, k)[0].tag)
      && |Lookup(Build(e, name), k).value.items| == |Members(e.children, k)|
      && forall i | 0 <= i < |Members(e.children, k)| ::
           Lookup(Build(e, name), k).value.items[i] == Build(Members(e.children, k)[i], None)
  {
    var h := GroupPosition(e, k);
    GroupOfHead(e, h, k);
    var r := Build(e, name);
    BuildEntries(e, name);
    LookupFirstMatch(r, k, h);
  }

  /** A key that is no child's tag is the key of no group. */
  lemma NoGroupOf(e: Element, k: string)
    requires !HasKey(Tags(e.children), k)
    ensures forall i | 0 <= i < |GroupHeads(e)| :: !SameKey(GroupHeads(e)[i].tag, k)
  {
    var ts, heads := Tags(e.children), GroupHeads(e);
    forall i | 0 <= i < |heads| ensures !SameKey(heads[i].tag, k) {
      GroupHeadAt(e, i);
      assert ts[IndexOfKey(ts, heads[i].tag)] == heads[i].tag;
      HasSameKey(ts, heads[i].tag, k);
    }
  }

  /** The kept attribute at `p` is the first attribute with its name, and no group has that name. */
  lemma KeptAttributeAt(e: Element, p: nat)
    requires p < |KeptAttributes(e)|
    ensures !HasKey(Tags(GroupHeads(e)), KeptAttributes(e)[p].name)
    ensures IndexOfKey(Names(e.attributes), KeptAttributes(e)[p].name) < |e.attributes|
    ensures e.attributes[IndexOfKey(Names(e.attributes), KeptAttributes(e)[p].name)] == KeptAttributes(e)[p]
  {
    FirstOfEachKeyIsFirstAt(e.attributes, NameOf, Tags(GroupHeads(e)), p);
  }

  /** The position of the kept attribute for a key that is no child's tag but an attribute's name. */
  lemma AttributePosition(e: Element, k: string) returns (p: nat)
    requires !HasKey(Tags(e.children), k) && HasKey(Names(e.attributes), k)
    ensures p < |KeptAttributes(e)| && SameKey(KeptAttributes(e)[p].name, k)
    ensures KeptAttributes(e)[p] == e.attributes[IndexOfKey(Names(e.attributes), k)]
    ensures forall i | 0 <= i < p :: !SameKey(KeptAttributes(e)[i].name, k)
  {
    var attrs, ns, hs := KeptAttributes(e), Names(e.attributes), Tags(GroupHeads(e));
    GroupHeadsSpec(e);
    KeptAttributesSpec(e);
    var a := e.attributes[IndexOfKey(ns, k)];
    HasSameKey(hs, a.name, k);
    var kn := Names(attrs);
    p :| 0 <= p < |kn| && SameKey(kn[p], a.name);
    IndexOfSameKey(ns, attrs[p].name, k);
    forall i | 0 <= i < p ensures !SameKey(attrs[i].name, k) {
      DistinctByIndex(ns, attrs[i].name, attrs[p].name);
    }
  }

  /**
   * A key that is no child element's tag but an attribute's name looks up a
   * Value holding the first such attribute's value, named by that attribute.
   */
  lemma LookupAttributeEntry(e: Element, name: Option<string>, k: string)
    requires !HasKey(Tags(e.children), k) && HasKey(Names(e.attributes), k)
    ensures Lookup(Build(e, name), k)
         == Success(Value(Some(e.attributes[IndexOfKey(Names(e.attributes), k)].name),
                          e.attributes[IndexOfKey(Names(e.attributes), k)].value))
  {
    NoGroupOf(e, k);
    var p := AttributePosition(e, k);
    EntriesBeforeAttribute(e, name, k, p);
    LookupFirstMatch(Build(e, name), k, |GroupHeads(e)| + p);
  }

  /**
   * When no group has key `k` and the kept attribute at `p` is the first with
   * that key, its entry is the first entry of the built object matching `k`.
   */
  lemma EntriesBeforeAttribute(e: Element, name: Option<string>, k: string, p: nat)
    requires p < |KeptAttributes(e)| && SameKey(KeptAttributes(e)[p].name, k)
    requires forall i | 0 <= i < |GroupHeads(e)| :: !SameKey(GroupHeads(e)[i].tag, k)
    requires forall i | 0 <= i < p :: !SameKey(KeptAttributes(e)[i].name, k)
    ensures Build(e, name).Object? && |GroupHeads(e)| + p < |Build(e, name).entries|
    ensures Build(e, name).entries[|GroupHeads(e)| + p] == AttributeNode(KeptAttributes(e)[p])
    ensures Matches(Build(e, name).entries[|GroupHeads(e)| + p], k)
    ensures forall i | 0 <= i < |GroupHeads(e)| + p :: !Matches(Build(e, name).entries[i], k)
  {
    assert e.attributes != [];
    var g := |GroupHeads(e)|;
    var r := Build(e, name);
    BuildEntries(e, name);
    forall i | 0 <= i < g + p ensures !Matches(r.entries[i], k) {
      if i >= g {
        assert r.entries[i] == AttributeNode(KeptAttributes(e)[i - g]);
      }
    }
  }

  /**
   * A key that is neither a child element's tag nor an attribute's name is
   * not found in a built object; a built Value has no keys at all.
   */
  lemma LookupMissingKey(e: Element, name: Option<string>, k: string)
    requires !HasKey(Tags(e.children), k) && !HasKey(Names(e.attributes), k)
    ensures Lookup(Build(e, name), k)
         == Failure(if e.attributes == [] && e.children == [] then NotObjectKind else KeyNotFound)
  {
    if e.attributes != [] || e.children != [] {
      var attrs, ns := KeptAttributes(e), Names(e.attributes);
      var g := |GroupHeads(e)|;
      NoGroupOf(e, k);
      var r := Build(e, name);
      BuildEntries(e, name);
      forall i | 0 <= i < |r.entries| ensures !Matches(r.entries[i], k) {
        if i >= g {
          var a := attrs[i - g];
          assert r.entries[i] == AttributeNode(a);
          KeptAttributeAt(e, i - g);
          assert ns[IndexOfKey(ns, a.name)] == a.name;
          HasSameKey(ns, a.name, k);
        }
      }
    }
  }

  /**
   * Within a built object, the entries of child-element groups follow the
   * first occurrences of their tags in the document, and the entries of
   * attributes follow the attributes' declaration order. (Where attribute
   * entries stand relative to group entries is not part of the contract.)
   */
  lemma EntriesInDocumentOrder(e: Element, name: Option<string>, i: nat, j: nat)
    requires e.attributes != [] || e.children != []
    requires i < j < |Build(e, name).entries|
    ensures var ki, kj, ts := Build(e, name).entries[i].name.value, Build(e, name).entries[j].name.value, Tags(e.children);
      HasKey(ts, ki) && HasKey(ts, kj) ==> IndexOfKey(ts, ki) < IndexOfKey(ts, kj)
    ensures var ki, kj, ts := Build(e, name).entries[i].name.value, Build(e, name).entries[j].name.value, Tags(e.children);
      !HasKey(ts, ki) && !HasKey(ts, kj) ==>
        IndexOfKey(Names(e.attributes), ki) < IndexOfKey(Names(e.attributes), kj)
  {
    var heads, attrs := GroupHeads(e), KeptAttributes(e);
    var g, ts, hs := |heads|, Tags(e.children), Tags(heads);
    BuildEntryNames(e, name);
    GroupHeadsSpec(e);
    KeptAttributesSpec(e);
    var ks := EntryKeys(e);
    if j < g {
      assert ks[i] == hs[i] && ks[j] == hs[j];
    } else if i < g {
      assert ks[i] == hs[i] && ks[j] == attrs[j - g].name;
      assert !HasKey(hs, ks[j]);
    } else {
      assert ks[i] == attrs[i - g].name && ks[j] == attrs[j - g].name;
    }
  }

  /**
   * An element with no attributes and a single child element is an Object
   * with exactly that child's entry; the child is never lifted in its place.
   */
  lemma SingleChildStaysObject(e: Element, name: Option<string>)
    requires e.attributes == [] && |e.children| == 1
    ensures Build(e, name) == Object(name, [Build(e.children[0], Some(e.children[0].tag))])
  {
    var c := e.children[0];
    assert Tags(e.children)[0] == c.tag;
    assert Members(e.children, c.tag) == [c];
    FirstOfEachKeyUnfold(e.children, TagOf, []);
    assert e.children[1..] == [];
    assert GroupHeads(e) == [c];
    assert KeptAttributes(e) == [];
  }

  /** Building under another name renames the node and changes nothing below it. */
  lemma BuildRenamesOnlyRoot(e: Element, n1: Option<string>, n2: Option<string>)
    ensures Build(e, n2) == WithName(Build(e, n1), n2)
  {
  }

  /**
   * Naming the root only renames the root: parsing with a root name gives
   * what parsing without one gives, with the root node renamed.
   */
  lemma ParseRootOverride(text: Option<string>, rootName: string, load: string -> Result<Element, XmlError>)
    ensures Parse(text, Some(rootName), load)
         == match Parse(text, None, load)
            case Parsed(root) => Parsed(WithName(root, Some(rootName)))
            case other => other
  {
    if !IsNullOrWhiteSpace(text) && load(text.value).Success? {
      var root := load(text.value).value;
      BuildRenamesOnlyRoot(root, Some(root.tag), Some(rootName));
    }
  }
}
