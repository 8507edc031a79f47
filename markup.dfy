/**
 * An already-parsed markup document: the element tree handed to the tree
 * builder by the markup parser.
 */
module Markup {
  import opened Keys

  /** An attribute as declared on an element: its local name and literal value. */
  datatype Attribute = Attribute(name: string, value: string)

  /** An element: its local tag name, attributes and child elements in document order, and its inner text. */
  datatype Element = Element(tag: string, attributes: seq<Attribute>, children: seq<Element>, text: string)

  /** The diagnostic of a markup parser that rejects a document: its message and where it stopped. */
  datatype XmlError = XmlError(message: string, line: nat, column: nat)

  function TagOf(e: Element): string { e.tag }

  function NameOf(a: Attribute): string { a.name }

  /** The tags of a sequence of elements, in document order. */
  function Tags(cs: seq<Element>): (ts: seq<string>)
    ensures |ts| == |cs| && forall i | 0 <= i < |cs| :: ts[i] == cs[i].tag
  {
    KeysOf(cs, TagOf)
  }

  /** The names of a sequence of attributes, in declaration order. */
  function Names(attrs: seq<Attribute>): (ns: seq<string>)
    ensures |ns| == |attrs| && forall i | 0 <= i < |attrs| :: ns[i] == attrs[i].name
  {
    KeysOf(attrs, NameOf)
  }

  /**
   * The group of `k`: the elements of `cs` whose tag is the same key as `k`,
   * in document order.
   */
  function Members(cs: seq<Element>, k: string): (ms: seq<Element>)
    ensures forall i | 0 <= i < |ms| :: ms[i] in cs && SameKey(ms[i].tag, k)
    ensures forall j | 0 <= j < |cs| && SameKey(cs[j].tag, k) :: cs[j] in ms
  {
    if cs == [] then []
    else (if SameKey(cs[0].tag, k) then [cs[0]] else []) + Members(cs[1..], k)
  }

  /**
   * A group is empty exactly when no element has its key, and otherwise its
   * first member is the first element with that key.
   */
  lemma {:induction false} MembersStart(cs: seq<Element>, k: string)
    ensures |Members(cs, k)| > 0 <==> HasKey(Tags(cs), k)
    ensures |Members(cs, k)| > 0 ==> Members(cs, k)[0] == cs[IndexOfKey(Tags(cs), k)]
  {
    if cs != [] {
      MembersStart(cs[1..], k);
      if SameKey(cs[0].tag, k) {
        assert SameKey(Tags(cs)[0], k);
      } else {
        KeyPastHead(cs, k);
        IndexPastHead(cs, TagOf, k);
        if HasKey(Tags(cs[1..]), k) {
          assert cs[1 + IndexOfKey(Tags(cs[1..]), k)] == cs[1..][IndexOfKey(Tags(cs[1..]), k)];
        }
      }
    }
  }

  /** Past a first element without key `k`, the rest has key `k` exactly when the whole does. */
  lemma KeyPastHead(cs: seq<Element>, k: string)
    requires cs != [] && !SameKey(cs[0].tag, k)
    ensures HasKey(Tags(cs), k) <==> HasKey(Tags(cs[1..]), k)
  {
    if HasKey(Tags(cs), k) {
      var t :| 0 <= t < |cs| && SameKey(Tags(cs)[t], k);
      assert Tags(cs[1..])[t - 1] == Tags(cs)[t];
    }
    if HasKey(Tags(cs[1..]), k) {
      var t :| 0 <= t < |cs| - 1 && SameKey(Tags(cs[1..])[t], k);
      assert Tags(cs)[t + 1] == Tags(cs[1..])[t];
    }
  }

  /** Groups are formed ignoring case: keys that are the same key have the same group. */
  lemma {:induction false} MembersIgnoreCase(cs: seq<Element>, k1: string, k2: string)
    requires SameKey(k1, k2)
    ensures Members(cs, k1) == Members(cs, k2)
  {
    if cs != [] {
      MembersIgnoreCase(cs[1..], k1, k2);
    }
  }

  /**
   * Groups are formed in document order: the group of a concatenation is the
   * group of the first part followed by the group of the second.
   */
  lemma {:induction false} MembersAppend(a: seq<Element>, b: seq<Element>, k: string)
    ensures Members(a + b, k) == Members(a, k) + Members(b, k)
  {
    if a != [] {
      MembersAppend(a[1..], b, k);
      var h := if SameKey(a[0].tag, k) then [a[0]] else [];
      TailOfConcat(a, b);
      assert Members(a + b, k) == h + (Members(a[1..], k) + Members(b, k));
      assert Members(a, k) == h + Members(a[1..], k);
      ConcatAssoc(h, Members(a[1..], k), Members(b, k));
    } else {
      assert a + b == b;
    }
  }

  lemma TailOfConcat<T>(a: seq<T>, b: seq<T>)
    requires a != []
    ensures (a + b)[0] == a[0] && (a + b)[1..] == a[1..] + b
  {
  }

  lemma ConcatAssoc<T>(x: seq<T>, y: seq<T>, z: seq<T>)
    ensures (x + y) + z == x + (y + z)
  {
  }

  /** A single element is its own group when it has key `k`, and in no group of `k` otherwise. */
  lemma MembersSingle(c: Element, k: string)
    ensures Members([c], k) == if SameKey(c.tag, k) then [c] else []
  {
    assert [c][1..] == [];
  }

  /** When every element has key `k`, the group of `k` is all of them. */
  lemma {:induction false} MembersAll(cs: seq<Element>, k: string)
    requires forall i | 0 <= i < |cs| :: SameKey(cs[i].tag, k)
    ensures Members(cs, k) == cs
  {
    if cs != [] {
      MembersAll(cs[1..], k);
    }
  }

  /** Leading elements without key `k` are in no group of `k`. */
  lemma {:induction false} MembersSkip(cs: seq<Element>, k: string, n: nat)
    requires n <= |cs|
    requires forall j | 0 <= j < n :: !SameKey(cs[j].tag, k)
    ensures Members(cs, k) == Members(cs[n..], k)
  {
    if n > 0 {
      MembersSkip(cs[1..], k, n - 1);
      assert cs[1..][n - 1..] == cs[n..];
    }
  }

  /** When only the element at `i` has key `k`, the group of `k` is that element alone. */
  lemma {:induction false} MembersOne(cs: seq<Element>, k: string, i: nat)
    requires i < |cs| && SameKey(cs[i].tag, k)
    requires forall j | 0 <= j < |cs| && j != i :: !SameKey(cs[j].tag, k)
    ensures Members(cs, k) == [cs[i]]
  {
    if i == 0 {
      MembersNone(cs[1..], k);
    } else {
      MembersOne(cs[1..], k, i - 1);
    }
  }

  /** When no element has key `k`, the group of `k` is empty. */
  lemma {:induction false} MembersNone(cs: seq<Element>, k: string)
    requires forall j | 0 <= j < |cs| :: !SameKey(cs[j].tag, k)
    ensures Members(cs, k) == []
  {
    if cs != [] {
      MembersNone(cs[1..], k);
    }
  }
}
