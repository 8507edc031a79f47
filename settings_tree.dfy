/**
 * The settings tree: the generic, immutable node structure that every
 * configuration-format parser produces and that configuration consumers read
 * through key lookup, child iteration and value access.
 */
module SettingsTree {
  import opened Wrappers
  import opened Keys

  /**
   * A node of the tree. Every node may carry a name: the key it is stored
   * under in its parent object, or the name given to the root. The entries of
   * an Object are keyed by their own names; the items of an Array are unnamed
   * occurrences of the array's key.
   */
  datatype Node =
    | Value(name: Option<string>, value: string)
    | Object(name: Option<string>, entries: seq<Node>)
    | Array(name: Option<string>, items: seq<Node>)

  /** The ways an accessor can fail on a node of the wrong kind or a missing key. */
  datatype TreeError = NotObjectKind | KeyNotFound | NotCollectionKind | NotValueKind

  /** A node is stored under `key` when its name is the same key, case ignored. */
  predicate Matches(n: Node, key: string)
  {
    n.name.Some? && SameKey(n.name.value, key)
  }

  /** The first entry stored under `key`. */
  function Find(entries: seq<Node>, key: string): (r: Option<Node>)
    ensures r.None? <==> forall i | 0 <= i < |entries| :: !Matches(entries[i], key)
    ensures r.Some? ==> r.value in entries && Matches(r.value, key)
    ensures forall i | 0 <= i < |entries| && Matches(entries[i], key) ::
              (forall j | 0 <= j < i :: !Matches(entries[j], key)) ==> r == Some(entries[i])
  {
    if entries == [] then None
    else if Matches(entries[0], key) then Some(entries[0])
    else
      assert forall i | 1 <= i < |entries| :: entries[i] == entries[1..][i - 1];
      Find(entries[1..], key)
  }

  /** The indexer: case-insensitive lookup of an entry of an Object node. */
  function Lookup(n: Node, key: string): (r: Result<Node, TreeError>)
    ensures r.Success? <==> n.Object? && exists i | 0 <= i < |n.entries| :: Matches(n.entries[i], key)
    ensures r.Success? ==> r.value in n.entries && Matches(r.value, key)
    ensures r.Failure? ==> r.error == if n.Object? then KeyNotFound else NotObjectKind
  {
    match n
    case Object(_, entries) =>
      (match Find(entries, key)
       case Some(child) => Success(child)
       case None => Failure(KeyNotFound))
    case _ => Failure(NotObjectKind)
  }

  /** The children of a collection node: an Object's entries or an Array's items, in order. */
  function Children(n: Node): (r: Result<seq<Node>, TreeError>)
    ensures r.Failure? <==> n.Value?
    ensures r.Failure? ==> r.error == NotCollectionKind
    ensures n.Object? ==> r == Success(n.entries)
    ensures n.Array? ==> r == Success(n.items)
  {
    match n
    case Value(_, _) => Failure(NotCollectionKind)
    case Object(_, entries) => Success(entries)
    case Array(_, items) => Success(items)
  }

  /** The payload of a Value node. */
  function GetValue(n: Node): (r: Result<string, TreeError>)
    ensures r.Success? <==> n.Value?
    ensures r.Success? ==> r.value == n.value
    ensures r.Failure? ==> r.error == NotValueKind
  {
    match n
    case Value(_, v) => Success(v)
    case _ => Failure(NotValueKind)
  }

  /** The same node under another name: what the node holds and every accessor except its name are unchanged. */
  function WithName(n: Node, name: Option<string>): (r: Node)
    ensures r.name == name
    ensures Children(r) == Children(n) && GetValue(r) == GetValue(n)
    ensures forall key :: Lookup(r, key) == Lookup(n, key)
  {
    match n
    case Value(_, v) => Value(name, v)
    case Object(_, entries) => Object(name, entries)
    case Array(_, items) => Array(name, items)
  }

  /** No two entries are stored under the same key. */
  predicate DistinctKeys(entries: seq<Node>)
  {
    forall i, j | 0 <= i < j < |entries| && entries[i].name.Some? :: !Matches(entries[j], entries[i].name.value)
  }

  /**
   * The shape every tree of the model keeps: object entries are named and
   * have distinct keys, array items are unnamed, all the way down.
   */
  predicate WellFormed(n: Node)
  {
    match n
    case Value(_, _) => true
    case Object(_, entries) =>
      && (forall i | 0 <= i < |entries| :: entries[i].name.Some? && WellFormed(entries[i]))
      && DistinctKeys(entries)
    case Array(_, items) =>
      forall i | 0 <= i < |items| :: items[i].name.None? && WellFormed(items[i])
  }

  /** Lookup does not depend on the case the key is written in. */
  lemma {:induction false} LookupIgnoresCase(n: Node, k1: string, k2: string)
    requires SameKey(k1, k2)
    ensures Lookup(n, k1) == Lookup(n, k2)
  {
    if n.Object? {
      FindIgnoresCase(n.entries, k1, k2);
    }
  }

  lemma {:induction false} FindIgnoresCase(entries: seq<Node>, k1: string, k2: string)
    requires SameKey(k1, k2)
    ensures Find(entries, k1) == Find(entries, k2)
  {
    if entries != [] {
      FindIgnoresCase(entries[1..], k1, k2);
    }
  }

  /** Lookup returns the first entry stored under the key. */
  lemma LookupFirstMatch(n: Node, key: string, i: nat)
    requires n.Object? && i < |n.entries| && Matches(n.entries[i], key)
    requires forall j | 0 <= j < i :: !Matches(n.entries[j], key)
    ensures Lookup(n, key) == Success(n.entries[i])
  {
  }

  /** In a well-formed object every entry is what a lookup of its own key returns. */
  lemma LookupFindsEveryEntry(n: Node, i: nat)
    requires WellFormed(n) && n.Object? && i < |n.entries|
    ensures Lookup(n, n.entries[i].name.value) == Success(n.entries[i])
  {
    var es, k := n.entries, n.entries[i].name.value;
    assert Matches(es[i], k);
  }
}
