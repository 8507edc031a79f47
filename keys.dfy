/**
 * Case-insensitive keys.
 *
 * Object entries, child-element groups and attributes are all compared by
 * name ignoring case. Folding maps the ASCII upper-case letters to lower case;
 * every other character is its own fold.
 */
module Keys {

  function Fold(c: char): char
  {
    if 'A' <= c <= 'Z' then (c as int - 'A' as int + 'a' as int) as char else c
  }

  function Lower(s: string): string
  {
    seq(|s|, i requires 0 <= i < |s| => Fold(s[i]))
  }

  /** Two keys are the same key when they are equal after folding case. */
  predicate SameKey(a: string, b: string)
  {
    Lower(a) == Lower(b)
  }

  /** Some key of `ks` is the same key as `k`. */
  predicate HasKey(ks: seq<string>, k: string)
  {
    exists i | 0 <= i < |ks| :: SameKey(ks[i], k)
  }

  /** The position of the first key of `ks` that is the same key as `k`, or |ks| when there is none. */
  function IndexOfKey(ks: seq<string>, k: string): (j: nat)
    ensures j <= |ks|
    ensures j < |ks| ==> SameKey(ks[j], k)
    ensures forall i | 0 <= i < j :: !SameKey(ks[i], k)
    ensures j < |ks| <==> HasKey(ks, k)
  {
    if ks == [] then 0
    else if SameKey(ks[0], k) then 0
    else 1 + IndexOfKey(ks[1..], k)
  }

  /** The keys of a sequence of items, in order. */
  function KeysOf<T>(xs: seq<T>, key: T -> string): (ks: seq<string>)
    ensures |ks| == |xs| && forall i | 0 <= i < |xs| :: ks[i] == key(xs[i])
  {
    seq(|xs|, i requires 0 <= i < |xs| => key(xs[i]))
  }

  /**
   * The items of `xs` whose key is neither among `taken` nor the key of an
   * earlier item of `xs`: the first item of each key, in order.
   */
  function FirstOfEachKey<T>(xs: seq<T>, key: T -> string, taken: seq<string>): (r: seq<T>)
    ensures |r| <= |xs|
  {
    if xs == [] then []
    else
      (if HasKey(taken, key(xs[0])) then [] else [xs[0]])
      + FirstOfEachKey(xs[1..], key, taken + [key(xs[0])])
  }

  lemma HasKeyAppend(ks: seq<string>, x: string, k: string)
    ensures HasKey(ks + [x], k) <==> HasKey(ks, k) || SameKey(x, k)
  {
    if HasKey(ks + [x], k) {
      var i :| 0 <= i < |ks| + 1 && SameKey((ks + [x])[i], k);
      if i < |ks| { assert SameKey(ks[i], k); }
    }
    if HasKey(ks, k) {
      var i :| 0 <= i < |ks| && SameKey(ks[i], k);
      assert (ks + [x])[i] == ks[i];
    }
    if SameKey(x, k) {
      assert (ks + [x])[|ks|] == x;
    }
  }

  /** Having a key is insensitive to the case it is written in. */
  lemma HasSameKey(ks: seq<string>, a: string, b: string)
    ensures HasKey(ks, a) && SameKey(a, b) ==> HasKey(ks, b)
  {
    if HasKey(ks, a) && SameKey(a, b) {
      var t :| 0 <= t < |ks| && SameKey(ks[t], a);
      assert SameKey(ks[t], b);
    }
  }

  /** Keys that are the same key are found at the same place. */
  lemma IndexOfSameKey(ks: seq<string>, a: string, b: string)
    requires SameKey(a, b)
    ensures IndexOfKey(ks, a) == IndexOfKey(ks, b)
  {
  }

  /** Keys found at different places are different keys. */
  lemma DistinctByIndex(ks: seq<string>, a: string, b: string)
    ensures IndexOfKey(ks, a) != IndexOfKey(ks, b) ==> !SameKey(a, b)
  {
    if SameKey(a, b) {
      IndexOfSameKey(ks, a, b);
    }
  }

  lemma KeysOfTail<T>(xs: seq<T>, key: T -> string)
    requires xs != []
    ensures KeysOf(xs, key) == [key(xs[0])] + KeysOf(xs[1..], key)
  {
  }

  /** Past a first item whose key differs from `k`, the first index of `k` moves up by one. */
  lemma IndexPastHead<T>(xs: seq<T>, key: T -> string, k: string)
    requires xs != [] && !SameKey(key(xs[0]), k)
    ensures IndexOfKey(KeysOf(xs, key), k) == 1 + IndexOfKey(KeysOf(xs[1..], key), k)
  {
    KeysOfTail(xs, key);
    assert KeysOf(xs, key)[1..] == KeysOf(xs[1..], key);
  }

  /** The split of FirstOfEachKey into what it keeps of the first item and of the rest. */
  lemma FirstOfEachKeyUnfold<T>(xs: seq<T>, key: T -> string, taken: seq<string>)
    requires xs != []
    ensures FirstOfEachKey(xs, key, taken)
         == (if HasKey(taken, key(xs[0])) then [] else [xs[0]]) + FirstOfEachKey(xs[1..], key, taken + [key(xs[0])])
  {
  }

  /** No kept item has a taken key. */
  lemma {:induction false} FirstOfEachKeyNotTaken<T>(xs: seq<T>, key: T -> string, taken: seq<string>)
    ensures forall i | 0 <= i < |FirstOfEachKey(xs, key, taken)| ::
      !HasKey(taken, key(FirstOfEachKey(xs, key, taken)[i]))
  {
    if xs != [] {
      var taken' := taken + [key(xs[0])];
      FirstOfEachKeyNotTaken(xs[1..], key, taken');
      var rr := FirstOfEachKey(xs[1..], key, taken');
      forall i | 0 <= i < |rr| ensures !HasKey(taken, key(rr[i])) {
        HasKeyAppend(taken, key(xs[0]), key(rr[i]));
      }
    }
  }

  /** Whether FirstOfEachKey keeps the first item of `xs`: 1 when it does, 0 when its key is taken. */
  function HeadKept<T>(xs: seq<T>, key: T -> string, taken: seq<string>): nat
    requires xs != []
  {
    if HasKey(taken, key(xs[0])) then 0 else 1
  }

  /**
   * The kept item at `i` is the first item of `xs` when that one is kept and
   * `i` is 0, and otherwise an item kept from the rest of `xs`.
   */
  lemma FirstOfEachKeyAt<T>(xs: seq<T>, key: T -> string, taken: seq<string>, i: nat)
    requires i < |FirstOfEachKey(xs, key, taken)|
    ensures xs != []
    ensures i < HeadKept(xs, key, taken) ==> FirstOfEachKey(xs, key, taken)[i] == xs[0]
    ensures i >= HeadKept(xs, key, taken) ==>
      && i - HeadKept(xs, key, taken) < |FirstOfEachKey(xs[1..], key, taken + [key(xs[0])])|
      && FirstOfEachKey(xs, key, taken)[i]
         == FirstOfEachKey(xs[1..], key, taken + [key(xs[0])])[i - HeadKept(xs, key, taken)]
  {
    FirstOfEachKeyUnfold(xs, key, taken);
  }

  /** The first item of `xs` is found at position 0 by its own key. */
  lemma IndexOfHead<T>(xs: seq<T>, key: T -> string)
    requires xs != []
    ensures IndexOfKey(KeysOf(xs, key), key(xs[0])) == 0
  {
    assert KeysOf(xs, key)[0] == key(xs[0]);
  }

  /** The kept item at `i` does not have a taken key. */
  lemma {:induction false} FirstOfEachKeyNotTakenAt<T>(xs: seq<T>, key: T -> string, taken: seq<string>, i: nat)
    requires i < |FirstOfEachKey(xs, key, taken)|
    ensures !HasKey(taken, key(FirstOfEachKey(xs, key, taken)[i]))
  {
    FirstOfEachKeyAt(xs, key, taken, i);
    var h := HeadKept(xs, key, taken);
    if i >= h {
      var taken' := taken + [key(xs[0])];
      var y := FirstOfEachKey(xs[1..], key, taken')[i - h];
      FirstOfEachKeyNotTakenAt(xs[1..], key, taken', i - h);
      HasKeyAppend(taken, key(xs[0]), key(y));
    }
  }

  /**
   * An item kept from the rest of `xs` has a key other than the first item's,
   * so it is found one place further on in `xs` than in the rest.
   */
  lemma KeptFromRest<T>(xs: seq<T>, key: T -> string, taken: seq<string>, i: nat)
    requires xs != [] && i < |FirstOfEachKey(xs[1..], key, taken + [key(xs[0])])|
    ensures !SameKey(key(xs[0]), key(FirstOfEachKey(xs[1..], key, taken + [key(xs[0])])[i]))
    ensures IndexOfKey(KeysOf(xs, key), key(FirstOfEachKey(xs[1..], key, taken + [key(xs[0])])[i]))
         == 1 + IndexOfKey(KeysOf(xs[1..], key), key(FirstOfEachKey(xs[1..], key, taken + [key(xs[0])])[i]))
  {
    var taken' := taken + [key(xs[0])];
    var y := FirstOfEachKey(xs[1..], key, taken')[i];
    FirstOfEachKeyNotTakenAt(xs[1..], key, taken', i);
    HasKeyAppend(taken, key(xs[0]), key(y));
    IndexPastHead(xs, key, key(y));
  }

  /** The kept item at `i` is the first item of `xs` with its key. */
  lemma {:induction false} FirstOfEachKeyIsFirstAt<T>(xs: seq<T>, key: T -> string, taken: seq<string>, i: nat)
    requires i < |FirstOfEachKey(xs, key, taken)|
    ensures IndexOfKey(KeysOf(xs, key), key(FirstOfEachKey(xs, key, taken)[i])) < |xs|
    ensures xs[IndexOfKey(KeysOf(xs, key), key(FirstOfEachKey(xs, key, taken)[i]))] == FirstOfEachKey(xs, key, taken)[i]
  {
    FirstOfEachKeyAt(xs, key, taken, i);
    var h := HeadKept(xs, key, taken);
    if i < h {
      IndexOfHead(xs, key);
    } else {
      var taken' := taken + [key(xs[0])];
      var y := FirstOfEachKey(xs[1..], key, taken')[i - h];
      FirstOfEachKeyIsFirstAt(xs[1..], key, taken', i - h);
      KeptFromRest(xs, key, taken, i - h);
      var n := IndexOfKey(KeysOf(xs[1..], key), key(y));
      assert xs[1 + n] == xs[1..][n];
    }
  }

  /** Each kept item is the first item of `xs` with its key. */
  lemma FirstOfEachKeyIsFirst<T>(xs: seq<T>, key: T -> string, taken: seq<string>)
    ensures forall i | 0 <= i < |FirstOfEachKey(xs, key, taken)| ::
      var k := key(FirstOfEachKey(xs, key, taken)[i]);
      IndexOfKey(KeysOf(xs, key), k) < |xs| && xs[IndexOfKey(KeysOf(xs, key), k)] == FirstOfEachKey(xs, key, taken)[i]
  {
    forall i | 0 <= i < |FirstOfEachKey(xs, key, taken)|
      ensures IndexOfKey(KeysOf(xs, key), key(FirstOfEachKey(xs, key, taken)[i])) < |xs|
      ensures xs[IndexOfKey(KeysOf(xs, key), key(FirstOfEachKey(xs, key, taken)[i]))] == FirstOfEachKey(xs, key, taken)[i]
    {
      FirstOfEachKeyIsFirstAt(xs, key, taken, i);
    }
  }

  /** Two items kept from the rest of `xs` keep their order when found in all of `xs`. */
  lemma KeptFromRestOrdered<T>(xs: seq<T>, key: T -> string, taken: seq<string>, i: nat, j: nat)
    requires xs != [] && i < j < |FirstOfEachKey(xs[1..], key, taken + [key(xs[0])])|
    requires IndexOfKey(KeysOf(xs[1..], key), key(FirstOfEachKey(xs[1..], key, taken + [key(xs[0])])[i]))
           < IndexOfKey(KeysOf(xs[1..], key), key(FirstOfEachKey(xs[1..], key, taken + [key(xs[0])])[j]))
    ensures IndexOfKey(KeysOf(xs, key), key(FirstOfEachKey(xs[1..], key, taken + [key(xs[0])])[i]))
          < IndexOfKey(KeysOf(xs, key), key(FirstOfEachKey(xs[1..], key, taken + [key(xs[0])])[j]))
  {
    KeptFromRest(xs, key, taken, i);
    KeptFromRest(xs, key, taken, j);
  }

  /** The kept items at `i` and `j` appear in the order of their first occurrences. */
  lemma {:induction false} FirstOfEachKeyOrderedAt<T>(xs: seq<T>, key: T -> string, taken: seq<string>, i: nat, j: nat)
    requires i < j < |FirstOfEachKey(xs, key, taken)|
    ensures IndexOfKey(KeysOf(xs, key), key(FirstOfEachKey(xs, key, taken)[i]))
          < IndexOfKey(KeysOf(xs, key), key(FirstOfEachKey(xs, key, taken)[j]))
  {
    FirstOfEachKeyAt(xs, key, taken, i);
    FirstOfEachKeyAt(xs, key, taken, j);
    var h := HeadKept(xs, key, taken);
    var ks, rr := KeysOf(xs, key), FirstOfEachKey(xs[1..], key, taken + [key(xs[0])]);
    var x, y := FirstOfEachKey(xs, key, taken)[i], FirstOfEachKey(xs, key, taken)[j];
    assert y == rr[j - h];
    if i < h {
      assert x == xs[0];
      IndexOfHead(xs, key);
      KeptFromRest(xs, key, taken, j - h);
      assert IndexOfKey(ks, key(x)) == 0 < IndexOfKey(ks, key(y));
    } else {
      assert x == rr[i - h];
      FirstOfEachKeyOrderedAt(xs[1..], key, taken + [key(xs[0])], i - h, j - h);
      KeptFromRestOrdered(xs, key, taken, i - h, j - h);
      assert IndexOfKey(ks, key(x)) < IndexOfKey(ks, key(y));
    }
  }

  /** The kept items appear in the order of their first occurrence. */
  lemma FirstOfEachKeyOrdered<T>(xs: seq<T>, key: T -> string, taken: seq<string>)
    ensures forall i, j | 0 <= i < j < |FirstOfEachKey(xs, key, taken)| ::
      IndexOfKey(KeysOf(xs, key), key(FirstOfEachKey(xs, key, taken)[i]))
      < IndexOfKey(KeysOf(xs, key), key(FirstOfEachKey(xs, key, taken)[j]))
  {
    forall i, j | 0 <= i < j < |FirstOfEachKey(xs, key, taken)|
      ensures IndexOfKey(KeysOf(xs, key), key(FirstOfEachKey(xs, key, taken)[i]))
            < IndexOfKey(KeysOf(xs, key), key(FirstOfEachKey(xs, key, taken)[j]))
    {
      FirstOfEachKeyOrderedAt(xs, key, taken, i, j);
    }
  }

  /** Every key of `xs` that is not taken is the key of some kept item. */
  lemma {:induction false} FirstOfEachKeyCovers<T>(xs: seq<T>, key: T -> string, taken: seq<string>)
    ensures forall j | 0 <= j < |xs| && !HasKey(taken, key(xs[j])) ::
      HasKey(KeysOf(FirstOfEachKey(xs, key, taken), key), key(xs[j]))
  {
    if xs != [] {
      var x := xs[0];
      var taken' := taken + [key(x)];
      FirstOfEachKeyCovers(xs[1..], key, taken');
      var rr := FirstOfEachKey(xs[1..], key, taken');
      var head := if HasKey(taken, key(x)) then [] else [x];
      FirstOfEachKeyUnfold(xs, key, taken);
      var r := head + rr;
      var rks, rrks := KeysOf(r, key), KeysOf(rr, key);
      forall j | 0 <= j < |xs| && !HasKey(taken, key(xs[j]))
        ensures HasKey(rks, key(xs[j]))
      {
        if j == 0 {
          assert rks[0] == key(x);
        } else {
          assert xs[j] == xs[1..][j - 1];
          HasKeyAppend(taken, key(x), key(xs[j]));
          if SameKey(key(x), key(xs[j])) {
            HasSameKey(taken, key(x), key(xs[j]));
            assert rks[0] == key(x);
          } else {
            var t :| 0 <= t < |rrks| && SameKey(rrks[t], key(xs[j]));
            assert rks[t + |head|] == rrks[t];
          }
        }
      }
    }
  }
}
