/** What the tree of an object has when keys are repeated: each key once, in the order in which the keys occur first,
    with the value that comes last. */
module ObjectMeaning {
  import opened Bytes
  import opened JsonDocument
  import opened DeserializerSpec
  import opened Reading
  import DeserializerProof

  /** The keys and values of an object, entry by entry. */
  function PairsOf(entries: Entries): seq<Pair> {
    [Pair(BodyMeaning(entries.key), Meaning(entries.value))]
    + (if entries.MoreEntries? then PairsOf(entries.rest) else [])
  }

  /** p is the last of the pairs with its key. */
  ghost predicate IsLast(pairs: seq<Pair>, p: Pair) {
    exists n :: 0 <= n < |pairs| && pairs[n] == p && NotAfter(pairs, n, p.key)
  }

  predicate NotAfter(pairs: seq<Pair>, n: int, key: bytes) {
    forall m :: n < m < |pairs| ==> 0 <= m && pairs[m].key != key
  }

  /** The key a occurs before b does. */
  ghost predicate Earlier(pairs: seq<Pair>, a: bytes, b: bytes) {
    exists n :: 0 <= n < |pairs| && pairs[n].key == a && NotUpTo(pairs, n, b)
  }

  predicate NotUpTo(pairs: seq<Pair>, n: int, key: bytes) {
    forall m :: 0 <= m <= n && m < |pairs| ==> pairs[m].key != key
  }

  predicate HasKey(pairs: seq<Pair>, key: bytes) {
    exists n :: 0 <= n < |pairs| && pairs[n].key == key
  }

  /** The map that assigning the pairs one after the other makes. */
  ghost predicate IsMapOf(tree: seq<Pair>, pairs: seq<Pair>) {
    && (forall i, j :: 0 <= i < j < |tree| ==> tree[i].key != tree[j].key)
    && (forall n :: 0 <= n < |pairs| ==> HasKey(tree, pairs[n].key))
    && (forall i :: 0 <= i < |tree| ==> IsLast(pairs, tree[i]))
    && (forall i, j :: 0 <= i < j < |tree| ==> Earlier(pairs, tree[i].key, tree[j].key))
  }

  // ----- There is only one such map -----

  lemma LastIsOne(pairs: seq<Pair>, p: Pair, q: Pair)
    requires IsLast(pairs, p) && IsLast(pairs, q) && p.key == q.key
    ensures p == q
  {
    var n :| 0 <= n < |pairs| && pairs[n] == p && NotAfter(pairs, n, p.key);
    var m :| 0 <= m < |pairs| && pairs[m] == q && NotAfter(pairs, m, q.key);
    assert pairs[n].key == pairs[m].key;
  }

  lemma EarlierOneWay(pairs: seq<Pair>, a: bytes, b: bytes)
    requires Earlier(pairs, a, b)
    ensures !Earlier(pairs, b, a)
  {
  }

  lemma KeyIsThere(t: seq<Pair>, u: seq<Pair>, pairs: seq<Pair>, i: nat)
    requires IsMapOf(t, pairs) && IsMapOf(u, pairs) && i < |t|
    ensures HasKey(u, t[i].key)
  {
    assert IsLast(pairs, t[i]);
    var n :| 0 <= n < |pairs| && pairs[n] == t[i] && NotAfter(pairs, n, t[i].key);
    assert HasKey(u, pairs[n].key);
  }

  lemma {:induction false} SameKeys(t: seq<Pair>, u: seq<Pair>, pairs: seq<Pair>, i: nat)
    requires IsMapOf(t, pairs) && IsMapOf(u, pairs) && i < |t|
    ensures i < |u| && t[i] == u[i]
    decreases i
  {
    hide IsLast, Earlier;
    forall k | 0 <= k < i
      ensures k < |u| && t[k] == u[k]
    {
      SameKeys(t, u, pairs, k);
    }
    KeyIsThere(t, u, pairs, i);
    var j :| 0 <= j < |u| && u[j].key == t[i].key;
    assert j >= i;
    if j > i {
      KeyIsThere(u, t, pairs, i);
      var k :| 0 <= k < |t| && t[k].key == u[i].key;
      assert Earlier(pairs, u[i].key, u[j].key);
      assert k > i;
      assert Earlier(pairs, t[i].key, t[k].key);
      EarlierOneWay(pairs, t[i].key, u[i].key);
      assert false;
    }
    LastIsOne(pairs, t[i], u[i]);
  }

  /** The pairs determine the map. */
  lemma MapIsOne(t: seq<Pair>, u: seq<Pair>, pairs: seq<Pair>)
    requires IsMapOf(t, pairs) && IsMapOf(u, pairs)
    ensures t == u
  {
    hide IsMapOf;
    forall i | 0 <= i < |t|
      ensures i < |u| && t[i] == u[i]
    {
      SameKeys(t, u, pairs, i);
    }
    if |t| < |u| {
      SameKeys(u, t, pairs, |t|);
    }
    if |u| < |t| {
      SameKeys(t, u, pairs, |u|);
    }
  }

  // ----- The deserializer makes it -----

  /** An assignment changes the value at its key, or adds the pair at the end. */
  lemma {:induction false} PutIs(tree: seq<Pair>, key: bytes, value: Tree)
    ensures var t := PutAt(tree, key, value);
            if HasKey(tree, key) then
              |t| == |tree| && exists i :: 0 <= i < |tree| && tree[i].key == key && t == tree[i := Pair(key, value)]
            else t == tree + [Pair(key, value)]
    decreases |tree|
  {
    if tree != [] {
      var rest := tree[1..];
      PutIs(rest, key, value);
      if tree[0].key == key {
        assert PutAt(tree, key, value) == tree[0 := Pair(key, value)];
      } else if HasKey(tree, key) {
        var n :| 0 <= n < |tree| && tree[n].key == key;
        assert rest[n - 1].key == key;
        var i :| 0 <= i < |rest| && rest[i].key == key && PutAt(rest, key, value) == rest[i := Pair(key, value)];
        assert tree[i + 1].key == key;
        assert PutAt(tree, key, value) == tree[i + 1 := Pair(key, value)];
      } else {
        assert forall n :: 0 <= n < |rest| ==> rest[n] == tree[n + 1];
      }
    }
  }

  lemma LastAfter(pairs: seq<Pair>, p: Pair, q: Pair)
    requires q == p || (IsLast(pairs, q) && q.key != p.key)
    ensures IsLast(pairs + [p], q)
  {
    var more := pairs + [p];
    if q == p {
      assert more[|pairs|] == q && NotAfter(more, |pairs|, q.key);
    } else {
      var n :| 0 <= n < |pairs| && pairs[n] == q && NotAfter(pairs, n, q.key);
      assert more[n] == q && NotAfter(more, n, q.key);
    }
  }

  lemma EarlierAfter(pairs: seq<Pair>, p: Pair, a: bytes, b: bytes)
    requires Earlier(pairs, a, b)
    ensures Earlier(pairs + [p], a, b)
  {
    var more := pairs + [p];
    var n :| 0 <= n < |pairs| && pairs[n].key == a && NotUpTo(pairs, n, b);
    assert more[n].key == a && NotUpTo(more, n, b);
  }

  lemma EarlierThanNew(pairs: seq<Pair>, a: bytes, b: bytes)
    requires HasKey(pairs, a) && !HasKey(pairs, b)
    ensures Earlier(pairs, a, b)
  {
    var n :| 0 <= n < |pairs| && pairs[n].key == a;
    assert NotUpTo(pairs, n, b);
  }

  /** Where the key is: the tree has the keys of the pairs. */
  lemma KeysAgree(tree: seq<Pair>, pairs: seq<Pair>, key: bytes)
    requires IsMapOf(tree, pairs)
    ensures HasKey(tree, key) <==> HasKey(pairs, key)
  {
    if HasKey(tree, key) {
      var i :| 0 <= i < |tree| && tree[i].key == key;
      assert IsLast(pairs, tree[i]);
    }
  }

  lemma PutMakesMap(tree: seq<Pair>, pairs: seq<Pair>, p: Pair)
    requires IsMapOf(tree, pairs)
    ensures IsMapOf(PutAt(tree, p.key, p.value), pairs + [p])
  {
    hide PutAt, IsLast, Earlier, HasKey;
    KeysAgree(tree, pairs, p.key);
    PutIs(tree, p.key, p.value);
    if HasKey(tree, p.key) {
      var i :| 0 <= i < |tree| && tree[i].key == p.key && PutAt(tree, p.key, p.value) == tree[i := p];
      Overwritten(tree, pairs, p, i);
    } else {
      Added(tree, pairs, p);
    }
  }

  lemma HasKeyAt(pairs: seq<Pair>, i: nat)
    requires i < |pairs|
    ensures HasKey(pairs, pairs[i].key)
  {
  }

  lemma KeysStay(tree: seq<Pair>, t: seq<Pair>, key: bytes)
    requires |tree| <= |t| && HasKey(tree, key) && forall k :: 0 <= k < |tree| ==> t[k].key == tree[k].key
    ensures HasKey(t, key)
  {
    var n :| 0 <= n < |tree| && tree[n].key == key;
    assert t[n].key == key;
  }

  lemma Overwritten(tree: seq<Pair>, pairs: seq<Pair>, p: Pair, i: nat)
    requires IsMapOf(tree, pairs) && i < |tree| && tree[i].key == p.key
    ensures IsMapOf(tree[i := p], pairs + [p])
  {
    hide IsLast, Earlier, HasKey;
    var t, more := tree[i := p], pairs + [p];
    forall n | 0 <= n < |more|
      ensures HasKey(t, more[n].key)
    {
      if n == |pairs| {
        HasKeyAt(t, i);
      } else {
        KeysStay(tree, t, pairs[n].key);
      }
    }
    forall k | 0 <= k < |t|
      ensures IsLast(more, t[k])
    {
      LastAfter(pairs, p, t[k]);
    }
    forall k, j | 0 <= k < j < |t|
      ensures Earlier(more, t[k].key, t[j].key)
    {
      assert Earlier(pairs, tree[k].key, tree[j].key);
      EarlierAfter(pairs, p, t[k].key, t[j].key);
    }
  }

  lemma Added(tree: seq<Pair>, pairs: seq<Pair>, p: Pair)
    requires IsMapOf(tree, pairs) && !HasKey(tree, p.key) && !HasKey(pairs, p.key)
    ensures IsMapOf(tree + [p], pairs + [p])
  {
    hide IsLast, Earlier, HasKey;
    var t, more := tree + [p], pairs + [p];
    forall k | 0 <= k < |tree|
      ensures t[k] == tree[k] && t[k].key != p.key
    {
      HasKeyAt(tree, k);
    }
    forall n | 0 <= n < |more|
      ensures HasKey(t, more[n].key)
    {
      if n == |pairs| {
        HasKeyAt(t, |tree|);
      } else {
        KeysStay(tree, t, pairs[n].key);
      }
    }
    forall k | 0 <= k < |t|
      ensures IsLast(more, t[k])
    {
      LastAfter(pairs, p, t[k]);
    }
    forall k, j | 0 <= k < j < |t|
      ensures Earlier(more, t[k].key, t[j].key)
    {
      if j == |tree| {
        KeysAgree(tree, pairs, tree[k].key);
        HasKeyAt(tree, k);
        EarlierThanNew(pairs, t[k].key, p.key);
      } else {
        assert Earlier(pairs, tree[k].key, tree[j].key);
      }
      EarlierAfter(pairs, p, t[k].key, t[j].key);
    }
  }

  lemma {:induction false} EntriesMakeMap(entries: Entries, done: seq<Pair>, pairs: seq<Pair>)
    requires IsMapOf(done, pairs)
    ensures IsMapOf(EntriesMeaning(entries, done), pairs + PairsOf(entries))
    decreases entries
  {
    hide IsMapOf, PutAt, Meaning, BodyMeaning;
    var p := Pair(BodyMeaning(entries.key), Meaning(entries.value));
    PutMakesMap(done, pairs, p);
    if entries.MoreEntries? {
      EntriesMakeMap(entries.rest, PutAt(done, p.key, p.value), pairs + [p]);
      assert (pairs + [p]) + PairsOf(entries.rest) == pairs + ([p] + PairsOf(entries.rest));
    } else {
      assert PairsOf(entries) == [p];
    }
  }

  /** The tree of an object is the map of its entries, and no other sequence of pairs is. */
  lemma ObjectIsMap(entries: Entries, tree: seq<Pair>)
    ensures Meaning(DObject(entries)) == Map(tree) <==> IsMapOf(tree, PairsOf(entries))
  {
    hide IsMapOf, PairsOf, EntriesMeaning;
    NoPairs();
    EntriesMakeMap(entries, [], []);
    assert [] + PairsOf(entries) == PairsOf(entries);
    if IsMapOf(tree, PairsOf(entries)) {
      MapIsOne(tree, EntriesMeaning(entries, []), PairsOf(entries));
    }
  }

  lemma NoPairs()
    ensures IsMapOf([], [])
  {
  }

  /** And so where the deserializer reads an object: the tree has each key once, in the order of first occurrence, with
      the value of the last entry of that key. */
  lemma ReadsObject(data: bytes, i: nat)
    requires i <= |data| && Value(data, i).Parsed? && DocAt(data, i).Found? && DocAt(data, i).doc.DObject?
    ensures Value(data, i).tree.Map? && IsMapOf(Value(data, i).tree.entries, PairsOf(DocAt(data, i).doc.entries))
  {
    hide IsMapOf, PairsOf, EntriesMeaning, Value, DocAt, Readable, BodyMeaning;
    DeserializerProof.ValueMeans(data, i);
    var entries := DocAt(data, i).doc.entries;
    ObjectIsMap(entries, EntriesMeaning(entries, []));
  }
}
