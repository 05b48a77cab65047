/**
 The least-recently-used cache (`lru_cache` of src/lrucache.h): a list of key-value nodes, most recent first, and
 a map from each key to its node. Specified by operations on a plain sequence of pairs.
 */
module LruCaches {

  import opened Options
  import opened Sequences

  // ---------- Recency sequences ----------

  function Lookup<K(==), V>(c: seq<(K, V)>, k: K): Option<V> {
    if c == [] then None else if c[0].0 == k then Some(c[0].1) else Lookup(c[1..], k)
  }

  function Without<K(==), V>(c: seq<(K, V)>, k: K): seq<(K, V)> {
    if c == [] then [] else if c[0].0 == k then c[1..] else [c[0]] + Without(c[1..], k)
  }

  /** Drops the least recent pair of an overfull cache. */
  function Trim<T>(c: seq<T>, maxSize: nat): seq<T> {
    if |c| > maxSize then c[..|c| - 1] else c
  }

  datatype Op<K, V> = Put(key: K, val: V) | GetOrPut(key: K, val: V) | Get(key: K) | Drop(key: K)

  /** The cache after one operation. */
  function Apply<K(==), V>(c: seq<(K, V)>, op: Op<K, V>, maxSize: nat): seq<(K, V)> {
    match (op, Lookup(c, op.key))
    case (Drop(k), _) => Without(c, k)
    case (Get(k), None) => c
    case (Get(k), Some(v)) => [(k, v)] + Without(c, k)
    case (Put(k, v), None) => Trim([(k, v)] + c, maxSize)
    case (Put(k, v), Some(_)) => [(k, v)] + Without(c, k)
    case (GetOrPut(k, v), None) => Trim([(k, v)] + c, maxSize)
    case (GetOrPut(k, _), Some(v)) => [(k, v)] + Without(c, k)
  }

  function Run<K(==), V>(ops: seq<Op<K, V>>, maxSize: nat): seq<(K, V)> {
    if ops == [] then [] else Apply(Run(ops[..|ops| - 1], maxSize), ops[|ops| - 1], maxSize)
  }

  function Keys<K, V>(c: seq<(K, V)>): seq<K> {
    seq(|c|, i requires 0 <= i < |c| => c[i].0)
  }

  // ---------- The order of keys alone ----------

  function Remove<K(==)>(ks: seq<K>, k: K): seq<K> {
    if ks == [] then [] else if ks[0] == k then ks[1..] else [ks[0]] + Remove(ks[1..], k)
  }

  lemma {:induction false} RemoveAbsent<K>(ks: seq<K>, k: K)
    requires k !in ks
    ensures Remove(ks, k) == ks
  {
    if ks != [] {
      RemoveAbsent(ks[1..], k);
    }
  }

  lemma RemoveStep<K>(x: K, ks: seq<K>, k: K)
    ensures Remove([x] + ks, k) == if x == k then ks else [x] + Remove(ks, k)
    ensures k in [x] + ks <==> x == k || k in ks
  {
    assert ([x] + ks)[1..] == ks;
  }

  lemma {:induction false} RemoveFromConcat<K>(a: seq<K>, b: seq<K>, k: K)
    ensures Remove(a + b, k) == if k in a then Remove(a, k) + b else a + Remove(b, k)
  {
    hide Remove;
    if a == [] {
      assert a + b == b && a + Remove(b, k) == Remove(b, k);
    } else {
      var first, rest := a[0], a[1..];
      assert a == [first] + rest && a + b == [first] + (rest + b);
      RemoveStep(first, rest + b, k);
      RemoveStep(first, rest, k);
      RemoveFromConcat(rest, b, k);
      if first != k {
        if k in rest {
          assert [first] + (Remove(rest, k) + b) == [first] + Remove(rest, k) + b;
        } else {
          assert [first] + (rest + Remove(b, k)) == a + Remove(b, k);
        }
      }
    }
  }

  lemma {:induction false} RemoveLength<K>(ks: seq<K>, k: K)
    ensures |Remove(ks, k)| == if k in ks then |ks| - 1 else |ks|
  {
    if ks != [] {
      RemoveLength(ks[1..], k);
    }
  }

  /** What `put` and `getOrPut` do to the order of keys. */
  function Touch<K(==)>(ks: seq<K>, k: K, maxSize: nat): seq<K> {
    if k in ks then [k] + Remove(ks, k) else Trim([k] + ks, maxSize)
  }

  /** What `get` does to the order of keys. */
  function Fetch<K(==)>(ks: seq<K>, k: K): seq<K> {
    if k in ks then [k] + Remove(ks, k) else ks
  }

  lemma {:induction false} KeysOfWithout<K, V>(c: seq<(K, V)>, k: K)
    ensures Keys(Without(c, k)) == Remove(Keys(c), k)
    ensures Lookup(c, k).Some? <==> k in Keys(c)
  {
    if c != [] {
      KeysOfWithout(c[1..], k);
      assert Keys(c) == [c[0].0] + Keys(c[1..]);
    }
  }

  lemma KeysOfApply<K, V>(c: seq<(K, V)>, op: Op<K, V>, maxSize: nat)
    ensures Keys(Apply(c, op, maxSize))
            == match op
               case Drop(k) => Remove(Keys(c), k)
               case Get(k) => Fetch(Keys(c), k)
               case _ => Touch(Keys(c), op.key, maxSize)
  {
    KeysOfWithout(c, op.key);
    assert forall v :: Keys([(op.key, v)] + c) == [op.key] + Keys(c);
    assert forall v :: Keys([(op.key, v)] + Without(c, op.key)) == [op.key] + Keys(Without(c, op.key));
  }

  // ---------- A smaller cache is a prefix of a larger one ----------

  lemma TouchKeepsPrefix<K>(small: seq<K>, large: seq<K>, k: K, m: nat, n: nat)
    requires small <= large && m <= n && |small| <= m && |large| <= n
    ensures Touch(small, k, m) <= Touch(large, k, n)
  {
    var rest := large[|small|..];
    assert large == small + rest;
    RemoveFromConcat(small, rest, k);
    hide Remove;
    if k in small {
      assert [k] + (Remove(small, k) + rest) == ([k] + Remove(small, k)) + rest;
    } else if k in rest {
      RemoveLength(rest, k);
      assert [k] + (small + Remove(rest, k)) == ([k] + small) + Remove(rest, k);
    } else {
      assert [k] + large == [k] + small + rest;
    }
  }

  lemma RemoveKeepsPrefix<K>(small: seq<K>, large: seq<K>, k: K)
    requires small <= large && Distinct(large)
    ensures Remove(small, k) <= Remove(large, k)
  {
    var rest := large[|small|..];
    assert large == small + rest;
    RemoveFromConcat(small, rest, k);
    if k !in small {
      RemoveAbsent(small, k);
    }
  }

  lemma {:induction false} RemoveKeepsDistinct<K>(ks: seq<K>, k: K)
    requires Distinct(ks)
    ensures Distinct(Remove(ks, k)) && k !in Remove(ks, k)
    ensures forall x :: x in Remove(ks, k) ==> x in ks
  {
    if ks != [] {
      RemoveKeepsDistinct(ks[1..], k);
      assert forall i :: 0 <= i < |ks| - 1 ==> ks[1..][i] == ks[i + 1];
      assert ks[0] !in ks[1..];
    }
  }

  /** A cache never outgrows its capacity and never holds a key twice. */
  lemma {:induction false} RunIsSound<K, V>(ops: seq<Op<K, V>>, maxSize: nat)
    ensures |Run(ops, maxSize)| <= maxSize && Distinct(Keys(Run(ops, maxSize)))
  {
    if ops != [] {
      var c, op := Run(ops[..|ops| - 1], maxSize), ops[|ops| - 1];
      RunIsSound(ops[..|ops| - 1], maxSize);
      KeysOfApply(c, op, maxSize);
      RemoveKeepsDistinct(Keys(c), op.key);
      RemoveLength(Keys(c), op.key);
      assert |Keys(Apply(c, op, maxSize))| == |Apply(c, op, maxSize)|;
    }
  }

  /** A `get` that both caches hit or both miss, or of a smaller cache that is empty. */
  predicate GetAgrees<K(==)>(small: seq<K>, large: seq<K>, k: K) {
    k in small || k !in large || small == []
  }

  lemma FetchKeepsPrefixIff<K>(small: seq<K>, large: seq<K>, k: K)
    requires small <= large
    ensures Fetch(small, k) <= Fetch(large, k) <==> GetAgrees(small, large, k)
  {
    var rest := large[|small|..];
    assert large == small + rest;
    RemoveFromConcat(small, rest, k);
    hide Remove;
    if k in small {
      assert [k] + (Remove(small, k) + rest) == ([k] + Remove(small, k)) + rest;
    } else if k in large && small != [] {
      assert Fetch(large, k)[0] == k != small[0];
    }
  }

  /** The keys before step `i`. */
  function KeysBefore<K(==), V>(ops: seq<Op<K, V>>, i: nat, maxSize: nat): seq<K>
    requires i <= |ops|
  {
    Keys(Run(ops[..i], maxSize))
  }

  /** Before every `get`, the two caches agree on the key as far as inclusion needs it. */
  ghost predicate GetsAgree<K, V>(ops: seq<Op<K, V>>, m: nat, n: nat) {
    forall i :: 0 <= i < |ops| && ops[i].Get? ==> GetAgrees(KeysBefore(ops, i, m), KeysBefore(ops, i, n), ops[i].key)
  }

  lemma StepKeepsPrefixIff<K, V>(ops: seq<Op<K, V>>, i: nat, m: nat, n: nat)
    requires m <= n && i < |ops| && KeysBefore(ops, i, m) <= KeysBefore(ops, i, n)
    ensures KeysBefore(ops, i + 1, m) <= KeysBefore(ops, i + 1, n)
       <==> (ops[i].Get? ==> GetAgrees(KeysBefore(ops, i, m), KeysBefore(ops, i, n), ops[i].key))
  {
    var init, op := ops[..i], ops[i];
    assert ops[..i + 1][..i] == init;
    RunIsSound(init, m);
    RunIsSound(init, n);
    KeysOfApply(Run(init, m), op, m);
    KeysOfApply(Run(init, n), op, n);
    var small, large := Keys(Run(init, m)), Keys(Run(init, n));
    hide Remove, Touch, GetAgrees, Keys, Distinct, Apply;
    if op.Drop? {
      RemoveKeepsPrefix(small, large, op.key);
    } else if op.Get? {
      FetchKeepsPrefixIff(small, large, op.key);
    } else {
      TouchKeepsPrefix(small, large, op.key, m, n);
    }
  }

  /** Stack inclusion, exactly: after every part of a history the keys of a smaller cache are a prefix of the keys of a
      larger one if and only if every `get` hits both caches, or misses both, or finds the smaller one empty. */
  lemma SmallerIsPrefixIff<K, V>(ops: seq<Op<K, V>>, m: nat, n: nat)
    requires m <= n
    ensures (forall i :: 0 <= i <= |ops| ==> KeysBefore(ops, i, m) <= KeysBefore(ops, i, n)) <==> GetsAgree(ops, m, n)
  {
    hide KeysBefore, GetAgrees;
    if forall i :: 0 <= i <= |ops| ==> KeysBefore(ops, i, m) <= KeysBefore(ops, i, n) {
      forall i | 0 <= i < |ops| && ops[i].Get?
        ensures GetAgrees(KeysBefore(ops, i, m), KeysBefore(ops, i, n), ops[i].key)
      {
        assert KeysBefore(ops, i + 1, m) <= KeysBefore(ops, i + 1, n);
        StepKeepsPrefixIff(ops, i, m, n);
      }
    }
    if GetsAgree(ops, m, n) {
      forall i | 0 <= i <= |ops| ensures KeysBefore(ops, i, m) <= KeysBefore(ops, i, n) {
        PrefixWhileGetsAgree(ops, i, m, n);
      }
    }
  }

  lemma {:induction false} PrefixWhileGetsAgree<K, V>(ops: seq<Op<K, V>>, i: nat, m: nat, n: nat)
    requires m <= n && i <= |ops| && GetsAgree(ops, m, n)
    ensures KeysBefore(ops, i, m) <= KeysBefore(ops, i, n)
  {
    if i > 0 {
      PrefixWhileGetsAgree(ops, i - 1, m, n);
      hide KeysBefore, GetAgrees;
      StepKeepsPrefixIff(ops, i - 1, m, n);
    }
  }

  /** In particular after any history of `put`, `getOrPut` and `drop`. */
  lemma SmallerIsPrefix<K, V>(ops: seq<Op<K, V>>, m: nat, n: nat)
    requires m <= n && forall i :: 0 <= i < |ops| ==> !ops[i].Get?
    ensures Keys(Run(ops, m)) <= Keys(Run(ops, n))
  {
    PrefixWhileGetsAgree(ops, |ops|, m, n);
    assert ops[..|ops|] == ops;
  }

  /** With `get` the inclusion fails: a hit only in the larger cache reorders that cache alone. */
  lemma GetBreaksInclusion()
    ensures var ops := [Put(2, 0), Put(1, 0), Get(2)];
            !(Keys(Run(ops, 1)) <= Keys(Run(ops, 2)))
  {
    var a, b, g := Put(2, 0), Put(1, 0), Get(2);
    forall n: nat ensures Run([a, b, g], n) == Apply(Apply(Apply([], a, n), b, n), g, n) {
      assert [a][..0] == [] && [a, b][..1] == [a] && [a, b, g][..2] == [a, b];
      assert Run([a], n) == Apply([], a, n);
      assert Run([a, b], n) == Apply(Run([a], n), b, n);
    }
    assert Lookup<int, int>([], 2) == None;
    assert Apply([], a, 1) == [(2, 0)] == Apply([], a, 2);
    assert Lookup([(2, 0)], 1) == None;
    assert Apply([(2, 0)], b, 1) == [(1, 0)] && Apply([(2, 0)], b, 2) == [(1, 0), (2, 0)];
    assert Lookup([(1, 0)], 2) == None && Lookup([(1, 0), (2, 0)], 2) == Some(0);
    assert Keys(Run([a, b, g], 1))[0] == 1;
    assert Keys(Run([a, b, g], 2))[0] == 2;
  }

  // ---------- What "least recently used" means ----------

  /** The distinct keys of a history, by their last use, most recent first. */
  function Recency<K(==), V>(ops: seq<Op<K, V>>): seq<K> {
    if ops == [] then []
    else
      var k := ops[|ops| - 1].key;
      [k] + Remove(Recency(ops[..|ops| - 1]), k)
  }

  function Take<T>(s: seq<T>, n: nat): seq<T> {
    if |s| <= n then s else s[..n]
  }

  lemma TouchTakes<K>(ks: seq<K>, k: K, n: nat)
    requires Distinct(ks)
    ensures Touch(Take(ks, n), k, n) == Take([k] + Remove(ks, k), n)
  {
    var front := Take(ks, n);
    var rest := ks[|front|..];
    assert ks == front + rest;
    RemoveFromConcat(front, rest, k);
    RemoveLength(front, k);
    RemoveLength(rest, k);
  }

  lemma {:induction false} RecencyIsDistinct<K, V>(ops: seq<Op<K, V>>)
    ensures Distinct(Recency(ops))
  {
    if ops != [] {
      RecencyIsDistinct(ops[..|ops| - 1]);
      RemoveKeepsDistinct(Recency(ops[..|ops| - 1]), ops[|ops| - 1].key);
    }
  }

  /** Without drops, a cache of capacity `n` holds exactly the `n` most recently used keys, in that order. */
  lemma {:induction false} HoldsMostRecent<K, V>(ops: seq<Op<K, V>>, n: nat)
    requires forall i :: 0 <= i < |ops| ==> ops[i].Put? || ops[i].GetOrPut?
    ensures Keys(Run(ops, n)) == Take(Recency(ops), n)
  {
    if ops != [] {
      var init, op := ops[..|ops| - 1], ops[|ops| - 1];
      HoldsMostRecent(init, n);
      KeysOfApply(Run(init, n), op, n);
      RecencyIsDistinct(init);
      TouchTakes(Recency(init), op.key, n);
    }
  }

  // ---------- The list and the map ----------

  class Node<K, V> {
    const key: K
    var value: V

    constructor (key: K, value: V)
      ensures this.key == key && this.value == value
    {
      this.key, this.value := key, value;
    }
  }

  datatype AccessStatus = HIT | PUT | MISS

  /** `list` without the node an iterator points to. */
  function Unlinked<T(==)>(list: seq<T>, node: T): seq<T> {
    if list == [] then [] else if list[0] == node then list[1..] else [list[0]] + Unlinked(list[1..], node)
  }

  /** The pairs stored in a list of nodes. */
  ghost function Pairs<K, V>(list: seq<Node<K, V>>): (c: seq<(K, V)>)
    reads list
    ensures |c| == |list|
  {
    seq(|list|, i requires 0 <= i < |list| reads list => (list[i].key, list[i].value))
  }

  lemma {:induction false} UnlinkedElements<T>(list: seq<T>, node: T)
    requires Distinct(list)
    ensures |Unlinked(list, node)| == if node in list then |list| - 1 else |list|
    ensures Distinct(Unlinked(list, node))
    ensures forall i :: 0 <= i < |Unlinked(list, node)| ==>
              Unlinked(list, node)[i] in list && Unlinked(list, node)[i] != node
    ensures forall i :: 0 <= i < |list| && list[i] != node ==> list[i] in Unlinked(list, node)
  {
    if list != [] {
      UnlinkedElements(list[1..], node);
      assert forall i :: 0 <= i < |list| - 1 ==> list[1..][i] == list[i + 1];
      assert list[0] !in list[1..];
    }
  }

  /** Unlinking the node found for a key is removing the key's pair. */
  lemma {:induction false} UnlinkedPairs<K, V>(list: seq<Node<K, V>>, node: Node<K, V>)
    requires node in list && forall i :: 0 <= i < |list| && list[i].key == node.key ==> list[i] == node
    ensures Pairs(Unlinked(list, node)) == Without(Pairs(list), node.key)
    ensures Lookup(Pairs(list), node.key) == Some(node.value)
  {
    assert Pairs(list)[1..] == Pairs(list[1..]);
    if list[0] != node {
      assert node in list[1..] && list[0] in list;
      UnlinkedPairs(list[1..], node);
      PairsStep([list[0]] + Unlinked(list[1..], node));
    } else {
      assert Unlinked(list, node) == list[1..];
    }
  }

  lemma {:induction false} AbsentKey<K, V>(list: seq<Node<K, V>>, k: K)
    requires forall i :: 0 <= i < |list| ==> list[i].key != k
    ensures Lookup(Pairs(list), k) == None && Without(Pairs(list), k) == Pairs(list)
  {
    if list != [] {
      assert Pairs(list)[1..] == Pairs(list[1..]);
      AbsentKey(list[1..], k);
    }
  }

  /** The list and the map are in bijection. */
  ghost predicate Linked<K, V>(list: seq<Node<K, V>>, index: map<K, Node<K, V>>) {
    && Distinct(list) && |list| == |index|
    && (forall i :: 0 <= i < |list| ==> list[i].key in index && index[list[i].key] == list[i])
    && (forall k :: k in index ==> index[k] in list && index[k].key == k)
  }

  lemma LinkedMove<K, V>(list: seq<Node<K, V>>, index: map<K, Node<K, V>>, k: K)
    requires Linked(list, index) && k in index
    ensures Linked([index[k]] + Unlinked(list, index[k]), index)
    ensures index[k].key == k && index[k] in list && index[k] !in Unlinked(list, index[k])
  {
    UnlinkedElements(list, index[k]);
  }

  lemma LinkedDrop<K, V>(list: seq<Node<K, V>>, index: map<K, Node<K, V>>, k: K)
    requires Linked(list, index) && k in index
    ensures Linked(Unlinked(list, index[k]), index - {k}) && |index - {k}| == |index| - 1
  {
    UnlinkedElements(list, index[k]);
    assert (index - {k}).Keys == index.Keys - {k};
  }

  lemma LinkedAdd<K, V>(list: seq<Node<K, V>>, index: map<K, Node<K, V>>, node: Node<K, V>)
    requires Linked(list, index) && node.key !in index
    ensures Linked([node] + list, index[node.key := node]) && |index[node.key := node]| == |list| + 1 == |index| + 1
  {
  }

  lemma {:induction false} UnlinkedLast<T>(list: seq<T>)
    requires list != [] && Distinct(list)
    ensures Unlinked(list, list[|list| - 1]) == list[..|list| - 1]
  {
    if |list| > 1 {
      UnlinkedLast(list[1..]);
      assert list[0] != list[|list| - 1];
      assert list[..|list| - 1] == [list[0]] + list[1..][..|list| - 2];
    }
  }

  /** `pop_back`, with the map entry of the last key erased first. */
  lemma LinkedPopBack<K, V>(list: seq<Node<K, V>>, index: map<K, Node<K, V>>)
    requires Linked(list, index) && list != []
    ensures Linked(list[..|list| - 1], index - {list[|list| - 1].key})
    ensures |index - {list[|list| - 1].key}| == |index| - 1
  {
    var last := list[|list| - 1];
    assert last in list;
    UnlinkedLast(list);
    LinkedDrop(list, index, last.key);
  }

  lemma FoundInPairs<K, V>(list: seq<Node<K, V>>, index: map<K, Node<K, V>>, k: K)
    requires Linked(list, index)
    ensures k in index ==> Lookup(Pairs(list), k) == Some(index[k].value)
    ensures k in index ==> Pairs(Unlinked(list, index[k])) == Without(Pairs(list), k)
    ensures k !in index ==> Lookup(Pairs(list), k) == None && Without(Pairs(list), k) == Pairs(list)
  {
    if k in index {
      UnlinkedPairs(list, index[k]);
    } else {
      AbsentKey(list, k);
    }
  }

  class LruCache<K(==), V> {
    var list: seq<Node<K, V>>
    var index: map<K, Node<K, V>>
    const maxSize: nat

    ghost predicate Valid()
      reads this
    {
      Linked(list, index) && |index| <= maxSize
    }

    ghost function Contents(): seq<(K, V)>
      reads this, list
    {
      Pairs(list)
    }

    constructor (maxSize: nat)
      ensures Valid() && Contents() == [] && this.maxSize == maxSize
    {
      list, index, this.maxSize := [], map[], maxSize;
    }

    /** `splice` to the front. */
    method MoveToFront(k: K)
      requires Valid() && k in index
      modifies this`list
      ensures Valid() && list == [index[k]] + Unlinked(old(list), index[k])
      ensures Contents() == [(k, index[k].value)] + Without(old(Contents()), k)
    {
      FoundInPairs(list, index, k);
      LinkedMove(list, index, k);
      assert index[k].key == k;
      hide Linked;
      list := [index[k]] + Unlinked(list, index[k]);
      assert list[1..] == Unlinked(old(list), index[k]);
      PairsStep(list);
    }

    method GetOrPut(k: K, v: V) returns (status: AccessStatus, value: V)
      requires Valid()
      modifies this
      ensures Valid()
      ensures Contents() == Apply(old(Contents()), Op.GetOrPut(k, v), maxSize)
      ensures match old(Lookup(Contents(), k))
              case Some(w) => status == HIT && value == w
              case None => status == PUT && value == v
    {
      FoundInPairs(list, index, k);
      hide Linked;
      if k in index {
        MoveToFront(k);
        return HIT, index[k].value;
      } else {
        PutMissing(k, v);
        return PUT, v;
      }
    }

    method Put(k: K, v: V)
      requires Valid()
      modifies this, list
      ensures Valid()
      ensures Contents() == Apply(old(Contents()), Op.Put(k, v), maxSize)
    {
      hide Linked, Distinct, Unlinked, Without, Lookup, Pairs;
      FoundInPairs(list, index, k);
      if k in index {
        var node := index[k];
        LinkedMove(list, index, k);
        MoveToFront(k);
        ghost var rest := list[1..];
        assert list == [node] + rest && node !in rest;
        PairsStep(list);
        node.value := v;
        PairsStep(list);
      } else {
        PutMissing(k, v);
      }
    }

    method Get(k: K) returns (status: AccessStatus, value: Option<V>)
      requires Valid()
      modifies this
      ensures Valid()
      ensures Contents() == Apply(old(Contents()), Op<K, V>.Get(k), maxSize)
      ensures value == old(Lookup(Contents(), k)) && status == if value.Some? then HIT else MISS
    {
      FoundInPairs(list, index, k);
      hide Linked;
      if k !in index {
        return MISS, None;
      } else {
        MoveToFront(k);
        return HIT, Some(index[k].value);
      }
    }

    method Drop(k: K) returns (dropped: bool)
      requires Valid()
      modifies this
      ensures Valid()
      ensures Contents() == Apply(old(Contents()), Op<K, V>.Drop(k), maxSize)
      ensures dropped == old(Lookup(Contents(), k)).Some?
    {
      hide Linked, Pairs, Unlinked, Without, Lookup;
      FoundInPairs(list, index, k);
      if k in index {
        LinkedDrop(list, index, k);
        var node := index[k];
        list := Unlinked(list, node);
        index := index - {k};
        return true;
      } else {
        return false;
      }
    }

    method Exists(k: K) returns (r: bool)
      requires Valid()
      ensures r == Lookup(Contents(), k).Some?
    {
      FoundInPairs(list, index, k);
      r := k in index;
    }

    method Size() returns (n: nat)
      requires Valid()
      ensures n == |Contents()| <= maxSize
    {
      n := |index|;
    }

    method PutMissing(k: K, v: V)
      requires Valid() && k !in index
      modifies this
      ensures Valid()
      ensures Contents() == Trim([(k, v)] + old(Contents()), maxSize)
    {
      hide Linked, Pairs, Unlinked;
      var node := new Node(k, v);
      LinkedAdd(list, index, node);
      var longer := [node] + list;
      assert longer[1..] == list;
      PairsStep(longer);
      list := longer;
      index := index[k := node];
      if |index| > maxSize {
        LinkedPopBack(longer, index);
        PairsInit(longer);
        index := index - {longer[|longer| - 1].key};
        list := longer[..|longer| - 1];
      }
    }
  }

  lemma PairsStep<K, V>(list: seq<Node<K, V>>)
    requires list != []
    ensures Pairs(list) == [(list[0].key, list[0].value)] + Pairs(list[1..])
  {
  }

  lemma PairsInit<K, V>(list: seq<Node<K, V>>)
    requires list != []
    ensures Pairs(list[..|list| - 1]) == Pairs(list)[..|list| - 1]
  {
  }
}
