/**
 What a least-recently-used cache holds after any history of operations (`lru_cache` of src/lrucache.h), said of the
 operations themselves: which keys, in which order, and with which values.
 */
module LruHistory {
  import opened LruCaches
  import opened Options
  import opened Sequences

  /** The position of the last operation on a key, or -1. */
  function LastOp<K(==), V>(ops: seq<Op<K, V>>, k: K): (i: int)
    ensures -1 <= i < |ops| && (i >= 0 ==> ops[i].key == k)
    ensures forall j :: i < j < |ops| ==> ops[j].key != k
  {
    if ops == [] then -1 else if ops[|ops| - 1].key == k then |ops| - 1 else LastOp(ops[..|ops| - 1], k)
  }

  ghost predicate LatestFirst<K, V>(ks: seq<K>, ops: seq<Op<K, V>>) {
    forall p, q :: 0 <= p < q < |ks| ==> LastOp(ops, ks[p]) > LastOp(ops, ks[q])
  }

  lemma {:induction false} RemoveAt<K>(ks: seq<K>, k: K) returns (p: nat)
    requires k in ks
    ensures p < |ks| && ks[p] == k && Remove(ks, k) == ks[..p] + ks[p + 1..]
  {
    if ks[0] == k {
      p := 0;
    } else {
      p := RemoveAt(ks[1..], k);
      p := p + 1;
      assert ks[..p] + ks[p + 1..] == [ks[0]] + (ks[1..][..p - 1] + ks[1..][p..]);
    }
  }

  lemma RemoveKeepsOrder<K, V>(ks: seq<K>, ops: seq<Op<K, V>>, k: K)
    requires LatestFirst(ks, ops)
    ensures LatestFirst(Remove(ks, k), ops)
  {
    hide LastOp, Remove;
    if k in ks {
      var p := RemoveAt(ks, k);
    } else {
      RemoveAbsent(ks, k);
    }
  }

  /** A further operation on `k` makes it the latest and leaves the others as they were. */
  lemma FurtherOp<K, V>(ks: seq<K>, ops: seq<Op<K, V>>, op: Op<K, V>)
    requires LatestFirst(ks, ops) && op.key !in ks
    ensures LatestFirst(ks, ops + [op]) && LatestFirst([op.key] + ks, ops + [op])
  {
    assert (ops + [op])[..|ops|] == ops;
    assert forall p :: 0 <= p < |ks| ==> LastOp(ops + [op], ks[p]) == LastOp(ops, ks[p]);
    assert LastOp(ops + [op], op.key) == |ops|;
    hide LastOp;
  }

  lemma TrimKeepsOrder<K, V>(ks: seq<K>, ops: seq<Op<K, V>>, n: nat)
    requires LatestFirst(ks, ops)
    ensures LatestFirst(Trim(ks, n), ops)
  {
    hide LastOp;
  }

  /** The keys are in the order of their last operations, the latest first; that is what the eviction goes by. */
  lemma {:induction false} OrderIsLastUse<K, V>(ops: seq<Op<K, V>>, n: nat)
    ensures LatestFirst(Keys(Run(ops, n)), ops)
  {
    hide LatestFirst, Apply, Keys, Remove, Trim, Distinct;
    if ops == [] {
      NoKeys(ops);
    } else {
      var init, op := ops[..|ops| - 1], ops[|ops| - 1];
      var c := Run(init, n);
      OrderIsLastUse(init, n);
      RunIsSound(init, n);
      KeysOfApply(c, op, n);
      RemoveKeepsDistinct(Keys(c), op.key);
      RemoveKeepsOrder(Keys(c), init, op.key);
      FurtherOp(Remove(Keys(c), op.key), init, op);
      assert ops == init + [op];
      if op.key !in Keys(c) {
        RemoveAbsent(Keys(c), op.key);
        TrimKeepsOrder([op.key] + Keys(c), ops, n);
      }
    }
  }

  lemma NoKeys<K, V>(ops: seq<Op<K, V>>)
    ensures LatestFirst([], ops) && Keys<K, V>([]) == []
  {
  }

  /** The cache before the `i`-th operation. */
  function Before<K(==), V>(ops: seq<Op<K, V>>, i: nat, n: nat): seq<(K, V)>
    requires i <= |ops|
  {
    Run(ops[..i], n)
  }

  predicate Holds<K(==), V>(c: seq<(K, V)>, k: K) {
    exists p :: 0 <= p < |c| && c[p].0 == k
  }

  lemma HoldsIsKey<K, V>(c: seq<(K, V)>, k: K)
    ensures Holds(c, k) <==> k in Keys(c)
  {
    if k in Keys(c) {
      var p :| 0 <= p < |c| && Keys(c)[p] == k;
      assert c[p].0 == k;
    }
    if Holds(c, k) {
      var p :| 0 <= p < |c| && c[p].0 == k;
      assert Keys(c)[p] == k;
    }
  }

  /** Which keys an operation leaves in the cache: its own, unless it is a drop or a miss of a get; and the others,
      unless it puts a new key into a full cache, which loses its last one. */
  lemma WhatStays<K, V>(ops: seq<Op<K, V>>, i: nat, n: nat, x: K)
    requires i < |ops|
    ensures var c, c', op := Before(ops, i, n), Before(ops, i + 1, n), ops[i];
            && |c| <= n
            && (x == op.key ==>
                  (Holds(c', x) <==> match op
                                     case Drop(_) => false
                                     case Get(_) => Holds(c, x)
                                     case _ => n > 0))
            && (x != op.key ==>
                  (Holds(c', x) <==> && Holds(c, x)
                                     && !(&& (op.Put? || op.GetOrPut?) && !Holds(c, op.key) && |c| == n
                                          && x == c[n - 1].0)))
  {
    hide Holds, Apply, Distinct, Remove, Keys;
    var c, c', op := Before(ops, i, n), Before(ops, i + 1, n), ops[i];
    assert ops[..i + 1][..i] == ops[..i];
    RunIsSound(ops[..i], n);
    KeysOfApply(c, op, n);
    HoldsIsKey(c, x);
    HoldsIsKey(c', x);
    HoldsIsKey(c, op.key);
    KeyCount(c);
    KeysThatStay(Keys(c), op.key, x, n);
  }

  lemma KeyCount<K, V>(c: seq<(K, V)>)
    ensures |Keys(c)| == |c| && forall p :: 0 <= p < |c| ==> Keys(c)[p] == c[p].0
  {
  }

  lemma KeysThatStay<K>(ks: seq<K>, k: K, x: K, n: nat)
    requires Distinct(ks) && |ks| <= n
    ensures x in Remove(ks, k) <==> x in ks && x != k
    ensures x in Fetch(ks, k) <==> x in ks
    ensures x in Touch(ks, k, n)
       <==> if x == k then n > 0 else x in ks && !(k !in ks && |ks| == n && x == ks[n - 1])
  {
    hide Remove, Distinct, Trim;
    RemovedKeys(ks, k, x);
    InitKeys(ks, x);
    TrimmedKeys(ks, k, n);
    InFront(k, Remove(ks, k), x);
    InFront(k, ks, x);
    if n > 0 && |ks| == n {
      InFront(k, ks[..n - 1], x);
    }
  }

  lemma InFront<K>(k: K, ks: seq<K>, x: K)
    ensures x in [k] + ks <==> x == k || x in ks
  {
  }

  lemma TrimmedKeys<K>(ks: seq<K>, k: K, n: nat)
    requires |ks| <= n
    ensures Trim([k] + ks, n) == if |ks| < n then [k] + ks else if n == 0 then [] else [k] + ks[..n - 1]
  {
  }

  lemma InitKeys<K>(ks: seq<K>, x: K)
    requires Distinct(ks)
    ensures ks != [] ==> (x in ks[..|ks| - 1] <==> x in ks && x != ks[|ks| - 1])
  {
    if ks != [] {
      assert ks == ks[..|ks| - 1] + [ks[|ks| - 1]];
    }
  }

  lemma RemovedKeys<K>(ks: seq<K>, k: K, x: K)
    requires Distinct(ks)
    ensures x in Remove(ks, k) <==> x in ks && x != k
  {
    RemoveKeepsDistinct(ks, k);
    if k in ks {
      var p := RemoveAt(ks, k);
      assert ks == ks[..p] + [k] + ks[p + 1..];
    } else {
      RemoveAbsent(ks, k);
    }
    hide Remove;
  }

  // ---------- Values ----------

  /** The `i`-th operation wrote this value for the key: it put it, or got the key's value and found none. */
  ghost predicate Wrote<K, V>(ops: seq<Op<K, V>>, i: nat, n: nat, k: K, v: V)
    requires i < |ops|
  {
    ops[i] == Put(k, v) || (ops[i] == GetOrPut(k, v) && !Holds(Before(ops, i, n), k))
  }

  /** The operation leaves the value of the key alone. */
  ghost predicate Leaves<K, V>(ops: seq<Op<K, V>>, j: nat, n: nat, k: K)
    requires j < |ops|
  {
    ops[j].key == k ==> (ops[j].Get? || ops[j].GetOrPut?) && Holds(Before(ops, j, n), k)
  }

  /** The value of a cached key is the one last written for it. */
  ghost predicate IsLastWritten<K, V>(ops: seq<Op<K, V>>, n: nat, k: K, v: V) {
    exists i: nat :: i < |ops| && Wrote(ops, i, n, k, v) && forall j: nat :: i < j < |ops| ==> Leaves(ops, j, n, k)
  }

  lemma PairsAfter<K, V>(c: seq<(K, V)>, op: Op<K, V>, n: nat, k: K, v: V)
    requires Distinct(Keys(c)) && (k, v) in Apply(c, op, n)
    ensures op.key != k ==> (k, v) in c
    ensures op.key == k ==>
              || op == Put(k, v) || (op == GetOrPut(k, v) && !Holds(c, k))
              || ((op.Get? || op.GetOrPut?) && (k, v) in c)
  {
    PairOfKey(c, op.key, k, v);
    hide Keys, Distinct, Without, Lookup;
    HoldsEntry(c, op.key);
  }

  lemma HoldsEntry<K, V>(c: seq<(K, V)>, k: K)
    ensures Holds(c, k) <==> Lookup(c, k).Some?
    ensures Lookup(c, k).Some? ==> (k, Lookup(c, k).value) in c
  {
    HoldsIsKey(c, k);
    KeysOfWithout(c, k);
    FoundEntry(c, k);
    hide Lookup;
  }

  lemma {:induction false} FoundEntry<K, V>(c: seq<(K, V)>, k: K)
    ensures Lookup(c, k).Some? ==> (k, Lookup(c, k).value) in c
  {
    if c != [] {
      FoundEntry(c[1..], k);
      if c[0].0 == k {
        assert c[0] == (k, c[0].1);
      }
    }
  }

  lemma {:induction false} PairOfKey<K, V>(c: seq<(K, V)>, x: K, k: K, v: V)
    requires Distinct(Keys(c))
    ensures (k, v) in Without(c, x) ==> (k, v) in c && k != x
  {
    if c != [] {
      assert forall i :: 0 <= i < |c| - 1 ==> Keys(c[1..])[i] == Keys(c)[i + 1];
      PairOfKey(c[1..], x, k, v);
      if c[0].0 == x && (k, v) in c[1..] {
        var i :| 0 <= i < |c| - 1 && c[1..][i] == (k, v);
        assert Keys(c)[i + 1] != Keys(c)[0];
      }
      hide Distinct;
    }
  }

  lemma HoldsPair<K, V>(c: seq<(K, V)>, k: K, v: V)
    requires (k, v) in c
    ensures Holds(c, k)
  {
    var p :| 0 <= p < |c| && c[p] == (k, v);
    assert c[p].0 == k;
  }

  lemma {:induction false} ValueIsLastWritten<K, V>(ops: seq<Op<K, V>>, n: nat, k: K, v: V)
    requires (k, v) in Run(ops, n)
    ensures IsLastWritten(ops, n, k, v)
  {
    var init, op := ops[..|ops| - 1], ops[|ops| - 1];
    var c := Run(init, n);
    RunIsSound(init, n);
    PairsAfter(c, op, n, k, v);
    assert Before(ops, |ops| - 1, n) == c;
    hide Apply, Keys, Distinct, Holds, Run;
    if (k, v) in c && (op.key != k || op.Get? || op.GetOrPut?) {
      HoldsPair(c, k, v);
      ValueIsLastWritten(init, n, k, v);
      WrittenBefore(ops, n, k, v);
    } else {
      assert Wrote(ops, |ops| - 1, n, k, v);
    }
  }

  lemma WrittenBefore<K, V>(ops: seq<Op<K, V>>, n: nat, k: K, v: V)
    requires ops != [] && IsLastWritten(ops[..|ops| - 1], n, k, v) && Leaves(ops, |ops| - 1, n, k)
    ensures IsLastWritten(ops, n, k, v)
  {
    var init := ops[..|ops| - 1];
    var i: nat :| i < |init| && Wrote(init, i, n, k, v) && forall j: nat :: i < j < |init| ==> Leaves(init, j, n, k);
    assert init[..i] == ops[..i];
    assert Wrote(ops, i, n, k, v);
    forall j: nat | i < j < |ops| ensures Leaves(ops, j, n, k) {
      if j < |init| {
        assert init[..j] == ops[..j];
        assert Leaves(init, j, n, k);
      }
    }
    hide Holds, Run;
  }
}
