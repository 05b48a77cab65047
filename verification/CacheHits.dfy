/**
 What a call of the concurrent cache does when its key is cached and when it is not, and how often `f()` runs
 (`ConcurrentCache::getOrPut` of src/concurrent_cache.h).
 */
module CacheHits {
  import opened CacheGuarantees
  import opened ConcurrentCaches
  import opened LruCaches
  import opened Options
  import opened Sequences

  // ---------- One call ----------

  lemma {:induction false} WithoutAt<K, V>(c: seq<(K, V)>, p: nat)
    requires p < |c| && Distinct(Keys(c))
    ensures Without(c, c[p].0) == c[..p] + c[p + 1..]
  {
    if p > 0 {
      assert Keys(c)[0] != Keys(c)[p];
      assert forall i :: 0 <= i < |c| - 1 ==> Keys(c[1..])[i] == Keys(c)[i + 1];
      WithoutAt(c[1..], p - 1);
      assert c[..p] + c[p + 1..] == [c[0]] + (c[1..][..p - 1] + c[1..][p..]);
      hide Distinct;
    }
  }

  lemma {:induction false} LookupAbsent<K, V>(c: seq<(K, V)>, k: K)
    requires forall i :: 0 <= i < |c| ==> c[i].0 != k
    ensures Lookup(c, k) == None && Without(c, k) == c
  {
    if c != [] {
      LookupAbsent(c[1..], k);
    }
  }

  lemma CacheOfRun<K, V>(run: seq<State<K, V>>, actions: seq<Action<K, V>>, threadCount: nat, maxSize: nat, i: nat)
    requires IsRun(run, actions, threadCount, maxSize) && i < |run|
    ensures Inv(run[i]) && Distinct(Keys(run[i].cache))
    ensures i < |actions| ==> Enabled(run[i], actions[i]) && run[i + 1] == Do(run[i], actions[i], maxSize)
  {
    RunKeepsInv(run, actions, threadCount, maxSize, i);
    hide Do, Enabled;
  }

  /** A cached key: whatever its placeholder's state, the call joins it, and nothing is computed, published or removed;
      the entry moves to the front, the others keep their order. */
  lemma HitJoins<K, V>(run: seq<State<K, V>>, actions: seq<Action<K, V>>, threadCount: nat, maxSize: nat,
                       i: nat, t: nat, k: K, id: nat) returns (p: nat)
    requires IsRun(run, actions, threadCount, maxSize) && i < |actions|
    requires actions[i] == Call(t, k) && (k, id) in run[i].cache
    ensures t < |run[i].threads|
    ensures p < |run[i].cache| && run[i].cache[p] == (k, id)
    ensures run[i + 1] == run[i].(threads := run[i].threads[t := Getting(k, id)],
                                  cache := [(k, id)] + run[i].cache[..p] + run[i].cache[p + 1..])
  {
    CacheOfRun(run, actions, threadCount, maxSize, i);
    var c := run[i].cache;
    p :| 0 <= p < |c| && c[p] == (k, id);
    LookupIsEntry(c, k, id);
    WithoutAt(c, p);
    assert [(k, id)] + (c[..p] + c[p + 1..]) == [(k, id)] + c[..p] + c[p + 1..];
    hide IsRun, Inv, Lookup, Without, Keys;
  }

  /** A key that is not cached: the call publishes a pending placeholder of its own at the front and computes. Only a
      full cache loses an entry, the last one. */
  lemma MissPublishes<K, V>(run: seq<State<K, V>>, actions: seq<Action<K, V>>, threadCount: nat, maxSize: nat,
                            i: nat, t: nat, k: K)
    requires IsRun(run, actions, threadCount, maxSize) && i < |actions|
    requires actions[i] == Call(t, k) && forall p :: 0 <= p < |run[i].cache| ==> run[i].cache[p].0 != k
    ensures t < |run[i].threads| && |run[i].cache| <= maxSize
    ensures var s, id: nat := run[i], |run[i].promises|;
            var full := [(k, id)] + s.cache;
            run[i + 1] == s.(threads := s.threads[t := Computing(k, id)],
                             promises := s.promises + [Promise(k, t, Pending)],
                             cache := if |s.cache| < maxSize then full else full[..maxSize],
                             removed := if |s.cache| < maxSize then s.removed else s.removed[full[maxSize].1 := id + 1])
  {
    CacheOfRun(run, actions, threadCount, maxSize, i);
    CacheIsBounded(run, actions, threadCount, maxSize, i);
    LookupAbsent(run[i].cache, k);
    hide IsRun, Inv;
  }

  lemma {:induction false} CacheIsBounded<K, V>(run: seq<State<K, V>>, actions: seq<Action<K, V>>, threadCount: nat,
                                                maxSize: nat, i: nat)
    requires IsRun(run, actions, threadCount, maxSize) && i < |run|
    ensures |run[i].cache| <= maxSize
  {
    if i > 0 {
      CacheIsBounded(run, actions, threadCount, maxSize, i - 1);
      CacheOfRun(run, actions, threadCount, maxSize, i - 1);
      StepKeepsBound(run[i - 1], actions[i - 1], maxSize);
      hide *;
    }
  }

  lemma StepKeepsBound<K, V>(s: State<K, V>, a: Action<K, V>, maxSize: nat)
    requires Enabled(s, a) && |s.cache| <= maxSize
    ensures |Do(s, a, maxSize).cache| <= maxSize
  {
    if a.Call? || a.DropEntry? {
      var k := if a.Call? then a.key else s.threads[a.t].key;
      WithoutShrinks(s.cache, k);
    }
  }

  lemma {:induction false} WithoutShrinks<K, V>(c: seq<(K, V)>, k: K)
    ensures |Without(c, k)| == if Lookup(c, k).Some? then |c| - 1 else |c|
  {
    if c != [] {
      WithoutShrinks(c[1..], k);
    }
  }

  /** The handler takes back the entry that its key has by then, and no other. */
  lemma DropRemoves<K, V>(run: seq<State<K, V>>, actions: seq<Action<K, V>>, threadCount: nat, maxSize: nat,
                          i: nat, t: nat)
    requires IsRun(run, actions, threadCount, maxSize) && i < |actions| && actions[i] == DropEntry(t)
    ensures t < |run[i].threads| && run[i].threads[t].Failed?
    ensures var s, th := run[i], run[i].threads[t];
            var s' := run[i + 1];
            && s'.threads == s.threads[t := Rethrowing(th.key, th.id)] && s'.promises == s.promises
            && s'.computed == s.computed && s'.outcomes == s.outcomes
            && (forall p :: 0 <= p < |s.cache| && s.cache[p].0 == th.key ==>
                  && s'.cache == s.cache[..p] + s.cache[p + 1..]
                  && s'.removed == s.removed[s.cache[p].1 := |s.promises|])
            && ((forall p :: 0 <= p < |s.cache| ==> s.cache[p].0 != th.key) ==>
                  s'.cache == s.cache && s'.removed == s.removed)
  {
    hide Inv, Lookup, Without, Keys, Distinct;
    CacheOfRun(run, actions, threadCount, maxSize, i);
    EntryOf(run[i].cache, run[i].threads[t].key);
  }

  /** The entry that a key has, if any. */
  lemma EntryOf<K, V>(c: seq<(K, V)>, k: K)
    requires Distinct(Keys(c))
    ensures forall p :: 0 <= p < |c| && c[p].0 == k ==>
              Without(c, k) == c[..p] + c[p + 1..] && Lookup(c, k) == Some(c[p].1)
    ensures (forall p :: 0 <= p < |c| ==> c[p].0 != k) ==> Without(c, k) == c && Lookup(c, k) == None
  {
    hide *;
    forall p | 0 <= p < |c| && c[p].0 == k
      ensures Without(c, k) == c[..p] + c[p + 1..] && Lookup(c, k) == Some(c[p].1)
    {
      WithoutAt(c, p);
      LookupIsEntry(c, k, c[p].1);
      assert c[p] == (k, c[p].1);
    }
    if forall p :: 0 <= p < |c| ==> c[p].0 != k {
      LookupAbsent(c, k);
    }
  }

  /** Placeholders leave the cache at a miss of an uncached key that finds the cache full, or when a handler drops
      them. */
  lemma RemovedOnlyThen<K, V>(run: seq<State<K, V>>, actions: seq<Action<K, V>>, threadCount: nat, maxSize: nat,
                              i: nat, id: nat)
    requires IsRun(run, actions, threadCount, maxSize) && i < |actions|
    requires id in run[i + 1].removed && id !in run[i].removed
    ensures var s, a := run[i], actions[i];
            || (a.DropEntry? && a.t < |s.threads| && s.threads[a.t].Failed? && (s.threads[a.t].key, id) in s.cache)
            || (a.Call? && (forall p :: 0 <= p < |s.cache| ==> s.cache[p].0 != a.key) && |s.cache| == maxSize
                && id == if maxSize == 0 then |s.promises| else s.cache[maxSize - 1].1)
  {
    CacheOfRun(run, actions, threadCount, maxSize, i);
    var s, a := run[i], actions[i];
    if a.Call? {
      if q: nat :| q < |s.cache| && s.cache[q].0 == a.key {
        assert s.cache[q] == (a.key, s.cache[q].1);
        var p := HitJoins(run, actions, threadCount, maxSize, i, a.t, a.key, s.cache[q].1);
      } else {
        MissPublishes(run, actions, threadCount, maxSize, i, a.t, a.key);
      }
    } else if a.DropEntry? {
      DropRemoves(run, actions, threadCount, maxSize, i, a.t);
      if q: nat :| q < |s.cache| && s.cache[q].0 == s.threads[a.t].key {
        assert s.cache[q] == (s.threads[a.t].key, s.cache[q].1);
      }
    }
    hide IsRun, Inv, DoCall, DoDrop, Keys, Distinct;
  }

  // ---------- How often f() runs ----------

  /** The placeholders made for a key: one for each call that computes. */
  function MadeFor<K(==), V>(promises: seq<Promise<K, V>>, k: K): set<nat> {
    set id: nat | id < |promises| && promises[id].key == k
  }

  /** A call computes for each placeholder of a key that was removed, and at most once more: two of them are never
      cached together. */
  lemma OncePerRemoval<K, V>(run: seq<State<K, V>>, actions: seq<Action<K, V>>, threadCount: nat, maxSize: nat,
                             i: nat, k: K)
    requires IsRun(run, actions, threadCount, maxSize) && i < |run|
    ensures var made := MadeFor(run[i].promises, k); |made| <= 1 + |made * run[i].removed.Keys|
  {
    hide IsRun, Inv, Keys, Distinct;
    CacheOfRun(run, actions, threadCount, maxSize, i);
    OneKept(run[i], k);
    var made, removed := MadeFor(run[i].promises, k), run[i].removed.Keys;
    AtMostOne(made - removed);
    assert made == (made - removed) + made * removed;
  }

  lemma OneKept<K, V>(s: State<K, V>, k: K)
    requires Inv(s)
    ensures var kept := MadeFor(s.promises, k) - s.removed.Keys; forall p, q :: p in kept && q in kept ==> p == q
  {
    assert HistorySound(s.cache, s.promises, s.removed);
    hide Inv, CacheSound, ThreadsSound, ValuesSound;
  }

  lemma AtMostOne(s: set<nat>)
    requires forall p, q :: p in s && q in s ==> p == q
    ensures |s| <= 1
  {
    if x :| x in s {
      assert s == {x};
    }
  }

  /** The values that `f()` returned for a key. */
  function ComputedFor<K(==), V>(computed: seq<(K, V)>, k: K): nat {
    if computed == [] then 0
    else ComputedFor(computed[..|computed| - 1], k) + if computed[|computed| - 1].0 == k then 1 else 0
  }

  function FulfilledFor<K(==), V>(promises: seq<Promise<K, V>>, k: K): set<nat> {
    set id: nat | id < |promises| && promises[id].key == k && promises[id].status.Fulfilled?
  }

  lemma StepFulfils<K, V>(s: State<K, V>, a: Action<K, V>, maxSize: nat, k: K)
    requires Inv(s) && Enabled(s, a)
    ensures var s' := Do(s, a, maxSize);
            && (a.Succeed? ==> a.t < |s.threads| && s.threads[a.t].Computing?)
            && (a.Succeed? && s.threads[a.t].key == k ==>
                  && s.threads[a.t].id !in FulfilledFor(s.promises, k)
                  && FulfilledFor(s'.promises, k) == FulfilledFor(s.promises, k) + {s.threads[a.t].id}
                  && s'.computed == s.computed + [(k, a.value)])
            && (!(a.Succeed? && s.threads[a.t].key == k) ==>
                  && FulfilledFor(s'.promises, k) == FulfilledFor(s.promises, k)
                  && ComputedFor(s'.computed, k) == ComputedFor(s.computed, k))
  {
    hide Inv, Apply, Lookup, FulfilledFor, ComputedFor, Trim;
    ThreadOf(s, a.t);
    var th := s.threads[a.t];
    match a {
      case Call(_, _) =>
        if Lookup(s.cache, a.key).None? {
          PendingAdded(s.promises, Promise(a.key, a.t, Pending), k);
        }
      case Succeed(_, v) =>
        StatusSet(s.promises, th.id, Fulfilled(v), k);
        ComputedAppend(s.computed, (th.key, v), k);
      case ThrowOther(_) => StatusSet(s.promises, th.id, Abandoned, k);
      case Abandon(_) => StatusSet(s.promises, th.id, Abandoned, k);
      case _ =>
    }
  }

  lemma ThreadOf<K, V>(s: State<K, V>, t: nat)
    requires Inv(s) && t < |s.threads|
    ensures ThreadSound(s.threads[t], t, s.promises, s.removed)
  {
  }

  lemma PendingAdded<K, V>(promises: seq<Promise<K, V>>, p: Promise<K, V>, k: K)
    requires p.status.Pending?
    ensures FulfilledFor(promises + [p], k) == FulfilledFor(promises, k)
  {
  }

  lemma StatusSet<K, V>(promises: seq<Promise<K, V>>, id: nat, status: Status<V>, k: K)
    requires id < |promises| && promises[id].status.Pending?
    ensures id !in FulfilledFor(promises, k)
    ensures FulfilledFor(promises[id := promises[id].(status := status)], k)
            == FulfilledFor(promises, k) + if status.Fulfilled? && promises[id].key == k then {id} else {}
  {
  }

  /** Each value that `f()` returned fulfilled a placeholder of its own. */
  lemma {:induction false} OneValuePerPlaceholder<K, V>(run: seq<State<K, V>>, actions: seq<Action<K, V>>,
                                                        threadCount: nat, maxSize: nat, i: nat, k: K)
    requires IsRun(run, actions, threadCount, maxSize) && i < |run|
    ensures ComputedFor(run[i].computed, k) == |FulfilledFor(run[i].promises, k)|
  {
    hide Do, Enabled, Inv, Keys, Distinct;
    if i > 0 {
      OneValuePerPlaceholder(run, actions, threadCount, maxSize, i - 1, k);
      CacheOfRun(run, actions, threadCount, maxSize, i - 1);
      StepFulfils(run[i - 1], actions[i - 1], maxSize, k);
      if actions[i - 1].Succeed? {
        ComputedAppend(run[i - 1].computed, (run[i - 1].threads[actions[i - 1].t].key, actions[i - 1].value), k);
      }
    } else {
      assert FulfilledFor(run[0].promises, k) == {};
    }
  }

  lemma ComputedAppend<K, V>(computed: seq<(K, V)>, entry: (K, V), k: K)
    ensures ComputedFor(computed + [entry], k) == ComputedFor(computed, k) + if entry.0 == k then 1 else 0
  {
    assert (computed + [entry])[..|computed|] == computed;
  }

  /** So `f()` returns for a key at most once more than a placeholder of the key is evicted or dropped. */
  lemma ComputedOncePerRemoval<K, V>(run: seq<State<K, V>>, actions: seq<Action<K, V>>, threadCount: nat,
                                     maxSize: nat, i: nat, k: K)
    requires IsRun(run, actions, threadCount, maxSize) && i < |run|
    ensures ComputedFor(run[i].computed, k) <= 1 + |MadeFor(run[i].promises, k) * run[i].removed.Keys|
  {
    OneValuePerPlaceholder(run, actions, threadCount, maxSize, i, k);
    OncePerRemoval(run, actions, threadCount, maxSize, i, k);
    SubsetSize(FulfilledFor(run[i].promises, k), MadeFor(run[i].promises, k));
    hide IsRun;
  }

  lemma {:induction false} SubsetSize(a: set<nat>, b: set<nat>)
    requires a <= b
    ensures |a| <= |b|
  {
    assert b == a + (b - a);
  }

  // ---------- All callers get the same value ----------

  /** Every value returned is that of a fulfilled placeholder of the key. */
  ghost predicate Backed<K, V>(s: State<K, V>) {
    forall n :: 0 <= n < |s.outcomes| && s.outcomes[n].Returned? ==>
                  BackedBy(s.promises, s.outcomes[n].key, s.outcomes[n].value)
  }

  ghost predicate BackedBy<K, V>(promises: seq<Promise<K, V>>, k: K, v: V) {
    exists id: nat :: id < |promises| && promises[id].key == k && promises[id].status == Fulfilled(v)
  }

  /** A settled placeholder stays as it is. */
  lemma StepKeepsSettled<K, V>(s: State<K, V>, a: Action<K, V>, maxSize: nat, id: nat)
    requires Inv(s) && Enabled(s, a) && id < |s.promises|
    ensures var s' := Do(s, a, maxSize);
            && id < |s'.promises| && s'.promises[id].(status := Pending) == s.promises[id].(status := Pending)
            && (!s.promises[id].status.Pending? ==> s'.promises[id] == s.promises[id])
  {
    assert ThreadSound(s.threads[a.t], a.t, s.promises, s.removed);
    hide Inv, Apply, Lookup;
  }

  lemma StepKeepsBacked<K, V>(s: State<K, V>, a: Action<K, V>, maxSize: nat)
    requires Inv(s) && Enabled(s, a) && Backed(s)
    ensures Backed(Do(s, a, maxSize))
  {
    var s', th := Do(s, a, maxSize), s.threads[a.t];
    forall n | 0 <= n < |s'.outcomes| && s'.outcomes[n].Returned?
      ensures BackedBy(s'.promises, s'.outcomes[n].key, s'.outcomes[n].value)
    {
      if n < |s.outcomes| {
        assert s'.outcomes[n] == s.outcomes[n];
        var id: nat :| id < |s.promises| && s.promises[id].key == s.outcomes[n].key
                       && s.promises[id].status == Fulfilled(s.outcomes[n].value);
        StepKeepsSettled(s, a, maxSize, id);
      } else {
        assert ThreadSound(th, a.t, s.promises, s.removed);
        assert s'.promises[th.id].status == Fulfilled(s'.outcomes[n].value);
      }
    }
    hide Inv, Apply, Lookup;
  }

  lemma {:induction false} RunKeepsBacked<K, V>(run: seq<State<K, V>>, actions: seq<Action<K, V>>, threadCount: nat,
                                                maxSize: nat, i: nat)
    requires IsRun(run, actions, threadCount, maxSize) && i < |run|
    ensures Backed(run[i])
  {
    hide Do, Enabled, Inv, Keys, Distinct, BackedBy;
    if i > 0 {
      RunKeepsBacked(run, actions, threadCount, maxSize, i - 1);
      CacheOfRun(run, actions, threadCount, maxSize, i - 1);
      StepKeepsBacked(run[i - 1], actions[i - 1], maxSize);
    }
  }

  lemma {:induction false} PromiseStays<K, V>(run: seq<State<K, V>>, actions: seq<Action<K, V>>, threadCount: nat,
                                              maxSize: nat, i: nat, j: nat, id: nat)
    requires IsRun(run, actions, threadCount, maxSize) && i <= j < |run| && id < |run[i].promises|
    ensures id < |run[j].promises|
    ensures run[j].promises[id].(status := Pending) == run[i].promises[id].(status := Pending)
    decreases j
  {
    hide Do, Enabled, Inv, Keys, Distinct;
    if i < j {
      PromiseStays(run, actions, threadCount, maxSize, i, j - 1, id);
      CacheOfRun(run, actions, threadCount, maxSize, j - 1);
      StepKeepsSettled(run[j - 1], actions[j - 1], maxSize, id);
    }
  }

  /** A computing thread owns a placeholder of its key, then and later. */
  lemma ComputingOwns<K, V>(run: seq<State<K, V>>, actions: seq<Action<K, V>>, threadCount: nat, maxSize: nat,
                            m: nat, i: nat, t: nat, k: K) returns (id: nat)
    requires IsRun(run, actions, threadCount, maxSize) && m <= i < |run| && IsComputing(run[m], t, k)
    ensures id < |run[i].promises| && id in MadeFor(run[i].promises, k) && run[i].promises[id].owner == t
  {
    hide Do, Enabled, Keys, Distinct, CacheSound, HistorySound, ValuesSound;
    CacheOfRun(run, actions, threadCount, maxSize, m);
    id := run[m].threads[t].id;
    assert ThreadSound(run[m].threads[t], t, run[m].promises, run[m].removed);
    PromiseStays(run, actions, threadCount, maxSize, m, i, id);
  }

  /** As long as no placeholder of a key was evicted or dropped, at most one thread ever computed it, all calls of it
      that returned have the same value, and `f()` returned at most once for it. */
  lemma SameValueWhileKept<K, V>(run: seq<State<K, V>>, actions: seq<Action<K, V>>, threadCount: nat, maxSize: nat,
                                 i: nat, k: K)
    requires IsRun(run, actions, threadCount, maxSize) && i < |run|
    requires forall id :: id in run[i].removed && id < |run[i].promises| ==> run[i].promises[id].key != k
    ensures forall m: nat, n: nat, t: nat, u: nat ::
              m <= i && n <= i && IsComputing(run[m], t, k) && IsComputing(run[n], u, k) ==> t == u
    ensures forall m: nat, n: nat :: HasReturned(run[i], m, k) && HasReturned(run[i], n, k) ==>
                                       run[i].outcomes[m].value == run[i].outcomes[n].value
    ensures ComputedFor(run[i].computed, k) <= 1
  {
    hide IsRun, Inv, Backed, IsComputing, HasReturned, Keys, Distinct;
    CacheOfRun(run, actions, threadCount, maxSize, i);
    RunKeepsBacked(run, actions, threadCount, maxSize, i);
    ComputedOncePerRemoval(run, actions, threadCount, maxSize, i, k);
    var made := MadeFor(run[i].promises, k);
    assert made * run[i].removed.Keys == {};
    assert made - run[i].removed.Keys == made;
    OneKept(run[i], k);
    forall m: nat, n: nat, t: nat, u: nat
      | m <= i && n <= i && IsComputing(run[m], t, k) && IsComputing(run[n], u, k)
      ensures t == u
    {
      var p := ComputingOwns(run, actions, threadCount, maxSize, m, i, t, k);
      var q := ComputingOwns(run, actions, threadCount, maxSize, n, i, u, k);
    }
    OneValue(run[i], k);
  }

  predicate IsComputing<K(==), V>(s: State<K, V>, t: nat, k: K) {
    t < |s.threads| && s.threads[t].Computing? && s.threads[t].key == k
  }

  predicate HasReturned<K(==), V>(s: State<K, V>, n: nat, k: K) {
    n < |s.outcomes| && s.outcomes[n].Returned? && s.outcomes[n].key == k
  }

  lemma OneValue<K, V>(s: State<K, V>, k: K)
    requires Backed(s) && forall p, q :: p in MadeFor(s.promises, k) && q in MadeFor(s.promises, k) ==> p == q
    ensures forall m: nat, n: nat :: HasReturned(s, m, k) && HasReturned(s, n, k) ==>
                                       s.outcomes[m].value == s.outcomes[n].value
  {
    forall m: nat, n: nat | HasReturned(s, m, k) && HasReturned(s, n, k)
      ensures s.outcomes[m].value == s.outcomes[n].value
    {
      var v, w := s.outcomes[m].value, s.outcomes[n].value;
      var p: nat :| p < |s.promises| && s.promises[p].key == k && s.promises[p].status == Fulfilled(v);
      var q: nat :| q < |s.promises| && s.promises[q].key == k && s.promises[q].status == Fulfilled(w);
      assert p in MadeFor(s.promises, k) && q in MadeFor(s.promises, k);
    }
  }

  // ---------- From a call to its end ----------

  lemma {:induction false} ThreadWaits<K, V>(run: seq<State<K, V>>, actions: seq<Action<K, V>>, threadCount: nat,
                                             maxSize: nat, i: nat, j: nat, t: nat)
    requires IsRun(run, actions, threadCount, maxSize) && i <= j < |run| && t < |run[i].threads|
    requires forall m :: i <= m < j ==> actions[m].t != t
    ensures t < |run[j].threads| && run[j].threads[t] == run[i].threads[t]
    decreases j
  {
    hide Do, Enabled, Inv, Keys, Distinct;
    if i < j {
      ThreadWaits(run, actions, threadCount, maxSize, i, j - 1, t);
      CacheOfRun(run, actions, threadCount, maxSize, j - 1);
      OthersStay(run[j - 1], actions[j - 1], maxSize, t);
    }
  }

  lemma OthersStay<K, V>(s: State<K, V>, a: Action<K, V>, maxSize: nat, t: nat)
    requires Enabled(s, a) && t < |s.threads| && a.t != t
    ensures t < |Do(s, a, maxSize).threads| && Do(s, a, maxSize).threads[t] == s.threads[t]
  {
    hide Apply, Lookup;
  }

  lemma {:induction false} SettledStays<K, V>(run: seq<State<K, V>>, actions: seq<Action<K, V>>, threadCount: nat,
                                              maxSize: nat, i: nat, j: nat, id: nat)
    requires IsRun(run, actions, threadCount, maxSize) && i <= j < |run| && id < |run[i].promises|
    requires !run[i].promises[id].status.Pending?
    ensures id < |run[j].promises| && run[j].promises[id] == run[i].promises[id]
    decreases j
  {
    hide Do, Enabled, Inv, Keys, Distinct;
    if i < j {
      SettledStays(run, actions, threadCount, maxSize, i, j - 1, id);
      CacheOfRun(run, actions, threadCount, maxSize, j - 1);
      StepKeepsSettled(run[j - 1], actions[j - 1], maxSize, id);
    }
  }

  /** A thread in `get()` on a placeholder: its next step ends the call with what the placeholder holds, and computes
      nothing. */
  lemma GetEnds<K, V>(run: seq<State<K, V>>, actions: seq<Action<K, V>>, threadCount: nat, maxSize: nat,
                      i: nat, j: nat, t: nat, k: K, id: nat)
    requires IsRun(run, actions, threadCount, maxSize) && i <= j < |actions|
    requires t < |run[i].threads| && run[i].threads[t] == Getting(k, id)
    requires actions[j].t == t && forall m :: i <= m < j ==> actions[m].t != t
    ensures actions[j] == Action.Get(t) && id < |run[j].promises|
    ensures run[j].promises[id].status.Fulfilled? || run[j].promises[id].status.Abandoned?
    ensures run[j + 1].outcomes
            == run[j].outcomes + [match run[j].promises[id].status
                                  case Fulfilled(v) => Returned(k, v)
                                  case _ => Broken(k)]
    ensures run[j + 1].computed == run[j].computed
  {
    ThreadWaits(run, actions, threadCount, maxSize, i, j, t);
    CacheOfRun(run, actions, threadCount, maxSize, j);
    hide IsRun, Inv, Keys, Distinct;
  }

  /** A hit, from call to end: the call returns what the cached placeholder was, or is meanwhile, fulfilled with. */
  lemma HitReturns<K, V>(run: seq<State<K, V>>, actions: seq<Action<K, V>>, threadCount: nat, maxSize: nat,
                         i: nat, j: nat, t: nat, k: K, id: nat)
    requires IsRun(run, actions, threadCount, maxSize) && i < j < |actions|
    requires actions[i] == Call(t, k) && (k, id) in run[i].cache
    requires actions[j].t == t && forall m :: i < m < j ==> actions[m].t != t
    ensures actions[j] == Action.Get(t) && id < |run[j].promises| && !run[j].promises[id].status.Pending?
    ensures run[j].promises[id].status.Fulfilled? ==>
              run[j + 1].outcomes == run[j].outcomes + [Returned(k, run[j].promises[id].status.value)]
    ensures id < |run[i].promises| && run[i].promises[id].status.Fulfilled? ==>
              run[j + 1].outcomes == run[j].outcomes + [Returned(k, run[i].promises[id].status.value)]
  {
    hide Inv, Keys, Distinct;
    var p := HitJoins(run, actions, threadCount, maxSize, i, t, k, id);
    GetEnds(run, actions, threadCount, maxSize, i + 1, j, t, k, id);
    if id < |run[i].promises| && run[i].promises[id].status.Fulfilled? {
      SettledStays(run, actions, threadCount, maxSize, i, j, id);
    }
  }

  /** A miss whose `f()` returned: the placeholder holds that value from then on, and the call returns it. */
  lemma ComputedIsReturned<K, V>(run: seq<State<K, V>>, actions: seq<Action<K, V>>, threadCount: nat, maxSize: nat,
                                 i: nat, j: nat, t: nat, v: V)
    requires IsRun(run, actions, threadCount, maxSize) && i < j < |actions| && actions[i] == Succeed(t, v)
    requires actions[j].t == t && forall m :: i < m < j ==> actions[m].t != t
    ensures t < |run[i].threads| && run[i].threads[t].Computing?
    ensures var k, id := run[i].threads[t].key, run[i].threads[t].id;
            && actions[j] == Action.Get(t)
            && id < |run[j].promises| && run[j].promises[id].status == Fulfilled(v)
            && run[j + 1].outcomes == run[j].outcomes + [Returned(k, v)]
  {
    hide Inv, Keys, Distinct, Apply, Lookup;
    CacheOfRun(run, actions, threadCount, maxSize, i);
    var k, id := run[i].threads[t].key, run[i].threads[t].id;
    assert run[i + 1].threads[t] == Getting(k, id) && run[i + 1].promises[id].status == Fulfilled(v);
    GetEnds(run, actions, threadCount, maxSize, i + 1, j, t, k, id);
    SettledStays(run, actions, threadCount, maxSize, i + 1, j, id);
  }
}
