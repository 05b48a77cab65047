/**
 The single-flight protocol of `ConcurrentCache::getOrPut` (src/concurrent_cache.h) over the least-recently-used
 cache: a miss publishes a placeholder before the value is computed, other callers wait on it, and a computation
 that throws takes the entry back.

 Each access to the cache happens under the lock and is one step; the computation `f()` runs outside it and ends
 with a value (`Succeed`), with an exception derived from `std::exception` (`Fail`) or with another one
 (`ThrowOther`), which the handler does not catch.
 */
module ConcurrentCaches {
  import opened LruCaches
  import opened Options
  import opened Sequences

  datatype Status<V> = Pending | Fulfilled(value: V) | Abandoned

  /** A promise and its shared future; `owner` is the thread whose frame holds the promise. */
  datatype Promise<K, V> = Promise(key: K, owner: nat, status: Status<V>)

  datatype Thread<K> =
    | Idle                          // outside getOrPut
    | Computing(key: K, id: nat)    // missed; f() is running
    | Failed(key: K, id: nat)       // f() threw; the entry is not yet dropped
    | Rethrowing(key: K, id: nat)   // the entry is dropped; the promise still lives
    | Getting(key: K, id: nat)      // in get() on the placeholder
  {
    predicate Producing() {
      Computing? || Failed? || Rethrowing?
    }
  }

  datatype Outcome<K, V> = Returned(key: K, value: V) | Threw(key: K) | Broken(key: K)

  /** `removed` maps each placeholder no longer cached to the number of placeholders made by the time of its removal;
      `computed` lists the values that `f()` returned, each with its key. */
  datatype State<K, V> = State(
    cache: seq<(K, nat)>, promises: seq<Promise<K, V>>, threads: seq<Thread<K>>,
    removed: map<nat, nat>, computed: seq<(K, V)>, outcomes: seq<Outcome<K, V>>)

  datatype Action<K, V> =
    | Call(t: nat, key: K) | Succeed(t: nat, value: V) | Fail(t: nat) | ThrowOther(t: nat)
    | DropEntry(t: nat) | Abandon(t: nat) | Get(t: nat)

  predicate Enabled<K, V>(s: State<K, V>, a: Action<K, V>) {
    && a.t < |s.threads|
    && var th := s.threads[a.t];
       match a
       case Call(_, _) => th.Idle?
       case DropEntry(_) => th.Failed?
       case Abandon(_) => th.Rethrowing? && th.id < |s.promises|
       case Get(_) => th.Getting? && th.id < |s.promises| && !s.promises[th.id].status.Pending?
       case _ => th.Computing? && th.id < |s.promises|
  }

  function SetStatus<K, V>(s: State<K, V>, id: nat, status: Status<V>): State<K, V>
    requires id < |s.promises|
  {
    s.(promises := s.promises[id := s.promises[id].(status := status)])
  }

  function SetThread<K, V>(s: State<K, V>, t: nat, th: Thread<K>): State<K, V>
    requires t < |s.threads|
  {
    s.(threads := s.threads[t := th])
  }

  /** `impl_.getOrPut(key, future)`: joins the cached placeholder or publishes a new one. */
  function DoCall<K(==), V>(s: State<K, V>, t: nat, key: K, maxSize: nat): State<K, V>
    requires t < |s.threads|
  {
    var id: nat := |s.promises|;
    var cache := LruCaches.Apply(s.cache, Op<K, nat>.GetOrPut(key, id), maxSize);
    match Lookup(s.cache, key)
    case Some(hit) => SetThread(s.(cache := cache), t, Getting(key, hit))
    case None =>
      var full: seq<(K, nat)> := [(key, id)] + s.cache;
      SetThread(s.(cache := cache, promises := s.promises + [Promise(key, t, Pending)],
                   removed := if |full| > maxSize then s.removed[full[|full| - 1].1 := id + 1] else s.removed),
                t, Computing(key, id))
  }

  /** `impl_.drop(key)`: removes whatever entry the key has by now. */
  function DoDrop<K(==), V>(s: State<K, V>, t: nat, maxSize: nat): State<K, V>
    requires t < |s.threads| && s.threads[t].Failed?
  {
    var th := s.threads[t];
    var removed := match Lookup(s.cache, th.key)
                   case Some(id) => s.removed[id := |s.promises|]
                   case None => s.removed;
    SetThread(s.(cache := LruCaches.Apply(s.cache, Op<K, nat>.Drop(th.key), maxSize), removed := removed),
              t, Rethrowing(th.key, th.id))
  }

  function Do<K(==), V>(s: State<K, V>, a: Action<K, V>, maxSize: nat): State<K, V>
    requires Enabled(s, a)
  {
    var th := s.threads[a.t];
    match a
    case Call(t, key) => DoCall(s, t, key, maxSize)
    case Succeed(t, v) =>
      SetThread(SetStatus(s, th.id, Fulfilled(v)).(computed := s.computed + [(th.key, v)]), t, Getting(th.key, th.id))
    case Fail(t) => SetThread(s, t, Failed(th.key, th.id))
    case ThrowOther(t) =>
      SetThread(SetStatus(s, th.id, Abandoned).(outcomes := s.outcomes + [Threw(th.key)]), t, Idle)
    case DropEntry(t) => DoDrop(s, t, maxSize)
    case Abandon(t) =>
      SetThread(SetStatus(s, th.id, Abandoned).(outcomes := s.outcomes + [Threw(th.key)]), t, Idle)
    case Get(t) =>
      var status := s.promises[th.id].status;
      var outcome := if status.Fulfilled? then Returned(th.key, status.value) else Broken(th.key);
      SetThread(s.(outcomes := s.outcomes + [outcome]), t, Idle)
  }

  function Initial<K, V>(threadCount: nat): State<K, V> {
    State([], [], seq(threadCount, _ => Idle), map[], [], [])
  }

  /** An interleaving of the calls of `threadCount` threads: `run[i]` is the state before `actions[i]`. */
  ghost predicate IsRun<K, V>(run: seq<State<K, V>>, actions: seq<Action<K, V>>, threadCount: nat, maxSize: nat) {
    && |run| == |actions| + 1 && run[0] == Initial(threadCount)
    && forall i :: 0 <= i < |actions| ==> Enabled(run[i], actions[i]) && run[i + 1] == Do(run[i], actions[i], maxSize)
  }

  // ---------- The invariant ----------

  /** Cached placeholders: distinct keys, each its own, none removed. */
  ghost predicate CacheSound<K, V>(cache: seq<(K, nat)>, promises: seq<Promise<K, V>>, removed: map<nat, nat>) {
    Distinct(Keys(cache)) && forall i :: 0 <= i < |cache| ==> EntrySound(cache[i], promises, removed)
  }

  ghost predicate EntrySound<K, V>(entry: (K, nat), promises: seq<Promise<K, V>>, removed: map<nat, nat>) {
    && entry.1 < |promises| && entry.1 !in removed
    && promises[entry.1].key == entry.0
  }

  /** A placeholder is cached until it is removed, and a key's next placeholder comes only after that. */
  ghost predicate HistorySound<K, V>(cache: seq<(K, nat)>, promises: seq<Promise<K, V>>, removed: map<nat, nat>) {
    && (forall id: nat :: id < |promises| ==> id in removed || (promises[id].key, id) in cache)
    && (forall id :: id in removed ==> id < removed[id] <= |promises|)
    && (forall p: nat, q: nat :: p < q < |promises| && promises[p].key == promises[q].key ==>
          p in removed && removed[p] <= q)
  }

  /** Each thread inside a call refers to a placeholder of its key, a producer to a pending one of its own, and each
      pending placeholder has its owner producing it. */
  ghost predicate ThreadsSound<K, V>(threads: seq<Thread<K>>, promises: seq<Promise<K, V>>, removed: map<nat, nat>) {
    && (forall t: nat :: t < |threads| ==> ThreadSound(threads[t], t, promises, removed))
    && (forall id: nat :: id < |promises| ==> PromiseSound(promises[id], id, threads))
  }

  ghost predicate ThreadSound<K, V>(th: Thread<K>, t: nat, promises: seq<Promise<K, V>>, removed: map<nat, nat>) {
    !th.Idle? ==>
      && th.id < |promises| && promises[th.id].key == th.key
      && (th.Producing() ==> promises[th.id].owner == t && promises[th.id].status.Pending?)
      && (th.Rethrowing? ==> th.id in removed)
  }

  ghost predicate PromiseSound<K, V>(p: Promise<K, V>, id: nat, threads: seq<Thread<K>>) {
    p.status.Pending? ==> p.owner < |threads| && threads[p.owner].Producing() && threads[p.owner].id == id
  }

  /** Whatever a placeholder or a call yields for a key, `f()` returned for that key. */
  ghost predicate ValuesSound<K, V>(promises: seq<Promise<K, V>>, computed: seq<(K, V)>,
                                    outcomes: seq<Outcome<K, V>>) {
    && (forall id: nat :: id < |promises| && promises[id].status.Fulfilled? ==>
          (promises[id].key, promises[id].status.value) in computed)
    && (forall i :: 0 <= i < |outcomes| && outcomes[i].Returned? ==> (outcomes[i].key, outcomes[i].value) in computed)
  }

  ghost predicate Inv<K, V>(s: State<K, V>) {
    && CacheSound(s.cache, s.promises, s.removed)
    && HistorySound(s.cache, s.promises, s.removed)
    && ThreadsSound(s.threads, s.promises, s.removed)
    && ValuesSound(s.promises, s.computed, s.outcomes)
  }

  // ---------- Every step keeps it ----------

  lemma {:induction false} InWithout<K, V>(c: seq<(K, V)>, k: K, e: (K, V))
    requires Distinct(Keys(c))
    ensures e in Without(c, k) <==> e in c && e.0 != k
  {
    if c != [] {
      assert forall i :: 0 <= i < |c| - 1 ==> Keys(c[1..])[i] == Keys(c)[i + 1];
      InWithout(c[1..], k, e);
      assert e in c <==> e == c[0] || e in c[1..];
      if c[0].0 == k && e in c[1..] {
        var i :| 0 <= i < |c| - 1 && c[1..][i] == e;
        assert Keys(c)[i + 1] != Keys(c)[0];
      }
      hide Distinct;
    }
  }

  lemma WithoutElements<K, V>(c: seq<(K, V)>, k: K)
    requires Distinct(Keys(c))
    ensures Distinct(Keys(Without(c, k)))
    ensures forall i :: 0 <= i < |Without(c, k)| ==> Without(c, k)[i] in c && Without(c, k)[i].0 != k
    ensures forall i :: 0 <= i < |c| && c[i].0 != k ==> c[i] in Without(c, k)
  {
    KeysOfWithout(c, k);
    RemoveKeepsDistinct(Keys(c), k);
    forall i | 0 <= i < |Without(c, k)| ensures Without(c, k)[i] in c && Without(c, k)[i].0 != k {
      InWithout(c, k, Without(c, k)[i]);
    }
    forall i | 0 <= i < |c| && c[i].0 != k ensures c[i] in Without(c, k) {
      InWithout(c, k, c[i]);
    }
    hide *;
  }

  lemma {:induction false} LookupElement<K, V>(c: seq<(K, V)>, k: K)
    ensures Lookup(c, k).Some? ==> (k, Lookup(c, k).value) in c
    ensures Lookup(c, k).None? ==> forall i :: 0 <= i < |c| ==> c[i].0 != k
  {
    if c != [] {
      LookupElement(c[1..], k);
      if c[0].0 == k {
        assert c[0] == (k, c[0].1);
      }
    }
  }

  /** A hit only reorders the cache. */
  lemma HitElements<K, V>(c: seq<(K, V)>, k: K)
    requires Distinct(Keys(c)) && Lookup(c, k).Some?
    ensures var c' := [(k, Lookup(c, k).value)] + Without(c, k);
            && Distinct(Keys(c'))
            && (forall i :: 0 <= i < |c'| ==> c'[i] in c)
            && (forall i :: 0 <= i < |c| ==> c[i] in c')
  {
    WithoutElements(c, k);
    LookupElement(c, k);
    var rest := Without(c, k);
    var c' := [(k, Lookup(c, k).value)] + rest;
    assert Keys(c') == [k] + Keys(rest);
    forall i | 0 <= i < |c| ensures c[i] in c' {
      if c[i].0 == k {
        var j :| 0 <= j < |c| && c[j] == c'[0];
        assert Keys(c)[i] == Keys(c)[j];
        assert c'[0] in c';
      }
    }
  }

  /** The cache may be rearranged, as long as it holds the same entries. */
  lemma SameEntries<K, V>(c: seq<(K, nat)>, c': seq<(K, nat)>, promises: seq<Promise<K, V>>, removed: map<nat, nat>)
    requires CacheSound(c, promises, removed) && HistorySound(c, promises, removed)
    requires Distinct(Keys(c'))
    requires forall i :: 0 <= i < |c'| ==> c'[i] in c
    requires forall i :: 0 <= i < |c| ==> c[i] in c'
    ensures CacheSound(c', promises, removed) && HistorySound(c', promises, removed)
  {
  }

  lemma ThreadMoves<K, V>(threads: seq<Thread<K>>, promises: seq<Promise<K, V>>, removed: map<nat, nat>,
                          t: nat, th: Thread<K>)
    requires ThreadsSound(threads, promises, removed) && t < |threads| && ThreadSound(th, t, promises, removed)
    requires threads[t].Producing() ==> th.Producing() && th.id == threads[t].id
    ensures ThreadsSound(threads[t := th], promises, removed)
  {
  }

  lemma HitKeepsInv<K, V>(s: State<K, V>, t: nat, key: K, maxSize: nat)
    requires Inv(s) && t < |s.threads| && s.threads[t].Idle? && Lookup(s.cache, key).Some?
    ensures Inv(DoCall(s, t, key, maxSize))
  {
    var s' := DoCall(s, t, key, maxSize);
    HitElements(s.cache, key);
    SameEntries(s.cache, s'.cache, s.promises, s.removed);
    LookupElement(s.cache, key);
    hide HistorySound, ValuesSound, ThreadsSound;
    ThreadMoves(s.threads, s.promises, s.removed, t, s'.threads[t]);
  }

  lemma PublishKeepsCache<K, V>(c: seq<(K, nat)>, promises: seq<Promise<K, V>>, removed: map<nat, nat>,
                                p: Promise<K, V>)
    requires CacheSound(c, promises, removed) && HistorySound(c, promises, removed) && p.status.Pending?
    requires forall i :: 0 <= i < |c| ==> c[i].0 != p.key
    ensures CacheSound([(p.key, |promises|)] + c, promises + [p], removed)
    ensures HistorySound([(p.key, |promises|)] + c, promises + [p], removed)
  {
    var c', ps := [(p.key, |promises|)] + c, promises + [p];
    assert Keys(c') == [p.key] + Keys(c);
    forall i | 0 <= i < |c'| ensures EntrySound(c'[i], ps, removed) {
      assert i > 0 ==> EntrySound(c[i - 1], promises, removed);
    }
    forall id: nat | id < |ps| ensures id in removed || (ps[id].key, id) in c' {
      assert id == |promises| ==> c'[0] == (ps[id].key, id);
    }
  }

  /** Removing one entry and recording it keeps both. */
  lemma RemoveKeepsCache<K, V>(c: seq<(K, nat)>, c': seq<(K, nat)>, entry: (K, nat),
                               promises: seq<Promise<K, V>>, removed: map<nat, nat>)
    requires CacheSound(c, promises, removed) && HistorySound(c, promises, removed) && entry in c
    requires Distinct(Keys(c'))
    requires forall i :: 0 <= i < |c'| ==> c'[i] in c && c'[i].0 != entry.0
    requires forall i :: 0 <= i < |c| && c[i].0 != entry.0 ==> c[i] in c'
    ensures CacheSound(c', promises, removed[entry.1 := |promises|])
    ensures HistorySound(c', promises, removed[entry.1 := |promises|])
  {
    var removed' := removed[entry.1 := |promises|];
    var at :| 0 <= at < |c| && c[at] == entry;
    assert EntrySound(entry, promises, removed);
    forall i | 0 <= i < |c'| ensures EntrySound(c'[i], promises, removed') {
      var j :| 0 <= j < |c| && c[j] == c'[i];
      assert EntrySound(c[j], promises, removed);
    }
    forall j | 0 <= j < |c| && j != at ensures c[j].0 != entry.0 {
      assert Keys(c)[j] != Keys(c)[at];
    }
    forall id: nat | id < |promises| ensures id in removed' || (promises[id].key, id) in c' {
      if id !in removed' {
        var j :| 0 <= j < |c| && c[j] == (promises[id].key, id);
      }
    }
  }

  lemma RemovedGrows<K, V>(threads: seq<Thread<K>>, promises: seq<Promise<K, V>>, removed: map<nat, nat>,
                           id: nat, time: nat)
    requires ThreadsSound(threads, promises, removed)
    ensures ThreadsSound(threads, promises, removed[id := time])
  {
    var removed' := removed[id := time];
    forall t: nat | t < |threads| ensures ThreadSound(threads[t], t, promises, removed') {
      assert ThreadSound(threads[t], t, promises, removed);
    }
  }

  lemma PublishKeepsThreads<K, V>(threads: seq<Thread<K>>, promises: seq<Promise<K, V>>, removed: map<nat, nat>,
                                  t: nat, key: K)
    requires ThreadsSound(threads, promises, removed) && t < |threads| && threads[t].Idle?
    ensures ThreadsSound(threads[t := Computing(key, |promises|)], promises + [Promise(key, t, Pending)], removed)
  {
    var threads', ps := threads[t := Computing(key, |promises|)], promises + [Promise(key, t, Pending)];
    forall u: nat | u < |threads'| ensures ThreadSound(threads'[u], u, ps, removed) {
      assert ThreadSound(threads[u], u, promises, removed);
    }
    forall id: nat | id < |ps| ensures PromiseSound(ps[id], id, threads') {
      assert id < |promises| ==> PromiseSound(promises[id], id, threads);
    }
  }

  lemma EvictKeepsCache<K, V>(full: seq<(K, nat)>, promises: seq<Promise<K, V>>, removed: map<nat, nat>)
    requires CacheSound(full, promises, removed) && HistorySound(full, promises, removed) && full != []
    ensures var last, c := full[|full| - 1], full[..|full| - 1];
            && CacheSound(c, promises, removed[last.1 := |promises|])
            && HistorySound(c, promises, removed[last.1 := |promises|])
  {
    var last, c := full[|full| - 1], full[..|full| - 1];
    forall i | 0 <= i < |c| ensures c[i].0 != last.0 {
      assert Keys(full)[i] != Keys(full)[|full| - 1];
    }
    assert Keys(c) == Keys(full)[..|full| - 1];
    RemoveKeepsCache(full, c, last, promises, removed);
  }

  lemma MissKeepsInv<K, V>(s: State<K, V>, t: nat, key: K, maxSize: nat)
    requires Inv(s) && t < |s.threads| && s.threads[t].Idle? && Lookup(s.cache, key).None?
    ensures Inv(DoCall(s, t, key, maxSize))
  {
    hide CacheSound, HistorySound, ThreadsSound;
    var p := Promise<K, V>.Promise(key, t, Pending);
    var full: seq<(K, nat)> := [(key, |s.promises|)] + s.cache;
    LookupElement(s.cache, key);
    PublishKeepsCache(s.cache, s.promises, s.removed, p);
    PublishKeepsThreads(s.threads, s.promises, s.removed, t, key);
    if |full| > maxSize {
      EvictKeepsCache(full, s.promises + [p], s.removed);
      RemovedGrows(s.threads[t := Computing(key, |s.promises|)], s.promises + [p], s.removed,
                   full[|full| - 1].1, |s.promises| + 1);
    }
  }

  lemma DropKeepsInv<K, V>(s: State<K, V>, t: nat, maxSize: nat)
    requires Inv(s) && t < |s.threads| && s.threads[t].Failed?
    ensures Inv(DoDrop(s, t, maxSize))
  {
    var th := s.threads[t];
    var s' := DoDrop(s, t, maxSize);
    WithoutElements(s.cache, th.key);
    LookupElement(s.cache, th.key);
    assert ThreadSound(th, t, s.promises, s.removed);
    match Lookup(s.cache, th.key) {
      case Some(id) =>
        RemoveKeepsCache(s.cache, Without(s.cache, th.key), (th.key, id), s.promises, s.removed);
        RemovedGrows(s.threads, s.promises, s.removed, id, |s.promises|);
      case None =>
        SameEntries(s.cache, Without(s.cache, th.key), s.promises, s.removed);
    }
    assert th.id in s'.removed;
    ThreadMoves(s.threads, s.promises, s'.removed, t, Rethrowing(th.key, th.id));
  }

  /** Settling a promise by its owner leaves every other thread's placeholder alone. */
  lemma SettleKeepsThreads<K, V>(threads: seq<Thread<K>>, promises: seq<Promise<K, V>>, removed: map<nat, nat>,
                                 t: nat, th: Thread<K>, status: Status<V>)
    requires ThreadsSound(threads, promises, removed) && t < |threads| && threads[t].Producing()
    requires th.Idle? || th == Getting(threads[t].key, threads[t].id)
    requires !status.Pending? && threads[t].id < |promises|
    ensures var id := threads[t].id;
            ThreadsSound(threads[t := th], promises[id := promises[id].(status := status)], removed)
  {
    var id := threads[t].id;
    var threads', ps := threads[t := th], promises[id := promises[id].(status := status)];
    assert ThreadSound(threads[t], t, promises, removed);
    forall u: nat | u < |threads'| ensures ThreadSound(threads'[u], u, ps, removed) {
      assert ThreadSound(threads[u], u, promises, removed);
    }
    forall i: nat | i < |ps| ensures PromiseSound(ps[i], i, threads') {
      assert PromiseSound(promises[i], i, threads);
    }
  }

  lemma SettleKeepsCache<K, V>(c: seq<(K, nat)>, promises: seq<Promise<K, V>>, removed: map<nat, nat>,
                               id: nat, status: Status<V>)
    requires CacheSound(c, promises, removed) && HistorySound(c, promises, removed) && id < |promises|
    ensures CacheSound(c, promises[id := promises[id].(status := status)], removed)
    ensures HistorySound(c, promises[id := promises[id].(status := status)], removed)
  {
    var ps := promises[id := promises[id].(status := status)];
    forall i | 0 <= i < |c| ensures EntrySound(c[i], ps, removed) {
      assert EntrySound(c[i], promises, removed);
    }
    forall i: nat | i < |ps| ensures i in removed || (ps[i].key, i) in c {
      assert ps[i].key == promises[i].key;
    }
  }

  lemma SucceedKeepsInv<K, V>(s: State<K, V>, a: Action<K, V>, maxSize: nat)
    requires Inv(s) && Enabled(s, a) && a.Succeed?
    ensures Inv(Do(s, a, maxSize))
  {
    var th := s.threads[a.t];
    SettleKeepsCache(s.cache, s.promises, s.removed, th.id, Fulfilled(a.value));
    SettleKeepsThreads(s.threads, s.promises, s.removed, a.t, Getting(th.key, th.id), Fulfilled(a.value));
    assert ThreadSound(th, a.t, s.promises, s.removed);
    hide CacheSound, HistorySound, ThreadsSound;
  }

  /** Both after the drop and when the handler does not catch the exception. */
  lemma AbandonKeepsInv<K, V>(s: State<K, V>, a: Action<K, V>, maxSize: nat)
    requires Inv(s) && Enabled(s, a) && (a.Abandon? || a.ThrowOther?)
    ensures Inv(Do(s, a, maxSize))
  {
    var th := s.threads[a.t];
    assert ThreadSound(th, a.t, s.promises, s.removed);
    SettleKeepsCache(s.cache, s.promises, s.removed, th.id, Abandoned);
    SettleKeepsThreads(s.threads, s.promises, s.removed, a.t, Idle, Abandoned);
    hide CacheSound, HistorySound, ThreadsSound;
  }

  lemma FailKeepsInv<K, V>(s: State<K, V>, a: Action<K, V>, maxSize: nat)
    requires Inv(s) && Enabled(s, a) && a.Fail?
    ensures Inv(Do(s, a, maxSize))
  {
    var th := s.threads[a.t];
    assert ThreadSound(th, a.t, s.promises, s.removed);
    ThreadMoves(s.threads, s.promises, s.removed, a.t, Failed(th.key, th.id));
    hide CacheSound, HistorySound, ThreadsSound;
  }

  lemma GetKeepsInv<K, V>(s: State<K, V>, a: Action<K, V>, maxSize: nat)
    requires Inv(s) && Enabled(s, a) && a.Get?
    ensures Inv(Do(s, a, maxSize))
  {
    var th := s.threads[a.t];
    assert ThreadSound(th, a.t, s.promises, s.removed);
    ThreadMoves(s.threads, s.promises, s.removed, a.t, Idle);
    hide CacheSound, HistorySound, ThreadsSound;
  }

  lemma StepKeepsInv<K, V>(s: State<K, V>, a: Action<K, V>, maxSize: nat)
    requires Inv(s) && Enabled(s, a)
    ensures Inv(Do(s, a, maxSize))
  {
    hide Inv, DoCall, DoDrop;
    match a {
      case Call(t, key) =>
        if Lookup(s.cache, key).Some? {
          HitKeepsInv(s, t, key, maxSize);
        } else {
          MissKeepsInv(s, t, key, maxSize);
        }
      case Succeed(_, _) => SucceedKeepsInv(s, a, maxSize);
      case Fail(_) => FailKeepsInv(s, a, maxSize);
      case DropEntry(t) => DropKeepsInv(s, t, maxSize);
      case Abandon(_) => AbandonKeepsInv(s, a, maxSize);
      case ThrowOther(_) => AbandonKeepsInv(s, a, maxSize);
      case Get(_) => GetKeepsInv(s, a, maxSize);
    }
  }

  lemma {:induction false} RunKeepsInv<K, V>(run: seq<State<K, V>>, actions: seq<Action<K, V>>, threadCount: nat,
                                             maxSize: nat, i: nat)
    requires IsRun(run, actions, threadCount, maxSize) && i < |run|
    ensures Inv(run[i]) && |run[i].threads| == threadCount
  {
    hide Do, Inv;
    if i == 0 {
      InitialInv<K, V>(threadCount);
    } else {
      RunKeepsInv(run, actions, threadCount, maxSize, i - 1);
      StepKeepsInv(run[i - 1], actions[i - 1], maxSize);
      ThreadCountKept(run[i - 1], actions[i - 1], maxSize);
      assert run[i - 1 + 1] == Do(run[i - 1], actions[i - 1], maxSize);
    }
  }

  lemma InitialInv<K, V>(threadCount: nat)
    ensures Inv(Initial<K, V>(threadCount))
  {
  }

  lemma ThreadCountKept<K, V>(s: State<K, V>, a: Action<K, V>, maxSize: nat)
    requires Enabled(s, a)
    ensures |Do(s, a, maxSize).threads| == |s.threads|
  {
  }
}
