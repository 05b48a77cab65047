/**
 What callers of the concurrent cache can rely on (`ConcurrentCache::getOrPut` of src/concurrent_cache.h), in every
 interleaving.
 */
module CacheGuarantees {
  import opened ConcurrentCaches
  import opened LruCaches
  import opened Options
  import opened Sequences

  // ---------- What callers can rely on ----------

  /** Every call that returned has a value that `f()` returned for its key. */
  lemma ReturnsComputedValues<K, V>(run: seq<State<K, V>>, actions: seq<Action<K, V>>, threadCount: nat, maxSize: nat,
                                    i: nat, n: nat)
    requires IsRun(run, actions, threadCount, maxSize)
    requires i < |run| && n < |run[i].outcomes| && run[i].outcomes[n].Returned?
    ensures (run[i].outcomes[n].key, run[i].outcomes[n].value) in run[i].computed
  {
    RunKeepsInv(run, actions, threadCount, maxSize, i);
  }

  /** Every unfulfilled placeholder, cached or not, has exactly one live producer. */
  lemma OneProducer<K, V>(run: seq<State<K, V>>, actions: seq<Action<K, V>>, threadCount: nat, maxSize: nat,
                          i: nat, id: nat) returns (owner: nat)
    requires IsRun(run, actions, threadCount, maxSize)
    requires i < |run| && id < |run[i].promises| && run[i].promises[id].status.Pending?
    ensures owner < threadCount == |run[i].threads|
    ensures forall t: nat :: t < threadCount ==>
              (run[i].threads[t].Producing() && run[i].threads[t].id == id <==> t == owner)
  {
    RunKeepsInv(run, actions, threadCount, maxSize, i);
    var s := run[i];
    owner := s.promises[id].owner;
    assert PromiseSound(s.promises[id], id, s.threads);
    forall t: nat | t < threadCount && s.threads[t].Producing() && s.threads[t].id == id ensures t == owner {
      assert ThreadSound(s.threads[t], t, s.promises, s.removed);
    }
  }

  /** Single flight: of any two placeholders of one key, the earlier was evicted or dropped before the later was made.
      Two threads computing one key at the same time are such a pair. */
  lemma SingleFlight<K, V>(run: seq<State<K, V>>, actions: seq<Action<K, V>>, threadCount: nat, maxSize: nat,
                           i: nat, t: nat, u: nat)
    requires IsRun(run, actions, threadCount, maxSize) && i < |run|
    requires t < |run[i].threads| && u < |run[i].threads| && t != u
    requires run[i].threads[t].Computing? && run[i].threads[u].Computing?
    requires run[i].threads[t].key == run[i].threads[u].key && run[i].threads[t].id <= run[i].threads[u].id
    ensures var p, q := run[i].threads[t].id, run[i].threads[u].id;
            p < q && p in run[i].removed && run[i].removed[p] <= q
  {
    RunKeepsInv(run, actions, threadCount, maxSize, i);
    assert ThreadSound(run[i].threads[t], t, run[i].promises, run[i].removed);
    assert ThreadSound(run[i].threads[u], u, run[i].promises, run[i].removed);
  }

  // ---------- Waiters are never stuck ----------

  function Rank<K>(th: Thread<K>): nat {
    match th
    case Idle => 0 case Getting(_, _) => 1 case Rethrowing(_, _) => 2 case Failed(_, _) => 3 case Computing(_, _) => 4
  }

  function TotalRank<K>(threads: seq<Thread<K>>): nat {
    if threads == [] then 0 else TotalRank(threads[..|threads| - 1]) + Rank(threads[|threads| - 1])
  }

  lemma {:induction false} TotalRankUpdate<K>(threads: seq<Thread<K>>, t: nat, th: Thread<K>)
    requires t < |threads|
    ensures TotalRank(threads[t := th]) == TotalRank(threads) - Rank(threads[t]) + Rank(th)
  {
    var last := |threads| - 1;
    if t < last {
      TotalRankUpdate(threads[..last], t, th);
      assert threads[t := th][..last] == threads[..last][t := th];
    } else {
      assert threads[t := th][..last] == threads[..last];
    }
  }

  lemma {:induction false} TotalRankBound<K>(threads: seq<Thread<K>>)
    ensures TotalRank(threads) <= 4 * |threads|
    ensures TotalRank(threads) == 0 ==> forall t :: 0 <= t < |threads| ==> threads[t].Idle?
  {
    if threads != [] {
      TotalRankBound(threads[..|threads| - 1]);
    }
  }

  /** Every step but a new call brings some call closer to its end. */
  lemma StepAdvances<K, V>(s: State<K, V>, a: Action<K, V>, maxSize: nat)
    requires Enabled(s, a) && !a.Call?
    ensures TotalRank(Do(s, a, maxSize).threads) < TotalRank(s.threads)
  {
    TotalRankUpdate(s.threads, a.t, Do(s, a, maxSize).threads[a.t]);
  }

  /** The step that brings a given call closer to its end: the caller's own, or, when it waits for a pending
      placeholder, that of the one thread producing it. */
  function Helpful<K, V>(s: State<K, V>, t: nat, value: V): Action<K, V>
    requires t < |s.threads|
  {
    var th := s.threads[t];
    var u := if th.Getting? && th.id < |s.promises| && s.promises[th.id].status.Pending?
             then s.promises[th.id].owner else t;
    if u >= |s.threads| then Action.Get(u)
    else match s.threads[u]
         case Computing(_, _) => Succeed(u, value)
         case Failed(_, _) => DropEntry(u)
         case Rethrowing(_, _) => Abandon(u)
         case _ => Action.Get(u)
  }

  /** No deadlock: while any thread is inside a call, a step other than a new call is possible, and at most four
      such steps per thread remain. So when `f()` always ends and never re-enters the cache, every call ends. */
  lemma WaitersProgress<K, V>(run: seq<State<K, V>>, actions: seq<Action<K, V>>, threadCount: nat, maxSize: nat,
                              i: nat, t: nat, value: V)
    requires IsRun(run, actions, threadCount, maxSize)
    requires i < |run| && t < |run[i].threads| && !run[i].threads[t].Idle?
    ensures var a := Helpful(run[i], t, value); Enabled(run[i], a) && !a.Call? && !a.ThrowOther?
    ensures TotalRank(run[i].threads) <= 4 * threadCount
  {
    var s := run[i];
    RunKeepsInv(run, actions, threadCount, maxSize, i);
    TotalRankBound(s.threads);
    assert ThreadSound(s.threads[t], t, s.promises, s.removed);
    var p := s.promises[s.threads[t].id];
    assert PromiseSound(p, s.threads[t].id, s.threads);
    if s.threads[t].Getting? && p.status.Pending? {
      assert ThreadSound(s.threads[p.owner], p.owner, s.promises, s.removed);
    }
  }

  // ---------- Every run ends, with every call ended ----------

  function CallCount<K, V>(actions: seq<Action<K, V>>): nat {
    if actions == [] then 0
    else CallCount(actions[..|actions| - 1]) + if actions[|actions| - 1].Call? then 1 else 0
  }

  /** The threads inside a call. */
  function Busy<K>(threads: seq<Thread<K>>): nat {
    if threads == [] then 0 else Busy(threads[..|threads| - 1]) + if threads[|threads| - 1].Idle? then 0 else 1
  }

  lemma {:induction false} BusyUpdate<K>(threads: seq<Thread<K>>, t: nat, th: Thread<K>)
    requires t < |threads|
    ensures Busy(threads[t := th])
            == Busy(threads) - (if threads[t].Idle? then 0 else 1) + if th.Idle? then 0 else 1
  {
    var last := |threads| - 1;
    if t < last {
      BusyUpdate(threads[..last], t, th);
      assert threads[t := th][..last] == threads[..last][t := th];
    } else {
      assert threads[t := th][..last] == threads[..last];
    }
  }

  lemma {:induction false} NobodyBusy<K>(threads: seq<Thread<K>>)
    ensures Busy(threads) == 0 <==> forall t :: 0 <= t < |threads| ==> threads[t].Idle?
  {
    if threads != [] {
      NobodyBusy(threads[..|threads| - 1]);
    }
  }

  /** Each step of a run spends a step of some call; a call is in progress or has one outcome. */
  lemma CallsAccounted<K, V>(s: State<K, V>, a: Action<K, V>, maxSize: nat)
    requires Enabled(s, a)
    ensures var s' := Do(s, a, maxSize);
            && TotalRank(s'.threads) + 1 <= TotalRank(s.threads) + (if a.Call? then 5 else 0)
            && |s'.outcomes| + Busy(s'.threads) == |s.outcomes| + Busy(s.threads) + if a.Call? then 1 else 0
  {
    var s' := Do(s, a, maxSize);
    assert s'.threads == s.threads[a.t := s'.threads[a.t]];
    TotalRankUpdate(s.threads, a.t, s'.threads[a.t]);
    BusyUpdate(s.threads, a.t, s'.threads[a.t]);
  }

  lemma {:induction false} NobodyCalled<K>(threads: seq<Thread<K>>)
    requires forall t :: 0 <= t < |threads| ==> threads[t].Idle?
    ensures TotalRank(threads) == 0 == Busy(threads)
  {
    if threads != [] {
      NobodyCalled(threads[..|threads| - 1]);
    }
  }

  /** At most five steps a call; and every call is in progress or has ended. */
  lemma {:induction false} RunIsBounded<K, V>(run: seq<State<K, V>>, actions: seq<Action<K, V>>, threadCount: nat,
                                              maxSize: nat, i: nat)
    requires IsRun(run, actions, threadCount, maxSize) && i < |run|
    ensures i + TotalRank(run[i].threads) <= 5 * CallCount(actions[..i])
    ensures |run[i].outcomes| + Busy(run[i].threads) == CallCount(actions[..i])
  {
    hide Do;
    if i == 0 {
      NobodyCalled(run[0].threads);
    } else {
      RunIsBounded(run, actions, threadCount, maxSize, i - 1);
      CallsAccounted(run[i - 1], actions[i - 1], maxSize);
      assert run[i - 1 + 1] == Do(run[i - 1], actions[i - 1], maxSize);
      assert actions[..i][..i - 1] == actions[..i - 1];
    }
  }

  /** No call can go on. */
  ghost predicate OnlyNewCalls<K(!new), V(!new)>(s: State<K, V>) {
    forall a: Action<K, V> :: Enabled(s, a) ==> a.Call?
  }

  /** No call is lost or stuck: a run with `c` calls has at most `5c` steps, whatever the exceptions; and a run in which
      only new calls are possible has every thread idle and every call ended with one outcome. */
  lemma EveryCallEnds<K(!new), V(!new)>(run: seq<State<K, V>>, actions: seq<Action<K, V>>, threadCount: nat,
                                        maxSize: nat, value: V)
    requires IsRun(run, actions, threadCount, maxSize)
    ensures |actions| <= 5 * CallCount(actions)
    ensures OnlyNewCalls(run[|actions|]) ==>
              && (forall t :: 0 <= t < threadCount == |run[|actions|].threads| ==> run[|actions|].threads[t].Idle?)
              && |run[|actions|].outcomes| == CallCount(actions)
  {
    var n := |actions|;
    RunIsBounded(run, actions, threadCount, maxSize, n);
    assert actions[..n] == actions;
    if OnlyNewCalls(run[n]) {
      forall t: nat | t < |run[n].threads| ensures run[n].threads[t].Idle? {
        if !run[n].threads[t].Idle? {
          WaitersProgress(run, actions, threadCount, maxSize, n, t, value);
        }
      }
      NobodyBusy(run[n].threads);
    }
    hide IsRun;
  }

  // ---------- Failures and the cache ----------

  /** No placeholder in the cache is abandoned. */
  ghost predicate NoneAbandoned<K, V>(s: State<K, V>) {
    forall i :: 0 <= i < |s.cache| ==> NotAbandoned(s, s.cache[i].1)
  }

  ghost predicate NotAbandoned<K, V>(s: State<K, V>, id: nat) {
    id < |s.promises| && !s.promises[id].status.Abandoned?
  }

  /** The placeholder of the thread's key that the cache holds is the thread's own. */
  ghost predicate OwnIsCached<K, V>(s: State<K, V>, t: nat)
    requires t < |s.threads| && !s.threads[t].Idle?
  {
    Lookup(s.cache, s.threads[t].key) == Some(s.threads[t].id)
  }

  /** The step is no uncaught exception with its own placeholder still cached. */
  ghost predicate Harmless<K, V>(s: State<K, V>, a: Action<K, V>)
    requires Enabled(s, a)
  {
    a.ThrowOther? ==> !OwnIsCached(s, a.t)
  }

  lemma LookupIsEntry<K, V>(c: seq<(K, V)>, k: K, v: V)
    requires Distinct(Keys(c))
    ensures Lookup(c, k) == Some(v) <==> (k, v) in c
  {
    LookupElement(c, k);
    if (k, v) in c {
      var i :| 0 <= i < |c| && c[i] == (k, v);
      var j :| 0 <= j < |c| && c[j] == (k, Lookup(c, k).value);
      assert Keys(c)[i] == Keys(c)[j];
    }
  }

  /** A step adds no entry to the cache but a new placeholder. */
  lemma CacheElements<K, V>(s: State<K, V>, a: Action<K, V>, maxSize: nat)
    requires Inv(s) && Enabled(s, a)
    ensures forall e :: e in Do(s, a, maxSize).cache ==> e in s.cache || e.1 == |s.promises|
  {
    if a.Call? || a.DropEntry? {
      var k := if a.Call? then a.key else s.threads[a.t].key;
      hide Inv, HistorySound, ThreadsSound, ValuesSound;
      assert Distinct(Keys(s.cache)) by {
        assert CacheSound(s.cache, s.promises, s.removed) by {
          InvCache(s);
        }
      }
      hide CacheSound;
      WithoutElements(s.cache, k);
      LookupElement(s.cache, k);
    }
  }

  lemma InvCache<K, V>(s: State<K, V>)
    requires Inv(s)
    ensures CacheSound(s.cache, s.promises, s.removed)
  {
  }

  /** A placeholder that a step abandons was removed before, or is that of an uncaught exception. */
  lemma AbandonedByStep<K, V>(s: State<K, V>, a: Action<K, V>, maxSize: nat, e: (K, nat))
    requires Inv(s) && Enabled(s, a) && Harmless(s, a) && e in s.cache && NotAbandoned(s, e.1)
    ensures NotAbandoned(Do(s, a, maxSize), e.1)
  {
    var th := s.threads[a.t];
    var i :| 0 <= i < |s.cache| && s.cache[i] == e;
    assert EntrySound(e, s.promises, s.removed);
    assert ThreadSound(th, a.t, s.promises, s.removed);
    if a.ThrowOther? && e.1 == th.id {
      LookupIsEntry(s.cache, th.key, th.id);
    }
  }

  /** Exactly when a step leaves no failure in the cache. */
  lemma StaysUnabandonedIff<K, V>(s: State<K, V>, a: Action<K, V>, maxSize: nat)
    requires Inv(s) && NoneAbandoned(s) && Enabled(s, a)
    ensures NoneAbandoned(Do(s, a, maxSize)) <==> Harmless(s, a)
  {
    if Harmless(s, a) {
      var s' := Do(s, a, maxSize);
      CacheElements(s, a, maxSize);
      forall i | 0 <= i < |s'.cache| ensures NotAbandoned(s', s'.cache[i].1) {
        var e := s'.cache[i];
        if e in s.cache {
          var j :| 0 <= j < |s.cache| && s.cache[j] == e;
          AbandonedByStep(s, a, maxSize, e);
        } else {
          StepKeepsInv(s, a, maxSize);
          assert EntrySound(e, s'.promises, s'.removed);
        }
      }
      hide Inv;
    } else {
      AbandonedWhileCached(s, a.t, maxSize);
    }
  }

  lemma AbandonedWhileCached<K, V>(s: State<K, V>, t: nat, maxSize: nat)
    requires Enabled(s, ThrowOther(t)) && OwnIsCached(s, t)
    ensures !NoneAbandoned(Do(s, ThrowOther(t), maxSize))
  {
    var th := s.threads[t];
    LookupElement(s.cache, th.key);
    var i :| 0 <= i < |s.cache| && s.cache[i] == (th.key, th.id);
    assert Do(s, ThrowOther(t), maxSize).cache[i].1 == th.id;
  }

  /** Whenever `f` ends with an exception that the handler does not catch, its placeholder was evicted or dropped
      before: in particular when all exceptions are caught. */
  ghost predicate HarmlessRun<K, V>(run: seq<State<K, V>>, actions: seq<Action<K, V>>)
    requires |run| == |actions| + 1 && forall i :: 0 <= i < |actions| ==> Enabled(run[i], actions[i])
  {
    forall i :: 0 <= i < |actions| ==> Harmless(run[i], actions[i])
  }

  lemma {:induction false} HarmlessRunStaysClean<K, V>(run: seq<State<K, V>>, actions: seq<Action<K, V>>,
                                                       threadCount: nat, maxSize: nat, i: nat)
    requires IsRun(run, actions, threadCount, maxSize) && HarmlessRun(run, actions) && i < |run|
    ensures NoneAbandoned(run[i])
  {
    if i > 0 {
      HarmlessRunStaysClean(run, actions, threadCount, maxSize, i - 1);
      RunKeepsInv(run, actions, threadCount, maxSize, i - 1);
      StaysUnabandonedIff(run[i - 1], actions[i - 1], maxSize);
      assert run[i - 1 + 1] == Do(run[i - 1], actions[i - 1], maxSize);
      hide *;
    }
  }

  /** Failures are never cached: throughout a run no cached placeholder is abandoned, if and only if every exception
      that the handler does not catch comes when its own placeholder is no longer cached. */
  lemma FailuresNeverCachedIff<K, V>(run: seq<State<K, V>>, actions: seq<Action<K, V>>, threadCount: nat, maxSize: nat)
    requires IsRun(run, actions, threadCount, maxSize)
    ensures (forall i :: 0 <= i < |run| ==> NoneAbandoned(run[i])) <==> HarmlessRun(run, actions)
  {
    if HarmlessRun(run, actions) {
      forall i | 0 <= i < |run| ensures NoneAbandoned(run[i]) {
        HarmlessRunStaysClean(run, actions, threadCount, maxSize, i);
      }
    } else {
      var i :| 0 <= i < |actions| && !Harmless(run[i], actions[i]);
      AbandonedWhileCached(run[i], actions[i].t, maxSize);
      assert run[i + 1] == Do(run[i], actions[i], maxSize);
      hide *;
    }
  }

  /** One thread and room for one key: `f` throws something else, and the next call of the key fails without any
      computation. */
  lemma OtherExceptionPoisons<K, V>(key: K) returns (run: seq<State<K, V>>, actions: seq<Action<K, V>>)
    ensures IsRun(run, actions, 1, 1)
    ensures actions == [Call(0, key), ThrowOther(0), Call(0, key), Action.Get(0)]
    ensures run[4].outcomes == [Threw(key), Broken(key)] && !NoneAbandoned(run[4])
  {
    actions := [Call(0, key), ThrowOther(0), Call(0, key), Action.Get(0)];
    var s0: State<K, V> := Initial(1);
    var s1 := Do(s0, actions[0], 1);
    assert s1.cache == [(key, 0)] && s1.threads == [Computing(key, 0)] && s1.promises == [Promise(key, 0, Pending)];
    var s2 := Do(s1, actions[1], 1);
    assert s2.cache == [(key, 0)] && s2.threads == [Idle] && s2.promises == [Promise(key, 0, Abandoned)];
    var s3 := Do(s2, actions[2], 1);
    assert s3.cache == [(key, 0)] && s3.threads == [Getting(key, 0)] && s3.promises == s2.promises;
    var s4 := Do(s3, actions[3], 1);
    assert s4.outcomes == [Threw(key), Broken(key)] && s4.cache[0].1 == 0 && !NoneAbandoned(s4);
    assert Enabled(s0, actions[0]) && Enabled(s1, actions[1]) && Enabled(s2, actions[2]) && Enabled(s3, actions[3]);
    hide Do, Enabled, NoneAbandoned, Initial;
    run := [s0, s1, s2, s3, s4];
  }

  // ---------- Broken promises ----------

  /** Each abandoned placeholder and each broken call is accounted for by a call of the same key in which `f` threw. */
  ghost predicate Blamed<K, V>(s: State<K, V>) {
    && (forall id: nat :: id < |s.promises| && s.promises[id].status.Abandoned? ==>
          Threw(s.promises[id].key) in s.outcomes)
    && (forall i :: 0 <= i < |s.outcomes| && s.outcomes[i].Broken? ==> Threw(s.outcomes[i].key) in s.outcomes)
  }

  lemma StepKeepsBlame<K, V>(s: State<K, V>, a: Action<K, V>, maxSize: nat)
    requires Inv(s) && Blamed(s) && Enabled(s, a)
    ensures Blamed(Do(s, a, maxSize))
  {
    var s', th := Do(s, a, maxSize), s.threads[a.t];
    assert ThreadSound(th, a.t, s.promises, s.removed);
    assert s.outcomes <= s'.outcomes;
    hide Inv, Lookup, Apply;
    if a.Abandon? || a.ThrowOther? {
      assert s'.outcomes[|s.outcomes|] == Threw(th.key);
    }
  }

  lemma {:induction false} RunKeepsBlame<K, V>(run: seq<State<K, V>>, actions: seq<Action<K, V>>, threadCount: nat,
                                               maxSize: nat, i: nat)
    requires IsRun(run, actions, threadCount, maxSize) && i < |run|
    ensures Blamed(run[i])
  {
    if i > 0 {
      RunKeepsBlame(run, actions, threadCount, maxSize, i - 1);
      RunKeepsInv(run, actions, threadCount, maxSize, i - 1);
      StepKeepsBlame(run[i - 1], actions[i - 1], maxSize);
      assert run[i - 1 + 1] == Do(run[i - 1], actions[i - 1], maxSize);
      hide *;
    }
  }

  /** A call gets a broken promise only when `f` threw in a call of its key; so when `f` never throws, every call that
      ended returned a value. */
  lemma BrokenOnlyAfterThrow<K, V>(run: seq<State<K, V>>, actions: seq<Action<K, V>>, threadCount: nat, maxSize: nat,
                                   i: nat, n: nat)
    requires IsRun(run, actions, threadCount, maxSize) && i < |run| && n < |run[i].outcomes|
    ensures run[i].outcomes[n].Broken? ==> Threw(run[i].outcomes[n].key) in run[i].outcomes
    ensures (forall m :: 0 <= m < |run[i].outcomes| ==> !run[i].outcomes[m].Threw?) ==> run[i].outcomes[n].Returned?
  {
    RunKeepsBlame(run, actions, threadCount, maxSize, i);
  }
}
