/**
 Dispatching entries to several work queues (`TaskDispatcher` of src/zimcheck/checks.cpp).

 Entries come in cluster order; each time the cluster changes, the list of streams is rotated, so that one
 cluster is read by one thread.
 */
module TaskDispatchers {
  // `uint32_t(-1)`, the cluster remembered before the first entry
  const NO_CLUSTER: nat := 0xFFFF_FFFF

  datatype Entry = Item(id: nat, cluster: nat) | Redirect(id: nat)

  function ClusterKey(e: Entry): nat {
    if e.Redirect? then 0 else e.cluster
  }

  /** Entry `i` begins a maximal run of equal keys (the remembered initial key counts as preceding it). */
  predicate StartsRun(entries: seq<Entry>, i: nat)
    requires i < |entries|
  {
    ClusterKey(entries[i]) != if i == 0 then NO_CLUSTER else ClusterKey(entries[i - 1])
  }

  /** The starts of runs up to entry `j`. */
  function RunStarts(entries: seq<Entry>, j: nat): set<nat>
    requires j < |entries|
  {
    set i | 0 <= i <= j && StartsRun(entries, i)
  }

  /** The number of the run that entry `j` lies in, counting from 1 (0: equal to the remembered initial key). */
  function RunOf(entries: seq<Entry>, j: nat): nat
    requires j < |entries|
  {
    |RunStarts(entries, j)|
  }

  /** The entries of every `n`-th run, in their order: those whose run number is `k` modulo `n`. */
  function Share(entries: seq<Entry>, n: nat, k: nat): seq<Entry>
    requires n > 0
  {
    if entries == [] then []
    else
      var last := |entries| - 1;
      Share(entries[..last], n, k) + if RunOf(entries, last) % n == k then [entries[last]] else []
  }

  /** A further entry goes to the one share its run belongs to. */
  lemma ShareNext(before: seq<Entry>, entry: Entry, n: nat)
    requires n > 0
    ensures var after := before + [entry];
            forall k: nat :: Share(after, n, k)
                             == Share(before, n, k) + if RunOf(after, |before|) % n == k then [entry] else []
  {
    assert (before + [entry])[..|before|] == before;
  }

  lemma RunOfPrefix(entries: seq<Entry>, longer: seq<Entry>, j: nat)
    requires j < |entries| && entries <= longer
    ensures RunOf(entries, j) == RunOf(longer, j)
  {
    assert RunStarts(entries, j) == RunStarts(longer, j);
  }

  /** Run numbers step by one exactly where the key changes. */
  lemma RunOfNext(entries: seq<Entry>, j: nat)
    requires 0 < j < |entries|
    ensures RunOf(entries, j) == RunOf(entries, j - 1) + if StartsRun(entries, j) then 1 else 0
  {
    var before := RunStarts(entries, j - 1);
    assert RunStarts(entries, j) == if StartsRun(entries, j) then before + {j} else before;
  }

  lemma RunOfFirst(entries: seq<Entry>)
    requires entries != []
    ensures RunOf(entries, 0) == if ClusterKey(entries[0]) != NO_CLUSTER then 1 else 0
  {
    assert RunStarts(entries, 0) == if StartsRun(entries, 0) then {0} else {};
  }

  /** The entries stay in one run as long as the cluster is the same, where redirects count as in cluster 0; any other
      entry begins the next run. Before the first entry it is cluster 2^32 - 1. */
  lemma RunInFields(entries: seq<Entry>, j: nat)
    requires j < |entries|
    ensures j == 0 ==> RunOf(entries, 0) == if entries[0] == Item(entries[0].id, 4294967295) then 0 else 1
    ensures j > 0 ==>
              var e, e' := entries[j - 1], entries[j];
              RunOf(entries, j)
              == if || (e.Redirect? && e'.Redirect?) || (e.Item? && e'.Item? && e.cluster == e'.cluster)
                    || (e.Redirect? && e'.Item? && e'.cluster == 0) || (e.Item? && e'.Redirect? && e.cluster == 0)
                 then RunOf(entries, j - 1) else RunOf(entries, j - 1) + 1
  {
    hide RunOf;
    RunOfFirst(entries);
    if j > 0 {
      RunOfNext(entries, j);
    }
  }

  /** A run is never split: equal neighbouring keys all the way from `i` to `j` put both entries in one share. */
  lemma {:induction false} RunStaysTogether(entries: seq<Entry>, i: nat, j: nat)
    requires i <= j < |entries|
    requires forall m :: i < m <= j ==> ClusterKey(entries[m]) == ClusterKey(entries[i])
    ensures RunOf(entries, i) == RunOf(entries, j)
    decreases j - i
  {
    if i < j {
      RunStaysTogether(entries, i, j - 1);
      RunOfNext(entries, j);
    }
  }

  // ---------- No entry is dropped or checked twice ----------

  ghost function FirstShares(entries: seq<Entry>, n: nat, m: nat): multiset<Entry>
    requires n > 0
  {
    if m == 0 then multiset{} else FirstShares(entries, n, m - 1) + multiset(Share(entries, n, m - 1))
  }

  lemma {:induction false} FirstSharesStep(entries: seq<Entry>, n: nat, m: nat)
    requires n > 0 && entries != []
    ensures var last := |entries| - 1;
            FirstShares(entries, n, m)
            == FirstShares(entries[..last], n, m)
               + if RunOf(entries, last) % n < m then multiset{entries[last]} else multiset{}
  {
    hide RunOf, Share;
    if m != 0 {
      var last := |entries| - 1;
      FirstSharesStep(entries, n, m - 1);
      ShareNext(entries[..last], entries[last], n);
      assert entries == entries[..last] + [entries[last]];
    }
  }

  lemma {:induction false} SharesPartition(entries: seq<Entry>, n: nat)
    requires n > 0
    ensures FirstShares(entries, n, n) == multiset(entries)
  {
    hide RunOf, Share;
    if entries == [] {
      NoShares(n, n);
    } else {
      var last := |entries| - 1;
      SharesPartition(entries[..last], n);
      FirstSharesStep(entries, n, n);
      assert entries == entries[..last] + [entries[last]];
    }
  }

  lemma {:induction false} NoShares(n: nat, m: nat)
    requires n > 0
    ensures FirstShares([], n, m) == multiset{}
  {
    if m != 0 {
      NoShares(n, m - 1);
    }
  }

  // ---------- The dispatcher ----------

  /** The producer's end of one work queue: the tasks it was given. */
  class Feed {
    var added: seq<Entry>

    constructor ()
      ensures added == []
    {
      added := [];
    }

    method AddTask(entry: Entry)
      modifies this
      ensures added == old(added) + [entry]
    {
      added := added + [entry];
    }
  }

  class TaskDispatcher {
    var taskStreams: seq<Feed>
    var currentCluster: nat

    // The streams in their order of creation, and the entries dispatched so far.
    ghost const streams: seq<Feed>
    ghost var entries: seq<Entry>

    /** How far the list is rotated. */
    ghost function Turn(): nat
      reads this
    {
      if entries == [] || streams == [] then 0 else RunOf(entries, |entries| - 1) % |streams|
    }

    ghost predicate Valid()
      reads this, streams
    {
      && (forall j, k :: 0 <= j < k < |streams| ==> streams[j] != streams[k])
      && (streams != [] ==> taskStreams == streams[Turn()..] + streams[..Turn()])
      && currentCluster == (if entries == [] then NO_CLUSTER else ClusterKey(entries[|entries| - 1]))
      && forall k :: 0 <= k < |streams| ==> streams[k].added == Share(entries, |streams|, k)
    }

    constructor (n: nat)
      ensures Valid() && |streams| == n && entries == [] && fresh(streams)
    {
      var list: seq<Feed> := [];
      for i := 0 to n
        invariant |list| == i && fresh(list)
        invariant forall j, k :: 0 <= j < k < i ==> list[j] != list[k]
        invariant forall k :: 0 <= k < i ==> list[k].added == []
      {
        var feed := new Feed();
        list := list + [feed];
      }
      taskStreams, streams, currentCluster, entries := list, list, NO_CLUSTER, [];
    }

    method AddTask(entry: Entry)
      requires Valid() && streams != []
      modifies this, streams
      ensures Valid() && entries == old(entries) + [entry]
    {
      hide RunOf, ClusterKey, Share;
      ghost var before, n, turn := entries, |streams|, Turn();
      NextTurn(before, entry, n);
      var entryCluster := ClusterKey(entry);
      if currentCluster != entryCluster {
        RotateOnce(streams, turn);
        taskStreams := taskStreams[1..] + [taskStreams[0]];
        currentCluster := entryCluster;
      }
      entries := entries + [entry];
      assert taskStreams == streams[Turn()..] + streams[..Turn()];
      taskStreams[0].AddTask(entry);
      ShareNext(before, entry, n);
    }
  }

  lemma RotateOnce<T>(list: seq<T>, r: nat)
    requires r < |list|
    ensures var rotated := list[r..] + list[..r];
            var r' := if r + 1 == |list| then 0 else r + 1;
            rotated[1..] + [rotated[0]] == list[r'..] + list[..r']
  {
  }

  /** The rotation follows the run number. */
  lemma NextTurn(before: seq<Entry>, entry: Entry, n: nat)
    requires n > 0
    ensures var key := if before == [] then NO_CLUSTER else ClusterKey(before[|before| - 1]);
            var turn := if before == [] then 0 else RunOf(before, |before| - 1) % n;
            RunOf(before + [entry], |before|) % n
            == if key == ClusterKey(entry) then turn else if turn + 1 == n then 0 else turn + 1
  {
    hide RunOf;
    var after := before + [entry];
    if before == [] {
      RunOfFirst(after);
      NextMod(0, n);
    } else {
      var r := RunOf(before, |before| - 1);
      RunOfPrefix(before, after, |before| - 1);
      RunOfNext(after, |before|);
      NextMod(r, n);
    }
  }

  lemma NextMod(r: nat, n: nat)
    requires n > 0
    ensures (r + 1) % n == if r % n + 1 == n then 0 else r % n + 1
  {
    var q, m := r / n, r % n;
    assert r == q * n + m;
    if m + 1 == n {
      assert q * n + n == (q + 1) * n;
      ModOfSum(q + 1, 0, n);
    } else {
      ModOfSum(q, m + 1, n);
    }
  }

  lemma ModOfSum(q: nat, m: nat, n: nat)
    requires m < n
    ensures (q * n + m) % n == m
  {
    var x := q * n + m;
    var d := x / n - q;
    assert x == x / n * n + x % n;
    assert d * n == m - x % n;
    MultipleMagnitude(d, n);
  }

  lemma MultipleMagnitude(d: int, n: nat)
    ensures d >= 1 ==> d * n >= n
    ensures d <= -1 ==> d * n + n <= 0
  {
  }

  /** All entries dispatched over `n` streams: by `Valid`, stream `k` is fed exactly the runs `k` modulo `n`. */
  method Dispatch(entries: seq<Entry>, n: nat) returns (dispatcher: TaskDispatcher)
    requires n > 0
    ensures dispatcher.Valid() && dispatcher.entries == entries && |dispatcher.streams| == n
    ensures fresh(dispatcher)
  {
    dispatcher := new TaskDispatcher(n);
    for i := 0 to |entries|
      invariant fresh(dispatcher) && fresh(dispatcher.streams) && |dispatcher.streams| == n
      invariant dispatcher.Valid() && dispatcher.entries == entries[..i]
    {
      dispatcher.AddTask(entries[i]);
    }
    assert entries[..|entries|] == entries;
  }
}
