/**
 Redirect-loop detection (`RedirectionTable` and `test_redirect_loop` of src/zimcheck/checks.cpp).

 An archive is a sequence of entries, each an item or a redirect to another index. The table stores an
 item as a redirect to itself, and memoises for each entry whether its redirect chain is a loop.
 */
module RedirectionTables {

  datatype LoopStatus = UNKNOWN | LOOP | NONLOOP

  datatype Entry = Item | Redirect(target: nat)

  /** Where the table says entry `i` leads: an item leads to itself. */
  function Next(entries: seq<Entry>, i: nat): nat
    requires i < |entries|
  {
    match entries[i]
    case Item => i
    case Redirect(target) => target
  }

  ghost predicate TargetsInRange(entries: seq<Entry>) {
    forall i :: 0 <= i < |entries| ==> Next(entries, i) < |entries|
  }

  /** The entry reached from `i` after `k` redirections. */
  function Follow(entries: seq<Entry>, i: nat, k: nat): (r: nat)
    requires TargetsInRange(entries) && i < |entries|
    ensures r < |entries|
  {
    if k == 0 then i else Next(entries, Follow(entries, i, k - 1))
  }

  /** A redirection loop: following redirects from `i` never reaches an item. */
  ghost predicate NeverReachesItem(entries: seq<Entry>, i: nat)
    requires TargetsInRange(entries) && i < |entries|
  {
    forall k: nat :: !entries[Follow(entries, i, k)].Item?
  }

  /** Redirects lead from the first entry of the path to its last, which is an item. */
  ghost predicate LeadsToItem(entries: seq<Entry>, path: seq<nat>) {
    && path != [] && (forall k :: 0 <= k < |path| ==> path[k] < |entries|)
    && (forall k :: 0 <= k < |path| - 1 ==> entries[path[k]] == Redirect(path[k + 1]))
    && entries[path[|path| - 1]] == Item
  }

  lemma {:induction false} PathIsFollowed(entries: seq<Entry>, path: seq<nat>, k: nat)
    requires TargetsInRange(entries) && LeadsToItem(entries, path) && k < |path|
    ensures Follow(entries, path[0], k) == path[k]
  {
    if k > 0 {
      PathIsFollowed(entries, path, k - 1);
      assert entries[path[k - 1]] == Redirect(path[k - 1 + 1]);
    }
  }

  /** An entry is in a loop, or leads into one, exactly if no path of redirects leads from it to an item. */
  lemma LoopIffNoPath(entries: seq<Entry>, i: nat)
    requires TargetsInRange(entries) && i < |entries|
    ensures NeverReachesItem(entries, i) <==> !exists path :: LeadsToItem(entries, path) && path[0] == i
  {
    if !NeverReachesItem(entries, i) {
      var path := PathToItem(entries, i);
    }
    forall path | LeadsToItem(entries, path) && path[0] == i ensures !NeverReachesItem(entries, i) {
      PathIsFollowed(entries, path, |path| - 1);
    }
  }

  lemma PathToItem(entries: seq<Entry>, i: nat) returns (path: seq<nat>)
    requires TargetsInRange(entries) && i < |entries| && !NeverReachesItem(entries, i)
    ensures LeadsToItem(entries, path) && path[0] == i
  {
    var bound: nat :| entries[Follow(entries, i, bound)].Item?;
    var k := 0;
    path := [i];
    while !entries[path[k]].Item?
      invariant k <= bound && |path| == k + 1
      invariant forall m :: 0 <= m <= k ==> path[m] == Follow(entries, i, m)
      invariant forall m :: 0 <= m < k ==> entries[path[m]] == Redirect(path[m + 1])
      decreases bound - k
    {
      assert Follow(entries, i, k + 1) == Next(entries, path[k]);
      path := path + [Next(entries, path[k])];
      k := k + 1;
    }
  }

  lemma {:induction false} FollowAdds(entries: seq<Entry>, i: nat, j: nat, k: nat)
    requires TargetsInRange(entries) && i < |entries|
    ensures Follow(entries, Follow(entries, i, j), k) == Follow(entries, i, j + k)
  {
    if k != 0 {
      FollowAdds(entries, i, j, k - 1);
    }
  }

  /** Only an item ends a chain, so moving along redirects does not change the verdict. */
  lemma LoopAlongChain(entries: seq<Entry>, i: nat, m: nat)
    requires TargetsInRange(entries) && i < |entries|
    requires forall k: nat :: k < m ==> !entries[Follow(entries, i, k)].Item?
    ensures NeverReachesItem(entries, i) <==> NeverReachesItem(entries, Follow(entries, i, m))
  {
    var j := Follow(entries, i, m);
    if NeverReachesItem(entries, j) {
      forall k: nat ensures !entries[Follow(entries, i, k)].Item? {
        if m <= k {
          FollowAdds(entries, i, m, k - m);
          assert !entries[Follow(entries, j, k - m)].Item?;
        }
      }
    }
    if NeverReachesItem(entries, i) {
      forall k: nat ensures !entries[Follow(entries, j, k)].Item? {
        FollowAdds(entries, i, m, k);
      }
    }
  }

  lemma {:induction false} Periodic(entries: seq<Entry>, i: nat, start: nat, period: nat, j: nat, times: nat)
    requires TargetsInRange(entries) && i < |entries|
    requires Follow(entries, i, start + period) == Follow(entries, i, start)
    requires start <= j
    ensures Follow(entries, i, j + times * period) == Follow(entries, i, j)
    decreases times
  {
    if times != 0 {
      Periodic(entries, i, start, period, j, times - 1);
      var k := j + (times - 1) * period;
      FollowAdds(entries, i, start + period, k - start);
      FollowAdds(entries, i, start, k - start);
      assert j + times * period == k + period;
    }
  }

  lemma Turns(start: nat, period: nat, k: nat) returns (j: nat, times: nat)
    requires period > 0 && k >= start
    ensures start <= j < start + period && k == j + times * period
  {
    j, times := start + (k - start) % period, (k - start) / period;
  }

  /** A chain that returns to itself without meeting an item never meets one. */
  lemma {:induction false} CycleHasNoItem(entries: seq<Entry>, i: nat, start: nat, period: nat)
    requires TargetsInRange(entries) && i < |entries| && period > 0
    requires Follow(entries, i, start + period) == Follow(entries, i, start)
    requires forall k: nat :: k < start + period ==> !entries[Follow(entries, i, k)].Item?
    ensures NeverReachesItem(entries, i)
  {
    forall k: nat ensures !entries[Follow(entries, i, k)].Item? {
      if k >= start + period {
        var j, times := Turns(start, period, k);
        Periodic(entries, i, start, period, j, times);
      }
    }
  }

  // ---------- The unresolved stretch of a chain ----------

  /** The distinct entries of unknown status met from `i`, in order, until a known or already seen one. */
  ghost function Stretch(entries: seq<Entry>, status: seq<LoopStatus>, i: nat, seen: set<nat>): (path: seq<nat>)
    requires TargetsInRange(entries) && i < |entries| == |status|
    requires forall s :: s in seen ==> s < |entries|
    ensures forall k :: 0 <= k < |path| ==> path[k] < |entries| && path[k] !in seen
    decreases |entries| - |seen|
  {
    if status[i] != UNKNOWN || i in seen then []
    else
      BoundedSet(seen + {i}, |entries|);
      [i] + Stretch(entries, status, Next(entries, i), seen + {i})
  }

  lemma {:induction false} BoundedSet(s: set<nat>, n: nat)
    requires forall x :: x in s ==> x < n
    ensures |s| <= n
    decreases n
  {
    if n == 0 {
      assert s == {};
    } else {
      BoundedSet(s - {n - 1}, n - 1);
    }
  }

  ghost function Unresolved(entries: seq<Entry>, status: seq<LoopStatus>, i: nat): seq<nat>
    requires TargetsInRange(entries) && i < |entries| == |status|
  {
    Stretch(entries, status, i, {})
  }

  lemma {:induction false} StretchFollows(entries: seq<Entry>, status: seq<LoopStatus>, i: nat, seen: set<nat>, k: nat)
    requires TargetsInRange(entries) && i < |entries| == |status|
    requires forall s :: s in seen ==> s < |entries|
    requires k < |Stretch(entries, status, i, seen)|
    ensures Stretch(entries, status, i, seen)[k] == Follow(entries, i, k)
    ensures status[Follow(entries, i, k)] == UNKNOWN
    decreases k
  {
    if k != 0 {
      var next := Next(entries, i);
      StretchFollows(entries, status, next, seen + {i}, k - 1);
      FollowAdds(entries, i, 1, k - 1);
      assert Follow(entries, i, 1) == Next(entries, Follow(entries, i, 0));
    }
  }

  lemma {:induction false} StretchDistinct(entries: seq<Entry>, status: seq<LoopStatus>, i: nat, seen: set<nat>,
                                           j: nat, k: nat)
    requires TargetsInRange(entries) && i < |entries| == |status|
    requires forall s :: s in seen ==> s < |entries|
    requires j < k < |Stretch(entries, status, i, seen)|
    ensures Stretch(entries, status, i, seen)[j] != Stretch(entries, status, i, seen)[k]
    decreases k
  {
    var rest := Stretch(entries, status, Next(entries, i), seen + {i});
    assert rest[k - 1] !in seen + {i};
    if j != 0 {
      StretchDistinct(entries, status, Next(entries, i), seen + {i}, j - 1, k - 1);
    }
  }

  lemma {:induction false} StretchEnds(entries: seq<Entry>, status: seq<LoopStatus>, i: nat, seen: set<nat>)
    requires TargetsInRange(entries) && i < |entries| == |status|
    requires forall s :: s in seen ==> s < |entries|
    ensures var path := Stretch(entries, status, i, seen);
            var last := Follow(entries, i, |path|);
            status[last] != UNKNOWN || last in seen || last in path
    decreases |entries| - |seen|
  {
    if status[i] == UNKNOWN && i !in seen {
      BoundedSet(seen + {i}, |entries|);
      var next := Next(entries, i);
      var rest := Stretch(entries, status, next, seen + {i});
      StretchEnds(entries, status, next, seen + {i});
      FollowAdds(entries, i, 1, |rest|);
      assert Follow(entries, i, 1) == Next(entries, Follow(entries, i, 0));
      var path := Stretch(entries, status, i, seen);
      assert path == [i] + rest;
      assert path[0] == i;
      assert forall x :: x in rest ==> x in path;
    }
  }

  /** The unresolved stretch is the chain's prefix of distinct unknown entries, and nothing unknown follows it
      except the stretch itself. */
  ghost predicate IsStretch(entries: seq<Entry>, status: seq<LoopStatus>, i: nat, path: seq<nat>)
    requires TargetsInRange(entries) && i < |entries| == |status|
  {
    && (forall k :: 0 <= k < |path| ==> path[k] == Follow(entries, i, k) && status[path[k]] == UNKNOWN)
    && (forall j, k :: 0 <= j < k < |path| ==> path[j] != path[k])
    && (status[Follow(entries, i, |path|)] == UNKNOWN ==> Follow(entries, i, |path|) in path)
  }

  lemma UnresolvedIsStretch(entries: seq<Entry>, status: seq<LoopStatus>, i: nat)
    requires TargetsInRange(entries) && i < |entries| == |status|
    ensures IsStretch(entries, status, i, Unresolved(entries, status, i))
  {
    var path := Unresolved(entries, status, i);
    forall k: nat | k < |path| ensures path[k] == Follow(entries, i, k) && status[path[k]] == UNKNOWN {
      StretchFollows(entries, status, i, {}, k);
    }
    forall j: nat, k: nat | j < k < |path| ensures path[j] != path[k] {
      StretchDistinct(entries, status, i, {}, j, k);
    }
    StretchEnds(entries, status, i, {});
  }

  /** The last multiple of `period` that is at most `u` names a step of the cycle's first round. */
  lemma LastMultiple(u: nat, period: nat) returns (times: nat, j: nat)
    requires 0 < period <= u
    ensures j + 1 == times * period && u - period <= j < u
  {
    times := u / period;
    assert u == times * period + u % period;
    assert times >= 1;
    j := times * period - 1;
  }

  /** A stretch that closes on itself is met by the two cursors before `2u - 1` moves of the fast one. */
  lemma CursorsMeet(entries: seq<Entry>, status: seq<LoopStatus>, i: nat, path: seq<nat>) returns (j: nat)
    requires TargetsInRange(entries) && i < |entries| == |status|
    requires IsStretch(entries, status, i, path)
    requires status[Follow(entries, i, |path|)] == UNKNOWN
    ensures j < |path| && Follow(entries, i, 2 * j + 1) == Follow(entries, i, j)
  {
    var start :| 0 <= start < |path| && path[start] == Follow(entries, i, |path|);
    var period := |path| - start;
    assert Follow(entries, i, start + period) == Follow(entries, i, start);
    var times;
    times, j := LastMultiple(|path|, period);
    Periodic(entries, i, start, period, j, times);
    assert j + times * period == 2 * j + 1;
  }

  /** The fast cursor's `limit`-th position, at most `2u - 2`, ends the search: there it finds a known status, or
      its next move meets the slow cursor. */
  lemma FastCursorLimit(entries: seq<Entry>, status: seq<LoopStatus>, i: nat) returns (limit: nat)
    requires TargetsInRange(entries) && i < |entries| == |status| && status[i] == UNKNOWN
    ensures limit <= 2 * |Unresolved(entries, status, i)| - 1
    ensures status[Follow(entries, i, limit)] != UNKNOWN
            || (limit % 2 == 0 && limit <= 2 * |Unresolved(entries, status, i)| - 2
                && Follow(entries, i, limit + 1) == Follow(entries, i, limit / 2))
  {
    var path := Unresolved(entries, status, i);
    UnresolvedIsStretch(entries, status, i);
    if status[Follow(entries, i, |path|)] == UNKNOWN {
      var j := CursorsMeet(entries, status, i, path);
      limit := 2 * j;
    } else {
      assert path[0] == i;
      limit := |path|;
    }
  }

  /** Every memoised verdict is right, and items are memoised as such from the start. */
  ghost predicate MemoCorrect(entries: seq<Entry>, status: seq<LoopStatus>)
    requires TargetsInRange(entries) && |entries| == |status|
  {
    forall i :: 0 <= i < |entries| ==>
      && (entries[i].Item? ==> status[i] == NONLOOP)
      && (status[i] == LOOP ==> NeverReachesItem(entries, i))
      && (status[i] == NONLOOP ==> !NeverReachesItem(entries, i))
  }

  lemma {:induction false} FollowAfterAdding(entries: seq<Entry>, e: Entry, i: nat, k: nat)
    requires TargetsInRange(entries) && TargetsInRange(entries + [e]) && i < |entries|
    ensures Follow(entries + [e], i, k) == Follow(entries, i, k)
  {
    if k != 0 {
      FollowAfterAdding(entries, e, i, k - 1);
    }
  }

  /** A new entry does not change what the chains of the others reach. */
  lemma MemoAfterAdding(entries: seq<Entry>, status: seq<LoopStatus>, e: Entry, s: LoopStatus)
    requires TargetsInRange(entries) && |entries| == |status| && MemoCorrect(entries, status)
    requires s == if e.Item? then NONLOOP else UNKNOWN
    requires e.Redirect? ==> e.target <= |entries|
    ensures TargetsInRange(entries + [e]) && MemoCorrect(entries + [e], status + [s])
  {
    var entries', status' := entries + [e], status + [s];
    assert TargetsInRange(entries') by {
      assert forall i :: 0 <= i < |entries| ==> Next(entries', i) == Next(entries, i) < |entries|;
    }
    forall i | 0 <= i < |entries'|
      ensures (entries'[i].Item? ==> status'[i] == NONLOOP)
              && (status'[i] == LOOP ==> NeverReachesItem(entries', i))
              && (status'[i] == NONLOOP ==> !NeverReachesItem(entries', i))
    {
      if i == |entries| {
        assert Follow(entries', i, 0) == i;
      } else {
        VerdictAfterAdding(entries, e, i);
      }
    }
  }

  lemma VerdictAfterAdding(entries: seq<Entry>, e: Entry, i: nat)
    requires TargetsInRange(entries) && TargetsInRange(entries + [e]) && i < |entries|
    ensures NeverReachesItem(entries + [e], i) <==> NeverReachesItem(entries, i)
  {
    forall k: nat ensures (entries + [e])[Follow(entries + [e], i, k)] == entries[Follow(entries, i, k)] {
      FollowAfterAdding(entries, e, i, k);
    }
    if NeverReachesItem(entries + [e], i) {
      forall k: nat ensures !entries[Follow(entries, i, k)].Item? {
        assert !(entries + [e])[Follow(entries + [e], i, k)].Item?;
      }
    }
  }

  ghost function Verdict(entries: seq<Entry>, i: nat): LoopStatus
    requires TargetsInRange(entries) && i < |entries|
  {
    if NeverReachesItem(entries, i) then LOOP else NONLOOP
  }

  /** The first `m` entries of the chain from `i` are of unknown status. */
  ghost predicate UnknownFor(entries: seq<Entry>, status: seq<LoopStatus>, i: nat, m: nat)
    requires TargetsInRange(entries) && i < |entries| == |status|
  {
    forall k: nat :: k < m ==> status[Follow(entries, i, k)] == UNKNOWN
  }

  lemma StartOfChain(entries: seq<Entry>, status: seq<LoopStatus>, i: nat)
    requires TargetsInRange(entries) && i < |entries| == |status|
    ensures Follow(entries, i, 0) == i && UnknownFor(entries, status, i, 0)
  {
  }

  lemma FollowNext(entries: seq<Entry>, i: nat, m: nat)
    requires TargetsInRange(entries) && i < |entries|
    ensures Follow(entries, i, m + 1) == Next(entries, Follow(entries, i, m))
  {
  }

  lemma NextUnknown(entries: seq<Entry>, status: seq<LoopStatus>, i: nat, m: nat)
    requires TargetsInRange(entries) && i < |entries| == |status|
    requires UnknownFor(entries, status, i, m) && status[Follow(entries, i, m)] == UNKNOWN
    ensures UnknownFor(entries, status, i, m + 1)
    ensures Follow(entries, i, m + 1) == Next(entries, Follow(entries, i, m))
  {
  }

  lemma KnownVerdict(entries: seq<Entry>, status: seq<LoopStatus>, i: nat, m: nat)
    requires TargetsInRange(entries) && i < |entries| == |status|
    requires MemoCorrect(entries, status) && UnknownFor(entries, status, i, m)
    requires status[Follow(entries, i, m)] != UNKNOWN
    ensures status[Follow(entries, i, m)] == Verdict(entries, i)
  {
    LoopAlongChain(entries, i, m);
  }

  lemma MeetingVerdict(entries: seq<Entry>, status: seq<LoopStatus>, i: nat, start: nat, period: nat)
    requires TargetsInRange(entries) && i < |entries| == |status|
    requires MemoCorrect(entries, status) && UnknownFor(entries, status, i, start + period)
    requires period > 0 && Follow(entries, i, start + period) == Follow(entries, i, start)
    ensures Verdict(entries, i) == LOOP
  {
    CycleHasNoItem(entries, i, start, period);
  }

  ghost function UnknownCount(status: seq<LoopStatus>): nat {
    if status == [] then 0 else UnknownCount(status[1..]) + (if status[0] == UNKNOWN then 1 else 0)
  }

  lemma {:induction false} UnknownCountUpdate(status: seq<LoopStatus>, i: nat, s: LoopStatus)
    requires i < |status| && status[i] == UNKNOWN && s != UNKNOWN
    ensures UnknownCount(status) == UnknownCount(status[i := s]) + 1
  {
    if i != 0 {
      UnknownCountUpdate(status[1..], i - 1, s);
      assert status[i := s][1..] == status[1..][i - 1 := s];
    } else {
      assert status[i := s][1..] == status[1..];
    }
  }

  lemma {:induction false} UnknownCountAppend(status: seq<LoopStatus>, s: LoopStatus)
    ensures UnknownCount(status + [s]) == UnknownCount(status) + (if s == UNKNOWN then 1 else 0)
  {
    if status != [] {
      UnknownCountAppend(status[1..], s);
      assert (status + [s])[1..] == status[1..] + [s];
    } else {
      assert (status + [s])[1..] == [];
    }
  }

  /** `status` with the entries of `path` marked `s`. */
  ghost function Marked(status: seq<LoopStatus>, path: seq<nat>, s: LoopStatus): seq<LoopStatus> {
    seq(|status|, j requires 0 <= j < |status| => if j in path then s else status[j])
  }

  class RedirectionTable {
    var redirTable: seq<nat>
    var loopStatus: seq<LoopStatus>

    ghost var entries: seq<Entry>
    // The redirects followed so far by the fast cursor of all queries.
    ghost var moves: nat

    /** The table holds the entries added so far. */
    ghost predicate Valid()
      reads this
    {
      && |redirTable| == |loopStatus| == |entries|
      && (forall i :: 0 <= i < |entries| ==> redirTable[i] == Next(entries, i))
      && (forall i :: 0 <= i < |entries| && entries[i].Item? ==> loopStatus[i] == NONLOOP)
    }

    /** The memo invariant on which answers, termination and cost rest. */
    ghost predicate Ready()
      reads this
    {
      Valid() && TargetsInRange(entries) && MemoCorrect(entries, loopStatus)
    }

    /** No query was made yet: exactly the items have a known status. */
    ghost predicate Unqueried()
      reads this
    {
      && Valid() && moves == 0
      && forall i :: 0 <= i < |entries| && entries[i].Redirect? ==> loopStatus[i] == UNKNOWN
    }

    constructor ()
      ensures Unqueried() && entries == []
    {
      redirTable, loopStatus, entries, moves := [], [], [], 0;
    }

    /** Adding keeps the table ready for queries, whatever was queried before, when the new target is in range. */
    method AddRedirectionEntry(targetEntryIndex: nat)
      requires Valid()
      modifies this
      ensures Valid() && entries == old(entries) + [Redirect(targetEntryIndex)]
      ensures loopStatus == old(loopStatus) + [UNKNOWN] && moves == old(moves)
      ensures old(Unqueried()) ==> Unqueried()
      ensures old(Ready()) && targetEntryIndex < |entries| ==> Ready()
    {
      if Ready() && targetEntryIndex <= |entries| {
        MemoAfterAdding(entries, loopStatus, Redirect(targetEntryIndex), UNKNOWN);
      }
      hide MemoCorrect;
      redirTable := redirTable + [targetEntryIndex];
      loopStatus := loopStatus + [UNKNOWN];
      entries := entries + [Redirect(targetEntryIndex)];
    }

    method AddItem()
      requires Valid()
      modifies this
      ensures Valid() && entries == old(entries) + [Item]
      ensures loopStatus == old(loopStatus) + [NONLOOP] && moves == old(moves)
      ensures old(Unqueried()) ==> Unqueried()
      ensures old(Ready()) ==> Ready()
    {
      if Ready() {
        MemoAfterAdding(entries, loopStatus, Item, NONLOOP);
      }
      hide MemoCorrect;
      redirTable := redirTable + [|redirTable|];
      loopStatus := loopStatus + [NONLOOP];
      entries := entries + [Item];
    }

    function Size(): nat
      reads this
    {
      |redirTable|
    }

    /** Items never reach a loop, so the table is ready for queries as soon as every target is in range. */
    lemma UnqueriedIsReady()
      requires Unqueried() && TargetsInRange(entries)
      ensures Ready()
    {
      forall i | 0 <= i < |entries| && entries[i].Item? ensures !NeverReachesItem(entries, i) {
        assert entries[Follow(entries, i, 0)].Item?;
      }
    }

    /** Answers whether following redirects from `i` never reaches an item. `u` unresolved entries on the way cost
        at most `2u - 1` moves of the fast cursor and are all resolved by this one query. */
    method IsInRedirectionLoop(i: nat) returns (loop: bool)
      requires Ready() && i < |entries|
      modifies this`loopStatus, this`moves
      ensures Ready()
      ensures loop <==> NeverReachesItem(entries, i)
      ensures var path := old(Unresolved(entries, loopStatus, i));
        && loopStatus == Marked(old(loopStatus), path, Verdict(entries, i))
        && UnknownCount(loopStatus) == old(UnknownCount(loopStatus)) - |path|
        && moves <= old(moves) + (if path == [] then 0 else 2 * |path| - 1)
    {
      if loopStatus[i] == UNKNOWN {
        ResolveLoopStatus(i);
        assert i == Unresolved(entries, old(loopStatus), i)[0];
      } else {
        assert loopStatus == Marked(loopStatus, [], Verdict(entries, i));
      }
      loop := loopStatus[i] == LOOP;
    }

    method DetectLoopStatus(i: nat) returns (s: LoopStatus)
      requires Ready() && i < |entries| && loopStatus[i] == UNKNOWN
      modifies this`moves
      ensures s == Verdict(entries, i)
      ensures moves <= old(moves) + 2 * |Unresolved(entries, loopStatus, i)| - 1
    {
      hide MemoCorrect, NeverReachesItem, Verdict, TargetsInRange, Unresolved, Follow, UnknownFor;
      ghost var es, status := entries, loopStatus;
      StartOfChain(es, status, i);
      ghost var path := Unresolved(es, status, i);
      ghost var limit := FastCursorLimit(es, status, i);
      var i1, i2 := i, i;
      var moveI1 := false;
      ghost var half, odd := 0, 0;
      while true
        invariant 0 <= odd <= 1 && (moveI1 <==> odd == 1)
        invariant i2 == Follow(es, i, 2 * half + odd) && i1 == Follow(es, i, half)
        invariant moves == old(moves) + 2 * half + odd
        invariant UnknownFor(es, status, i, 2 * half + odd)
        invariant 2 * half + odd <= limit
        decreases limit - 2 * half - odd
      {
        if loopStatus[i2] != UNKNOWN {
          KnownVerdict(es, status, i, 2 * half + odd);
          return loopStatus[i2];
        }
        NextUnknown(es, status, i, 2 * half + odd);
        i2 := redirTable[i2];
        moves := moves + 1;
        if i2 == i1 {
          MeetingVerdict(es, status, i, half, half + odd + 1);
          return LOOP;
        }
        if moveI1 {
          FollowNext(es, i, half);
          i1 := redirTable[i1];
          half, odd := half + 1, 0;
        } else {
          odd := 1;
        }
        moveI1 := !moveI1;
      }
    }

    method ResolveLoopStatus(start: nat)
      requires Ready() && start < |entries| && loopStatus[start] == UNKNOWN
      modifies this`loopStatus, this`moves
      ensures Ready()
      ensures var path := old(Unresolved(entries, loopStatus, start));
        && loopStatus == Marked(old(loopStatus), path, Verdict(entries, start))
        && UnknownCount(loopStatus) == old(UnknownCount(loopStatus)) - |path|
        && moves <= old(moves) + 2 * |path| - 1
    {
      hide NeverReachesItem, Unresolved, IsStretch, UnknownCount, Follow, MemoCorrect;
      var s := DetectLoopStatus(start);
      ghost var before := loopStatus;
      ghost var path := Unresolved(entries, before, start);
      UnresolvedIsStretch(entries, before, start);
      StartOfChain(entries, before, start);
      var i := start;
      ghost var k := 0;
      while loopStatus[i] == UNKNOWN
        invariant k <= |path| && i == Follow(entries, start, k) && |loopStatus| == |before|
        invariant loopStatus == Marked(before, path[..k], s)
        invariant UnknownCount(loopStatus) == UnknownCount(before) - k
        invariant moves <= old(moves) + 2 * |path| - 1
        decreases |path| - k
      {
        MarkNext(entries, before, start, path, k, s);
        UnknownCountUpdate(loopStatus, i, s);
        FollowNext(entries, start, k);
        loopStatus := loopStatus[i := s];
        i := redirTable[i];
        k := k + 1;
      }
      MarkedAll(entries, before, start, path, k, s);
      MarkedIsCorrect(entries, before, start, path);
    }
  }

  /** While the chain's `k`-th entry still reads as unknown it is the stretch's `k`-th, and marking it extends
      the marked prefix. */
  lemma MarkNext(entries: seq<Entry>, status: seq<LoopStatus>, i: nat, path: seq<nat>, k: nat, s: LoopStatus)
    requires TargetsInRange(entries) && i < |entries| == |status|
    requires IsStretch(entries, status, i, path) && s != UNKNOWN
    requires k <= |path| && Marked(status, path[..k], s)[Follow(entries, i, k)] == UNKNOWN
    ensures k < |path|
    ensures Marked(status, path[..k], s)[Follow(entries, i, k) := s] == Marked(status, path[..k + 1], s)
  {
    assert path[..|path|] == path;
    assert path[..k + 1] == path[..k] + [path[k]];
    forall j | 0 <= j < |status|
      ensures j in path[..k + 1] <==> j in path[..k] || j == path[k]
    {
    }
  }

  lemma MarkedAll(entries: seq<Entry>, status: seq<LoopStatus>, i: nat, path: seq<nat>, k: nat, s: LoopStatus)
    requires TargetsInRange(entries) && i < |entries| == |status|
    requires IsStretch(entries, status, i, path) && s != UNKNOWN
    requires k <= |path| && Marked(status, path[..k], s)[Follow(entries, i, k)] != UNKNOWN
    ensures k == |path| && path[..k] == path
  {
    forall n | 0 <= n < |path| ensures path[n] !in path[..n] {
    }
    assert path[..|path|] == path;
  }

  lemma StretchSharesVerdict(entries: seq<Entry>, status: seq<LoopStatus>, i: nat, path: seq<nat>, at: nat)
    requires TargetsInRange(entries) && i < |entries| == |status|
    requires IsStretch(entries, status, i, path) && MemoCorrect(entries, status) && at < |path|
    ensures path[at] < |entries| && !entries[path[at]].Item? && Verdict(entries, path[at]) == Verdict(entries, i)
  {
    LoopAlongChain(entries, i, at);
  }

  lemma MarkedIsCorrect(entries: seq<Entry>, status: seq<LoopStatus>, i: nat, path: seq<nat>)
    requires TargetsInRange(entries) && i < |entries| == |status|
    requires IsStretch(entries, status, i, path) && MemoCorrect(entries, status)
    ensures MemoCorrect(entries, Marked(status, path, Verdict(entries, i)))
  {
    hide NeverReachesItem, IsStretch;
    forall j | 0 <= j < |entries| && j in path
      ensures !entries[j].Item? && Verdict(entries, j) == Verdict(entries, i)
    {
      var at :| 0 <= at < |path| && path[at] == j;
      StretchSharesVerdict(entries, status, i, path, at);
    }
  }

  /** The table of an archive, with one entry added per archive entry. */
  method BuildTable(archive: seq<Entry>) returns (table: RedirectionTable)
    ensures fresh(table) && table.Unqueried() && table.entries == archive
  {
    table := new RedirectionTable();
    for n := 0 to |archive|
      invariant fresh(table) && table.Unqueried() && table.entries == archive[..n]
    {
      if archive[n].Redirect? {
        table.AddRedirectionEntry(archive[n].target);
      } else {
        table.AddItem();
      }
    }
    assert archive[..|archive|] == archive;
  }

  /** The whole check: exactly the entries whose redirects never reach an item are reported, in index order,
      and all queries together follow fewer than `2n` redirects with the fast cursor. */
  method TestRedirectLoop(archive: seq<Entry>) returns (reported: seq<nat>, ghost moves: nat)
    requires TargetsInRange(archive)
    ensures forall i :: i in reported <==> 0 <= i < |archive| && NeverReachesItem(archive, i)
    ensures forall j, k :: 0 <= j < k < |reported| ==> reported[j] < reported[k]
    ensures archive != [] ==> moves < 2 * |archive|
  {
    hide MemoCorrect, NeverReachesItem, Verdict, Follow, Next, Unresolved, Marked;
    var table := BuildTable(archive);
    table.UnqueriedIsReady();
    UnknownCountBound(table.loopStatus);
    reported := [];
    ghost var budget := 2 * |archive|;
    for i := 0 to table.Size()
      invariant fresh(table) && table.Ready() && table.entries == archive
      invariant forall j :: j in reported <==> 0 <= j < i && NeverReachesItem(archive, j)
      invariant forall j :: 0 <= j < |reported| ==> reported[j] < i
      invariant forall j, k :: 0 <= j < k < |reported| ==> reported[j] < reported[k]
      invariant table.moves + 2 * UnknownCount(table.loopStatus) <= budget
      invariant table.moves + 2 * UnknownCount(table.loopStatus) == budget ==> table.moves == 0
    {
      var loop := table.IsInRedirectionLoop(i);
      if loop {
        reported := reported + [i];
      }
    }
    moves := table.moves;
  }

  /** Any queries in any order on a table that is ready: every answer is exact, and together they make fewer than two
      moves for each entry they resolve. */
  method AnswerAll(table: RedirectionTable, queries: seq<nat>) returns (answers: seq<bool>)
    requires table.Ready() && forall j :: 0 <= j < |queries| ==> queries[j] < |table.entries|
    modifies table`loopStatus, table`moves
    ensures table.Ready() && |answers| == |queries|
    ensures forall j :: 0 <= j < |queries| ==> (answers[j] <==> NeverReachesItem(table.entries, queries[j]))
    ensures var resolved := old(UnknownCount(table.loopStatus)) - UnknownCount(table.loopStatus);
            0 <= resolved && table.moves <= old(table.moves) + if resolved == 0 then 0 else 2 * resolved - 1
  {
    hide MemoCorrect, NeverReachesItem, Verdict, Follow, Next, Unresolved, Marked, UnknownCount;
    answers := [];
    ghost var unknown := UnknownCount(table.loopStatus);
    for j := 0 to |queries|
      invariant table.Ready() && |answers| == j
      invariant forall i :: 0 <= i < j ==> (answers[i] <==> NeverReachesItem(table.entries, queries[i]))
      invariant var resolved := unknown - UnknownCount(table.loopStatus);
                0 <= resolved && table.moves <= old(table.moves) + if resolved == 0 then 0 else 2 * resolved - 1
    {
      var loop := table.IsInRedirectionLoop(queries[j]);
      answers := answers + [loop];
    }
  }

  /** From an archive of `n` entries, any number of queries makes fewer than `2n` moves. */
  method BuildAndAnswer(archive: seq<Entry>, queries: seq<nat>) returns (answers: seq<bool>, ghost moves: nat)
    requires TargetsInRange(archive) && forall j :: 0 <= j < |queries| ==> queries[j] < |archive|
    ensures |answers| == |queries|
    ensures forall j :: 0 <= j < |queries| ==> (answers[j] <==> NeverReachesItem(archive, queries[j]))
    ensures archive != [] ==> moves < 2 * |archive|
  {
    hide MemoCorrect, NeverReachesItem, UnknownCount;
    var table := BuildTable(archive);
    table.UnqueriedIsReady();
    UnknownCountBound(table.loopStatus);
    answers := AnswerAll(table, queries);
    moves := table.moves;
  }

  lemma {:induction false} UnknownCountBound(status: seq<LoopStatus>)
    ensures UnknownCount(status) <= |status|
  {
    if status != [] {
      UnknownCountBound(status[1..]);
    }
  }
}
