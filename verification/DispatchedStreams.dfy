/**
 The dispatching thread with all its queues and workers (`test_articles` with `TaskDispatcher` and `TaskStream` of
 src/zimcheck/checks.cpp), as one transition system. The one thread that adds tasks is at any time the producer of at
 most one stream: it adds each entry to the stream in turn, and at the end finishes the streams in list order.
 */
module DispatchedStreams {
  import opened TaskDispatchers
  import opened TaskStreams

  /** `at` counts the calls that have returned: of `addTask` for each entry, then of `finish` for each stream. */
  datatype Joint = Joint(streams: seq<State<Entry>>, at: nat)

  datatype Move = Dispatch(first: bool) | Work(stream: nat, first: bool)

  /** How far the list of streams is rotated when all entries are dispatched. */
  function LastTurn(entries: seq<Entry>, n: nat): (turn: nat)
    requires n > 0
    ensures turn < n
  {
    if entries == [] then 0 else RunOf(entries, |entries| - 1) % n
  }

  /** The stream that the dispatching thread is at: that of the entry's run, or the next one in the list to finish. */
  function Active(entries: seq<Entry>, n: nat, at: nat): (k: nat)
    requires n > 0 && at < |entries| + n
    ensures k < n
  {
    if at < |entries| then RunOf(entries, at) % n
    else
      var place := LastTurn(entries, n) + at - |entries|;
      if place < n then place else place - n
  }

  /** The streams are finished in the order of the list, which begins with the stream of the last entry's run. */
  lemma FinishedInOrder(entries: seq<Entry>, n: nat, i: nat)
    requires i < n
    ensures var turn := if entries == [] then 0 else RunOf(entries, |entries| - 1) % n;
            Active(entries, n, |entries| + i) == (turn + i) % n
  {
    var turn := LastTurn(entries, n);
    if turn + i < n {
      ModOfSum(0, turn + i, n);
    } else {
      ModOfSum(1, turn + i - n, n);
    }
    hide RunOf;
  }

  /** The place of a stream in the list at the end. */
  function Place(entries: seq<Entry>, n: nat, k: nat): (place: nat)
    requires k < n
    ensures place < n && (forall at :: |entries| <= at < |entries| + n ==>
                            (Active(entries, n, at) == k <==> at == |entries| + place))
  {
    var turn := LastTurn(entries, n);
    if k >= turn then k - turn else k + n - turn
  }

  predicate Enabled(entries: seq<Entry>, j: Joint, m: Move) {
    match m
    case Dispatch(_) =>
      && j.streams != [] && j.at < |entries| + |j.streams|
      && ProducerEnabled(j.streams[Active(entries, |j.streams|, j.at)])
    case Work(k, _) => k < |j.streams| && WorkerEnabled(j.streams[k])
  }

  function Do(entries: seq<Entry>, j: Joint, m: Move): Joint
    requires Enabled(entries, j, m)
  {
    match m
    case Dispatch(first) =>
      var k := Active(entries, |j.streams|, j.at);
      var s' := ProducerMove(j.streams[k], first);
      var done := j.streams[k].producer == NotifyingPush || s'.producer == Finished;
      Joint(j.streams[k := s'], if done then j.at + 1 else j.at)
    case Work(k, first) => j.(streams := j.streams[k := WorkerMove(j.streams[k], first)])
  }

  function Begun(tasks: seq<Entry>): State<Entry> {
    State(tasks, [], [], true, Free, Outside, Idle, [], [])
  }

  function Initial(entries: seq<Entry>, n: nat): Joint
    requires n > 0
  {
    Joint(seq(n, k requires 0 <= k < n => Begun(Share(entries, n, k))), 0)
  }

  ghost predicate IsJointRun(run: seq<Joint>, moves: seq<Move>, entries: seq<Entry>, n: nat)
    requires n > 0
  {
    && |run| == |moves| + 1 && run[0] == Initial(entries, n)
    && forall i :: 0 <= i < |moves| ==>
         Enabled(entries, run[i], moves[i]) && run[i + 1] == Do(entries, run[i], moves[i])
  }

  // ---------- The place of the dispatching thread ----------

  /** What stream `k` has been told, and what the dispatching thread does in it. */
  ghost predicate InStep(entries: seq<Entry>, n: nat, at: nat, k: nat, s: State<Entry>)
    requires k < n && at <= |entries| + n
  {
    if at < |entries| then
      if k == Active(entries, n, at) then
        && s.producer in {Outside, TestFull, WaitingIn, WokenIn, Pushing, NotifyingPush}
        && s.added == Share(entries[..if s.producer == NotifyingPush then at + 1 else at], n, k)
      else s.producer == Outside && s.added == Share(entries[..at], n, k)
    else
      && s.added == Share(entries, n, k)
      && var place := Place(entries, n, k);
         if place < at - |entries| then s.producer == Finished
         else if place == at - |entries| then s.producer in {Outside, Closing, NotifyingClose, Joining}
         else s.producer == Outside
  }

  ghost predicate StreamInv(entries: seq<Entry>, n: nat, at: nat, k: nat, s: State<Entry>)
    requires k < n && at <= |entries| + n
  {
    Sound(s, Share(entries, n, k)) && Signalled(s) && InStep(entries, n, at, k, s)
  }

  ghost predicate Inv(entries: seq<Entry>, n: nat, j: Joint) {
    && |j.streams| == n && j.at <= |entries| + n
    && forall k :: 0 <= k < n ==> StreamInv(entries, n, j.at, k, j.streams[k])
  }

  lemma ShareOfNext(entries: seq<Entry>, n: nat, at: nat, k: nat)
    requires n > 0 && at < |entries|
    ensures Share(entries[..at + 1], n, k)
            == if k == RunOf(entries, at) % n then Share(entries[..at], n, k) + [entries[at]]
               else Share(entries[..at], n, k)
  {
    assert entries[..at + 1] == entries[..at] + [entries[at]];
    ShareNext(entries[..at], entries[at], n);
    RunOfPrefix(entries[..at + 1], entries, at);
  }

  lemma {:induction false} ShareIsPrefix(entries: seq<Entry>, n: nat, at: nat, k: nat)
    requires n > 0 && at <= |entries|
    ensures Share(entries[..at], n, k) <= Share(entries, n, k)
    decreases |entries| - at
  {
    if at < |entries| {
      ShareOfNext(entries, n, at, k);
      ShareIsPrefix(entries, n, at + 1, k);
    } else {
      assert entries[..at] == entries;
    }
    hide Share;
  }

  // ---------- Every step keeps it ----------

  lemma WorkKeepsStream(entries: seq<Entry>, n: nat, at: nat, k: nat, s: State<Entry>, first: bool)
    requires k < n && at <= |entries| + n && StreamInv(entries, n, at, k, s) && WorkerEnabled(s)
    ensures StreamInv(entries, n, at, k, WorkerMove(s, first))
  {
    StepKeepsSound(s, WorkerMove(s, first), Share(entries, n, k));
    hide Share, Sound, Signalled, Active, Place;
  }

  /** Stream `k` is told exactly the next entry. */
  lemma ToldNext(entries: seq<Entry>, n: nat, at: nat, k: nat, s: State<Entry>)
    requires n > 0 && at < |entries| && k == Active(entries, n, at) && s.added + s.todo == Share(entries, n, k)
    requires s.added == Share(entries[..at], n, k)
    ensures s.todo != [] && s.added + [s.todo[0]] == Share(entries[..at + 1], n, k)
  {
    ShareOfNext(entries, n, at, k);
    ShareIsPrefix(entries, n, at + 1, k);
    hide Share;
    var told := Share(entries[..at + 1], n, k);
    assert Share(entries, n, k)[|s.added|] == told[|s.added|] == entries[at];
  }

  lemma DispatchKeepsStream(entries: seq<Entry>, n: nat, at: nat, s: State<Entry>, first: bool)
    requires n > 0 && at < |entries| + n && ProducerEnabled(s)
    requires StreamInv(entries, n, at, Active(entries, n, at), s)
    ensures var s' := ProducerMove(s, first);
            var returned := s.producer == NotifyingPush || s'.producer == Finished;
            StreamInv(entries, n, if returned then at + 1 else at, Active(entries, n, at), s')
  {
    var k := Active(entries, n, at);
    var s' := ProducerMove(s, first);
    StepKeepsSound(s, s', Share(entries, n, k));
    if at < |entries| {
      if s.producer != NotifyingPush {
        ToldNext(entries, n, at, k, s);
      }
      assert entries[..|entries|] == entries;
    } else {
      assert s.todo == [];
    }
    hide Share, Signalled, LockMatches, PhasesMatch;
  }

  lemma ReturnKeepsOthers(entries: seq<Entry>, n: nat, at: nat, k: nat, s: State<Entry>)
    requires k < n && at < |entries| + n && k != Active(entries, n, at) && StreamInv(entries, n, at, k, s)
    ensures StreamInv(entries, n, at + 1, k, s)
  {
    if at < |entries| {
      ShareOfNext(entries, n, at, k);
      assert entries[..|entries|] == entries;
    }
    hide Share, Sound, Signalled;
  }

  lemma MoveKeepsInv(entries: seq<Entry>, n: nat, j: Joint, m: Move)
    requires n > 0 && Inv(entries, n, j) && Enabled(entries, j, m)
    ensures Inv(entries, n, Do(entries, j, m))
  {
    hide StreamInv, Active, ProducerMove, WorkerMove, ProducerEnabled, WorkerEnabled;
    var j' := Do(entries, j, m);
    match m {
      case Work(k, first) => WorkKeepsStream(entries, n, j.at, k, j.streams[k], first);
      case Dispatch(first) =>
        var active := Active(entries, n, j.at);
        DispatchKeepsStream(entries, n, j.at, j.streams[active], first);
        if j'.at > j.at {
          forall k | 0 <= k < n && k != active ensures StreamInv(entries, n, j'.at, k, j'.streams[k]) {
            ReturnKeepsOthers(entries, n, j.at, k, j.streams[k]);
          }
        }
    }
  }

  lemma InitialInv(entries: seq<Entry>, n: nat)
    requires n > 0
    ensures Inv(entries, n, Initial(entries, n))
  {
    forall k: nat | k < n ensures StreamInv(entries, n, 0, k, Begun(Share(entries, n, k))) {
      assert entries[..0] == [];
      assert entries == [] ==> entries[..0] == entries;
    }
    hide StreamInv;
  }

  // ---------- A bound on the steps ----------

  ghost function MovesLeft(streams: seq<State<Entry>>): nat {
    if streams == [] then 0 else MovesLeft(streams[..|streams| - 1]) + StepsLeft(streams[|streams| - 1])
  }

  lemma {:induction false} MovesLeftUpdate(streams: seq<State<Entry>>, k: nat, s: State<Entry>)
    requires k < |streams|
    ensures MovesLeft(streams[k := s]) == MovesLeft(streams) - StepsLeft(streams[k]) + StepsLeft(s)
  {
    hide StepsLeft;
    var last := |streams| - 1;
    if k < last {
      MovesLeftUpdate(streams[..last], k, s);
      assert streams[k := s][..last] == streams[..last][k := s];
    } else {
      assert streams[k := s][..last] == streams[..last];
    }
  }

  lemma MoveSpends(entries: seq<Entry>, j: Joint, m: Move)
    requires Enabled(entries, j, m)
    ensures MovesLeft(Do(entries, j, m).streams) < MovesLeft(j.streams)
  {
    hide StepsLeft, ProducerMove, WorkerMove, Active, MovesLeft;
    var k := if m.Work? then m.stream else Active(entries, |j.streams|, j.at);
    var s' := if m.Work? then WorkerMove(j.streams[k], m.first) else ProducerMove(j.streams[k], m.first);
    MovesLeftUpdate(j.streams, k, s');
    StepSpends(j.streams[k], s');
  }

  lemma {:induction false} InitialMovesLeft(entries: seq<Entry>, n: nat, m: nat)
    requires m <= n && n > 0
    ensures MovesLeft(Initial(entries, n).streams[..m]) == 18 * |FirstShares(entries, n, m)| + 10 * m
  {
    hide Share, StepsLeft;
    if m > 0 {
      InitialMovesLeft(entries, n, m - 1);
      var streams := Initial(entries, n).streams;
      assert streams[..m][..m - 1] == streams[..m - 1];
      BegunStepsLeft(Share(entries, n, m - 1));
    }
  }

  lemma BegunStepsLeft(tasks: seq<Entry>)
    ensures StepsLeft(Begun(tasks)) == 18 * |multiset(tasks)| + 10
  {
    assert |multiset(tasks)| == |tasks|;
  }

  lemma {:induction false} RunKeepsInv(run: seq<Joint>, moves: seq<Move>, entries: seq<Entry>, n: nat, i: nat)
    requires n > 0 && IsJointRun(run, moves, entries, n) && i < |run|
    ensures Inv(entries, n, run[i]) && i + MovesLeft(run[i].streams) <= 18 * |entries| + 10 * n
  {
    hide Do, Inv, Enabled;
    if i == 0 {
      InitialInv(entries, n);
      InitialMovesLeft(entries, n, n);
      SharesPartition(entries, n);
      assert run[0].streams[..n] == run[0].streams;
      assert |multiset(entries)| == |entries|;
    } else {
      RunKeepsInv(run, moves, entries, n, i - 1);
      MoveKeepsInv(entries, n, run[i - 1], moves[i - 1]);
      MoveSpends(entries, run[i - 1], moves[i - 1]);
      assert run[i - 1 + 1] == Do(entries, run[i - 1], moves[i - 1]);
    }
  }

  // ---------- Every run ends, with every entry checked once ----------

  /** No deadlock: until every `finish()` has returned some thread can move. */
  lemma SomeMoveEnabled(entries: seq<Entry>, n: nat, j: Joint) returns (m: Move)
    requires n > 0 && Inv(entries, n, j) && j.at < |entries| + n
    ensures Enabled(entries, j, m)
  {
    var k := Active(entries, n, j.at);
    assert StreamInv(entries, n, j.at, k, j.streams[k]);
    SomeoneEnabled(j.streams[k], Share(entries, n, k));
    m := if ProducerEnabled(j.streams[k]) then Dispatch(true) else Work(k, true);
    hide Share, Sound, Signalled;
  }

  ghost function CheckedByAll(streams: seq<State<Entry>>): multiset<Entry> {
    if streams == [] then multiset{}
    else CheckedByAll(streams[..|streams| - 1]) + multiset(streams[|streams| - 1].processed)
  }

  lemma {:induction false} CheckedIsShares(streams: seq<State<Entry>>, entries: seq<Entry>, n: nat)
    requires n > 0 && forall k :: 0 <= k < |streams| ==> streams[k].processed == Share(entries, n, k)
    ensures CheckedByAll(streams) == FirstShares(entries, n, |streams|)
  {
    if streams != [] {
      CheckedIsShares(streams[..|streams| - 1], entries, n);
    }
  }

  /** All calls have returned: each worker has checked its share in order, and together they have checked every entry
      exactly once. */
  lemma ReturnedHasChecked(entries: seq<Entry>, n: nat, j: Joint)
    requires n > 0 && Inv(entries, n, j) && j.at == |entries| + n
    ensures forall k :: 0 <= k < n ==> j.streams[k].processed == Share(entries, n, k)
    ensures CheckedByAll(j.streams) == multiset(entries)
  {
    forall k | 0 <= k < n ensures j.streams[k].processed == Share(entries, n, k) {
      assert StreamInv(entries, n, j.at, k, j.streams[k]);
      FinishedHasChecked(j.streams[k], Share(entries, n, k));
    }
    CheckedIsShares(j.streams, entries, n);
    SharesPartition(entries, n);
    hide Share, StreamInv, FirstShares, CheckedByAll;
  }

  /** One dispatching thread and the workers of `n` streams, in any interleaving without spurious wakeups: a run has at
      most `18 * |entries| + 10 * n` steps; it can be continued until all calls have returned; and then each stream has
      checked its runs in order, and all together every entry exactly once. */
  lemma EveryEntryCheckedOnce(run: seq<Joint>, moves: seq<Move>, entries: seq<Entry>, n: nat)
    requires n > 0 && IsJointRun(run, moves, entries, n)
    ensures |moves| <= 18 * |entries| + 10 * n
    ensures var j := run[|moves|];
            && |j.streams| == n && j.at <= |entries| + n
            && (j.at < |entries| + n ==> exists m :: Enabled(entries, j, m))
            && (j.at == |entries| + n ==>
                  && (forall k :: 0 <= k < n ==> j.streams[k].processed == Share(entries, n, k))
                  && CheckedByAll(j.streams) == multiset(entries))
  {
    var j := run[|moves|];
    RunKeepsInv(run, moves, entries, n, |moves|);
    if j.at < |entries| + n {
      var m := SomeMoveEnabled(entries, n, j);
    } else {
      ReturnedHasChecked(entries, n, j);
    }
    hide IsJointRun, Enabled, StreamInv;
  }
}
