/**
 The bounded work queue between the dispatching thread and one checking thread (`TaskStream` of
 src/zimcheck/checks.cpp), as a transition system whose steps are the statements of the two threads.

 Both threads wait on one condition variable. A waiting thread is either un-notified (`WaitingIn`,
 `WaitingOut`) or notified and not yet holding the mutex again (`WokenIn`, `WokenOut`). `cv.wait` may also
 return without a notification; `spurious` says whether such wakeups are part of the step relation.
 */
module TaskStreams {

  const MAX_SIZE: nat := 1000

  datatype Owner = Free | ByProducer | ByWorker

  // addTask: Outside -> TestFull -> (WaitingIn -> WokenIn -> TestFull)* -> Pushing -> NotifyingPush -> Outside
  // finish:  Outside -> Closing -> NotifyingClose -> Joining -> Finished
  datatype Producer =
    | Outside | TestFull | WaitingIn | WokenIn | Pushing | NotifyingPush
    | Closing | NotifyingClose | Joining | Finished

  // processTasks: Idle -> TestEmpty -> (WaitingOut -> WokenOut ->)? Taking -> NotifyingTake -> Checking -> Idle,
  // or from Taking, with nothing in the queue, to Exited
  datatype Worker =
    | Idle | TestEmpty | WaitingOut | WokenOut | Taking | NotifyingTake | Checking | Exited

  /** `todo` is still to be added, `added` was pushed so far, `hand` is the task taken but not yet checked. */
  datatype State<T> = State(
    todo: seq<T>, added: seq<T>, queue: seq<T>, expectingMoreTasks: bool, lock: Owner,
    producer: Producer, worker: Worker, hand: seq<T>, processed: seq<T>)

  ghost predicate Init<T>(s: State<T>, tasks: seq<T>) {
    s == State(tasks, [], [], true, Free, Outside, Idle, [], [])
  }

  /** `cv.notify_one()`: releases one un-notified waiter if there is any; `first` picks one if there are two. */
  function NotifyOne<T>(s: State<T>, first: bool): (s': State<T>)
    ensures s'.(producer := s.producer, worker := s.worker) == s
    ensures s.producer == WaitingIn || s.worker == WaitingOut
            ==> s' == s.(producer := WokenIn) || s' == s.(worker := WokenOut)
    ensures s'.producer != s.producer ==> s.producer == WaitingIn
    ensures s'.worker != s.worker ==> s.worker == WaitingOut
    ensures s.producer != WaitingIn && s.worker != WaitingOut ==> s' == s
  {
    if s.producer == WaitingIn && (first || s.worker != WaitingOut) then s.(producer := WokenIn)
    else if s.worker == WaitingOut then s.(worker := WokenOut)
    else s
  }

  predicate ProducerEnabled<T>(s: State<T>) {
    match s.producer
    case Outside => s.lock == Free
    case WokenIn => s.lock == Free
    case Pushing => s.todo != []
    case Joining => s.worker == Exited
    case _ => s.producer != WaitingIn && s.producer != Finished
  }

  /** The producer's next statement. */
  function ProducerMove<T>(s: State<T>, first: bool): State<T>
    requires ProducerEnabled(s)
  {
    match s.producer
    case Outside => s.(lock := ByProducer, producer := if s.todo != [] then TestFull else Closing)
    case TestFull =>
      if |s.queue| >= MAX_SIZE then s.(lock := Free, producer := WaitingIn) else s.(producer := Pushing)
    case WokenIn => s.(lock := ByProducer, producer := TestFull)
    case Pushing =>
      s.(queue := s.queue + [s.todo[0]], added := s.added + [s.todo[0]], todo := s.todo[1..],
         producer := NotifyingPush)
    case NotifyingPush => NotifyOne(s.(lock := Free, producer := Outside), first)
    case Closing => s.(expectingMoreTasks := false, producer := NotifyingClose)
    case NotifyingClose => NotifyOne(s.(lock := Free, producer := Joining), first)
    case Joining => s.(producer := Finished)
  }

  predicate WorkerEnabled<T>(s: State<T>) {
    match s.worker
    case Idle => s.lock == Free
    case WokenOut => s.lock == Free
    case _ => s.worker != WaitingOut && s.worker != Exited
  }

  /** The worker's next statement. */
  function WorkerMove<T>(s: State<T>, first: bool): State<T>
    requires WorkerEnabled(s)
  {
    match s.worker
    case Idle => s.(lock := ByWorker, worker := TestEmpty)
    case TestEmpty =>
      if s.expectingMoreTasks && s.queue == [] then s.(lock := Free, worker := WaitingOut)
      else s.(worker := Taking)
    case WokenOut => s.(lock := ByWorker, worker := Taking)
    case Taking =>
      if s.queue == [] then s.(lock := Free, worker := Exited)
      else s.(hand := [s.queue[0]], queue := s.queue[1..], worker := NotifyingTake)
    case NotifyingTake => NotifyOne(s.(lock := Free, worker := Checking), first)
    case Checking => s.(processed := s.processed + s.hand, hand := [], worker := Idle)
  }

  ghost predicate SpuriousWakeup<T>(s: State<T>, s': State<T>) {
    || (s.producer == WaitingIn && s' == s.(producer := WokenIn))
    || (s.worker == WaitingOut && s' == s.(worker := WokenOut))
  }

  ghost predicate Step<T>(s: State<T>, s': State<T>, spurious: bool) {
    || (ProducerEnabled(s) && (s' == ProducerMove(s, true) || s' == ProducerMove(s, false)))
    || (WorkerEnabled(s) && (s' == WorkerMove(s, true) || s' == WorkerMove(s, false)))
    || (spurious && SpuriousWakeup(s, s'))
  }

  ghost predicate IsRun<T>(run: seq<State<T>>, tasks: seq<T>, spurious: bool) {
    && |run| > 0 && Init(run[0], tasks)
    && forall i :: 0 <= i < |run| - 1 ==> Step(run[i], run[i + 1], spurious)
  }

  // ---------- What every interleaving keeps, spurious wakeups or not ----------

  /** The mutex is held exactly by the thread inside a critical section. */
  ghost predicate LockMatches<T>(s: State<T>) {
    && (s.lock == ByProducer <==> s.producer in {TestFull, Pushing, NotifyingPush, Closing, NotifyingClose})
    && (s.lock == ByWorker <==> s.worker in {TestEmpty, Taking, NotifyingTake})
  }

  /** No task is lost, duplicated or reordered anywhere in the pipe. */
  ghost predicate Conserved<T>(s: State<T>, tasks: seq<T>) {
    s.processed + s.hand + s.queue == s.added && s.added + s.todo == tasks
  }

  /** The queue never outgrows its bound, and program counters agree with the data. */
  ghost predicate PhasesMatch<T>(s: State<T>) {
    && |s.queue| <= MAX_SIZE
    && (s.hand != [] <==> s.worker in {NotifyingTake, Checking})
    && (s.producer == Pushing ==> |s.queue| < MAX_SIZE)
    && (s.producer in {TestFull, WaitingIn, WokenIn, Pushing} ==> s.todo != [])
    && (s.producer in {Closing, NotifyingClose, Joining, Finished} ==> s.todo == [])
    && (s.expectingMoreTasks <==> s.producer !in {NotifyingClose, Joining, Finished})
    && (s.producer == Finished ==> s.worker == Exited)
  }

  ghost predicate Sound<T>(s: State<T>, tasks: seq<T>) {
    LockMatches(s) && PhasesMatch(s) && Conserved(s, tasks)
  }

  lemma ProducerKeepsPhases<T>(s: State<T>, first: bool)
    requires LockMatches(s) && PhasesMatch(s) && ProducerEnabled(s)
    ensures LockMatches(ProducerMove(s, first)) && PhasesMatch(ProducerMove(s, first))
  {
  }

  lemma WorkerKeepsPhases<T>(s: State<T>, first: bool)
    requires LockMatches(s) && PhasesMatch(s) && WorkerEnabled(s)
    ensures LockMatches(WorkerMove(s, first)) && PhasesMatch(WorkerMove(s, first))
  {
  }

  lemma StepKeepsPhases<T>(s: State<T>, s': State<T>, spurious: bool)
    requires LockMatches(s) && PhasesMatch(s) && Step(s, s', spurious)
    ensures LockMatches(s') && PhasesMatch(s')
  {
    hide ProducerMove, WorkerMove;
    if ProducerEnabled(s) {
      ProducerKeepsPhases(s, true);
      ProducerKeepsPhases(s, false);
    }
    if WorkerEnabled(s) {
      WorkerKeepsPhases(s, true);
      WorkerKeepsPhases(s, false);
    }
  }

  /** What a step does to the tasks: nothing, one push, one take, or one task checked. */
  ghost predicate MovesTasks<T>(s: State<T>, s': State<T>) {
    || (s'.todo == s.todo && s'.added == s.added && s'.queue == s.queue && s'.hand == s.hand
        && s'.processed == s.processed)
    || (s.todo != [] && s'.todo == s.todo[1..] && s'.added == s.added + [s.todo[0]]
        && s'.queue == s.queue + [s.todo[0]] && s'.hand == s.hand && s'.processed == s.processed)
    || (s.queue != [] && s'.queue == s.queue[1..] && s.hand == [] && s'.hand == [s.queue[0]]
        && s'.todo == s.todo && s'.added == s.added && s'.processed == s.processed)
    || (s'.processed == s.processed + s.hand && s'.hand == []
        && s'.todo == s.todo && s'.added == s.added && s'.queue == s.queue)
  }

  lemma ProducerMovesTasks<T>(s: State<T>, first: bool)
    requires PhasesMatch(s) && ProducerEnabled(s)
    ensures MovesTasks(s, ProducerMove(s, first))
  {
  }

  lemma WorkerMovesTasks<T>(s: State<T>, first: bool)
    requires PhasesMatch(s) && WorkerEnabled(s)
    ensures MovesTasks(s, WorkerMove(s, first))
  {
  }

  lemma StepMovesTasks<T>(s: State<T>, s': State<T>, spurious: bool)
    requires PhasesMatch(s) && Step(s, s', spurious)
    ensures MovesTasks(s, s')
  {
    hide PhasesMatch, ProducerMove, WorkerMove;
    if ProducerEnabled(s) {
      ProducerMovesTasks(s, true);
      ProducerMovesTasks(s, false);
    }
    if WorkerEnabled(s) {
      WorkerMovesTasks(s, true);
      WorkerMovesTasks(s, false);
    }
  }

  lemma StepConserves<T>(s: State<T>, s': State<T>, tasks: seq<T>)
    requires Conserved(s, tasks) && MovesTasks(s, s')
    ensures Conserved(s', tasks)
  {
    if s'.todo != s.todo {
      assert s.todo == [s.todo[0]] + s.todo[1..];
      assert s'.added + s'.todo == s.added + s.todo;
      assert s'.processed + s'.hand + s'.queue == (s.processed + s.hand + s.queue) + [s.todo[0]];
    } else if s'.queue != s.queue {
      assert s.queue == [s.queue[0]] + s.queue[1..];
      assert s'.processed + s'.hand + s'.queue == s.processed + s.hand + s.queue;
    } else {
      assert s'.processed + s'.hand + s'.queue == s.processed + s.hand + s.queue;
    }
  }

  lemma {:induction false} RunConserves<T>(run: seq<State<T>>, tasks: seq<T>, spurious: bool, i: nat)
    requires IsRun(run, tasks, spurious) && i < |run|
    ensures Sound(run[i], tasks)
  {
    if i != 0 {
      RunConserves(run, tasks, spurious, i - 1);
      assert Step(run[i - 1], run[i - 1 + 1], spurious);
      StepKeepsPhases(run[i - 1], run[i], spurious);
      StepMovesTasks(run[i - 1], run[i], spurious);
      StepConserves(run[i - 1], run[i], tasks);
    }
  }

  /** Even with spurious wakeups: what was checked is a prefix of what was added, in order and once each, and the
      queue stays within its bound. */
  lemma CheckedIsPrefix<T>(run: seq<State<T>>, tasks: seq<T>, spurious: bool, i: nat)
    requires IsRun(run, tasks, spurious) && i < |run|
    ensures run[i].processed <= run[i].added <= tasks && |run[i].queue| <= 1000
    ensures multiset(run[i].processed) + multiset(run[i].hand) + multiset(run[i].queue) + multiset(run[i].todo)
            == multiset(tasks)
  {
    RunConserves(run, tasks, spurious, i);
    var s := run[i];
    assert tasks == s.processed + (s.hand + s.queue + s.todo);
    assert tasks == s.processed + s.hand + s.queue + s.todo;
    assert s.added == s.processed + (s.hand + s.queue);
  }

  // ---------- One condition variable is enough ----------

  /** A waiter stays un-notified only while its reason to wait lasts, up to the notification that the other thread,
      holding the mutex, is about to send. */
  ghost predicate Signalled<T>(s: State<T>) {
    && (s.worker == WaitingOut && s.producer !in {NotifyingPush, NotifyingClose} ==>
          s.queue == [] && s.expectingMoreTasks)
    && (s.producer == NotifyingPush ==> s.queue != [])
    && (s.producer == WaitingIn && s.worker != NotifyingTake ==> |s.queue| == MAX_SIZE)
    && (s.worker in {WokenOut, Taking} ==> s.queue != [] || !s.expectingMoreTasks)
    && (s.worker == Exited ==> s.queue == [] && !s.expectingMoreTasks)
  }

  lemma ProducerKeepsSignalled<T>(s: State<T>, first: bool)
    requires LockMatches(s) && PhasesMatch(s) && Signalled(s) && ProducerEnabled(s)
    ensures Signalled(ProducerMove(s, first))
  {
  }

  lemma WorkerKeepsSignalled<T>(s: State<T>, first: bool)
    requires LockMatches(s) && PhasesMatch(s) && Signalled(s) && WorkerEnabled(s)
    ensures Signalled(WorkerMove(s, first))
  {
  }

  lemma StepKeepsSignalled<T>(s: State<T>, s': State<T>)
    requires LockMatches(s) && PhasesMatch(s) && Signalled(s) && Step(s, s', false)
    ensures Signalled(s')
  {
    hide ProducerMove, WorkerMove, Signalled, PhasesMatch;
    if ProducerEnabled(s) {
      ProducerKeepsSignalled(s, true);
      ProducerKeepsSignalled(s, false);
    }
    if WorkerEnabled(s) {
      WorkerKeepsSignalled(s, true);
      WorkerKeepsSignalled(s, false);
    }
  }

  lemma StepKeepsSound<T>(s: State<T>, s': State<T>, tasks: seq<T>)
    requires Sound(s, tasks) && Signalled(s) && Step(s, s', false)
    ensures Sound(s', tasks) && Signalled(s')
  {
    hide Step, Signalled, PhasesMatch, LockMatches, Conserved;
    StepKeepsSignalled(s, s');
    StepKeepsPhases(s, s', false);
    StepMovesTasks(s, s', false);
    StepConserves(s, s', tasks);
  }

  lemma {:induction false} RunIsSignalled<T>(run: seq<State<T>>, tasks: seq<T>, i: nat)
    requires IsRun(run, tasks, false) && i < |run|
    ensures Sound(run[i], tasks) && Signalled(run[i])
  {
    RunConserves(run, tasks, false, i);
    if i != 0 {
      RunIsSignalled(run, tasks, i - 1);
      assert Step(run[i - 1], run[i - 1 + 1], false);
      StepKeepsSignalled(run[i - 1], run[i]);
    }
  }

  /** The claim beside `cv`: the two ends are never blocked together. A blocked worker means an empty queue with
      more promised, a blocked producer a full queue, except while the other thread, holding the mutex, is about to
      notify. */
  lemma NeverBothBlocked<T>(run: seq<State<T>>, tasks: seq<T>, i: nat)
    requires IsRun(run, tasks, false) && i < |run|
    ensures !(run[i].producer == WaitingIn && run[i].worker == WaitingOut)
    ensures run[i].worker == WaitingOut && run[i].producer !in {NotifyingPush, NotifyingClose}
            ==> run[i].queue == [] && run[i].expectingMoreTasks
    ensures run[i].producer == WaitingIn && run[i].worker != NotifyingTake ==> |run[i].queue| == 1000
  {
    RunIsSignalled(run, tasks, i);
  }

  /** A step that can be taken next: the producer's when it has one, otherwise the worker's. */
  function AStep<T>(s: State<T>): State<T> {
    if ProducerEnabled(s) then ProducerMove(s, true) else if WorkerEnabled(s) then WorkerMove(s, true) else s
  }

  /** One of the two threads can move until the producer has finished. */
  lemma SomeoneEnabled<T>(s: State<T>, tasks: seq<T>)
    requires Sound(s, tasks) && Signalled(s) && s.producer != Finished
    ensures ProducerEnabled(s) || WorkerEnabled(s)
  {
  }

  /** No deadlock: until `finish()` has returned some thread can move. */
  lemma SomeStepEnabled<T>(run: seq<State<T>>, tasks: seq<T>)
    requires IsRun(run, tasks, false) && run[|run| - 1].producer != Finished
    ensures IsRun(run + [AStep(run[|run| - 1])], tasks, false)
  {
    var s := run[|run| - 1];
    RunIsSignalled(run, tasks, |run| - 1);
    assert Step(s, AStep(s), false);
    var longer := run + [AStep(s)];
    forall i | 0 <= i < |longer| - 1 ensures Step(longer[i], longer[i + 1], false) {
      if i < |run| - 1 {
        assert Step(run[i], run[i + 1], false);
      }
    }
  }

  // ---------- Every run ends, with everything checked ----------

  function ProducerWeight(p: Producer): nat {
    match p
    case Outside => 6 case TestFull => 5 case WaitingIn => 1 case WokenIn => 6 case Pushing => 4
    case NotifyingPush => 10 case Closing => 5 case NotifyingClose => 4 case Joining => 1 case Finished => 0
  }

  function WorkerWeight(w: Worker): nat {
    match w
    case Idle => 4 case TestEmpty => 3 case WaitingOut => 1 case WokenOut => 3 case Taking => 2
    case NotifyingTake => 12 case Checking => 5 case Exited => 0
  }

  /** A bound on the steps still to come: each queued or outstanding task pays for the wakeup it causes. */
  function StepsLeft<T>(s: State<T>): nat {
    18 * |s.todo| + 11 * |s.queue| + ProducerWeight(s.producer) + WorkerWeight(s.worker)
  }

  lemma ProducerSpends<T>(s: State<T>, first: bool)
    requires ProducerEnabled(s)
    ensures StepsLeft(ProducerMove(s, first)) < StepsLeft(s)
  {
  }

  lemma WorkerSpends<T>(s: State<T>, first: bool)
    requires WorkerEnabled(s)
    ensures StepsLeft(WorkerMove(s, first)) < StepsLeft(s)
  {
  }

  lemma StepSpends<T>(s: State<T>, s': State<T>)
    requires Step(s, s', false)
    ensures StepsLeft(s') < StepsLeft(s)
  {
    hide StepsLeft, ProducerMove, WorkerMove;
    if ProducerEnabled(s) {
      ProducerSpends(s, true);
      ProducerSpends(s, false);
    }
    if WorkerEnabled(s) {
      WorkerSpends(s, true);
      WorkerSpends(s, false);
    }
  }

  lemma {:induction false} RunIsBounded<T>(run: seq<State<T>>, tasks: seq<T>, i: nat)
    requires IsRun(run, tasks, false) && i < |run|
    ensures i + StepsLeft(run[i]) <= 18 * |tasks| + 10
  {
    if i != 0 {
      RunIsBounded(run, tasks, i - 1);
      assert Step(run[i - 1], run[i - 1 + 1], false);
      StepSpends(run[i - 1], run[i]);
    }
  }

  lemma FinishedHasChecked<T>(s: State<T>, tasks: seq<T>)
    requires Sound(s, tasks) && Signalled(s) && s.producer == Finished
    ensures s.processed == tasks
  {
    assert s.processed == s.processed + s.hand + s.queue;
    assert s.added == s.added + s.todo;
  }

  ghost predicate Stuck<T(!new)>(s: State<T>) {
    forall s': State<T> :: !Step(s, s', false)
  }

  /** Nothing is lost: with wakeups only after notifications every run has at most `18n + 10` steps, a run that
      cannot go on has returned from `finish()`, and then exactly the added tasks were checked, in order. */
  lemma EveryRunChecksEverything<T(!new)>(run: seq<State<T>>, tasks: seq<T>)
    requires IsRun(run, tasks, false)
    ensures |run| <= 18 * |tasks| + 11
    ensures Stuck(run[|run| - 1]) ==> run[|run| - 1].producer == Finished
    ensures run[|run| - 1].producer == Finished ==> run[|run| - 1].processed == tasks
  {
    var last := |run| - 1;
    RunIsBounded(run, tasks, last);
    RunIsSignalled(run, tasks, last);
    if run[last].producer != Finished {
      assert Step(run[last], AStep(run[last]), false);
    } else {
      FinishedHasChecked(run[last], tasks);
    }
  }

  // ---------- With spurious wakeups ----------

  lemma ExitStep<T>(s: State<T>, s': State<T>, tasks: seq<T>, spurious: bool)
    requires Sound(s, tasks) && Step(s, s', spurious) && s.worker == Taking && s'.worker == Exited
    ensures s'.processed == s.added
  {
    assert s.queue == [] && s.hand == [];
    assert s.processed + s.hand + s.queue == s.processed;
  }

  lemma ProducerAfterExit<T>(s: State<T>, first: bool)
    requires s.worker == Exited && ProducerEnabled(s)
    ensures ProducerMove(s, first).worker == Exited && ProducerMove(s, first).processed == s.processed
  {
  }

  lemma StepAfterExit<T>(s: State<T>, s': State<T>, spurious: bool)
    requires s.worker == Exited && Step(s, s', spurious)
    ensures s'.worker == Exited && s'.processed == s.processed
  {
    hide ProducerMove, WorkerMove;
    if ProducerEnabled(s) {
      ProducerAfterExit(s, true);
      ProducerAfterExit(s, false);
    }
  }

  lemma {:induction false} ExitIsFinal<T>(run: seq<State<T>>, tasks: seq<T>, spurious: bool, k: nat, i: nat)
    requires IsRun(run, tasks, spurious) && k < i < |run|
    requires run[k].worker == Taking && run[k + 1].worker == Exited
    ensures run[i].worker == Exited && run[i].processed == run[k].added
    decreases i
  {
    hide Sound, ProducerMove, WorkerMove;
    assert Step(run[i - 1], run[i - 1 + 1], spurious);
    if i == k + 1 {
      RunConserves(run, tasks, spurious, k);
      ExitStep(run[k], run[i], tasks, spurious);
    } else {
      ExitIsFinal(run, tasks, spurious, k, i - 1);
      StepAfterExit(run[i - 1], run[i], spurious);
    }
  }

  /** Step `k` is the one with which the worker leaves its loop. */
  ghost predicate ExitsAt<T>(run: seq<State<T>>, k: nat) {
    k < |run| - 1 && run[k].worker == Taking && run[k + 1].worker == Exited
  }

  lemma LeavesFromTaking<T>(s: State<T>, s': State<T>, spurious: bool)
    requires Step(s, s', spurious) && s'.worker == Exited
    ensures s.worker in {Taking, Exited}
  {
    hide ProducerMove, WorkerMove;
    if ProducerEnabled(s) {
      ProducerMovesAlone(s, true);
      ProducerMovesAlone(s, false);
    }
    if WorkerEnabled(s) {
      WorkerLeavesFromTaking(s, true);
      WorkerLeavesFromTaking(s, false);
    }
  }

  lemma ProducerMovesAlone<T>(s: State<T>, first: bool)
    requires ProducerEnabled(s)
    ensures ProducerMove(s, first).worker in {s.worker, WokenOut}
  {
  }

  lemma WorkerLeavesFromTaking<T>(s: State<T>, first: bool)
    requires WorkerEnabled(s)
    ensures WorkerMove(s, first).worker == Exited ==> s.worker == Taking
  {
  }

  lemma {:induction false} ExitedBefore<T>(run: seq<State<T>>, tasks: seq<T>, spurious: bool, i: nat) returns (k: nat)
    requires IsRun(run, tasks, spurious) && i < |run| && run[i].worker == Exited
    ensures k < i && ExitsAt(run, k)
  {
    hide Step;
    assert i > 0;
    assert Step(run[i - 1], run[i - 1 + 1], spurious);
    LeavesFromTaking(run[i - 1], run[i], spurious);
    if run[i - 1].worker == Exited {
      k := ExitedBefore(run, tasks, spurious, i - 1);
    } else {
      k := i - 1;
    }
  }

  /** Exactly when nothing is lost: when `finish()` returns, the worker has left its loop at exactly one step (finding
      the queue empty), and everything was checked if and only if by then the last task had been pushed. */
  lemma NothingLostIff<T>(run: seq<State<T>>, tasks: seq<T>, spurious: bool) returns (k: nat)
    requires IsRun(run, tasks, spurious) && run[|run| - 1].producer == Finished
    ensures ExitsAt(run, k) && forall j: nat :: ExitsAt(run, j) ==> j == k
    ensures run[|run| - 1].processed == tasks <==> run[k].todo == []
  {
    RunConserves(run, tasks, spurious, |run| - 1);
    k := ExitedBefore(run, tasks, spurious, |run| - 1);
    forall j: nat | ExitsAt(run, j) ensures j == k {
      if j < k {
        ExitIsFinal(run, tasks, spurious, j, k);
      } else if k < j {
        ExitIsFinal(run, tasks, spurious, k, j);
      }
    }
    ExitIsFinal(run, tasks, spurious, k, |run| - 1);
    RunConserves(run, tasks, spurious, k);
    if run[k].todo == [] {
      assert run[k].added == run[k].added + run[k].todo;
    }
    hide Step, Sound;
  }

  /** Also with spurious wakeups, a producer stays un-notified only while the queue is full. */
  ghost predicate WaitsWhenFull<T>(s: State<T>) {
    s.producer == WaitingIn && s.worker != NotifyingTake ==> |s.queue| == MAX_SIZE
  }

  lemma StepKeepsFull<T>(s: State<T>, s': State<T>, spurious: bool)
    requires LockMatches(s) && PhasesMatch(s) && WaitsWhenFull(s) && Step(s, s', spurious)
    ensures WaitsWhenFull(s')
  {
    hide ProducerMove, WorkerMove;
    if ProducerEnabled(s) {
      ProducerKeepsFull(s, true);
      ProducerKeepsFull(s, false);
    }
    if WorkerEnabled(s) {
      WorkerKeepsFull(s, true);
      WorkerKeepsFull(s, false);
    }
  }

  lemma ProducerKeepsFull<T>(s: State<T>, first: bool)
    requires LockMatches(s) && PhasesMatch(s) && WaitsWhenFull(s) && ProducerEnabled(s)
    ensures WaitsWhenFull(ProducerMove(s, first))
  {
  }

  lemma WorkerKeepsFull<T>(s: State<T>, first: bool)
    requires LockMatches(s) && PhasesMatch(s) && WaitsWhenFull(s) && WorkerEnabled(s)
    ensures WaitsWhenFull(WorkerMove(s, first))
  {
  }

  lemma {:induction false} RunWaitsWhenFull<T>(run: seq<State<T>>, tasks: seq<T>, spurious: bool, i: nat)
    requires IsRun(run, tasks, spurious) && i < |run|
    ensures WaitsWhenFull(run[i])
  {
    hide Step, PhasesMatch, LockMatches, Conserved;
    if i > 0 {
      RunWaitsWhenFull(run, tasks, spurious, i - 1);
      RunConserves(run, tasks, spurious, i - 1);
      assert Step(run[i - 1], run[i - 1 + 1], spurious);
      StepKeepsFull(run[i - 1], run[i], spurious);
    }
  }

  lemma SameRest<T>(processed: seq<T>, queue: seq<T>, todo: seq<T>, left: seq<T>)
    requires processed + queue + todo == processed + left
    ensures queue + todo == left
  {
    assert processed + (queue + todo) == processed + left;
    assert queue + todo == (processed + (queue + todo))[|processed|..];
    assert left == (processed + left)[|processed|..];
  }

  lemma AllAccounted<T>(s: State<T>, tasks: seq<T>)
    requires Sound(s, tasks) && s.worker in {Taking, Exited}
    ensures s.added + s.todo == tasks && s.processed + s.queue + s.todo == tasks
  {
    assert s.hand == [];
    assert s.processed + s.hand == s.processed;
  }

  /** Nothing is taken any more once the worker has left. */
  lemma {:induction false} LeftAfterExit<T>(run: seq<State<T>>, tasks: seq<T>, spurious: bool, k: nat, i: nat)
    requires IsRun(run, tasks, spurious) && ExitsAt(run, k) && k < i < |run|
    ensures run[i].queue + run[i].todo == run[k].todo
    decreases i
  {
    hide Step, IsRun, Sound;
    RunConserves(run, tasks, spurious, k);
    AllAccounted(run[k], tasks);
    ExitIsFinal(run, tasks, spurious, k, i);
    RunConserves(run, tasks, spurious, i);
    AllAccounted(run[i], tasks);
    SameRest(run[i].processed, run[i].queue, run[i].todo, run[k].todo);
  }

  /** When `finish()` returns at all: a run with spurious wakeups in which the worker has left at step `k`, and which
      can go on only by further spurious wakeups, has finished exactly if the queue has room for all tasks that were
      left. */
  lemma FinishesIffRoom<T(!new)>(run: seq<State<T>>, tasks: seq<T>, spurious: bool, k: nat)
    requires IsRun(run, tasks, spurious) && ExitsAt(run, k) && Stuck(run[|run| - 1])
    ensures run[|run| - 1].producer == Finished <==> |run[k].todo| <= 1000
  {
    var last := |run| - 1;
    var s := run[last];
    LeftAfterExit(run, tasks, spurious, k, last);
    ExitIsFinal(run, tasks, spurious, k, last);
    RunConserves(run, tasks, spurious, last);
    RunWaitsWhenFull(run, tasks, spurious, last);
    OnlyWaiting(s);
  }

  lemma OnlyWaiting<T(!new)>(s: State<T>)
    requires LockMatches(s) && PhasesMatch(s) && s.worker == Exited && Stuck(s)
    ensures s.producer == Finished || s.producer == WaitingIn
  {
    if ProducerEnabled(s) {
      assert Step(s, ProducerMove(s, true), false);
    }
  }

  /** The worker re-tests nothing after its wait, so one spurious wakeup before the first task loses that task. */
  lemma SpuriousWakeupLosesTask<T>(task: T) returns (run: seq<State<T>>)
    ensures IsRun(run, [task], true) && run[|run| - 1].producer == Finished && run[|run| - 1].processed == []
  {
    var s0 := State([task], [], [], true, Free, Outside, Idle, [], []);
    var s1 := WorkerMove(s0, true);
    var s2 := WorkerMove(s1, true);
    var s3 := s2.(worker := WokenOut);
    var s4 := WorkerMove(s3, true);
    var s5 := WorkerMove(s4, true);
    assert s5 == State([task], [], [], true, Free, Outside, Exited, [], []);
    run := [s0, s1, s2, s3, s4, s5];
    var rest := ProducerAlone(s5);
    run := run + rest;
  }

  lemma ProducerAlone<T>(s: State<T>) returns (run: seq<State<T>>)
    requires s.worker == Exited && s.producer == Outside && s.lock == Free && |s.todo| == 1 && s.queue == []
    ensures |run| == 8 && run[7].producer == Finished && run[7].processed == s.processed
    ensures Step(s, run[0], true) && forall i :: 0 <= i < 7 ==> Step(run[i], run[i + 1], true)
  {
    var s1 := ProducerMove(s, true);
    var s2 := ProducerMove(s1, true);
    var s3 := ProducerMove(s2, true);
    var s4 := ProducerMove(s3, true);
    assert s4.producer == Outside && s4.todo == [] && s4.lock == Free && s4.worker == Exited;
    var s5 := ProducerMove(s4, true);
    var s6 := ProducerMove(s5, true);
    var s7 := ProducerMove(s6, true);
    run := [s1, s2, s3, s4, s5, s6, s7, ProducerMove(s7, true)];
  }
}
