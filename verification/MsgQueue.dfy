/**
 The message queue under interleaving: any number of threads push messages and take them, each atomic section one
 step. The condition variable is explicit: a thread can be asleep, or woken and not yet back at the test.
 */
module MsgQueue {
  import opened ProxyTypes

  /**
   Where a thread is: outside; between push and the increment in signal_set; between the increment and the wakeup;
   asleep on the condition; woken, before the test; between signal_wait and pop.
   */
  datatype Pc = Outside | Pushed | Signalled | Asleep | Awakened | Acquired

  /** `pushed` and `popped` are histories. */
  datatype Sys<T> = Sys(semaphore: bool, nsignal: nat, queue: seq<T>, threads: seq<Pc>, pushed: seq<T>, popped: seq<T>)

  /**
   `Wakeup` wakes `chosen`, a sleeper, if there is one. A wakeup that wakes more is that and spurious ones.
   `Test` is the loop test of signal_wait, on entry or after waking.
   */
  datatype Action<T> =
    | Push(m: T)
    | Signal
    | Wakeup(chosen: nat)
    | Spurious
    | Test
    | Pop

  predicate Sleeps<T>(s: Sys<T>, t: nat) {
    t < |s.threads| && s.threads[t].Asleep?
  }

  ghost predicate SomeoneSleeps<T>(s: Sys<T>) {
    exists t: nat :: Sleeps(s, t)
  }

  /** Can thread `t` do this now? */
  ghost predicate Enabled<T>(s: Sys<T>, t: nat, a: Action<T>) {
    && t < |s.threads|
    && match a
       case Push(_) => s.threads[t].Outside?
       case Signal => s.threads[t].Pushed?
       case Wakeup(chosen) => s.threads[t].Signalled? && (SomeoneSleeps(s) ==> Sleeps(s, chosen))
       case Spurious => s.threads[t].Asleep?
       case Test => s.threads[t].Outside? || s.threads[t].Awakened?
       case Pop => s.threads[t].Acquired?
  }

  function At<T>(s: Sys<T>, t: nat, pc: Pc): Sys<T>
    requires t < |s.threads|
  {
    s.(threads := s.threads[t := pc])
  }

  /** Popping an empty queue is a fault. */
  function Step<T>(s: Sys<T>, t: nat, a: Action<T>): Outcome<Sys<T>>
    requires t < |s.threads|
  {
    match a
    case Push(m) => Ok(At(s, t, Pushed).(queue := s.queue + [m], pushed := s.pushed + [m]))
    case Signal => Ok(At(s, t, Signalled).(nsignal := s.nsignal + 1))
    case Wakeup(chosen) =>
      var s' := At(s, t, Outside);
      Ok(if Sleeps(s', chosen) then At(s', chosen, Awakened) else s')
    case Spurious => Ok(At(s, t, Awakened))
    case Test =>
      if s.nsignal == 0 then Ok(At(s, t, Asleep))
      else Ok(At(s, t, Acquired).(nsignal := if s.semaphore then s.nsignal - 1 else 0))
    case Pop =>
      if s.queue == [] then Fault
      else Ok(At(s, t, Outside).(queue := s.queue[1..], popped := s.popped + [s.queue[0]]))
  }

  function Begin<T>(semaphore: bool, threadCount: nat): Sys<T> {
    Sys(semaphore, 0, [], seq(threadCount, _ => Outside), [], [])
  }

  /** A run: who does what, in order. */
  ghost predicate Runs<T>(s: Sys<T>, script: seq<(nat, Action<T>)>, s': Outcome<Sys<T>>)
    decreases |script|
  {
    if script == [] then s' == Ok(s)
    else
      var (t, a) := script[0];
      && Enabled(s, t, a)
      && match Step(s, t, a)
         case Fault => s' == Fault
         case Ok(s1) => Runs(s1, script[1..], s')
  }

  // ---------------------------------------------------------------------------------------------
  // Invariant
  // ---------------------------------------------------------------------------------------------

  ghost function Count<T>(s: Sys<T>, pc: Pc): nat {
    multiset(s.threads)[pc]
  }

  ghost predicate NoLostWakeup<T>(s: Sys<T>) {
    Count(s, Asleep) > 0 ==> Count(s, Signalled) + Count(s, Awakened) >= s.nsignal
  }

  ghost predicate Accounted<T>(s: Sys<T>) {
    var owed := s.nsignal + Count(s, Acquired) + Count(s, Pushed);
    if s.semaphore then |s.queue| == owed else |s.queue| >= owed
  }

  ghost predicate Inv<T>(s: Sys<T>) {
    NoLostWakeup(s) && Accounted(s) && s.popped + s.queue == s.pushed
  }

  /** One thread moves: one less at its old place, one more at the new. */
  lemma AtCounts<T>(s: Sys<T>, t: nat, pc: Pc, pc': Pc)
    requires t < |s.threads|
    ensures Count(At(s, t, pc), pc') ==
            Count(s, pc') + (if pc' == pc then 1 else 0) - (if pc' == s.threads[t] then 1 else 0)
    ensures Count(s, s.threads[t]) > 0
  {
    assert s.threads[t] in multiset(s.threads);
  }

  lemma MoveCounts<T>(s: Sys<T>, t: nat, pc: Pc)
    requires t < |s.threads|
    ensures forall pc' :: Count(At(s, t, pc), pc') ==
                          Count(s, pc') + (if pc' == pc then 1 else 0) - (if pc' == s.threads[t] then 1 else 0)
    ensures Count(s, s.threads[t]) > 0
  {
    forall pc'
      ensures Count(At(s, t, pc), pc') == Count(s, pc') +
                (if pc' == pc then 1 else 0) - (if pc' == s.threads[t] then 1 else 0)
    {
      AtCounts(s, t, pc, pc');
    }
    AtCounts(s, t, pc, pc);
  }

  lemma SleeperCounted<T>(s: Sys<T>)
    ensures Count(s, Asleep) > 0 <==> SomeoneSleeps(s)
  {
    if Count(s, Asleep) > 0 {
      assert Asleep in s.threads;
      var t :| 0 <= t < |s.threads| && s.threads[t] == Asleep;
      assert Sleeps(s, t);
    }
    if t: nat :| Sleeps(s, t) {
      assert s.threads[t] in multiset(s.threads);
    }
  }

  lemma WakeupKeeps<T>(s: Sys<T>, t: nat, chosen: nat)
    requires Inv(s) && Enabled(s, t, Wakeup(chosen))
    ensures Inv(Step(s, t, Wakeup(chosen)).value)
  {
    var s1 := At(s, t, Outside);
    MoveCounts(s, t, Outside);
    SleeperCounted(s);
    if Sleeps(s1, chosen) {
      MoveCounts(s1, chosen, Awakened);
    } else {
      assert !Sleeps(s, chosen);
    }
  }

  lemma TestKeeps<T>(s: Sys<T>, t: nat)
    requires Inv(s) && Enabled(s, t, Test)
    ensures Inv(Step(s, t, Test).value)
  {
    MoveCounts(s, t, if s.nsignal == 0 then Asleep else Acquired);
  }

  lemma PopKeeps<T>(s: Sys<T>, t: nat)
    requires Inv(s) && Enabled(s, t, Pop)
    ensures Step(s, t, Pop).Ok? && Inv(Step(s, t, Pop).value)
  {
    MoveCounts(s, t, Outside);
    assert s.queue == [s.queue[0]] + s.queue[1..];
  }

  lemma PushKeeps<T>(s: Sys<T>, t: nat, m: T)
    requires Inv(s) && Enabled(s, t, Push(m))
    ensures Inv(Step(s, t, Push(m)).value)
  {
    MoveCounts(s, t, Pushed);
    assert s.popped + (s.queue + [m]) == s.popped + s.queue + [m];
  }

  lemma SignalKeeps<T>(s: Sys<T>, t: nat)
    requires Inv(s) && Enabled(s, t, Signal)
    ensures Inv(Step(s, t, Signal).value)
  {
    MoveCounts(s, t, Signalled);
  }

  lemma SpuriousKeeps<T>(s: Sys<T>, t: nat)
    requires Inv(s) && Enabled(s, t, Spurious)
    ensures Inv(Step(s, t, Spurious).value)
  {
    MoveCounts(s, t, Awakened);
  }

  lemma StepKeeps<T>(s: Sys<T>, t: nat, a: Action<T>)
    requires Inv(s) && Enabled(s, t, a)
    ensures Step(s, t, a).Ok?
    ensures var s' := Step(s, t, a).value; Inv(s') && s'.semaphore == s.semaphore && |s'.threads| == |s.threads|
  {
    match a
    case Push(m) => PushKeeps(s, t, m);
    case Signal => SignalKeeps(s, t);
    case Wakeup(chosen) => WakeupKeeps(s, t, chosen);
    case Spurious => SpuriousKeeps(s, t);
    case Test => TestKeeps(s, t);
    case Pop => PopKeeps(s, t);
  }

  lemma {:induction false} RunKeeps<T>(s: Sys<T>, script: seq<(nat, Action<T>)>, s': Outcome<Sys<T>>)
    requires Inv(s) && Runs(s, script, s')
    ensures s'.Ok? && Inv(s'.value) && s'.value.semaphore == s.semaphore
    decreases |script|
  {
    if script != [] {
      var (t, a) := script[0];
      StepKeeps(s, t, a);
      RunKeeps(Step(s, t, a).value, script[1..], s');
    }
  }

  lemma BeginInv<T>(semaphore: bool, threadCount: nat)
    ensures Inv(Begin<T>(semaphore, threadCount))
  {
    var s := Begin<T>(semaphore, threadCount);
    assert forall pc: Pc :: !pc.Outside? ==> pc !in multiset(s.threads);
  }

  // ---------------------------------------------------------------------------------------------
  // What every run guarantees
  // ---------------------------------------------------------------------------------------------

  /**
   Under any interleaving, no pop meets an empty queue; what was popped and what is queued is what was pushed, in
   order; while a thread sleeps, the wakeups to come and the woken threads are as many as the signals, at least.
   With a semaphore the queue holds one message per signal, per acquired message and per message not yet signalled.
   */
  lemma EveryRun<T>(semaphore: bool, threadCount: nat, script: seq<(nat, Action<T>)>, s': Outcome<Sys<T>>)
    requires Runs(Begin(semaphore, threadCount), script, s')
    ensures s'.Ok?
    ensures var s := s'.value;
            && s.popped + s.queue == s.pushed
            && (SomeoneSleeps(s) ==> Count(s, Signalled) + Count(s, Awakened) >= s.nsignal)
            && (semaphore ==> |s.queue| == s.nsignal + Count(s, Acquired) + Count(s, Pushed))
  {
    BeginInv<T>(semaphore, threadCount);
    RunKeeps(Begin(semaphore, threadCount), script, s');
    SleeperCounted(s'.value);
  }

  /** With a semaphore, when a thread sleeps and all others sleep or are outside, no message waits. */
  lemma NothingStranded<T>(threadCount: nat, script: seq<(nat, Action<T>)>, s': Outcome<Sys<T>>)
    requires Runs(Begin(true, threadCount), script, s')
    ensures s'.Ok?
    ensures SomeoneSleeps(s'.value) && (forall pc :: pc in s'.value.threads ==> pc.Asleep? || pc.Outside?) ==>
              s'.value.queue == []
  {
    EveryRun(true, threadCount, script, s');
    var s := s'.value;
    assert forall pc :: pc in multiset(s.threads) <==> pc in s.threads;
  }

  /** Without a semaphore that fails: one wait takes both signals, and a message is left to a sleeper. */
  lemma StrandedWithoutSemaphore() returns (script: seq<(nat, Action<int>)>, s: Sys<int>)
    ensures Runs(Begin(false, 2), script, Ok(s))
    ensures SomeoneSleeps(s) && (forall pc :: pc in s.threads ==> pc.Asleep? || pc.Outside?) && s.queue == [2]
  {
    var s0: Sys<int> := Sys(false, 0, [], [Outside, Outside], [], []);
    var s1: Sys<int> := Sys(false, 1, [1], [Outside, Outside], [1], []);
    var s2: Sys<int> := Sys(false, 2, [1, 2], [Outside, Outside], [1, 2], []);
    s := Sys(false, 0, [2], [Outside, Asleep], [1, 2], [1]);
    assert s2.queue[1..] == [2];
    TakesOne(s2, s);
    script := [(1, Test), (1, Pop), (1, Test)];
    Pushes(s1, 2, script, s2, Ok(s));
    script := Pushing(2, script);
    Pushes(s0, 1, script, s1, Ok(s));
    script := Pushing(1, script);
    assert Begin<int>(false, 2) == s0;
    assert Sleeps(s, 1);
  }

  /** One more step in front of a run. */
  lemma StepsTo<T>(s: Sys<T>, t: nat, a: Action<T>, s1: Sys<T>, rest: seq<(nat, Action<T>)>, s': Outcome<Sys<T>>)
    requires Enabled(s, t, a) && Step(s, t, a) == Ok(s1) && Runs(s1, rest, s')
    ensures Runs(s, [(t, a)] + rest, s')
  {
    assert ([(t, a)] + rest)[1..] == rest;
  }

  /** Thread 0 pushes `m`, with nobody asleep. */
  function Pushing(m: int, rest: seq<(nat, Action<int>)>): seq<(nat, Action<int>)> {
    [(0, Push(m))] + ([(0, Signal)] + ([(0, Wakeup(0))] + rest))
  }

  lemma Pushes(s: Sys<int>, m: int, rest: seq<(nat, Action<int>)>, s3: Sys<int>, s': Outcome<Sys<int>>)
    requires s.threads == [Outside, Outside] && Runs(s3, rest, s')
    requires s3 == s.(queue := s.queue + [m], pushed := s.pushed + [m], nsignal := s.nsignal + 1)
    ensures Runs(s, Pushing(m, rest), s')
  {
    var s1 := s.(queue := s3.queue, pushed := s3.pushed, threads := [Pushed, Outside]);
    var s2 := s3.(threads := [Signalled, Outside]);
    LastWakeup(s2, s3);
    StepsTo(s2, 0, Wakeup(0), s3, rest, s');
    ThenSignal(s1, s2);
    StepsTo(s1, 0, Signal, s2, [(0, Wakeup(0))] + rest, s');
    FirstPush(s, m, s1);
    StepsTo(s, 0, Push(m), s1, [(0, Signal)] + ([(0, Wakeup(0))] + rest), s');
  }

  lemma FirstPush(s: Sys<int>, m: int, s': Sys<int>)
    requires s.threads == [Outside, Outside]
    requires s' == s.(queue := s.queue + [m], pushed := s.pushed + [m], threads := [Pushed, Outside])
    ensures Enabled(s, 0, Push(m)) && Step(s, 0, Push(m)) == Ok(s')
  {
    assert At(s, 0, Pushed).threads == s'.threads;
  }

  lemma ThenSignal(s: Sys<int>, s': Sys<int>)
    requires s.threads == [Pushed, Outside] && s' == s.(nsignal := s.nsignal + 1, threads := [Signalled, Outside])
    ensures Enabled(s, 0, Signal) && Step(s, 0, Signal) == Ok(s')
  {
    assert At(s, 0, Signalled).threads == s'.threads;
  }

  lemma LastWakeup(s: Sys<int>, s': Sys<int>)
    requires s.threads == [Signalled, Outside] && s' == s.(threads := [Outside, Outside])
    ensures Enabled(s, 0, Wakeup(0)) && Step(s, 0, Wakeup(0)) == Ok(s')
  {
    assert !SomeoneSleeps(s);
    assert At(s, 0, Outside).threads == s'.threads;
  }

  lemma TakesOne(s: Sys<int>, s': Sys<int>)
    requires s.threads == [Outside, Outside] && s.queue != [] && s.nsignal > 0 && !s.semaphore
    requires s' == s.(nsignal := 0, queue := s.queue[1..], popped := s.popped + [s.queue[0]],
                      threads := [Outside, Asleep])
    ensures Runs(s, [(1, Test), (1, Pop), (1, Test)], Ok(s'))
  {
    var s1 := s.(nsignal := 0, threads := [Outside, Acquired]);
    var s2 := s'.(threads := [Outside, Outside]);
    LastTest(s2, s');
    StepsTo(s2, 1, Test, s', [], Ok(s'));
    ThenPop(s1, s2);
    StepsTo(s1, 1, Pop, s2, [(1, Test)], Ok(s'));
    FirstTest(s, s1);
    StepsTo(s, 1, Test, s1, [(1, Pop), (1, Test)], Ok(s'));
  }

  lemma FirstTest(s: Sys<int>, s': Sys<int>)
    requires s.threads == [Outside, Outside] && s.nsignal > 0 && !s.semaphore
    requires s' == s.(nsignal := 0, threads := [Outside, Acquired])
    ensures Enabled(s, 1, Test) && Step(s, 1, Test) == Ok(s')
  {
    assert At(s, 1, Acquired).threads == s'.threads;
  }

  lemma ThenPop(s: Sys<int>, s': Sys<int>)
    requires s.threads == [Outside, Acquired] && s.queue != []
    requires s' == s.(queue := s.queue[1..], popped := s.popped + [s.queue[0]], threads := [Outside, Outside])
    ensures Enabled(s, 1, Pop) && Step(s, 1, Pop) == Ok(s')
  {
    assert At(s, 1, Outside).threads == s'.threads;
  }

  lemma LastTest(s: Sys<int>, s': Sys<int>)
    requires s.threads == [Outside, Outside] && s.nsignal == 0 && s' == s.(threads := [Outside, Asleep])
    ensures Enabled(s, 1, Test) && Step(s, 1, Test) == Ok(s')
  {
    assert At(s, 1, Asleep).threads == s'.threads;
  }

  // ---------------------------------------------------------------------------------------------
  // The objects
  // ---------------------------------------------------------------------------------------------

  /**
   The queue and its event, one method per atomic section. Where each thread is, is ghost. Threads may call the
   sections in any order in which they are enabled.
   */
  class Monitor<T> {
    const semaphore: bool
    var nsignal: nat
    var queue: seq<T>
    ghost var threads: seq<Pc>
    ghost var pushed: seq<T>
    ghost var popped: seq<T>

    constructor (semaphore: bool, ghost threadCount: nat)
      ensures View() == Begin(semaphore, threadCount) && Inv(View())
    {
      this.semaphore := semaphore;
      nsignal, queue, pushed, popped := 0, [], [], [];
      threads := seq(threadCount, _ => Outside);
      new;
      BeginInv<T>(semaphore, threadCount);
    }

    ghost function View(): Sys<T>
      reads this
    {
      Sys(semaphore, nsignal, queue, threads, pushed, popped)
    }

    method Push(ghost t: nat, m: T)
      requires Inv(View()) && Enabled(View(), t, Action.Push(m))
      modifies this
      ensures Inv(View()) && Step(old(View()), t, Action.Push(m)) == Ok(View())
    {
      StepKeeps(View(), t, Action.Push(m));
      queue := queue + [m];
      pushed, threads := pushed + [m], threads[t := Pushed];
    }

    /** The section of signal_set under the mutex. */
    method SignalSet(ghost t: nat)
      requires Inv(View()) && Enabled(View(), t, Signal)
      modifies this
      ensures Inv(View()) && Step(old(View()), t, Signal) == Ok(View())
    {
      StepKeeps(View(), t, Signal);
      nsignal := nsignal + 1;
      threads := threads[t := Signalled];
    }

    /** The wakeup of signal_set: it wakes a sleeper, if there is one, and touches nothing but that. */
    method SignalWakeup(ghost t: nat, ghost chosen: nat)
      requires Inv(View()) && Enabled(View(), t, Wakeup(chosen))
      modifies this`threads
      ensures Inv(View()) && Step(old(View()), t, Wakeup(chosen)) == Ok(View())
      ensures old(SomeoneSleeps(View())) ==> chosen < |threads| && threads[chosen].Awakened?
    {
      StepKeeps(View(), t, Wakeup(chosen));
      threads := Step(View(), t, Wakeup(chosen)).value.threads;
    }

    /**
     One round of signal_wait's loop under the mutex: it is left, and then there is a message; or the thread goes to
     sleep, and then there was no signal.
     */
    method SignalTest(ghost t: nat) returns (acquired: bool)
      requires Inv(View()) && Enabled(View(), t, Test)
      modifies this
      ensures Inv(View()) && Step(old(View()), t, Test) == Ok(View())
      ensures acquired <==> threads[t].Acquired?
      ensures acquired ==> queue != []
      ensures !acquired ==> nsignal == 0
    {
      StepKeeps(View(), t, Test);
      assert nsignal > 0 ==> queue != [];
      if nsignal == 0 {
        threads := threads[t := Asleep];
        return false;
      }
      if semaphore {
        nsignal := nsignal - 1;
      } else {
        nsignal := 0;
      }
      threads := threads[t := Acquired];
      return true;
    }

    method Pop(ghost t: nat) returns (m: T)
      requires Inv(View()) && Enabled(View(), t, Action.Pop)
      modifies this
      ensures Inv(View()) && Step(old(View()), t, Action.Pop) == Ok(View())
      ensures old(queue) == [m] + queue
    {
      StepKeeps(View(), t, Action.Pop);
      m := queue[0];
      queue := queue[1..];
      popped, threads := popped + [m], threads[t := Outside];
    }
  }

  /** The `i`-th of `n` queues in a round that begins at `robin`. */
  function RobinAt(robin: nat, i: nat, n: nat): nat
    requires n > 0
  {
    (robin + i) % n
  }

  lemma NextInTurn(robin: nat, n: nat)
    requires robin < n
    ensures RobinAt(robin, 1, n) == if robin + 1 == n then 0 else robin + 1
  {
  }

  class QueueArr {
    const count: nat
    var robin: nat

    ghost predicate Valid()
      reads this
    {
      robin < count
    }

    constructor (count: nat)
      requires count > 0
      ensures Valid() && this.count == count && robin == 0
    {
      this.count, robin := count, 0;
    }

    /** The queue whose turn it is, and then it is the next one's. */
    method GetByRobin() returns (q: nat)
      requires Valid()
      modifies this
      ensures Valid() && q == old(robin) && robin == RobinAt(old(robin), 1, count)
    {
      NextInTurn(robin, count);
      q := robin;
      robin := robin + 1;
      if robin == count {
        robin := 0;
      }
    }
  }
}
