/** Waiting on a futex word against storing to it and waking: every interleaving of the
    loads, the manager's lock, the queue and the store, for any number of tasks on one key. */
module FutexProtocol {
  import opened Wrappers

  /** Where a task stands. A waiter has loaded the expected value, holds the lock, has
      reloaded it under the lock, is parked, or has been notified; a waker has made store
      number k, or holds the lock to wake for it. `seen` is the number of stores made when
      the waiter reloaded the word. */
  datatype Phase =
    | Idle
    | Loaded(val: int)
    | Locked(val: int)
    | Checked(val: int, seen: nat)
    | Parked(val: int, seen: nat)
    | Notified
    | Stored(k: nat)
    | Waking(k: nat)

  /** `history` holds the word's values, the initial one and then one per store; `done` the
      numbers of the stores whose own wake has finished. */
  datatype System = System(history: seq<int>, done: set<nat>, lock: Option<nat>, queue: seq<nat>, phase: map<nat, Phase>)
  {
    function Word(): int
      requires history != []
    {
      history[|history| - 1]
    }
  }

  /** A store is followed by a wake of its own, or, as a plain store, by none. A stray wake-up,
      by a waker the task left elsewhere, ends the wait and leaves its queue entry behind. */
  datatype Action =
    | WaitLoad(t: nat, val: int)
    | WaitLock(t: nat)
    | WaitReload(t: nat)
    | WaitEnqueue(t: nat)
    | Return(t: nat)
    | Store(t: nat, value: int)
    | PlainStore(t: nat, value: int)
    | WakeLock(t: nat)
    | WakeAll(t: nat)
    | WakeSome(t: nat, n: nat)
    | Abort(t: nat)
    | StrayWake(t: nat)

  predicate Enabled(s: System, a: Action) {
    s.history != [] && a.t in s.phase &&
    match a
    case WaitLoad(t, _) => s.phase[t] == Idle
    case WaitLock(t) => s.phase[t].Loaded? && s.lock == None
    case WaitReload(t) => s.phase[t].Locked?
    case WaitEnqueue(t) => s.phase[t].Checked?
    case Return(t) => s.phase[t] == Notified
    case Store(t, _) => s.phase[t] == Idle
    case PlainStore(t, _) => s.phase[t] == Idle
    case WakeLock(t) => s.phase[t].Stored? && s.lock == None
    case WakeAll(t) => s.phase[t].Waking?
    case WakeSome(t, n) => s.phase[t] == Idle && s.lock == None && n <= |s.queue|
    case Abort(t) => s.phase[t].Parked? && s.lock == None
    case StrayWake(t) => s.phase[t].Parked?
  }

  /** Woken tasks leave the parked phase; a stale entry wakes nobody. */
  function Notify(phase: map<nat, Phase>, woken: seq<nat>): map<nat, Phase> {
    map t | t in phase :: if t in woken && phase[t].Parked? then Notified else phase[t]
  }

  function Without(queue: seq<nat>, t: nat): seq<nat> {
    if queue == [] then []
    else if queue[0] == t then queue[1..]
    else [queue[0]] + Without(queue[1..], t)
  }

  function Step(s: System, a: Action): System
    requires Enabled(s, a)
  {
    match a
    case WaitLoad(t, val) => if s.Word() == val then s.(phase := s.phase[t := Loaded(val)]) else s
    case WaitLock(t) => s.(lock := Some(t), phase := s.phase[t := Locked(s.phase[t].val)])
    case WaitReload(t) =>
      if s.Word() == s.phase[t].val then s.(phase := s.phase[t := Checked(s.phase[t].val, |s.history| - 1)])
      else s.(lock := None, phase := s.phase[t := Idle])
    case WaitEnqueue(t) =>
      s.(lock := None, queue := s.queue + [t], phase := s.phase[t := Parked(s.phase[t].val, s.phase[t].seen)])
    case Return(t) => s.(phase := s.phase[t := Idle])
    case Store(t, value) => s.(history := s.history + [value], phase := s.phase[t := Stored(|s.history|)])
    case PlainStore(t, value) => s.(history := s.history + [value])
    case WakeLock(t) => s.(lock := Some(t), phase := s.phase[t := Waking(s.phase[t].k)])
    case WakeAll(t) =>
      s.(lock := None, queue := [], done := s.done + {s.phase[t].k}, phase := Notify(s.phase, s.queue)[t := Idle])
    case WakeSome(t, n) => s.(queue := s.queue[n..], phase := Notify(s.phase, s.queue[..n]))
    case Abort(t) => s.(queue := Without(s.queue, t), phase := s.phase[t := Idle])
    case StrayWake(t) => s.(phase := s.phase[t := Notified])
  }

  /** Every parked task is queued. Other entries may be stale. */
  ghost predicate QueueOk(s: System) {
    forall t | t in s.phase && s.phase[t].Parked? :: t in s.queue
  }

  /** The lock's owner is the one task in a phase that holds it. */
  ghost predicate LockOk(s: System) {
    forall t | t in s.phase ::
      s.lock == Some(t) <==> s.phase[t].Locked? || s.phase[t].Checked? || s.phase[t].Waking?
  }

  /** A parked or about-to-park task expects the value it saw, and every store made since
      still has its own wake to come. */
  ghost predicate SeenOk(s: System) {
    forall t | t in s.phase && (s.phase[t].Parked? || s.phase[t].Checked?) ::
      var p := s.phase[t];
      p.seen < |s.history| && p.val == s.history[p.seen] && forall k | p.seen < k :: k !in s.done
  }

  /** A wake in progress or finished is for a store that has been made. */
  ghost predicate StoresOk(s: System) {
    && s.history != []
    && (forall t | t in s.phase && (s.phase[t].Stored? || s.phase[t].Waking?) :: 1 <= s.phase[t].k < |s.history|)
    && (forall k | k in s.done :: 1 <= k < |s.history|)
  }

  ghost predicate Inv(s: System) {
    QueueOk(s) && LockOk(s) && SeenOk(s) && StoresOk(s)
  }

  function Initial(word: int, tasks: set<nat>): System {
    System([word], {}, None, [], map t | t in tasks :: Idle)
  }

  lemma InitialInv(word: int, tasks: set<nat>)
    ensures Inv(Initial(word, tasks))
  {
  }

  lemma LockKept(s: System, a: Action)
    requires Inv(s) && Enabled(s, a)
    ensures LockOk(Step(s, a))
  {
  }

  lemma {:induction false} WithoutKeeps(queue: seq<nat>, t: nat, u: nat)
    requires u in queue && u != t
    ensures u in Without(queue, t)
    decreases |queue|
  {
    assert u == queue[0] || u in queue[1..];
    if queue[0] != t && u != queue[0] {
      WithoutKeeps(queue[1..], t, u);
    }
  }

  /** Moving one task to a phase other than parked leaves the queue right. */
  lemma QueueUntouched(s: System, t: nat, p: Phase, s': System)
    requires QueueOk(s) && t in s.phase && !p.Parked?
    requires s'.queue == s.queue && s'.phase == s.phase[t := p]
    ensures QueueOk(s')
  {
  }

  lemma QueueAfterEnqueue(s: System, t: nat, val: int, seen: nat, s': System)
    requires QueueOk(s) && t in s.phase && !s.phase[t].Parked?
    requires s'.queue == s.queue + [t] && s'.phase == s.phase[t := Parked(val, seen)]
    ensures QueueOk(s')
  {
  }

  lemma QueueAfterWake(s: System, n: nat, s': System)
    requires QueueOk(s) && n <= |s.queue|
    requires s'.queue == s.queue[n..] && s'.phase == Notify(s.phase, s.queue[..n])
    ensures QueueOk(s')
  {
    forall t | t in s'.phase && s'.phase[t].Parked? ensures t in s'.queue {
      assert t in s.queue && t !in s.queue[..n];
      assert s.queue == s.queue[..n] + s.queue[n..];
    }
  }

  lemma QueueAfterAbort(s: System, t: nat, s': System)
    requires QueueOk(s) && t in s.phase && s.phase[t].Parked?
    requires s'.queue == Without(s.queue, t) && s'.phase == s.phase[t := Idle]
    ensures QueueOk(s')
  {
    forall u | u in s'.phase && s'.phase[u].Parked? ensures u in s'.queue {
      WithoutKeeps(s.queue, t, u);
    }
  }

  lemma QueueKept(s: System, a: Action)
    requires QueueOk(s) && Enabled(s, a)
    ensures QueueOk(Step(s, a))
  {
    hide QueueOk, Notify, Without;
    var s' := Step(s, a);
    match a
    case WaitLoad(t, val) => if s.Word() == val { QueueUntouched(s, t, Loaded(val), s'); } else { assert s' == s; }
    case WaitLock(t) => QueueUntouched(s, t, Locked(s.phase[t].val), s');
    case WaitReload(t) => QueueUntouched(s, t, s'.phase[t], s');
    case WaitEnqueue(t) => QueueAfterEnqueue(s, t, s.phase[t].val, s.phase[t].seen, s');
    case Return(t) => QueueUntouched(s, t, Idle, s');
    case Store(t, _) => QueueUntouched(s, t, Stored(|s.history|), s');
    case PlainStore(t, _) => assert s'.phase == s.phase[t := Idle]; QueueUntouched(s, t, Idle, s');
    case WakeLock(t) => QueueUntouched(s, t, Waking(s.phase[t].k), s');
    case WakeAll(t) => QueueAfterWakeAll(s, t, s');
    case WakeSome(t, n) => QueueAfterWake(s, n, s');
    case Abort(t) => QueueAfterAbort(s, t, s');
    case StrayWake(t) => QueueUntouched(s, t, Notified, s');
  }

  lemma QueueAfterWakeAll(s: System, t: nat, s': System)
    requires QueueOk(s) && t in s.phase && s.phase[t].Waking?
    requires s'.queue == [] && s'.phase == Notify(s.phase, s.queue)[t := Idle]
    ensures QueueOk(s')
  {
  }

  /** A full wake leaves nobody parked or about to park: the queue holds all parked tasks,
      and the lock keeps everyone else from the check. */
  lemma NobodyWaitsAfterWakeAll(s: System, t: nat)
    requires Inv(s) && Enabled(s, WakeAll(t))
    ensures forall u | u in s.phase :: var p := Step(s, WakeAll(t)).phase[u]; !p.Parked? && !p.Checked?
  {
    forall u | u in s.phase ensures var p := Step(s, WakeAll(t)).phase[u]; !p.Parked? && !p.Checked? {
      assert s.lock == Some(t) && (s.phase[u].Parked? ==> u in s.queue);
    }
  }

  lemma SeenKept(s: System, a: Action)
    requires Inv(s) && Enabled(s, a)
    ensures SeenOk(Step(s, a))
  {
    if a.WakeAll? {
      NobodyWaitsAfterWakeAll(s, a.t);
    }
  }

  lemma StoresKept(s: System, a: Action)
    requires StoresOk(s) && Enabled(s, a)
    ensures StoresOk(Step(s, a))
  {
  }

  lemma StepKeepsInv(s: System, a: Action)
    requires Inv(s) && Enabled(s, a)
    ensures Inv(Step(s, a))
  {
    LockKept(s, a);
    QueueKept(s, a);
    SeenKept(s, a);
    StoresKept(s, a);
  }

  ghost predicate Reaches(s: System, actions: seq<Action>, t: System)
    decreases |actions|
  {
    if actions == [] then t == s
    else Enabled(s, actions[0]) && Reaches(Step(s, actions[0]), actions[1..], t)
  }

  lemma {:induction false} RunsKeepInv(s: System, actions: seq<Action>, t: System)
    requires Inv(s) && Reaches(s, actions, t)
    ensures Inv(t)
    decreases |actions|
  {
    if actions != [] {
      StepKeepsInv(s, actions[0]);
      RunsKeepInv(Step(s, actions[0]), actions[1..], t);
    }
  }

  /** No lost wakeup: in every interleaving, whatever other stores are still to be woken for or
      never will be, once the wake of store k has finished every parked task is queued and
      checked the word at or after store k, expecting the value it then had. */
  lemma NoLostWakeup(word: int, tasks: set<nat>, actions: seq<Action>, s: System, t: nat, k: nat)
    requires Reaches(Initial(word, tasks), actions, s)
    requires k in s.done && t in s.phase && s.phase[t].Parked?
    ensures t in s.queue && k <= s.phase[t].seen < |s.history| && s.phase[t].val == s.history[s.phase[t].seen]
  {
    InitialInv(word, tasks);
    RunsKeepInv(Initial(word, tasks), actions, s);
  }

  /** In particular, once the last store's wake has finished, whoever is parked expects the
      word's current value. */
  lemma LastWakeSettles(word: int, tasks: set<nat>, actions: seq<Action>, s: System, t: nat)
    requires Reaches(Initial(word, tasks), actions, s)
    requires |s.history| - 1 in s.done && t in s.phase && s.phase[t].Parked?
    ensures s.phase[t].val == s.Word()
  {
    NoLostWakeup(word, tasks, actions, s, t, |s.history| - 1);
  }

  /** A store with its wake, undisturbed: the word has the value, the store counts as woken
      for, nobody is parked, and the lock is free again. */
  lemma StoreThenWake(s: System, t: nat, value: int) returns (acts: seq<Action>, s': System)
    requires Inv(s) && s.history != [] && t in s.phase && s.phase[t] == Idle && s.lock == None
    ensures acts == [Store(t, value), WakeLock(t), WakeAll(t)] && Reaches(s, acts, s')
    ensures s'.history == s.history + [value] && s'.done == s.done + {|s.history|} && s'.lock == None && s'.queue == []
    ensures forall u | u in s'.phase :: !s'.phase[u].Parked?
  {
    acts := [Store(t, value), WakeLock(t), WakeAll(t)];
    var s1 := Step(s, acts[0]);
    StepKeepsInv(s, acts[0]);
    var s2 := Step(s1, acts[1]);
    StepKeepsInv(s1, acts[1]);
    s' := Step(s2, acts[2]);
    NobodyWaitsAfterWakeAll(s2, t);
    assert Reaches(s', [], s') && Reaches(s2, [acts[2]], s') && Reaches(s1, [acts[1], acts[2]], s');
    assert acts[1..] == [acts[1], acts[2]];
  }

  /** A plain store changes the word and nothing else; with a free lock an idle task may wake
      any number of queue entries, and a parked one may give up. */
  lemma OthersMayAct(s: System, t: nat, value: int, n: nat)
    requires s.history != [] && t in s.phase && n <= |s.queue|
    ensures s.phase[t] == Idle ==> Enabled(s, PlainStore(t, value)) && Step(s, PlainStore(t, value)) == s.(history := s.history + [value])
    ensures s.phase[t] == Idle && s.lock == None ==> Enabled(s, WakeSome(t, n))
    ensures s.phase[t].Parked? && s.lock == None ==> Enabled(s, Abort(t))
  {
  }

  // ---------- whom a wake of n releases ----------

  /** The parked tasks among the first n entries. */
  function Released(s: System, n: nat): set<nat>
    requires n <= |s.queue|
  {
    set t | t in s.queue[..n] && t in s.phase && s.phase[t].Parked?
  }

  /** A wake of n takes n entries, and exactly the parked tasks among them go on. */
  lemma WakeReleases(s: System, t: nat, n: nat, u: nat)
    requires Enabled(s, WakeSome(t, n)) && u in s.phase && s.phase[u].Parked?
    ensures Step(s, WakeSome(t, n)).queue == s.queue[n..]
    ensures var p := Step(s, WakeSome(t, n)).phase[u]; if u in Released(s, n) then p == Notified else p == s.phase[u]
  {
  }

  /** The first n entries are those of n different parked tasks. */
  ghost predicate NoStale(s: System, n: nat)
    requires n <= |s.queue|
  {
    && (forall i | 0 <= i < n :: s.queue[i] in s.phase && s.phase[s.queue[i]].Parked?)
    && (forall i, j | 0 <= i < j < n :: s.queue[i] != s.queue[j])
  }

  lemma NoStaleStep(s: System, n: nat)
    requires 0 < n <= |s.queue|
    ensures var x := s.queue[n - 1];
            NoStale(s, n) <==> NoStale(s, n - 1) && x in s.phase && s.phase[x].Parked? && x !in s.queue[..n - 1]
  {
    var m, x := n - 1, s.queue[n - 1];
    assert forall i | 0 <= i < m :: s.queue[..m][i] == s.queue[i];
    if NoStale(s, n) {
      assert forall i | 0 <= i < m :: s.queue[i] != s.queue[m];
    }
  }

  lemma ReleasedStep(s: System, n: nat)
    requires 0 < n <= |s.queue|
    ensures var x := s.queue[n - 1];
            Released(s, n) == if x in s.phase && s.phase[x].Parked? then Released(s, n - 1) + {x} else Released(s, n - 1)
  {
    assert s.queue[..n] == s.queue[..n - 1] + [s.queue[n - 1]];
  }

  /** A wake of n releases n tasks exactly when no entry it takes is stale or a duplicate. */
  lemma {:induction false} WakeReleasesAllIff(s: System, n: nat)
    requires n <= |s.queue|
    ensures |Released(s, n)| <= n
    ensures |Released(s, n)| == n <==> NoStale(s, n)
    decreases n
  {
    if n == 0 {
      assert Released(s, 0) == {};
    } else {
      var x := s.queue[n - 1];
      WakeReleasesAllIff(s, n - 1);
      NoStaleStep(s, n);
      ReleasedStep(s, n);
      assert x in s.phase && s.phase[x].Parked? ==> (x in Released(s, n - 1) <==> x in s.queue[..n - 1]);
      hide NoStale, Released;
    }
  }

  // ---------- runs without stray wake-ups ----------

  lemma {:induction false} WithoutFacts(queue: seq<nat>, t: nat)
    requires t in queue && forall i, j | 0 <= i < j < |queue| :: queue[i] != queue[j]
    ensures var q := Without(queue, t);
            && (forall x :: x in q <==> x in queue && x != t)
            && (forall i, j | 0 <= i < j < |q| :: q[i] != q[j])
  {
    if queue[0] != t {
      WithoutFacts(queue[1..], t);
      var q := Without(queue[1..], t);
      assert forall x :: x in queue <==> x == queue[0] || x in queue[1..];
      assert forall x :: x in [queue[0]] + q <==> x == queue[0] || x in q;
      assert queue[0] !in q;
    }
  }

  ghost predicate Clean(s: System) {
    NoStale(s, |s.queue|)
  }

  lemma CleanUntouched(s: System, t: nat, p: Phase, s': System)
    requires Clean(s) && t in s.phase && !s.phase[t].Parked? && s'.queue == s.queue && s'.phase == s.phase[t := p]
    ensures Clean(s')
  {
  }

  lemma CleanAfterEnqueue(s: System, t: nat, val: int, seen: nat, s': System)
    requires Clean(s) && t in s.phase && !s.phase[t].Parked?
    requires s'.queue == s.queue + [t] && s'.phase == s.phase[t := Parked(val, seen)]
    ensures Clean(s')
  {
  }

  lemma CleanAfterWake(s: System, n: nat, s': System)
    requires Clean(s) && n <= |s.queue| && s'.queue == s.queue[n..] && s'.phase == Notify(s.phase, s.queue[..n])
    ensures Clean(s')
  {
    forall i | 0 <= i < |s'.queue| ensures s'.queue[i] in s'.phase && s'.phase[s'.queue[i]].Parked? {
      assert s'.queue[i] == s.queue[n + i];
      assert forall j | 0 <= j < n :: s.queue[j] != s.queue[n + i];
      assert s'.queue[i] !in s.queue[..n];
    }
  }

  lemma CleanAfterAbort(s: System, t: nat, s': System)
    requires Clean(s) && t in s.phase && t in s.queue
    requires s'.queue == Without(s.queue, t) && s'.phase == s.phase[t := Idle]
    ensures Clean(s')
  {
    WithoutFacts(s.queue, t);
    forall i | 0 <= i < |s'.queue| ensures s'.queue[i] in s'.phase && s'.phase[s'.queue[i]].Parked? {
      assert s'.queue[i] in s'.queue;
    }
  }

  /** As long as nobody is woken from elsewhere, a wake of n releases n tasks. */
  lemma CleanKept(s: System, a: Action)
    requires QueueOk(s) && Clean(s) && Enabled(s, a) && !a.StrayWake?
    ensures Clean(Step(s, a))
  {
    assert a.Abort? ==> a.t in s.queue;
    hide QueueOk, Clean, Notify, Without;
    var s' := Step(s, a);
    match a
    case WaitLoad(t, val) => if s.Word() == val { CleanUntouched(s, t, Loaded(val), s'); } else { assert s' == s; }
    case WaitLock(t) => CleanUntouched(s, t, Locked(s.phase[t].val), s');
    case WaitReload(t) => CleanUntouched(s, t, s'.phase[t], s');
    case WaitEnqueue(t) => CleanAfterEnqueue(s, t, s.phase[t].val, s.phase[t].seen, s');
    case Return(t) => CleanUntouched(s, t, Idle, s');
    case Store(t, _) => CleanUntouched(s, t, Stored(|s.history|), s');
    case PlainStore(t, _) => assert s'.phase == s.phase[t := Idle]; CleanUntouched(s, t, Idle, s');
    case WakeLock(t) => CleanUntouched(s, t, Waking(s.phase[t].k), s');
    case WakeAll(t) => NothingQueued(s');
    case WakeSome(t, n) => CleanAfterWake(s, n, s');
    case Abort(t) => CleanAfterAbort(s, t, s');
  }

  lemma NothingQueued(s: System)
    requires s.queue == []
    ensures Clean(s)
  {
  }

  lemma {:induction false} CleanRuns(s: System, actions: seq<Action>, t: System, n: nat)
    requires Inv(s) && Clean(s) && Reaches(s, actions, t) && n <= |t.queue|
    requires forall i | 0 <= i < |actions| :: !actions[i].StrayWake?
    ensures Clean(t) && |Released(t, n)| == n
    decreases |actions|
  {
    if actions == [] {
      WakeReleasesAllIff(t, n);
    } else {
      StepKeepsInv(s, actions[0]);
      CleanKept(s, actions[0]);
      hide Inv, Clean, Step, Released;
      CleanRuns(Step(s, actions[0]), actions[1..], t, n);
    }
  }

  // ---------- what a stray wake-up costs ----------

  lemma {:induction false} RunsCompose(s: System, a: seq<Action>, t: System, b: seq<Action>, u: System)
    requires Reaches(s, a, t) && Reaches(t, b, u)
    ensures Reaches(s, a + b, u)
    decreases |a|
  {
    hide Step, Enabled;
    if a == [] {
      assert a + b == b;
    } else {
      RunsCompose(Step(s, a[0]), a[1..], t, b, u);
      assert (a + b)[1..] == a[1..] + b;
    }
  }

  function WaitSteps(t: nat, val: int): seq<Action> {
    [WaitLoad(t, val), WaitLock(t), WaitReload(t), WaitEnqueue(t)]
  }

  /** An undisturbed wait parks the task behind those queued. */
  lemma WaitParks(s: System, t: nat)
    requires s.history != [] && t in s.phase && s.phase[t] == Idle && s.lock == None
    ensures Reaches(s, WaitSteps(t, s.Word()),
                    s.(queue := s.queue + [t], phase := s.phase[t := Parked(s.Word(), |s.history| - 1)]))
  {
    var val, acts := s.Word(), WaitSteps(t, s.Word());
    var s1 := s.(phase := s.phase[t := Loaded(val)]);
    var s2 := s.(lock := Some(t), phase := s.phase[t := Locked(val)]);
    var s3 := s.(lock := Some(t), phase := s.phase[t := Checked(val, |s.history| - 1)]);
    var s4 := s.(queue := s.queue + [t], phase := s.phase[t := Parked(val, |s.history| - 1)]);
    assert Step(s, acts[0]) == s1 && Step(s1, acts[1]) == s2 && Step(s2, acts[2]) == s3 && Step(s3, acts[3]) == s4;
    hide Step;
    assert acts[1..] == [acts[1], acts[2], acts[3]] && acts[1..][1..] == [acts[2], acts[3]];
    assert [acts[2], acts[3]][1..] == [acts[3]] && [acts[3]][1..] == [];
    assert Reaches(s4, [], s4) && Reaches(s3, [acts[3]], s4) && Reaches(s2, [acts[2], acts[3]], s4);
    assert Reaches(s1, acts[1..], s4);
  }

  /** One waiter woken from elsewhere, another queued behind it: a wake of one takes the stale
      entry and releases nobody. */
  lemma StrayWakeCostsAWake() returns (acts: seq<Action>, s: System)
    ensures Reaches(Initial(0, {1, 2}), acts, s)
    ensures s.queue == [1, 2] && 2 in s.phase && s.phase[2].Parked? && Released(s, 1) == {}
  {
    hide Reaches, WaitSteps, Enabled;
    var s0 := Initial(0, {1, 2});
    WaitParks(s0, 1);
    var s1 := s0.(queue := s0.queue + [1], phase := s0.phase[1 := Parked(0, 0)]);
    WaitParks(s1, 2);
    var s2 := s1.(queue := s1.queue + [2], phase := s1.phase[2 := Parked(0, 0)]);
    StraySteps(s2, 1);
    s := s2.(phase := s2.phase[1 := Notified]);
    RunsCompose(s0, WaitSteps(1, 0), s1, WaitSteps(2, 0), s2);
    RunsCompose(s0, WaitSteps(1, 0) + WaitSteps(2, 0), s2, [StrayWake(1)], s);
    acts := WaitSteps(1, 0) + WaitSteps(2, 0) + [StrayWake(1)];
    assert s.queue == [1, 2] && s.queue[..1] == [1];
  }

  lemma StraySteps(s: System, t: nat)
    requires s.history != [] && t in s.phase && s.phase[t].Parked?
    ensures Reaches(s, [StrayWake(t)], s.(phase := s.phase[t := Notified]))
  {
    assert [StrayWake(t)][1..] == [];
    assert Reaches(s.(phase := s.phase[t := Notified]), [], s.(phase := s.phase[t := Notified]));
  }
}
