/** Processes and threads: fork, exit with reparenting to init, group exit, and wait with
    reaping, each call as one atomic step over the set of all tasks. */
module Lifecycle {
  import opened IntSets
  import opened Wrappers

  const INIT: nat := 1

  /** A thread. `pid` is the tid of its group's leader. */
  datatype Task = Task(pid: nat, zombie: bool, exitCode: nat)

  datatype ThreadGroup = ThreadGroup(members: set<nat>, alive: nat, exiting: bool, exitCode: nat)

  /** What the threads of one process share: the group, the children map and the link to the
      parent task. `birth` orders processes by creation. */
  datatype Process = Process(group: ThreadGroup, children: set<nat>, parent: Option<nat>, birth: nat)

  datatype Event = Forked(pid: nat) | Reaped(pid: nat)

  /** The task manager's tasks and the processes that have not been reaped, with the history
      of process creations and reapings. */
  datatype System = System(tasks: map<nat, Task>, procs: map<nat, Process>, log: seq<Event>)

  // ---------- the steps ----------

  predicate Running(s: System, t: nat) {
    t in s.tasks && !s.tasks[t].zombie && s.tasks[t].pid in s.procs
  }

  /** `tid` is what the allocator hands out: an id no task holds; ids of reaped tasks recur. */
  predicate Fresh(s: System, tid: nat) {
    tid !in s.tasks && tid !in s.procs
  }

  function ForkThread(s: System, self: nat, tid: nat): System
    requires Running(s, self) && Fresh(s, tid)
  {
    var p := s.tasks[self].pid;
    var g := s.procs[p].group;
    s.(tasks := s.tasks[tid := Task(p, false, 0)],
       procs := s.procs[p := s.procs[p].(group := g.(members := g.members + {tid}, alive := g.alive + 1))])
  }

  function ForkProcess(s: System, self: nat, tid: nat): System
    requires Running(s, self) && Fresh(s, tid)
  {
    var p := s.tasks[self].pid;
    var child := Process(ThreadGroup({tid}, 1, false, 0), {}, Some(self), |s.log|);
    s.(tasks := s.tasks[tid := Task(tid, false, 0)],
       procs := s.procs[p := s.procs[p].(children := s.procs[p].children + {tid})][tid := child],
       log := s.log + [Forked(tid)])
  }

  /** All given processes become children of the init task. */
  function Reparent(procs: map<nat, Process>, orphans: set<nat>): map<nat, Process> {
    map p | p in procs :: if p in orphans then procs[p].(parent := Some(INIT)) else procs[p]
  }

  /** The last thread of a process gives its children to init. */
  function Release(procs: map<nat, Process>, p: nat): map<nat, Process>
    requires p in procs && INIT in procs && p != INIT
  {
    var orphans := procs[p].children;
    var q := Reparent(procs, orphans);
    q[INIT := q[INIT].(children := q[INIT].children + orphans)][p := q[p].(children := {})]
  }

  /** The exit bookkeeping of one thread in its group. */
  function Leave(g: ThreadGroup, code: nat): ThreadGroup
    requires g.alive > 0
  {
    var alive := g.alive - 1;
    if alive == 0 && !g.exiting then g.(alive := alive, exiting := true, exitCode := code)
    else g.(alive := alive)
  }

  /** What an exit needs so that it does not panic: the caller is not the init task, and its
      group's counter covers it. */
  predicate CanExit(s: System, self: nat) {
    Running(s, self) && self != INIT && INIT in s.procs &&
    var g := s.procs[s.tasks[self].pid].group;
    g.alive > 0 && (s.tasks[self].pid == INIT ==> g.alive > 1)
  }

  function Exit(s: System, self: nat, code: nat): System
    requires CanExit(s, self)
  {
    var p := s.tasks[self].pid;
    var g := Leave(s.procs[p].group, code);
    var procs := s.procs[p := s.procs[p].(group := g)];
    s.(tasks := s.tasks[self := Task(p, true, code)],
       procs := if g.alive == 0 then Release(procs, p) else procs)
  }

  /** A group exit fixes the code for the whole group; the first one decides. */
  function GroupExit(s: System, self: nat, code: nat): System
    requires CanExit(s, self)
  {
    var p := s.tasks[self].pid;
    var g := s.procs[p].group;
    if g.exiting then Exit(s, self, g.exitCode)
    else Exit(Announce(s, p, code), self, code)
  }

  function Announce(s: System, p: nat, code: nat): System
    requires p in s.procs
  {
    s.(procs := s.procs[p := s.procs[p].(group := s.procs[p].group.(exiting := true, exitCode := code))])
  }

  /** `NotYet` is no dead child so far, `Interrupted` a wake-up by another signal than SIGCHLD,
      `Suspended` a caller that is still asleep. */
  datatype WaitOutcome =
    | Success(pid: nat, code: nat)
    | NoChild
    | InvalidArgument
    | NotYet
    | Interrupted
    | Suspended

  predicate Reapable(s: System, c: nat) {
    c in s.procs && c in s.tasks && s.tasks[c].zombie && s.procs[c].group.alive == 0
  }

  /** Which child a wait picks: for -1 the lowest reapable pid, for a positive argument that
      child; the first attempt also fails when there are no children at all. */
  function Choose(s: System, children: set<nat>, want: int, retry: bool): (r: Result<nat, WaitOutcome>)
    ensures r.Ok? ==> r.value in children && Reapable(s, r.value)
    ensures r.Err? ==> r.error in {NoChild, InvalidArgument, NotYet}
  {
    if !retry && children == {} then Err(NoChild)
    else if want == -1 then
      var ready := set c | c in children && Reapable(s, c);
      if ready == {} then Err(NotYet) else HasMin(ready); var c :| c in ready && forall d | d in ready :: c <= d; Ok(c)
    else if want > 0 then
      if want !in children then Err(NoChild)
      else if Reapable(s, want) then Ok(want)
      else Err(NotYet)
    else Err(InvalidArgument)
  }

  /** The child's threads leave the task manager, its group is cleared, it leaves the
      caller's children. */
  function Reap(s: System, p: nat, c: nat): System
    requires p in s.procs && c in s.procs
  {
    System(s.tasks - s.procs[c].group.members,
           s.procs[p := s.procs[p].(children := s.procs[p].children - {c})] - {c},
           s.log + [Reaped(c)])
  }

  /** `codeFits` says whether the caller's exit-code pointer, if any, can be written. */
  function Wait(s: System, self: nat, want: int, retry: bool, codeFits: bool): (System, WaitOutcome)
    requires Running(s, self)
  {
    var p := s.tasks[self].pid;
    match Choose(s, s.procs[p].children, want, retry)
    case Err(e) => (s, e)
    case Ok(c) =>
      if !codeFits then (s, InvalidArgument)
      else (Reap(s, p, c), Success(c, s.tasks[c].exitCode))
  }

  // ---------- the invariant ----------

  /** Every task belongs to an unreaped process whose group lists exactly its tasks, the
      leader among them. */
  ghost predicate GroupsOk(s: System) {
    && (forall t | t in s.tasks :: s.tasks[t].pid in s.procs)
    && (forall p | p in s.procs :: p in s.tasks && s.tasks[p].pid == p)
    && (forall p, t | p in s.procs :: t in s.procs[p].group.members <==> t in s.tasks && s.tasks[t].pid == p)
  }

  ghost function Live(s: System, p: nat): set<nat> {
    set t | t in s.tasks && s.tasks[t].pid == p && !s.tasks[t].zombie
  }

  ghost predicate AliveOk(s: System) {
    forall p | p in s.procs :: s.procs[p].group.alive == |Live(s, p)|
  }

  ghost predicate InitOk(s: System) {
    && INIT in s.tasks && !s.tasks[INIT].zombie && s.tasks[INIT].pid == INIT
    && INIT in s.procs && s.procs[INIT].parent == None
  }

  /** `q` holds `c` in its children map, has a live thread, is older, and `c`'s parent link
      names one of its tasks. */
  ghost predicate Owns(s: System, q: nat, c: nat) {
    && q in s.procs && c in s.procs && c in s.procs[q].children
    && s.procs[q].group.alive > 0
    && s.procs[q].birth < s.procs[c].birth
    && s.procs[c].parent.Some?
    && s.procs[c].parent.value in s.tasks && s.tasks[s.procs[c].parent.value].pid == q
  }

  ghost predicate FamilyOk(s: System) {
    && (forall q, c | q in s.procs && c in s.procs[q].children :: c != INIT && Owns(s, q, c))
    && (forall c | c in s.procs && c != INIT :: exists q :: Owns(s, q, c))
  }

  /** Creations and reapings balance: one more creation than reapings exactly while the
      process exists. */
  ghost predicate LogOk(s: System) {
    && (forall p :: multiset(s.log)[Forked(p)] == multiset(s.log)[Reaped(p)] + if p in s.procs then 1 else 0)
    && (forall p | p in s.procs :: s.procs[p].birth < |s.log|)
  }

  /** A group without a live thread has its exit code fixed. */
  ghost predicate DeadOk(s: System) {
    forall p | p in s.procs && s.procs[p].group.alive == 0 :: s.procs[p].group.exiting
  }

  ghost predicate Inv(s: System) {
    GroupsOk(s) && AliveOk(s) && InitOk(s) && FamilyOk(s) && LogOk(s) && DeadOk(s)
  }

  const START := System(map[INIT := Task(INIT, false, 0)],
                        map[INIT := Process(ThreadGroup({INIT}, 1, false, 0), {}, None, 0)],
                        [Forked(INIT)])

  lemma StartInv()
    ensures Inv(START)
  {
    assert Live(START, INIT) == {INIT};
  }

  lemma RunningIsCounted(s: System, t: nat)
    requires AliveOk(s) && Running(s, t)
    ensures s.procs[s.tasks[t].pid].group.alive > 0
  {
    assert t in Live(s, s.tasks[t].pid);
  }

  /** The counter a running thread decrements is never zero, and init's never becomes zero:
      the panics of the exit path are out of reach. */
  lemma RunningCanExit(s: System, t: nat)
    requires Inv(s) && Running(s, t) && t != INIT
    ensures CanExit(s, t)
  {
    var p := s.tasks[t].pid;
    assert t in Live(s, p);
    if p == INIT {
      assert {t, INIT} <= Live(s, p);
      SubsetSize({t, INIT}, Live(s, p));
    }
  }

  lemma SubsetSize(a: set<nat>, b: set<nat>)
    requires a <= b
    ensures |a| <= |b|
  {
    assert b == a + (b - a);
  }

  // ---------- fork ----------

  lemma ForkThreadGroups(s: System, self: nat, tid: nat)
    requires GroupsOk(s) && Running(s, self) && Fresh(s, tid)
    ensures GroupsOk(ForkThread(s, self, tid))
  {
  }

  lemma ForkThreadAlive(s: System, self: nat, tid: nat)
    requires AliveOk(s) && Running(s, self) && Fresh(s, tid)
    ensures AliveOk(ForkThread(s, self, tid))
  {
    var s', p := ForkThread(s, self, tid), s.tasks[self].pid;
    forall q | q in s'.procs ensures s'.procs[q].group.alive == |Live(s', q)| {
      assert Live(s', q) == if q == p then Live(s, q) + {tid} else Live(s, q);
    }
  }

  lemma ForkThreadFamily(s: System, self: nat, tid: nat)
    requires FamilyOk(s) && Running(s, self) && Fresh(s, tid)
    ensures FamilyOk(ForkThread(s, self, tid))
  {
    var s' := ForkThread(s, self, tid);
    forall q, c | Owns(s, q, c) ensures Owns(s', q, c) {
    }
    forall c | c in s'.procs && c != INIT ensures exists q :: Owns(s', q, c) {
      var q :| Owns(s, q, c);
      assert Owns(s', q, c);
    }
  }

  lemma ForkDead(s: System, self: nat, tid: nat)
    requires DeadOk(s) && Running(s, self) && Fresh(s, tid)
    ensures DeadOk(ForkThread(s, self, tid)) && DeadOk(ForkProcess(s, self, tid))
  {
  }

  lemma ForkThreadKeepsInv(s: System, self: nat, tid: nat)
    requires Inv(s) && Running(s, self) && Fresh(s, tid)
    ensures Inv(ForkThread(s, self, tid))
  {
    hide GroupsOk, AliveOk, FamilyOk;
    ForkDead(s, self, tid);
    ForkThreadGroups(s, self, tid);
    ForkThreadAlive(s, self, tid);
    ForkThreadFamily(s, self, tid);
    var s' := ForkThread(s, self, tid);
    assert s'.procs.Keys == s.procs.Keys && s'.log == s.log;
    assert forall p | p in s.procs :: s'.procs[p].birth == s.procs[p].birth;
  }

  lemma ForkProcessGroups(s: System, self: nat, tid: nat)
    requires GroupsOk(s) && Running(s, self) && Fresh(s, tid)
    ensures GroupsOk(ForkProcess(s, self, tid))
  {
  }

  lemma ForkProcessLive(s: System, self: nat, tid: nat, q: nat)
    requires GroupsOk(s) && Running(s, self) && Fresh(s, tid)
    ensures Live(ForkProcess(s, self, tid), q) == if q == tid then {tid} else Live(s, q)
  {
    var s' := ForkProcess(s, self, tid);
    assert s'.tasks == s.tasks[tid := Task(tid, false, 0)];
    hide ForkProcess;
    assert forall t | t in s.tasks :: s.tasks[t].pid != tid;
  }

  lemma ForkProcessAlive(s: System, self: nat, tid: nat)
    requires AliveOk(s) && GroupsOk(s) && Running(s, self) && Fresh(s, tid)
    ensures AliveOk(ForkProcess(s, self, tid))
  {
    var s' := ForkProcess(s, self, tid);
    assert s'.procs[tid].group.alive == 1;
    assert forall q | q in s'.procs && q != tid :: q in s.procs && s'.procs[q].group == s.procs[q].group;
    hide ForkProcess, GroupsOk, Live;
    forall q | q in s'.procs ensures s'.procs[q].group.alive == |Live(s', q)| {
      ForkProcessLive(s, self, tid, q);
    }
  }

  lemma ForkKeepsOwner(s: System, self: nat, tid: nat, q: nat, c: nat)
    requires Running(s, self) && Fresh(s, tid) && Owns(s, q, c)
    ensures Owns(ForkProcess(s, self, tid), q, c)
  {
  }

  lemma ForkOwnsChild(s: System, self: nat, tid: nat)
    requires LogOk(s) && Running(s, self) && Fresh(s, tid)
    requires s.procs[s.tasks[self].pid].group.alive > 0
    ensures Owns(ForkProcess(s, self, tid), s.tasks[self].pid, tid)
  {
  }

  lemma ForkChildren(s: System, self: nat, tid: nat)
    requires Running(s, self) && Fresh(s, tid)
    ensures var s', p := ForkProcess(s, self, tid), s.tasks[self].pid;
            && s'.procs.Keys == s.procs.Keys + {tid}
            && forall q | q in s'.procs :: s'.procs[q].children ==
                 if q == tid then {} else if q == p then s.procs[p].children + {tid} else s.procs[q].children
  {
  }

  lemma ForkProcessFamily(s: System, self: nat, tid: nat)
    requires FamilyOk(s) && LogOk(s) && Running(s, self) && Fresh(s, tid) && INIT in s.procs
    requires s.procs[s.tasks[self].pid].group.alive > 0
    ensures FamilyOk(ForkProcess(s, self, tid))
  {
    hide ForkProcess, LogOk, Owns;
    var s' := ForkProcess(s, self, tid);
    ForkChildren(s, self, tid);
    ForkOwnsChild(s, self, tid);
    forall q, c | q in s'.procs && c in s'.procs[q].children ensures c != INIT && Owns(s', q, c) {
      if q in s.procs && c in s.procs[q].children {
        ForkKeepsOwner(s, self, tid, q, c);
      }
    }
    forall c | c in s'.procs && c != INIT ensures exists q :: Owns(s', q, c) {
      if c != tid {
        var q :| Owns(s, q, c);
        ForkKeepsOwner(s, self, tid, q, c);
      }
    }
  }

  lemma ForkProcessLog(s: System, self: nat, tid: nat)
    requires LogOk(s) && Running(s, self) && Fresh(s, tid)
    ensures LogOk(ForkProcess(s, self, tid))
  {
    var s' := ForkProcess(s, self, tid);
    assert multiset(s'.log) == multiset(s.log) + multiset{Forked(tid)};
  }

  lemma ForkProcessKeepsInv(s: System, self: nat, tid: nat)
    requires Inv(s) && Running(s, self) && Fresh(s, tid)
    ensures Inv(ForkProcess(s, self, tid))
  {
    hide GroupsOk, AliveOk, FamilyOk, LogOk, DeadOk;
    ForkDead(s, self, tid);
    RunningIsCounted(s, self);
    ForkProcessGroups(s, self, tid);
    ForkProcessAlive(s, self, tid);
    ForkProcessFamily(s, self, tid);
    ForkProcessLog(s, self, tid);
  }

  /** No other task and no parenthood changes. */
  ghost predicate KeepsOthers(s: System, s': System) {
    && (forall t | t in s.tasks :: t in s'.tasks && s'.tasks[t] == s.tasks[t])
    && (forall q, c | Owns(s, q, c) :: Owns(s', q, c))
  }

  lemma BirthIsLogged(s: System, p: nat)
    requires LogOk(s) && p in s.procs
    ensures s.procs[p].birth < |s.log|
  {
  }

  /** A forked process is a running child of the caller's process without children of its own;
      other tasks and every parenthood stay. */
  lemma ForkedProcessBelongs(s: System, self: nat, tid: nat)
    requires Inv(s) && Running(s, self) && Fresh(s, tid)
    ensures var s' := ForkProcess(s, self, tid);
            Running(s', tid) && Owns(s', s.tasks[self].pid, tid) && s'.procs[tid].children == {} && KeepsOthers(s, s')
  {
    hide GroupsOk, AliveOk, FamilyOk, LogOk, DeadOk, InitOk;
    RunningIsCounted(s, self);
    BirthIsLogged(s, s.tasks[self].pid);
  }

  /** A cloned thread is a running member of the caller's group; other tasks and every
      parenthood stay. */
  lemma ClonedThreadBelongs(s: System, self: nat, tid: nat)
    requires Inv(s) && Running(s, self) && Fresh(s, tid)
    ensures var s' := ForkThread(s, self, tid);
            Running(s', tid) && s'.tasks[tid].pid == s.tasks[self].pid && s'.procs.Keys == s.procs.Keys && KeepsOthers(s, s')
  {
    hide GroupsOk, AliveOk, FamilyOk, LogOk, DeadOk, InitOk;
  }

  // ---------- exit ----------

  lemma ReleaseFacts(procs: map<nat, Process>, p: nat)
    requires p in procs && INIT in procs && p != INIT
    ensures var q := Release(procs, p);
            && q.Keys == procs.Keys
            && (forall r | r in procs :: q[r].group == procs[r].group && q[r].birth == procs[r].birth)
            && (forall r | r in procs :: q[r].parent == if r in procs[p].children then Some(INIT) else procs[r].parent)
            && (forall r | r in procs :: q[r].children ==
                  if r == p then {} else if r == INIT then procs[INIT].children + procs[p].children else procs[r].children)
  {
  }

  /** What an exit does to each process. */
  lemma ExitFacts(s: System, self: nat, code: nat)
    requires CanExit(s, self)
    ensures var s', p := Exit(s, self, code), s.tasks[self].pid;
            var last := s.procs[p].group.alive == 1;
            && s'.tasks == s.tasks[self := Task(p, true, code)] && s'.log == s.log
            && s'.procs.Keys == s.procs.Keys && (last ==> p != INIT)
            && (forall r | r in s.procs ::
                  && s'.procs[r].birth == s.procs[r].birth
                  && s'.procs[r].group.members == s.procs[r].group.members
                  && s'.procs[r].group.alive == (if r == p then s.procs[r].group.alive - 1 else s.procs[r].group.alive)
                  && s'.procs[r].parent == (if last && r in s.procs[p].children then Some(INIT) else s.procs[r].parent)
                  && s'.procs[r].children == (if !last then s.procs[r].children
                                              else if r == p then {}
                                              else if r == INIT then s.procs[INIT].children + s.procs[p].children
                                              else s.procs[r].children))
  {
    var p := s.tasks[self].pid;
    var procs := s.procs[p := s.procs[p].(group := Leave(s.procs[p].group, code))];
    if s.procs[p].group.alive == 1 {
      ReleaseFacts(procs, p);
    }
  }

  lemma ExitMembers(s: System, self: nat, code: nat)
    requires CanExit(s, self)
    ensures var s' := Exit(s, self, code);
            && s'.tasks == s.tasks[self := Task(s.tasks[self].pid, true, code)] && s'.procs.Keys == s.procs.Keys
            && forall r | r in s.procs :: s'.procs[r].group.members == s.procs[r].group.members
  {
    hide Exit;
    ExitFacts(s, self, code);
  }

  lemma ExitGroups(s: System, self: nat, code: nat)
    requires GroupsOk(s) && CanExit(s, self)
    ensures GroupsOk(Exit(s, self, code))
  {
    hide Exit;
    ExitMembers(s, self, code);
  }

  lemma ExitAlive(s: System, self: nat, code: nat)
    requires AliveOk(s) && CanExit(s, self)
    ensures AliveOk(Exit(s, self, code))
  {
    hide Exit;
    ExitFacts(s, self, code);
    var s', p := Exit(s, self, code), s.tasks[self].pid;
    assert self in Live(s, p);
    forall q | q in s'.procs ensures s'.procs[q].group.alive == |Live(s', q)| {
      assert Live(s', q) == if q == p then Live(s, q) - {self} else Live(s, q);
    }
  }

  /** Each child still has one owner with a live thread: the old one, or init when the old
      one has just lost its last thread. */
  lemma ExitOwner(s: System, self: nat, code: nat, q: nat, c: nat)
    requires FamilyOk(s) && InitOk(s) && CanExit(s, self) && s.procs[INIT].group.alive > 0 && Owns(s, q, c)
    ensures var last := s.procs[s.tasks[self].pid].group.alive == 1;
            Owns(Exit(s, self, code), if last && q == s.tasks[self].pid then INIT else q, c)
  {
    hide Exit, FamilyOk;
    ExitFacts(s, self, code);
    var p := s.tasks[self].pid;
    if c in s.procs[p].children {
      OneOwner(s, q, p, c);
    }
    if s.procs[p].group.alive == 1 && q == p {
      InitIsOldest(s, q);
    }
  }

  lemma OneOwner(s: System, q: nat, r: nat, c: nat)
    requires FamilyOk(s) && Owns(s, q, c) && r in s.procs && c in s.procs[r].children
    ensures r == q
  {
    assert Owns(s, r, c);
  }

  lemma InitIsOldest(s: System, p: nat)
    requires FamilyOk(s) && InitOk(s) && p in s.procs
    ensures s.procs[INIT].birth <= s.procs[p].birth
    decreases s.procs[p].birth
  {
    if p != INIT {
      var q :| Owns(s, q, p);
      InitIsOldest(s, q);
    }
  }

  lemma ExitFamily(s: System, self: nat, code: nat)
    requires FamilyOk(s) && InitOk(s) && AliveOk(s) && CanExit(s, self)
    ensures FamilyOk(Exit(s, self, code))
  {
    hide Exit, AliveOk;
    RunningIsCounted(s, INIT);
    ExitFacts(s, self, code);
    var s', p := Exit(s, self, code), s.tasks[self].pid;
    forall q, c | q in s'.procs && c in s'.procs[q].children ensures c != INIT && Owns(s', q, c) {
      var r := if c in s.procs[q].children then q else p;
      assert c in s.procs[r].children && Owns(s, r, c);
      ExitOwner(s, self, code, r, c);
    }
    forall c | c in s'.procs && c != INIT ensures exists q :: Owns(s', q, c) {
      var q :| Owns(s, q, c);
      ExitOwner(s, self, code, q, c);
    }
  }

  lemma ExitInitLog(s: System, self: nat, code: nat)
    requires InitOk(s) && LogOk(s) && CanExit(s, self) && INIT !in s.procs[s.tasks[self].pid].children
    ensures InitOk(Exit(s, self, code)) && LogOk(Exit(s, self, code))
  {
    hide Exit;
    ExitFacts(s, self, code);
  }

  /** What an exit does to each group. */
  lemma ExitGroupOf(s: System, self: nat, code: nat)
    requires CanExit(s, self)
    ensures var s', p := Exit(s, self, code), s.tasks[self].pid;
            && s'.procs.Keys == s.procs.Keys
            && s'.procs[p].group == Leave(s.procs[p].group, code)
            && forall r | r in s.procs && r != p :: s'.procs[r].group == s.procs[r].group
  {
    var p := s.tasks[self].pid;
    var procs := s.procs[p := s.procs[p].(group := Leave(s.procs[p].group, code))];
    if s.procs[p].group.alive == 1 {
      ReleaseFacts(procs, p);
    }
  }

  lemma ExitDead(s: System, self: nat, code: nat)
    requires DeadOk(s) && CanExit(s, self)
    ensures DeadOk(Exit(s, self, code))
  {
    hide Exit;
    ExitGroupOf(s, self, code);
  }

  lemma ChildrenExist(s: System, p: nat)
    requires FamilyOk(s) && p in s.procs
    ensures s.procs[p].children <= s.procs.Keys
  {
  }

  lemma InitIsNobodysChild(s: System, p: nat)
    requires FamilyOk(s) && p in s.procs
    ensures INIT !in s.procs[p].children
  {
  }

  lemma ExitKeepsInv(s: System, self: nat, code: nat)
    requires Inv(s) && Running(s, self) && self != INIT
    ensures CanExit(s, self) && Inv(Exit(s, self, code))
  {
    RunningCanExit(s, self);
    hide Exit, GroupsOk, AliveOk, FamilyOk, LogOk, InitOk, DeadOk;
    ExitDead(s, self, code);
    InitIsNobodysChild(s, s.tasks[self].pid);
    ExitInitLog(s, self, code);
    ExitGroups(s, self, code);
    ExitAlive(s, self, code);
    ExitFamily(s, self, code);
  }

  lemma AnnounceAlive(s: System, p: nat, code: nat)
    requires AliveOk(s) && p in s.procs
    ensures AliveOk(Announce(s, p, code))
  {
    forall q ensures Live(Announce(s, p, code), q) == Live(s, q) {
    }
  }

  lemma AnnounceFamily(s: System, p: nat, code: nat)
    requires FamilyOk(s) && p in s.procs
    ensures FamilyOk(Announce(s, p, code))
  {
    var s' := Announce(s, p, code);
    forall q, c | Owns(s, q, c) ensures Owns(s', q, c) {
    }
    forall c | c in s'.procs && c != INIT ensures exists q :: Owns(s', q, c) {
      var q :| Owns(s, q, c);
      assert Owns(s', q, c);
    }
  }

  lemma AnnounceRest(s: System, p: nat, code: nat)
    requires InitOk(s) && LogOk(s) && DeadOk(s) && p in s.procs
    ensures var s' := Announce(s, p, code); InitOk(s') && LogOk(s') && DeadOk(s')
  {
    assert Announce(s, p, code).procs.Keys == s.procs.Keys;
  }

  lemma AnnounceGroups(s: System, p: nat, code: nat)
    requires GroupsOk(s) && p in s.procs
    ensures GroupsOk(Announce(s, p, code))
  {
    var s' := Announce(s, p, code);
    assert s'.tasks == s.tasks && s'.procs.Keys == s.procs.Keys;
    assert forall q | q in s.procs :: s'.procs[q].group.members == s.procs[q].group.members;
    hide Announce;
  }

  lemma AnnounceKeepsInv(s: System, p: nat, code: nat)
    requires Inv(s) && p in s.procs
    ensures Inv(Announce(s, p, code))
  {
    hide GroupsOk, AliveOk, FamilyOk, LogOk, InitOk, DeadOk;
    AnnounceGroups(s, p, code);
    AnnounceAlive(s, p, code);
    AnnounceFamily(s, p, code);
    AnnounceRest(s, p, code);
  }

  lemma GroupExitKeepsInv(s: System, self: nat, code: nat)
    requires Inv(s) && Running(s, self) && self != INIT
    ensures CanExit(s, self) && Inv(GroupExit(s, self, code))
  {
    RunningCanExit(s, self);
    hide Inv, Exit;
    var p := s.tasks[self].pid;
    if s.procs[p].group.exiting {
      ExitKeepsInv(s, self, s.procs[p].group.exitCode);
    } else {
      AnnounceKeepsInv(s, p, code);
      ExitKeepsInv(Announce(s, p, code), self, code);
    }
  }

  // ---------- wait ----------

  /** A process is reaped only when all its threads are zombies. */
  lemma ReapableIsDead(s: System, c: nat)
    requires GroupsOk(s) && AliveOk(s) && Reapable(s, c)
    ensures forall t | t in s.procs[c].group.members :: t in s.tasks && s.tasks[t].zombie
  {
    assert Live(s, c) == {};
    assert forall t | t in s.tasks && s.tasks[t].pid == c && !s.tasks[t].zombie :: t in Live(s, c);
  }

  /** What reaping leaves of tasks and groups. */
  lemma ReapFacts(s: System, p: nat, c: nat)
    requires p in s.procs && c in s.procs && p != c
    ensures var s' := Reap(s, p, c);
            && s'.procs.Keys == s.procs.Keys - {c}
            && (forall q | q in s'.procs :: s'.procs[q].group == s.procs[q].group)
            && (forall t :: t in s'.tasks <==> t in s.tasks && t !in s.procs[c].group.members)
            && (forall t | t in s'.tasks :: s'.tasks[t] == s.tasks[t])
  {
  }

  lemma ReapGroups(s: System, p: nat, c: nat)
    requires GroupsOk(s) && p in s.procs && c in s.procs && p != c
    ensures GroupsOk(Reap(s, p, c))
  {
    var s' := Reap(s, p, c);
    ReapFacts(s, p, c);
    hide Reap;
    assert forall t | t in s.tasks :: t in s.procs[c].group.members <==> s.tasks[t].pid == c;
    forall t | t in s'.tasks ensures s'.tasks[t].pid in s'.procs {
      assert t in s.tasks && s.tasks[t].pid != c;
    }
    forall q | q in s'.procs ensures q in s'.tasks && s'.tasks[q].pid == q {
      assert q in s.tasks && s.tasks[q].pid == q;
    }
    forall q, t | q in s'.procs ensures t in s'.procs[q].group.members <==> t in s'.tasks && s'.tasks[t].pid == q {
      assert t in s.procs[q].group.members <==> t in s.tasks && s.tasks[t].pid == q;
    }
  }

  lemma ReapDead(s: System, p: nat, c: nat)
    requires DeadOk(s) && p in s.procs && c in s.procs && p != c
    ensures DeadOk(Reap(s, p, c))
  {
    ReapFacts(s, p, c);
    hide Reap;
  }

  lemma ReapAlive(s: System, p: nat, c: nat)
    requires GroupsOk(s) && AliveOk(s) && p in s.procs && c in s.procs && p != c
    ensures AliveOk(Reap(s, p, c))
  {
    var s' := Reap(s, p, c);
    forall q | q in s'.procs ensures s'.procs[q].group.alive == |Live(s', q)| {
      assert Live(s', q) == Live(s, q);
    }
  }

  lemma ReapKeepsOwner(s: System, p: nat, c: nat, q: nat, d: nat)
    requires GroupsOk(s) && Owns(s, p, c) && s.procs[c].group.alive == 0 && Owns(s, q, d) && d != c
    ensures Owns(Reap(s, p, c), q, d)
  {
    assert q != c;
  }

  lemma ReapFamily(s: System, p: nat, c: nat)
    requires GroupsOk(s) && FamilyOk(s) && Owns(s, p, c) && s.procs[c].group.alive == 0
    ensures FamilyOk(Reap(s, p, c))
  {
    var s' := Reap(s, p, c);
    forall q, d | q in s'.procs && d in s'.procs[q].children ensures d != INIT && Owns(s', q, d) {
      assert Owns(s, q, d);
      if d == c { OneOwner(s, p, q, c); }
      ReapKeepsOwner(s, p, c, q, d);
    }
    hide GroupsOk, Owns;
    forall d | d in s'.procs && d != INIT ensures exists q :: Owns(s', q, d) {
      var q :| Owns(s, q, d);
      ReapKeepsOwner(s, p, c, q, d);
    }
  }

  lemma ReapLog(s: System, p: nat, c: nat)
    requires LogOk(s) && p in s.procs && c in s.procs && p != c
    ensures LogOk(Reap(s, p, c))
  {
    var s' := Reap(s, p, c);
    assert multiset(s'.log) == multiset(s.log) + multiset{Reaped(c)};
  }

  lemma WaitKeepsInv(s: System, self: nat, want: int, retry: bool, codeFits: bool)
    requires Inv(s) && Running(s, self)
    ensures Inv(Wait(s, self, want, retry, codeFits).0)
  {
    var p := s.tasks[self].pid;
    var choice := Choose(s, s.procs[p].children, want, retry);
    if choice.Ok? && codeFits {
      var c := choice.value;
      hide GroupsOk, AliveOk, LogOk, DeadOk;
      assert Owns(s, p, c);
      ReapKeepsInv(s, p, c);
    }
  }

  lemma ReapKeepsInv(s: System, p: nat, c: nat)
    requires Inv(s) && Owns(s, p, c) && Reapable(s, c) && c != INIT
    ensures Inv(Reap(s, p, c))
  {
    hide GroupsOk, AliveOk, FamilyOk, LogOk, DeadOk;
    ReapDead(s, p, c);
    ReapGroups(s, p, c);
    ReapAlive(s, p, c);
    ReapFamily(s, p, c);
    ReapLog(s, p, c);
    InitNotIn(s, c);
  }

  lemma InitNotIn(s: System, c: nat)
    requires GroupsOk(s) && InitOk(s) && c in s.procs && c != INIT
    ensures INIT !in s.procs[c].group.members
  {
  }

  // ---------- runs ----------

  datatype Action =
    | DoForkThread(self: nat, tid: nat)
    | DoForkProcess(self: nat, tid: nat)
    | DoExit(self: nat, code: nat)
    | DoGroupExit(self: nat, code: nat)
    | DoWait(self: nat, want: int, retry: bool, codeFits: bool)

  predicate Enabled(s: System, a: Action) {
    match a
    case DoForkThread(self, tid) => Running(s, self) && Fresh(s, tid)
    case DoForkProcess(self, tid) => Running(s, self) && Fresh(s, tid)
    case DoExit(self, _) => Running(s, self) && self != INIT
    case DoGroupExit(self, _) => Running(s, self) && self != INIT
    case DoWait(self, _, _, _) => Running(s, self)
  }

  function Next(s: System, a: Action): (s': System)
    requires Inv(s) && Enabled(s, a)
    ensures Inv(s')
  {
    hide Inv, ForkThread, ForkProcess, Exit, GroupExit, Wait, CanExit;
    match a
    case DoForkThread(self, tid) => ForkThreadKeepsInv(s, self, tid); ForkThread(s, self, tid)
    case DoForkProcess(self, tid) => ForkProcessKeepsInv(s, self, tid); ForkProcess(s, self, tid)
    case DoExit(self, code) => ExitKeepsInv(s, self, code); Exit(s, self, code)
    case DoGroupExit(self, code) => GroupExitKeepsInv(s, self, code); GroupExit(s, self, code)
    case DoWait(self, want, retry, codeFits) =>
      WaitKeepsInv(s, self, want, retry, codeFits); Wait(s, self, want, retry, codeFits).0
  }

  ghost predicate Reaches(s: System, actions: seq<Action>, t: System)
    requires Inv(s)
    decreases |actions|
  {
    if actions == [] then t == s
    else Enabled(s, actions[0]) && Reaches(Next(s, actions[0]), actions[1..], t)
  }

  /** Whatever is forked, exited and waited for, in any order: counters are exact, the family
      is a tree under live owners, and creations and reapings balance. */
  lemma {:induction false} RunsKeepInv(actions: seq<Action>, t: System, s: System)
    requires Inv(s) && Reaches(s, actions, t)
    ensures Inv(t)
    decreases |actions|
  {
    if actions != [] {
      RunsKeepInv(actions[1..], t, Next(s, actions[0]));
    }
  }

  /** A state some run of calls leads to from the init process alone. */
  ghost predicate Reachable(actions: seq<Action>, t: System) {
    Inv(START) && Reaches(START, actions, t)
  }

  /** In every run: a group counts its live threads; an unreaped process but init is a child of
      exactly one process, which has a live thread and one of whose tasks the parent link
      names; it is reaped as often as created, less one while it exists. */
  lemma EveryRunIsSound(actions: seq<Action>, t: System, p: nat)
    requires Reachable(actions, t)
    ensures Inv(t)
    ensures p in t.procs ==> t.procs[p].group.alive == |Live(t, p)|
    ensures p in t.procs && p != INIT ==>
              exists q :: Owns(t, q, p) && forall r | r in t.procs && p in t.procs[r].children :: r == q
    ensures multiset(t.log)[Forked(p)] == multiset(t.log)[Reaped(p)] + if p in t.procs then 1 else 0
  {
    RunsKeepInv(actions, t, START);
    if p in t.procs && p != INIT {
      ExactlyOneOwner(t, p);
    }
  }

  /** `p` is init or has a chain of at most n owners up to init. */
  ghost predicate Descends(s: System, p: nat, n: nat)
    decreases n
  {
    p == INIT || (n > 0 && exists q :: Owns(s, q, p) && Descends(s, q, n - 1))
  }

  /** Every unreaped process descends from init. */
  lemma {:induction false} AllDescendFromInit(s: System, p: nat, n: nat)
    requires FamilyOk(s) && p in s.procs && s.procs[p].birth <= n
    ensures Descends(s, p, n)
    decreases n
  {
    if p != INIT {
      var q :| Owns(s, q, p);
      AllDescendFromInit(s, q, n - 1);
    }
  }

  /** One and only one process holds a given child. */
  lemma ExactlyOneOwner(s: System, c: nat)
    requires FamilyOk(s) && c in s.procs && c != INIT
    ensures exists q :: Owns(s, q, c) && forall r | r in s.procs && c in s.procs[r].children :: r == q
  {
    var q :| Owns(s, q, c);
    forall r | r in s.procs && c in s.procs[r].children ensures r == q {
      OneOwner(s, q, r, c);
    }
  }

  /** A dead thread's record, and so the code a later wait reports, no longer changes. */
  lemma ZombiesAreFinal(s: System, a: Action, t: nat)
    requires Inv(s) && Enabled(s, a)
    requires t in s.tasks && s.tasks[t].zombie && t in Next(s, a).tasks
    ensures Next(s, a).tasks[t] == s.tasks[t]
  {
    hide Inv;
    match a
    case DoExit(self, code) =>
      RunningCanExit(s, self);
      ExitFacts(s, self, code);
    case DoGroupExit(self, code) =>
      RunningCanExit(s, self);
    case _ =>
  }

  /** The group's code and the announcement survive an exit, whoever's it is. */
  lemma ExitKeepsAnnouncement(s: System, self: nat, code: nat, p: nat)
    requires CanExit(s, self) && p in s.procs && s.procs[p].group.exiting
    ensures p in Exit(s, self, code).procs
    ensures var g := Exit(s, self, code).procs[p].group; g.exiting && g.exitCode == s.procs[p].group.exitCode
  {
    hide Exit;
    ExitGroupOf(s, self, code);
  }

  /** Once a group is exiting, its exit code is fixed until it is reaped. */
  lemma GroupCodeIsFixed(s: System, a: Action, p: nat)
    requires Inv(s) && Enabled(s, a) && p in s.procs && s.procs[p].group.exiting && p in Next(s, a).procs
    ensures var g := Next(s, a).procs[p].group; g.exiting && g.exitCode == s.procs[p].group.exitCode
  {
    hide Inv, Exit;
    match a
    case DoExit(self, code) =>
      RunningCanExit(s, self);
      ExitKeepsAnnouncement(s, self, code, p);
    case DoGroupExit(self, code) =>
      RunningCanExit(s, self);
      var q := s.tasks[self].pid;
      if s.procs[q].group.exiting {
        ExitKeepsAnnouncement(s, self, s.procs[q].group.exitCode, p);
      } else {
        ExitKeepsAnnouncement(Announce(s, q, code), self, code, p);
      }
    case _ =>
  }

  /** The code a wait reports for c, the leader's, is the group's. */
  predicate Agrees(s: System, c: nat) {
    c in s.procs && c in s.tasks && s.tasks[c].exitCode == s.procs[c].group.exitCode
  }

  predicate IsExit(a: Action) {
    a.DoExit? || a.DoGroupExit?
  }

  /** The code with which a thread leaves, and its group as it finds it. */
  function CodeOf(s: System, a: Action): nat
    requires IsExit(a) && Running(s, a.self)
  {
    var g := s.procs[s.tasks[a.self].pid].group;
    if a.DoGroupExit? && g.exiting then g.exitCode else a.code
  }

  function GroupLeft(s: System, a: Action): ThreadGroup
    requires IsExit(a) && Running(s, a.self)
  {
    var g := s.procs[s.tasks[a.self].pid].group;
    if a.DoGroupExit? && !g.exiting then g.(exiting := true, exitCode := a.code) else g
  }

  lemma NextOfExit(s: System, a: Action)
    requires Inv(s) && Enabled(s, a) && IsExit(a)
    ensures CanExit(s, a.self)
    ensures Next(s, a) == if a.DoExit? then Exit(s, a.self, a.code) else GroupExit(s, a.self, a.code)
  {
    RunningCanExit(s, a.self);
    hide Inv, Exit, GroupExit, CanExit;
  }

  lemma AliveLeft(s: System, a: Action)
    requires IsExit(a) && CanExit(s, a.self)
    ensures GroupLeft(s, a).alive > 0
    ensures a.DoGroupExit? && !s.procs[s.tasks[a.self].pid].group.exiting ==>
              CanExit(Announce(s, s.tasks[a.self].pid, a.code), a.self)
  {
  }

  /** What either kind of exit does to records and groups. */
  lemma ExitEffect(s: System, a: Action)
    requires Inv(s) && Enabled(s, a) && IsExit(a)
    ensures GroupLeft(s, a).alive > 0
    ensures var s', p := Next(s, a), s.tasks[a.self].pid;
            && s'.tasks == s.tasks[a.self := Task(p, true, CodeOf(s, a))]
            && s'.procs.Keys == s.procs.Keys
            && s'.procs[p].group == Leave(GroupLeft(s, a), CodeOf(s, a))
            && forall q | q in s.procs && q != p :: s'.procs[q].group == s.procs[q].group
  {
    hide Inv, Next, Exit, CanExit;
    NextOfExit(s, a);
    var p := s.tasks[a.self].pid;
    AliveLeft(s, a);
    if a.DoGroupExit? && !s.procs[p].group.exiting {
      var s0 := Announce(s, p, a.code);
      ExitGroupOf(s0, a.self, a.code);
      ExitMembers(s0, a.self, a.code);
    } else {
      ExitGroupOf(s, a.self, CodeOf(s, a));
      ExitMembers(s, a.self, CodeOf(s, a));
    }
  }

  /** Only exits announce a code. */
  lemma NoExitNoCode(s: System, a: Action, c: nat)
    requires Inv(s) && Enabled(s, a) && !IsExit(a) && c in s.procs && c in Next(s, a).procs
    ensures Next(s, a).procs[c].group.exiting == s.procs[c].group.exiting
  {
    hide Inv, Exit, GroupExit, Choose;
    match a
    case DoForkThread(self, tid) =>
    case DoForkProcess(self, tid) =>
    case DoWait(self, want, retry, codeFits) =>
  }

  /** A leader that leaves by group exit, or as the last thread of an unannounced group, agrees
      with its group; after a plain exit from an announced group it does so exactly when the
      two codes are equal. */
  lemma LeaderExitAgreesIff(s: System, a: Action, c: nat)
    requires Inv(s) && Enabled(s, a) && IsExit(a) && a.self == c && c in s.procs
    ensures var s', g := Next(s, a), s.procs[c].group;
            && c in s'.procs && (s'.procs[c].group.exiting <==> a.DoGroupExit? || g.exiting || g.alive == 1)
            && (s'.procs[c].group.exiting ==>
                  (Agrees(s', c) <==> a.DoGroupExit? || !g.exiting || a.code == g.exitCode))
  {
    hide Inv, Next;
    LeaderIsItsOwn(s, c);
    ExitEffect(s, a);
  }

  lemma LeaderIsItsOwn(s: System, c: nat)
    requires Inv(s) && c in s.procs
    ensures c in s.tasks && s.tasks[c].pid == c
  {
  }

  /** When the leader is gone and the group's code still open, the exit that fixes it agrees
      with the leader exactly when the codes are equal. */
  lemma LaterExitAgreesIff(s: System, a: Action, c: nat)
    requires Inv(s) && Enabled(s, a) && c in s.procs && s.tasks[c].zombie && !s.procs[c].group.exiting
    requires c in Next(s, a).procs && Next(s, a).procs[c].group.exiting
    ensures IsExit(a) && s.tasks[a.self].pid == c
    ensures Agrees(Next(s, a), c) <==> a.code == s.tasks[c].exitCode
  {
    hide Inv, Next;
    LeaderIsItsOwn(s, c);
    if IsExit(a) {
      ExitEffect(s, a);
    } else {
      NoExitNoCode(s, a, c);
    }
  }

  /** Once the leader is gone and the code fixed, agreement does not change any more. */
  lemma AgreementIsFixed(s: System, a: Action, c: nat)
    requires Inv(s) && Enabled(s, a) && c in s.procs && s.tasks[c].zombie && s.procs[c].group.exiting
    requires c in Next(s, a).procs
    ensures Agrees(Next(s, a), c) <==> Agrees(s, c)
  {
    LeaderIsItsOwn(s, c);
    LeaderIsItsOwn(Next(s, a), c);
    hide Inv, Next;
    ZombiesAreFinal(s, a, c);
    GroupCodeIsFixed(s, a, c);
  }

  /** A successful wait reports a group whose code is fixed, by its leader's code. */
  lemma WaitReports(s: System, self: nat, want: int, retry: bool, codeFits: bool)
    requires Inv(s) && Running(s, self)
    ensures match Wait(s, self, want, retry, codeFits).1
            case Success(c, code) =>
              && Reapable(s, c) && c in s.procs[s.tasks[self].pid].children
              && code == s.tasks[c].exitCode && s.procs[c].group.exiting
              && (code == s.procs[c].group.exitCode <==> Agrees(s, c))
            case _ => true
  {
    var choice := Choose(s, s.procs[s.tasks[self].pid].children, want, retry);
    hide GroupsOk, AliveOk, FamilyOk, LogOk, InitOk, Choose;
  }

  lemma {:induction false} RunExtends(s: System, actions: seq<Action>, t: System, a: Action)
    requires Inv(s) && Inv(t) && Reaches(s, actions, t) && Enabled(t, a)
    ensures Reaches(s, actions + [a], Next(t, a))
    decreases |actions|
  {
    hide Inv, Next, Enabled;
    if actions == [] {
      assert [a][1..] == [] && Reaches(Next(t, a), [], Next(t, a));
    } else {
      RunExtends(Next(s, actions[0]), actions[1..], t, a);
      assert (actions + [a])[1..] == actions[1..] + [a];
    }
  }

  // ---------- the code a wait reports, over runs ----------

  /** A run through which process c is never reaped. */
  ghost predicate Stays(s: System, acts: seq<Action>, t: System, c: nat)
    requires Inv(s)
    decreases |acts|
  {
    c in s.procs &&
    if acts == [] then t == s
    else Enabled(s, acts[0]) && Stays(Next(s, acts[0]), acts[1..], t, c)
  }

  /** The code with which the group of c is announced along such a run: the one already fixed,
      or the argument of the exit that fixes it. */
  ghost function Announced(s: System, acts: seq<Action>, c: nat): Option<nat>
    requires Inv(s)
    decreases |acts|
  {
    hide Inv, Next;
    if c in s.procs && s.procs[c].group.exiting then Some(s.procs[c].group.exitCode)
    else if acts == [] || !Enabled(s, acts[0]) then None
    else
      var s1 := Next(s, acts[0]);
      if c in s1.procs && s1.procs[c].group.exiting && IsExit(acts[0]) then Some(acts[0].code)
      else Announced(s1, acts[1..], c)
  }

  /** The exit that fixes a group's code fixes its own argument. */
  lemma FixingExit(s: System, a: Action, c: nat)
    requires Inv(s) && Enabled(s, a) && c in s.procs && !s.procs[c].group.exiting
    requires c in Next(s, a).procs && Next(s, a).procs[c].group.exiting
    ensures IsExit(a) && Next(s, a).procs[c].group.exitCode == a.code
  {
    hide Inv, Next;
    if IsExit(a) {
      ExitEffect(s, a);
    } else {
      NoExitNoCode(s, a, c);
    }
  }

  lemma {:induction false} CodeIsAnnounced(s: System, acts: seq<Action>, t: System, c: nat)
    requires Inv(s) && Stays(s, acts, t, c) && c in t.procs
    ensures t.procs[c].group.exiting ==> Announced(s, acts, c) == Some(t.procs[c].group.exitCode)
    decreases |acts|
  {
    hide Inv, Next, Enabled;
    if acts != [] {
      var s1 := Next(s, acts[0]);
      CodeIsAnnounced(s1, acts[1..], t, c);
      if s.procs[c].group.exiting {
        GroupCodeIsFixed(s, acts[0], c);
      } else if s1.procs[c].group.exiting {
        FixingExit(s, acts[0], c);
      }
    }
  }

  lemma {:induction false} RecordStays(s: System, acts: seq<Action>, t: System, c: nat)
    requires Inv(s) && Stays(s, acts, t, c) && c in s.tasks && s.tasks[c].zombie
    ensures c in t.procs && c in t.tasks && t.tasks[c] == s.tasks[c]
    decreases |acts|
  {
    hide Inv, Next, Enabled;
    if acts != [] {
      var s1 := Next(s, acts[0]);
      LeaderIsItsOwn(s1, c);
      ZombiesAreFinal(s, acts[0], c);
      RecordStays(s1, acts[1..], t, c);
    }
  }

  /** A dead leader has left by an exit of its own. */
  lemma DiesByExit(s: System, a: Action, c: nat)
    requires Inv(s) && Enabled(s, a) && c in Next(s, a).procs && c in Next(s, a).tasks && Next(s, a).tasks[c].zombie
    requires c !in s.procs || c !in s.tasks || !s.tasks[c].zombie
    ensures IsExit(a) && a.self == c && c in s.procs
  {
    hide Inv, Next;
    if IsExit(a) {
      ExitEffect(s, a);
      LeaderIsItsOwn(Next(s, a), c);
    } else if a.DoWait? {
      NextOfWait(s, a);
      WaitRevivesNobody(s, a, c);
    } else {
      NextOfFork(s, a);
      ForkKillsNobody(s, a, c);
    }
  }

  lemma WaitRevivesNobody(s: System, a: Action, c: nat)
    requires a.DoWait? && Running(s, a.self)
    requires var s' := Wait(s, a.self, a.want, a.retry, a.codeFits).0; c in s'.procs && c in s'.tasks && s'.tasks[c].zombie
    ensures c in s.procs && c in s.tasks && s.tasks[c].zombie
  {
    hide Choose;
  }

  lemma ForkKillsNobody(s: System, a: Action, c: nat)
    requires (a.DoForkThread? || a.DoForkProcess?) && Running(s, a.self) && Fresh(s, a.tid)
    requires var s' := if a.DoForkThread? then ForkThread(s, a.self, a.tid) else ForkProcess(s, a.self, a.tid);
             c in s'.procs && c in s'.tasks && s'.tasks[c].zombie
    ensures c in s.procs && c in s.tasks && s.tasks[c].zombie
  {
  }

  lemma {:induction false} LastStep(s: System, acts: seq<Action>, t: System) returns (u: System)
    requires Inv(s) && Reaches(s, acts, t) && acts != []
    ensures var n := |acts| - 1; Reaches(s, acts[..n], u) && Inv(u) && Enabled(u, acts[n]) && t == Next(u, acts[n])
    decreases |acts|
  {
    hide Inv, Next, Enabled;
    var n := |acts| - 1;
    if n == 0 {
      u := s;
      assert acts[..0] == [] && acts[1..] == [];
    } else {
      u := LastStep(Next(s, acts[0]), acts[1..], t);
      assert acts[1..][..n - 1] == acts[..n][1..] && acts[1..][n - 1] == acts[n];
    }
  }

  lemma {:induction false} StaysOn(s: System, acts: seq<Action>, t: System, a: Action, c: nat)
    requires Inv(s) && Inv(t) && Stays(s, acts, t, c) && Enabled(t, a) && c in Next(t, a).procs
    ensures Stays(s, acts + [a], Next(t, a), c)
    decreases |acts|
  {
    hide Inv, Next, Enabled;
    if acts == [] {
      assert [a][1..] == [] && Stays(Next(t, a), [], Next(t, a), c);
      assert acts + [a] == [a];
    } else {
      StaysOn(Next(s, acts[0]), acts[1..], t, a, c);
      assert (acts + [a])[1..] == acts[1..] + [a];
    }
  }

  /** In every run to a state in which leader c is dead there is the step by which it left
      last, and since then it has not been reaped. */
  lemma {:induction false} LeaderLeft(s: System, acts: seq<Action>, t: System, c: nat)
    returns (pre: seq<Action>, mid: System, a: Action, post: seq<Action>)
    requires Inv(s) && Reaches(s, acts, t) && c in t.procs && c in t.tasks && t.tasks[c].zombie
    requires c !in s.procs || c !in s.tasks || !s.tasks[c].zombie
    ensures acts == pre + [a] + post && Reaches(s, pre, mid) && Inv(mid)
    ensures Enabled(mid, a) && IsExit(a) && a.self == c && c in mid.procs && Stays(Next(mid, a), post, t, c)
    decreases |acts|
  {
    hide Inv, Next, Enabled;
    assert acts != [];
    var n := |acts| - 1;
    var u := LastStep(s, acts, t);
    assert acts == acts[..n] + [acts[n]];
    if c in u.procs && c in u.tasks && u.tasks[c].zombie {
      pre, mid, a, post := LeaderLeft(s, acts[..n], u, c);
      StaysOn(Next(mid, a), post, u, acts[n], c);
      post := post + [acts[n]];
      assert acts == pre + [a] + post;
    } else {
      DiesByExit(u, acts[n], c);
      pre, mid, a, post := acts[..n], u, acts[n], [];
      assert Stays(t, [], t, c);
    }
  }

  /** In every run from the init process alone, a wait that reports c reports the code with
      which its leader last left; it is the group's code exactly when that is the code with
      which the group was announced. */
  lemma ReportedCode(acts: seq<Action>, t: System, self: nat, want: int, retry: bool, codeFits: bool)
    returns (pre: seq<Action>, mid: System, a: Action, post: seq<Action>)
    requires Reachable(acts, t) && Running(t, self) && Wait(t, self, want, retry, codeFits).1.Success?
    ensures var c, code := Wait(t, self, want, retry, codeFits).1.pid, Wait(t, self, want, retry, codeFits).1.code;
            && acts == pre + [a] + post && Reaches(START, pre, mid) && Inv(mid)
            && Enabled(mid, a) && IsExit(a) && a.self == c && Stays(mid, [a] + post, t, c)
            && code == CodeOf(mid, a) && c in t.procs && t.procs[c].group.exiting
            && (code == t.procs[c].group.exitCode <==> Announced(mid, [a] + post, c) == Some(code))
  {
    hide Wait, Inv, Next, Enabled, Reaches;
    var c := Wait(t, self, want, retry, codeFits).1.pid;
    RunsKeepInv(acts, t, START);
    WaitReports(t, self, want, retry, codeFits);
    pre, mid, a, post := LeaderLeft(START, acts, t, c);
    LeaderIsItsOwn(mid, c);
    ExitEffect(mid, a);
    RecordStays(Next(mid, a), post, t, c);
    assert ([a] + post)[1..] == post;
    CodeIsAnnounced(mid, [a] + post, t, c);
  }

  // ---------- a run in which the codes differ ----------

  /** Init's child 2 with a second thread 3. */
  ghost predicate TwoThreads(s: System) {
    && s.tasks == map[1 := Task(1, false, 0), 2 := Task(2, false, 0), 3 := Task(2, false, 0)]
    && s.procs.Keys == {1, 2} && s.procs[1].children == {2}
    && s.procs[2].group == ThreadGroup({2, 3}, 2, false, 0)
  }

  lemma NextOfFork(s: System, a: Action)
    requires Inv(s) && Enabled(s, a) && (a.DoForkThread? || a.DoForkProcess?)
    ensures Next(s, a) == if a.DoForkThread? then ForkThread(s, a.self, a.tid) else ForkProcess(s, a.self, a.tid)
  {
    hide Inv, ForkThread, ForkProcess;
  }

  lemma FirstChild(s: System)
    requires s == ForkProcess(START, 1, 2)
    ensures s.tasks == map[1 := Task(1, false, 0), 2 := Task(2, false, 0)]
    ensures s.procs.Keys == {1, 2} && s.procs[1].children == {2}
    ensures s.procs[2].group == ThreadGroup({2}, 1, false, 0)
  {
  }

  lemma SecondThread(s: System)
    requires s.tasks == map[1 := Task(1, false, 0), 2 := Task(2, false, 0)]
    requires s.procs.Keys == {1, 2} && s.procs[1].children == {2}
    requires s.procs[2].group == ThreadGroup({2}, 1, false, 0)
    ensures Enabled(s, DoForkThread(2, 3)) && TwoThreads(ForkThread(s, 2, 3))
  {
  }

  lemma StartForks()
    ensures Inv(START) && Enabled(START, DoForkProcess(1, 2)) && Reaches(START, [], START)
  {
    StartInv();
    hide Inv;
  }

  lemma ForkTwice() returns (s: System)
    ensures TwoThreads(s) && Inv(s) && Reachable([DoForkProcess(1, 2), DoForkThread(2, 3)], s)
  {
    hide Inv, Next, Enabled, ForkProcess, ForkThread, TwoThreads, Reaches, Running, Fresh;
    StartForks();
    var s1 := Next(START, DoForkProcess(1, 2));
    NextOfFork(START, DoForkProcess(1, 2));
    FirstChild(s1);
    SecondThread(s1);
    NextOfFork(s1, DoForkThread(2, 3));
    s := Next(s1, DoForkThread(2, 3));
    RunExtends(START, [], START, DoForkProcess(1, 2));
    RunExtends(START, [] + [DoForkProcess(1, 2)], s1, DoForkThread(2, 3));
    assert [] + [DoForkProcess(1, 2)] + [DoForkThread(2, 3)] == [DoForkProcess(1, 2), DoForkThread(2, 3)];
  }

  lemma LeaderLeaves(s: System)
    requires TwoThreads(s) && Inv(s)
    ensures Enabled(s, DoExit(2, 5))
    ensures var s' := Next(s, DoExit(2, 5));
            && s'.tasks == map[1 := Task(1, false, 0), 2 := Task(2, true, 5), 3 := Task(2, false, 0)]
            && s'.procs.Keys == {1, 2} && s'.procs[1].children == {2}
            && s'.procs[2].group == ThreadGroup({2, 3}, 1, false, 0)
  {
    hide Inv, Next, Exit;
    ExitEffect(s, DoExit(2, 5));
    NextOfExit(s, DoExit(2, 5));
    ExitFacts(s, 2, 5);
  }

  lemma LastThreadAnnounces(s: System)
    requires s.tasks == map[1 := Task(1, false, 0), 2 := Task(2, true, 5), 3 := Task(2, false, 0)]
    requires s.procs.Keys == {1, 2} && s.procs[1].children == {2} && Inv(s)
    requires s.procs[2].group == ThreadGroup({2, 3}, 1, false, 0)
    ensures Enabled(s, DoGroupExit(3, 7))
    ensures var s' := Next(s, DoGroupExit(3, 7));
            && Running(s', 1) && s'.tasks[1].pid == 1 && 2 in s'.procs[1].children && Reapable(s', 2)
            && s'.tasks[2].exitCode == 5 && s'.procs[2].group.exitCode == 7
  {
    hide Inv, Next, Exit, GroupExit;
    ExitEffect(s, DoGroupExit(3, 7));
    NextOfExit(s, DoGroupExit(3, 7));
    ChildrenAfterGroupExit(s, 3, 7);
  }

  /** The leader leaves with 5, then the last thread announces 7: wait reports 5. */
  lemma LeaderCodeDiffers() returns (s: System)
    ensures Running(s, 1) && Wait(s, 1, 2, false, true).1 == Success(2, 5)
    ensures 2 in s.procs && s.procs[2].group.exitCode == 7
    ensures Reachable([DoForkProcess(1, 2), DoForkThread(2, 3), DoExit(2, 5), DoGroupExit(3, 7)], s)
  {
    hide Inv, Next, Reaches;
    var s2 := ForkTwice();
    var run := [DoForkProcess(1, 2), DoForkThread(2, 3)];
    LeaderLeaves(s2);
    var s3 := Next(s2, DoExit(2, 5));
    RunExtends(START, run, s2, DoExit(2, 5));
    LastThreadAnnounces(s3);
    s := Next(s3, DoGroupExit(3, 7));
    RunExtends(START, run + [DoExit(2, 5)], s3, DoGroupExit(3, 7));
    assert run + [DoExit(2, 5)] + [DoGroupExit(3, 7)] ==
           [DoForkProcess(1, 2), DoForkThread(2, 3), DoExit(2, 5), DoGroupExit(3, 7)];
  }

  lemma ChildrenAfterGroupExit(s: System, self: nat, code: nat)
    requires CanExit(s, self) && s.tasks[self].pid != INIT
    ensures INIT in GroupExit(s, self, code).procs && s.procs[INIT].children <= GroupExit(s, self, code).procs[INIT].children
  {
    var p := s.tasks[self].pid;
    var g := s.procs[p].group;
    if g.exiting {
      ExitFacts(s, self, g.exitCode);
    } else {
      ExitFacts(Announce(s, p, code), self, code);
    }
  }

  lemma ExitReady(s: System, self: nat, code: nat)
    requires Inv(s) && self in s.tasks && !s.tasks[self].zombie && self != INIT
    ensures CanExit(s, self) && Inv(Exit(s, self, code))
    ensures s.procs[s.tasks[self].pid].children <= s.procs.Keys
  {
    ExitKeepsInv(s, self, code);
    ChildrenExist(s, s.tasks[self].pid);
  }

  lemma ChooseLeast(s: System, children: set<nat>, c: nat)
    requires c in children && Reapable(s, c) && forall d | d in children && Reapable(s, d) :: c <= d
    ensures Choose(s, children, -1, true) == Ok(c) && Choose(s, children, -1, false) == Ok(c)
  {
    var ready := set d | d in children && Reapable(s, d);
    assert c in ready;
  }

  lemma ChooseNone(s: System, children: set<nat>)
    requires forall d | d in children :: !Reapable(s, d)
    ensures Choose(s, children, -1, true) == Err(NotYet)
    ensures children != {} ==> Choose(s, children, -1, false) == Err(NotYet)
  {
    var ready := set d | d in children && Reapable(s, d);
    assert ready == {};
  }

  /** The children a wait's argument names. */
  predicate Fits(want: int, c: nat) {
    want == -1 || c == want
  }

  ghost predicate SomeFits(children: set<nat>, want: int) {
    exists c :: c in children && Fits(want, c)
  }

  ghost predicate SomeReady(s: System, children: set<nat>, want: int) {
    exists c :: c in children && Fits(want, c) && Reapable(s, c)
  }

  /** Each answer of a look has its exact reason. */
  lemma ChooseExactly(s: System, children: set<nat>, want: int, retry: bool)
    ensures var r, known, first := Choose(s, children, want, retry), want == -1 || want > 0, !retry && children == {};
            && (r.Ok? ==> Fits(want, r.value))
            && (r.Ok? <==> known && SomeReady(s, children, want))
            && (r == Err(NotYet) <==>
                  known && !SomeReady(s, children, want) && (SomeFits(children, want) || (retry && want == -1)))
            && (r == Err(NoChild) <==> first || (want > 0 && want !in children))
            && (r == Err(InvalidArgument) <==> !known && !first)
  {
    hide Reapable;
    var ready := set c | c in children && Reapable(s, c);
    assert forall c | c in children && Reapable(s, c) :: c in ready;
    if want > 0 && want in children {
      assert Fits(want, want);
    }
    if children != {} {
      var c :| c in children;
      assert Fits(want, c) <==> want == -1 || c == want;
    }
  }

  /** The same for the whole look: a fitting dead child is reported if its code can be stored,
      a caller without one is told to wait, or that there is none to wait for. */
  lemma WaitDecides(s: System, self: nat, want: int, retry: bool, codeFits: bool)
    requires Running(s, self)
    ensures var r, children := Wait(s, self, want, retry, codeFits).1, s.procs[s.tasks[self].pid].children;
            var known, first := want == -1 || want > 0, !retry && children == {};
            && (r.Success? ==> Fits(want, r.pid))
            && (r.Success? <==> known && SomeReady(s, children, want) && codeFits)
            && (r == NotYet <==>
                  known && !SomeReady(s, children, want) && (SomeFits(children, want) || (retry && want == -1)))
            && (r == NoChild <==> first || (want > 0 && want !in children))
            && (r == InvalidArgument <==> if known then SomeReady(s, children, want) && !codeFits else !first)
  {
    hide Choose, Reapable, Reap;
    ChooseExactly(s, s.procs[s.tasks[self].pid].children, want, retry);
  }

  lemma WaitReady(s: System, self: nat)
    requires Inv(s) && self in s.tasks && !s.tasks[self].zombie
    ensures Running(s, self)
    ensures forall c | c in s.procs[s.tasks[self].pid].children :: c in s.procs && c in s.tasks
  {
    ChildrenExist(s, s.tasks[self].pid);
  }

  // ---------- waiting until a child dies ----------

  /** What happens while the caller sleeps: steps of other tasks, and whether it is woken with
      SIGCHLD pending. */
  datatype Nap = Nap(others: seq<Action>, sigchld: bool)

  /** No step of another task ends or moves a running one. */
  lemma OthersKeepRunning(s: System, a: Action, self: nat)
    requires Inv(s) && Enabled(s, a) && a.self != self && Running(s, self)
    ensures Running(Next(s, a), self) && Next(s, a).tasks[self] == s.tasks[self]
  {
    hide Inv, Next;
    if IsExit(a) {
      ExitEffect(s, a);
    } else if a.DoWait? {
      WaitKeepsRunning(s, a, self);
    } else {
      NextOfFork(s, a);
    }
  }

  lemma NextOfWait(s: System, a: Action)
    requires Inv(s) && Enabled(s, a) && a.DoWait?
    ensures Next(s, a) == Wait(s, a.self, a.want, a.retry, a.codeFits).0
  {
    hide Inv, Wait;
  }

  lemma ReapKeepsRunning(s: System, p: nat, c: nat, self: nat)
    requires Inv(s) && p in s.procs && p != c && Reapable(s, c) && Running(s, self)
    ensures Running(Reap(s, p, c), self) && Reap(s, p, c).tasks[self] == s.tasks[self]
  {
    ReapableIsDead(s, c);
    MembersAreTasks(s, c, self);
    hide Inv;
    ReapFacts(s, p, c);
  }

  lemma WaitKeepsRunning(s: System, a: Action, self: nat)
    requires Inv(s) && Enabled(s, a) && a.DoWait? && Running(s, self)
    ensures Running(Next(s, a), self) && Next(s, a).tasks[self] == s.tasks[self]
  {
    hide Inv, Next, Choose, Reap;
    NextOfWait(s, a);
    var p := s.tasks[a.self].pid;
    var choice := Choose(s, s.procs[p].children, a.want, a.retry);
    if choice.Ok? && a.codeFits {
      NotOwnChild(s, p, choice.value);
      ReapKeepsRunning(s, p, choice.value, self);
    }
  }

  lemma NotOwnChild(s: System, p: nat, c: nat)
    requires Inv(s) && p in s.procs && c in s.procs[p].children
    ensures p != c
  {
    assert Owns(s, p, c);
  }

  lemma MembersAreTasks(s: System, c: nat, t: nat)
    requires Inv(s) && c in s.procs && t in s.tasks
    ensures t in s.procs[c].group.members <==> s.tasks[t].pid == c
  {
  }

  /** The others' steps that are enabled when their turn comes. */
  function Meanwhile(s: System, acts: seq<Action>, self: nat): (s': System)
    requires Inv(s) && Running(s, self)
    ensures Inv(s') && Running(s', self) && s'.tasks[self] == s.tasks[self]
    decreases |acts|
  {
    hide Inv, Next, Running;
    if acts == [] then s
    else if acts[0].self != self && Enabled(s, acts[0]) then
      OthersKeepRunning(s, acts[0], self);
      Meanwhile(Next(s, acts[0]), acts[1..], self)
    else Meanwhile(s, acts[1..], self)
  }

  /** From a sleep on: woken without SIGCHLD the call ends, otherwise the children are looked
      at once more. */
  function Resume(s: System, self: nat, want: int, codeFits: bool, naps: seq<Nap>): (System, WaitOutcome)
    requires Inv(s) && Running(s, self)
    decreases |naps|
  {
    if naps == [] then (s, Suspended)
    else
      var s1 := Meanwhile(s, naps[0].others, self);
      if !naps[0].sigchld then (s1, Interrupted)
      else
        var (s2, r) := Wait(s1, self, want, true, codeFits);
        if r == NotYet then Resume(s1, self, want, codeFits, naps[1..]) else (s2, r)
  }

  /** The whole call: one look, then, unless the caller does not want to hang, sleep. */
  function WaitCall(s: System, self: nat, want: int, noHang: bool, codeFits: bool, naps: seq<Nap>): (System, WaitOutcome)
    requires Inv(s) && Running(s, self)
  {
    var (s1, r) := Wait(s, self, want, false, codeFits);
    if r != NotYet || noHang then (s1, r) else Resume(s, self, want, codeFits, naps)
  }

  /** A wait that is not over has changed nothing. */
  lemma NotYetIsIdle(s: System, self: nat, want: int, retry: bool, codeFits: bool)
    requires Running(s, self)
    ensures var (s', r) := Wait(s, self, want, retry, codeFits); r.Success? || s' == s
  {
  }

  /** A reaped child was a child of the caller with every thread dead when it was reaped, and
      is gone afterwards. */
  ghost predicate TookDeadChild(before: System, after: System, self: nat, c: nat) {
    && Inv(before) && Running(before, self) && Reapable(before, c)
    && c in before.procs[before.tasks[self].pid].children
    && after == Reap(before, before.tasks[self].pid, c)
  }

  lemma WaitSucceeds(s: System, self: nat, want: int, retry: bool, codeFits: bool)
    requires Inv(s) && Running(s, self)
    ensures var (s', r) := Wait(s, self, want, retry, codeFits);
            r.Success? ==> TookDeadChild(s, s', self, r.pid) && r.code == s.tasks[r.pid].exitCode
  {
    hide Inv, Choose, Reap;
  }

  lemma WaitKeepsCaller(s: System, self: nat, want: int, retry: bool, codeFits: bool)
    requires Inv(s) && Running(s, self)
    ensures Running(Wait(s, self, want, retry, codeFits).0, self)
  {
    hide Inv, Next, Wait;
    var a := DoWait(self, want, retry, codeFits);
    WaitKeepsRunning(s, a, self);
    NextOfWait(s, a);
  }

  /** The steps of the others that are taken. */
  function Taken(s: System, acts: seq<Action>, self: nat): seq<Action>
    requires Inv(s) && Running(s, self)
    decreases |acts|
  {
    hide Inv, Next, Running;
    if acts == [] then []
    else if acts[0].self != self && Enabled(s, acts[0]) then
      OthersKeepRunning(s, acts[0], self);
      [acts[0]] + Taken(Next(s, acts[0]), acts[1..], self)
    else Taken(s, acts[1..], self)
  }

  /** A run of calls none of which is the caller's. */
  ghost predicate ByOthers(s: System, acts: seq<Action>, t: System, self: nat)
    requires Inv(s)
  {
    Reaches(s, acts, t) && forall i | 0 <= i < |acts| :: acts[i].self != self
  }

  /** What happens in a sleep is a run of the others, which leaves the caller running. */
  lemma {:induction false} MeanwhileIsRun(s: System, acts: seq<Action>, self: nat)
    requires Inv(s) && Running(s, self)
    ensures ByOthers(s, Taken(s, acts, self), Meanwhile(s, acts, self), self)
    decreases |acts|
  {
    hide Inv, Next, Running, Enabled;
    if acts != [] {
      if acts[0].self != self && Enabled(s, acts[0]) {
        OthersKeepRunning(s, acts[0], self);
        var rest := Taken(Next(s, acts[0]), acts[1..], self);
        MeanwhileIsRun(Next(s, acts[0]), acts[1..], self);
        assert ([acts[0]] + rest)[1..] == rest;
      } else {
        MeanwhileIsRun(s, acts[1..], self);
      }
    }
  }

  /** A run of the others that is enabled step by step is taken in full. */
  lemma {:induction false} MeanwhileTakesAll(s: System, acts: seq<Action>, t: System, self: nat)
    requires Inv(s) && Running(s, self) && ByOthers(s, acts, t, self)
    ensures Meanwhile(s, acts, self) == t && Taken(s, acts, self) == acts
    decreases |acts|
  {
    hide Inv, Next, Running, Enabled;
    if acts != [] {
      OthersKeepRunning(s, acts[0], self);
      MeanwhileTakesAll(Next(s, acts[0]), acts[1..], t, self);
      assert [acts[0]] + acts[1..] == acts;
    }
  }

  lemma {:induction false} RunsCompose(s: System, a: seq<Action>, t: System, b: seq<Action>, u: System)
    requires Inv(s) && Inv(t) && Reaches(s, a, t) && Reaches(t, b, u)
    ensures Reaches(s, a + b, u)
    decreases |a|
  {
    hide Inv, Next, Enabled;
    if a == [] {
      assert a + b == b;
    } else {
      RunsCompose(Next(s, a[0]), a[1..], t, b, u);
      assert (a + b)[1..] == a[1..] + b;
    }
  }

  /** How a call ends in a state `before`: with one more look at the children, or, asleep or
      interrupted, as it is. */
  ghost predicate EndsIn(before: System, s': System, r: WaitOutcome, self: nat, want: int, retry: bool, codeFits: bool)
    requires Running(before, self)
  {
    if r.Suspended? || r.Interrupted? then s' == before
    else (s', r) == Wait(before, self, want, retry, codeFits)
  }

  lemma {:induction false} ResumeIsSound(s: System, self: nat, want: int, codeFits: bool, naps: seq<Nap>)
    returns (acts: seq<Action>, before: System)
    requires Inv(s) && Running(s, self)
    ensures ByOthers(s, acts, before, self) && Inv(before) && Running(before, self)
    ensures var (s', r) := Resume(s, self, want, codeFits, naps);
            r != NotYet && EndsIn(before, s', r, self, want, true, codeFits)
    decreases |naps|
  {
    hide Inv, Wait, Running, Next, Enabled;
    acts, before := [], s;
    if naps != [] {
      before := Meanwhile(s, naps[0].others, self);
      acts := Taken(s, naps[0].others, self);
      MeanwhileIsRun(s, naps[0].others, self);
      WaitAnswers(before, self, want, true, codeFits);
      if naps[0].sigchld && Wait(before, self, want, true, codeFits).1 == NotYet {
        var s1, first := before, acts;
        var rest;
        rest, before := ResumeIsSound(s1, self, want, codeFits, naps[1..]);
        RunsCompose(s, first, s1, rest, before);
        acts := first + rest;
      }
    }
  }

  /** Over any sleeps: the others' steps lead from the state of the call to a state `before`,
      with the caller still running, and the call ends there with the answer of one look. A
      call that may hang does not end unanswered. A success takes a child of the caller that
      is dead in `before` and reports the code its leader has there. */
  lemma WaitCallIsSound(s: System, self: nat, want: int, noHang: bool, codeFits: bool, naps: seq<Nap>)
    returns (acts: seq<Action>, before: System, retry: bool)
    requires Inv(s) && Running(s, self)
    ensures ByOthers(s, acts, before, self) && Inv(before) && Running(before, self)
    ensures var (s', r) := WaitCall(s, self, want, noHang, codeFits, naps);
            && EndsIn(before, s', r, self, want, retry, codeFits)
            && Inv(s') && Running(s', self) && (r == NotYet ==> noHang && s' == s)
            && (r.Success? ==> TookDeadChild(before, s', self, r.pid) && r.code == before.tasks[r.pid].exitCode)
  {
    hide Inv, Wait, Running, Resume, TookDeadChild;
    if Wait(s, self, want, false, codeFits).1 != NotYet || noHang {
      acts, before, retry := [], s, false;
      assert Reaches(s, [], s);
      OneLook(s, self, want, false, codeFits);
    } else {
      acts, before := ResumeIsSound(s, self, want, codeFits, naps);
      retry := true;
      OneLook(before, self, want, true, codeFits);
    }
  }

  /** One look keeps the invariants and the caller, changes nothing unless it succeeds, and
      then takes a dead child. */
  lemma OneLook(s: System, self: nat, want: int, retry: bool, codeFits: bool)
    requires Inv(s) && Running(s, self)
    ensures var (s', r) := Wait(s, self, want, retry, codeFits);
            && Inv(s') && Running(s', self) && !r.Suspended? && !r.Interrupted? && (r.Success? || s' == s)
            && (r.Success? ==> TookDeadChild(s, s', self, r.pid) && r.code == s.tasks[r.pid].exitCode)
  {
    WaitAnswers(s, self, want, retry, codeFits);
    hide Inv, Wait, Running;
    WaitKeepsInv(s, self, want, retry, codeFits);
    WaitKeepsCaller(s, self, want, retry, codeFits);
    WaitSucceeds(s, self, want, retry, codeFits);
    NotYetIsIdle(s, self, want, retry, codeFits);
  }

  lemma WaitAnswers(s: System, self: nat, want: int, retry: bool, codeFits: bool)
    requires Running(s, self)
    ensures var r := Wait(s, self, want, retry, codeFits).1; !r.Suspended? && !r.Interrupted?
  {
    hide Choose, Reap;
  }

  /** The state after the first k sleeps. */
  function AfterNaps(s: System, self: nat, naps: seq<Nap>, k: nat): (t: System)
    requires Inv(s) && Running(s, self) && k <= |naps|
    ensures Inv(t) && Running(t, self)
  {
    hide Inv, Running, Meanwhile;
    if k == 0 then s else Meanwhile(AfterNaps(s, self, naps, k - 1), naps[k - 1].others, self)
  }

  /** Sleep k is the last: the caller is woken by another signal, or there is an answer. */
  ghost predicate EndsAt(s: System, self: nat, want: int, codeFits: bool, naps: seq<Nap>, k: nat)
    requires Inv(s) && Running(s, self) && k < |naps|
  {
    !naps[k].sigchld || Wait(AfterNaps(s, self, naps, k + 1), self, want, true, codeFits).1 != NotYet
  }

  /** Sleep k is the first that is the last. */
  ghost predicate FirstEnd(s: System, self: nat, want: int, codeFits: bool, naps: seq<Nap>, k: nat)
    requires Inv(s) && Running(s, self)
  {
    && k < |naps| && EndsAt(s, self, want, codeFits, naps, k)
    && forall j | 0 <= j < k :: !EndsAt(s, self, want, codeFits, naps, j)
  }

  lemma {:induction false} NapsShift(s: System, self: nat, naps: seq<Nap>, k: nat)
    requires Inv(s) && Running(s, self) && 0 < k <= |naps|
    ensures AfterNaps(s, self, naps, k) == AfterNaps(Meanwhile(s, naps[0].others, self), self, naps[1..], k - 1)
    decreases k
  {
    hide Inv, Running, Meanwhile;
    if k > 1 {
      NapsShift(s, self, naps, k - 1);
      assert naps[1..][k - 2] == naps[k - 1];
    } else {
      assert AfterNaps(s, self, naps, 0) == s;
    }
  }

  /** What a sleeping call answers at its last sleep. */
  lemma {:induction false} ResumeEnds(s: System, self: nat, want: int, codeFits: bool, naps: seq<Nap>, k: nat)
    requires Inv(s) && Running(s, self) && FirstEnd(s, self, want, codeFits, naps, k)
    ensures var t := AfterNaps(s, self, naps, k + 1);
            Resume(s, self, want, codeFits, naps) ==
              if naps[k].sigchld then Wait(t, self, want, true, codeFits) else (t, Interrupted)
    decreases k
  {
    hide Inv, Running, Meanwhile, Wait;
    var s1 := Meanwhile(s, naps[0].others, self);
    NapsShift(s, self, naps, 1);
    assert AfterNaps(s1, self, naps[1..], 0) == s1;
    if k > 0 {
      assert !EndsAt(s, self, want, codeFits, naps, 0);
      forall j | 0 < j <= k
        ensures EndsAt(s1, self, want, codeFits, naps[1..], j - 1) <==> EndsAt(s, self, want, codeFits, naps, j)
      {
        NapsShift(s, self, naps, j + 1);
        assert naps[1..][j - 1] == naps[j];
      }
      hide EndsAt, AfterNaps;
      NapsShift(s, self, naps, k + 1);
      FirstEndShifts(s, s1, self, want, codeFits, naps, k);
      ResumeEnds(s1, self, want, codeFits, naps[1..], k - 1);
    }
  }

  lemma FirstEndShifts(s: System, s1: System, self: nat, want: int, codeFits: bool, naps: seq<Nap>, k: nat)
    requires Inv(s) && Running(s, self) && Inv(s1) && Running(s1, self) && k > 0
    requires FirstEnd(s, self, want, codeFits, naps, k)
    requires forall j | 0 < j <= k ::
               EndsAt(s1, self, want, codeFits, naps[1..], j - 1) <==> EndsAt(s, self, want, codeFits, naps, j)
    ensures FirstEnd(s1, self, want, codeFits, naps[1..], k - 1)
  {
    hide Inv, Running, EndsAt;
    forall j | 0 <= j < k - 1 ensures !EndsAt(s1, self, want, codeFits, naps[1..], j) {
      assert j == (j + 1) - 1 && !EndsAt(s, self, want, codeFits, naps, j + 1);
    }
  }

  /** Without a last sleep the call goes on sleeping. */
  lemma {:induction false} ResumeSleepsOn(s: System, self: nat, want: int, codeFits: bool, naps: seq<Nap>)
    requires Inv(s) && Running(s, self)
    requires forall k | 0 <= k < |naps| :: !EndsAt(s, self, want, codeFits, naps, k)
    ensures Resume(s, self, want, codeFits, naps) == (AfterNaps(s, self, naps, |naps|), Suspended)
    decreases |naps|
  {
    hide Inv, Running, Meanwhile, Wait;
    if naps != [] {
      var s1 := Meanwhile(s, naps[0].others, self);
      NapsShift(s, self, naps, 1);
      NapsShift(s, self, naps, |naps|);
      assert AfterNaps(s1, self, naps[1..], 0) == s1;
      assert !EndsAt(s, self, want, codeFits, naps, 0);
      forall k | 0 <= k < |naps[1..]| ensures !EndsAt(s1, self, want, codeFits, naps[1..], k) {
        NapsShift(s, self, naps, k + 2);
        assert !EndsAt(s, self, want, codeFits, naps, k + 1);
      }
      ResumeSleepsOn(s1, self, want, codeFits, naps[1..]);
    }
  }

  lemma {:induction false} EndOrNot(s: System, self: nat, want: int, codeFits: bool, naps: seq<Nap>, n: nat)
    returns (k: nat)
    requires Inv(s) && Running(s, self) && n <= |naps|
    ensures k <= n && forall j | 0 <= j < k :: !EndsAt(s, self, want, codeFits, naps, j)
    ensures k < n ==> EndsAt(s, self, want, codeFits, naps, k)
  {
    hide Inv, Running, EndsAt;
    k := 0;
    while k < n && !EndsAt(s, self, want, codeFits, naps, k)
      invariant k <= n && forall j | 0 <= j < k :: !EndsAt(s, self, want, codeFits, naps, j)
    {
      k := k + 1;
    }
  }

  /** No sleep is the last. */
  ghost predicate NoEnd(s: System, self: nat, want: int, codeFits: bool, naps: seq<Nap>)
    requires Inv(s) && Running(s, self)
  {
    hide Inv, Running, EndsAt;
    forall k | 0 <= k < |naps| :: !EndsAt(s, self, want, codeFits, naps, k)
  }

  /** The first last sleep ends without SIGCHLD. */
  ghost predicate CutShort(s: System, self: nat, want: int, codeFits: bool, naps: seq<Nap>)
    requires Inv(s) && Running(s, self)
  {
    hide Inv, Running, EndsAt;
    exists k: nat :: FirstEnd(s, self, want, codeFits, naps, k) && !naps[k].sigchld
  }

  /** The outcome is that of the look after sleep k. */
  ghost predicate AnswersAfter(s: System, self: nat, want: int, codeFits: bool, naps: seq<Nap>, k: nat, out: (System, WaitOutcome))
    requires Inv(s) && Running(s, self) && k < |naps|
  {
    hide Inv, Running, Wait;
    out == Wait(AfterNaps(s, self, naps, k + 1), self, want, true, codeFits)
  }

  /** When a whole call answers and what: the first look decides if it has an answer or the
      caller will not hang. Otherwise the call is still asleep if and only if no sleep is the
      last, interrupted if and only if the first last sleep ends without SIGCHLD, and
      otherwise answers as the look after that sleep does. */
  ghost predicate CallAnswers(s: System, self: nat, want: int, noHang: bool, codeFits: bool, naps: seq<Nap>)
    requires Inv(s) && Running(s, self)
  {
    hide Inv, Running, Wait, WaitCall, EndsAt, NoEnd, CutShort, AnswersAfter;
    var out, look := WaitCall(s, self, want, noHang, codeFits, naps), Wait(s, self, want, false, codeFits);
    if look.1 != NotYet || noHang then out == look
    else
      && (out.1 == Suspended <==> NoEnd(s, self, want, codeFits, naps))
      && (out.1 == Interrupted <==> CutShort(s, self, want, codeFits, naps))
      && (forall k: nat | FirstEnd(s, self, want, codeFits, naps, k) && naps[k].sigchld ::
            AnswersAfter(s, self, want, codeFits, naps, k, out))
  }

  lemma WaitCallAnswers(s: System, self: nat, want: int, noHang: bool, codeFits: bool, naps: seq<Nap>)
    requires Inv(s) && Running(s, self)
    ensures CallAnswers(s, self, want, noHang, codeFits, naps)
  {
    hide Inv, Running, Wait, Resume, AfterNaps, EndsAt;
    if Wait(s, self, want, false, codeFits).1 == NotYet && !noHang {
      var k := EndOrNot(s, self, want, codeFits, naps, |naps|);
      if k < |naps| {
        ResumeEnds(s, self, want, codeFits, naps, k);
        WaitAnswers(AfterNaps(s, self, naps, k + 1), self, want, true, codeFits);
        assert FirstEnd(s, self, want, codeFits, naps, k);
        assert forall j: nat | FirstEnd(s, self, want, codeFits, naps, j) :: j == k;
      } else {
        ResumeSleepsOn(s, self, want, codeFits, naps);
      }
    }
  }

  /** In particular a call woken by SIGCHLD when a fitting child is dead reports a fitting child. */
  lemma DeadChildIsReported(s: System, self: nat, want: int, codeFits: bool, naps: seq<Nap>, k: nat)
    requires Inv(s) && Running(s, self) && Wait(s, self, want, false, codeFits).1 == NotYet
    requires k < |naps| && naps[k].sigchld && codeFits
    requires forall j | 0 <= j < k :: !EndsAt(s, self, want, codeFits, naps, j)
    requires var t := AfterNaps(s, self, naps, k + 1); SomeReady(t, t.procs[t.tasks[self].pid].children, want)
    ensures var r := WaitCall(s, self, want, false, codeFits, naps).1; r.Success? && Fits(want, r.pid)
  {
    hide Inv, Wait, WaitCall, Reapable;
    WaitDecides(s, self, want, false, codeFits);
    WaitDecides(AfterNaps(s, self, naps, k + 1), self, want, true, codeFits);
    hide AfterNaps, SomeReady, SomeFits;
    WaitCallAnswers(s, self, want, false, codeFits, naps);
    assert FirstEnd(s, self, want, codeFits, naps, k);
  }

  // ---------- the task manager in place ----------

  lemma AwakeIsRunning(s: System, self: nat)
    requires Running(s, self)
    ensures self in s.tasks && !s.tasks[self].zombie
  {
  }

  class Kernel {
    var tasks: map<nat, Task>
    var procs: map<nat, Process>
    var log: seq<Event>

    ghost function Value(): System
      reads this
    {
      System(tasks, procs, log)
    }

    constructor ()
      ensures Value() == START
    {
      tasks := map[INIT := Task(INIT, false, 0)];
      procs := map[INIT := Process(ThreadGroup({INIT}, 1, false, 0), {}, None, 0)];
      log := [Forked(INIT)];
    }

    method DoExit(self: nat, code: nat)
      requires Inv(Value()) && self in tasks && self != INIT
      modifies this
      ensures Inv(Value())
      ensures old(tasks)[self].zombie ==> Value() == old(Value())
      ensures !old(tasks)[self].zombie ==> CanExit(old(Value()), self) && Value() == Exit(old(Value()), self, code)
    {
      hide Inv;
      if tasks[self].zombie {
        return;
      }
      ExitReady(Value(), self, code);
      var p := tasks[self].pid;
      tasks := tasks[self := tasks[self].(exitCode := code)];
      var g := procs[p].group;
      g := g.(alive := g.alive - 1);
      var isLast := g.alive == 0;
      if g.alive == 0 && !g.exiting {
        g := g.(exiting := true, exitCode := code);
      }
      procs := procs[p := procs[p].(group := g)];
      tasks := tasks[self := tasks[self].(zombie := true)];
      assert tasks == old(tasks)[self := Task(p, true, code)];
      if isLast {
        GiveChildrenToInit(p);
      }
      assert Value() == Exit(old(Value()), self, code);
    }

    method GiveChildrenToInit(p: nat)
      requires p in procs && INIT in procs && p != INIT && procs[p].children <= procs.Keys
      modifies this`procs
      ensures procs == Release(old(procs), p)
    {
      var children := procs[p].children;
      var todo := children;
      while todo != {}
        invariant todo <= children <= procs.Keys
        invariant procs == Reparent(old(procs), children - todo)
      {
        var c :| c in todo;
        procs := procs[c := procs[c].(parent := Some(INIT))];
        todo := todo - {c};
        assert procs == Reparent(old(procs), children - todo);
      }
      assert children - todo == children;
      procs := procs[INIT := procs[INIT].(children := procs[INIT].children + children)];
      procs := procs[p := procs[p].(children := {})];
    }

    method DoGroupExit(self: nat, code: nat)
      requires Inv(Value()) && self in tasks && !tasks[self].zombie && self != INIT
      modifies this
      ensures Inv(Value())
      ensures CanExit(old(Value()), self) && Value() == GroupExit(old(Value()), self, code)
    {
      hide Inv;
      ExitReady(Value(), self, code);
      var p := tasks[self].pid;
      var g := procs[p].group;
      if g.exiting {
        DoExit(self, g.exitCode);
      } else {
        AnnounceKeepsInv(Value(), p, code);
        procs := procs[p := procs[p].(group := g.(exiting := true, exitCode := code))];
        DoExit(self, code);
      }
    }

    method Fork(self: nat, thread: bool, tid: nat)
      requires Inv(Value()) && Running(Value(), self) && Fresh(Value(), tid)
      modifies this
      ensures Inv(Value())
      ensures Value() == if thread then ForkThread(old(Value()), self, tid) else ForkProcess(old(Value()), self, tid)
    {
      hide Inv;
      var p := tasks[self].pid;
      if thread {
        ForkThreadKeepsInv(Value(), self, tid);
        var g := procs[p].group;
        tasks := tasks[tid := Task(p, false, 0)];
        procs := procs[p := procs[p].(group := g.(members := g.members + {tid}, alive := g.alive + 1))];
      } else {
        ForkProcessKeepsInv(Value(), self, tid);
        procs := procs[p := procs[p].(children := procs[p].children + {tid})];
        procs := procs[tid := Process(ThreadGroup({tid}, 1, false, 0), {}, Some(self), |log|)];
        tasks := tasks[tid := Task(tid, false, 0)];
        log := log + [Forked(tid)];
      }
    }

    /** The first reapable child in ascending order of pid. */
    method FindReapable(children: set<nat>) returns (r: Option<nat>)
      requires forall c | c in children :: c in procs && c in tasks
      ensures r.None? ==> forall c | c in children :: !Reapable(Value(), c)
      ensures r.Some? ==> r.value in children && Reapable(Value(), r.value)
      ensures r.Some? ==> forall c | c in children && Reapable(Value(), c) :: r.value <= c
    {
      ghost var s := Value();
      var todo := children;
      while todo != {}
        invariant todo <= children
        invariant forall c | c in children && Reapable(s, c) :: c in todo
      {
        HasMin(todo);
        var c :| c in todo && forall d | d in todo :: c <= d;
        if tasks[c].zombie && procs[c].group.alive == 0 {
          return Some(c);
        }
        assert !Reapable(s, c);
        todo := todo - {c};
      }
      return None;
    }

    /** The call with its sleeps. */
    method WaitpidCall(self: nat, want: int, noHang: bool, codeFits: bool, naps: seq<Nap>) returns (r: WaitOutcome)
      requires Inv(Value()) && Running(Value(), self)
      modifies this
      ensures Inv(Value()) && (Value(), r) == WaitCall(old(Value()), self, want, noHang, codeFits, naps)
    {
      hide Inv, Running, Wait;
      ghost var acts, before, again := WaitCallIsSound(Value(), self, want, noHang, codeFits, naps);
      NotYetIsIdle(Value(), self, want, false, codeFits);
      AwakeIsRunning(Value(), self);
      r := Waitpid(self, want, false, codeFits);
      if r != NotYet || noHang {
        return;
      }
      var i := 0;
      while i < |naps|
        invariant i <= |naps| && Inv(Value()) && Running(Value(), self)
        invariant WaitCall(old(Value()), self, want, noHang, codeFits, naps) ==
                  Resume(Value(), self, want, codeFits, naps[i..])
      {
        assert naps[i..][1..] == naps[i + 1..];
        Sleep(naps[i].others, self);
        if !naps[i].sigchld {
          return Interrupted;
        }
        NotYetIsIdle(Value(), self, want, true, codeFits);
        AwakeIsRunning(Value(), self);
        r := Waitpid(self, want, true, codeFits);
        if r != NotYet {
          return;
        }
        i := i + 1;
      }
      return Suspended;
    }

    /** The others run while the caller sleeps, and the caller is still there afterwards. */
    method Sleep(others: seq<Action>, self: nat)
      requires Inv(Value()) && Running(Value(), self)
      modifies this
      ensures Inv(Value()) && Running(Value(), self) && tasks[self] == old(tasks[self])
      ensures ByOthers(old(Value()), Taken(old(Value()), others, self), Value(), self)
      ensures Value() == Meanwhile(old(Value()), others, self)
    {
      hide Inv, Running, Meanwhile, ByOthers, Taken;
      MeanwhileIsRun(Value(), others, self);
      var s := Meanwhile(System(tasks, procs, log), others, self);
      tasks, procs, log := s.tasks, s.procs, s.log;
    }

    /** One look at the children. */
    method Waitpid(self: nat, want: int, retry: bool, codeFits: bool) returns (r: WaitOutcome)
      requires Inv(Value()) && self in tasks && !tasks[self].zombie
      modifies this
      ensures Inv(Value())
      ensures Running(old(Value()), self) && (Value(), r) == Wait(old(Value()), self, want, retry, codeFits)
    {
      hide Inv;
      WaitReady(Value(), self);
      WaitKeepsInv(Value(), self, want, retry, codeFits);
      var p := tasks[self].pid;
      var children := procs[p].children;
      var found: Option<nat> := None;
      if !retry && children == {} {
        return NoChild;
      }
      if want == -1 {
        found := FindReapable(children);
        if found.Some? {
          ChooseLeast(Value(), children, found.value);
        } else {
          ChooseNone(Value(), children);
        }
      } else if want > 0 {
        if want in children {
          if tasks[want].zombie && procs[want].group.alive == 0 {
            found := Some(want);
          }
        } else {
          return NoChild;
        }
      } else {
        return InvalidArgument;
      }
      match found
      case None =>
        return NotYet;
      case Some(c) =>
        if !codeFits {
          return InvalidArgument;
        }
        var code := tasks[c].exitCode;
        RemoveThreads(procs[c].group.members);
        procs := procs[p := procs[p].(children := procs[p].children - {c})] - {c};
        log := log + [Reaped(c)];
        return Success(c, code);
    }

    method RemoveThreads(members: set<nat>)
      modifies this`tasks
      ensures tasks == old(tasks) - members
    {
      var todo := members;
      while todo != {}
        invariant todo <= members
        invariant tasks == old(tasks) - (members - todo)
      {
        var t :| t in todo;
        tasks := tasks - {t};
        todo := todo - {t};
      }
      assert members - todo == members;
    }
  }
}
