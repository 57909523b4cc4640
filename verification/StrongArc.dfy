/** The strong-only reference-counted pointer: clone, drop and emplace as atomic steps of any
    number of handles, interleaved in any order over sequentially consistent memory. */
module StrongArc {
  import IntSets

  datatype Payload<T> = Payload(data: T, rc: int, live: bool)

  /** Where a handle stands: at rest, inside emplace with the count it last saw, between
      giving up its share and allocating a new payload, or about to free as the last owner. */
  datatype Phase<T> =
    | Idle(at: nat)
    | Swapping(at: nat, seen: int, val: T)
    | Detached(val: T)
    | Freeing(at: nat)

  /** The heap by address, the handles, how often each address was allocated and freed, and a
      fault flag raised by a step that touches a payload that is not allocated. */
  datatype System<T> = System(
    heap: map<nat, Payload<T>>,
    handles: map<nat, Phase<T>>,
    allocs: multiset<nat>,
    freed: multiset<nat>,
    fault: bool)

  datatype Action<T> =
    | Create(h: nat, val: T, p: nat)
    | Clone(h: nat, copy: nat)
    | Load(h: nat, val: T)
    | Exchange(h: nat)
    | Attach(h: nat, p: nat)
    | Release(h: nat)
    | Free(h: nat)

  predicate Attached<T>(ph: Phase<T>, p: nat) {
    (ph.Idle? || ph.Swapping?) && ph.at == p
  }

  function Users<T>(hs: map<nat, Phase<T>>, p: nat): set<nat> {
    set h | h in hs && Attached(hs[h], p)
  }

  function Freers<T>(hs: map<nat, Phase<T>>, p: nat): set<nat> {
    set h | h in hs && hs[h] == Freeing(p)
  }

  predicate Allocated<T>(s: System<T>, p: nat) {
    p in s.heap && s.heap[p].live
  }

  /** What borrowing lets a thread do: clone needs a handle nobody changes, emplace and drop
      need it exclusively. The allocator hands out any address not in use, a freed one too. */
  predicate Enabled<T(!new)>(s: System<T>, a: Action<T>) {
    match a
    case Create(h, _, p) => h !in s.handles && !Allocated(s, p)
    case Clone(h, copy) => h in s.handles && s.handles[h].Idle? && copy !in s.handles
    case Load(h, _) => h in s.handles && s.handles[h].Idle?
    case Exchange(h) => h in s.handles && s.handles[h].Swapping?
    case Attach(h, p) => h in s.handles && s.handles[h].Detached? && !Allocated(s, p)
    case Release(h) => h in s.handles && s.handles[h].Idle?
    case Free(h) => h in s.handles && s.handles[h].Freeing?
  }

  function Set<T>(s: System<T>, p: nat, c: Payload<T>, h: nat, ph: Phase<T>): System<T> {
    s.(heap := s.heap[p := c], handles := s.handles[h := ph])
  }

  /** A new payload at p for handle h, with a count of one. */
  function Alloc<T>(s: System<T>, h: nat, val: T, p: nat): System<T> {
    Set(s, p, Payload(val, 1, true), h, Idle(p)).(allocs := s.allocs + multiset{p})
  }

  function Step<T(!new)>(s: System<T>, a: Action<T>): System<T>
    requires Enabled(s, a)
  {
    match a
    case Create(h, val, p) => Alloc(s, h, val, p)
    case Attach(h, p) => Alloc(s, h, s.handles[h].val, p)
    case _ =>
      var p := s.handles[a.h].at;
      if !Allocated(s, p) then s.(fault := true)
      else OnPayload(s, a, p, s.heap[p])
  }

  /** The steps that dereference the handle's payload pointer. */
  function OnPayload<T(!new)>(s: System<T>, a: Action<T>, p: nat, c: Payload<T>): System<T>
    requires Enabled(s, a) && !a.Create? && !a.Attach?
  {
    match a
    case Clone(_, copy) => Set(s, p, c.(rc := c.rc + 1), copy, Idle(p))
    case Load(h, val) => s.(handles := s.handles[h := Swapping(p, c.rc, val)])
    case Exchange(h) =>
      var ph := s.handles[h];
      if ph.seen == 1 then Set(s, p, c.(data := ph.val), h, Idle(p))
      else if c.rc == ph.seen then Set(s, p, c.(rc := c.rc - 1), h, Detached(ph.val))
      else s.(handles := s.handles[h := Swapping(p, c.rc, ph.val)])
    case Release(h) =>
      if c.rc == 1 then Set(s, p, c.(rc := 0), h, Freeing(p))
      else s.(heap := s.heap[p := c.(rc := c.rc - 1)], handles := s.handles - {h})
    case Free(h) =>
      s.(heap := s.heap[p := c.(live := false)], handles := s.handles - {h}, freed := s.freed + multiset{p})
  }

  /** Following a pointer to memory that is not allocated is a fault. */
  lemma DanglingFaults<T(!new)>(s: System<T>, a: Action<T>)
    requires Enabled(s, a) && !a.Create? && !a.Attach? && !Allocated(s, s.handles[a.h].at)
    ensures Step(s, a).fault
  {
  }

  // ---------- the invariant ----------

  /** An allocated payload counts its handles; at zero, exactly one of them is freeing it. */
  ghost predicate CountOk<T(!new)>(s: System<T>, p: nat)
    requires p in s.heap
  {
    s.heap[p].live ==>
      && s.heap[p].rc == |Users(s.handles, p)|
      && |Freers(s.handles, p)| == (if s.heap[p].rc == 0 then 1 else 0)
  }

  /** Every pointer a handle can still follow leads to an allocated payload. */
  ghost predicate HandleOk<T(!new)>(s: System<T>, h: nat)
    requires h in s.handles
  {
    var ph := s.handles[h];
    && (!ph.Detached? ==> Allocated(s, ph.at))
    && (ph.Swapping? && ph.seen == 1 ==> Users(s.handles, ph.at) == {h})
  }

  ghost predicate Counts<T(!new)>(s: System<T>) {
    forall p | p in s.heap :: CountOk(s, p)
  }

  ghost predicate Handles<T(!new)>(s: System<T>) {
    forall h | h in s.handles :: HandleOk(s, h)
  }

  /** Every allocation of an address has been freed once, but for the one in use. */
  ghost predicate FreedOnce<T(!new)>(s: System<T>) {
    forall p: nat :: s.allocs[p] == s.freed[p] + if Allocated(s, p) then 1 else 0
  }

  ghost predicate Inv<T(!new)>(s: System<T>) {
    Counts(s) && Handles(s) && FreedOnce(s) && !s.fault
  }

  // ---------- one handle changes ----------

  lemma UsersSet<T>(hs: map<nat, Phase<T>>, h: nat, ph: Phase<T>, p: nat)
    ensures Users(hs[h := ph], p) == if Attached(ph, p) then Users(hs, p) + {h} else Users(hs, p) - {h}
    ensures Freers(hs[h := ph], p) == if ph == Freeing(p) then Freers(hs, p) + {h} else Freers(hs, p) - {h}
  {
  }

  lemma UsersDrop<T>(hs: map<nat, Phase<T>>, h: nat, p: nat)
    ensures Users(hs - {h}, p) == Users(hs, p) - {h} && Freers(hs - {h}, p) == Freers(hs, p) - {h}
  {
  }

  lemma OneMember(s: set<nat>, h: nat)
    requires h in s
    ensures |s - {h}| == |s| - 1 && |s| >= 1
    ensures |s| == 1 ==> s == {h}
  {
    assert s == (s - {h}) + {h};
    if |s| == 1 {
      assert s - {h} == {};
    }
  }

  /** A change to payload p by handle h whose pointers before and after lead only to p leaves
      every other payload's books and every other handle's pointer as they were. */
  ghost predicate Local<T(!new)>(s: System<T>, s': System<T>, p: nat, h: nat) {
    && (forall q | q != p :: (q in s'.heap <==> q in s.heap) && (q in s.heap ==> s'.heap[q] == s.heap[q]))
    && (forall q | q != p :: Users(s'.handles, q) == Users(s.handles, q) && Freers(s'.handles, q) == Freers(s.handles, q))
    && (forall k | k != h :: (k in s'.handles <==> k in s.handles) && (k in s.handles ==> s'.handles[k] == s.handles[k]))
  }

  /** The handles at p other than h. */
  function Others<T>(hs: map<nat, Phase<T>>, p: nat, h: nat): set<nat> {
    Users(hs, p) + Freers(hs, p) - {h}
  }

  lemma SetIsLocal<T(!new)>(s: System<T>, p: nat, c: Payload<T>, h: nat, ph: Phase<T>)
    requires h in s.handles && !s.handles[h].Detached? ==> s.handles[h].at == p
    requires !ph.Detached? ==> ph.at == p
    ensures Local(s, Set(s, p, c, h, ph), p, h)
  {
    forall q | q != p ensures Users(s.handles[h := ph], q) == Users(s.handles, q)
                           && Freers(s.handles[h := ph], q) == Freers(s.handles, q) {
      UsersSet(s.handles, h, ph, q);
    }
  }

  lemma DropIsLocal<T(!new)>(s: System<T>, p: nat, c: Payload<T>, h: nat)
    requires h in s.handles && !s.handles[h].Detached? && s.handles[h].at == p
    ensures Local(s, s.(heap := s.heap[p := c], handles := s.handles - {h}), p, h)
  {
    forall q | q != p ensures Users(s.handles - {h}, q) == Users(s.handles, q)
                           && Freers(s.handles - {h}, q) == Freers(s.handles, q) {
      UsersDrop(s.handles, h, q);
    }
  }

  /** A local change keeps the books when they are right at p, at h and at p's other handles. */
  lemma LocalKeepsInv<T(!new)>(s: System<T>, s': System<T>, p: nat, h: nat)
    requires Inv(s) && Local(s, s', p, h) && p in s'.heap && CountOk(s', p)
    requires h in s'.handles ==> HandleOk(s', h)
    requires forall k | k in Others(s.handles, p, h) :: HandleOk(s', k)
    requires FreedOnce(s') && !s'.fault
    ensures Inv(s')
  {
    assert forall k | k in s.handles && k != h && !s.handles[k].Detached? && s.handles[k].at == p ::
        k in Others(s.handles, p, h);
    hide Users, Freers, FreedOnce, Others;
    forall q | q in s'.heap ensures CountOk(s', q) {
      if q != p { assert CountOk(s, q); }
    }
    forall k | k in s'.handles ensures HandleOk(s', k) {
      if k != h { assert HandleOk(s, k); }
    }
  }

  lemma BooksAfterSet<T(!new)>(s: System<T>, p: nat, c: Payload<T>, h: nat, ph: Phase<T>)
    requires FreedOnce(s) && Allocated(s, p) && c.live
    ensures FreedOnce(Set(s, p, c, h, ph)) && FreedOnce(s.(heap := s.heap[p := c], handles := s.handles - {h}))
  {
  }

  lemma NobodyAtUnknown<T(!new)>(s: System<T>, p: nat)
    requires Handles(s) && !Allocated(s, p)
    ensures Users(s.handles, p) == {} && Freers(s.handles, p) == {}
  {
    forall h | h in s.handles ensures !Attached(s.handles[h], p) && s.handles[h] != Freeing(p) {
      assert HandleOk(s, h);
    }
  }

  /** A fresh payload for a handle that points nowhere: first creation, and the end of emplace. */
  lemma FreshKeepsInv<T(!new)>(s: System<T>, h: nat, val: T, p: nat)
    requires Inv(s) && !Allocated(s, p) && (h in s.handles ==> s.handles[h].Detached?)
    ensures Inv(Alloc(s, h, val, p))
  {
    var s' := Alloc(s, h, val, p);
    NobodyAtUnknown(s, p);
    UsersSet(s.handles, h, Idle(p), p);
    SetIsLocal(s, p, Payload(val, 1, true), h, Idle(p));
    assert Local(s, s', p, h);
    hide Local;
    assert CountOk(s', p) && HandleOk(s', h);
    assert Others(s.handles, p, h) == {};
    LocalKeepsInv(s, s', p, h);
  }

  /** No other handle can have seen a count of one while this one shares the payload. */
  lemma NotAlone<T(!new)>(s: System<T>, h: nat, k: nat)
    requires Inv(s) && h in s.handles && (s.handles[h].Idle? || s.handles[h].Swapping?) && k in s.handles && k != h
    ensures !s.handles[k].Detached? ==> Allocated(s, s.handles[k].at)
    ensures s.handles[k].Swapping? && s.handles[k].at == s.handles[h].at ==> s.handles[k].seen != 1
  {
    assert HandleOk(s, k) && h in Users(s.handles, s.handles[h].at);
  }

  lemma CloneCount<T(!new)>(s: System<T>, h: nat, copy: nat)
    requires Inv(s) && Enabled(s, Clone(h, copy))
    ensures Allocated(s, s.handles[h].at)
    ensures var p := s.handles[h].at;
            var s' := Set(s, p, s.heap[p].(rc := s.heap[p].rc + 1), copy, Idle(p));
            CountOk(s', p) && HandleOk(s', copy) && HandleOk(s', h)
  {
    var p := s.handles[h].at;
    assert HandleOk(s, h) && CountOk(s, p) && h in Users(s.handles, p);
    UsersSet(s.handles, copy, Idle(p), p);
    OneMember(Users(s.handles, p), h);
  }

  lemma CloneKeepsInv<T(!new)>(s: System<T>, h: nat, copy: nat)
    requires Inv(s) && Enabled(s, Clone(h, copy))
    ensures Inv(Step(s, Clone(h, copy)))
  {
    hide Local, Inv, CountOk;
    var p := s.handles[h].at;
    CloneCount(s, h, copy);
    var s' := Set(s, p, s.heap[p].(rc := s.heap[p].rc + 1), copy, Idle(p));
    SetIsLocal(s, p, s'.heap[p], copy, Idle(p));
    forall k | k in Others(s.handles, p, copy) ensures HandleOk(s', k) {
      if k != h { NotAlone(s, h, k); }
    }
    InvBooks(s);
    BooksAfterSet(s, p, s'.heap[p], copy, Idle(p));
    LocalKeepsInv(s, s', p, copy);
  }

  lemma InvBooks<T(!new)>(s: System<T>)
    requires Inv(s)
    ensures FreedOnce(s) && !s.fault
  {
  }

  lemma LoadKeepsInv<T(!new)>(s: System<T>, h: nat, val: T)
    requires Inv(s) && Enabled(s, Load(h, val))
    ensures Inv(Step(s, Load(h, val)))
  {
    var p := s.handles[h].at;
    assert HandleOk(s, h) && CountOk(s, p);
    RetryKeepsInv(s, h, val);
  }

  /** Entering emplace, or going round its loop, with the count just seen. */
  lemma RetryKeepsInv<T(!new)>(s: System<T>, h: nat, val: T)
    requires Inv(s) && h in s.handles && (s.handles[h].Idle? || s.handles[h].Swapping?)
    requires Allocated(s, s.handles[h].at)
    ensures var p := s.handles[h].at; Inv(s.(handles := s.handles[h := Swapping(p, s.heap[p].rc, val)]))
  {
    hide Local, Inv, CountOk;
    var p := s.handles[h].at;
    var ph := Swapping(p, s.heap[p].rc, val);
    var s' := s.(handles := s.handles[h := ph]);
    RetryCount(s, h, val);
    assert s' == Set(s, p, s.heap[p], h, ph) by { assert s.heap[p := s.heap[p]] == s.heap; }
    SetIsLocal(s, p, s.heap[p], h, ph);
    forall k | k in Others(s.handles, p, h) ensures HandleOk(s', k) {
      NotAlone(s, h, k);
    }
    InvBooks(s);
    BooksAfterSet(s, p, s.heap[p], h, ph);
    LocalKeepsInv(s, s', p, h);
  }

  lemma RetryCount<T(!new)>(s: System<T>, h: nat, val: T)
    requires Inv(s) && h in s.handles && (s.handles[h].Idle? || s.handles[h].Swapping?)
    requires Allocated(s, s.handles[h].at)
    ensures var p := s.handles[h].at;
            var s' := s.(handles := s.handles[h := Swapping(p, s.heap[p].rc, val)]);
            CountOk(s', p) && HandleOk(s', h)
  {
    var p := s.handles[h].at;
    assert CountOk(s, p) && h in Users(s.handles, p);
    UsersSet(s.handles, h, Swapping(p, s.heap[p].rc, val), p);
    OneMember(Users(s.handles, p), h);
    assert Users(s.handles, p) + {h} == Users(s.handles, p) && Freers(s.handles, p) - {h} == Freers(s.handles, p);
  }

  /** Overwriting in place: the handle is the payload's only one. */
  lemma WriteKeepsInv<T(!new)>(s: System<T>, h: nat)
    requires Inv(s) && Enabled(s, Exchange(h)) && s.handles[h].seen == 1
    ensures Inv(Step(s, Exchange(h)))
  {
    hide Local, FreedOnce;
    var p := s.handles[h].at;
    assert HandleOk(s, h) && CountOk(s, p);
    var s' := Set(s, p, s.heap[p].(data := s.handles[h].val), h, Idle(p));
    UsersSet(s.handles, h, Idle(p), p);
    SetIsLocal(s, p, s'.heap[p], h, Idle(p));
    assert Others(s.handles, p, h) == {};
    BooksAfterSet(s, p, s'.heap[p], h, Idle(p));
    LocalKeepsInv(s, s', p, h);
  }

  /** Giving up a share that is not the last: emplace's successful exchange. */
  lemma DetachKeepsInv<T(!new)>(s: System<T>, h: nat)
    requires Inv(s) && Enabled(s, Exchange(h)) && s.handles[h].seen != 1
    requires Allocated(s, s.handles[h].at) && s.heap[s.handles[h].at].rc == s.handles[h].seen
    ensures Inv(Step(s, Exchange(h)))
  {
    hide Local, Inv, CountOk;
    var p := s.handles[h].at;
    var ph := Detached(s.handles[h].val);
    var s' := Set(s, p, s.heap[p].(rc := s.heap[p].rc - 1), h, ph);
    LeaveCount(s, h);
    UsersSet(s.handles, h, ph, p);
    UsersDrop(s.handles, h, p);
    CountByUsers(s', p, s.handles - {h});
    SetIsLocal(s, p, s'.heap[p], h, ph);
    forall k | k in Others(s.handles, p, h) ensures HandleOk(s', k) {
      NotAlone(s, h, k);
    }
    InvBooks(s);
    BooksAfterSet(s, p, s'.heap[p], h, ph);
    LocalKeepsInv(s, s', p, h);
  }

  /** The books after an attached handle that is not the last has let go. */
  lemma LeaveCount<T(!new)>(s: System<T>, h: nat)
    requires Inv(s) && h in s.handles && (s.handles[h].Idle? || s.handles[h].Swapping?)
    requires Allocated(s, s.handles[h].at) && s.heap[s.handles[h].at].rc != 1
    ensures var p := s.handles[h].at;
            && s.heap[p].rc - 1 == |Users(s.handles - {h}, p)| && s.heap[p].rc > 1
            && Freers(s.handles - {h}, p) == {}
  {
    var p := s.handles[h].at;
    assert CountOk(s, p) && h in Users(s.handles, p);
    UsersDrop(s.handles, h, p);
    OneMember(Users(s.handles, p), h);
  }

  lemma CountByUsers<T(!new)>(s: System<T>, p: nat, hs: map<nat, Phase<T>>)
    requires p in s.heap && s.heap[p].rc > 0 && s.heap[p].rc == |Users(hs, p)| && Freers(hs, p) == {}
    requires Users(s.handles, p) == Users(hs, p) && Freers(s.handles, p) == Freers(hs, p)
    ensures CountOk(s, p)
  {
  }

  /** Dropping a share that is not the last. */
  lemma DropKeepsInv<T(!new)>(s: System<T>, h: nat)
    requires Inv(s) && Enabled(s, Release(h)) && Allocated(s, s.handles[h].at) && s.heap[s.handles[h].at].rc != 1
    ensures Inv(Step(s, Release(h)))
  {
    hide Local, Inv, CountOk;
    var p := s.handles[h].at;
    var s' := s.(heap := s.heap[p := s.heap[p].(rc := s.heap[p].rc - 1)], handles := s.handles - {h});
    LeaveCount(s, h);
    CountByUsers(s', p, s.handles - {h});
    DropIsLocal(s, p, s'.heap[p], h);
    forall k | k in Others(s.handles, p, h) ensures HandleOk(s', k) {
      NotAlone(s, h, k);
    }
    InvBooks(s);
    BooksAfterSet(s, p, s'.heap[p], h, Idle(p));
    LocalKeepsInv(s, s', p, h);
  }

  /** Dropping the last share: the payload stays until this handle frees it. */
  lemma LastDropKeepsInv<T(!new)>(s: System<T>, h: nat)
    requires Inv(s) && Enabled(s, Release(h)) && s.handles[h].at in s.heap && s.heap[s.handles[h].at].rc == 1
    ensures Inv(Step(s, Release(h)))
  {
    hide Local, FreedOnce;
    var p := s.handles[h].at;
    assert HandleOk(s, h) && CountOk(s, p);
    var s' := Set(s, p, s.heap[p].(rc := 0), h, Freeing(p));
    UsersSet(s.handles, h, Freeing(p), p);
    SetIsLocal(s, p, s'.heap[p], h, Freeing(p));
    assert h in Users(s.handles, p);
    OneMember(Users(s.handles, p), h);
    assert Others(s.handles, p, h) == {};
    BooksAfterSet(s, p, s'.heap[p], h, Freeing(p));
    LocalKeepsInv(s, s', p, h);
  }

  lemma FreeKeepsInv<T(!new)>(s: System<T>, h: nat)
    requires Inv(s) && Enabled(s, Free(h))
    ensures Inv(Step(s, Free(h)))
  {
    var p := s.handles[h].at;
    assert HandleOk(s, h) && CountOk(s, p);
    var s' := Step(s, Free(h));
    assert h in Freers(s.handles, p);
    OneMember(Freers(s.handles, p), h);
    UsersDrop(s.handles, h, p);
    DropIsLocal(s, p, s'.heap[p], h);
    assert Others(s.handles, p, h) == {};
    LocalKeepsInv(s, s', p, h);
  }

  // ---------- all steps, all runs ----------

  lemma ExchangeKeepsInv<T(!new)>(s: System<T>, h: nat)
    requires Inv(s) && Enabled(s, Exchange(h))
    ensures Inv(Step(s, Exchange(h)))
  {
    var ph := s.handles[h];
    assert HandleOk(s, h);
    if ph.seen == 1 {
      WriteKeepsInv(s, h);
    } else if s.heap[ph.at].rc == ph.seen {
      DetachKeepsInv(s, h);
    } else {
      RetryKeepsInv(s, h, ph.val);
    }
  }

  lemma StepKeepsInv<T(!new)>(s: System<T>, a: Action<T>)
    requires Inv(s) && Enabled(s, a)
    ensures Inv(Step(s, a))
  {
    match a
    case Create(h, val, p) => FreshKeepsInv(s, h, val, p);
    case Clone(h, copy) => CloneKeepsInv(s, h, copy);
    case Load(h, val) => LoadKeepsInv(s, h, val);
    case Exchange(h) => ExchangeKeepsInv(s, h);
    case Attach(h, p) => FreshKeepsInv(s, h, s.handles[h].val, p);
    case Release(h) =>
      assert HandleOk(s, h);
      if s.heap[s.handles[h].at].rc == 1 { LastDropKeepsInv(s, h); } else { DropKeepsInv(s, h); }
    case Free(h) => FreeKeepsInv(s, h);
  }

  function Init<T>(): System<T> {
    System(map[], map[], multiset{}, multiset{}, false)
  }

  /** A run of interleaved steps, each enabled where it is taken. */
  ghost predicate IsRun<T(!new)>(s: System<T>, acts: seq<Action<T>>, s': System<T>)
    decreases |acts|
  {
    if acts == [] then s' == s
    else Enabled(s, acts[0]) && IsRun(Step(s, acts[0]), acts[1..], s')
  }

  lemma {:induction false} RunsKeepInv<T(!new)>(s: System<T>, acts: seq<Action<T>>, s': System<T>)
    requires Inv(s) && IsRun(s, acts, s')
    ensures Inv(s')
    decreases |acts|
  {
    if acts != [] {
      StepKeepsInv(s, acts[0]);
      RunsKeepInv(Step(s, acts[0]), acts[1..], s');
    }
  }

  /** Over every run from nothing, with addresses reused at will: no step touched a freed
      payload, the count of a payload in use is the number of its handles, every allocation
      of an address is freed once and none twice, and what no handle reaches has been freed. */
  lemma EveryRunIsSafe<T(!new)>(acts: seq<Action<T>>, s: System<T>, p: nat)
    requires IsRun(Init(), acts, s)
    ensures !s.fault && s.freed[p] <= s.allocs[p] <= s.freed[p] + 1
    ensures Allocated(s, p) ==> s.heap[p].rc == |Users(s.handles, p)|
    ensures s.freed[p] == s.allocs[p] <==> Users(s.handles, p) == {} && Freers(s.handles, p) == {}
  {
    RunsKeepInv(Init(), acts, s);
    if Allocated(s, p) {
      assert CountOk(s, p);
    } else {
      NobodyAtUnknown(s, p);
    }
  }

  /** When a payload is freed, no other handle points to it. */
  lemma LastHandleFrees<T(!new)>(s: System<T>, h: nat)
    requires Inv(s) && Enabled(s, Free(h))
    ensures Others(s.handles, s.handles[h].at, h) == {}
    ensures Step(s, Free(h)).freed == s.freed + multiset{s.handles[h].at}
  {
    var p := s.handles[h].at;
    assert HandleOk(s, h) && CountOk(s, p);
    assert h in Freers(s.handles, p);
    OneMember(Freers(s.handles, p), h);
  }

  /** What a handle dereferences to. */
  function Value<T(!new)>(s: System<T>, k: nat): T
    requires Inv(s) && k in s.handles && (s.handles[k].Idle? || s.handles[k].Swapping?)
  {
    assert HandleOk(s, k);
    s.heap[s.handles[k].at].data
  }

  /** Handle k is in the same phase with the same payload, holding the same data. */
  ghost predicate SeesSame<T(!new)>(s: System<T>, s': System<T>, k: nat)
    requires k in s.handles
  {
    var ph := s.handles[k];
    && k in s'.handles && s'.handles[k] == ph
    && (ph.Idle? || ph.Swapping? ==>
          ph.at in s.heap && ph.at in s'.heap && s'.heap[ph.at].data == s.heap[ph.at].data)
  }

  /** No step of one handle changes what another handle is or what it dereferences to. */
  lemma OthersSeeTheSame<T(!new)>(s: System<T>, a: Action<T>, k: nat)
    requires Inv(s) && Enabled(s, a) && k != a.h && k in s.handles
    ensures SeesSame(s, Step(s, a), k)
  {
    hide Inv, Step;
    PointersApart(s, a.h, k);
    HandleStays(s, a, k);
    if s.handles[k].Idle? || s.handles[k].Swapping? {
      DataStays(s, a, s.handles[k].at);
    }
  }

  lemma HandleStays<T(!new)>(s: System<T>, a: Action<T>, k: nat)
    requires Enabled(s, a) && k in s.handles && k != a.h
    ensures k in Step(s, a).handles && Step(s, a).handles[k] == s.handles[k]
  {
  }

  /** Only a handle that saw a count of one changes a payload's data in place. */
  lemma DataStays<T(!new)>(s: System<T>, a: Action<T>, q: nat)
    requires Enabled(s, a) && Allocated(s, q)
    ensures q in Step(s, a).heap
    ensures Step(s, a).heap[q].data == s.heap[q].data
            || (a.Exchange? && s.handles[a.h].seen == 1 && s.handles[a.h].at == q)
  {
    match a
    case Create(_, _, p) =>
    case Attach(_, p) =>
    case _ =>
  }

  /** Other handles' pointers are good, and none shares a payload with one that saw a count
      of one. */
  lemma PointersApart<T(!new)>(s: System<T>, h: nat, k: nat)
    requires Inv(s) && k in s.handles && k != h
    ensures !s.handles[k].Detached? ==> Allocated(s, s.handles[k].at)
    ensures h in s.handles && !s.handles[h].Detached? ==> Allocated(s, s.handles[h].at)
    ensures h in s.handles && s.handles[h].Swapping? && s.handles[h].seen == 1 ==> !Attached(s.handles[k], s.handles[h].at)
  {
    assert HandleOk(s, k);
    assert forall p | Attached(s.handles[k], p) :: k in Users(s.handles, p);
    assert h in s.handles ==> HandleOk(s, h);
  }

  /** Steps of other threads between two atomic steps of a call on h: those that belong to
      another handle and are enabled when their turn comes. */
  function Interfere<T(!new)>(s: System<T>, acts: seq<Action<T>>, h: nat): System<T>
    decreases |acts|
  {
    if acts == [] then s
    else if acts[0].h != h && Enabled(s, acts[0]) then Interfere(Step(s, acts[0]), acts[1..], h)
    else Interfere(s, acts[1..], h)
  }

  ghost predicate ActsFor<T(!new)>(acts: seq<Action<T>>, k: nat) {
    exists i | 0 <= i < |acts| :: acts[i].h == k
  }

  lemma {:induction false} InterfereKeeps<T(!new)>(s: System<T>, acts: seq<Action<T>>, h: nat)
    requires Inv(s)
    ensures Inv(Interfere(s, acts, h))
    decreases |acts|
  {
    if acts != [] {
      if acts[0].h != h && Enabled(s, acts[0]) {
        StepKeepsInv(s, acts[0]);
        InterfereKeeps(Step(s, acts[0]), acts[1..], h);
      } else {
        InterfereKeeps(s, acts[1..], h);
      }
    }
  }

  lemma {:induction false} InterfereSeesSame<T(!new)>(s: System<T>, acts: seq<Action<T>>, h: nat, k: nat)
    requires Inv(s) && k in s.handles && (k == h || !ActsFor(acts, k))
    ensures SeesSame(s, Interfere(s, acts, h), k)
    decreases |acts|
  {
    if acts == [] {
      assert HandleOk(s, k);
    } else {
      assert acts[0].h == k ==> ActsFor(acts, k);
      assert forall i | 0 <= i < |acts[1..]| :: acts[1..][i] == acts[i + 1];
      if acts[0].h != h && Enabled(s, acts[0]) {
        var s1 := Step(s, acts[0]);
        StepKeepsInv(s, acts[0]);
        OthersSeeTheSame(s, acts[0], k);
        InterfereSeesSame(s1, acts[1..], h, k);
      } else {
        InterfereSeesSame(s, acts[1..], h, k);
      }
    }
  }

  /** Handle k takes no step while the call runs. */
  ghost predicate Bystander<T(!new)>(others: seq<seq<Action<T>>>, k: nat) {
    forall i | 0 <= i < |others| :: !ActsFor(others[i], k)
  }

  /** Every bystander other than h sees in s' what it saw in s. */
  ghost predicate Undisturbed<T(!new)>(s: System<T>, s': System<T>, h: nat, others: seq<seq<Action<T>>>) {
    forall k | k in s.handles && k != h && Bystander(others, k) :: SeesSame(s, s', k)
  }

  lemma NothingDisturbed<T(!new)>(s: System<T>, h: nat, others: seq<seq<Action<T>>>)
    requires Inv(s)
    ensures Undisturbed(s, s, h, others)
  {
    assert forall k | k in s.handles :: HandleOk(s, k);
  }

  lemma StepUndisturbed<T(!new)>(s0: System<T>, s: System<T>, a: Action<T>, others: seq<seq<Action<T>>>)
    requires Inv(s) && Enabled(s, a) && Undisturbed(s0, s, a.h, others)
    ensures Undisturbed(s0, Step(s, a), a.h, others)
  {
    hide Inv, Step, Enabled;
    forall k | k in s0.handles && k != a.h && Bystander(others, k) ensures SeesSame(s0, Step(s, a), k) {
      OthersSeeTheSame(s, a, k);
    }
  }

  lemma InterfereUndisturbed<T(!new)>(s0: System<T>, s: System<T>, h: nat, others: seq<seq<Action<T>>>, i: nat)
    requires Inv(s) && Undisturbed(s0, s, h, others) && i < |others|
    ensures Undisturbed(s0, Interfere(s, others[i], h), h, others)
  {
    hide Inv, Interfere;
    forall k | k in s0.handles && k != h && Bystander(others, k)
      ensures SeesSame(s0, Interfere(s, others[i], h), k)
    {
      InterfereSeesSame(s, others[i], h, k);
    }
  }

  lemma FreeAddress<T>(s: System<T>)
    ensures exists p: nat :: !Allocated(s, p)
  {
    IntSets.HasMax(s.heap.Keys);
    if s.heap.Keys == {} {
      assert !Allocated(s, 0);
    } else {
      var k :| k in s.heap.Keys && forall j | j in s.heap.Keys :: j <= k;
      assert !Allocated(s, k + 1);
    }
  }

  /** While a handle points to an address, no step of another one allocates or frees it. */
  lemma BooksStay<T(!new)>(s: System<T>, a: Action<T>, h: nat)
    requires Inv(s) && Enabled(s, a) && a.h != h && h in s.handles && !s.handles[h].Detached?
    ensures var p := s.handles[h].at; Step(s, a).allocs[p] == s.allocs[p] && Step(s, a).freed[p] == s.freed[p]
  {
    assert HandleOk(s, h);
    hide Inv, Others;
    if a.Free? {
      LastHandleFrees(s, a.h);
      PointerIsOther(s.handles, h, a.h);
    }
  }

  lemma PointerIsOther<T(!new)>(hs: map<nat, Phase<T>>, h: nat, k: nat)
    requires h in hs && h != k && !hs[h].Detached?
    ensures h in Others(hs, hs[h].at, k)
  {
  }

  lemma {:induction false} InterfereKeepsBooks<T(!new)>(s: System<T>, acts: seq<Action<T>>, h: nat)
    requires Inv(s) && h in s.handles && !s.handles[h].Detached?
    ensures var p, s' := s.handles[h].at, Interfere(s, acts, h);
            s'.allocs[p] == s.allocs[p] && s'.freed[p] == s.freed[p]
    decreases |acts|
  {
    if acts != [] {
      if acts[0].h != h && Enabled(s, acts[0]) {
        StepKeepsInv(s, acts[0]);
        OthersSeeTheSame(s, acts[0], h);
        BooksStay(s, acts[0], h);
        hide Inv, Step, Enabled;
        InterfereKeepsBooks(Step(s, acts[0]), acts[1..], h);
      } else {
        hide Inv, Step, Enabled;
        InterfereKeepsBooks(s, acts[1..], h);
      }
    }
  }

  lemma ReleaseFacts<T(!new)>(s: System<T>, h: nat)
    requires Inv(s) && h in s.handles && s.handles[h].Idle?
    ensures var p := s.handles[h].at;
            var s' := Step(s, Release(h));
            && s'.allocs == s.allocs && s'.freed == s.freed
            && if Users(s.handles, p) == {h} then h in s'.handles && s'.handles[h] == Freeing(p)
               else h !in s'.handles && Allocated(s', p)
  {
    var p := s.handles[h].at;
    assert HandleOk(s, h) && CountOk(s, p) && h in Users(s.handles, p);
    OneMember(Users(s.handles, p), h);
  }

  lemma FreeFacts<T(!new)>(s: System<T>, h: nat)
    requires Inv(s) && h in s.handles && s.handles[h].Freeing?
    ensures var s', p := Step(s, Free(h)), s.handles[h].at;
            h !in s'.handles && !Allocated(s', p) && s'.freed[p] == s.freed[p] + 1 && s'.allocs[p] == s.allocs[p]
  {
    assert HandleOk(s, h);
  }

  /** Handle h is on its way to val, or has arrived. */
  ghost predicate InEmplace<T(!new)>(s: System<T>, h: nat, val: T)
    requires h in s.handles
  {
    match s.handles[h]
    case Idle(p) => p in s.heap && s.heap[p].data == val
    case Swapping(_, _, v) => v == val
    case Detached(v) => v == val
    case Freeing(_) => false
  }

  /** The count the handle last saw is the count now. */
  ghost predicate Current<T(!new)>(s: System<T>, h: nat)
    requires h in s.handles && s.handles[h].Swapping?
  {
    Allocated(s, s.handles[h].at) && s.handles[h].seen == s.heap[s.handles[h].at].rc
  }

  lemma LoadFacts<T(!new)>(s: System<T>, h: nat, val: T)
    requires Inv(s) && h in s.handles && s.handles[h].Idle?
    ensures var s' := Step(s, Load(h, val));
            h in s'.handles && s'.handles[h].Swapping? && InEmplace(s', h, val) && Current(s', h)
  {
    assert HandleOk(s, h);
  }

  /** The exchange fails only when the count is no longer the one seen. */
  lemma ExchangeFacts<T(!new)>(s: System<T>, h: nat, val: T)
    requires Inv(s) && h in s.handles && s.handles[h].Swapping? && InEmplace(s, h, val)
    ensures var s' := Step(s, Exchange(h));
            && h in s'.handles && InEmplace(s', h, val)
            && (s'.handles[h].Swapping? ==> Current(s', h) && !Current(s, h))
  {
    assert HandleOk(s, h);
  }

  lemma AttachFacts<T(!new)>(s: System<T>, h: nat, p: nat)
    requires h in s.handles && s.handles[h].Detached? && !Allocated(s, p)
    ensures var s' := Step(s, Attach(h, p));
            h in s'.handles && s'.handles[h].Idle? && InEmplace(s', h, s.handles[h].val)
  {
  }

  /** The calls, each with whatever other threads do between its atomic steps. */
  class Shared<T(!new)> {
    var sys: System<T>

    constructor ()
      ensures sys == Init() && Inv(sys)
    {
      sys := Init();
    }

    method New(h: nat, val: T)
      requires Inv(sys) && h !in sys.handles
      modifies this
      ensures Inv(sys) && h in sys.handles && sys.handles[h].Idle? && Value(sys, h) == val
      ensures forall k | k in old(sys).handles :: SeesSame(old(sys), sys, k)
    {
      FreeAddress(sys);
      var p: nat :| !Allocated(sys, p);
      var act := Create(h, val, p);
      StepKeepsInv(sys, act);
      forall k | k in sys.handles ensures SeesSame(sys, Step(sys, act), k) {
        OthersSeeTheSame(sys, act, k);
      }
      sys := Step(sys, act);
    }

    /** The copy sees what the original sees. */
    method CloneTo(h: nat, copy: nat)
      requires Inv(sys) && Enabled(sys, Clone(h, copy))
      modifies this
      ensures Inv(sys) && h in sys.handles && copy in sys.handles
      ensures sys.handles[h] == old(sys).handles[h] && sys.handles[copy] == sys.handles[h]
      ensures Value(sys, copy) == Value(sys, h) == Value(old(sys), h)
      ensures forall k | k in old(sys).handles && k != h :: SeesSame(old(sys), sys, k)
    {
      StepKeepsInv(sys, Clone(h, copy));
      assert HandleOk(sys, h);
      forall k | k in sys.handles && k != h ensures SeesSame(sys, Step(sys, Clone(h, copy)), k) {
        OthersSeeTheSame(sys, Clone(h, copy), k);
      }
      sys := Step(sys, Clone(h, copy));
    }

    /** One atomic step of a call that began in state s0. */
    method Atomic(act: Action<T>, ghost s0: System<T>, ghost others: seq<seq<Action<T>>>)
      requires Inv(sys) && Enabled(sys, act) && Undisturbed(s0, sys, act.h, others)
      modifies this
      ensures sys == Step(old(sys), act) && Inv(sys) && Undisturbed(s0, sys, act.h, others)
    {
      StepKeepsInv(sys, act);
      StepUndisturbed(s0, sys, act, others);
      sys := Step(sys, act);
    }

    /** What others do before the next atomic step of the call on h. */
    method Preempt(h: nat, i: nat, others: seq<seq<Action<T>>>, ghost s0: System<T>)
      requires Inv(sys) && h in sys.handles && Undisturbed(s0, sys, h, others)
      modifies this
      ensures Inv(sys) && SeesSame(old(sys), sys, h) && Undisturbed(s0, sys, h, others)
      ensures var ph := old(sys).handles[h];
              !ph.Detached? ==> sys.allocs[ph.at] == old(sys).allocs[ph.at] && sys.freed[ph.at] == old(sys).freed[ph.at]
      ensures i >= |others| ==> sys == old(sys)
    {
      if i < |others| {
        InterfereKeeps(sys, others[i], h);
        InterfereSeesSame(sys, others[i], h, h);
        InterfereUndisturbed(s0, sys, h, others, i);
        if !sys.handles[h].Detached? {
          InterfereKeepsBooks(sys, others[i], h);
        }
        sys := Interfere(sys, others[i], h);
      } else {
        assert HandleOk(sys, h);
      }
    }

    /** The handle is gone, and its payload with it exactly when no other handle held it;
        bystanders see what they saw. */
    method Drop(h: nat, others: seq<seq<Action<T>>>)
      requires Inv(sys) && h in sys.handles && sys.handles[h].Idle?
      modifies this
      ensures Inv(sys) && h !in sys.handles && Undisturbed(old(sys), sys, h, others)
      ensures var p := old(sys).handles[h].at;
              if Users(old(sys).handles, p) == {h} then !Allocated(sys, p) && sys.freed[p] == old(sys).freed[p] + 1
              else Allocated(sys, p) && sys.freed[p] == old(sys).freed[p]
    {
      NothingDisturbed(sys, h, others);
      ReleaseFacts(sys, h);
      hide Inv, Users, Undisturbed;
      Atomic(Release(h), old(sys), others);
      if h in sys.handles {
        Preempt(h, 0, others, old(sys));
        FreeFacts(sys, h);
        Atomic(Free(h), old(sys), others);
      }
    }

    /** The handle ends with the new value whatever others do before each turn of the exchange
        loop and before the allocation; bystanders see what they saw. */
    method Emplace(h: nat, val: T, others: seq<seq<Action<T>>>)
      requires Inv(sys) && h in sys.handles && sys.handles[h].Idle?
      modifies this
      ensures Inv(sys) && h in sys.handles && sys.handles[h].Idle? && Value(sys, h) == val
      ensures Undisturbed(old(sys), sys, h, others)
    {
      NothingDisturbed(sys, h, others);
      LoadFacts(sys, h, val);
      hide Inv, Step, Undisturbed, Allocated;
      Atomic(Load(h, val), old(sys), others);
      var i := 0;
      while sys.handles[h].Swapping?
        invariant Inv(sys) && h in sys.handles && InEmplace(sys, h, val) && Undisturbed(old(sys), sys, h, others)
        invariant sys.handles[h].Swapping? ==> Current(sys, h) && i <= |others|
        decreases |others| + 1 - i
      {
        Preempt(h, i, others, old(sys));
        ExchangeFacts(sys, h, val);
        Atomic(Exchange(h), old(sys), others);
        i := i + 1;
      }
      if sys.handles[h].Detached? {
        Preempt(h, i, others, old(sys));
        FreeAddress(sys);
        var p: nat :| !Allocated(sys, p);
        AttachFacts(sys, h, p);
        Atomic(Attach(h, p), old(sys), others);
      }
    }
  }
}
