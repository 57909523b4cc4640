/** A task's pending signals: one queue of standard signals guarded by a bitmap against
    duplicates, and one queue per real-time signal number. Signal sets are sets of numbers
    1 to 64. */
module Signals {
  import opened IntSets
  import opened Wrappers

  const SIGKILL: nat := 9
  const SIGSTOP: nat := 19
  const SIGRTMIN: nat := 32
  const SIGRTMAX: nat := 64

  datatype SigInfo = SigInfo(signo: nat, code: int, pid: Option<nat>)

  type SigSet = set<nat>

  datatype Manager = Manager(std: seq<SigInfo>, rt: map<nat, seq<SigInfo>>, bitmap: SigSet, blocked: SigSet)

  const NEW := Manager([], map[], {}, {})

  /** The first signal of a queue whose number is in a set. */
  function FirstIn(queue: seq<SigInfo>, x: SigSet): (i: nat)
    ensures i <= |queue|
    ensures i < |queue| ==> queue[i].signo in x
    ensures forall j | 0 <= j < i :: queue[j].signo !in x
  {
    if queue == [] || queue[0].signo in x then 0 else 1 + FirstIn(queue[1..], x)
  }

  /** The real-time numbers of a set that have something queued. */
  function ReadyRt(rt: map<nat, seq<SigInfo>>, x: SigSet): set<nat> {
    set n | n in rt && n in x && rt[n] != []
  }

  /** Iteration in ascending order stops at the lowest of them. */
  function LowestRt(rt: map<nat, seq<SigInfo>>, x: SigSet): (r: Option<nat>)
    ensures r.None? <==> ReadyRt(rt, x) == {}
    ensures r.Some? ==> r.value in rt && r.value in x && rt[r.value] != []
    ensures r.Some? ==> forall n | n in rt && n in x && rt[n] != [] :: r.value <= n
  {
    var ready := ReadyRt(rt, x);
    assert forall n | n in rt && n in x && rt[n] != [] :: n in ready;
    if ready == {} then None
    else
      HasMin(ready);
      var n :| n in ready && forall k | k in ready :: n <= k;
      Some(n)
  }

  // ---------- the operations ----------

  function Receive(m: Manager, sig: SigInfo): Manager {
    if sig.signo < SIGRTMIN then
      if sig.signo in m.bitmap then m
      else m.(bitmap := m.bitmap + {sig.signo}, std := m.std + [sig])
    else
      var queue := if sig.signo in m.rt then m.rt[sig.signo] else [];
      m.(rt := m.rt[sig.signo := queue + [sig]])
  }

  function CheckPending(m: Manager, expected: SigSet): Option<SigInfo> {
    var x := m.bitmap * expected;
    if x == {} then
      match LowestRt(m.rt, expected)
      case Some(n) => Some(m.rt[n][0])
      case None => None
    else
      var i := FirstIn(m.std, x);
      if i < |m.std| then Some(m.std[i]) else None
  }

  predicate CheckPendingFlag(m: Manager, expected: SigSet) {
    m.bitmap * expected != {} || LowestRt(m.rt, expected).Some?
  }

  function DequeueExpectedOne(m: Manager, expected: SigSet): (Manager, Option<SigInfo>) {
    var x := m.bitmap * expected;
    if x == {} then
      match LowestRt(m.rt, expected)
      case Some(n) => (m.(rt := m.rt[n := m.rt[n][1..]]), Some(m.rt[n][0]))
      case None => (m, None)
    else
      var i := FirstIn(m.std, x);
      if i < |m.std| then
        (m.(bitmap := m.bitmap - {m.std[i].signo}, std := m.std[..i] + m.std[i + 1..]), Some(m.std[i]))
      else (m, None)
  }

  /** All signal numbers a dequeue may deliver: not blocked, or KILL or STOP. */
  function Deliverable(blocked: SigSet): SigSet {
    set n: nat | 1 <= n <= SIGRTMAX && (n !in blocked || n == SIGKILL || n == SIGSTOP)
  }

  /** Real-time signals have no exemption from blocking. */
  function Unblocked(blocked: SigSet): SigSet {
    set n: nat | 1 <= n <= SIGRTMAX && n !in blocked
  }

  /** Standard signals first, rotating the blocked ones to the back; then real-time. */
  function DequeueOne(m: Manager): (Manager, Option<SigInfo>) {
    var i := FirstIn(m.std, Deliverable(m.blocked));
    if i < |m.std| then
      (m.(bitmap := m.bitmap - {m.std[i].signo}, std := m.std[i + 1..] + m.std[..i]), Some(m.std[i]))
    else
      match LowestRt(m.rt, Unblocked(m.blocked))
      case Some(n) => (m.(rt := m.rt[n := m.rt[n][1..]]), Some(m.rt[n][0]))
      case None => (m, None)
  }

  // ---------- the invariant ----------

  predicate Legal(sig: SigInfo) {
    1 <= sig.signo <= SIGRTMAX
  }

  /** The bitmap is exactly the set of queued standard signals, each queued once. */
  ghost predicate StdOk(std: seq<SigInfo>, bitmap: SigSet) {
    && (forall i | 0 <= i < |std| :: 1 <= std[i].signo < SIGRTMIN && std[i].signo in bitmap)
    && (forall i, j | 0 <= i < j < |std| :: std[i].signo != std[j].signo)
    && (forall n | n in bitmap :: exists i :: 0 <= i < |std| && std[i].signo == n)
  }

  /** Every real-time queue holds signals of its own number. */
  ghost predicate RtOk(rt: map<nat, seq<SigInfo>>) {
    forall n | n in rt :: SIGRTMIN <= n <= SIGRTMAX && forall i | 0 <= i < |rt[n]| :: rt[n][i].signo == n
  }

  ghost predicate Inv(m: Manager) {
    StdOk(m.std, m.bitmap) && RtOk(m.rt)
  }

  lemma PushStd(std: seq<SigInfo>, bitmap: SigSet, sig: SigInfo)
    requires StdOk(std, bitmap) && 1 <= sig.signo < SIGRTMIN && sig.signo !in bitmap
    ensures StdOk(std + [sig], bitmap + {sig.signo})
  {
    var std' := std + [sig];
    forall n | n in bitmap + {sig.signo} ensures exists i :: 0 <= i < |std'| && std'[i].signo == n {
      if n == sig.signo {
        assert std'[|std|].signo == n;
      } else {
        var i :| 0 <= i < |std| && std[i].signo == n;
        assert std'[i].signo == n;
      }
    }
  }

  lemma ReceiveKeepsInv(m: Manager, sig: SigInfo)
    requires Inv(m) && Legal(sig)
    ensures Inv(Receive(m, sig))
  {
    if sig.signo < SIGRTMIN {
      if sig.signo !in m.bitmap { PushStd(m.std, m.bitmap, sig); }
    } else {
      hide StdOk;
    }
  }

  /** Taking one standard signal out keeps the invariant whatever the order of the rest:
      `back` says where each remaining signal was, `forth` where it went. */
  lemma TakeStd(std: seq<SigInfo>, bitmap: SigSet, i: nat, std': seq<SigInfo>, back: nat -> nat, forth: nat -> nat)
    requires StdOk(std, bitmap) && i < |std| == |std'| + 1
    requires forall j: nat | j < |std'| :: back(j) < |std| && back(j) != i && forth(back(j)) == j && std'[j] == std[back(j)]
    requires forall k: nat | k < |std| && k != i :: forth(k) < |std'| && back(forth(k)) == k
    ensures StdOk(std', bitmap - {std[i].signo})
  {
    forall j, k | 0 <= j < k < |std'| ensures std'[j].signo != std'[k].signo {
      assert back(j) != back(k);
    }
    forall n | n in bitmap - {std[i].signo} ensures exists j :: 0 <= j < |std'| && std'[j].signo == n {
      var k :| 0 <= k < |std| && std[k].signo == n;
      assert std'[forth(k)].signo == n;
    }
  }

  lemma TakeInPlace(std: seq<SigInfo>, bitmap: SigSet, i: nat)
    requires StdOk(std, bitmap) && i < |std|
    ensures StdOk(std[..i] + std[i + 1..], bitmap - {std[i].signo})
  {
    hide StdOk;
    TakeStd(std, bitmap, i, std[..i] + std[i + 1..],
            j => if j < i then j else j + 1, k => if k <= i then k else k - 1);
  }

  lemma TakeRotated(std: seq<SigInfo>, bitmap: SigSet, i: nat)
    requires StdOk(std, bitmap) && i < |std|
    ensures StdOk(std[i + 1..] + std[..i], bitmap - {std[i].signo})
  {
    hide StdOk;
    var n := |std| - 1 - i;
    TakeStd(std, bitmap, i, std[i + 1..] + std[..i],
            j => if j < n then i + 1 + j else j - n, k => if k > i then k - i - 1 else k + n);
  }

  /** The warning branches cannot be reached: a bit in the map has its signal in the queue. */
  lemma BitMeansQueued(m: Manager, expected: SigSet)
    requires StdOk(m.std, m.bitmap) && m.bitmap * expected != {}
    ensures FirstIn(m.std, m.bitmap * expected) < |m.std|
  {
    var x := m.bitmap * expected;
    var n :| n in x;
    var i :| 0 <= i < |m.std| && m.std[i].signo == n;
    assert m.std[i].signo in x;
  }

  lemma TakeRt(rt: map<nat, seq<SigInfo>>, n: nat)
    requires RtOk(rt) && n in rt && rt[n] != []
    ensures RtOk(rt[n := rt[n][1..]])
  {
  }

  lemma DequeueExpectedKeepsInv(m: Manager, expected: SigSet)
    requires Inv(m)
    ensures Inv(DequeueExpectedOne(m, expected).0)
  {
    hide StdOk, RtOk, FirstIn, LowestRt;
    var x := m.bitmap * expected;
    if x != {} {
      BitMeansQueued(m, expected);
      TakeInPlace(m.std, m.bitmap, FirstIn(m.std, x));
    } else if LowestRt(m.rt, expected).Some? {
      TakeRt(m.rt, LowestRt(m.rt, expected).value);
    }
  }

  lemma DequeueOneKeepsInv(m: Manager)
    requires Inv(m)
    ensures Inv(DequeueOne(m).0)
  {
    hide StdOk, RtOk, FirstIn, LowestRt, Deliverable, Unblocked;
    var i := FirstIn(m.std, Deliverable(m.blocked));
    if i < |m.std| {
      TakeRotated(m.std, m.bitmap, i);
    } else if LowestRt(m.rt, Unblocked(m.blocked)).Some? {
      TakeRt(m.rt, LowestRt(m.rt, Unblocked(m.blocked)).value);
    }
  }

  // ---------- agreement of the queries ----------

  /** Some signal of a set is pending. */
  ghost predicate Pending(m: Manager, x: SigSet) {
    || (exists i :: 0 <= i < |m.std| && m.std[i].signo in x)
    || (exists n :: n in m.rt && n in x && m.rt[n] != [])
  }

  /** The flag, the peek and the dequeue agree with each other and with what is queued, and
      the dequeue hands out exactly the signal the peek shows. */
  lemma QueriesAgree(m: Manager, expected: SigSet)
    requires Inv(m)
    ensures CheckPendingFlag(m, expected) <==> Pending(m, expected)
    ensures CheckPendingFlag(m, expected) <==> CheckPending(m, expected).Some?
    ensures DequeueExpectedOne(m, expected).1 == CheckPending(m, expected)
  {
    var x := m.bitmap * expected;
    if x != {} {
      BitMeansQueued(m, expected);
      assert m.std[FirstIn(m.std, x)].signo in expected;
    } else {
      assert forall n | n in m.bitmap && n in expected :: n in x;
      var r := LowestRt(m.rt, expected);
      assert r.None? ==> forall n | n in m.rt && n in expected && m.rt[n] != [] :: n in ReadyRt(m.rt, expected);
    }
  }

  // ---------- what a dequeue takes ----------

  /** All pending signals, with multiplicity. */
  ghost function Queued(m: Manager, sig: SigInfo): nat {
    multiset(m.std)[sig] + if sig.signo in m.rt then multiset(m.rt[sig.signo])[sig] else 0
  }

  ghost predicate Removes(m: Manager, m': Manager, r: Option<SigInfo>) {
    && m'.blocked == m.blocked
    && forall sig :: Queued(m', sig) == Queued(m, sig) - if r == Some(sig) then 1 else 0
  }

  lemma RotationKeepsBag(std: seq<SigInfo>, i: nat)
    requires i < |std|
    ensures multiset(std[i + 1..] + std[..i]) == multiset(std) - multiset{std[i]}
    ensures multiset(std[..i] + std[i + 1..]) == multiset(std) - multiset{std[i]}
    ensures std[i] in multiset(std)
  {
    assert std == std[..i] + [std[i]] + std[i + 1..];
    assert multiset(std) == multiset(std[..i]) + multiset{std[i]} + multiset(std[i + 1..]);
  }

  lemma HeadLeavesBag(q: seq<SigInfo>)
    requires q != []
    ensures multiset(q[1..]) == multiset(q) - multiset{q[0]} && q[0] in multiset(q)
  {
    assert q == [q[0]] + q[1..];
  }

  lemma StdTakeRemoves(m: Manager, m': Manager, i: nat)
    requires i < |m.std| && m'.rt == m.rt && m'.blocked == m.blocked
    requires multiset(m'.std) == multiset(m.std) - multiset{m.std[i]} && m.std[i] in multiset(m.std)
    ensures Removes(m, m', Some(m.std[i]))
  {
    forall sig ensures Queued(m', sig) == Queued(m, sig) - if m.std[i] == sig then 1 else 0 {
    }
  }

  lemma RtTakeRemoves(m: Manager, n: nat)
    requires n in m.rt && m.rt[n] != [] && m.rt[n][0].signo == n
    ensures Removes(m, m.(rt := m.rt[n := m.rt[n][1..]]), Some(m.rt[n][0]))
  {
    HeadLeavesBag(m.rt[n]);
    var m' := m.(rt := m.rt[n := m.rt[n][1..]]);
    forall sig ensures Queued(m', sig) == Queued(m, sig) - if m.rt[n][0] == sig then 1 else 0 {
    }
  }

  lemma RtHead(rt: map<nat, seq<SigInfo>>, n: nat)
    requires RtOk(rt) && n in rt && rt[n] != []
    ensures rt[n][0].signo == n
  {
  }

  lemma DequeueOneRemoves(m: Manager)
    requires Inv(m)
    ensures var (m', r) := DequeueOne(m); Removes(m, m', r)
  {
    var i := FirstIn(m.std, Deliverable(m.blocked));
    hide StdOk, RtOk, FirstIn, LowestRt, Deliverable, Unblocked;
    if i < |m.std| {
      hide Removes;
      RotationKeepsBag(m.std, i);
      StdTakeRemoves(m, DequeueOne(m).0, i);
    } else {
      var n := LowestRt(m.rt, Unblocked(m.blocked));
      if n.Some? {
        hide Removes;
        RtHead(m.rt, n.value);
        RtTakeRemoves(m, n.value);
      }
    }
  }

  /** The first of a queue whose number is in a set. */
  ghost predicate IsFirstIn(std: seq<SigInfo>, x: SigSet, sig: SigInfo) {
    exists i :: 0 <= i < |std| && std[i] == sig && sig.signo in x && forall j | 0 <= j < i :: std[j].signo !in x
  }

  /** The oldest of the lowest real-time number of a set that is queued, when no standard
      signal of another set is. */
  ghost predicate IsLowestRt(m: Manager, y: SigSet, x: SigSet, sig: SigInfo) {
    && (forall i | 0 <= i < |m.std| :: m.std[i].signo !in y)
    && (forall n | n in m.rt && n in x && m.rt[n] != [] :: sig.signo <= n)
    && sig.signo in x && sig.signo in m.rt && m.rt[sig.signo] != [] && sig == m.rt[sig.signo][0]
  }

  /** A dequeue answers exactly when something deliverable is pending and removes just what
      it answers: the first standard signal that is deliverable; if there is none, the oldest
      of the lowest unblocked real-time number. */
  lemma DequeueOneIsExact(m: Manager)
    requires Inv(m)
    ensures var (m', r) := DequeueOne(m);
            && Removes(m, m', r)
            && (r.Some? <==> (exists i :: 0 <= i < |m.std| && m.std[i].signo in Deliverable(m.blocked))
                             || (exists n :: n in m.rt && n in Unblocked(m.blocked) && m.rt[n] != []))
            && (r.Some? ==> if r.value.signo < SIGRTMIN then IsFirstIn(m.std, Deliverable(m.blocked), r.value)
                            else IsLowestRt(m, Deliverable(m.blocked), Unblocked(m.blocked), r.value))
            && (r.Some? && r.value.signo >= SIGRTMIN ==> m'.rt[r.value.signo] == m.rt[r.value.signo][1..])
  {
    DequeueOneRemoves(m);
    hide Removes, Deliverable, Unblocked, FirstIn;
    if LowestRt(m.rt, Unblocked(m.blocked)).None? {
      assert forall n | n in m.rt && n in Unblocked(m.blocked) && m.rt[n] != [] :: n in ReadyRt(m.rt, Unblocked(m.blocked));
    }
  }

  /** What is handed out is not blocked, unless it is KILL or STOP; when nothing is, all that
      is queued is blocked and neither of the two. */
  lemma BlockedStaysQueued(m: Manager)
    requires Inv(m)
    ensures match DequeueOne(m).1
            case Some(sig) => sig.signo !in m.blocked || sig.signo == SIGKILL || sig.signo == SIGSTOP
            case None =>
              && (forall i | 0 <= i < |m.std| ::
                    m.std[i].signo in m.blocked && m.std[i].signo != SIGKILL && m.std[i].signo != SIGSTOP)
              && (forall n | n in m.rt && m.rt[n] != [] :: n in m.blocked)
  {
    DequeueOneIsExact(m);
  }

  lemma DequeueExpectedIsExact(m: Manager, expected: SigSet)
    requires Inv(m)
    ensures var (m', r) := DequeueExpectedOne(m, expected);
            && Removes(m, m', r)
            && (r.Some? <==> Pending(m, expected))
            && (r.Some? ==> if r.value.signo < SIGRTMIN then IsFirstIn(m.std, expected, r.value)
                            else IsLowestRt(m, expected, expected, r.value))
  {
    QueriesAgree(m, expected);
    ExpectedIsFirst(m, expected);
    DequeueExpectedRemoves(m, expected);
    hide *;
  }

  lemma ExpectedIsFirst(m: Manager, expected: SigSet)
    requires Inv(m)
    ensures var r := DequeueExpectedOne(m, expected).1;
            r.Some? ==> if r.value.signo < SIGRTMIN then IsFirstIn(m.std, expected, r.value)
                        else IsLowestRt(m, expected, expected, r.value)
  {
    var x := m.bitmap * expected;
    hide FirstIn, LowestRt;
    if x != {} {
      BitMeansQueued(m, expected);
      var i := FirstIn(m.std, x);
      assert forall j | 0 <= j < i :: m.std[j].signo !in expected;
    } else {
      assert forall i | 0 <= i < |m.std| :: m.std[i].signo in expected ==> m.std[i].signo in x;
    }
  }

  lemma DequeueExpectedRemoves(m: Manager, expected: SigSet)
    requires Inv(m)
    ensures var (m', r) := DequeueExpectedOne(m, expected); Removes(m, m', r)
  {
    hide StdOk, RtOk, FirstIn, LowestRt;
    var x := m.bitmap * expected;
    if x != {} {
      hide Removes;
      BitMeansQueued(m, expected);
      var i := FirstIn(m.std, x);
      RotationKeepsBag(m.std, i);
      StdTakeRemoves(m, DequeueExpectedOne(m, expected).0, i);
    } else {
      var n := LowestRt(m.rt, expected);
      if n.Some? {
        hide Removes;
        RtHead(m.rt, n.value);
        RtTakeRemoves(m, n.value);
      }
    }
  }

  // ---------- runs ----------

  datatype Call = Arrives(sig: SigInfo) | Blocks(x: SigSet) | TakesOne | TakesExpected(x: SigSet)

  predicate LegalCall(c: Call) {
    c.Arrives? ==> Legal(c.sig)
  }

  function Apply(m: Manager, c: Call): (Manager, Option<SigInfo>) {
    match c
    case Arrives(sig) => (Receive(m, sig), None)
    case Blocks(x) => (m.(blocked := x), None)
    case TakesOne => DequeueOne(m)
    case TakesExpected(x) => DequeueExpectedOne(m, x)
  }

  function Run(m: Manager, calls: seq<Call>): Manager
    decreases |calls|
  {
    if calls == [] then m else Run(Apply(m, calls[0]).0, calls[1..])
  }

  lemma ApplyKeepsInv(m: Manager, c: Call)
    requires Inv(m) && LegalCall(c)
    ensures Inv(Apply(m, c).0)
  {
    match c
    case Arrives(sig) => ReceiveKeepsInv(m, sig);
    case Blocks(_) =>
    case TakesOne => DequeueOneKeepsInv(m);
    case TakesExpected(x) => DequeueExpectedKeepsInv(m, x);
  }

  /** The invariant holds after every sequence of calls on a new manager. */
  lemma {:induction false} RunsKeepInv(m: Manager, calls: seq<Call>)
    requires Inv(m) && forall i | 0 <= i < |calls| :: LegalCall(calls[i])
    ensures Inv(Run(m, calls))
    decreases |calls|
  {
    if calls != [] {
      ApplyKeepsInv(m, calls[0]);
      RunsKeepInv(Apply(m, calls[0]).0, calls[1..]);
    }
  }

  /** The number of plain dequeues in a sequence of calls. */
  function Takes(calls: seq<Call>): nat
    decreases |calls|
  {
    if calls == [] then 0 else (if calls[0] == TakesOne then 1 else 0) + Takes(calls[1..])
  }

  /** Some call of the sequence hands out signal k. */
  predicate Delivers(m: Manager, calls: seq<Call>, k: nat)
    decreases |calls|
  {
    calls != [] &&
    var (m', r) := Apply(m, calls[0]);
    (r.Some? && r.value.signo == k) || Delivers(m', calls[1..], k)
  }

  /** Where signal k stands after a call that did not hand it out. */
  function PositionAfter(m: Manager, c: Call, p: nat): nat
    requires p < |m.std|
  {
    match c
    case TakesOne => var i := FirstIn(m.std, Deliverable(m.blocked)); if i < p then p - i - 1 else p
    case TakesExpected(x) =>
      if m.bitmap * x == {} then p
      else var i := FirstIn(m.std, m.bitmap * x); if i < p then p - 1 else p
    case _ => p
  }

  lemma PositionAfterTake(m: Manager, k: nat, p: nat)
    requires (k == SIGKILL || k == SIGSTOP) && p < |m.std| && m.std[p].signo == k
    requires FirstIn(m.std, Deliverable(m.blocked)) != p
    ensures var m', q := DequeueOne(m).0, PositionAfter(m, TakesOne, p);
            q < |m'.std| && m'.std[q].signo == k && q < p
  {
    assert k in Deliverable(m.blocked);
    assert FirstIn(m.std, Deliverable(m.blocked)) <= p;
  }

  lemma PositionAfterExpected(m: Manager, x: SigSet, p: nat)
    requires Inv(m) && p < |m.std|
    requires m.bitmap * x == {} || FirstIn(m.std, m.bitmap * x) != p
    ensures var m', q := DequeueExpectedOne(m, x).0, PositionAfter(m, TakesExpected(x), p);
            q < |m'.std| && m'.std[q] == m.std[p] && q <= p
  {
    if m.bitmap * x != {} {
      BitMeansQueued(m, x);
    }
  }

  lemma PositionMoves(m: Manager, c: Call, k: nat, p: nat)
    requires Inv(m) && LegalCall(c) && (k == SIGKILL || k == SIGSTOP)
    requires p < |m.std| && m.std[p].signo == k
    requires var r := Apply(m, c).1; !(r.Some? && r.value.signo == k)
    ensures var m', q := Apply(m, c).0, PositionAfter(m, c, p);
            && q < |m'.std| && m'.std[q].signo == k && q <= p
            && (c == TakesOne ==> q < p)
  {
    match c
    case TakesOne =>
      hide Inv;
      PositionAfterTake(m, k, p);
    case TakesExpected(x) =>
      hide Inv;
      PositionAfterExpected(m, x, p);
    case _ =>
      hide Inv;
  }

  /** A queued KILL or STOP is handed out within its queue position plus one dequeues,
      whatever is blocked and whatever arrives in between. */
  lemma {:induction false} KillIsDelivered(m: Manager, calls: seq<Call>, k: nat, p: nat)
    requires Inv(m) && (forall i | 0 <= i < |calls| :: LegalCall(calls[i])) && (k == SIGKILL || k == SIGSTOP)
    requires p < |m.std| && m.std[p].signo == k
    requires Takes(calls) >= p + 1
    ensures Delivers(m, calls, k)
    decreases |calls|
  {
    var (m', r) := Apply(m, calls[0]);
    if !(r.Some? && r.value.signo == k) {
      ApplyKeepsInv(m, calls[0]);
      PositionMoves(m, calls[0], k, p);
      KillIsDelivered(m', calls[1..], k, PositionAfter(m, calls[0], p));
    }
  }

  // ---------- order of delivery ----------

  /** The signals of number n in a sequence, in order. */
  function Of(sigs: seq<SigInfo>, n: nat): seq<SigInfo>
    decreases |sigs|
  {
    if sigs == [] then [] else (if sigs[0].signo == n then [sigs[0]] else []) + Of(sigs[1..], n)
  }

  function Queue(m: Manager, n: nat): seq<SigInfo> {
    if n in m.rt then m.rt[n] else []
  }

  function Arrived(c: Call): seq<SigInfo> {
    if c.Arrives? then [c.sig] else []
  }

  function HandedOut(r: Option<SigInfo>): seq<SigInfo> {
    if r.Some? then [r.value] else []
  }

  /** Everything that arrives in a sequence of calls. */
  function Arrivals(calls: seq<Call>): seq<SigInfo>
    decreases |calls|
  {
    if calls == [] then [] else Arrived(calls[0]) + Arrivals(calls[1..])
  }

  /** Everything a sequence of calls hands out. */
  function Deliveries(m: Manager, calls: seq<Call>): seq<SigInfo>
    decreases |calls|
  {
    if calls == [] then []
    else var (m', r) := Apply(m, calls[0]); HandedOut(r) + Deliveries(m', calls[1..])
  }

  lemma {:induction false} OfSum(a: seq<SigInfo>, b: seq<SigInfo>, n: nat)
    ensures Of(a + b, n) == Of(a, n) + Of(b, n)
    decreases |a|
  {
    if a == [] {
      assert a + b == b;
    } else {
      OfSum(a[1..], b, n);
      assert (a + b)[1..] == a[1..] + b;
    }
  }

  lemma RtTakeInOrder(m: Manager, k: nat, n: nat)
    requires RtOk(m.rt) && k in m.rt && m.rt[k] != []
    ensures Of([m.rt[k][0]], n) + Queue(m.(rt := m.rt[k := m.rt[k][1..]]), n) == Queue(m, n)
  {
    RtHead(m.rt, k);
    assert m.rt[k] == [m.rt[k][0]] + m.rt[k][1..];
  }

  lemma StdIsLow(m: Manager, i: nat, n: nat)
    requires Inv(m) && i < |m.std| && n >= SIGRTMIN
    ensures Of([m.std[i]], n) == []
  {
  }

  lemma ArrivalInOrder(m: Manager, sig: SigInfo, n: nat)
    requires n >= SIGRTMIN
    ensures Queue(Receive(m, sig), n) == Queue(m, n) + Of([sig], n)
  {
  }

  lemma TakeInOrder(m: Manager, n: nat)
    requires Inv(m) && n >= SIGRTMIN
    ensures var (m', r) := DequeueOne(m); Of(HandedOut(r), n) + Queue(m', n) == Queue(m, n)
  {
    var i, k := FirstIn(m.std, Deliverable(m.blocked)), LowestRt(m.rt, Unblocked(m.blocked));
    OfNone(n);
    hide FirstIn, LowestRt, Deliverable, Unblocked, StdOk, RtOk, Of;
    if i < |m.std| {
      StdIsLow(m, i, n);
    } else if k.Some? {
      RtTakeInOrder(m, k.value, n);
    }
  }

  lemma ExpectedInOrder(m: Manager, x: SigSet, n: nat)
    requires Inv(m) && n >= SIGRTMIN
    ensures var (m', r) := DequeueExpectedOne(m, x); Of(HandedOut(r), n) + Queue(m', n) == Queue(m, n)
  {
    var i, k := FirstIn(m.std, m.bitmap * x), LowestRt(m.rt, x);
    OfNone(n);
    hide FirstIn, LowestRt, StdOk, RtOk, Of;
    if m.bitmap * x == {} {
      if k.Some? { RtTakeInOrder(m, k.value, n); }
    } else if i < |m.std| {
      StdIsLow(m, i, n);
    }
  }

  lemma OfNone(n: nat)
    ensures Of([], n) == []
  {
  }

  /** One call: what it hands out of a real-time number, followed by what is then queued, is
      what was queued followed by what arrives. */
  lemma CallInOrder(m: Manager, c: Call, n: nat)
    requires Inv(m) && LegalCall(c) && n >= SIGRTMIN
    ensures var (m', r) := Apply(m, c); Of(HandedOut(r), n) + Queue(m', n) == Queue(m, n) + Of(Arrived(c), n)
  {
    OfNone(n);
    hide Of, Queue, Inv, DequeueOne, DequeueExpectedOne, Receive;
    match c
    case Arrives(sig) => ArrivalInOrder(m, sig, n);
    case Blocks(x) => SameQueue(m, x, n);
    case TakesOne => TakeInOrder(m, n);
    case TakesExpected(x) => ExpectedInOrder(m, x, n);
  }

  lemma SameQueue(m: Manager, x: SigSet, n: nat)
    ensures Queue(m.(blocked := x), n) == Queue(m, n)
  {
  }

  /** Every real-time number is first in, first out over every run: what has been handed out,
      followed by what is queued, is what was queued at first, followed by all arrivals. */
  lemma {:induction false} RealTimeIsFifo(m: Manager, calls: seq<Call>, n: nat)
    requires Inv(m) && (forall i | 0 <= i < |calls| :: LegalCall(calls[i])) && n >= SIGRTMIN
    ensures Of(Deliveries(m, calls), n) + Queue(Run(m, calls), n) == Queue(m, n) + Of(Arrivals(calls), n)
    decreases |calls|
  {
    if calls != [] {
      hide Inv, Apply, Queue;
      var (m', r) := Apply(m, calls[0]);
      ApplyKeepsInv(m, calls[0]);
      CallInOrder(m, calls[0], n);
      RealTimeIsFifo(m', calls[1..], n);
      OfSum(HandedOut(r), Deliveries(m', calls[1..]), n);
      OfSum(Arrived(calls[0]), Arrivals(calls[1..]), n);
      hide Of, Deliveries, Arrivals, Arrived, HandedOut;
      Chain(Of(HandedOut(r), n), Of(Deliveries(m', calls[1..]), n), Queue(Run(m', calls[1..]), n),
            Queue(m', n), Queue(m, n), Of(Arrived(calls[0]), n), Of(Arrivals(calls[1..]), n));
    }
  }

  lemma Chain<T>(out: seq<T>, outs: seq<T>, end: seq<T>, mid: seq<T>, start: seq<T>, came: seq<T>, comes: seq<T>)
    requires out + mid == start + came && outs + end == mid + comes
    ensures (out + outs) + end == start + (came + comes)
  {
    assert (out + outs) + end == out + (outs + end);
    assert out + (mid + comes) == (out + mid) + comes;
    assert (start + came) + comes == start + (came + comes);
  }

  /** An arrival is queued once more, and nothing else is, unless it is a standard signal whose
      number is queued already; then nothing changes. It stands behind those queued. */
  lemma ReceiveIsExact(m: Manager, sig: SigInfo)
    requires Inv(m) && Legal(sig)
    ensures var m', dropped := Receive(m, sig), sig.signo < SIGRTMIN && exists i :: 0 <= i < |m.std| && m.std[i].signo == sig.signo;
            && (dropped ==> m' == m)
            && (!dropped ==> m'.blocked == m.blocked && m.std <= m'.std
                             && forall x :: Queued(m', x) == Queued(m, x) + if x == sig then 1 else 0)
  {
    var m' := Receive(m, sig);
    if sig.signo >= SIGRTMIN || sig.signo !in m.bitmap {
      forall x ensures Queued(m', x) == Queued(m, x) + if x == sig then 1 else 0 {
        assert m'.rt == m.rt || m'.std == m.std;
      }
    }
  }

  lemma LowestIs(rt: map<nat, seq<SigInfo>>, x: SigSet, n: nat)
    requires n in rt && n in x && rt[n] != []
    requires forall k | k in rt && k in x && rt[k] != [] :: n <= k
    ensures LowestRt(rt, x) == Some(n)
  {
    assert n in ReadyRt(rt, x);
  }

  lemma LowestIsNone(rt: map<nat, seq<SigInfo>>, x: SigSet)
    requires forall k | k in rt && k in x :: rt[k] == []
    ensures LowestRt(rt, x) == None
  {
    assert ReadyRt(rt, x) == {};
  }

  lemma DequeueReady(m: Manager)
    requires Inv(m)
    ensures Inv(DequeueOne(m).0) && RtOk(m.rt)
    ensures forall i | 0 <= i < |m.std| :: Legal(m.std[i])
  {
    DequeueOneKeepsInv(m);
  }

  lemma ExpectedReady(m: Manager, expected: SigSet)
    requires Inv(m)
    ensures Inv(DequeueExpectedOne(m, expected).0) && RtOk(m.rt)
  {
    DequeueExpectedKeepsInv(m, expected);
  }

  lemma FirstIs(queue: seq<SigInfo>, x: SigSet, i: nat)
    requires i <= |queue| && (i < |queue| ==> queue[i].signo in x)
    requires forall j | 0 <= j < i :: queue[j].signo !in x
    ensures FirstIn(queue, x) == i
  {
  }

  // ---------- the manager in place ----------

  /** The stages of the two dequeues: rotate the standard queue, pick from it, or take from the
      lowest real-time queue. */
  function RotateStage(m: Manager): (Manager, Option<SigInfo>) {
    var i := FirstIn(m.std, Deliverable(m.blocked));
    if i < |m.std| then
      (Manager(m.std[i + 1..] + m.std[..i], m.rt, m.bitmap - {m.std[i].signo}, m.blocked), Some(m.std[i]))
    else (m, None)
  }

  function PickStage(m: Manager, x: SigSet): (Manager, Option<SigInfo>) {
    var i := FirstIn(m.std, x);
    if i < |m.std| then
      (Manager(m.std[..i] + m.std[i + 1..], m.rt, m.bitmap - {m.std[i].signo}, m.blocked), Some(m.std[i]))
    else (m, None)
  }

  function RtStage(m: Manager, x: SigSet): (Manager, Option<SigInfo>) {
    match LowestRt(m.rt, x)
    case Some(n) => (Manager(m.std, m.rt[n := m.rt[n][1..]], m.bitmap, m.blocked), Some(m.rt[n][0]))
    case None => (m, None)
  }

  lemma DequeueStages(m: Manager)
    ensures DequeueOne(m) ==
            if RotateStage(m).1.Some? then RotateStage(m) else RtStage(RotateStage(m).0, Unblocked(m.blocked))
    ensures RotateStage(m).0.blocked == m.blocked && RotateStage(m).0.rt == m.rt
  {
    hide FirstIn, LowestRt, Deliverable, Unblocked;
  }

  lemma ExpectedStages(m: Manager, expected: SigSet)
    ensures var x := m.bitmap * expected;
            DequeueExpectedOne(m, expected) == if x == {} then RtStage(m, expected) else PickStage(m, x)
  {
    hide FirstIn, LowestRt;
  }

  /** One turn of the rotation: the front signal, what is left, and what going to the back makes
      of it. */
  lemma RotateStep(std: seq<SigInfo>, k: nat)
    requires k < |std|
    ensures var q := std[k..] + std[..k];
            q[0] == std[k] && q[1..] == std[k + 1..] + std[..k] && q[1..] + [q[0]] == std[k + 1..] + std[..k + 1]
  {
    var q := std[k..] + std[..k];
    assert q[1..] == std[k + 1..] + std[..k];
    assert std[..k] + [std[k]] == std[..k + 1];
  }

  lemma DeliverableIff(blocked: SigSet, sig: SigInfo)
    requires Legal(sig)
    ensures sig.signo in Deliverable(blocked) <==> sig.signo == SIGKILL || sig.signo == SIGSTOP || sig.signo !in blocked
  {
  }

  class SigManager {
    var pendingSigs: seq<SigInfo>
    var pendingRtSigs: map<nat, seq<SigInfo>>
    var bitmap: SigSet
    var blockedSigs: SigSet

    ghost function Value(): Manager
      reads this
    {
      Manager(pendingSigs, pendingRtSigs, bitmap, blockedSigs)
    }

    constructor ()
      ensures Value() == NEW && Inv(Value())
    {
      pendingSigs, pendingRtSigs, bitmap, blockedSigs := [], map[], {}, {};
    }

    method ReceiveSignal(sig: SigInfo)
      requires Inv(Value()) && Legal(sig)
      modifies this
      ensures Inv(Value()) && Value() == Receive(old(Value()), sig)
    {
      ReceiveKeepsInv(Value(), sig);
      hide Inv;
      var signo := sig.signo;
      if signo < SIGRTMIN {
        if signo !in bitmap {
          bitmap := bitmap + {signo};
          pendingSigs := pendingSigs + [sig];
        }
      } else {
        if signo !in pendingRtSigs {
          pendingRtSigs := pendingRtSigs[signo := []];
        }
        pendingRtSigs := pendingRtSigs[signo := pendingRtSigs[signo] + [sig]];
        assert Value() == Receive(old(Value()), sig);
      }
    }

    /** Real-time queues in ascending order, the first usable one in `x`. */
    method FindRt(x: SigSet) returns (r: Option<nat>)
      requires RtOk(pendingRtSigs)
      ensures r == LowestRt(pendingRtSigs, x)
    {
      for signo := SIGRTMIN to SIGRTMAX + 1
        invariant forall n | n in pendingRtSigs && n in x && pendingRtSigs[n] != [] :: n >= signo
      {
        if signo in pendingRtSigs && signo in x && pendingRtSigs[signo] != [] {
          LowestIs(pendingRtSigs, x, signo);
          return Some(signo);
        }
      }
      LowestIsNone(pendingRtSigs, x);
      return None;
    }

    /** The front-to-back rotation of the source: at most one full turn. */
    method TakeStandard() returns (r: Option<SigInfo>)
      requires forall i | 0 <= i < |pendingSigs| :: Legal(pendingSigs[i])
      modifies this`pendingSigs, this`bitmap
      ensures (Value(), r) == RotateStage(old(Value()))
    {
      hide FirstIn, Deliverable;
      ghost var std := pendingSigs;
      var len := |pendingSigs|;
      var cnt := 0;
      while cnt < len
        invariant 0 <= cnt <= len == |std|
        invariant pendingSigs == std[cnt..] + std[..cnt] && bitmap == old(bitmap)
        invariant forall j | 0 <= j < cnt :: std[j].signo !in Deliverable(blockedSigs)
      {
        var sig := pendingSigs[0];
        RotateStep(std, cnt);
        DeliverableIff(blockedSigs, sig);
        pendingSigs := pendingSigs[1..];
        cnt := cnt + 1;
        if sig.signo != SIGKILL && sig.signo != SIGSTOP && sig.signo in blockedSigs {
          pendingSigs := pendingSigs + [sig];
          continue;
        }
        FirstIs(std, Deliverable(blockedSigs), cnt - 1);
        bitmap := bitmap - {sig.signo};
        return Some(sig);
      }
      FirstIs(std, Deliverable(blockedSigs), len);
      assert pendingSigs == std;
      return None;
    }

    /** The oldest signal of the lowest usable real-time number in `x`. */
    method TakeRealTime(x: SigSet) returns (r: Option<SigInfo>)
      requires RtOk(pendingRtSigs)
      modifies this`pendingRtSigs
      ensures (Value(), r) == RtStage(old(Value()), x)
    {
      hide RtOk;
      var n := FindRt(x);
      if n.None? {
        return None;
      }
      var queue := pendingRtSigs[n.value];
      pendingRtSigs := pendingRtSigs[n.value := queue[1..]];
      return Some(queue[0]);
    }

    method DequeueSignal() returns (r: Option<SigInfo>)
      requires Inv(Value())
      modifies this
      ensures Inv(Value()) && (Value(), r) == DequeueOne(old(Value()))
    {
      DequeueReady(Value());
      DequeueStages(Value());
      hide Inv, RtOk, RotateStage, RtStage, Unblocked, DequeueOne, Legal;
      r := TakeStandard();
      if r.Some? {
        return;
      }
      r := TakeRealTime(Unblocked(blockedSigs));
    }

    /** The first queued signal with a number in `x`. */
    method TakeExpected(x: SigSet) returns (r: Option<SigInfo>)
      modifies this`pendingSigs, this`bitmap
      ensures (Value(), r) == PickStage(old(Value()), x)
    {
      hide FirstIn;
      ghost var m := Value();
      for i := 0 to |pendingSigs|
        invariant Value() == m
        invariant forall j | 0 <= j < i :: m.std[j].signo !in x
      {
        var sig := pendingSigs[i];
        if sig.signo in x {
          FirstIs(m.std, x, i);
          bitmap := bitmap - {sig.signo};
          pendingSigs := pendingSigs[..i] + pendingSigs[i + 1..];
          return Some(sig);
        }
      }
      FirstIs(m.std, x, |m.std|);
      return None;
    }

    method DequeueExpected(expected: SigSet) returns (r: Option<SigInfo>)
      requires Inv(Value())
      modifies this
      ensures Inv(Value()) && (Value(), r) == DequeueExpectedOne(old(Value()), expected)
    {
      ExpectedReady(Value(), expected);
      ExpectedStages(Value(), expected);
      hide Inv, RtOk, PickStage, RtStage, DequeueExpectedOne;
      var x := bitmap * expected;
      if x == {} {
        r := TakeRealTime(expected);
      } else {
        r := TakeExpected(x);
      }
    }
  }
}
