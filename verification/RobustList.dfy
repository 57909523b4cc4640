/** The walk over a dying thread's robust futex list. Pointers and futex words live in two
    separate parts of user memory; a 32-bit futex word is a number below 2^32 whose top bit
    says that there are waiters, whose next bit says that the owner died, and whose low 30
    bits hold the owner's tid. */
module RobustList {
  import opened Wrappers

  const FUTEX_WAITERS: nat := 0x8000_0000
  const FUTEX_OWNER_DIED: nat := 0x4000_0000
  const LIMIT: nat := 2048
  const TWO64: nat := 0x1_0000_0000_0000_0000

  type Word = n: int | 0 <= n < 0x1_0000_0000

  function Owner(w: Word): nat { w % FUTEX_OWNER_DIED }

  predicate HasWaiters(w: Word) { w >= FUTEX_WAITERS }

  predicate OwnerDied(w: Word) { w / FUTEX_OWNER_DIED % 2 == 1 }

  /** The value the kernel leaves behind. */
  function Died(w: Word): Word {
    (if HasWaiters(w) then FUTEX_WAITERS else 0) + FUTEX_OWNER_DIED
  }

  /** The waiters bit is kept, the died bit set, the tid cleared. */
  lemma DiedBits(w: Word)
    ensures HasWaiters(Died(w)) <==> HasWaiters(w)
    ensures OwnerDied(Died(w)) && Owner(Died(w)) == 0
  {
  }

  datatype Memory = Memory(ptrs: map<nat, nat>, words: map<nat, Word>)

  // ---------- one futex ----------

  /** A pending lock that nobody owns yet is only woken, not marked. */
  predicate LeftAlone(w: Word, pi: bool, pendingOp: bool) {
    pendingOp && !pi && Owner(w) == 0
  }

  predicate Wakes(w: Word, tid: nat, pi: bool, pendingOp: bool) {
    !pi && ((pendingOp && Owner(w) == 0) || (Owner(w) == tid && HasWaiters(w)))
  }

  /** What is left of the memory's words when nobody interferes. */
  function Death(words: map<nat, Word>, addr: nat, tid: nat): map<nat, Word>
    requires addr in words
  {
    if Owner(words[addr]) == tid then words[addr := Died(words[addr])] else words
  }

  /** The compare-and-swap loop on one word. `races` are the values other threads store just
      before each attempt. Whatever they are, a value is replaced only if it was in the word
      at that moment and named the dying task as owner. */
  method HandleFutexDeath(word: Word, races: seq<Word>, tid: nat, pi: bool, pendingOp: bool)
    returns (after: Word, wrote: bool, replaced: Word, wake: bool)
    ensures wrote ==> Owner(replaced) == tid && after == Died(replaced) && replaced in [word] + races
    ensures wrote ==> (wake <==> !pi && HasWaiters(replaced))
    ensures !wrote ==> after in [word] + races && (wake ==> pendingOp && !pi)
    ensures races == [] ==> replaced == word && (!wrote ==> after == word)
    ensures races == [] ==> (wrote <==> Owner(word) == tid && !LeftAlone(word, pi, pendingOp))
    ensures races == [] ==> wake == Wakes(word, tid, pi, pendingOp)
  {
    after, wrote, wake := word, false, false;
    var oldVal := word;
    var i := 0;
    while true
      invariant 0 <= i <= |races|
      invariant oldVal == after && after in [word] + races && !wrote && !wake
      invariant i == 0 ==> oldVal == word
      decreases |races| - i
    {
      replaced := oldVal;
      var owner := Owner(oldVal);
      if pendingOp && !pi && owner == 0 {
        wake := true;
        return;
      }
      if owner != tid {
        return;
      }
      var newVal := Died(oldVal);
      if i < |races| {
        after := races[i];
        i := i + 1;
      }
      if after == oldVal {
        after := newVal;
        wrote := true;
        wake := !pi && HasWaiters(oldVal);
        return;
      }
      oldVal := after;
    }
  }

  // ---------- the walk ----------

  /** A list pointer: bit 0 marks a priority-inheritance futex. */
  datatype Link = Link(entry: nat, pi: bool)

  function Fetch(ptrs: map<nat, nat>, addr: nat): Option<Link> {
    if addr in ptrs then Some(Link(ptrs[addr] - ptrs[addr] % 2, ptrs[addr] % 2 == 1)) else None
  }

  function FutexAddr(entry: nat, offset: nat): nat {
    (entry + offset) % TWO64
  }

  /** Offsets are signed 64-bit numbers in two's complement: the futex lies that far from its
      entry, in either direction. */
  lemma FutexAddrIsSigned(entry: nat, offset: int)
    requires 0 <= entry + offset < TWO64 && 0 <= 2 * offset + TWO64 < 2 * TWO64
    ensures FutexAddr(entry, offset % TWO64) == entry + offset
  {
    if offset < 0 {
      assert offset % TWO64 == offset + TWO64;
    }
  }

  /** A link reads back as the entry it was made from and whether that is a
      priority-inheritance futex. */
  lemma FetchRoundTrip(ptrs: map<nat, nat>, addr: nat, entry: nat, pi: bool)
    requires entry % 2 == 0
    ensures Fetch(ptrs[addr := entry + if pi then 1 else 0], addr) == Some(Link(entry, pi))
  {
  }

  datatype Outcome = Outcome(ok: bool, words: map<nat, Word>, woken: seq<nat>, visited: nat)

  /** The list part of the walk from one link on, with `limit` entries left to visit. */
  function Walk(m: Memory, head: nat, at: Link, pending: nat, offset: nat, tid: nat, limit: nat): (r: Outcome)
    ensures r.visited <= limit
    decreases limit
  {
    if at.entry == head || limit == 0 then Outcome(true, m.words, [], 0)
    else
      match Fetch(m.ptrs, at.entry)
      case None => Outcome(false, m.words, [], 0)
      case Some(next) =>
        var a := FutexAddr(at.entry, offset);
        if at.entry == pending then
          var r := Walk(m, head, next, pending, offset, tid, limit - 1);
          r.(visited := r.visited + 1)
        else if a !in m.words then Outcome(false, m.words, [], 0)
        else
          var r := Walk(m.(words := Death(m.words, a, tid)), head, next, pending, offset, tid, limit - 1);
          r.(visited := r.visited + 1, woken := (if Wakes(m.words[a], tid, at.pi, false) then [a] else []) + r.woken)
  }

  function ExitRobustList(m: Memory, head: nat, tid: nat): (r: Outcome)
    ensures r.visited <= LIMIT
  {
    if head !in m.ptrs || head + 8 !in m.ptrs || head + 16 !in m.ptrs then Outcome(false, m.words, [], 0)
    else
      var first, offset, pending := Fetch(m.ptrs, head).value, m.ptrs[head + 8], Fetch(m.ptrs, head + 16).value;
      var r := Walk(m, head, first, pending.entry, offset, tid, LIMIT);
      if !r.ok || pending.entry == 0 then r
      else
        var a := FutexAddr(pending.entry, offset);
        if pending.entry !in m.ptrs || a !in r.words then r.(ok := false)
        else
          r.(words := if LeftAlone(r.words[a], pending.pi, true) then r.words else Death(r.words, a, tid),
             woken := r.woken + if Wakes(r.words[a], tid, pending.pi, true) then [a] else [])
  }

  // ---------- safety on any list ----------

  /** Every word is as it was, or was owned by the dying task and is now marked. */
  ghost predicate OnlyMarksOwned(words: map<nat, Word>, words': map<nat, Word>, tid: nat) {
    && words'.Keys == words.Keys
    && forall a | a in words :: words'[a] == words[a] || (Owner(words[a]) == tid && words'[a] == Died(words[a]))
  }

  lemma DeathMarksOwned(words: map<nat, Word>, addr: nat, tid: nat)
    requires addr in words
    ensures OnlyMarksOwned(words, Death(words, addr, tid), tid)
  {
  }

  lemma MarksCompose(w0: map<nat, Word>, w1: map<nat, Word>, w2: map<nat, Word>, tid: nat)
    requires OnlyMarksOwned(w0, w1, tid) && OnlyMarksOwned(w1, w2, tid) && tid > 0
    ensures OnlyMarksOwned(w0, w2, tid)
  {
    forall a | a in w0 ensures w2[a] == w0[a] || (Owner(w0[a]) == tid && w2[a] == Died(w0[a])) {
      DiedBits(w0[a]);
    }
  }

  /** Whatever the list looks like, broken, cyclic or endless, the walk stops within its
      limit and touches only words the dying task owned. */
  lemma {:induction false} WalkIsSafe(m: Memory, head: nat, at: Link, pending: nat, offset: nat, tid: nat, limit: nat)
    requires tid > 0
    ensures OnlyMarksOwned(m.words, Walk(m, head, at, pending, offset, tid, limit).words, tid)
    decreases limit
  {
    if at.entry != head && limit > 0 && at.entry in m.ptrs {
      var next := Fetch(m.ptrs, at.entry).value;
      var a := FutexAddr(at.entry, offset);
      if at.entry == pending {
        WalkIsSafe(m, head, next, pending, offset, tid, limit - 1);
      } else if a in m.words {
        var words := Death(m.words, a, tid);
        WalkIsSafe(m.(words := words), head, next, pending, offset, tid, limit - 1);
        DeathMarksOwned(m.words, a, tid);
        MarksCompose(m.words, words, Walk(m.(words := words), head, next, pending, offset, tid, limit - 1).words, tid);
      }
    }
  }

  lemma ExitIsSafe(m: Memory, head: nat, tid: nat)
    requires tid > 0
    ensures OnlyMarksOwned(m.words, ExitRobustList(m, head, tid).words, tid)
  {
    if head in m.ptrs && head + 8 in m.ptrs && head + 16 in m.ptrs {
      var first, offset, pending := Fetch(m.ptrs, head).value, m.ptrs[head + 8], Fetch(m.ptrs, head + 16).value;
      WalkIsSafe(m, head, first, pending.entry, offset, tid, LIMIT);
      var r := Walk(m, head, first, pending.entry, offset, tid, LIMIT);
      var a := FutexAddr(pending.entry, offset);
      if a in r.words {
        DeathMarksOwned(r.words, a, tid);
        MarksCompose(m.words, r.words, Death(r.words, a, tid), tid);
      }
    }
  }

  // ---------- completeness on a closed list ----------

  /** The links from `at` on, in order, lead back to the head, and every one of them is
      readable, not null, and has an accessible futex word. */
  ghost predicate Closed(m: Memory, head: nat, at: Link, links: seq<Link>, offset: nat)
    decreases |links|
  {
    if links == [] then at.entry == head
    else
      && at == links[0] && at.entry != head && at.entry != 0
      && at.entry in m.ptrs && FutexAddr(at.entry, offset) in m.words
      && Closed(m, head, Fetch(m.ptrs, at.entry).value, links[1..], offset)
  }

  /** The futexes of the listed entries other than the pending one. */
  ghost predicate Listed(links: seq<Link>, pending: nat, offset: nat, a: nat) {
    exists i :: 0 <= i < |links| && links[i].entry != pending && FutexAddr(links[i].entry, offset) == a
  }

  lemma ListedSplit(links: seq<Link>, pending: nat, offset: nat, a: nat)
    requires links != []
    ensures Listed(links, pending, offset, a) <==>
            (links[0].entry != pending && FutexAddr(links[0].entry, offset) == a) || Listed(links[1..], pending, offset, a)
  {
    if i :| 0 <= i < |links| && links[i].entry != pending && FutexAddr(links[i].entry, offset) == a {
      if i > 0 { assert links[1..][i - 1] == links[i]; }
    }
    if i :| 0 <= i < |links[1..]| && links[1..][i].entry != pending && FutexAddr(links[1..][i].entry, offset) == a {
      assert links[i + 1] == links[1..][i];
    }
  }

  lemma {:induction false} ClosedKept(m: Memory, words: map<nat, Word>, head: nat, at: Link, links: seq<Link>, offset: nat)
    requires Closed(m, head, at, links, offset) && words.Keys == m.words.Keys
    ensures Closed(m.(words := words), head, at, links, offset)
    decreases |links|
  {
    if links != [] {
      ClosedKept(m, words, head, Fetch(m.ptrs, at.entry).value, links[1..], offset);
    }
  }

  /** A closed list within the limit is walked to the end: exactly the listed futexes owned
      by the dying task are marked. */
  lemma {:induction false} WalkMarksListed(m: Memory, head: nat, at: Link, links: seq<Link>, pending: nat, offset: nat,
                                           tid: nat, limit: nat)
    requires Closed(m, head, at, links, offset) && |links| <= limit && tid > 0
    ensures var r := Walk(m, head, at, pending, offset, tid, limit);
            && r.ok && r.visited == |links| && r.words.Keys == m.words.Keys
            && forall a | a in m.words ::
                 r.words[a] == if Listed(links, pending, offset, a) && Owner(m.words[a]) == tid then Died(m.words[a])
                               else m.words[a]
    decreases limit
  {
    if links != [] {
      var next, a := Fetch(m.ptrs, at.entry).value, FutexAddr(at.entry, offset);
      var words := if at.entry == pending then m.words else Death(m.words, a, tid);
      ClosedKept(m, words, head, next, links[1..], offset);
      WalkMarksListed(m.(words := words), head, next, links[1..], pending, offset, tid, limit - 1);
      DiedBits(m.words[a]);
      forall b ensures Listed(links, pending, offset, b) <==>
                       (at.entry != pending && a == b) || Listed(links[1..], pending, offset, b) {
        ListedSplit(links, pending, offset, b);
      }
    }
  }

  /** On thread death, every listed or pending futex owned by the dying task ends with its
      waiters bit kept, the died bit set and the tid cleared; every other word is unchanged. */
  lemma ExitMarksAllOwned(m: Memory, head: nat, links: seq<Link>, tid: nat)
    requires tid > 0 && head in m.ptrs && head + 8 in m.ptrs && head + 16 in m.ptrs
    requires Closed(m, head, Fetch(m.ptrs, head).value, links, m.ptrs[head + 8]) && |links| <= LIMIT
    requires var pending := Fetch(m.ptrs, head + 16).value.entry;
             pending != 0 ==> pending in m.ptrs && FutexAddr(pending, m.ptrs[head + 8]) in m.words
    ensures var r, offset, pending := ExitRobustList(m, head, tid), m.ptrs[head + 8], Fetch(m.ptrs, head + 16).value.entry;
            && r.ok && r.words.Keys == m.words.Keys
            && forall a | a in m.words ::
                 var target := (exists i :: 0 <= i < |links| && FutexAddr(links[i].entry, offset) == a)
                               || (pending != 0 && FutexAddr(pending, offset) == a);
                 r.words[a] == if target && Owner(m.words[a]) == tid then Died(m.words[a]) else m.words[a]
  {
    var first, offset, pending := Fetch(m.ptrs, head).value, m.ptrs[head + 8], Fetch(m.ptrs, head + 16).value.entry;
    WalkMarksListed(m, head, first, links, pending, offset, tid, LIMIT);
    forall a | a in m.words
      ensures var target := (exists i :: 0 <= i < |links| && FutexAddr(links[i].entry, offset) == a)
                            || (pending != 0 && FutexAddr(pending, offset) == a);
              ExitRobustList(m, head, tid).words[a] ==
                if target && Owner(m.words[a]) == tid then Died(m.words[a]) else m.words[a]
    {
      DiedBits(m.words[a]);
      TargetIsListed(m, head, first, links, pending, offset, a);
    }
  }

  lemma TargetIsListed(m: Memory, head: nat, at: Link, links: seq<Link>, pending: nat, offset: nat, a: nat)
    requires Closed(m, head, at, links, offset)
    ensures (exists i :: 0 <= i < |links| && FutexAddr(links[i].entry, offset) == a)
            || (pending != 0 && FutexAddr(pending, offset) == a)
            <==> Listed(links, pending, offset, a) || (pending != 0 && FutexAddr(pending, offset) == a)
  {
    if i :| 0 <= i < |links| && FutexAddr(links[i].entry, offset) == a {
      NotNull(m, head, at, links, offset, i);
    }
  }

  lemma {:induction false} NotNull(m: Memory, head: nat, at: Link, links: seq<Link>, offset: nat, i: nat)
    requires Closed(m, head, at, links, offset) && i < |links|
    ensures links[i].entry != 0
    decreases i
  {
    if i > 0 {
      NotNull(m, head, Fetch(m.ptrs, at.entry).value, links[1..], offset, i - 1);
    }
  }

  // ---------- who is woken ----------

  /** The first listed entry of futex a, not counting the pending one, is without priority
      inheritance. */
  ghost predicate FirstIsPlain(links: seq<Link>, pending: nat, offset: nat, a: nat)
    decreases |links|
  {
    links != [] &&
    if links[0].entry != pending && FutexAddr(links[0].entry, offset) == a then !links[0].pi
    else FirstIsPlain(links[1..], pending, offset, a)
  }

  /** How often the list part is to wake futex a. */
  ghost function Due(words: map<nat, Word>, links: seq<Link>, pending: nat, offset: nat, tid: nat, a: nat): nat {
    if a in words && Owner(words[a]) == tid && HasWaiters(words[a]) && FirstIsPlain(links, pending, offset, a) then 1 else 0
  }

  /** Handling an entry takes its share of what is due: a marked word has no owner, so later
      entries of the same futex find nothing to do. */
  lemma DueStep(words: map<nat, Word>, links: seq<Link>, pending: nat, offset: nat, tid: nat, a: nat)
    requires links != [] && tid > 0 && FutexAddr(links[0].entry, offset) in words
    ensures var b := FutexAddr(links[0].entry, offset);
            var mine := links[0].entry != pending;
            var words' := if mine then Death(words, b, tid) else words;
            Due(words, links, pending, offset, tid, a) ==
            (if mine && a == b && Wakes(words[b], tid, links[0].pi, false) then 1 else 0) +
            Due(words', links[1..], pending, offset, tid, a)
  {
    DiedBits(words[FutexAddr(links[0].entry, offset)]);
    hide Died, FutexAddr, OwnerDied;
  }

  /** The walk of a closed list wakes a futex once if the dying task owns it, it has waiters and
      its first listed entry is plain; otherwise, and for every other address, not at all. */
  lemma {:induction false} WalkWakesExactly(m: Memory, head: nat, at: Link, links: seq<Link>, pending: nat, offset: nat,
                                            tid: nat, limit: nat, a: nat)
    requires Closed(m, head, at, links, offset) && |links| <= limit && tid > 0
    ensures multiset(Walk(m, head, at, pending, offset, tid, limit).woken)[a] == Due(m.words, links, pending, offset, tid, a)
    decreases limit
  {
    if links != [] {
      var next, b := Fetch(m.ptrs, at.entry).value, FutexAddr(at.entry, offset);
      var words := if at.entry == pending then m.words else Death(m.words, b, tid);
      var wakes := if at.entry != pending && Wakes(m.words[b], tid, at.pi, false) then [b] else [];
      ClosedKept(m, words, head, next, links[1..], offset);
      WalkWakesExactly(m.(words := words), head, next, links[1..], pending, offset, tid, limit - 1, a);
      WalkStep(m, head, at, pending, offset, tid, limit);
      DueStep(m.words, links, pending, offset, tid, a);
      hide Walk, Due, Wakes, Death, FutexAddr;
      var rest := Walk(m.(words := words), head, next, pending, offset, tid, limit - 1);
      assert multiset(wakes + rest.woken)[a] == multiset(wakes)[a] + multiset(rest.woken)[a];
    }
  }

  /** At thread death a futex is woken as often as the two parts say: once by the list as
      above, and once as the pending one if that is plain and the futex is then unowned, or
      owned by the dying task with waiters. */
  lemma ExitWakesExactly(m: Memory, head: nat, links: seq<Link>, tid: nat, a: nat)
    requires tid > 0 && head in m.ptrs && head + 8 in m.ptrs && head + 16 in m.ptrs
    requires Closed(m, head, Fetch(m.ptrs, head).value, links, m.ptrs[head + 8]) && |links| <= LIMIT
    requires var pending := Fetch(m.ptrs, head + 16).value.entry;
             pending != 0 ==> pending in m.ptrs && FutexAddr(pending, m.ptrs[head + 8]) in m.words
    requires a in m.words
    ensures var offset, pending, w := m.ptrs[head + 8], Fetch(m.ptrs, head + 16).value, m.words[a];
            var byList := Due(m.words, links, pending.entry, offset, tid, a);
            var asPending := pending.entry != 0 && FutexAddr(pending.entry, offset) == a && !pending.pi
                             && (Owner(w) == 0 || (Owner(w) == tid && (HasWaiters(w) || Listed(links, pending.entry, offset, a))));
            multiset(ExitRobustList(m, head, tid).woken)[a] == byList + if asPending then 1 else 0
  {
    var first, offset, pending := Fetch(m.ptrs, head).value, m.ptrs[head + 8], Fetch(m.ptrs, head + 16).value;
    WalkMarksListed(m, head, first, links, pending.entry, offset, tid, LIMIT);
    WalkWakesExactly(m, head, first, links, pending.entry, offset, tid, LIMIT, a);
    var r := Walk(m, head, first, pending.entry, offset, tid, LIMIT);
    hide Walk, Closed, Due, Listed;
    DiedBits(m.words[a]);
    var b := FutexAddr(pending.entry, offset);
    if pending.entry != 0 {
      var last := if Wakes(r.words[b], tid, pending.pi, true) then [b] else [];
      assert multiset(r.woken + last)[a] == multiset(r.woken)[a] + multiset(last)[a];
    }
  }

  // ---------- the loop ----------

  /** What is left of a walk, put behind what has been done. */
  function After(woken: seq<nat>, visited: nat, rest: Outcome): Outcome {
    rest.(woken := woken + rest.woken, visited := visited + rest.visited)
  }

  lemma AfterAfter(u: seq<nat>, i: nat, v: seq<nat>, j: nat, r: Outcome)
    ensures After(u, i, After(v, j, r)) == After(u + v, i + j, r)
  {
    assert u + (v + r.woken) == (u + v) + r.woken;
  }

  lemma WalkStep(m: Memory, head: nat, at: Link, pending: nat, offset: nat, tid: nat, limit: nat)
    requires at.entry != head && limit > 0 && at.entry in m.ptrs
    requires at.entry != pending ==> FutexAddr(at.entry, offset) in m.words
    ensures var a := FutexAddr(at.entry, offset);
            var words := if at.entry == pending then m.words else Death(m.words, a, tid);
            var wakes := if at.entry != pending && Wakes(m.words[a], tid, at.pi, false) then [a] else [];
            Walk(m, head, at, pending, offset, tid, limit) ==
            After(wakes, 1, Walk(m.(words := words), head, Fetch(m.ptrs, at.entry).value, pending, offset, tid, limit - 1))
  {
    if at.entry == pending {
      var r := Walk(m, head, Fetch(m.ptrs, at.entry).value, pending, offset, tid, limit - 1);
      assert [] + r.woken == r.woken;
      assert m.(words := m.words) == m;
    }
  }

  lemma WalkStops(m: Memory, head: nat, at: Link, pending: nat, offset: nat, tid: nat, limit: nat)
    ensures at.entry == head || limit == 0 ==> Walk(m, head, at, pending, offset, tid, limit) == Outcome(true, m.words, [], 0)
    ensures at.entry != head && limit > 0 && (at.entry !in m.ptrs || (at.entry != pending && FutexAddr(at.entry, offset) !in m.words))
            ==> Walk(m, head, at, pending, offset, tid, limit) == Outcome(false, m.words, [], 0)
  {
  }

  /** The source's loop: at most 2048 turns, the next link read before the entry is handled. */
  method WalkList(m: Memory, head: nat, first: Link, pending: nat, offset: nat, tid: nat) returns (r: Outcome)
    ensures r == Walk(m, head, first, pending, offset, tid, LIMIT)
  {
    hide Walk, Death, Wakes, FutexAddr;
    var words, woken: seq<nat>, visited := m.words, [], 0;
    var at := first;
    var limit := LIMIT;
    ghost var whole := Walk(m, head, first, pending, offset, tid, LIMIT);
    assert m.(words := words) == m && After([], 0, whole) == whole;
    while at.entry != head
      invariant 0 < limit <= LIMIT
      invariant whole == After(woken, visited, Walk(m.(words := words), head, at, pending, offset, tid, limit))
      decreases limit
    {
      WalkStops(m.(words := words), head, at, pending, offset, tid, limit);
      var next := Fetch(m.ptrs, at.entry);
      if next == None {
        return Outcome(false, words, woken, visited);
      }
      var a := FutexAddr(at.entry, offset);
      if at.entry != pending && a !in words {
        return Outcome(false, words, woken, visited);
      }
      WalkStep(m.(words := words), head, at, pending, offset, tid, limit);
      var wakes: seq<nat> := [];
      if at.entry != pending {
        var wake;
        words, wake := DieOn(words, a, tid, at.pi, false);
        if wake {
          wakes := [a];
        }
      }
      at := next.value;
      limit := limit - 1;
      AfterAfter(woken, visited, wakes, 1, Walk(m.(words := words), head, at, pending, offset, tid, limit));
      woken := woken + wakes;
      visited := visited + 1;
      if limit == 0 {
        break;
      }
    }
    WalkStops(m.(words := words), head, at, pending, offset, tid, limit);
    assert woken + [] == woken;
    return Outcome(true, words, woken, visited);
  }

  /** The death of one futex written back to memory, undisturbed. */
  method DieOn(words: map<nat, Word>, a: nat, tid: nat, pi: bool, pendingOp: bool)
    returns (words': map<nat, Word>, wake: bool)
    requires a in words
    ensures words' == if LeftAlone(words[a], pi, pendingOp) then words else Death(words, a, tid)
    ensures wake == Wakes(words[a], tid, pi, pendingOp)
  {
    var after, wrote, replaced, w := HandleFutexDeath(words[a], [], tid, pi, pendingOp);
    wake := w;
    words' := words[a := after];
  }

  /** The whole of the exit: head, list, and the pending entry. */
  method ExitList(m: Memory, head: nat, tid: nat) returns (r: Outcome)
    ensures r == ExitRobustList(m, head, tid)
  {
    hide Walk, Death, Wakes;
    if head !in m.ptrs || head + 8 !in m.ptrs || head + 16 !in m.ptrs {
      return Outcome(false, m.words, [], 0);
    }
    var first, offset, pending := Fetch(m.ptrs, head).value, m.ptrs[head + 8], Fetch(m.ptrs, head + 16).value;
    r := WalkList(m, head, first, pending.entry, offset, tid);
    if !r.ok || pending.entry == 0 {
      return;
    }
    var a := FutexAddr(pending.entry, offset);
    if pending.entry !in m.ptrs || a !in r.words {
      return r.(ok := false);
    }
    var words, wake := DieOn(r.words, a, tid, pending.pi, true);
    return r.(words := words, woken := r.woken + if wake then [a] else []);
  }
}
