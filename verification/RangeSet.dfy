/** A set of integers kept as a collapsing segment tree over a fixed root range. */
module RangeSet {
  import opened Wrappers

  datatype Status = Empty | Half | Full

  datatype Op = Fill | Clear

  /** The value of a node: its status and its two optional children. */
  datatype Tree = Node(status: Status, left: Option<Tree>, right: Option<Tree>)

  function Combine(a: Status, b: Status): Status {
    if a != b then Half else b
  }

  function Applied(op: Op): Status {
    match op
    case Fill => Full
    case Clear => Empty
  }

  function Mid(lo: int, hi: int): int {
    lo + (hi - lo) / 2
  }

  function ChildOr(child: Option<Tree>, status: Status): Tree {
    match child
    case Some(t) => t
    case None => Node(status, None, None)
  }

  /** A node over two children: kept apart when they differ, collapsed when they agree. */
  function Join(l: Tree, r: Tree): Tree {
    var status := Combine(l.status, r.status);
    if status == Half then Node(status, Some(l), Some(r)) else Node(status, None, None)
  }

  /** One pass of fill or clear over [lo, hi) with the operation's range [a, b). */
  function Operate(t: Tree, lo: int, hi: int, a: int, b: int, op: Op): Tree
    requires a < b && lo < hi
    decreases hi - lo
  {
    if a <= lo && hi <= b then Node(Applied(op), None, None)
    else
      var mid := Mid(lo, hi);
      var l0, r0 := ChildOr(t.left, t.status), ChildOr(t.right, t.status);
      var l := if lo < b && mid > a then Operate(l0, lo, mid, a, b, op) else l0;
      var r := if mid < b && hi > a then Operate(r0, mid, hi, a, b, op) else r0;
      Join(l, r)
  }

  /** Membership, read off the tree. */
  predicate Has(t: Tree, lo: int, hi: int, x: int)
    decreases t
  {
    lo <= x < hi &&
    match t.status
    case Empty => false
    case Full => true
    case Half =>
      t.left.Some? && t.right.Some? &&
      var mid := Mid(lo, hi);
      if x < mid then Has(t.left.value, lo, mid, x) else Has(t.right.value, mid, hi, x)
  }

  /** The one shape a set can have: only mixed nodes have children, both of them, and
      their statuses are not both full or both empty. */
  predicate Canonical(t: Tree, lo: int, hi: int)
    decreases t
  {
    if t.status != Half then t.left == None && t.right == None
    else
      && hi - lo >= 2 && t.left.Some? && t.right.Some?
      && Canonical(t.left.value, lo, Mid(lo, hi)) && Canonical(t.right.value, Mid(lo, hi), hi)
      && Combine(t.left.value.status, t.right.value.status) == Half
  }

  lemma JoinIsCanonical(l: Tree, r: Tree, lo: int, hi: int)
    requires hi - lo >= 2 && Canonical(l, lo, Mid(lo, hi)) && Canonical(r, Mid(lo, hi), hi)
    ensures Canonical(Join(l, r), lo, hi)
    ensures forall x :: Has(Join(l, r), lo, hi, x) <==>
                        if x < Mid(lo, hi) then Has(l, lo, Mid(lo, hi), x) else Has(r, Mid(lo, hi), hi, x)
  {
  }

  lemma ChildrenOf(t: Tree, lo: int, hi: int)
    requires hi - lo >= 2 && Canonical(t, lo, hi)
    ensures var l, r := ChildOr(t.left, t.status), ChildOr(t.right, t.status);
            && Canonical(l, lo, Mid(lo, hi)) && Canonical(r, Mid(lo, hi), hi)
            && forall x :: Has(t, lo, hi, x) <==>
                           if x < Mid(lo, hi) then Has(l, lo, Mid(lo, hi), x) else Has(r, Mid(lo, hi), hi, x)
  {
  }

  /** Fill and clear are union and difference with the operation's range, clipped to the
      node's range, and keep the tree canonical. */
  lemma {:induction false} OperateIsSetUpdate(t: Tree, lo: int, hi: int, a: int, b: int, op: Op)
    requires a < b && lo < hi && Canonical(t, lo, hi)
    ensures var t' := Operate(t, lo, hi, a, b, op);
            && Canonical(t', lo, hi)
            && forall x | lo <= x < hi :: Has(t', lo, hi, x) <==> if a <= x < b then op == Fill else Has(t, lo, hi, x)
    decreases hi - lo
  {
    if !(a <= lo && hi <= b) && hi - lo >= 2 {
      var mid := Mid(lo, hi);
      var l0, r0 := ChildOr(t.left, t.status), ChildOr(t.right, t.status);
      ChildrenOf(t, lo, hi);
      if lo < b && mid > a { OperateIsSetUpdate(l0, lo, mid, a, b, op); }
      if mid < b && hi > a { OperateIsSetUpdate(r0, mid, hi, a, b, op); }
      var l := if lo < b && mid > a then Operate(l0, lo, mid, a, b, op) else l0;
      var r := if mid < b && hi > a then Operate(r0, mid, hi, a, b, op) else r0;
      JoinIsCanonical(l, r, lo, hi);
    }
  }

  ghost predicate AllIn(t: Tree, lo: int, hi: int) {
    forall x | lo <= x < hi :: Has(t, lo, hi, x)
  }

  ghost predicate NoneIn(t: Tree, lo: int, hi: int) {
    forall x | lo <= x < hi :: !Has(t, lo, hi, x)
  }

  lemma SplitContents(t: Tree, lo: int, hi: int)
    requires Canonical(t, lo, hi) && t.status == Half
    ensures AllIn(t, lo, hi) <==> AllIn(t.left.value, lo, Mid(lo, hi)) && AllIn(t.right.value, Mid(lo, hi), hi)
    ensures NoneIn(t, lo, hi) <==> NoneIn(t.left.value, lo, Mid(lo, hi)) && NoneIn(t.right.value, Mid(lo, hi), hi)
  {
    var mid := Mid(lo, hi);
    assert forall x | lo <= x < mid :: Has(t.left.value, lo, mid, x) <==> Has(t, lo, hi, x);
    assert forall x | mid <= x < hi :: Has(t.right.value, mid, hi, x) <==> Has(t, lo, hi, x);
  }

  /** A node is full, empty or mixed exactly as its range is all in, all out or neither. */
  lemma {:induction false} StatusMeansContents(t: Tree, lo: int, hi: int)
    requires lo < hi && Canonical(t, lo, hi)
    ensures t.status == Full <==> AllIn(t, lo, hi)
    ensures t.status == Empty <==> NoneIn(t, lo, hi)
    ensures t.status == Half <==> !AllIn(t, lo, hi) && !NoneIn(t, lo, hi)
    decreases t
  {
    if t.status == Half {
      var mid := Mid(lo, hi);
      var l, r := t.left.value, t.right.value;
      StatusMeansContents(l, lo, mid);
      StatusMeansContents(r, mid, hi);
      SplitContents(t, lo, hi);
    } else {
      assert Has(t, lo, hi, lo) <==> t.status == Full;
    }
  }

  ghost predicate SameContents(t: Tree, u: Tree, lo: int, hi: int) {
    forall x | lo <= x < hi :: Has(t, lo, hi, x) <==> Has(u, lo, hi, x)
  }

  /** Equal contents mean equal trees. */
  lemma {:induction false} CanonicalIsUnique(t: Tree, u: Tree, lo: int, hi: int)
    requires lo < hi && Canonical(t, lo, hi) && Canonical(u, lo, hi) && SameContents(t, u, lo, hi)
    ensures t == u
    decreases t
  {
    StatusMeansContents(t, lo, hi);
    StatusMeansContents(u, lo, hi);
    if t.status == Half {
      var mid := Mid(lo, hi);
      forall x | lo <= x < mid ensures Has(t.left.value, lo, mid, x) <==> Has(u.left.value, lo, mid, x) {
        assert Has(t, lo, hi, x) <==> Has(u, lo, hi, x);
      }
      forall x | mid <= x < hi ensures Has(t.right.value, mid, hi, x) <==> Has(u.right.value, mid, hi, x) {
        assert Has(t, lo, hi, x) <==> Has(u, lo, hi, x);
      }
      CanonicalIsUnique(t.left.value, u.left.value, lo, mid);
      CanonicalIsUnique(t.right.value, u.right.value, mid, hi);
    }
  }

  // ---------- histories ----------

  datatype Call = Call(op: Op, a: int, b: int)

  /** Insert and remove skip an empty range. */
  function Step(t: Tree, lo: int, hi: int, c: Call): Tree
    requires lo < hi
  {
    if c.a >= c.b then t else Operate(t, lo, hi, c.a, c.b, c.op)
  }

  function Run(lo: int, hi: int, calls: seq<Call>): Tree
    requires lo < hi
  {
    if calls == [] then Node(Empty, None, None)
    else Step(Run(lo, hi, calls[..|calls| - 1]), lo, hi, calls[|calls| - 1])
  }

  /** What a history means: the last call that covers a point decides it. */
  predicate Wanted(calls: seq<Call>, x: int) {
    calls != [] &&
    var c := calls[|calls| - 1];
    if c.a <= x < c.b then c.op == Fill else Wanted(calls[..|calls| - 1], x)
  }

  lemma {:induction false} RunIsWanted(lo: int, hi: int, calls: seq<Call>)
    requires lo < hi
    ensures Canonical(Run(lo, hi, calls), lo, hi)
    ensures forall x | lo <= x < hi :: Has(Run(lo, hi, calls), lo, hi, x) <==> Wanted(calls, x)
  {
    if calls != [] {
      var rest, c := calls[..|calls| - 1], calls[|calls| - 1];
      RunIsWanted(lo, hi, rest);
      if c.a < c.b {
        OperateIsSetUpdate(Run(lo, hi, rest), lo, hi, c.a, c.b, c.op);
      }
    }
  }

  /** Two histories that agree on what is in the set leave identical trees behind. */
  lemma HistoriesConverge(lo: int, hi: int, p: seq<Call>, q: seq<Call>)
    requires lo < hi
    requires forall x | lo <= x < hi :: Wanted(p, x) <==> Wanted(q, x)
    ensures Run(lo, hi, p) == Run(lo, hi, q)
  {
    RunIsWanted(lo, hi, p);
    RunIsWanted(lo, hi, q);
    CanonicalIsUnique(Run(lo, hi, p), Run(lo, hi, q), lo, hi);
  }

  // ---------- queries ----------

  function Min(a: int, b: int): int { if a <= b then a else b }

  function Max(a: int, b: int): int { if a >= b then a else b }

  /** The size of the intersection with [a, b), as the source computes it. */
  function Intersect(t: Tree, lo: int, hi: int, a: int, b: int): int
    decreases t
  {
    match t.status
    case Full => Min(hi, b) - Max(lo, a)
    case Empty => 0
    case Half =>
      var mid := Mid(lo, hi);
      (if lo < b && mid > a && t.left.Some? then Intersect(t.left.value, lo, mid, a, b) else 0) +
      (if mid < b && hi > a && t.right.Some? then Intersect(t.right.value, mid, hi, a, b) else 0)
  }

  /** Membership as a test that stands alone. */
  predicate In(x: int, t: Tree, lo: int, hi: int) {
    Has(t, lo, hi, x)
  }

  ghost function Members(t: Tree, lo: int, hi: int, a: int, b: int): set<int> {
    set x | a <= x < b && In(x, t, lo, hi)
  }

  ghost function Interval(p: int, q: int): (s: set<int>)
    requires p <= q
    ensures |s| == q - p
    ensures forall x :: x in s <==> p <= x < q
    decreases q - p
  {
    if p == q then {} else Interval(p, q - 1) + {q - 1}
  }

  lemma FullMembers(t: Tree, lo: int, hi: int, a: int, b: int)
    requires lo < hi && a < b && t.status == Full && lo <= b && a <= hi
    ensures |Members(t, lo, hi, a, b)| == Min(hi, b) - Max(lo, a)
  {
    assert Members(t, lo, hi, a, b) == Interval(Max(lo, a), Min(hi, b));
  }

  lemma SplitMembers(t: Tree, lo: int, hi: int, a: int, b: int)
    requires Canonical(t, lo, hi) && t.status == Half
    ensures var l, r := Members(t.left.value, lo, Mid(lo, hi), a, b), Members(t.right.value, Mid(lo, hi), hi, a, b);
            && |Members(t, lo, hi, a, b)| == |l| + |r|
            && (lo >= b || Mid(lo, hi) <= a ==> l == {})
            && (Mid(lo, hi) >= b || hi <= a ==> r == {})
  {
    var mid := Mid(lo, hi);
    var l, r := Members(t.left.value, lo, mid, a, b), Members(t.right.value, mid, hi, a, b);
    assert forall x :: In(x, t, lo, hi) <==> In(x, t.left.value, lo, mid) || In(x, t.right.value, mid, hi);
    assert forall x | In(x, t.left.value, lo, mid) :: lo <= x < mid;
    assert forall x | In(x, t.right.value, mid, hi) :: mid <= x < hi;
    assert Members(t, lo, hi, a, b) == l + r;
  }

  lemma {:induction false} IntersectCounts(t: Tree, lo: int, hi: int, a: int, b: int)
    requires lo < hi && a < b && Canonical(t, lo, hi)
    requires t.status != Full || (lo <= b && a <= hi)
    ensures Intersect(t, lo, hi, a, b) == |Members(t, lo, hi, a, b)|
    decreases t
  {
    match t.status
    case Full =>
      FullMembers(t, lo, hi, a, b);
    case Empty =>
      assert Members(t, lo, hi, a, b) == {};
    case Half =>
      var mid := Mid(lo, hi);
      SplitMembers(t, lo, hi, a, b);
      if lo < b && mid > a { IntersectCounts(t.left.value, lo, mid, a, b); }
      if mid < b && hi > a { IntersectCounts(t.right.value, mid, hi, a, b); }
  }

  /** The count is exact unless the whole root is full and the query lies strictly outside
      it; then the subtraction goes below zero. */
  lemma IntersectExactIff(t: Tree, lo: int, hi: int, a: int, b: int)
    requires lo < hi && a < b && Canonical(t, lo, hi)
    ensures Intersect(t, lo, hi, a, b) == |Members(t, lo, hi, a, b)| <==> t.status != Full || (lo <= b && a <= hi)
  {
    if t.status != Full || (lo <= b && a <= hi) {
      IntersectCounts(t, lo, hi, a, b);
    }
  }

  lemma FullCountMeansSubset(t: Tree, lo: int, hi: int, a: int, b: int)
    requires lo < hi && Canonical(t, lo, hi) && a < b
    ensures Intersect(t, lo, hi, a, b) == b - a <==> forall x | a <= x < b :: In(x, t, lo, hi)
  {
    var q := Interval(a, b);
    if t.status == Full && !(lo <= b && a <= hi) {
      assert !In(a, t, lo, hi);
    } else {
      IntersectCounts(t, lo, hi, a, b);
      var m := Members(t, lo, hi, a, b);
      assert m <= q;
      if |m| == |q| { SubsetOfSameSize(m, q); }
      assert m == q <==> forall x :: x in q ==> x in m;
      assert forall x :: x in q ==> (x in m <==> In(x, t, lo, hi));
    }
  }

  lemma SubsetOfSameSize(s: set<int>, u: set<int>)
    requires s <= u && |s| == |u|
    ensures s == u
  {
    assert u == s + (u - s);
  }

  lemma NonzeroMeansOverlapIff(t: Tree, lo: int, hi: int, a: int, b: int)
    requires lo < hi && Canonical(t, lo, hi) && a < b
    ensures (Intersect(t, lo, hi, a, b) != 0 <==> exists x :: a <= x < b && In(x, t, lo, hi))
            <==> t.status != Full || (lo <= b && a <= hi)
  {
    var m := Members(t, lo, hi, a, b);
    if x :| x in m {
      assert In(x, t, lo, hi);
    } else {
      assert forall x | a <= x < b :: In(x, t, lo, hi) ==> x in m;
      assert m == {};
    }
    if t.status != Full || (lo <= b && a <= hi) {
      IntersectCounts(t, lo, hi, a, b);
    }
  }

  /** A full root and a query beyond it: the count is negative, so `intersects` claims an
      overlap that does not exist. */
  lemma FullRootMiscounts()
    ensures var t := Run(0, 4, [Call(Fill, 0, 4)]);
            && t.status == Full && Intersect(t, 0, 4, 6, 8) == -2 && |Members(t, 0, 4, 6, 8)| == 0
            && Intersects(t, 0, 4, 6, 8, false) && !exists x :: 6 <= x < 8 && In(x, t, 0, 4)
  {
    var calls := [Call(Fill, 0, 4)];
    assert calls[..0] == [];
    assert Run(0, 4, calls) == Step(Run(0, 4, []), 0, 4, calls[0]);
    assert Members(Run(0, 4, calls), 0, 4, 6, 8) == {};
  }

  // ---------- unsigned 64-bit indices ----------

  const TWO64: nat := 0x1_0000_0000_0000_0000

  function Wrapped(x: int): nat {
    x % TWO64
  }

  /** The same count in wrapping 64-bit arithmetic. */
  function Intersect64(t: Tree, lo: int, hi: int, a: int, b: int): nat
    decreases t
  {
    match t.status
    case Full => Wrapped(Min(hi, b) - Max(lo, a))
    case Empty => 0
    case Half =>
      var mid := Mid(lo, hi);
      Wrapped(
        (if lo < b && mid > a && t.left.Some? then Intersect64(t.left.value, lo, mid, a, b) else 0) +
        (if mid < b && hi > a && t.right.Some? then Intersect64(t.right.value, mid, hi, a, b) else 0))
  }

  lemma WrapSum(x: int, y: int)
    ensures Wrapped(Wrapped(x) + Wrapped(y)) == Wrapped(x + y) && Wrapped(0) == 0
  {
    var p, q := x / TWO64, y / TWO64;
    assert x + y == (p + q) * TWO64 + (x % TWO64 + y % TWO64);
  }

  lemma {:induction false} Intersect64Wraps(t: Tree, lo: int, hi: int, a: int, b: int)
    ensures Intersect64(t, lo, hi, a, b) == Wrapped(Intersect(t, lo, hi, a, b))
    decreases t
  {
    WrapSum(0, 0);
    hide Wrapped;
    if t.status == Half {
      var mid := Mid(lo, hi);
      var l := if lo < b && mid > a && t.left.Some? then Intersect(t.left.value, lo, mid, a, b) else 0;
      var r := if mid < b && hi > a && t.right.Some? then Intersect(t.right.value, mid, hi, a, b) else 0;
      if t.left.Some? { Intersect64Wraps(t.left.value, lo, mid, a, b); }
      if t.right.Some? { Intersect64Wraps(t.right.value, mid, hi, a, b); }
      WrapSum(l, r);
    }
  }

  lemma CountFits(t: Tree, lo: int, hi: int, a: int, b: int)
    requires lo < hi && a < b && Canonical(t, lo, hi) && (t.status != Full || (lo <= b && a <= hi))
    ensures 0 <= Intersect(t, lo, hi, a, b) <= b - a
  {
    hide Canonical, Intersect, Has;
    IntersectCounts(t, lo, hi, a, b);
    MembersFit(t, lo, hi, a, b);
  }

  lemma MembersFit(t: Tree, lo: int, hi: int, a: int, b: int)
    requires a < b
    ensures |Members(t, lo, hi, a, b)| <= b - a
  {
    var m, q := Members(t, lo, hi, a, b), Interval(a, b);
    assert m <= q;
    hide Members, Interval;
    assert q == m + (q - m);
  }

  /** Whether arithmetic wraps or not, `contains` is the subset test for every 64-bit query,
      and `intersects` is the overlap test under the same condition as above: a wrapped
      difference is never the query's length and never zero. */
  lemma WrappingQueries(t: Tree, lo: int, hi: int, a: int, b: int)
    requires 0 <= lo < hi < TWO64 && 0 <= a < b < TWO64 && Canonical(t, lo, hi)
    ensures Intersect64(t, lo, hi, a, b) == b - a <==> forall x | a <= x < b :: In(x, t, lo, hi)
    ensures (Intersect64(t, lo, hi, a, b) != 0 <==> exists x :: a <= x < b && In(x, t, lo, hi))
            <==> t.status != Full || (lo <= b && a <= hi)
  {
    hide Canonical, In;
    Intersect64Wraps(t, lo, hi, a, b);
    FullCountMeansSubset(t, lo, hi, a, b);
    NonzeroMeansOverlapIff(t, lo, hi, a, b);
    if t.status != Full || (lo <= b && a <= hi) {
      CountFits(t, lo, hi, a, b);
      WrapSmall(Intersect(t, lo, hi, a, b), b - a);
    } else {
      assert Intersect(t, lo, hi, a, b) == Min(hi, b) - Max(lo, a);
      WrapBelow(lo, hi, a, b);
    }
    hide Wrapped, Intersect64;
  }

  /** The two kinds of index: unsigned 64-bit ones, whose arithmetic wraps, and unbounded ones. */
  function Count(t: Tree, lo: int, hi: int, a: int, b: int, wraps: bool): int {
    if wraps then Intersect64(t, lo, hi, a, b) else Intersect(t, lo, hi, a, b)
  }

  predicate Indexable(x: int, wraps: bool) {
    wraps ==> 0 <= x < TWO64
  }

  predicate Contains(t: Tree, lo: int, hi: int, a: int, b: int, wraps: bool) {
    a >= b || Count(t, lo, hi, a, b, wraps) == b - a
  }

  predicate Intersects(t: Tree, lo: int, hi: int, a: int, b: int, wraps: bool) {
    a < b && Count(t, lo, hi, a, b, wraps) != 0
  }

  /** `contains` is the subset test, for every query and either kind of index. */
  lemma ContainsMeansSubset(t: Tree, lo: int, hi: int, a: int, b: int, wraps: bool)
    requires lo < hi && Canonical(t, lo, hi)
    requires Indexable(lo, wraps) && Indexable(hi, wraps) && Indexable(a, wraps) && Indexable(b, wraps)
    ensures Contains(t, lo, hi, a, b, wraps) <==> forall x | a <= x < b :: In(x, t, lo, hi)
  {
    hide Canonical, In, Intersect, Intersect64;
    if a < b {
      FullCountMeansSubset(t, lo, hi, a, b);
      if wraps { WrappingQueries(t, lo, hi, a, b); }
    }
  }

  /** `intersects` is the overlap test exactly when the root is not full or the query does
      not lie strictly outside it. */
  lemma IntersectsMeansOverlapIff(t: Tree, lo: int, hi: int, a: int, b: int, wraps: bool)
    requires lo < hi && Canonical(t, lo, hi) && a < b
    requires Indexable(lo, wraps) && Indexable(hi, wraps) && Indexable(a, wraps) && Indexable(b, wraps)
    ensures (Intersects(t, lo, hi, a, b, wraps) <==> exists x :: a <= x < b && In(x, t, lo, hi))
            <==> t.status != Full || (lo <= b && a <= hi)
  {
    hide Canonical, In, Intersect, Intersect64;
    NonzeroMeansOverlapIff(t, lo, hi, a, b);
    if wraps { WrappingQueries(t, lo, hi, a, b); }
  }

  function Sum(x: int, wraps: bool): int {
    if wraps then Wrapped(x) else x
  }

  lemma SumOfSums(x: int, y: int, wraps: bool)
    ensures Sum(0, wraps) == 0 && Sum(Sum(x, wraps) + Sum(y, wraps), wraps) == Sum(x + y, wraps)
  {
    hide Wrapped;
    WrapSum(x, y);
  }

  lemma CountIsSum(t: Tree, lo: int, hi: int, a: int, b: int, wraps: bool)
    ensures Count(t, lo, hi, a, b, wraps) == Sum(Intersect(t, lo, hi, a, b), wraps)
  {
    hide Wrapped, Intersect, Intersect64;
    Intersect64Wraps(t, lo, hi, a, b);
  }

  lemma WrapSmall(n: int, len: int)
    requires 0 <= n <= len < TWO64
    ensures Wrapped(n) == n
  {
  }

  /** A query strictly outside a full root: the wrapped difference is neither 0 nor b - a. */
  lemma WrapBelow(lo: int, hi: int, a: int, b: int)
    requires 0 <= lo < hi < TWO64 && 0 <= a < b < TWO64 && !(lo <= b && a <= hi)
    ensures Wrapped(Min(hi, b) - Max(lo, a)) != b - a && Wrapped(Min(hi, b) - Max(lo, a)) != 0
  {
    var d := Min(hi, b) - Max(lo, a);
    assert d < 0 < d + TWO64;
    assert Wrapped(d) == d + TWO64;
  }

  /** A build with overflow checks stops in the subtraction of some visited node. */
  predicate Underflows(t: Tree, lo: int, hi: int, a: int, b: int)
    decreases t
  {
    match t.status
    case Full => Min(hi, b) < Max(lo, a)
    case Empty => false
    case Half =>
      var mid := Mid(lo, hi);
      || (lo < b && mid > a && t.left.Some? && Underflows(t.left.value, lo, mid, a, b))
      || (mid < b && hi > a && t.right.Some? && Underflows(t.right.value, mid, hi, a, b))
  }

  lemma {:induction false} UnderflowsIff(t: Tree, lo: int, hi: int, a: int, b: int)
    requires lo < hi && a < b && Canonical(t, lo, hi)
    ensures Underflows(t, lo, hi, a, b) <==> t.status == Full && !(lo <= b && a <= hi)
    decreases t
  {
    if t.status == Half {
      var mid := Mid(lo, hi);
      UnderflowsIff(t.left.value, lo, mid, a, b);
      UnderflowsIff(t.right.value, mid, hi, a, b);
    }
  }

  // ---------- the tree in place ----------

  class RangeSetNode {
    var left: RangeSetNode?
    var right: RangeSetNode?
    var status: Status
    ghost var repr: set<object>

    /** Boxed children are owned: each node's footprint is its own and its children's,
        all disjoint. */
    ghost predicate Valid()
      reads this, repr
      decreases repr
    {
      && this in repr
      && (left != null ==> left in repr && left.repr <= repr - {this} && left.Valid())
      && (right != null ==> right in repr && right.repr <= repr - {this} && right.Valid())
      && (left != null && right != null ==> left.repr !! right.repr)
    }

    ghost function Model(): Tree
      requires Valid()
      reads this, repr
      decreases repr
    {
      Node(status,
           if left == null then None else Some(left.Model()),
           if right == null then None else Some(right.Model()))
    }

    constructor (status: Status)
      ensures Valid() && fresh(repr)
      ensures Model() == Node(status, None, None)
    {
      left, right := null, null;
      this.status := status;
      repr := {this};
    }

    /** A missing child starts with its parent's status. */
    method EnsureLeft()
      requires Valid()
      modifies this
      ensures Valid() && left != null && right == old(right) && fresh(repr - old(repr))
      ensures Model() == old(Model()).(left := Some(ChildOr(old(Model()).left, old(status))))
    {
      if left == null {
        left := new RangeSetNode(status);
        repr := repr + left.repr;
      }
    }

    method EnsureRight()
      requires Valid()
      modifies this
      ensures Valid() && right != null && left == old(left) && fresh(repr - old(repr))
      ensures Model() == old(Model()).(right := Some(ChildOr(old(Model()).right, old(status))))
    {
      if right == null {
        right := new RangeSetNode(status);
        repr := repr + right.repr;
      }
    }

    method OperateLeft(lo: int, hi: int, a: int, b: int, op: Op)
      requires Valid() && left != null && a < b && lo < hi
      modifies repr
      ensures Valid() && left != null && right == old(right) && fresh(repr - old(repr))
      ensures Model() == old(Model()).(left := Some(Operate(old(Model()).left.value, lo, hi, a, b, op)))
      decreases hi - lo, 1
    {
      left.Operation(lo, hi, a, b, op);
      repr := repr + left.repr;
    }

    method OperateRight(lo: int, hi: int, a: int, b: int, op: Op)
      requires Valid() && right != null && a < b && lo < hi
      modifies repr
      ensures Valid() && right != null && left == old(left) && fresh(repr - old(repr))
      ensures Model() == old(Model()).(right := Some(Operate(old(Model()).right.value, lo, hi, a, b, op)))
      decreases hi - lo, 1
    {
      right.Operation(lo, hi, a, b, op);
      repr := repr + right.repr;
    }

    /** Takes the children's common status, and drops them unless they differ. */
    method Collapse()
      requires Valid() && left != null && right != null
      modifies this
      ensures Valid() && repr == old(repr)
      ensures Model() == Join(old(Model()).left.value, old(Model()).right.value)
    {
      ghost var m := Model();
      assert m.left == Some(left.Model()) && left.Model().status == left.status;
      assert m.right == Some(right.Model()) && right.Model().status == right.status;
      status := Combine(left.status, right.status);
      assert left.Model() == m.left.value && right.Model() == m.right.value;
      if status != Half {
        left := null;
        right := null;
      }
    }

    method Operation(lo: int, hi: int, a: int, b: int, op: Op)
      requires Valid() && a < b && lo < hi
      modifies repr
      ensures Valid() && fresh(repr - old(repr))
      ensures Model() == Operate(old(Model()), lo, hi, a, b, op)
      decreases hi - lo, 0
    {
      if a <= lo && b >= hi {
        status := Applied(op);
        left := null;
        right := null;
        return;
      }
      var mid := Mid(lo, hi);
      EnsureLeft();
      if lo < b && mid > a {
        OperateLeft(lo, mid, a, b, op);
      }
      EnsureRight();
      if mid < b && hi > a {
        OperateRight(mid, hi, a, b, op);
      }
      Collapse();
    }

    /** The source's recursive count; an absent child of a mixed node cannot occur. */
    method IntersectSize(lo: int, hi: int, a: int, b: int, wraps: bool) returns (n: int)
      requires Valid() && Canonical(Model(), lo, hi)
      ensures n == Sum(Intersect(Model(), lo, hi, a, b), wraps)
      decreases repr
    {
      hide Sum;
      SumOfSums(0, 0, wraps);
      if status == Full {
        return Sum(Min(hi, b) - Max(lo, a), wraps);
      } else if status == Empty {
        return 0;
      }
      var mid := Mid(lo, hi);
      n := 0;
      ghost var sum := 0;
      if lo < b && mid > a {
        var k := left.IntersectSize(lo, mid, a, b, wraps);
        SumOfSums(0, Intersect(left.Model(), lo, mid, a, b), wraps);
        n, sum := Sum(n + k, wraps), Intersect(left.Model(), lo, mid, a, b);
      }
      if mid < b && hi > a {
        var k := right.IntersectSize(mid, hi, a, b, wraps);
        SumOfSums(sum, Intersect(right.Model(), mid, hi, a, b), wraps);
        n := Sum(n + k, wraps);
      }
    }
  }

  class RangeSet {
    var root: RangeSetNode
    const lo: int
    const hi: int
    const wraps: bool

    ghost predicate Valid()
      reads this, root, root.repr
    {
      this !in root.repr && lo < hi && Indexable(lo, wraps) && Indexable(hi, wraps) && root.Valid() && Canonical(root.Model(), lo, hi)
    }

    /** The set of integers that is held. */
    ghost function Contents(): iset<int>
      requires Valid()
      reads this, root, root.repr
    {
      iset x | In(x, root.Model(), lo, hi)
    }

    constructor (lo: int, hi: int, wraps: bool)
      requires lo < hi && Indexable(lo, wraps) && Indexable(hi, wraps)
      ensures Valid() && fresh(root) && fresh(root.repr) && this.lo == lo && this.hi == hi && this.wraps == wraps
      ensures Contents() == iset{}
    {
      root := new RangeSetNode(Empty);
      this.lo, this.hi, this.wraps := lo, hi, wraps;
    }

    method Insert(a: int, b: int)
      requires Valid()
      modifies root, root.repr
      ensures Valid() && fresh(root.repr - old(root.repr))
      ensures forall x :: x in Contents() <==> x in old(Contents()) || (a <= x < b && lo <= x < hi)
    {
      if a >= b { return; }
      OperateIsSetUpdate(root.Model(), lo, hi, a, b, Fill);
      root.Operation(lo, hi, a, b, Fill);
    }

    method Remove(a: int, b: int)
      requires Valid()
      modifies root, root.repr
      ensures Valid() && fresh(root.repr - old(root.repr))
      ensures forall x :: x in Contents() <==> x in old(Contents()) && !(a <= x < b)
    {
      if a >= b { return; }
      OperateIsSetUpdate(root.Model(), lo, hi, a, b, Clear);
      root.Operation(lo, hi, a, b, Clear);
    }

    method ContainsRange(a: int, b: int) returns (r: bool)
      requires Valid() && Indexable(a, wraps) && Indexable(b, wraps)
      ensures r <==> forall x | a <= x < b :: x in Contents()
    {
      ContainsMeansSubset(root.Model(), lo, hi, a, b, wraps);
      ghost var t := root.Model();
      if a >= b { return true; }
      var v := root.IntersectSize(lo, hi, a, b, wraps);
      CountIsSum(t, lo, hi, a, b, wraps);
      assert v == Count(t, lo, hi, a, b, wraps) && root.Model() == t;
      assert forall x :: x in Contents() <==> In(x, t, lo, hi);
      return v == b - a;
    }

    method IntersectsRange(a: int, b: int) returns (r: bool)
      requires Valid() && Indexable(a, wraps) && Indexable(b, wraps)
      ensures a >= b ==> !r
      ensures a < b ==> ((r <==> exists x :: a <= x < b && x in Contents())
                         <==> root.status != Full || (lo <= b && a <= hi))
    {
      if a >= b { return false; }
      IntersectsMeansOverlapIff(root.Model(), lo, hi, a, b, wraps);
      ghost var t := root.Model();
      var v := root.IntersectSize(lo, hi, a, b, wraps);
      CountIsSum(t, lo, hi, a, b, wraps);
      assert v == Count(t, lo, hi, a, b, wraps) && root.Model() == t;
      assert forall x :: x in Contents() <==> In(x, t, lo, hi);
      return v != 0;
    }
  }
}
