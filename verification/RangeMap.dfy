/** An interval map: an ordered map from segment starts to segment ends and values, whose
    queries look at one predecessor only. */
module RangeMap {
  import opened IntSets
  import opened Wrappers

  datatype Seg<V> = Seg(end: int, value: V)

  type Segs<V> = map<int, Seg<V>>

  /** Segments are non-empty and pairwise disjoint. */
  ghost predicate Disjoint<V>(m: Segs<V>) {
    && (forall s | s in m :: s < m[s].end)
    && (forall s, t | s in m && t in m && s < t :: m[s].end <= t)
  }

  /** No segment meets [a, b). */
  ghost predicate Free<V>(m: Segs<V>, a: int, b: int) {
    forall s | s in m :: m[s].end <= a || b <= s
  }

  /** The last segment that starts before a bound: the ordered map's `range(..bound)`,
      taken from the back. */
  function LastBelow<V>(m: Segs<V>, bound: int): (r: Option<int>)
    ensures r.None? <==> forall s | s in m :: bound <= s
    ensures r.Some? ==> r.value in m && r.value < bound && forall s | s in m && s < bound :: s <= r.value
  {
    var below := set s | s in m.Keys && s < bound;
    assert forall s | s in m && s < bound :: s in below;
    if below == {} then None
    else
      HasMax(below);
      var k :| k in below && forall j | j in below :: j <= k;
      Some(k)
  }

  /** The first segment that starts at or after a bound: iteration in ascending order. */
  function FirstFrom<V>(m: Segs<V>, bound: int): (r: Option<int>)
    ensures r.None? <==> forall s | s in m :: s < bound
    ensures r.Some? ==> r.value in m && bound <= r.value && forall s | s in m && bound <= s :: r.value <= s
  {
    var above := set s | s in m.Keys && bound <= s;
    assert forall s | s in m && bound <= s :: s in above;
    if above == {} then None
    else
      HasMin(above);
      var k :| k in above && forall j | j in above :: k <= j;
      Some(k)
  }

  // ---------- queries ----------

  /** The segment that holds a key. */
  function GetKeyValue<V>(m: Segs<V>, key: int): (r: Option<int>)
    ensures r.Some? ==> r.value in m
  {
    match LastBelow(m, key + 1)
    case Some(s) => if m[s].end > key then Some(s) else None
    case None => None
  }

  function Get<V>(m: Segs<V>, key: int): Option<V> {
    match GetKeyValue(m, key)
    case Some(s) => Some(m[s].value)
    case None => None
  }

  predicate IsRangeFree<V>(m: Segs<V>, a: int, b: int) {
    a < b &&
    (match LastBelow(m, a + 1) case Some(s) => m[s].end <= a case None => true) &&
    (match FirstFrom(m, a) case Some(s) => b <= s case None => true)
  }

  function RangeContain<V>(m: Segs<V>, a: int, b: int): Option<int> {
    match LastBelow(m, a + 1)
    case Some(s) => if m[s].end >= b then Some(s) else None
    case None => None
  }

  function RangeMatch<V>(m: Segs<V>, a: int, b: int): Option<int> {
    match LastBelow(m, a + 1)
    case Some(s) => if s == a && m[s].end == b then Some(s) else None
    case None => None
  }

  function RangeIntersect<V>(m: Segs<V>, a: int, b: int): Option<int> {
    match LastBelow(m, b)
    case Some(s) => if m[s].end > a then Some(s) else None
    case None => None
  }

  /** One predecessor finds the holder of a key whenever a scan over all segments would. */
  lemma GetScans<V>(m: Segs<V>, key: int)
    requires Disjoint(m)
    ensures forall s :: GetKeyValue(m, key) == Some(s) <==> s in m && s <= key < m[s].end
  {
    var p := LastBelow(m, key + 1);
    forall s | s in m && s <= key < m[s].end ensures p == Some(s) {
      assert p.Some? && s <= p.value;
    }
  }

  lemma IsRangeFreeScans<V>(m: Segs<V>, a: int, b: int)
    requires Disjoint(m)
    ensures IsRangeFree(m, a, b) <==> a < b && Free(m, a, b)
  {
    var p, f := LastBelow(m, a + 1), FirstFrom(m, a);
    if IsRangeFree(m, a, b) {
      forall s | s in m ensures m[s].end <= a || b <= s {
        if s <= a { assert p.Some? && s <= p.value; }
      }
    }
  }

  /** Works for every range, empty and inverted ones included: the last candidate reaches
      at least as far as any other. */
  lemma RangeContainScans<V>(m: Segs<V>, a: int, b: int)
    requires Disjoint(m)
    ensures RangeContain(m, a, b).Some? <==> exists s :: s in m && s <= a && b <= m[s].end
    ensures forall s | RangeContain(m, a, b) == Some(s) :: s in m && s <= a && b <= m[s].end
    ensures a < b ==> forall s | s in m && s <= a && b <= m[s].end :: RangeContain(m, a, b) == Some(s)
  {
    var p := LastBelow(m, a + 1);
    forall s | s in m && s <= a && b <= m[s].end
      ensures RangeContain(m, a, b).Some? && (a < b ==> p == Some(s))
    {
      assert p.Some? && s <= p.value;
    }
  }

  lemma RangeMatchScans<V>(m: Segs<V>, a: int, b: int)
    requires Disjoint(m)
    ensures RangeMatch(m, a, b) == if a in m && m[a].end == b then Some(a) else None
  {
  }

  /** The answer is the last segment that meets the range. */
  lemma RangeIntersectScans<V>(m: Segs<V>, a: int, b: int)
    requires Disjoint(m)
    ensures RangeIntersect(m, a, b).None? <==> Free(m, a, b)
    ensures forall s | RangeIntersect(m, a, b) == Some(s) ::
              s in m && s < b && a < m[s].end && forall t | t in m && t < b && a < m[t].end :: t <= s
  {
    var p := LastBelow(m, b);
    forall s | s in m && s < b && a < m[s].end ensures RangeIntersect(m, a, b).Some? {
      assert p.Some? && s <= p.value;
    }
  }

  /** Seen as maps from points to values, m' is m with `o` on [a, b). */
  ghost predicate Overwrites<V>(m: Segs<V>, m': Segs<V>, a: int, b: int, o: Option<V>) {
    forall x {:trigger Get(m', x)} :: Get(m', x) == if a <= x < b then o else Get(m, x)
  }

  lemma Holder<V>(m: Segs<V>, x: int, s: int)
    requires Disjoint(m) && s in m && s <= x < m[s].end
    ensures Get(m, x) == Some(m[s].value)
  {
    GetScans(m, x);
    assert GetKeyValue(m, x) == Some(s);
  }

  lemma NoHolder<V>(m: Segs<V>, x: int)
    requires Disjoint(m) && forall s | s in m :: !(s <= x < m[s].end)
    ensures Get(m, x) == None
  {
  }

  /** Two maps with the same holder of a point give it the same value. */
  lemma SameHolder<V>(m: Segs<V>, m': Segs<V>, x: int)
    requires Disjoint(m) && Disjoint(m')
    requires forall s | s in m && s <= x < m[s].end :: s in m' && x < m'[s].end && m'[s].value == m[s].value
    requires forall s | s in m' && s <= x < m'[s].end :: s in m && x < m[s].end
    ensures Get(m, x) == Get(m', x)
  {
    if s :| s in m && s <= x < m[s].end {
      Holder(m, x, s);
      Holder(m', x, s);
    } else {
      NoHolder(m, x);
      NoHolder(m', x);
    }
  }

  lemma SetOverwrites<V>(m: Segs<V>, a: int, seg: Seg<V>)
    requires Disjoint(m) && Disjoint(m[a := seg])
    requires a in m ==> m[a].end <= seg.end && m[a].value == seg.value
    ensures Overwrites(m, m[a := seg], a, seg.end, Some(seg.value))
  {
    var m' := m[a := seg];
    forall x ensures Get(m', x) == if a <= x < seg.end then Some(seg.value) else Get(m, x) {
      if a <= x < seg.end {
        Holder(m', x, a);
      } else {
        SameHolder(m, m', x);
      }
    }
  }

  lemma RemoveOverwrites<V>(m: Segs<V>, a: int)
    requires Disjoint(m) && a in m
    ensures Disjoint(m - {a}) && Overwrites(m, m - {a}, a, m[a].end, None)
  {
    var m' := m - {a};
    forall x ensures Get(m', x) == if a <= x < m[a].end then None else Get(m, x) {
      if a <= x < m[a].end {
        NoHolder(m', x);
      } else {
        SameHolder(m, m', x);
      }
    }
  }

  lemma ShrinkOverwrites<V>(m: Segs<V>, a: int, b: int)
    requires Disjoint(m) && a in m && a < b < m[a].end
    ensures var m' := m[a := m[a].(end := b)]; Disjoint(m') && Overwrites(m, m', b, m[a].end, None)
  {
    var m' := m[a := m[a].(end := b)];
    forall x ensures Get(m', x) == if b <= x < m[a].end then None else Get(m, x) {
      if b <= x < m[a].end {
        NoHolder(m', x);
      } else {
        SameHolder(m, m', x);
      }
    }
  }

  // ---------- the free-range search ----------

  /** [s, s + size) is a gap inside the window [lo, hi). */
  ghost predicate Fits<V>(m: Segs<V>, lo: int, hi: int, size: int, s: int) {
    lo <= s && s + size <= hi && Free(m, s, s + size)
  }

  /** The state of the search: everything before `cur` ends by `from`, no gap starts before
      `from`, and `from` lies in the window unless `cur` covers the window's start. */
  ghost predicate Scanning<V>(m: Segs<V>, lo: int, hi: int, size: int, from: int, cur: Option<int>) {
    && (cur.Some? ==> cur.value in m && from <= cur.value)
    && from + size <= hi
    && (lo <= from || (cur == Some(from) && m[from].end > lo && from < hi))
    && (forall s | s in m && (cur.None? || s < cur.value) :: m[s].end <= from)
    && (forall s | Fits(m, lo, hi, size, s) :: from <= s)
  }

  lemma ScanStarts<V>(m: Segs<V>, lo: int, hi: int, size: int)
    requires Disjoint(m) && lo < hi && size > 0 && lo + size <= hi
    ensures var p := LastBelow(m, lo + 1);
            var start := if p.Some? && m[p.value].end > lo then p.value else lo;
            start <= lo && Scanning(m, lo, hi, size, start, FirstFrom(m, start))
  {
    var p := LastBelow(m, lo + 1);
    if p.Some? && m[p.value].end > lo {
      assert FirstFrom(m, p.value) == Some(p.value);
    }
  }

  lemma ScanSteps<V>(m: Segs<V>, lo: int, hi: int, size: int, from: int, n: int)
    requires Disjoint(m) && size > 0 && Scanning(m, lo, hi, size, from, Some(n))
    requires n < from + size
    ensures n in m && forall s | Fits(m, lo, hi, size, s) :: m[n].end <= s
    ensures m[n].end + size <= hi ==> Scanning(m, lo, hi, size, m[n].end, FirstFrom(m, n + 1))
  {
  }

  lemma ScanEnds<V>(m: Segs<V>, lo: int, hi: int, size: int, from: int, cur: Option<int>)
    requires Disjoint(m) && size > 0 && Scanning(m, lo, hi, size, from, cur)
    requires cur.None? || hi <= cur.value || from + size <= cur.value
    ensures Fits(m, lo, hi, size, from) && forall s | Fits(m, lo, hi, size, s) :: from <= s
  {
  }

  // ---------- the map in place ----------

  class RangeMap<V> {
    var segs: Segs<V>

    ghost predicate Valid()
      reads this
    {
      Disjoint(segs)
    }

    constructor ()
      ensures Valid() && segs == map[]
    {
      segs := map[];
    }

    method TryInsert(a: int, b: int, value: V) returns (ok: bool)
      requires Valid() && a < b
      modifies this
      ensures Valid()
      ensures ok <==> Free(old(segs), a, b)
      ensures segs == if ok then old(segs)[a := Seg(b, value)] else old(segs)
      ensures ok ==> Overwrites(old(segs), segs, a, b, Some(value))
    {
      ghost var m := segs;
      RangeIntersectScans(segs, a, b);
      match LastBelow(segs, b) {
        case Some(s) =>
          if segs[s].end > a {
            return false;
          }
        case None =>
      }
      assert a !in segs;
      segs := segs[a := Seg(b, value)];
      ok := true;
      SetOverwrites(m, a, Seg(b, value));
    }

    method ForceRemoveOne(a: int, b: int) returns (value: V)
      requires Valid() && a in segs && segs[a].end == b
      modifies this
      ensures Valid() && segs == old(segs) - {a} && value == old(segs)[a].value
      ensures Overwrites(old(segs), segs, a, b, None)
    {
      ghost var m := segs;
      value := segs[a].value;
      segs := segs - {a};
      RemoveOverwrites(m, a);
    }

    method ExtendBack(a: int, b: int) returns (ok: bool)
      requires Valid() && a in segs
      modifies this
      ensures Valid()
      ensures ok <==> old(segs)[a].end < b && Free(old(segs), old(segs)[a].end, b)
      ensures segs == if ok then old(segs)[a := old(segs)[a].(end := b)] else old(segs)
      ensures ok ==> Overwrites(old(segs), segs, a, b, Some(old(segs)[a].value))
    {
      ghost var m := segs;
      var end := segs[a].end;
      IsRangeFreeScans(segs, end, b);
      if !IsRangeFree(segs, end, b) {
        return false;
      }
      segs := segs[a := segs[a].(end := b)];
      ok := true;
      SetOverwrites(m, a, segs[a]);
    }

    method ReduceBack(a: int, b: int) returns (ok: bool)
      requires Valid() && a in segs
      modifies this
      ensures Valid()
      ensures ok <==> a <= b < old(segs)[a].end
      ensures !ok ==> segs == old(segs)
      ensures ok ==> segs == if a == b then old(segs) - {a} else old(segs)[a := old(segs)[a].(end := b)]
      ensures ok ==> Overwrites(old(segs), segs, b, old(segs)[a].end, None)
    {
      ghost var m := segs;
      if a <= b && b < segs[a].end {
        if a == b {
          segs := segs - {a};
          RemoveOverwrites(m, a);
        } else {
          segs := segs[a := segs[a].(end := b)];
          ShrinkOverwrites(m, a, b);
        }
        return true;
      } else {
        return false;
      }
    }

    /** First fit: the least gap of the given size in the window, or none if none exists. */
    method FindFreeRange(lo: int, hi: int, size: int) returns (r: Option<int>)
      requires Valid() && lo < hi && size > 0
      ensures r.Some? ==> Fits(segs, lo, hi, size, r.value)
      ensures r.Some? ==> forall s | Fits(segs, lo, hi, size, s) :: r.value <= s
      ensures r.None? ==> forall s :: !Fits(segs, lo, hi, size, s)
    {
      hide LastBelow, FirstFrom, Scanning, Disjoint;
      var start := lo;
      if start + size > hi {
        return None;
      }
      ScanStarts(segs, lo, hi, size);
      match LastBelow(segs, start + 1) {
        case Some(s) =>
          if segs[s].end > start {
            start := if start <= s then start else s;
          }
        case None =>
      }
      var lastEnd := start;
      var cur := FirstFrom(segs, start);
      while cur.Some? && cur.value < hi
        invariant Scanning(segs, lo, hi, size, lastEnd, cur)
        decreases hi - (if cur.Some? then cur.value else hi)
      {
        var n := cur.value;
        if lastEnd + size <= n {
          break;
        }
        ScanSteps(segs, lo, hi, size, lastEnd, n);
        if segs[n].end + size > hi {
          return None;
        }
        lastEnd := segs[n].end;
        cur := FirstFrom(segs, n + 1);
      }
      ScanEnds(segs, lo, hi, size, lastEnd, cur);
      return Some(lastEnd);
    }
  }
}
