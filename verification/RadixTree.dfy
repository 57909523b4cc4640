/** A three-level radix tree kept in table frames, with leaves allowed at every level.
    Frames, indices and entry words are left abstract: nothing here depends on how an
    entry packs its bits. A key is its three indices, most significant first. */
module RadixTree {
  import opened Wrappers

  datatype Entry<F, W> = Invalid | Pointer(to: F, word: W) | Leaf(word: W)

  type Memory<!F, !I, W> = (F, I) -> Entry<F, W>

  /** Levels are numbered from the root: 0 is Huge, 1 is Big, 2 is Small. */
  newtype Level = n: int | 0 <= n < 3

  datatype Slot<F, I> = Slot(frame: F, index: I, level: Level)

  /** The slot at which a walk ends: the first leaf, or whatever is valid at level 2. */
  function FindFrom<F, I, W>(mem: Memory<F, I, W>, f: F, key: seq<I>, level: Level): (r: Option<Slot<F, I>>)
    requires |key| == 3
    ensures r.Some? ==> level <= r.value.level && r.value.index == key[r.value.level]
    ensures r.Some? ==> var e := mem(r.value.frame, r.value.index); !e.Invalid? && (e.Leaf? || r.value.level == 2)
    decreases 3 - level as int
  {
    match mem(f, key[level])
    case Invalid => None
    case Leaf(_) => Some(Slot(f, key[level], level))
    case Pointer(to, _) =>
      if level == 2 then Some(Slot(f, key[level], level)) else FindFrom(mem, to, key, level + 1)
  }

  /** The word found for a key together with its level: the flat map the tree stands for. */
  function Lookup<F, I, W>(mem: Memory<F, I, W>, root: F, key: seq<I>): (r: Option<(W, Level)>)
    requires |key| == 3
  {
    match FindFrom(mem, root, key, 0)
    case None => None
    case Some(s) => Some((mem(s.frame, s.index).word, s.level))
  }

  /** Two keys under the same slot of a level. */
  predicate SamePage<I(==)>(a: seq<I>, b: seq<I>, level: Level)
    requires |a| == |b| == 3
  {
    a[..level as int + 1] == b[..level as int + 1]
  }

  lemma SamePageByIndex<I>(a: seq<I>, b: seq<I>, level: Level)
    requires |a| == |b| == 3
    ensures SamePage(a, b, level) <==>
            a[0] == b[0] && (level >= 1 ==> a[1] == b[1]) && (level >= 2 ==> a[2] == b[2])
  {
    var n := level as int + 1;
    assert forall k | 0 <= k < n :: a[..n][k] == a[k] && b[..n][k] == b[k];
  }

  /** `path` gives every table frame the indices that lead to it from the root. A frame has
      one path, so a table has one parent slot, and tables of different levels differ. */
  ghost predicate Tree<F(!new), I(!new), W(!new)>(mem: Memory<F, I, W>, root: F, path: map<F, seq<I>>) {
    && root in path && path[root] == []
    && (forall f | f in path :: |path[f]| <= 2)
    && (forall f, i | f in path && |path[f]| < 2 && mem(f, i).Pointer? ::
          mem(f, i).to in path && path[mem(f, i).to] == path[f] + [i])
  }

  /** The table frame holding the entry of a key at a level, if the walk gets there. */
  function TableAt<F, I, W>(mem: Memory<F, I, W>, root: F, key: seq<I>, level: Level): Option<F>
    requires |key| == 3
    decreases level as int
  {
    if level == 0 then Some(root)
    else
      match TableAt(mem, root, key, level - 1)
      case None => None
      case Some(f) =>
        var e := mem(f, key[level - 1]);
        if e.Pointer? then Some(e.to) else None
  }

  /** The new memory has `e` in one slot and is the old one everywhere else. */
  ghost predicate Stored<F(!new), I(!new), W(!new)>(mem: Memory<F, I, W>, mem': Memory<F, I, W>, f: F, i: I, e: Entry<F, W>) {
    && mem'(f, i) == e
    && (forall g, j :: (g, j) != (f, i) ==> mem'(g, j) == mem(g, j))
  }

  lemma {:induction false} TableHasPath<F(!new), I(!new), W(!new)>(
      mem: Memory<F, I, W>, root: F, path: map<F, seq<I>>, key: seq<I>, level: Level)
    requires |key| == 3 && Tree(mem, root, path)
    requires TableAt(mem, root, key, level).Some?
    ensures var f := TableAt(mem, root, key, level).value; f in path && path[f] == key[..level as int]
    decreases level as int
  {
    if level > 0 {
      TableHasPath(mem, root, path, key, level - 1);
      assert key[..level as int] == key[..level as int - 1] + [key[level - 1]];
    }
  }

  lemma {:induction false} FindPassesTable<F(!new), I(!new), W(!new)>(mem: Memory<F, I, W>, root: F, key: seq<I>, level: Level)
    requires |key| == 3
    requires TableAt(mem, root, key, level).Some?
    ensures FindFrom(mem, root, key, 0) == FindFrom(mem, TableAt(mem, root, key, level).value, key, level)
    decreases level as int
  {
    if level > 0 {
      FindPassesTable(mem, root, key, level - 1);
    }
  }

  /** A walk that does not share the stored slot's page never reads that slot. */
  lemma {:induction false} FindElsewhere<F(!new), I(!new), W(!new)>(
      mem: Memory<F, I, W>, mem': Memory<F, I, W>, root: F, path: map<F, seq<I>>,
      f: F, i: I, e: Entry<F, W>, g: F, key: seq<I>, k: Level)
    requires |key| == 3 && Tree(mem, root, path) && f in path && g in path
    requires Stored(mem, mem', f, i, e)
    requires path[g] == key[..k as int]
    requires path[f] + [i] != key[..|path[f]| + 1]
    ensures FindFrom(mem', g, key, k) == FindFrom(mem, g, key, k)
    ensures var r := FindFrom(mem, g, key, k); r.Some? ==> (r.value.frame, r.value.index) != (f, i)
    decreases 3 - k as int
  {
    assert key[..k as int + 1] == key[..k as int] + [key[k]];
    assert mem'(g, key[k]) == mem(g, key[k]);
    if mem(g, key[k]).Pointer? && k < 2 {
      FindElsewhere(mem, mem', root, path, f, i, e, mem(g, key[k]).to, key, k + 1);
    }
  }

  /** Storing an entry of a table leaves the way to that table alone. */
  lemma {:induction false} TableAfterStore<F(!new), I(!new), W(!new)>(
      mem: Memory<F, I, W>, mem': Memory<F, I, W>, root: F, path: map<F, seq<I>>,
      f: F, i: I, e: Entry<F, W>, key: seq<I>, k: Level)
    requires |key| == 3 && Tree(mem, root, path) && f in path
    requires Stored(mem, mem', f, i, e)
    requires k as int <= |path[f]|
    ensures TableAt(mem', root, key, k) == TableAt(mem, root, key, k)
    decreases k as int
  {
    if k > 0 {
      TableAfterStore(mem, mem', root, path, f, i, e, key, k - 1);
      if TableAt(mem, root, key, k - 1).Some? {
        TableHasPath(mem, root, path, key, k - 1);
      }
    }
  }

  /** Keys of one page share their tables down to that page's level. */
  lemma {:induction false} TableShared<F(!new), I(!new), W(!new)>(
      mem: Memory<F, I, W>, root: F, a: seq<I>, b: seq<I>, level: Level, k: Level)
    requires |a| == |b| == 3 && SamePage(a, b, level) && k <= level
    ensures TableAt(mem, root, a, k) == TableAt(mem, root, b, k)
    ensures a[k] == b[k]
    decreases k as int
  {
    assert a[..level as int + 1][k] == b[..level as int + 1][k];
    if k > 0 {
      TableShared(mem, root, a, b, level, k - 1);
    }
  }

  /** A page's table, seen after a store into it, from any key of that page. */
  lemma FindInStoredPage<F(!new), I(!new), W(!new)>(
      mem: Memory<F, I, W>, mem': Memory<F, I, W>, root: F, path: map<F, seq<I>>,
      key: seq<I>, level: Level, e: Entry<F, W>, other: seq<I>)
    requires |key| == |other| == 3 && Tree(mem, root, path)
    requires TableAt(mem, root, key, level).Some?
    requires Stored(mem, mem', TableAt(mem, root, key, level).value, key[level], e)
    requires SamePage(other, key, level)
    ensures var f := TableAt(mem, root, key, level).value;
            && other[level] == key[level]
            && FindFrom(mem', root, other, 0) == FindFrom(mem', f, other, level)
  {
    var f := TableAt(mem, root, key, level).value;
    TableHasPath(mem, root, path, key, level);
    TableShared(mem, root, other, key, level, level);
    TableAfterStore(mem, mem', root, path, f, key[level], e, other, level);
    FindPassesTable(mem', root, other, level);
  }

  lemma LookupElsewhere<F(!new), I(!new), W(!new)>(
      mem: Memory<F, I, W>, mem': Memory<F, I, W>, root: F, path: map<F, seq<I>>,
      key: seq<I>, level: Level, e: Entry<F, W>, other: seq<I>)
    requires |key| == |other| == 3 && Tree(mem, root, path)
    requires TableAt(mem, root, key, level).Some?
    requires Stored(mem, mem', TableAt(mem, root, key, level).value, key[level], e)
    requires !SamePage(other, key, level)
    ensures Lookup(mem', root, other) == Lookup(mem, root, other)
  {
    var f := TableAt(mem, root, key, level).value;
    TableHasPath(mem, root, path, key, level);
    assert key[..level as int + 1] == path[f] + [key[level]];
    FindElsewhere(mem, mem', root, path, f, key[level], e, root, other, 0);
    var r := FindFrom(mem, root, other, 0);
    if r.Some? {
      assert mem'(r.value.frame, r.value.index) == mem(r.value.frame, r.value.index);
    }
  }

  /** Storing a leaf gives every key of that page the leaf's word and leaves all other
      keys as they were; what the slot held before does not matter. */
  lemma MapSetsExactlyOnePage<F(!new), I(!new), W(!new)>(
      mem: Memory<F, I, W>, mem': Memory<F, I, W>, root: F, path: map<F, seq<I>>,
      key: seq<I>, level: Level, e: Entry<F, W>, other: seq<I>)
    requires |key| == |other| == 3 && Tree(mem, root, path)
    requires TableAt(mem, root, key, level).Some?
    requires e.Leaf? || (e.Pointer? && level == 2)
    requires Stored(mem, mem', TableAt(mem, root, key, level).value, key[level], e)
    ensures Tree(mem', root, path)
    ensures Lookup(mem', root, other) ==
              if SamePage(other, key, level) then Some((e.word, level)) else Lookup(mem, root, other)
  {
    TableHasPath(mem, root, path, key, level);
    if SamePage(other, key, level) {
      FindInStoredPage(mem, mem', root, path, key, level, e, other);
    } else {
      LookupElsewhere(mem, mem', root, path, key, level, e, other);
    }
  }

  /** The slot a walk finds lies in the table of its own level. */
  lemma {:induction false} FoundSlotIsInTable<F(!new), I(!new), W(!new)>(mem: Memory<F, I, W>, root: F, key: seq<I>, k: Level)
    requires |key| == 3 && TableAt(mem, root, key, k).Some?
    requires FindFrom(mem, TableAt(mem, root, key, k).value, key, k).Some?
    ensures var s := FindFrom(mem, TableAt(mem, root, key, k).value, key, k).value;
            TableAt(mem, root, key, s.level) == Some(s.frame)
    decreases 3 - k as int
  {
    if mem(TableAt(mem, root, key, k).value, key[k]).Pointer? && k < 2 {
      FoundSlotIsInTable(mem, root, key, k + 1);
    }
  }

  /** Clearing the slot a walk found unmaps the whole page found there and nothing else. */
  lemma UnmapClearsExactlyOnePage<F(!new), I(!new), W(!new)>(
      mem: Memory<F, I, W>, mem': Memory<F, I, W>, root: F, path: map<F, seq<I>>,
      key: seq<I>, s: Slot<F, I>, other: seq<I>)
    requires |key| == |other| == 3 && Tree(mem, root, path)
    requires FindFrom(mem, root, key, 0) == Some(s)
    requires Stored(mem, mem', s.frame, s.index, Invalid)
    ensures Tree(mem', root, path)
    ensures Lookup(mem', root, other) ==
              if SamePage(other, key, s.level) then None else Lookup(mem, root, other)
  {
    FoundSlotIsInTable(mem, root, key, 0);
    if SamePage(other, key, s.level) {
      FindInStoredPage(mem, mem', root, path, key, s.level, Invalid, other);
    } else {
      LookupElsewhere(mem, mem', root, path, key, s.level, Invalid, other);
    }
  }

  /** Changing the word of a leaf leaves every walk where it was. */
  lemma {:induction false} FindAfterRewording<F(!new), I(!new), W(!new)>(
      mem: Memory<F, I, W>, mem': Memory<F, I, W>, f: F, i: I, e: Entry<F, W>, g: F, key: seq<I>, k: Level)
    requires |key| == 3 && mem(f, i).Leaf? && e.Leaf? && Stored(mem, mem', f, i, e)
    ensures FindFrom(mem', g, key, k) == FindFrom(mem, g, key, k)
    decreases 3 - k as int
  {
    if (g, key[k]) != (f, i) && mem(g, key[k]).Pointer? && k < 2 {
      FindAfterRewording(mem, mem', f, i, e, mem(g, key[k]).to, key, k + 1);
    }
  }

  lemma TreeAfterRewording<F(!new), I(!new), W(!new)>(
      mem: Memory<F, I, W>, mem': Memory<F, I, W>, root: F, path: map<F, seq<I>>, f: F, i: I, e: Entry<F, W>)
    requires Tree(mem, root, path) && e.Leaf? && Stored(mem, mem', f, i, e)
    ensures Tree(mem', root, path)
  {
  }

  /** Two memories that agree on the frames of a tree hold the same tree. */
  ghost predicate AgreeOn<F(!new), I(!new), W(!new)>(mem: Memory<F, I, W>, mem': Memory<F, I, W>, path: map<F, seq<I>>) {
    forall f, i | f in path :: mem'(f, i) == mem(f, i)
  }

  lemma {:induction false} FindStaysInside<F(!new), I(!new), W(!new)>(
      mem: Memory<F, I, W>, mem': Memory<F, I, W>, root: F, path: map<F, seq<I>>, g: F, key: seq<I>, k: Level)
    requires |key| == 3 && Tree(mem, root, path) && AgreeOn(mem, mem', path) && g in path && |path[g]| == k as int
    ensures FindFrom(mem', g, key, k) == FindFrom(mem, g, key, k)
    ensures var r := FindFrom(mem, g, key, k); r.Some? ==> r.value.frame in path
    decreases 3 - k as int
  {
    if mem(g, key[k]).Pointer? && k < 2 {
      FindStaysInside(mem, mem', root, path, mem(g, key[k]).to, key, k + 1);
    }
  }

  lemma LookupStaysInside<F(!new), I(!new), W(!new)>(
      mem: Memory<F, I, W>, mem': Memory<F, I, W>, root: F, path: map<F, seq<I>>, key: seq<I>)
    requires |key| == 3 && Tree(mem, root, path) && AgreeOn(mem, mem', path)
    ensures Tree(mem', root, path) && Lookup(mem', root, key) == Lookup(mem, root, key)
  {
    FindStaysInside(mem, mem', root, path, root, key, 0);
  }

  // ---------- creating a missing table ----------

  /** The new memory has an all-invalid frame `n` hung into an invalid slot. */
  ghost predicate Grown<F(!new), I(!new), W(!new)>(mem: Memory<F, I, W>, mem': Memory<F, I, W>, f: F, i: I, n: F) {
    && f != n
    && mem'(f, i).Pointer? && mem'(f, i).to == n
    && (forall j :: mem'(n, j).Invalid?)
    && (forall g, j :: (g, j) != (f, i) && g != n ==> mem'(g, j) == mem(g, j))
  }

  lemma TreeAfterGrowth<F(!new), I(!new), W(!new)>(
      mem: Memory<F, I, W>, mem': Memory<F, I, W>, root: F, path: map<F, seq<I>>, f: F, i: I, n: F)
    requires Tree(mem, root, path) && f in path && |path[f]| < 2 && n !in path
    requires Grown(mem, mem', f, i, n)
    ensures Tree(mem', root, path[n := path[f] + [i]])
  {
    var path' := path[n := path[f] + [i]];
    forall g, j | g in path' && |path'[g]| < 2 && mem'(g, j).Pointer?
      ensures mem'(g, j).to in path' && path'[mem'(g, j).to] == path'[g] + [j]
    {
      if (g, j) != (f, i) {
        assert g != n;
        assert mem'(g, j) == mem(g, j);
      }
    }
  }

  /** Walks that avoid the grown slot see the same tree. */
  lemma {:induction false} FindAroundGrowth<F(!new), I(!new), W(!new)>(
      mem: Memory<F, I, W>, mem': Memory<F, I, W>, root: F, path: map<F, seq<I>>,
      f: F, i: I, n: F, g: F, key: seq<I>, k: Level)
    requires |key| == 3 && Tree(mem, root, path) && f in path && |path[f]| < 2 && g in path && n !in path
    requires Grown(mem, mem', f, i, n) && mem(f, i).Invalid?
    requires path[g] == key[..k as int]
    ensures FindFrom(mem', g, key, k) == FindFrom(mem, g, key, k)
    ensures var r := FindFrom(mem, g, key, k); r.Some? ==> (r.value.frame, r.value.index) != (f, i) && r.value.frame != n
    decreases 3 - k as int
  {
    assert key[..k as int + 1] == key[..k as int] + [key[k]];
    if (g, key[k]) == (f, i) {
      assert k < 2;
      assert mem'(n, key[k + 1]).Invalid?;
    } else {
      assert mem'(g, key[k]) == mem(g, key[k]);
      if mem(g, key[k]).Pointer? && k < 2 {
        FindAroundGrowth(mem, mem', root, path, f, i, n, mem(g, key[k]).to, key, k + 1);
      }
    }
  }

  /** An empty table changes no translation. */
  lemma GrowthKeepsLookup<F(!new), I(!new), W(!new)>(
      mem: Memory<F, I, W>, mem': Memory<F, I, W>, root: F, path: map<F, seq<I>>, f: F, i: I, n: F, key: seq<I>)
    requires |key| == 3 && Tree(mem, root, path) && f in path && |path[f]| < 2 && n !in path
    requires Grown(mem, mem', f, i, n) && mem(f, i).Invalid?
    ensures Lookup(mem', root, key) == Lookup(mem, root, key)
  {
    FindAroundGrowth(mem, mem', root, path, f, i, n, root, key, 0);
    var r := FindFrom(mem, root, key, 0);
    if r.Some? {
      assert mem'(r.value.frame, r.value.index) == mem(r.value.frame, r.value.index);
    }
  }

  lemma {:induction false} TableAfterGrowth<F(!new), I(!new), W(!new)>(
      mem: Memory<F, I, W>, mem': Memory<F, I, W>, root: F, path: map<F, seq<I>>,
      f: F, i: I, n: F, key: seq<I>, k: Level)
    requires |key| == 3 && Tree(mem, root, path) && f in path && n !in path
    requires Grown(mem, mem', f, i, n)
    requires k as int <= |path[f]|
    ensures TableAt(mem', root, key, k) == TableAt(mem, root, key, k)
    decreases k as int
  {
    if k > 0 {
      TableAfterGrowth(mem, mem', root, path, f, i, n, key, k - 1);
      if TableAt(mem, root, key, k - 1).Some? {
        TableHasPath(mem, root, path, key, k - 1);
      }
    }
  }

  /** On the way to the entry of `key` at `level`, no larger page is in the way. */
  ghost predicate NoLeafAbove<F(!new), I(!new), W(!new)>(t: Memory<F, I, W>, root: F, key: seq<I>, level: Level)
    requires |key| == 3
  {
    forall k: Level | k < level && TableAt(t, root, key, k).Some? :: !t(TableAt(t, root, key, k).value, key[k]).Leaf?
  }

  /** Creating a missing table changes no translation, keeps the tree, and extends the way
      towards `key` by one level. */
  lemma CreatingTableIsInvisible<F(!new), I(!new), W(!new)>(
      t: Memory<F, I, W>, t': Memory<F, I, W>, root: F, path: map<F, seq<I>>, key: seq<I>, k: Level, f: F, n: F)
    requires |key| == 3 && Tree(t, root, path) && k < 2 && n !in path
    requires TableAt(t, root, key, k) == Some(f) && t(f, key[k]).Invalid?
    requires Grown(t, t', f, key[k], n)
    ensures f in path && Tree(t', root, path[n := path[f] + [key[k]]])
    ensures TableAt(t', root, key, k + 1) == Some(n)
    ensures forall other: seq<I> | |other| == 3 :: Lookup(t', root, other) == Lookup(t, root, other)
    ensures forall level | NoLeafAbove(t, root, key, level) :: NoLeafAbove(t', root, key, level)
  {
    var i := key[k];
    TableHasPath(t, root, path, key, k);
    TreeAfterGrowth(t, t', root, path, f, i, n);
    TableAfterGrowth(t, t', root, path, f, i, n, key, k);
    forall other: seq<I> | |other| == 3 ensures Lookup(t', root, other) == Lookup(t, root, other) {
      GrowthKeepsLookup(t, t', root, path, f, i, n, other);
    }
    forall level | NoLeafAbove(t, root, key, level) ensures NoLeafAbove(t', root, key, level) {
      forall j: Level | j < level && TableAt(t', root, key, j).Some?
        ensures !t'(TableAt(t', root, key, j).value, key[j]).Leaf?
      {
        if j <= k {
          TableAfterGrowth(t, t', root, path, f, i, n, key, j);
          TableHasPath(t, root, path, key, j);
        } else {
          assert j == k + 1;
        }
      }
    }
  }

  /** The owner's list holds every table frame exactly once. */
  ghost predicate Owns<F(!new), I>(frames: seq<F>, path: map<F, seq<I>>) {
    && (forall f :: f in frames <==> f in path)
    && (forall i, j | 0 <= i < j < |frames| :: frames[i] != frames[j])
  }

  lemma OwnsAfterPush<F(!new), I>(frames: seq<F>, path: map<F, seq<I>>, n: F, p: seq<I>)
    requires Owns(frames, path) && n !in path
    ensures Owns(frames + [n], path[n := p])
  {
    forall f ensures f in frames + [n] <==> f in path[n := p] {
      assert f in frames + [n] <==> f in frames || f == n;
    }
  }
}
