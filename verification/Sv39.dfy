/** The Sv39 page table in raw physical memory: the entry words of PageTableEntry stored
    in the radix tree of RadixTree, and the in-place operations on it. */
module Sv39 {
  import opened Wrappers
  import opened PageTableEntry
  import opened RadixTree

  datatype PhysPageNum = PhysPageNum(n: Word)

  datatype PhysAddr = PhysAddr(n: nat)

  /** An index into the 512 entries of a table frame. */
  datatype Idx = Idx(n: nat)

  type Key = k: seq<Idx> | |k| == 3 witness [Idx(0), Idx(0), Idx(0)]

  /** Physical memory seen as 64-bit words: frame number, then index within the frame. */
  type WordMemory = (PhysPageNum, Idx) -> Word

  datatype Pte = Pte(bits: Word)

  type TableMemory = Memory<PhysPageNum, Idx, Pte>

  /** How the walk reads an entry word. */
  function View(e: Word): Entry<PhysPageNum, Pte> {
    if !IsValid(e) then Invalid else if IsLeaf(e) then Leaf(Pte(e)) else Pointer(PhysPageNum(Ppn(e)), Pte(e))
  }

  function Tables(mem: WordMemory): TableMemory {
    (f, i) => View(mem(f, i))
  }

  /** The 9/9/9 split of a virtual page number. */
  function Indexes(vpn: nat): Key {
    [Idx(vpn / 0x40000 % 512), Idx(vpn / 0x200 % 512), Idx(vpn % 512)]
  }

  /** The number of pages in a page of a level. */
  function PageCount(level: Level): nat {
    if level == 0 then 0x40000 else if level == 1 then 0x200 else 1
  }

  /** The physical page of `vpn` inside the page of a level that starts at `ppn`. */
  function PageAt(ppn: nat, vpn: nat, level: Level): nat {
    ppn + vpn % PageCount(level)
  }

  function Write(mem: WordMemory, f: PhysPageNum, i: Idx, e: Word): WordMemory {
    (g, j) => if g == f && j == i then e else mem(g, j)
  }

  function ZeroFrame(mem: WordMemory, f: PhysPageNum): WordMemory {
    (g, j) => if g == f then 0 else mem(g, j)
  }

  datatype Mapping = Mapping(ppn: nat, perm: MapPerm)

  function Resolve(found: Option<(Pte, Level)>, vpn: nat): Option<Mapping> {
    match found
    case None => None
    case Some((e, level)) => Some(Mapping(PageAt(Ppn(e.bits) as nat, vpn, level), Flags(e.bits)))
  }

  /** The flat map from page numbers to physical pages and permissions. */
  function Translate(mem: WordMemory, root: PhysPageNum, vpn: nat): Option<Mapping> {
    Resolve(Lookup(Tables(mem), root, Indexes(vpn)), vpn)
  }

  predicate InPage(v: nat, vpn: nat, level: Level) {
    SamePage(Indexes(v), Indexes(vpn), level)
  }

  // ---------- entries ----------

  function MapEntry(ppn: Word, perm: MapPerm): Word {
    SetValid(New(ppn, perm), true)
  }

  predicate GrantsAccess(perm: MapPerm) {
    perm.r || perm.w || perm.x
  }

  /** Neither bit 9, which the flag decoder cannot represent, nor a reserved bit 54 to 63. */
  predicate CleanEntry(e: Word) {
    e & 0xFFC0_0000_0000_0200 == 0
  }

  /** A pointer to a table has the bits U, A and D clear, which are reserved there. */
  predicate PlainPointer(e: Word) {
    View(e).Pointer? ==> e & 0xD0 == 0
  }

  lemma MapEntryFields(ppn: Word, perm: MapPerm)
    requires ppn < 0x1000_0000_0000
    ensures Decode(MapEntry(ppn, perm)) == Fields(true, perm, false, false, ppn, 0)
  {
    hide New, SetValid, Decode;
    NewRoundTrip(ppn, perm);
    SetValidBits(New(ppn, perm), true);
  }

  lemma MapEntryView(ppn: Word, perm: MapPerm)
    requires ppn < 0x1000_0000_0000
    ensures var e := MapEntry(ppn, perm);
            && Ppn(e) == ppn && Flags(e) == perm && CleanEntry(e)
            && (GrantsAccess(perm) || !perm.u ==> PlainPointer(e))
            && View(e) == if GrantsAccess(perm) then Leaf(Pte(e)) else Pointer(PhysPageNum(ppn), Pte(e))
  {
    MapEntryFields(ppn, perm);
    hide MapEntry;
  }

  lemma ZeroEntry()
    ensures View(0) == Invalid && CleanEntry(0) && PlainPointer(0)
  {
  }

  /** The entry a walk stands on is invalid or leads on, if no leaf is in the way. */
  lemma EntryOnTheWay(mem: WordMemory, root: PhysPageNum, key: Key, k: Level, level: Level, f: PhysPageNum)
    requires NoLeafAbove(Tables(mem), root, key, level) && k < level
    requires TableAt(Tables(mem), root, key, k) == Some(f)
    ensures IsValid(mem(f, key[k])) ==> TableAt(Tables(mem), root, key, k + 1) == Some(PhysPageNum(Ppn(mem(f, key[k]))))
    ensures !IsValid(mem(f, key[k])) ==> Tables(mem)(f, key[k]).Invalid?
  {
  }

  // ---------- what every operation keeps ----------

  /** Table frames form a tree, are exactly the frames owned, each owned once, are disjoint
      from the allocator's free frames, and hold no reserved bits. */
  ghost predicate Sound(mem: WordMemory, root: PhysPageNum, frames: seq<PhysPageNum>,
                        path: map<PhysPageNum, seq<Idx>>, free: set<PhysPageNum>) {
    && Tree(Tables(mem), root, path)
    && Owns(frames, path)
    && (forall f | f in free :: f !in path && f.n < 0x1000_0000_0000)
    && AllClean(mem, path)
  }

  ghost predicate AllClean(mem: WordMemory, path: map<PhysPageNum, seq<Idx>>) {
    && (forall f, i | f in path :: CleanEntry(mem(f, i)))
    && (forall f, i | f in path && |path[f]| < 2 :: PlainPointer(mem(f, i)))
  }

  /** Memory after an empty table `n` has been hung into slot (f, i). */
  function Grow(mem: WordMemory, f: PhysPageNum, i: Idx, n: PhysPageNum): WordMemory {
    Write(ZeroFrame(mem, n), f, i, MapEntry(n.n, MapPerm(false, false, false, false)))
  }

  lemma EntryOfTable(bits: Word, n: PhysPageNum)
    requires n.n < 0x1000_0000_0000
    requires Decode(bits) == Fields(true, MapPerm(false, false, false, false), false, false, n.n, 0)
    ensures bits == MapEntry(n.n, MapPerm(false, false, false, false))
  {
    hide Decode, MapEntry;
    MapEntryFields(n.n, MapPerm(false, false, false, false));
    DecodeIsInjective(bits, MapEntry(n.n, MapPerm(false, false, false, false)));
  }

  lemma GrowIsGrown(mem: WordMemory, f: PhysPageNum, i: Idx, n: PhysPageNum)
    requires f != n && n.n < 0x1000_0000_0000
    ensures Grown(Tables(mem), Tables(Grow(mem, f, i, n)), f, i, n)
    ensures CleanEntry(Grow(mem, f, i, n)(f, i)) && Ppn(Grow(mem, f, i, n)(f, i)) == n.n
    ensures PlainPointer(Grow(mem, f, i, n)(f, i))
    ensures forall j :: CleanEntry(Grow(mem, f, i, n)(n, j)) && PlainPointer(Grow(mem, f, i, n)(n, j))
  {
    MapEntryView(n.n, MapPerm(false, false, false, false));
    ZeroEntry();
  }

  lemma GrowKeepsClean(mem: WordMemory, path: map<PhysPageNum, seq<Idx>>, f: PhysPageNum, i: Idx, n: PhysPageNum, p: seq<Idx>)
    requires f != n && n.n < 0x1000_0000_0000 && AllClean(mem, path)
    ensures AllClean(Grow(mem, f, i, n), path[n := p])
  {
    hide CleanEntry, PlainPointer, MapEntry;
    GrowIsGrown(mem, f, i, n);
  }

  lemma FreeFramesFit(mem: WordMemory, root: PhysPageNum, frames: seq<PhysPageNum>,
                      path: map<PhysPageNum, seq<Idx>>, free: set<PhysPageNum>)
    requires Sound(mem, root, frames, path, free)
    ensures forall f | f in free :: f.n < 0x1000_0000_0000
  {
  }

  /** Creating a missing table on the way to a key changes no translation. */
  lemma GrowKeepsSound(mem: WordMemory, root: PhysPageNum, frames: seq<PhysPageNum>, path: map<PhysPageNum, seq<Idx>>,
                       free: set<PhysPageNum>, key: Key, k: Level, f: PhysPageNum, n: PhysPageNum)
    requires k < 2 && Sound(mem, root, frames, path, free) && n in free
    requires TableAt(Tables(mem), root, key, k) == Some(f) && Tables(mem)(f, key[k]).Invalid?
    ensures f in path
    ensures var mem' := Grow(mem, f, key[k], n);
            && Sound(mem', root, frames + [n], path[n := path[f] + [key[k]]], free - {n})
            && TableAt(Tables(mem'), root, key, k + 1) == Some(n) && Ppn(mem'(f, key[k])) == n.n
            && (forall other: Key :: Lookup(Tables(mem'), root, other) == Lookup(Tables(mem), root, other))
            && (forall level | NoLeafAbove(Tables(mem), root, key, level) :: NoLeafAbove(Tables(mem'), root, key, level))
  {
    var mem' := Grow(mem, f, key[k], n);
    TableHasPath(Tables(mem), root, path, key, k);
    GrowIsGrown(mem, f, key[k], n);
    CreatingTableIsInvisible(Tables(mem), Tables(mem'), root, path, key, k, f, n);
    OwnsAfterPush(frames, path, n, path[f] + [key[k]]);
    GrowKeepsClean(mem, path, f, key[k], n, path[f] + [key[k]]);
  }

  lemma WriteIsStored(mem: WordMemory, f: PhysPageNum, i: Idx, e: Word)
    ensures Stored(Tables(mem), Tables(Write(mem, f, i, e)), f, i, View(e))
  {
  }

  lemma TranslateAfterMap(mem: WordMemory, root: PhysPageNum, path: map<PhysPageNum, seq<Idx>>,
                          vpn: nat, level: Level, ppn: Word, perm: MapPerm, f: PhysPageNum, v: nat)
    requires Tree(Tables(mem), root, path) && ppn < 0x1000_0000_0000
    requires TableAt(Tables(mem), root, Indexes(vpn), level) == Some(f)
    requires level == 2 || GrantsAccess(perm)
    ensures var mem' := Write(mem, f, Indexes(vpn)[level], MapEntry(ppn, perm));
            && Tree(Tables(mem'), root, path)
            && Translate(mem', root, v) ==
                 if InPage(v, vpn, level) then Some(Mapping(PageAt(ppn as nat, v, level), perm))
                 else Translate(mem, root, v)
  {
    hide Indexes, PageAt, Ppn, Flags, View, MapEntry, Tree, Lookup;
    var key, e := Indexes(vpn), MapEntry(ppn, perm);
    var mem' := Write(mem, f, key[level], e);
    MapEntryView(ppn, perm);
    WriteIsStored(mem, f, key[level], e);
    MapSetsExactlyOnePage(Tables(mem), Tables(mem'), root, path, key, level, View(e), Indexes(v));
  }

  /** Mapping a page of any level gives every page number in it the matching physical page
      and the permissions asked for, and leaves every other translation as it was. */
  lemma MapRefinesFlatUpdate(mem: WordMemory, root: PhysPageNum, frames: seq<PhysPageNum>,
                             path: map<PhysPageNum, seq<Idx>>, free: set<PhysPageNum>,
                             vpn: nat, level: Level, ppn: Word, perm: MapPerm, f: PhysPageNum)
    requires Sound(mem, root, frames, path, free) && ppn < 0x1000_0000_0000
    requires TableAt(Tables(mem), root, Indexes(vpn), level) == Some(f)
    requires level == 2 || GrantsAccess(perm)
    ensures var mem' := Write(mem, f, Indexes(vpn)[level], MapEntry(ppn, perm));
            && Sound(mem', root, frames, path, free)
            && forall v :: Translate(mem', root, v) ==
                             if InPage(v, vpn, level) then Some(Mapping(PageAt(ppn as nat, v, level), perm))
                             else Translate(mem, root, v)
  {
    hide Indexes, PageAt, MapEntry, Translate, InPage, Tree, TableAt, CleanEntry, PlainPointer;
    TableHasPath(Tables(mem), root, path, Indexes(vpn), level);
    var mem' := Write(mem, f, Indexes(vpn)[level], MapEntry(ppn, perm));
    MapEntryView(ppn, perm);
    forall v ensures Translate(mem', root, v) ==
                       if InPage(v, vpn, level) then Some(Mapping(PageAt(ppn as nat, v, level), perm))
                       else Translate(mem, root, v)
    {
      TranslateAfterMap(mem, root, path, vpn, level, ppn, perm, f, v);
    }
    TranslateAfterMap(mem, root, path, vpn, level, ppn, perm, f, vpn);
  }

  /** Without R, W or X a larger page is no page: its entry reads as a table, and the walk of
      every page number in it goes on into the frame that was to be mapped. */
  lemma MapWithoutAccessPoints(mem: WordMemory, root: PhysPageNum, path: map<PhysPageNum, seq<Idx>>,
                               vpn: nat, level: Level, ppn: Word, perm: MapPerm, f: PhysPageNum, v: nat)
    requires Tree(Tables(mem), root, path) && ppn < 0x1000_0000_0000 && level < 2 && !GrantsAccess(perm)
    requires TableAt(Tables(mem), root, Indexes(vpn), level) == Some(f) && InPage(v, vpn, level)
    ensures var t := Tables(Write(mem, f, Indexes(vpn)[level], MapEntry(ppn, perm)));
            FindFrom(t, root, Indexes(v), 0) == FindFrom(t, PhysPageNum(ppn), Indexes(v), level + 1)
  {
    hide Indexes, Ppn, Flags, View, MapEntry, Tree;
    var key, e := Indexes(vpn), MapEntry(ppn, perm);
    MapEntryView(ppn, perm);
    WriteIsStored(mem, f, key[level], e);
    FindInStoredPage(Tables(mem), Tables(Write(mem, f, key[level], e)), root, path, key, level, View(e), Indexes(v));
  }

  /** The tables are a tree of exactly the frames owned. */
  ghost predicate OwnedTree(mem: WordMemory, root: PhysPageNum, frames: seq<PhysPageNum>, path: map<PhysPageNum, seq<Idx>>) {
    Tree(Tables(mem), root, path) && Owns(frames, path)
  }

  /** Where a map without access leaves the table that holds its entry, in whatever tree. */
  lemma PointedFrameIsTable(mem: WordMemory, root: PhysPageNum, path: map<PhysPageNum, seq<Idx>>,
                            vpn: nat, level: Level, ppn: Word, perm: MapPerm, f: PhysPageNum, path': map<PhysPageNum, seq<Idx>>)
    requires Tree(Tables(mem), root, path) && ppn < 0x1000_0000_0000 && level < 2 && !GrantsAccess(perm)
    requires TableAt(Tables(mem), root, Indexes(vpn), level) == Some(f)
    requires Tree(Tables(Write(mem, f, Indexes(vpn)[level], MapEntry(ppn, perm))), root, path')
    ensures f in path' && PhysPageNum(ppn) in path'
    ensures path'[PhysPageNum(ppn)] == Indexes(vpn)[..level as int] + [Indexes(vpn)[level]]
  {
    hide Indexes, Ppn, Flags, View, MapEntry;
    var key, e := Indexes(vpn), MapEntry(ppn, perm);
    var t, t' := Tables(mem), Tables(Write(mem, f, key[level], e));
    MapEntryView(ppn, perm);
    WriteIsStored(mem, f, key[level], e);
    TableHasPath(t, root, path, key, level);
    TableAfterStore(t, t', root, path, f, key[level], View(e), key, level);
    TableHasPath(t', root, path', key, level);
  }

  /** Mapping a frame that is not one of the table's own keeps the table a tree of its own
      frames, under any assignment of places, exactly when it grants access or is at the
      last level. */
  lemma MapKeepsOwnershipIff(mem: WordMemory, root: PhysPageNum, frames: seq<PhysPageNum>, path: map<PhysPageNum, seq<Idx>>,
                             vpn: nat, level: Level, ppn: Word, perm: MapPerm, f: PhysPageNum)
    requires OwnedTree(mem, root, frames, path) && ppn < 0x1000_0000_0000 && PhysPageNum(ppn) !in frames
    requires TableAt(Tables(mem), root, Indexes(vpn), level) == Some(f)
    ensures (exists path' :: OwnedTree(Write(mem, f, Indexes(vpn)[level], MapEntry(ppn, perm)), root, frames, path')) <==>
            level == 2 || GrantsAccess(perm)
  {
    hide Indexes, MapEntry, Tree, TableAt, Tables;
    var mem' := Write(mem, f, Indexes(vpn)[level], MapEntry(ppn, perm));
    if level == 2 || GrantsAccess(perm) {
      TranslateAfterMap(mem, root, path, vpn, level, ppn, perm, f, vpn);
      assert OwnedTree(mem', root, frames, path);
    } else {
      forall path' ensures !OwnedTree(mem', root, frames, path') {
        if OwnedTree(mem', root, frames, path') {
          PointedFrameIsTable(mem, root, path, vpn, level, ppn, perm, f, path');
        }
      }
    }
  }

  /** Pointing, without access, at a frame that is already a table elsewhere, and not below the
      slot written: the tables stay a tree exactly when the slot is that table's own place. */
  lemma MapOntoOwnTableIff(mem: WordMemory, root: PhysPageNum, frames: seq<PhysPageNum>, path: map<PhysPageNum, seq<Idx>>,
                           vpn: nat, level: Level, ppn: Word, perm: MapPerm, f: PhysPageNum, other: Key, k: Level)
    requires OwnedTree(mem, root, frames, path) && ppn < 0x1000_0000_0000 && level < 2 && !GrantsAccess(perm)
    requires TableAt(Tables(mem), root, Indexes(vpn), level) == Some(f)
    requires TableAt(Tables(mem), root, other, k) == Some(PhysPageNum(ppn))
    requires k <= level + 1 || other[..level as int + 1] != Indexes(vpn)[..level as int + 1]
    ensures (exists path' :: OwnedTree(Write(mem, f, Indexes(vpn)[level], MapEntry(ppn, perm)), root, frames, path')) <==>
            other[..k as int] == Indexes(vpn)[..level as int + 1]
  {
    hide Indexes, MapEntry;
    var key, g := Indexes(vpn), PhysPageNum(ppn);
    var mem' := Write(mem, f, key[level], MapEntry(ppn, perm));
    assert key[..level as int + 1] == key[..level as int] + [key[level]];
    TableHasPath(Tables(mem), root, path, key, level);
    TableHasPath(Tables(mem), root, path, other, k);
    if other[..k as int] == key[..level as int + 1] {
      PointAtOwnPlace(mem, root, path, vpn, level, ppn, perm, f);
      assert OwnedTree(mem', root, frames, path);
    } else {
      forall path' ensures !OwnedTree(mem', root, frames, path') {
        if OwnedTree(mem', root, frames, path') {
          PointedFrameIsTable(mem, root, path, vpn, level, ppn, perm, f, path');
          StillReached(mem, root, path, vpn, level, MapEntry(ppn, perm), f, other, k);
          TableHasPath(Tables(mem'), root, path', other, k);
        }
      }
    }
  }

  lemma PointAtOwnPlace(mem: WordMemory, root: PhysPageNum, path: map<PhysPageNum, seq<Idx>>,
                        vpn: nat, level: Level, ppn: Word, perm: MapPerm, f: PhysPageNum)
    requires Tree(Tables(mem), root, path) && ppn < 0x1000_0000_0000 && !GrantsAccess(perm)
    requires f in path && PhysPageNum(ppn) in path && path[PhysPageNum(ppn)] == path[f] + [Indexes(vpn)[level]]
    ensures Tree(Tables(Write(mem, f, Indexes(vpn)[level], MapEntry(ppn, perm))), root, path)
  {
    hide Indexes, Ppn, Flags, View, MapEntry;
    MapEntryView(ppn, perm);
    WriteIsStored(mem, f, Indexes(vpn)[level], MapEntry(ppn, perm));
  }

  /** A table that is not below the written slot is still reached the way it was. */
  lemma {:induction false} StillReached(mem: WordMemory, root: PhysPageNum, path: map<PhysPageNum, seq<Idx>>,
                                        vpn: nat, level: Level, e: Word, f: PhysPageNum, other: Key, k: Level)
    requires Tree(Tables(mem), root, path) && TableAt(Tables(mem), root, Indexes(vpn), level) == Some(f)
    requires TableAt(Tables(mem), root, other, k).Some?
    requires k <= level || other[..level as int + 1] != Indexes(vpn)[..level as int + 1]
    ensures TableAt(Tables(Write(mem, f, Indexes(vpn)[level], e)), root, other, k) == TableAt(Tables(mem), root, other, k)
    decreases k as int
  {
    hide Indexes, View, Tree;
    var key := Indexes(vpn);
    TableHasPath(Tables(mem), root, path, key, level);
    if k > 0 {
      StillReached(mem, root, path, vpn, level, e, f, other, k - 1);
      TableHasPath(Tables(mem), root, path, other, k - 1);
      assert key[..level as int + 1] == key[..level as int] + [key[level]];
      assert other[..level as int + 1] == other[..level as int] + [other[level]];
    }
  }

  /** One failing map: into an empty table, the first 2^18 pages to frame 2 without access. The
      table is no tree of its one frame any more, however places are assigned, and the page
      translates to nothing. */
  lemma HugeMapWithoutAccessFails()
    ensures var root, mem, none := PhysPageNum(1), (_, _) => 0 as Word, MapPerm(false, false, false, false);
            var mem' := Write(mem, root, Idx(0), MapEntry(2, none));
            && OwnedTree(mem, root, [root], map[root := []]) && (forall path' :: !OwnedTree(mem', root, [root], path'))
            && Translate(mem', root, 0) == None
  {
    var root, mem, none := PhysPageNum(1), (_, _) => 0 as Word, MapPerm(false, false, false, false);
    var mem' := Write(mem, root, Idx(0), MapEntry(2, none));
    ZeroEntry();
    MapEntryView(2, none);
    hide View, MapEntry;
    assert OwnedTree(mem, root, [root], map[root := []]);
    MapKeepsOwnershipIff(mem, root, [root], map[root := []], 0, 0, 2, none, root);
    MapWithoutAccessPoints(mem, root, map[root := []], 0, 0, 2, none, root, 0);
    assert mem'(PhysPageNum(2), Idx(0)) == 0;
  }

  /** Unmapping removes the page found for a page number, whatever its level, and leaves
      every other translation as it was. */
  lemma UnmapRefinesFlatRemoval(mem: WordMemory, root: PhysPageNum, frames: seq<PhysPageNum>,
                                path: map<PhysPageNum, seq<Idx>>, free: set<PhysPageNum>,
                                vpn: nat, s: Slot<PhysPageNum, Idx>)
    requires Sound(mem, root, frames, path, free)
    requires FindFrom(Tables(mem), root, Indexes(vpn), 0) == Some(s)
    ensures var mem' := Write(mem, s.frame, s.index, 0);
            && Sound(mem', root, frames, path, free)
            && forall v :: Translate(mem', root, v) ==
                             if InPage(v, vpn, s.level) then None else Translate(mem, root, v)
  {
    var mem' := Write(mem, s.frame, s.index, 0);
    ZeroEntry();
    WriteIsStored(mem, s.frame, s.index, 0);
    forall v ensures Translate(mem', root, v) == if InPage(v, vpn, s.level) then None else Translate(mem, root, v) {
      UnmapClearsExactlyOnePage(Tables(mem), Tables(mem'), root, path, Indexes(vpn), s, Indexes(v));
    }
    UnmapClearsExactlyOnePage(Tables(mem), Tables(mem'), root, path, Indexes(vpn), s, Indexes(vpn));
  }

  /** What map's store does to every page number, with or without access. */
  lemma MapWrites(mem: WordMemory, root: PhysPageNum, frames: seq<PhysPageNum>,
                  path: map<PhysPageNum, seq<Idx>>, free: set<PhysPageNum>,
                  vpn: nat, level: Level, ppn: Word, perm: MapPerm, f: PhysPageNum)
    requires Sound(mem, root, frames, path, free) && ppn < 0x1000_0000_0000
    requires TableAt(Tables(mem), root, Indexes(vpn), level) == Some(f)
    ensures var mem' := Write(mem, f, Indexes(vpn)[level], MapEntry(ppn, perm));
            && (level == 2 || GrantsAccess(perm) ==>
                  && Sound(mem', root, frames, path, free)
                  && forall v | InPage(v, vpn, level) ::
                       Translate(mem', root, v) == Some(Mapping(PageAt(ppn as nat, v, level), perm)))
            && (level < 2 && !GrantsAccess(perm) ==>
                  forall v | InPage(v, vpn, level) ::
                    FindFrom(Tables(mem'), root, Indexes(v), 0) ==
                    FindFrom(Tables(mem'), PhysPageNum(ppn), Indexes(v), level + 1))
            && forall v | !InPage(v, vpn, level) :: Translate(mem', root, v) == Translate(mem, root, v)
  {
    var mem' := Write(mem, f, Indexes(vpn)[level], MapEntry(ppn, perm));
    hide Indexes, PageAt, MapEntry, Translate, InPage, Tree, TableAt, CleanEntry, PlainPointer, Tables, FindFrom;
    if level == 2 || GrantsAccess(perm) {
      MapRefinesFlatUpdate(mem, root, frames, path, free, vpn, level, ppn, perm, f);
    } else {
      forall v | InPage(v, vpn, level)
        ensures FindFrom(Tables(mem'), root, Indexes(v), 0) ==
                FindFrom(Tables(mem'), PhysPageNum(ppn), Indexes(v), level + 1)
      {
        MapWithoutAccessPoints(mem, root, path, vpn, level, ppn, perm, f, v);
      }
      forall v | !InPage(v, vpn, level) ensures Translate(mem', root, v) == Translate(mem, root, v) {
        MapElsewhere(mem, root, path, vpn, level, MapEntry(ppn, perm), f, v);
      }
    }
  }

  lemma MapElsewhere(mem: WordMemory, root: PhysPageNum, path: map<PhysPageNum, seq<Idx>>,
                     vpn: nat, level: Level, e: Word, f: PhysPageNum, v: nat)
    requires Tree(Tables(mem), root, path) && !InPage(v, vpn, level)
    requires TableAt(Tables(mem), root, Indexes(vpn), level) == Some(f)
    ensures Translate(Write(mem, f, Indexes(vpn)[level], e), root, v) == Translate(mem, root, v)
  {
    hide Indexes, View, Tree, Lookup;
    var key := Indexes(vpn);
    WriteIsStored(mem, f, key[level], e);
    LookupElsewhere(Tables(mem), Tables(Write(mem, f, key[level], e)), root, path, key, level, View(e), Indexes(v));
  }

  // ---------- the walk that creates tables ----------

  /** Physical memory and the frames the allocator has left. */
  datatype PhysState = PhysState(mem: WordMemory, free: set<PhysPageNum>)

  ghost function Hung(s: PhysState, f: PhysPageNum, i: Idx, n: PhysPageNum): PhysState {
    PhysState(Grow(s.mem, f, i, n), s.free - {n})
  }

  /** From frame `cur` at level `i` the walk follows the page number of every valid entry, leaf
      or not, hangs the frames `drawn` one after another into the invalid ones, and ends in
      memory `t` at frame `f`. */
  ghost predicate CreatingWalk(s: PhysState, cur: PhysPageNum, key: Key, i: Level, level: Level,
                               drawn: seq<PhysPageNum>, t: PhysState, f: PhysPageNum)
    requires i <= level
    decreases level as int - i as int
  {
    if i == level then drawn == [] && t == s && f == cur
    else if IsValid(s.mem(cur, key[i])) then
      CreatingWalk(s, PhysPageNum(Ppn(s.mem(cur, key[i]))), key, i + 1, level, drawn, t, f)
    else
      && |drawn| > 0 && drawn[0] in s.free
      && var s' := Hung(s, cur, key[i], drawn[0]);
         CreatingWalk(s', PhysPageNum(Ppn(s'.mem(cur, key[i]))), key, i + 1, level, drawn[1..], t, f)
  }

  /** Every way to finish a walk from `cur` finishes the walk that began at `root` in `s`. */
  ghost predicate Continues(s: PhysState, root: PhysPageNum, key: Key, i: Level, level: Level,
                            used: seq<PhysPageNum>, now: PhysState, cur: PhysPageNum)
    requires i <= level
  {
    forall rest, t, f | CreatingWalk(now, cur, key, i, level, rest, t, f) ::
      CreatingWalk(s, root, key, 0, level, used + rest, t, f)
  }

  lemma ContinuesAtStart(s: PhysState, root: PhysPageNum, key: Key, level: Level)
    ensures Continues(s, root, key, 0, level, [], s, root)
  {
    hide CreatingWalk;
    forall rest, t, f | CreatingWalk(s, root, key, 0, level, rest, t, f)
      ensures CreatingWalk(s, root, key, 0, level, [] + rest, t, f)
    {
      assert [] + rest == rest;
    }
  }

  lemma ContinuesThroughValid(s: PhysState, root: PhysPageNum, key: Key, i: Level, level: Level,
                              used: seq<PhysPageNum>, now: PhysState, cur: PhysPageNum)
    requires i < level && Continues(s, root, key, i, level, used, now, cur) && IsValid(now.mem(cur, key[i]))
    ensures Continues(s, root, key, i + 1, level, used, now, PhysPageNum(Ppn(now.mem(cur, key[i]))))
  {
    hide Ppn, IsValid;
    forall rest, t, f | CreatingWalk(now, PhysPageNum(Ppn(now.mem(cur, key[i]))), key, i + 1, level, rest, t, f)
      ensures CreatingWalk(s, root, key, 0, level, used + rest, t, f)
    {
      assert CreatingWalk(now, cur, key, i, level, rest, t, f);
    }
  }

  lemma ContinuesAfterHanging(s: PhysState, root: PhysPageNum, key: Key, i: Level, level: Level,
                              used: seq<PhysPageNum>, now: PhysState, cur: PhysPageNum, n: PhysPageNum)
    requires i < level && Continues(s, root, key, i, level, used, now, cur)
    requires !IsValid(now.mem(cur, key[i])) && n in now.free
    ensures var now' := Hung(now, cur, key[i], n);
            Continues(s, root, key, i + 1, level, used + [n], now', PhysPageNum(Ppn(now'.mem(cur, key[i]))))
  {
    hide Ppn, IsValid, Grow;
    var now' := Hung(now, cur, key[i], n);
    forall rest, t, f | CreatingWalk(now', PhysPageNum(Ppn(now'.mem(cur, key[i]))), key, i + 1, level, rest, t, f)
      ensures CreatingWalk(s, root, key, 0, level, used + [n] + rest, t, f)
    {
      assert ([n] + rest)[1..] == rest;
      assert CreatingWalk(now, cur, key, i, level, [n] + rest, t, f);
      assert used + ([n] + rest) == used + [n] + rest;
    }
  }

  lemma ContinuesToEnd(s: PhysState, root: PhysPageNum, key: Key, level: Level,
                       used: seq<PhysPageNum>, now: PhysState, cur: PhysPageNum)
    requires Continues(s, root, key, level, level, used, now, cur)
    ensures CreatingWalk(s, root, key, 0, level, used, now, cur)
  {
    assert CreatingWalk(now, cur, key, level, level, [], now, cur);
    assert used + [] == used;
  }

  /** Memory outside some frames is as it was. */
  ghost predicate OnlyWithin(mem: WordMemory, mem': WordMemory, frames: seq<PhysPageNum>) {
    forall g, j | g !in frames :: mem'(g, j) == mem(g, j)
  }

  /** With no larger page in the way, the walk only adds empty tables: the result is sound, owns
      the frames it drew, changes no lookup, and writes only frames the table owns. */
  lemma {:induction false} CreatingWalkKeepsSound(
      s: PhysState, root: PhysPageNum, frames: seq<PhysPageNum>, path: map<PhysPageNum, seq<Idx>>,
      cur: PhysPageNum, key: Key, i: Level, level: Level, drawn: seq<PhysPageNum>, t: PhysState, f: PhysPageNum)
    returns (path': map<PhysPageNum, seq<Idx>>)
    requires i <= level && CreatingWalk(s, cur, key, i, level, drawn, t, f)
    requires Sound(s.mem, root, frames, path, s.free) && NoLeafAbove(Tables(s.mem), root, key, level)
    requires TableAt(Tables(s.mem), root, key, i) == Some(cur)
    ensures Sound(t.mem, root, frames + drawn, path', t.free)
    ensures TableAt(Tables(t.mem), root, key, level) == Some(f)
    ensures forall other: Key :: Lookup(Tables(t.mem), root, other) == Lookup(Tables(s.mem), root, other)
    ensures OnlyWithin(s.mem, t.mem, frames + drawn)
    decreases level as int - i as int
  {
    hide View, NoLeafAbove, Lookup, Grow, Ppn, Tables, IsValid, Sound, TableAt;
    if i == level {
      path' := path;
      assert frames + drawn == frames;
    } else {
      EntryOnTheWay(s.mem, root, key, i, level, cur);
      if IsValid(s.mem(cur, key[i])) {
        path' := CreatingWalkKeepsSound(s, root, frames, path, PhysPageNum(Ppn(s.mem(cur, key[i]))), key, i + 1, level, drawn, t, f);
      } else {
        var n := drawn[0];
        var s' := Hung(s, cur, key[i], n);
        GrowKeepsSound(s.mem, root, frames, path, s.free, key, i, cur, n);
        path' := CreatingWalkKeepsSound(s', root, frames + [n], path[n := path[cur] + [key[i]]], n, key, i + 1, level, drawn[1..], t, f);
        assert frames + [n] + drawn[1..] == frames + drawn;
        OwnedTables(s.mem, root, frames, path, s.free, key, i);
        GrowOnlyWithin(s.mem, cur, key[i], n, frames);
        OnlyWithinChain(s.mem, s'.mem, t.mem, frames + [n], frames + drawn);
      }
    }
  }

  lemma OwnedTables(mem: WordMemory, root: PhysPageNum, frames: seq<PhysPageNum>, path: map<PhysPageNum, seq<Idx>>,
                    free: set<PhysPageNum>, key: Key, k: Level)
    requires Sound(mem, root, frames, path, free) && TableAt(Tables(mem), root, key, k).Some?
    ensures TableAt(Tables(mem), root, key, k).value in frames
  {
    TableHasPath(Tables(mem), root, path, key, k);
  }

  lemma FoundInside(mem: WordMemory, root: PhysPageNum, frames: seq<PhysPageNum>, path: map<PhysPageNum, seq<Idx>>,
                    free: set<PhysPageNum>, key: Key)
    requires Sound(mem, root, frames, path, free)
    ensures var r := FindFrom(Tables(mem), root, key, 0); r.Some? ==> r.value.frame in frames
  {
    FindStaysInside(Tables(mem), Tables(mem), root, path, root, key, 0);
  }

  lemma GrowOnlyWithin(mem: WordMemory, f: PhysPageNum, i: Idx, n: PhysPageNum, frames: seq<PhysPageNum>)
    requires f in frames
    ensures OnlyWithin(mem, Grow(mem, f, i, n), frames + [n])
  {
    hide MapEntry;
  }

  lemma OnlyWithinChain(a: WordMemory, b: WordMemory, c: WordMemory, few: seq<PhysPageNum>, all: seq<PhysPageNum>)
    requires OnlyWithin(a, b, few) && OnlyWithin(b, c, all) && forall g | g in few :: g in all
    ensures OnlyWithin(a, c, all)
  {
  }

  lemma WriteOnlyWithin(a: WordMemory, b: WordMemory, frames: seq<PhysPageNum>, f: PhysPageNum, i: Idx, e: Word)
    requires OnlyWithin(a, b, frames) && f in frames
    ensures OnlyWithin(a, Write(b, f, i, e), frames)
  {
  }

  /** Another table in the same memory, whose frames this one does not own, keeps its shape and
      every translation, whatever is written within this one's frames. */
  lemma OtherTableUntouched(mem: WordMemory, mem': WordMemory, frames: seq<PhysPageNum>, free: set<PhysPageNum>, free': set<PhysPageNum>,
                            root: PhysPageNum, others: seq<PhysPageNum>, path: map<PhysPageNum, seq<Idx>>)
    requires OnlyWithin(mem, mem', frames) && free' <= free
    requires Sound(mem, root, others, path, free) && forall g | g in others :: g !in frames
    ensures Sound(mem', root, others, path, free')
    ensures forall v :: Translate(mem', root, v) == Translate(mem, root, v)
  {
    LostWrite(mem, mem', root, others, path, free, free');
  }

  // ---------- mapping below a larger page ----------

  /** The walk from `cur` on meets no frame of the table. */
  ghost predicate Foreign(mem: WordMemory, cur: PhysPageNum, key: Key, i: Level, level: Level, path: map<PhysPageNum, seq<Idx>>)
    requires i <= level
    decreases level as int - i as int
  {
    && cur !in path
    && (i < level && IsValid(mem(cur, key[i])) ==>
          Foreign(mem, PhysPageNum(Ppn(mem(cur, key[i]))), key, i + 1, level, path))
  }

  /** Above the slot asked for lies a larger page, and the words in it that the walk takes for
      entries do not lead back into the table. */
  ghost predicate BelowPage(mem: WordMemory, root: PhysPageNum, path: map<PhysPageNum, seq<Idx>>, key: Key, k: Level, level: Level) {
    && k < level
    && match TableAt(Tables(mem), root, key, k)
       case None => false
       case Some(g) =>
         && Tables(mem)(g, key[k]).Leaf?
         && Foreign(mem, PhysPageNum(Ppn(mem(g, key[k]))), key, k + 1, level, path)
  }

  /** A frame whose words are all zero or point to it leads nowhere else. */
  lemma {:induction false} FreshIsForeign(mem: WordMemory, n: PhysPageNum, key: Key, i: Level, level: Level, path: map<PhysPageNum, seq<Idx>>)
    requires i <= level && n !in path
    requires forall j :: IsValid(mem(n, j)) ==> PhysPageNum(Ppn(mem(n, j))) == n
    ensures Foreign(mem, n, key, i, level, path)
    decreases level as int - i as int
  {
    hide Ppn, IsValid;
    if i < level {
      FreshIsForeign(mem, n, key, i + 1, level, path);
    }
  }

  lemma HungIsForeign(mem: WordMemory, cur: PhysPageNum, i: Idx, n: PhysPageNum)
    requires n.n < 0x1000_0000_0000
    ensures var mem' := Grow(mem, cur, i, n);
            && PhysPageNum(Ppn(mem'(cur, i))) == n
            && forall j :: IsValid(mem'(n, j)) ==> PhysPageNum(Ppn(mem'(n, j))) == n
  {
    MapEntryView(n.n, MapPerm(false, false, false, false));
    ZeroEntry();
    hide MapEntry, Ppn;
  }

  lemma {:induction false} ForeignWalkStaysOut(s: PhysState, cur: PhysPageNum, key: Key, i: Level, level: Level,
                                               drawn: seq<PhysPageNum>, t: PhysState, f: PhysPageNum, path: map<PhysPageNum, seq<Idx>>)
    requires i <= level && CreatingWalk(s, cur, key, i, level, drawn, t, f) && Foreign(s.mem, cur, key, i, level, path)
    requires forall n | n in s.free :: n !in path && n.n < 0x1000_0000_0000
    ensures f !in path && t.free <= s.free && forall g, j | g in path :: t.mem(g, j) == s.mem(g, j)
    decreases level as int - i as int
  {
    hide Ppn, IsValid, MapEntry;
    if i < level {
      if IsValid(s.mem(cur, key[i])) {
        ForeignWalkStaysOut(s, PhysPageNum(Ppn(s.mem(cur, key[i]))), key, i + 1, level, drawn, t, f, path);
      } else {
        var n := drawn[0];
        var s' := Hung(s, cur, key[i], n);
        HungIsForeign(s.mem, cur, key[i], n);
        FreshIsForeign(s'.mem, n, key, i + 1, level, path);
        ForeignWalkStaysOut(s', n, key, i + 1, level, drawn[1..], t, f, path);
      }
    }
  }

  /** The walk passes the tables on the way, and then the page itself as if it were one. */
  lemma {:induction false} WalkPassesTables(s: PhysState, root: PhysPageNum, key: Key, k: Level, level: Level,
                                            drawn: seq<PhysPageNum>, t: PhysState, f: PhysPageNum)
    requires k <= level && CreatingWalk(s, root, key, 0, level, drawn, t, f)
    requires TableAt(Tables(s.mem), root, key, k).Some?
    ensures CreatingWalk(s, TableAt(Tables(s.mem), root, key, k).value, key, k, level, drawn, t, f)
    decreases k as int
  {
    hide Ppn, IsValid, IsLeaf;
    if k > 0 {
      WalkPassesTables(s, root, key, k - 1, level, drawn, t, f);
    }
  }

  /** A map below a larger page takes no effect: its entry goes into a frame that is no table,
      the table stays as it was, and so does every translation. */
  lemma MapBelowPageIsLost(s: PhysState, root: PhysPageNum, frames: seq<PhysPageNum>, path: map<PhysPageNum, seq<Idx>>,
                           vpn: nat, k: Level, level: Level, drawn: seq<PhysPageNum>, t: PhysState, f: PhysPageNum, e: Word)
    requires Sound(s.mem, root, frames, path, s.free) && BelowPage(s.mem, root, path, Indexes(vpn), k, level)
    requires CreatingWalk(s, root, Indexes(vpn), 0, level, drawn, t, f)
    ensures f !in path
    ensures var mem' := Write(t.mem, f, Indexes(vpn)[level], e);
            && Sound(mem', root, frames, path, t.free)
            && forall other: Key :: Lookup(Tables(mem'), root, other) == Lookup(Tables(s.mem), root, other)
  {
    var key := Indexes(vpn);
    var mem' := Write(t.mem, f, key[level], e);
    hide CleanEntry, PlainPointer, Ppn, Flags, IsValid, Indexes, Tree, TableAt, Foreign;
    WalkPassesTables(s, root, key, k, level, drawn, t, f);
    var g := TableAt(Tables(s.mem), root, key, k).value;
    ForeignWalkStaysOut(s, PhysPageNum(Ppn(s.mem(g, key[k]))), key, k + 1, level, drawn, t, f, path);
    LostWrite(s.mem, mem', root, frames, path, s.free, t.free);
  }

  lemma MapIsLostBelowPages(s: PhysState, root: PhysPageNum, frames: seq<PhysPageNum>, path: map<PhysPageNum, seq<Idx>>,
                            vpn: nat, level: Level, drawn: seq<PhysPageNum>, t: PhysState, f: PhysPageNum, e: Word)
    requires Sound(s.mem, root, frames, path, s.free)
    requires CreatingWalk(s, root, Indexes(vpn), 0, level, drawn, t, f)
    ensures (exists k :: BelowPage(s.mem, root, path, Indexes(vpn), k, level)) ==>
              var mem' := Write(t.mem, f, Indexes(vpn)[level], e);
              && Sound(mem', root, frames, path, t.free)
              && forall v :: Translate(mem', root, v) == Translate(s.mem, root, v)
  {
    hide Sound, CreatingWalk, BelowPage, Lookup, Indexes, Tables, Write;
    forall k | BelowPage(s.mem, root, path, Indexes(vpn), k, level)
      ensures var mem' := Write(t.mem, f, Indexes(vpn)[level], e);
              && Sound(mem', root, frames, path, t.free)
              && forall v :: Translate(mem', root, v) == Translate(s.mem, root, v)
    {
      MapBelowPageIsLost(s, root, frames, path, vpn, k, level, drawn, t, f, e);
    }
  }

  /** Writing outside a table's frames changes nothing of it. */
  lemma LostWrite(mem: WordMemory, mem': WordMemory, root: PhysPageNum, frames: seq<PhysPageNum>,
                  path: map<PhysPageNum, seq<Idx>>, free: set<PhysPageNum>, free': set<PhysPageNum>)
    requires Sound(mem, root, frames, path, free) && free' <= free
    requires forall g, j | g in path :: mem'(g, j) == mem(g, j)
    ensures Sound(mem', root, frames, path, free')
    ensures forall key: Key :: Lookup(Tables(mem'), root, key) == Lookup(Tables(mem), root, key)
  {
    hide CleanEntry, PlainPointer, View, Lookup, Tree;
    forall key: Key ensures Lookup(Tables(mem'), root, key) == Lookup(Tables(mem), root, key) {
      LookupStaysInside(Tables(mem), Tables(mem'), root, path, key);
    }
    LookupStaysInside(Tables(mem), Tables(mem'), root, path, [Idx(0), Idx(0), Idx(0)]);
  }

  /** A map puts its entry where the walk of its page number ends exactly when no larger page
      lies above the slot. */
  lemma MapTakesEffectIff(s: PhysState, root: PhysPageNum, frames: seq<PhysPageNum>, path: map<PhysPageNum, seq<Idx>>,
                          vpn: nat, level: Level, ppn: Word, perm: MapPerm, drawn: seq<PhysPageNum>, t: PhysState, f: PhysPageNum)
    requires Sound(s.mem, root, frames, path, s.free) && ppn < 0x1000_0000_0000
    requires CreatingWalk(s, root, Indexes(vpn), 0, level, drawn, t, f) && (level == 2 || GrantsAccess(perm))
    requires NoLeafAbove(Tables(s.mem), root, Indexes(vpn), level) ||
             exists k :: BelowPage(s.mem, root, path, Indexes(vpn), k, level)
    ensures var mem', e := Write(t.mem, f, Indexes(vpn)[level], MapEntry(ppn, perm)), MapEntry(ppn, perm);
            Lookup(Tables(mem'), root, Indexes(vpn)) == Some((Pte(e), level)) <==>
            NoLeafAbove(Tables(s.mem), root, Indexes(vpn), level)
  {
    var key, e := Indexes(vpn), MapEntry(ppn, perm);
    var mem' := Write(t.mem, f, key[level], e);
    if NoLeafAbove(Tables(s.mem), root, key, level) {
      hide *;
      var path' := CreatingWalkKeepsSound(s, root, frames, path, root, key, 0, level, drawn, t, f);
      EntryIsFound(t.mem, root, frames + drawn, path', t.free, key, level, ppn, perm, f);
    } else {
      hide *;
      var k :| BelowPage(s.mem, root, path, key, k, level);
      MapBelowPageIsLost(s, root, frames, path, vpn, k, level, drawn, t, f, e);
      PageIsFound(s.mem, root, path, key, k, level);
    }
  }

  lemma PageIsFound(mem: WordMemory, root: PhysPageNum, path: map<PhysPageNum, seq<Idx>>, key: Key, k: Level, level: Level)
    requires BelowPage(mem, root, path, key, k, level)
    ensures k < level && Lookup(Tables(mem), root, key).Some? && Lookup(Tables(mem), root, key).value.1 == k
  {
    hide View, Foreign, TableAt;
    FindPassesTable(Tables(mem), root, key, k);
  }

  lemma EntryIsFound(mem: WordMemory, root: PhysPageNum, frames: seq<PhysPageNum>, path: map<PhysPageNum, seq<Idx>>,
                     free: set<PhysPageNum>, key: Key, level: Level, ppn: Word, perm: MapPerm, f: PhysPageNum)
    requires Sound(mem, root, frames, path, free) && ppn < 0x1000_0000_0000 && (level == 2 || GrantsAccess(perm))
    requires TableAt(Tables(mem), root, key, level) == Some(f)
    ensures Lookup(Tables(Write(mem, f, key[level], MapEntry(ppn, perm))), root, key) == Some((Pte(MapEntry(ppn, perm)), level))
  {
    hide Ppn, Flags, View, MapEntry, Tree;
    var e := MapEntry(ppn, perm);
    MapEntryView(ppn, perm);
    WriteIsStored(mem, f, key[level], e);
    MapSetsExactlyOnePage(Tables(mem), Tables(Write(mem, f, key[level], e)), root, path, key, level, View(e), key);
  }

  /** One lost map: a page of 2^18 pages lies at frame 0x40000, and page number 0 is mapped to
      frame 3 one level below it. The word that changes is the first word of that page; page
      number 0 still translates to 0x40000. */
  lemma MapBelowPageFails()
    ensures var root, rw, key := PhysPageNum(1), MapPerm(true, true, false, false), Indexes(0);
            var mem: WordMemory := Write((_, _) => 0, root, key[0], MapEntry(0x40000, rw));
            var page, path := PhysPageNum(0x40000), map[root := []];
            var mem' := Write(mem, page, key[1], MapEntry(3, rw));
            && Sound(mem, root, [root], path, {}) && BelowPage(mem, root, path, key, 0, 1)
            && CreatingWalk(PhysState(mem, {}), root, key, 0, 1, [], PhysState(mem, {}), page)
            && mem(page, key[1]) == 0 && mem'(page, key[1]) == MapEntry(3, rw) != 0
            && Translate(mem', root, 0) == Translate(mem, root, 0) == Some(Mapping(0x40000, rw))
  {
    var root, rw, key := PhysPageNum(1), MapPerm(true, true, false, false), Indexes(0);
    var mem: WordMemory := Write((_, _) => 0, root, key[0], MapEntry(0x40000, rw));
    var page, path := PhysPageNum(0x40000), map[root := []];
    var mem' := Write(mem, page, key[1], MapEntry(3, rw));
    hide Ppn, Flags, View, MapEntry, CleanEntry, PlainPointer;
    ZeroEntry();
    MapEntryView(0x40000, rw);
    MapEntryView(3, rw);
    assert Sound(mem, root, [root], path, {});
    assert BelowPage(mem, root, path, key, 0, 1);
    assert CreatingWalk(PhysState(mem, {}), root, key, 0, 1, [], PhysState(mem, {}), page);
    MapBelowPageIsLost(PhysState(mem, {}), root, [root], path, 0, 0, 1, [], PhysState(mem, {}), page, MapEntry(3, rw));
    assert Translate(mem, root, 0) == Some(Mapping(0x40000, rw));
  }

  // ---------- the processor's marks ----------

  /** The accessed bit, and for a store the dirty bit, that the processor sets in a leaf. */
  function Marked(e: Word, store: bool): Word {
    if store then e | 0xC0 else e | 0x40
  }

  lemma MarkedFlags(e: Word, store: bool)
    ensures IsValid(Marked(e, store)) == IsValid(e) && Flags(Marked(e, store)) == Flags(e)
  {
  }

  /** A load sets A, a store A and D. */
  lemma MarkedBits(e: Word, store: bool)
    ensures Marked(e, store) & 0x40 == 0x40 && (IsDirty(Marked(e, store)) <==> store || IsDirty(e))
  {
  }

  lemma MarkedRest(e: Word, store: bool)
    ensures Ppn(Marked(e, store)) == Ppn(e) && CleanEntry(Marked(e, store)) == CleanEntry(e)
  {
  }

  lemma MarkedView(e: Word, store: bool)
    requires View(e).Leaf?
    ensures View(Marked(e, store)) == Leaf(Pte(Marked(e, store)))
  {
    hide Marked, Flags, Ppn;
    MarkedFlags(e, store);
  }

  lemma MarkKeepsTranslation(mem: WordMemory, root: PhysPageNum, f: PhysPageNum, i: Idx, store: bool, v: nat)
    requires View(mem(f, i)).Leaf?
    ensures Translate(Write(mem, f, i, Marked(mem(f, i), store)), root, v) == Translate(mem, root, v)
  {
    hide Indexes, Marked, Flags, Ppn, PageAt, View;
    var e := Marked(mem(f, i), store);
    var mem' := Write(mem, f, i, e);
    MarkedView(mem(f, i), store);
    MarkedFlags(mem(f, i), store);
    MarkedRest(mem(f, i), store);
    WriteIsStored(mem, f, i, e);
    FindAfterRewording(Tables(mem), Tables(mem'), f, i, View(e), root, Indexes(v), 0);
    FoundWord(mem, root, Indexes(v));
    FoundWord(mem', root, Indexes(v));
    hide Lookup, FindFrom, Tables;
  }

  /** The word a lookup returns is the one stored at the slot the walk ends in. */
  lemma FoundWord(mem: WordMemory, root: PhysPageNum, key: Key)
    ensures match FindFrom(Tables(mem), root, key, 0)
            case None => Lookup(Tables(mem), root, key) == None
            case Some(s) => Lookup(Tables(mem), root, key) == Some((Pte(mem(s.frame, s.index)), s.level))
  {
    match FindFrom(Tables(mem), root, key, 0)
    case None =>
    case Some(s) =>
      ViewWord(mem(s.frame, s.index));
      hide View;
      assert Tables(mem)(s.frame, s.index) == View(mem(s.frame, s.index));
  }

  lemma ViewWord(e: Word)
    requires !View(e).Invalid?
    ensures View(e).word == Pte(e)
  {
  }

  lemma MarkKeepsClean(mem: WordMemory, path: map<PhysPageNum, seq<Idx>>, f: PhysPageNum, i: Idx, store: bool)
    requires AllClean(mem, path) && f in path && View(mem(f, i)).Leaf?
    ensures AllClean(Write(mem, f, i, Marked(mem(f, i), store)), path)
  {
    hide Marked, CleanEntry, View;
    MarkedView(mem(f, i), store);
    MarkedRest(mem(f, i), store);
    var mem' := Write(mem, f, i, Marked(mem(f, i), store));
    forall g, j | g in path ensures CleanEntry(mem'(g, j)) {
      assert CleanEntry(mem(g, j));
    }
  }

  /** A table stays sound, and translates as before, when the processor marks its leaves. */
  lemma MarksKeepSound(mem: WordMemory, root: PhysPageNum, frames: seq<PhysPageNum>,
                       path: map<PhysPageNum, seq<Idx>>, free: set<PhysPageNum>,
                       f: PhysPageNum, i: Idx, store: bool)
    requires Sound(mem, root, frames, path, free) && f in path && View(mem(f, i)).Leaf?
    ensures var mem' := Write(mem, f, i, Marked(mem(f, i), store));
            && Sound(mem', root, frames, path, free)
            && forall v :: Translate(mem', root, v) == Translate(mem, root, v)
  {
    hide Indexes, Marked, Flags, Ppn, PageAt, Translate, AllClean, Tree, View, Tables;
    var e := Marked(mem(f, i), store);
    MarkedView(mem(f, i), store);
    WriteIsStored(mem, f, i, e);
    TreeAfterRewording(Tables(mem), Tables(Write(mem, f, i, e)), root, path, f, i, View(e));
    MarkKeepsClean(mem, path, f, i, store);
    forall v ensures Translate(Write(mem, f, i, Marked(mem(f, i), store)), root, v) == Translate(mem, root, v) {
      MarkKeepsTranslation(mem, root, f, i, store, v);
    }
  }

  // ---------- addresses ----------

  /** The page number of an address: 27 bits above the 12 of the offset. */
  function Floor(va: nat): nat {
    va / 0x1000 % 0x800_0000
  }

  /** The physical address of `va` inside the page of a level that starts at `ppn`. */
  function AddrAt(ppn: nat, va: nat, level: Level): nat {
    ppn * 0x1000 + va % (PageCount(level) * 0x1000)
  }

  lemma LowHuge(q: nat)
    ensures q % 0x800_0000 % 0x40000 == q % 0x40000
  {
    var a, b := q / 0x800_0000, q % 0x800_0000;
    var c, d := b / 0x40000, b % 0x40000;
    assert q == (512 * a + c) * 0x40000 + d;
  }

  lemma LowBig(q: nat)
    ensures q % 0x800_0000 % 0x200 == q % 0x200
  {
    var a, b := q / 0x800_0000, q % 0x800_0000;
    var c, d := b / 0x200, b % 0x200;
    assert q == (0x40000 * a + c) * 0x200 + d;
  }

  lemma HugeOffset(va: nat)
    ensures va % 0x4000_0000 == va / 0x1000 % 0x40000 * 0x1000 + va % 0x1000
  {
    var q, o := va / 0x1000, va % 0x1000;
    var h, m := q / 0x40000, q % 0x40000;
    assert va == h * 0x4000_0000 + (m * 0x1000 + o);
  }

  lemma BigOffset(va: nat)
    ensures va % 0x20_0000 == va / 0x1000 % 0x200 * 0x1000 + va % 0x1000
  {
    var q, o := va / 0x1000, va % 0x1000;
    var h, m := q / 0x200, q % 0x200;
    assert va == h * 0x20_0000 + (m * 0x1000 + o);
  }

  lemma PpnBits(e: Word)
    ensures Ppn(e) <= 0xFFF_FFFF_FFFF
  {
  }

  lemma NarrowValue(w: bv44)
    ensures w as nat < 0x1000_0000_0000
  {
  }

  lemma NarrowingKeepsValue(w: Word)
    requires w <= 0xFFF_FFFF_FFFF
    ensures (w as bv44) as nat == w as nat
  {
  }

  lemma PpnFits(e: Word)
    ensures Ppn(e) as nat < 0x1000_0000_0000
  {
    PpnBits(e);
    hide Ppn;
    NarrowingKeepsValue(Ppn(e));
    NarrowValue(Ppn(e) as bv44);
  }

  lemma SumsFit(ppn: nat, v: nat, level: Level)
    requires ppn < 0x1000_0000_0000
    ensures PageAt(ppn, v, level) < 0x2000_0000_0000
    ensures AddrAt(ppn, v, level) < 0x200_0000_0000_0000
  {
  }

  /** The sums stay far below 2^64: modelling them without wrap-around loses nothing. */
  lemma NoOverflow(e: Word, v: nat, level: Level)
    ensures PageAt(Ppn(e) as nat, v, level) < 0x2000_0000_0000
    ensures AddrAt(Ppn(e) as nat, v, level) < 0x200_0000_0000_0000
  {
    hide Ppn, PageAt, AddrAt;
    PpnFits(e);
    SumsFit(Ppn(e) as nat, v, level);
  }

  /** At every level, the address reached is the start of the translated page of the
      address's own page number, plus the offset in that page. */
  lemma AddressFollowsPage(ppn: nat, va: nat, level: Level)
    ensures AddrAt(ppn, va, level) == PageAt(ppn, Floor(va), level) * 0x1000 + va % 0x1000
  {
    if level == 0 {
      LowHuge(va / 0x1000);
      HugeOffset(va);
    } else if level == 1 {
      LowBig(va / 0x1000);
      BigOffset(va);
    }
  }

  function Token(root: PhysPageNum): Word {
    (8 << 60) | root.n
  }

  function FromToken(token: Word): PhysPageNum {
    PhysPageNum(token & 0xFFF_FFFF_FFFF)
  }

  /** A page table is found again from its token, whose mode field says Sv39 and whose address
      space is 0. */
  lemma TokenRoundTrip(root: PhysPageNum)
    requires root.n < 0x1000_0000_0000
    ensures FromToken(Token(root)) == root
    ensures Token(root) >> 60 == 8 && (Token(root) >> 44) & 0xFFFF == 0
  {
  }

  // ---------- the walk of section 4.3.2 of the RISC-V privileged architecture ----------

  predicate HwFault(e: Word) {
    e & 0x1 == 0 || (e & 0x2 == 0 && e & 0x4 != 0) || e & 0xFFC0_0000_0000_0000 != 0
  }

  predicate HwLeaf(e: Word) {
    e & 0x2 != 0 || e & 0x8 != 0
  }

  predicate HwAligned(e: Word, level: Level) {
    Ppn(e) as nat % PageCount(level) == 0
  }

  /** The page number with its low parts taken from the virtual page number. */
  function HwPage(ppn: nat, vpn: nat, level: Level): nat {
    ppn / PageCount(level) * PageCount(level) + vpn % PageCount(level)
  }

  function HwFrom(mem: WordMemory, f: PhysPageNum, vpn: nat, level: Level): Option<nat>
    decreases 3 - level as int
  {
    var e := mem(f, Indexes(vpn)[level]);
    if HwFault(e) then None
    else if HwLeaf(e) then
      if HwAligned(e, level) then Some(HwPage(Ppn(e) as nat, vpn, level)) else None
    else if e & 0xD0 != 0 || level == 2 then None
    else HwFrom(mem, PhysPageNum(Ppn(e)), vpn, level + 1)
  }

  /** The leaves the hardware accepts: readable or executable, not writable only, and
      aligned to their own size. */
  predicate HwAccepts(e: Word, level: Level) {
    (Flags(e).r || Flags(e).x) && (Flags(e).w ==> Flags(e).r) && HwAligned(e, level)
  }

  lemma HwReadsInvalid(e: Word)
    requires View(e).Invalid?
    ensures HwFault(e)
  {
  }

  lemma HwReadsPointer(e: Word)
    requires View(e).Pointer? && CleanEntry(e)
    ensures !HwFault(e) && !HwLeaf(e) && !Flags(e).r && !Flags(e).x
    ensures PlainPointer(e) ==> e & 0xD0 == 0
  {
  }

  lemma HwReadsLeaf(e: Word)
    requires View(e).Leaf? && CleanEntry(e)
    ensures !HwFault(e) && HwLeaf(e) <==> (Flags(e).r || Flags(e).x) && (Flags(e).w ==> Flags(e).r)
    ensures !HwFault(e) ==> HwLeaf(e)
  {
  }

  lemma HwPageIsPageAt(e: Word, vpn: nat, level: Level)
    requires HwAligned(e, level)
    ensures HwPage(Ppn(e) as nat, vpn, level) == PageAt(Ppn(e) as nat, vpn, level)
  {
    hide Ppn;
  }

  lemma {:induction false} HardwareFollowsFind(mem: WordMemory, root: PhysPageNum, path: map<PhysPageNum, seq<Idx>>,
                                               g: PhysPageNum, vpn: nat, k: Level)
    requires Tree(Tables(mem), root, path) && AllClean(mem, path)
    requires g in path && path[g] == Indexes(vpn)[..k as int]
    ensures HwFrom(mem, g, vpn, k) ==
              match FindFrom(Tables(mem), g, Indexes(vpn), k)
              case None => None
              case Some(s) =>
                var e := mem(s.frame, s.index);
                if HwAccepts(e, s.level) then Some(PageAt(Ppn(e) as nat, vpn, s.level)) else None
    decreases 3 - k as int
  {
    hide Indexes, HwFault, HwLeaf, HwAligned, HwPage, PageAt, Flags, CleanEntry, PlainPointer, Ppn;
    var key := Indexes(vpn);
    var e := mem(g, key[k]);
    assert key[..k as int + 1] == key[..k as int] + [key[k]];
    match View(e)
    case Invalid =>
      HwReadsInvalid(e);
    case Leaf(_) =>
      HwReadsLeaf(e);
      if HwAligned(e, k) { HwPageIsPageAt(e, vpn, k); }
    case Pointer(to, _) =>
      HwReadsPointer(e);
      if k < 2 {
        HardwareFollowsFind(mem, root, path, to, vpn, k + 1);
      }
  }

  /** The processor translates a page number as the kernel does exactly when the kernel has
      no page for it, or one whose entry the hardware accepts. */
  lemma HardwareAgreesIff(mem: WordMemory, root: PhysPageNum, frames: seq<PhysPageNum>,
                          path: map<PhysPageNum, seq<Idx>>, free: set<PhysPageNum>, vpn: nat)
    requires Sound(mem, root, frames, path, free)
    ensures var kernel := match Translate(mem, root, vpn)
                          case None => None
                          case Some(m) => Some(m.ppn);
            HwFrom(mem, root, vpn, 0) == kernel <==>
            match Lookup(Tables(mem), root, Indexes(vpn))
            case None => true
            case Some((e, level)) => HwAccepts(e.bits, level)
  {
    hide Indexes, PageAt, HwAccepts, HwFrom;
    HardwareFollowsFind(mem, root, path, root, vpn, 0);
  }

  // ---------- blocks of page numbers ----------

  /** The three indices are the low 27 bits of a page number, nine each. */
  lemma IndexesAreDigits(vpn: nat)
    ensures var k := Indexes(vpn); k[0].n < 512 && k[1].n < 512 && k[2].n < 512
    ensures var k := Indexes(vpn); k[0].n * 0x40000 + k[1].n * 0x200 + k[2].n == vpn % 0x8000000
  {
    var a, b := vpn / 0x200, vpn / 0x40000;
    assert vpn == 0x200 * a + vpn % 512 && a == 512 * (a / 512) + a % 512 && a / 512 == b;
    assert b == 512 * (b / 512) + b % 512;
    assert vpn == 0x8000000 * (b / 512) + (b % 512 * 0x40000 + a % 512 * 0x200 + vpn % 512);
  }

  lemma HugeBlocks(v: nat, w: nat)
    requires v < 0x800_0000 && w < 0x800_0000
    ensures Indexes(v)[0] == Indexes(w)[0] <==> v / 0x40000 == w / 0x40000
  {
  }

  lemma BigDigits(v: nat)
    requires v < 0x800_0000
    ensures v / 0x200 == 512 * (v / 0x40000 % 512) + v / 0x200 % 512
  {
    assert v / 0x200 / 512 == v / 0x40000;
  }

  lemma BigBlocks(v: nat, w: nat)
    requires v < 0x800_0000 && w < 0x800_0000
    ensures Indexes(v)[0] == Indexes(w)[0] && Indexes(v)[1] == Indexes(w)[1] <==> v / 0x200 == w / 0x200
  {
    BigDigits(v);
    BigDigits(w);
  }

  lemma SmallBlocks(v: nat, w: nat)
    requires v < 0x800_0000 && w < 0x800_0000
    ensures Indexes(v) == Indexes(w) <==> v == w
  {
    BigDigits(v);
    BigDigits(w);
    if Indexes(v) == Indexes(w) {
      assert Indexes(v)[0] == Indexes(w)[0] && Indexes(v)[1] == Indexes(w)[1] && Indexes(v)[2] == Indexes(w)[2];
    }
  }

  /** The pages of a level partition the 27-bit page numbers into aligned blocks of
      consecutive numbers. */
  lemma PageIsAlignedBlock(v: nat, vpn: nat, level: Level)
    requires v < 0x800_0000 && vpn < 0x800_0000
    ensures InPage(v, vpn, level) <==> v / PageCount(level) == vpn / PageCount(level)
  {
    SamePageByIndex(Indexes(v), Indexes(vpn), level);
    if level == 0 {
      HugeBlocks(v, vpn);
    } else if level == 1 {
      BigBlocks(v, vpn);
    } else {
      SmallBlocks(v, vpn);
    }
    hide Indexes;
  }

  // ---------- the in-place operations ----------

  /** Physical memory with its frame allocator. */
  class PhysMemory {
    var mem: WordMemory
    var free: set<PhysPageNum>

    constructor (mem: WordMemory, free: set<PhysPageNum>)
      ensures this.mem == mem && this.free == free
    {
      this.mem, this.free := mem, free;
    }

    method Alloc() returns (f: PhysPageNum)
      requires free != {}
      modifies this`free
      ensures f in old(free) && free == old(free) - {f}
    {
      f :| f in free;
      free := free - {f};
    }

    /** A zeroed frame, hung as an empty table into slot (f, i). */
    method NewTable(f: PhysPageNum, i: Idx) returns (n: PhysPageNum)
      requires free != {} && forall g | g in free :: g.n < 0x1000_0000_0000
      modifies this
      ensures n in old(free) && free == old(free) - {n} && mem == Grow(old(mem), f, i, n)
    {
      n := Alloc();
      mem := ZeroFrame(mem, n);
      var pte := new EntryCell(n.n, MapPerm(false, false, false, false));
      pte.WriteValid(true);
      EntryOfTable(pte.bits, n);
      mem := Write(mem, f, i, pte.bits);
    }
  }

  class PageTable {
    const phys: PhysMemory
    var rootPpn: PhysPageNum
    var frames: seq<PhysPageNum>
    ghost var path: map<PhysPageNum, seq<Idx>>

    ghost predicate Valid()
      reads this, phys
    {
      Sound(phys.mem, rootPpn, frames, path, phys.free)
    }

    constructor (phys: PhysMemory)
      requires phys.free != {} && forall f | f in phys.free :: f.n < 0x1000_0000_0000
      modifies phys
      ensures Valid() && this.phys == phys
      ensures phys.free <= old(phys.free) && OnlyWithin(old(phys.mem), phys.mem, frames)
      ensures forall v :: Translate(phys.mem, rootPpn, v) == None
    {
      var root := phys.Alloc();
      phys.mem := ZeroFrame(phys.mem, root);
      this.phys := phys;
      rootPpn := root;
      frames := [root];
      path := map[root := []];
      ZeroEntry();
    }

    method FindPte(vpn: nat) returns (r: Option<Slot<PhysPageNum, Idx>>)
      ensures r == FindFrom(Tables(phys.mem), rootPpn, Indexes(vpn), 0)
    {
      var idxs := Indexes(vpn);
      var ppn := rootPpn;
      var i: int := 0;
      while i < 3
        invariant 0 <= i < 3
        invariant FindFrom(Tables(phys.mem), rootPpn, idxs, 0) == FindFrom(Tables(phys.mem), ppn, idxs, i as Level)
        decreases 3 - i
      {
        var pte := phys.mem(ppn, idxs[i]);
        if !IsValid(pte) {
          return None;
        }
        if IsLeaf(pte) || i == 2 {
          return Some(Slot(ppn, idxs[i], i as Level));
        }
        ppn := PhysPageNum(Ppn(pte));
        i := i + 1;
      }
      return None;
    }

    ghost function State(): PhysState
      reads phys
    {
      PhysState(phys.mem, phys.free)
    }

    method FindPteCreate(vpn: nat, level: Level) returns (f: PhysPageNum, idx: Idx)
      requires Valid() && |phys.free| >= level as int
      modifies this, phys
      ensures rootPpn == old(rootPpn) && idx == Indexes(vpn)[level] && old(frames) <= frames
      ensures CreatingWalk(old(State()), rootPpn, Indexes(vpn), 0, level, frames[|old(frames)|..], State(), f)
      ensures old(NoLeafAbove(Tables(phys.mem), rootPpn, Indexes(vpn), level)) ==>
                && Valid()
                && TableAt(Tables(phys.mem), rootPpn, Indexes(vpn), level) == Some(f)
                && (forall key: Key :: Lookup(Tables(phys.mem), rootPpn, key) == old(Lookup(Tables(phys.mem), rootPpn, key)))
                && OnlyWithin(old(phys.mem), phys.mem, frames)
      ensures phys.free <= old(phys.free)
    {
      hide Indexes, Sound, View, NoLeafAbove, Lookup, Grow, Ppn, Tables, IsValid, CreatingWalk, Continues, OnlyWithin;
      var idxs := Indexes(vpn);
      var ppn := rootPpn;
      var i: int := 0;
      ghost var drawn: seq<PhysPageNum> := [];
      ContinuesAtStart(State(), rootPpn, idxs, level);
      FreeFramesFit(phys.mem, rootPpn, frames, path, phys.free);
      while i < level as int
        invariant 0 <= i <= level as int
        invariant rootPpn == old(rootPpn) && path == old(path) && frames == old(frames) + drawn
        invariant level as int - i <= |phys.free| && phys.free <= old(phys.free)
        invariant Continues(old(State()), rootPpn, idxs, i as Level, level, drawn, State(), ppn)
      {
        var pte := phys.mem(ppn, idxs[i]);
        if !IsValid(pte) {
          ghost var s := State();
          var n := phys.NewTable(ppn, idxs[i]);
          ContinuesAfterHanging(old(State()), rootPpn, idxs, i as Level, level, drawn, s, ppn, n);
          frames := frames + [n];
          drawn := drawn + [n];
        } else {
          ContinuesThroughValid(old(State()), rootPpn, idxs, i as Level, level, drawn, State(), ppn);
        }
        ppn := PhysPageNum(Ppn(phys.mem(ppn, idxs[i])));
        i := i + 1;
      }
      assert frames[|old(frames)|..] == drawn;
      ContinuesToEnd(old(State()), rootPpn, idxs, level, drawn, State(), ppn);
      if NoLeafAbove(Tables(old(phys.mem)), rootPpn, idxs, level) {
        path := CreatingWalkKeepsSound(old(State()), rootPpn, old(frames), path, rootPpn, idxs, 0, level, drawn, State(), ppn);
      }
      return ppn, idxs[i];
    }

    method Map(vpn: nat, ppn: Word, perm: MapPerm, level: Level)
      requires Valid() && |phys.free| >= level as int && ppn < 0x1000_0000_0000
      modifies this, phys
      ensures rootPpn == old(rootPpn) && old(frames) <= frames && phys.free <= old(phys.free)
      ensures exists t, f ::
                && CreatingWalk(old(State()), rootPpn, Indexes(vpn), 0, level, frames[|old(frames)|..], t, f)
                && State() == PhysState(Write(t.mem, f, Indexes(vpn)[level], MapEntry(ppn, perm)), t.free)
      ensures old(NoLeafAbove(Tables(phys.mem), rootPpn, Indexes(vpn), level)) ==>
                && OnlyWithin(old(phys.mem), phys.mem, frames)
                && (level == 2 || GrantsAccess(perm) ==>
                      && Valid()
                      && forall v | InPage(v, vpn, level) ::
                           Translate(phys.mem, rootPpn, v) == Some(Mapping(PageAt(ppn as nat, v, level), perm)))
                && (level < 2 && !GrantsAccess(perm) ==>
                      forall v | InPage(v, vpn, level) ::
                        FindFrom(Tables(phys.mem), rootPpn, Indexes(v), 0) ==
                        FindFrom(Tables(phys.mem), PhysPageNum(ppn), Indexes(v), level + 1))
                && (forall v | !InPage(v, vpn, level) ::
                      Translate(phys.mem, rootPpn, v) == old(Translate(phys.mem, rootPpn, v)))
      ensures old(exists k :: BelowPage(phys.mem, rootPpn, path, Indexes(vpn), k, level)) ==>
                && Sound(phys.mem, rootPpn, old(frames), old(path), phys.free)
                && forall v :: Translate(phys.mem, rootPpn, v) == old(Translate(phys.mem, rootPpn, v))
    {
      hide Indexes, PageAt, Sound, Lookup, TableAt, NoLeafAbove, InPage, Tables, MapEntry, Decode,
           CreatingWalk, BelowPage, OnlyWithin, FindFrom, Flags, Ppn;
      var f, idx := FindPteCreate(vpn, level);
      ghost var t := State();
      MapEntryFields(ppn, perm);
      var pte := new EntryCell(ppn, perm);
      pte.WriteValid(true);
      DecodeIsInjective(pte.bits, MapEntry(ppn, perm));
      phys.mem := Write(phys.mem, f, idx, pte.bits);
      MapIsLostBelowPages(old(State()), rootPpn, old(frames), old(path), vpn, level, frames[|old(frames)|..], t, f, pte.bits);
      if NoLeafAbove(Tables(old(phys.mem)), rootPpn, Indexes(vpn), level) {
        OwnedTables(t.mem, rootPpn, frames, path, t.free, Indexes(vpn), level);
        WriteOnlyWithin(old(phys.mem), t.mem, frames, f, idx, pte.bits);
        assert forall v :: Translate(t.mem, rootPpn, v) == old(Translate(phys.mem, rootPpn, v));
        MapWrites(t.mem, rootPpn, frames, path, t.free, vpn, level, ppn, perm, f);
      }
    }

    method Unmap(vpn: nat) returns (r: Result<Word, ()>)
      requires Valid()
      modifies phys`mem
      ensures Valid() && OnlyWithin(old(phys.mem), phys.mem, frames)
      ensures r.Err? <==> old(Translate(phys.mem, rootPpn, vpn)) == None
      ensures r.Err? ==> phys.mem == old(phys.mem)
      ensures r.Ok? ==> exists level ::
                && old(Lookup(Tables(phys.mem), rootPpn, Indexes(vpn))) == Some((Pte(r.value), level))
                && forall v :: Translate(phys.mem, rootPpn, v) ==
                                 if InPage(v, vpn, level) then None else old(Translate(phys.mem, rootPpn, v))
    {
      var found := FindPte(vpn);
      match found
      case Some(s) =>
        var ret := phys.mem(s.frame, s.index);
        UnmapRefinesFlatRemoval(phys.mem, rootPpn, frames, path, phys.free, vpn, s);
        FoundInside(phys.mem, rootPpn, frames, path, phys.free, Indexes(vpn));
        phys.mem := Write(phys.mem, s.frame, s.index, 0);
        return Ok(ret);
      case None =>
        return Err(());
    }

    method TranslateVpn(vpn: nat) returns (r: Option<nat>)
      ensures match Translate(phys.mem, rootPpn, vpn)
              case None => r == None
              case Some(m) => r == Some(m.ppn)
    {
      hide Indexes, PageAt, Ppn, Flags;
      var found := FindPte(vpn);
      match found
      case None => return None;
      case Some(s) =>
        return Some(PageAt(Ppn(phys.mem(s.frame, s.index)) as nat, vpn, s.level));
    }

    method TranslateVa(va: nat) returns (r: Option<PhysAddr>)
      ensures match Translate(phys.mem, rootPpn, Floor(va))
              case None => r == None
              case Some(m) => r == Some(PhysAddr(m.ppn * 0x1000 + va % 0x1000))
    {
      hide Indexes, AddrAt, PageAt, Ppn, Flags, Floor;
      var found := FindPte(Floor(va));
      match found
      case None => return None;
      case Some(s) =>
        var ppn := Ppn(phys.mem(s.frame, s.index)) as nat;
        AddressFollowsPage(ppn, va, s.level);
        return Some(PhysAddr(AddrAt(ppn, va, s.level)));
    }
  }
}
