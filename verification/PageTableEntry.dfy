/** The Sv39 page table entry: a 64-bit word that packs flag bits V R W X U G A D and
    the kernel's copy-on-write bit C into bits 0 to 8, and a 44-bit physical page number
    into bits 10 to 53. Masks are written as literals. */
module PageTableEntry {

  type Word = bv64

  /** The permissions a caller can ask for. */
  datatype MapPerm = MapPerm(r: bool, w: bool, x: bool, u: bool)

  function PermBits(perm: MapPerm): Word {
    (if perm.u then 0x10 else 0) | (if perm.r then 0x2 else 0) |
    (if perm.w then 0x4 else 0) | (if perm.x then 0x8 else 0)
  }

  function New(ppn: Word, perm: MapPerm): Word {
    (ppn << 10) | PermBits(perm)
  }

  function Flags(e: Word): MapPerm {
    MapPerm(e & 0x2 != 0, e & 0x4 != 0, e & 0x8 != 0, e & 0x10 != 0)
  }

  function SetFlags(e: Word, perm: MapPerm): Word {
    (e & 0xFFFF_FFFF_FFFF_FFE1) | (PermBits(perm) & 0x1E)
  }

  function Ppn(e: Word): Word {
    (e >> 10) & 0xFFF_FFFF_FFFF
  }

  function SetPpn(e: Word, ppn: Word): Word {
    (e & 0xFFC0_0000_0000_03FF) | ((ppn << 10) & 0x003F_FFFF_FFFF_FC00)
  }

  predicate IsValid(e: Word) {
    e & 0x1 != 0
  }

  predicate IsLeaf(e: Word) {
    IsValid(e) && (Flags(e).r || Flags(e).w || Flags(e).x)
  }

  function SetValid(e: Word, val: bool): Word {
    if val then e | 0x1 else e & 0xFFFF_FFFF_FFFF_FFFE
  }

  function SetDirty(e: Word, val: bool): Word {
    if val then e | 0x80 else e & 0xFFFF_FFFF_FFFF_FF7F
  }

  function SetCow(e: Word, val: bool): Word {
    if val then e | 0x100 else e & 0xFFFF_FFFF_FFFF_FEFF
  }

  predicate IsDirty(e: Word) {
    e & 0x80 != 0
  }

  predicate IsCow(e: Word) {
    e & 0x100 != 0
  }

  /** The bits no setter may touch: G, A, bit 9 and the reserved bits 54 to 63. */
  function Rest(e: Word): Word {
    e & 0xFFC0_0000_0000_0260
  }

  /** An entry taken apart: the flags with setters, the page number, and the rest. */
  datatype Fields = Fields(valid: bool, perm: MapPerm, dirty: bool, cow: bool, ppn: Word, rest: Word)

  function Decode(e: Word): Fields {
    Fields(IsValid(e), Flags(e), IsDirty(e), IsCow(e), Ppn(e), Rest(e))
  }

  lemma NewFlags(ppn: Word, perm: MapPerm)
    ensures var e := New(ppn, perm); !IsValid(e) && Flags(e) == perm && !IsDirty(e) && !IsCow(e)
  {
  }

  lemma PermBitsAreLow(perm: MapPerm)
    ensures PermBits(perm) & 0xFFFF_FFFF_FFFF_FFE1 == 0
  {
    var u: Word, r: Word := if perm.u then 0x10 else 0, if perm.r then 0x2 else 0;
    var w: Word, x: Word := if perm.w then 0x4 else 0, if perm.x then 0x8 else 0;
    assert u & 0xFFFF_FFFF_FFFF_FFE1 == 0 && r & 0xFFFF_FFFF_FFFF_FFE1 == 0;
    assert w & 0xFFFF_FFFF_FFFF_FFE1 == 0 && x & 0xFFFF_FFFF_FFFF_FFE1 == 0;
    assert PermBits(perm) == u | r | w | x;
  }

  lemma NewPpn(ppn: Word, perm: MapPerm)
    requires ppn < 0x1000_0000_0000
    ensures Ppn(New(ppn, perm)) == ppn
  {
    PermBitsAreLow(perm);
    hide PermBits;
  }

  lemma NewRest(ppn: Word, perm: MapPerm)
    requires ppn < 0x1000_0000_0000
    ensures Rest(New(ppn, perm)) == 0
  {
    PermBitsAreLow(perm);
    hide PermBits;
  }

  /** A new entry reads back as the page and permissions it was made from, with every
      other field clear. */
  lemma NewRoundTrip(ppn: Word, perm: MapPerm)
    requires ppn < 0x1000_0000_0000
    ensures Decode(New(ppn, perm)) == Fields(false, perm, false, false, ppn, 0)
  {
    hide New, IsValid, Flags, IsDirty, IsCow, Ppn, Rest;
    NewFlags(ppn, perm);
    NewPpn(ppn, perm);
    NewRest(ppn, perm);
  }

  function Encode(f: Fields): Word {
    (if f.valid then 0x1 else 0) | PermBits(f.perm) | (if f.dirty then 0x80 else 0) |
    (if f.cow then 0x100 else 0) | (f.ppn << 10) | f.rest
  }

  /** No bit of an entry escapes its fields: the word is rebuilt from them. */
  lemma EncodeDecode(e: Word)
    ensures Encode(Decode(e)) == e
  {
  }

  /** Entries with the same fields are the same word. */
  lemma DecodeIsInjective(a: Word, b: Word)
    requires Decode(a) == Decode(b)
    ensures a == b
  {
    EncodeDecode(a);
    EncodeDecode(b);
    hide Encode, Decode;
  }

  lemma SetValidOnFlags(e: Word, val: bool)
    ensures var e' := SetValid(e, val); IsValid(e') == val && Flags(e') == Flags(e) && IsDirty(e') == IsDirty(e) && IsCow(e') == IsCow(e)
  {
  }

  lemma SetValidOnPage(e: Word, val: bool)
    ensures var e' := SetValid(e, val); Ppn(e') == Ppn(e) && Rest(e') == Rest(e)
  {
  }

  lemma SetValidBits(e: Word, val: bool)
    ensures Decode(SetValid(e, val)) == Decode(e).(valid := val)
  {
    hide SetValid, IsValid, Flags, IsDirty, IsCow, Ppn, Rest;
    SetValidOnFlags(e, val);
    SetValidOnPage(e, val);
  }

  lemma SetDirtyOnFlags(e: Word, val: bool)
    ensures var e' := SetDirty(e, val); IsValid(e') == IsValid(e) && Flags(e') == Flags(e) && IsDirty(e') == val && IsCow(e') == IsCow(e)
  {
  }

  lemma SetDirtyOnPage(e: Word, val: bool)
    ensures var e' := SetDirty(e, val); Ppn(e') == Ppn(e) && Rest(e') == Rest(e)
  {
  }

  lemma SetDirtyBits(e: Word, val: bool)
    ensures Decode(SetDirty(e, val)) == Decode(e).(dirty := val)
  {
    hide SetDirty, IsValid, Flags, IsDirty, IsCow, Ppn, Rest;
    SetDirtyOnFlags(e, val);
    SetDirtyOnPage(e, val);
  }

  lemma SetCowOnFlags(e: Word, val: bool)
    ensures var e' := SetCow(e, val); IsValid(e') == IsValid(e) && Flags(e') == Flags(e) && IsDirty(e') == IsDirty(e) && IsCow(e') == val
  {
  }

  lemma SetCowOnPage(e: Word, val: bool)
    ensures var e' := SetCow(e, val); Ppn(e') == Ppn(e) && Rest(e') == Rest(e)
  {
  }

  lemma SetCowBits(e: Word, val: bool)
    ensures Decode(SetCow(e, val)) == Decode(e).(cow := val)
  {
    hide SetCow, IsValid, Flags, IsDirty, IsCow, Ppn, Rest;
    SetCowOnFlags(e, val);
    SetCowOnPage(e, val);
  }

  lemma SetFlagsOnFlags(e: Word, perm: MapPerm)
    ensures var e' := SetFlags(e, perm); IsValid(e') == IsValid(e) && Flags(e') == perm && IsDirty(e') == IsDirty(e) && IsCow(e') == IsCow(e)
  {
  }

  lemma SetFlagsOnPage(e: Word, perm: MapPerm)
    ensures var e' := SetFlags(e, perm); Ppn(e') == Ppn(e) && Rest(e') == Rest(e)
  {
  }

  lemma SetFlagsBits(e: Word, perm: MapPerm)
    ensures Decode(SetFlags(e, perm)) == Decode(e).(perm := perm)
  {
    hide SetFlags, IsValid, Flags, IsDirty, IsCow, Ppn, Rest;
    SetFlagsOnFlags(e, perm);
    SetFlagsOnPage(e, perm);
  }

  lemma SetPpnOnFlags(e: Word, ppn: Word)
    ensures var e' := SetPpn(e, ppn); IsValid(e') == IsValid(e) && Flags(e') == Flags(e) && IsDirty(e') == IsDirty(e) && IsCow(e') == IsCow(e)
  {
  }

  lemma SetPpnOnPage(e: Word, ppn: Word)
    ensures var e' := SetPpn(e, ppn); Ppn(e') == ppn & 0xFFF_FFFF_FFFF && Rest(e') == Rest(e)
  {
  }

  lemma SetPpnBits(e: Word, ppn: Word)
    ensures Decode(SetPpn(e, ppn)) == Decode(e).(ppn := ppn & 0xFFF_FFFF_FFFF)
  {
    hide SetPpn, IsValid, Flags, IsDirty, IsCow, Ppn, Rest;
    SetPpnOnFlags(e, ppn);
    SetPpnOnPage(e, ppn);
  }

  /** A mapping entry is a leaf exactly when it grants some of R, W and X; otherwise the
      walk reads it as a pointer to a further table. */
  lemma LeafNeedsAccess(ppn: Word, perm: MapPerm)
    requires ppn < 0x1000_0000_0000
    ensures IsLeaf(SetValid(New(ppn, perm), true)) <==> perm.r || perm.w || perm.x
  {
    hide New, SetValid, Ppn, Rest;
    NewRoundTrip(ppn, perm);
    SetValidBits(New(ppn, perm), true);
  }

  /** An entry updated in place; every setter writes its own field and leaves the rest of the
      word alone. */
  class EntryCell {
    var bits: Word

    constructor (ppn: Word, perm: MapPerm)
      requires ppn < 0x1000_0000_0000
      ensures Decode(bits) == Fields(false, perm, false, false, ppn, 0)
    {
      bits := New(ppn, perm);
      NewRoundTrip(ppn, perm);
    }

    method WriteFlags(perm: MapPerm)
      modifies this
      ensures Decode(bits) == Decode(old(bits)).(perm := perm)
    {
      hide Decode, SetFlags;
      SetFlagsBits(bits, perm);
      bits := SetFlags(bits, perm);
    }

    method WritePpn(ppn: Word)
      modifies this
      ensures Decode(bits) == Decode(old(bits)).(ppn := ppn & 0xFFF_FFFF_FFFF)
    {
      hide Decode, SetPpn;
      SetPpnBits(bits, ppn);
      bits := SetPpn(bits, ppn);
    }

    method WriteDirty(val: bool)
      modifies this
      ensures Decode(bits) == Decode(old(bits)).(dirty := val)
    {
      hide Decode, SetDirty;
      SetDirtyBits(bits, val);
      bits := SetDirty(bits, val);
    }

    method WriteValid(val: bool)
      modifies this
      ensures Decode(bits) == Decode(old(bits)).(valid := val)
    {
      hide Decode, SetValid;
      SetValidBits(bits, val);
      bits := SetValid(bits, val);
    }

    method WriteCow(val: bool)
      modifies this
      ensures Decode(bits) == Decode(old(bits)).(cow := val)
    {
      hide Decode, SetCow;
      SetCowBits(bits, val);
      bits := SetCow(bits, val);
    }
  }
}
