/** The initial user stack of a program: strings, alignment, the auxiliary vector, the
    environment and argument pointers and the argument count, pushed downwards, and read
    back the way a program's start code reads them. */
module UserStack {
  import opened ByteSeqs
  import opened Wrappers

  type Str = seq<Byte>

  const TWO64: nat := 0x1_0000_0000_0000_0000
  const AT_NULL: nat := 0
  const AT_EXECFN: nat := 31

  datatype Aux = Aux(key: nat, value: nat)

  // ---------- little-endian words ----------

  function Encode(v: nat, n: nat): (bs: seq<Byte>)
    ensures |bs| == n
  {
    if n == 0 then [] else [v % 256] + Encode(v / 256, n - 1)
  }

  function Decode(bs: seq<Byte>): nat {
    if bs == [] then 0 else bs[0] + 256 * Decode(bs[1..])
  }

  function Pow256(n: nat): nat {
    if n == 0 then 1 else 256 * Pow256(n - 1)
  }

  lemma {:induction false} EncodeRoundTrip(v: nat, n: nat)
    requires v < Pow256(n)
    ensures Decode(Encode(v, n)) == v
  {
    if n > 0 {
      assert v / 256 < Pow256(n - 1);
      EncodeRoundTrip(v / 256, n - 1);
      assert Encode(v, n)[1..] == Encode(v / 256, n - 1);
    }
  }

  function U64(v: nat): (bs: seq<Byte>)
    ensures |bs| == 8
  {
    Encode(v, 8)
  }

  lemma WordRoundTrip(v: nat)
    requires v < TWO64
    ensures Decode(U64(v)) == v
  {
    assert Pow256(8) == TWO64 by {
      assert Pow256(1) == 256 && Pow256(2) == 0x1_0000 && Pow256(3) == 0x100_0000;
      assert Pow256(4) == 0x1_0000_0000 && Pow256(5) == 0x100_0000_0000 && Pow256(6) == 0x1_0000_0000_0000;
      assert Pow256(7) == 0x100_0000_0000_0000;
    }
    EncodeRoundTrip(v, 8);
  }

  function Words(ws: seq<nat>): (bs: seq<Byte>)
    ensures |bs| == 8 * |ws|
  {
    if ws == [] then [] else U64(ws[0]) + Words(ws[1..])
  }

  function AuxWords(auxv: seq<Aux>): (ws: seq<nat>)
    ensures |ws| == 2 * |auxv|
  {
    if auxv == [] then [] else [auxv[0].key, auxv[0].value] + AuxWords(auxv[1..])
  }

  /** Strings one after another, each with its terminator. */
  function Strings(strs: seq<Str>): seq<Byte> {
    if strs == [] then [] else strs[0] + [0] + Strings(strs[1..])
  }

  // ---------- pushing ----------

  /** User memory from address 0 on, and the stack pointer. */
  datatype Stack = Stack(mem: seq<Byte>, sp: nat)

  function Push(s: Stack, bs: seq<Byte>): (s': Stack)
    requires |bs| <= s.sp <= |s.mem|
    ensures |s'.mem| == |s.mem| && s'.sp == s.sp - |bs|
  {
    Stack(Overlay(s.mem, s.sp - |bs|, bs), s.sp - |bs|)
  }

  function AlignDown(sp: nat): (r: nat)
    requires sp > 0
    ensures r < sp <= r + 16 && r % 16 == 0
  {
    sp - 1 - (sp - 1) % 16
  }

  lemma PushTwice(s: Stack, a: seq<Byte>, b: seq<Byte>)
    requires |a| + |b| <= s.sp <= |s.mem|
    ensures Push(Push(s, b), a) == Push(s, a + b)
  {
  }

  /** Where each string ends up when they are pushed last to first below `sp`. */
  function Ptrs(sp: nat, strs: seq<Str>): (ps: seq<nat>)
    requires |Strings(strs)| <= sp
    ensures |ps| == |strs|
  {
    if strs == [] then [] else [sp - |Strings(strs)|] + Ptrs(sp, strs[1..])
  }

  // ---------- reading ----------

  function ReadWord(mem: seq<Byte>, a: nat): Option<nat> {
    if a + 8 <= |mem| then Some(Decode(mem[a..a + 8])) else None
  }

  /** The bytes up to the first terminator. */
  function ReadStr(mem: seq<Byte>, a: nat): Option<Str>
    decreases |mem| - a
  {
    if a >= |mem| then None
    else if mem[a] == 0 then Some([])
    else
      match ReadStr(mem, a + 1)
      case None => None
      case Some(s) => Some([mem[a]] + s)
  }

  /** Words up to a null one. */
  function ReadVector(mem: seq<Byte>, a: nat): Option<seq<nat>>
    decreases |mem| - a
  {
    match ReadWord(mem, a)
    case None => None
    case Some(w) =>
      if w == 0 then Some([])
      else
        match ReadVector(mem, a + 8)
        case None => None
        case Some(ws) => Some([w] + ws)
  }

  function ReadStrs(mem: seq<Byte>, ptrs: seq<nat>): Option<seq<Str>> {
    if ptrs == [] then Some([])
    else
      match (ReadStr(mem, ptrs[0]), ReadStrs(mem, ptrs[1..]))
      case (Some(s), Some(ss)) => Some([s] + ss)
      case _ => None
  }

  /** Pairs up to a null key. */
  function ReadAux(mem: seq<Byte>, a: nat): Option<seq<Aux>>
    decreases |mem| - a
  {
    if a + 16 > |mem| then None
    else
      var k, v := Decode(mem[a..a + 8]), Decode(mem[a + 8..a + 16]);
      if k == AT_NULL then Some([])
      else
        match ReadAux(mem, a + 16)
        case None => None
        case Some(rest) => Some([Aux(k, v)] + rest)
  }

  // ---------- reading what was written ----------

  /** A pointer vector with its null end. */
  function PtrBytes(ws: seq<nat>): (bs: seq<Byte>)
    ensures |bs| == 8 * (|ws| + 1)
  {
    Words(ws + [0])
  }

  /** The auxiliary vector with its null pair. */
  function AuxBytes(auxv: seq<Aux>): (bs: seq<Byte>)
    ensures |bs| == 16 * (|auxv| + 1)
  {
    Words(AuxWords(auxv + [Aux(AT_NULL, 0)]))
  }

  /** Non-null 64-bit pointers. */
  ghost predicate GoodPtrs(ps: seq<nat>) {
    forall i | 0 <= i < |ps| :: 0 < ps[i] < TWO64
  }

  ghost predicate GoodAux(auxv: seq<Aux>) {
    forall i | 0 <= i < |auxv| :: 0 < auxv[i].key < TWO64 && auxv[i].value < TWO64
  }

  function Bytes(mem: seq<Byte>, a: nat, n: nat): Option<seq<Byte>> {
    if a + n <= |mem| then Some(mem[a..a + n]) else None
  }

  /** The bytes `bs` lie at address a. */
  predicate At(mem: seq<Byte>, a: nat, bs: seq<Byte>) {
    Bytes(mem, a, |bs|) == Some(bs)
  }

  predicate NoNul(s: Str) {
    forall i | 0 <= i < |s| :: s[i] != 0
  }

  lemma AtSplit(mem: seq<Byte>, a: nat, x: seq<Byte>, y: seq<Byte>)
    requires At(mem, a, x + y)
    ensures At(mem, a, x) && At(mem, a + |x|, y)
  {
    assert mem[a..a + |x|] == (x + y)[..|x|];
    assert mem[a + |x|..a + |x| + |y|] == (x + y)[|x|..];
  }

  lemma {:induction false} ReadStrBack(mem: seq<Byte>, a: nat, s: Str)
    requires At(mem, a, s + [0]) && NoNul(s)
    ensures ReadStr(mem, a) == Some(s)
    decreases |s|
  {
    assert mem[a] == (s + [0])[0];
    if s != [] {
      assert s + [0] == [s[0]] + (s[1..] + [0]);
      AtSplit(mem, a, [s[0]], s[1..] + [0]);
      ReadStrBack(mem, a + 1, s[1..]);
      assert [s[0]] + s[1..] == s;
    }
  }

  lemma ReadWordBack(mem: seq<Byte>, a: nat, v: nat)
    requires At(mem, a, U64(v)) && v < TWO64
    ensures ReadWord(mem, a) == Some(v)
  {
    WordRoundTrip(v);
  }

  lemma {:induction false} ReadVectorBack(mem: seq<Byte>, a: nat, ws: seq<nat>)
    requires At(mem, a, PtrBytes(ws)) && GoodPtrs(ws)
    ensures ReadVector(mem, a) == Some(ws)
    decreases |ws|
  {
    var all := ws + [0];
    AtSplit(mem, a, U64(all[0]), Words(all[1..]));
    ReadWordBack(mem, a, all[0]);
    if ws != [] {
      assert all[1..] == ws[1..] + [0];
      ReadVectorBack(mem, a + 8, ws[1..]);
      assert [ws[0]] + ws[1..] == ws;
    }
  }

  lemma {:induction false} ReadAuxBack(mem: seq<Byte>, a: nat, auxv: seq<Aux>)
    requires At(mem, a, AuxBytes(auxv)) && GoodAux(auxv)
    ensures ReadAux(mem, a) == Some(auxv)
    decreases |auxv|
  {
    var all := auxv + [Aux(AT_NULL, 0)];
    var ws := AuxWords(all);
    assert ws == [all[0].key, all[0].value] + AuxWords(all[1..]);
    assert Words(ws) == U64(ws[0]) + Words(ws[1..]) && Words(ws[1..]) == U64(ws[1]) + Words(ws[1..][1..]);
    assert ws[1..][1..] == AuxWords(all[1..]);
    AtSplit(mem, a, U64(ws[0]), Words(ws[1..]));
    AtSplit(mem, a + 8, U64(ws[1]), Words(ws[1..][1..]));
    ReadWordBack(mem, a, ws[0]);
    ReadWordBack(mem, a + 8, ws[1]);
    if auxv != [] {
      assert all[1..] == auxv[1..] + [Aux(AT_NULL, 0)];
      ReadAuxBack(mem, a + 16, auxv[1..]);
      assert [auxv[0]] + auxv[1..] == auxv;
    }
  }

  lemma {:induction false} ReadStrsBack(mem: seq<Byte>, sp: nat, strs: seq<Str>)
    requires |Strings(strs)| <= sp && At(mem, sp - |Strings(strs)|, Strings(strs))
    requires forall i | 0 <= i < |strs| :: NoNul(strs[i])
    ensures ReadStrs(mem, Ptrs(sp, strs)) == Some(strs)
    decreases |strs|
  {
    if strs != [] {
      var a := sp - |Strings(strs)|;
      AtSplit(mem, a, strs[0] + [0], Strings(strs[1..]));
      ReadStrBack(mem, a, strs[0]);
      ReadStrsBack(mem, sp, strs[1..]);
      assert Ptrs(sp, strs)[1..] == Ptrs(sp, strs[1..]);
      assert [strs[0]] + strs[1..] == strs;
    }
  }

  // ---------- the whole stack ----------

  /** "RISC-V64" */
  const PLATFORM: Str := [82, 73, 83, 67, 45, 86, 54, 52]

  /** "Chronix Is Here" */
  const RAND_BYTES: Str := [67, 104, 114, 111, 110, 105, 120, 32, 73, 115, 32, 72, 101, 114, 101]

  /** Count, pointers and auxiliary vector as they lie in memory, lowest address first. */
  function Vectors(argc: nat, args: seq<nat>, envs: seq<nat>, auxv: seq<Aux>): (bs: seq<Byte>)
    ensures |bs| == 8 + 8 * (|args| + 1) + 8 * (|envs| + 1) + 16 * (|auxv| + 1)
  {
    U64(argc) + (PtrBytes(args) + (PtrBytes(envs) + AuxBytes(auxv)))
  }

  /** There is room below the stack pointer for all that is pushed. */
  predicate Room(s: Stack, argv: seq<Str>, envp: seq<Str>, auxv: seq<Aux>) {
    && s.sp <= |s.mem| <= TWO64
    && |Strings(envp)| + |Strings(argv)| + 41 + 8 * (|argv| + |envp| + 3) + 16 * (|auxv| + 2) <= s.sp
  }

  /** The stack after the strings, before alignment. */
  function WithStrings(s: Stack, argv: seq<Str>, envp: seq<Str>): (r: Stack)
    requires |Strings(envp)| + |Strings(argv)| + 25 <= s.sp <= |s.mem|
    ensures |r.mem| == |s.mem| && r.sp == s.sp - |Strings(envp)| - |Strings(argv)| - 25
  {
    Push(Push(Push(Push(s, Strings(envp)), Strings(argv)), PLATFORM + [0]), RAND_BYTES + [0])
  }

  function Align(s: Stack): Stack
    requires s.sp > 0
  {
    s.(sp := AlignDown(s.sp))
  }

  /** Argument strings lie below the environment strings. */
  function ArgPtrs(s: Stack, argv: seq<Str>, envp: seq<Str>): seq<nat>
    requires |Strings(envp)| + |Strings(argv)| <= s.sp
  {
    Ptrs(s.sp - |Strings(envp)|, argv)
  }

  /** The address the first pass takes for the program's name. */
  function ProgramName(s: Stack, argv: seq<Str>): nat
    requires |Strings(argv)| <= s.sp
  {
    s.sp - |Strings(argv)|
  }

  lemma {:induction false} PtrsAreGood(sp: nat, strs: seq<Str>)
    requires |Strings(strs)| < sp <= TWO64
    ensures GoodPtrs(Ptrs(sp, strs))
    decreases |strs|
  {
    if strs != [] {
      PtrsAreGood(sp, strs[1..]);
      var ps := Ptrs(sp, strs);
      forall i | 0 <= i < |ps| ensures 0 < ps[i] < TWO64 {
        if i > 0 { assert ps[i] == Ptrs(sp, strs[1..])[i - 1]; }
      }
    }
  }

  function Image(s: Stack, argv: seq<Str>, envp: seq<Str>, auxv: seq<Aux>): (r: Stack)
    requires Room(s, argv, envp, auxv)
    ensures |r.mem| == |s.mem|
  {
    Push(Align(WithStrings(s, argv, envp)), ImageVectors(s, argv, envp, auxv))
  }

  datatype Program = Program(argc: nat, argv: seq<Str>, envp: seq<Str>, auxv: seq<Aux>)

  /** What start code finds at the stack pointer it is given. */
  function ReadProgram(mem: seq<Byte>, sp: nat): Option<Program> {
    match ReadWord(mem, sp)
    case None => None
    case Some(argc) =>
      match ReadVector(mem, sp + 8)
      case None => None
      case Some(args) =>
        var envAt := sp + 8 + 8 * (|args| + 1);
        match ReadVector(mem, envAt)
        case None => None
        case Some(envs) =>
          match ReadStrs(mem, args)
          case None => None
          case Some(argv) =>
            match ReadStrs(mem, envs)
            case None => None
            case Some(envp) =>
              match ReadAux(mem, envAt + 8 * (|envs| + 1))
              case None => None
              case Some(auxv) => Some(Program(argc, argv, envp, auxv))
  }

  /** Bytes at or above a stack pointer are not touched by pushing below it. */
  lemma Stays(mem: seq<Byte>, mem': seq<Byte>, lo: nat, a: nat, bs: seq<Byte>)
    requires lo <= a && At(mem, a, bs) && |mem'| == |mem| && lo <= |mem| && mem'[lo..] == mem[lo..]
    ensures At(mem', a, bs)
  {
    forall i | 0 <= i < |bs| ensures mem'[a..a + |bs|][i] == bs[i] {
      assert mem'[a + i] == mem'[lo..][a + i - lo] == mem[lo..][a + i - lo] == mem[a + i];
      assert mem[a..a + |bs|][i] == bs[i];
    }
    assert mem'[a..a + |bs|] == bs;
  }

  lemma PushLays(s: Stack, bs: seq<Byte>)
    requires |bs| <= s.sp <= |s.mem|
    ensures At(Push(s, bs).mem, s.sp - |bs|, bs)
  {
  }

  /** What lies at or above the stack pointer stays through a push. */
  lemma PushKeeps(s: Stack, bs: seq<Byte>, a: nat, x: seq<Byte>)
    requires |bs| <= s.sp <= |s.mem| && s.sp <= a && At(s.mem, a, x)
    ensures At(Push(s, bs).mem, a, x)
  {
    var s' := Push(s, bs);
    assert s'.mem[s.sp..] == s.mem[s.sp..];
    hide Push, Bytes;
    Stays(s.mem, s'.mem, s.sp, a, x);
  }

  lemma LaterPushesKeep(s: Stack, a: nat, x: seq<Byte>)
    requires 25 <= s.sp <= |s.mem| && s.sp <= a && At(s.mem, a, x)
    ensures At(Push(Push(s, PLATFORM + [0]), RAND_BYTES + [0]).mem, a, x)
  {
    hide Push, Bytes;
    PushKeeps(s, PLATFORM + [0], a, x);
    PushKeeps(Push(s, PLATFORM + [0]), RAND_BYTES + [0], a, x);
  }

  lemma StringsLie(s: Stack, argv: seq<Str>, envp: seq<Str>)
    requires |Strings(envp)| + |Strings(argv)| + 25 <= s.sp <= |s.mem|
    ensures var mem := WithStrings(s, argv, envp).mem;
            && At(mem, s.sp - |Strings(envp)|, Strings(envp))
            && At(mem, s.sp - |Strings(envp)| - |Strings(argv)|, Strings(argv))
  {
    var e, a := Strings(envp), Strings(argv);
    hide Bytes, Push, Strings;
    var s1 := Push(s, e);
    var s2 := Push(s1, a);
    PushLays(s, e);
    PushLays(s1, a);
    PushKeeps(s1, a, s1.sp, e);
    LaterPushesKeep(s2, s1.sp, e);
    LaterPushesKeep(s2, s2.sp, a);
  }

  function AuxVector(s: Stack, argv: seq<Str>, auxv: seq<Aux>): (r: seq<Aux>)
    requires |Strings(argv)| <= s.sp
    ensures |r| == |auxv| + 1
  {
    auxv + [Aux(AT_EXECFN, ProgramName(s, argv))]
  }

  /** The vectors of the finished image. */
  function ImageVectors(s: Stack, argv: seq<Str>, envp: seq<Str>, auxv: seq<Aux>): (bs: seq<Byte>)
    requires |Strings(envp)| + |Strings(argv)| <= s.sp
    ensures |bs| == 8 * (|argv| + |envp| + 3) + 16 * (|auxv| + 2)
  {
    Vectors(|argv|, ArgPtrs(s, argv, envp), Ptrs(s.sp, envp), AuxVector(s, argv, auxv))
  }

  /** In the finished image: the vectors at the stack pointer, and both groups of strings
      where the pointers say, none overwritten by a later push. */
  lemma ImageLies(s: Stack, argv: seq<Str>, envp: seq<Str>, auxv: seq<Aux>)
    requires Room(s, argv, envp, auxv)
    ensures var r := Image(s, argv, envp, auxv);
            && At(r.mem, r.sp, ImageVectors(s, argv, envp, auxv))
            && At(r.mem, s.sp - |Strings(envp)|, Strings(envp))
            && At(r.mem, s.sp - |Strings(envp)| - |Strings(argv)|, Strings(argv))
  {
    hide Bytes, Push, WithStrings, Strings, ImageVectors;
    var v := ImageVectors(s, argv, envp, auxv);
    var s5 := Align(WithStrings(s, argv, envp));
    StringsLie(s, argv, envp);
    PushLays(s5, v);
    PushKeeps(s5, v, s.sp - |Strings(envp)|, Strings(envp));
    PushKeeps(s5, v, s.sp - |Strings(envp)| - |Strings(argv)|, Strings(argv));
  }

  lemma AtSplitFour(mem: seq<Byte>, p: nat, w: seq<Byte>, a: seq<Byte>, e: seq<Byte>, x: seq<Byte>,
                    q: nat, r: nat, t: nat)
    requires At(mem, p, w + (a + (e + x))) && q == p + |w| && r == q + |a| && t == r + |e|
    ensures At(mem, p, w) && At(mem, q, a) && At(mem, r, e) && At(mem, t, x)
  {
    hide Bytes;
    AtSplit(mem, p, w, a + (e + x));
    AtSplit(mem, q, a, e + x);
    AtSplit(mem, r, e, x);
  }

  lemma VectorsLie(mem: seq<Byte>, sp: nat, argc: nat, args: seq<nat>, envs: seq<nat>, auxv: seq<Aux>,
                   q: nat, r: nat, t: nat)
    requires At(mem, sp, Vectors(argc, args, envs, auxv))
    requires q == sp + 8 && r == q + 8 * (|args| + 1) && t == r + 8 * (|envs| + 1)
    ensures At(mem, sp, U64(argc)) && At(mem, q, PtrBytes(args))
    ensures At(mem, r, PtrBytes(envs)) && At(mem, t, AuxBytes(auxv))
  {
    var w, a, e, x := U64(argc), PtrBytes(args), PtrBytes(envs), AuxBytes(auxv);
    assert |w| == 8 && |a| == 8 * (|args| + 1) && |e| == 8 * (|envs| + 1);
    hide *;
    AtSplitFour(mem, sp, w, a, e, x, q, r, t);
  }

  lemma ReadVectors(mem: seq<Byte>, sp: nat, argc: nat, args: seq<nat>, envs: seq<nat>, auxv: seq<Aux>,
                    q: nat, r: nat, t: nat)
    requires At(mem, sp, Vectors(argc, args, envs, auxv)) && argc < TWO64
    requires GoodPtrs(args) && GoodPtrs(envs) && GoodAux(auxv)
    requires q == sp + 8 && r == q + 8 * (|args| + 1) && t == r + 8 * (|envs| + 1)
    ensures ReadWord(mem, sp) == Some(argc) && ReadVector(mem, q) == Some(args)
    ensures ReadVector(mem, r) == Some(envs) && ReadAux(mem, t) == Some(auxv)
  {
    hide *;
    VectorsLie(mem, sp, argc, args, envs, auxv, q, r, t);
    ReadWordBack(mem, sp, argc);
    ReadVectorBack(mem, q, args);
    ReadVectorBack(mem, r, envs);
    ReadAuxBack(mem, t, auxv);
  }

  lemma GoodVector(s: Stack, argv: seq<Str>, auxv: seq<Aux>)
    requires |Strings(argv)| <= s.sp < TWO64 && GoodAux(auxv)
    ensures GoodAux(AuxVector(s, argv, auxv))
  {
  }

  /** What start code reads back is exactly what was pushed: the count, the arguments, the
      environment, and the auxiliary vector followed by AT_EXECFN and the null pair. */
  lemma ReadBack(s: Stack, argv: seq<Str>, envp: seq<Str>, auxv: seq<Aux>)
    requires Room(s, argv, envp, auxv) && s.sp < TWO64 && GoodAux(auxv)
    requires (forall i | 0 <= i < |argv| :: NoNul(argv[i])) && (forall i | 0 <= i < |envp| :: NoNul(envp[i]))
    ensures var r := Image(s, argv, envp, auxv);
            ReadProgram(r.mem, r.sp) == Some(Program(|argv|, argv, envp, auxv + [Aux(AT_EXECFN, ProgramName(s, argv))]))
  {
    hide Bytes, Image, Vectors, ReadWord, ReadVector, ReadAux, ReadStrs, GoodAux, Strings, Ptrs;
    var r := Image(s, argv, envp, auxv);
    ImageLies(s, argv, envp, auxv);
    PtrsAreGood(s.sp - |Strings(envp)|, argv);
    PtrsAreGood(s.sp, envp);
    GoodVector(s, argv, auxv);
    var argsAt, envsAt := r.sp + 8, r.sp + 8 + 8 * (|argv| + 1);
    ReadVectors(r.mem, r.sp, |argv|, ArgPtrs(s, argv, envp), Ptrs(s.sp, envp), AuxVector(s, argv, auxv),
                argsAt, envsAt, envsAt + 8 * (|envp| + 1));
    ReadStrsBack(r.mem, s.sp - |Strings(envp)|, argv);
    ReadStrsBack(r.mem, s.sp, envp);
  }

  lemma AlignedSteps(base: int, n: nat, k: nat)
    requires base % 16 == 0
    ensures (base - 8 * n - 16 * k) % 16 == 0 <==> n % 2 == 0
  {
    if n % 2 == 0 {
      assert base - 8 * n - 16 * k == 16 * (base / 16 - n / 2 - k);
    } else {
      assert base - 8 * n - 16 * k == 16 * (base / 16 - n / 2 - k - 1) + 8;
    }
  }

  /** The stack pointer handed to the program is 16-byte aligned exactly when the number of
      arguments and environment strings together is odd. */
  lemma AlignedIff(s: Stack, argv: seq<Str>, envp: seq<Str>, auxv: seq<Aux>)
    requires Room(s, argv, envp, auxv)
    ensures Image(s, argv, envp, auxv).sp % 16 == 0 <==> (|argv| + |envp|) % 2 == 1
  {
    hide WithStrings, Strings, ImageVectors;
    var base := AlignDown(WithStrings(s, argv, envp).sp);
    assert base % 16 == 0;
    var n := |argv| + |envp| + 3;
    assert Image(s, argv, envp, auxv).sp == base - 8 * n - 16 * (|auxv| + 2);
    hide Image, WithStrings, Strings, AlignDown;
    AlignedSteps(base, n, |auxv| + 2);
  }

  /** AT_EXECFN names the first argument exactly when there is no environment: the first pass
      subtracts the argument strings only, but the environment strings lie above them. */
  lemma ExecFnIffNoEnvironment(s: Stack, argv: seq<Str>, envp: seq<Str>)
    requires argv != [] && |Strings(envp)| + |Strings(argv)| <= s.sp
    ensures ProgramName(s, argv) == ArgPtrs(s, argv, envp)[0] <==> envp == []
  {
    if envp != [] {
      assert |Strings(envp)| > 0;
    }
  }

  /** A stack of zeroes, for the two counterexamples. */
  function BlankStack(): (s: Stack)
    ensures s.sp == |s.mem| == 512
  {
    Stack(seq(512, _ => 0), 512)
  }

  lemma OneString(c: Byte)
    ensures Strings([[c]]) == [c, 0]
  {
    assert [[c]][1..] == [];
  }

  /** No arguments and no environment: the stack pointer is 8 off the alignment. */
  lemma MisalignedStack()
    ensures Room(BlankStack(), [], [], []) && Image(BlankStack(), [], [], []).sp % 16 != 0
  {
    AlignedIff(BlankStack(), [], [], []);
  }

  /** One argument and one environment string: AT_EXECFN names the environment. */
  lemma ExecFnNamesEnvironment()
    ensures Room(BlankStack(), [[97]], [[98]], [])
    ensures ProgramName(BlankStack(), [[97]]) == Ptrs(512, [[98]])[0] != ArgPtrs(BlankStack(), [[97]], [[98]])[0]
  {
    OneString(97);
    OneString(98);
    ExecFnIffNoEnvironment(BlankStack(), [[97]], [[98]]);
  }

  // ---------- the passes that write memory ----------

  function Rev(s: seq<nat>): (r: seq<nat>)
    ensures |r| == |s|
  {
    if s == [] then [] else [s[|s| - 1]] + Rev(s[..|s| - 1])
  }

  lemma {:induction false} WordsAppend(a: seq<nat>, b: seq<nat>)
    ensures Words(a + b) == Words(a) + Words(b)
    decreases |a|
  {
    hide U64;
    if a == [] {
      assert a + b == b;
    } else {
      WordsAppend(a[1..], b);
      assert (a + b)[1..] == a[1..] + b;
      assert Words(a + b) == U64(a[0]) + (Words(a[1..]) + Words(b));
    }
  }

  lemma PtrBytesSplit(ws: seq<nat>)
    ensures PtrBytes(ws) == Words(ws) + U64(0)
  {
    WordsAppend(ws, [0]);
  }

  function AuxBody(auxv: seq<Aux>): (bs: seq<Byte>)
    ensures |bs| == 16 * |auxv|
  {
    Words(AuxWords(auxv))
  }

  lemma AuxBodyCons(h: Aux, t: seq<Aux>)
    ensures AuxBody([h] + t) == U64(h.key) + U64(h.value) + AuxBody(t)
  {
    var ws := AuxWords([h] + t);
    assert ([h] + t)[1..] == t;
    assert ws == [h.key, h.value] + AuxWords(t);
    assert ws[1..][1..] == AuxWords(t);
    assert Words(ws) == U64(ws[0]) + (U64(ws[1]) + Words(ws[1..][1..]));
  }

  lemma AuxBytesIsBody(auxv: seq<Aux>, name: nat)
    ensures AuxBytes(auxv + [Aux(AT_EXECFN, name)]) == AuxBody(auxv + [Aux(AT_EXECFN, name), Aux(AT_NULL, 0)])
  {
    assert auxv + [Aux(AT_EXECFN, name)] + [Aux(AT_NULL, 0)] == auxv + [Aux(AT_EXECFN, name), Aux(AT_NULL, 0)];
  }

  lemma PushAuxCons(s: Stack, h: Aux, t: seq<Aux>)
    requires 16 * (|t| + 1) <= s.sp <= |s.mem|
    ensures Push(Push(s, AuxBody(t)), U64(h.key) + U64(h.value)) == Push(s, AuxBody([h] + t))
    ensures t == [] ==> Push(s, U64(h.key) + U64(h.value)) == Push(s, AuxBody([h] + t))
  {
    AuxBodyCons(h, t);
    PushTwice(s, U64(h.key) + U64(h.value), AuxBody(t));
    assert t == [] ==> AuxBody(t) == [] && U64(h.key) + U64(h.value) + [] == U64(h.key) + U64(h.value);
  }

  lemma {:induction false} SuffixFits(strs: seq<Str>, i: nat)
    requires i <= |strs|
    ensures |Strings(strs[i..])| <= |Strings(strs)|
    decreases i
  {
    if i == 0 {
      assert strs[0..] == strs;
    } else {
      SuffixFits(strs, i - 1);
      assert strs[i - 1..][1..] == strs[i..];
    }
  }

  lemma NoStringYet(s: Stack, strs: seq<Str>)
    requires s.sp <= |s.mem|
    ensures Strings(strs[|strs|..]) == [] && s == Push(s, []) && Rev([]) == Ptrs(s.sp, strs[|strs|..])
  {
  }

  /** Pushing the string before those already pushed, and taking its address. */
  lemma StringStep(s: Stack, strs: seq<Str>, i: nat, ptrs: seq<nat>)
    requires i < |strs| && |Strings(strs[i..])| <= s.sp <= |s.mem| && |Strings(strs[i + 1..])| <= s.sp
    requires Rev(ptrs) == Ptrs(s.sp, strs[i + 1..])
    ensures |strs[i]| + 1 + |Strings(strs[i + 1..])| == |Strings(strs[i..])|
    ensures Push(Push(s, Strings(strs[i + 1..])), strs[i] + [0]) == Push(s, Strings(strs[i..]))
    ensures Rev(ptrs + [s.sp - |Strings(strs[i..])|]) == Ptrs(s.sp, strs[i..])
  {
    hide Push;
    assert strs[i..][1..] == strs[i + 1..];
    assert Strings(strs[i..]) == strs[i] + [0] + Strings(strs[i + 1..]);
    PushTwice(s, strs[i] + [0], Strings(strs[i + 1..]));
    assert Ptrs(s.sp, strs[i..]) == [s.sp - |Strings(strs[i..])|] + Ptrs(s.sp, strs[i..][1..]);
    var all: seq<nat> := ptrs + [s.sp - |Strings(strs[i..])|];
    assert all[..|all| - 1] == ptrs;
    assert Rev(all) == [all[|all| - 1]] + Rev(all[..|all| - 1]);
  }

  lemma PointerStep(s: Stack, ptrs: seq<nat>, i: nat)
    requires i < |ptrs| && 8 * (i + 1) <= s.sp <= |s.mem|
    ensures Push(Push(s, Words(Rev(ptrs[..i]))), U64(ptrs[i])) == Push(s, Words(Rev(ptrs[..i + 1])))
  {
    hide Push, U64;
    assert ptrs[..i + 1][..i] == ptrs[..i];
    assert Rev(ptrs[..i + 1]) == [ptrs[i]] + Rev(ptrs[..i]);
    PushTwice(s, U64(ptrs[i]), Words(Rev(ptrs[..i])));
  }

  /** One push of four pieces is four pushes, highest piece first. */
  lemma PushFour(s: Stack, w: seq<Byte>, a: seq<Byte>, e: seq<Byte>, x: seq<Byte>)
    requires |w| + |a| + |e| + |x| <= s.sp <= |s.mem|
    ensures Push(Push(Push(Push(s, x), e), a), w) == Push(s, w + (a + (e + x)))
  {
    PushTwice(s, e, x);
    PushTwice(s, a, e + x);
    PushTwice(s, w, a + (e + x));
  }

  /** Writing bytes upwards from the lowered stack pointer and nothing else is a push. */
  lemma WrittenIsPushed(m: seq<Byte>, m': seq<Byte>, sp: nat, bs: seq<Byte>)
    requires |m'| == |m| && sp + |bs| <= |m|
    requires forall k | 0 <= k < |bs| :: m'[sp + k] == bs[k]
    requires forall k | 0 <= k < |m| && !(sp <= k < sp + |bs|) :: m'[k] == m[k]
    ensures Stack(m', sp) == Push(Stack(m, sp + |bs|), bs)
  {
    var p := m[..sp] + bs + m[sp + |bs|..];
    forall k | 0 <= k < |m| ensures m'[k] == p[k] {
      if sp <= k < sp + |bs| {
        assert m'[sp + (k - sp)] == bs[k - sp];
      }
    }
    assert m' == p;
  }

  /** User memory and the descending stack pointer every push moves. */
  class UserMemory {
    const mem: array<Byte>
    var sp: nat

    constructor (mem: array<Byte>, sp: nat)
      ensures this.mem == mem && this.sp == sp
    {
      this.mem, this.sp := mem, sp;
    }

    ghost function State(): (s: Stack)
      reads this, mem
      ensures s.sp == sp && |s.mem| == mem.Length
    {
      Stack(mem[..], sp)
    }

    /** Bytes then terminator, written upwards from the lowered stack pointer. */
    method PushStr(s: Str) returns (ptr: nat)
      requires |s| + 1 <= sp <= mem.Length
      modifies this`sp, mem
      ensures State() == Push(old(State()), s + [0]) && ptr == sp
    {
      sp := sp - (|s| + 1);
      var i := 0;
      while i < |s|
        invariant i <= |s| && sp == old(sp) - (|s| + 1)
        invariant forall k | 0 <= k < i :: mem[sp + k] == s[k]
        invariant forall k | 0 <= k < mem.Length && !(sp <= k < sp + i) :: mem[k] == old(mem[k])
      {
        mem[sp + i] := s[i];
        i := i + 1;
      }
      mem[sp + |s|] := 0;
      WrittenIsPushed(old(mem[..]), mem[..], sp, s + [0]);
      return sp;
    }

    method PushUsize(v: nat)
      requires 8 <= sp <= mem.Length
      modifies this`sp, mem
      ensures State() == Push(old(State()), U64(v))
    {
      hide U64, Push;
      sp := sp - 8;
      var bs := U64(v);
      forall k | 0 <= k < 8 {
        mem[sp + k] := bs[k];
      }
      WrittenIsPushed(old(mem[..]), mem[..], sp, bs);
    }

    method PushAux(elm: Aux)
      requires 16 <= sp <= mem.Length
      modifies this`sp, mem
      ensures State() == Push(old(State()), U64(elm.key) + U64(elm.value))
    {
      hide U64, Push;
      sp := sp - 16;
      var bs := U64(elm.key) + U64(elm.value);
      forall k | 0 <= k < 16 {
        mem[sp + k] := bs[k];
      }
      WrittenIsPushed(old(mem[..]), mem[..], sp, bs);
    }

    method Align16()
      requires sp > 0
      modifies this`sp
      ensures State() == Align(old(State()))
    {
      sp := AlignDown(sp);
    }

    /** Strings last to first; the pointers come back in the order of pushing. */
    method PushStrs(strs: seq<Str>) returns (ptrs: seq<nat>)
      requires |Strings(strs)| <= sp <= mem.Length
      modifies this`sp, mem
      ensures State() == Push(old(State()), Strings(strs)) && Rev(ptrs) == Ptrs(old(sp), strs)
    {
      ptrs := [];
      var i: nat := |strs|;
      NoStringYet(State(), strs);
      hide Push, Strings, Rev, Ptrs;
      while i > 0
        invariant i <= |strs| && |Strings(strs[i..])| <= old(sp)
        invariant State() == Push(old(State()), Strings(strs[i..]))
        invariant Rev(ptrs) == Ptrs(old(sp), strs[i..])
      {
        i := i - 1;
        SuffixFits(strs, i);
        StringStep(old(State()), strs, i, ptrs);
        var p := PushStr(strs[i]);
        ptrs := ptrs + [p];
      }
      assert strs[0..] == strs;
    }

    method PushPtrs(ptrs: seq<nat>)
      requires 8 * |ptrs| <= sp <= mem.Length
      modifies this`sp, mem
      ensures State() == Push(old(State()), Words(Rev(ptrs)))
    {
      var i := 0;
      assert State() == Push(State(), Words(Rev(ptrs[..i])));
      hide Push, Words, Rev, U64;
      while i < |ptrs|
        invariant i <= |ptrs| && State() == Push(old(State()), Words(Rev(ptrs[..i])))
      {
        PointerStep(old(State()), ptrs, i);
        PushUsize(ptrs[i]);
        i := i + 1;
      }
      assert ptrs[..|ptrs|] == ptrs;
    }

    /** A null word, then the pointers above it one by one below. */
    method PushVector(ptrs: seq<nat>)
      requires 8 * (|ptrs| + 1) <= sp <= mem.Length
      modifies this`sp, mem
      ensures State() == Push(old(State()), PtrBytes(Rev(ptrs)))
    {
      PtrBytesSplit(Rev(ptrs));
      PushTwice(State(), Words(Rev(ptrs)), U64(0));
      hide Words, U64, PtrBytes, Rev, Push;
      PushUsize(0);
      PushPtrs(ptrs);
    }

    /** The null pair, AT_EXECFN, then the given entries last to first. */
    method PushAuxv(auxv: seq<Aux>, name: nat)
      requires 16 * (|auxv| + 2) <= sp <= mem.Length
      modifies this`sp, mem
      ensures State() == Push(old(State()), AuxBytes(auxv + [Aux(AT_EXECFN, name)]))
    {
      hide Words, U64, AuxWords, Push, AuxBody;
      var tail := [Aux(AT_EXECFN, name), Aux(AT_NULL, 0)];
      PushAuxCons(State(), Aux(AT_NULL, 0), []);
      assert [Aux(AT_NULL, 0)] + [] == [Aux(AT_NULL, 0)];
      PushAux(Aux(AT_NULL, 0));
      PushAuxCons(old(State()), Aux(AT_EXECFN, name), [Aux(AT_NULL, 0)]);
      assert [Aux(AT_EXECFN, name)] + [Aux(AT_NULL, 0)] == tail;
      PushAux(Aux(AT_EXECFN, name));
      var i: nat := |auxv|;
      assert auxv[i..] + tail == tail;
      while i > 0
        invariant i <= |auxv| && State() == Push(old(State()), AuxBody(auxv[i..] + tail))
      {
        i := i - 1;
        PushAuxCons(old(State()), auxv[i], auxv[i + 1..] + tail);
        assert [auxv[i]] + (auxv[i + 1..] + tail) == auxv[i..] + tail;
        PushAux(auxv[i]);
      }
      AuxBytesIsBody(auxv, name);
      assert auxv[0..] == auxv;
    }

    /** Both groups of strings, the two constants, and the alignment. */
    method PushStrings(argv: seq<Str>, envp: seq<Str>) returns (argPtrs: seq<nat>, envPtrs: seq<nat>)
      requires |Strings(envp)| + |Strings(argv)| + 26 <= sp <= mem.Length
      modifies this`sp, mem
      ensures State() == Align(WithStrings(old(State()), argv, envp))
      ensures Rev(argPtrs) == ArgPtrs(old(State()), argv, envp) && Rev(envPtrs) == Ptrs(old(sp), envp)
    {
      hide Push, Strings, Ptrs, Rev, AlignDown;
      envPtrs := PushStrs(envp);
      argPtrs := PushStrs(argv);
      var _ := PushStr(PLATFORM);
      var _ := PushStr(RAND_BYTES);
      Align16();
    }

    /** Auxiliary vector, environment pointers, argument pointers and count. */
    method PushVectors(argc: nat, argPtrs: seq<nat>, envPtrs: seq<nat>, auxv: seq<Aux>, name: nat)
      returns (argPtr: nat, envPtr: nat)
      requires 8 * (|argPtrs| + |envPtrs| + 3) + 16 * (|auxv| + 2) <= sp <= mem.Length
      modifies this`sp, mem
      ensures State() == Push(old(State()), Vectors(argc, Rev(argPtrs), Rev(envPtrs), auxv + [Aux(AT_EXECFN, name)]))
      ensures argPtr == sp + 8 && envPtr == argPtr + 8 * (|argPtrs| + 1)
    {
      hide Push, Rev, Words, U64, PtrBytes, AuxBytes;
      PushFour(State(), U64(argc), PtrBytes(Rev(argPtrs)), PtrBytes(Rev(envPtrs)),
               AuxBytes(auxv + [Aux(AT_EXECFN, name)]));
      PushAuxv(auxv, name);
      PushVector(envPtrs);
      envPtr := sp;
      PushVector(argPtrs);
      argPtr := sp;
      PushUsize(argc);
    }

    /** The second pass: strings, alignment, auxiliary vector, environment and argument
        pointers, count. */
    method Init(argv: seq<Str>, envp: seq<Str>, auxv: seq<Aux>)
      returns (newSp: nat, argc: nat, argPtr: nat, envPtr: nat)
      requires Room(State(), argv, envp, auxv)
      modifies this`sp, mem
      ensures State() == Image(old(State()), argv, envp, auxv)
      ensures newSp == sp && argc == |argv|
      ensures argPtr == sp + 8 && envPtr == argPtr + 8 * (|argv| + 1)
    {
      hide Push, Strings, Ptrs, Rev, AlignDown, Vectors, WithStrings;
      var name := sp - |Strings(argv)|;
      var argPtrs, envPtrs := PushStrings(argv, envp);
      argc := |argv|;
      argPtr, envPtr := PushVectors(argc, argPtrs, envPtrs, auxv, name);
      newSp := sp;
    }
  }
}
