/** Byte sequences with a run of bytes laid over part of them. */
module ByteSeqs {

  type Byte = n: int | 0 <= n < 256

  function Overlay(s: seq<Byte>, from: nat, src: seq<Byte>): (r: seq<Byte>)
    requires from + |src| <= |s|
    ensures |r| == |s|
  {
    s[..from] + src + s[from + |src|..]
  }

  /** Two adjacent runs are one. */
  lemma OverlayTwice(s: seq<Byte>, from: nat, x: seq<Byte>, y: seq<Byte>)
    requires from + |x| + |y| <= |s|
    ensures Overlay(Overlay(s, from, x), from + |x|, y) == Overlay(s, from, x + y)
  {
  }

  lemma OverlayNothing(s: seq<Byte>)
    ensures Overlay(s, 0, []) == s
  {
  }

  /** What is laid down is read back, and what lies outside is not changed. */
  lemma ReadOverlay(s: seq<Byte>, from: nat, src: seq<Byte>, at: nat, n: nat)
    requires from + |src| <= |s| && at + n <= |s|
    ensures at == from && n == |src| ==> Overlay(s, from, src)[at..at + n] == src
    ensures at + n <= from || from + |src| <= at ==> Overlay(s, from, src)[at..at + n] == s[at..at + n]
  {
  }

  method CopyFromSlice(a: array<Byte>, from: nat, src: seq<Byte>)
    requires from + |src| <= a.Length
    modifies a
    ensures a[..] == Overlay(old(a[..]), from, src)
  {
    forall i | 0 <= i < |src| {
      a[from + i] := src[i];
    }
    ghost var want := Overlay(old(a[..]), from, src);
    assert forall k | 0 <= k < a.Length :: a[k] == want[k];
  }
}
