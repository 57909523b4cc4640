/** Per-entity load tracking: a load sum decayed in fixed point by a table of 32 factors,
    a shift per 32 periods, and floors at every step. */
module Pelt {

  const TWO32: nat := 0x1_0000_0000
  const TWO64: nat := 0x1_0000_0000_0000_0000

  /** y^0 to y^31 as 32-bit fractions. */
  const DECLINE_TABLE: seq<nat> := [
    0xffffffff, 0xfa83b2da, 0xf5257d14, 0xefe4b99a, 0xeac0c6e6, 0xe5b906e6,
    0xe0ccdeeb, 0xdbfbb796, 0xd744fcc9, 0xd2a81d91, 0xce248c14, 0xc9b9bd85,
    0xc5672a10, 0xc12c4cc9, 0xbd08a39e, 0xb8fbaf46, 0xb504f333, 0xb123f581,
    0xad583ee9, 0xa9a15ab4, 0xa5fed6a9, 0xa2704302, 0x9ef5325f, 0x9b8d39b9,
    0x9837f050, 0x94f4efa8, 0x91c3d373, 0x8ea4398a, 0x8b95c1e3, 0x88980e80,
    0x85aac367, 0x82cd8698]

  const LOAD_AVG_MAX: nat := 47742
  const PELT_MIN_DIVIDER: nat := 46718
  const LOAD_THRESHOLD: nat := 10

  function ShiftRight(val: nat, n: nat): nat {
    if n == 0 then val else ShiftRight(val, n - 1) / 2
  }

  /** One table factor applied: (val * factor) >> 32. */
  function Scale(val: nat, factor: nat): nat {
    val * factor / 0x1_0000_0000
  }

  function Factor(i: nat): (f: nat)
    requires i < 32
    ensures 0x8000_0000 <= f <= 0xffff_ffff
  {
    DECLINE_TABLE[i]
  }

  function DecayLoad(val: nat, num: nat): nat {
    if num > 32 * 63 then 0
    else Scale(ShiftRight(val, num / 32), Factor(num % 32))
  }

  // ---------- laws of the decay ----------

  lemma ScaleMono(a: nat, b: nat, f: nat, g: nat)
    requires a <= b && f <= g
    ensures Scale(a, f) <= Scale(b, g)
  {
    assert a * f <= b * f <= b * g;
  }

  lemma ScaleSuper(a: nat, b: nat, f: nat)
    ensures Scale(a, f) + Scale(b, f) <= Scale(a + b, f)
  {
    assert (a + b) * f == a * f + b * f;
  }

  lemma {:induction false} ShiftMono(a: nat, b: nat, n: nat)
    requires a <= b
    ensures ShiftRight(a, n) <= ShiftRight(b, n)
  {
    if n > 0 {
      ShiftMono(a, b, n - 1);
    }
  }

  lemma {:induction false} ShiftSuper(a: nat, b: nat, n: nat)
    ensures ShiftRight(a, n) + ShiftRight(b, n) <= ShiftRight(a + b, n)
  {
    if n > 0 {
      ShiftSuper(a, b, n - 1);
    }
  }

  /** Decay is monotone in the load. */
  lemma DecayMonotone(a: nat, b: nat, num: nat)
    requires a <= b
    ensures DecayLoad(a, num) <= DecayLoad(b, num)
  {
    if num <= 32 * 63 {
      ShiftMono(a, b, num / 32);
      ScaleMono(ShiftRight(a, num / 32), ShiftRight(b, num / 32), Factor(num % 32), Factor(num % 32));
    }
  }

  /** Decay is superadditive: floors lose no more on the sum than on the parts. */
  lemma DecaySuperadditive(a: nat, b: nat, num: nat)
    ensures DecayLoad(a, num) + DecayLoad(b, num) <= DecayLoad(a + b, num)
  {
    if num <= 32 * 63 {
      var f := Factor(num % 32);
      var x, y, z := ShiftRight(a, num / 32), ShiftRight(b, num / 32), ShiftRight(a + b, num / 32);
      ShiftSuper(a, b, num / 32);
      ScaleSuper(x, y, f);
      ScaleMono(x + y, z, f, f);
    }
  }

  lemma TableDescends(i: nat)
    requires i < 31
    ensures Factor(i + 1) <= Factor(i)
  {
  }

  lemma HalvingBeatsLastFactor(x: nat)
    ensures Scale(x / 2, Factor(0)) <= Scale(x, Factor(31))
  {
    assert x / 2 * 0xffffffff <= x * 0x82cd8698;
  }

  lemma DecayStep(val: nat, num: nat)
    ensures DecayLoad(val, num + 1) <= DecayLoad(val, num)
  {
    if num + 1 <= 32 * 63 {
      var x := ShiftRight(val, num / 32);
      if num % 32 < 31 {
        assert (num + 1) / 32 == num / 32 && (num + 1) % 32 == num % 32 + 1;
        TableDescends(num % 32);
        ScaleMono(x, x, Factor(num % 32 + 1), Factor(num % 32));
      } else {
        assert (num + 1) / 32 == num / 32 + 1 && (num + 1) % 32 == 0;
        HalvingBeatsLastFactor(x);
      }
    }
  }

  /** Decay is antitone in the number of periods, across table, shift and cut-off. */
  lemma {:induction false} DecayAntitone(val: nat, m: nat, n: nat)
    requires m <= n
    ensures DecayLoad(val, n) <= DecayLoad(val, m)
    decreases n - m
  {
    hide DecayLoad;
    if m < n {
      DecayAntitone(val, m, n - 1);
      DecayStep(val, n - 1);
    }
  }

  // ---------- the decay is geometric ----------

  /** The table continued over a second turn, in halves: 2 * y^n as a 32-bit fraction. */
  function Twice(n: nat): (t: nat)
    requires n < 64
    ensures t <= 0x1_ffff_fffe
  {
    if n < 32 then 2 * Factor(n) else Factor(n - 32)
  }

  /** `c'` is `c` times y, with an error below e in 2^32. */
  predicate Decays(c: nat, c': nat, e: nat) {
    c * 0xfa83b2da <= 0x1_0000_0000 * c' <= c * 0xfa83b2da + e * 0x1_0000_0000
  }

  lemma FirstEntries(n: nat)
    requires n < 16
    ensures Decays(Factor(n), Factor(n + 1), 3)
  {
  }

  lemma LastEntries(n: nat)
    requires 16 <= n < 31
    ensures Decays(Factor(n), Factor(n + 1), 3)
  {
  }

  /** From one entry to the next the table loses the factor y; so does the way from the last
      entry to half the first. */
  lemma TableDecays(n: nat)
    requires n < 63
    ensures Decays(Twice(n), Twice(n + 1), 6)
  {
    var k := if n < 32 then n else n - 32;
    if k < 16 {
      FirstEntries(k);
    } else if k < 31 {
      LastEntries(k);
    } else {
      LastToFirst();
    }
  }

  lemma LastToFirst()
    ensures Decays(Twice(31), Twice(32), 6)
  {
  }

  /** The product of `a` and `b` is `c`, up to e parts in 2^32. */
  predicate Multiplies(a: nat, b: nat, c: nat, e: nat) {
    0x1_0000_0000 * c <= a * b + e * 0x1_0000_0000 && a * b <= 0x1_0000_0000 * c + e * 0x1_0000_0000
  }

  /** The product of two entries is the entry of their sum, over two turns of the table. */
  lemma {:induction false} TableComposes(i: nat, j: nat)
    requires i < 32 && j < 32
    ensures Multiplies(Twice(i), Factor(j), Twice(i + j), 6 * (j + 1))
    decreases j
  {
    hide Factor, Twice, Multiplies, Decays;
    if j == 0 {
      TimesFirst(Twice(i));
    } else {
      TableComposes(i, j - 1);
      TableDecays(i + j - 1);
      if j - 1 < 16 { FirstEntries(j - 1); } else { LastEntries(j - 1); }
      ProductStep(Twice(i), Factor(j - 1), Factor(j), Twice(i + j - 1), Twice(i + j), 6 * j);
    }
  }

  lemma TimesFirst(a: nat)
    requires a <= 0x1_ffff_fffe
    ensures Multiplies(a, Factor(0), a, 6)
  {
  }

  /** One more factor y on both sides. */
  lemma ProductStep(a: nat, b: nat, b': nat, c: nat, c': nat, e: nat)
    requires a <= 0x1_ffff_fffe && Decays(b, b', 3) && Decays(c, c', 6) && Multiplies(a, b, c, e)
    ensures Multiplies(a, b', c', e + 6)
  {
    TimesEntry(a, b, b');
    ShiftStep(a * b, a * b', a, c, c', e);
  }

  lemma TimesEntry(a: nat, b: nat, b': nat)
    requires Decays(b, b', 3)
    ensures a * b * 0xfa83b2da <= 0x1_0000_0000 * (a * b') <= a * b * 0xfa83b2da + 3 * 0x1_0000_0000 * a
  {
    Rise(b * 0xfa83b2da, 0x1_0000_0000 * b', a);
    Rise(0x1_0000_0000 * b', b * 0xfa83b2da + 3 * 0x1_0000_0000, a);
  }

  lemma ShiftStep(p: nat, p': nat, a: nat, c: nat, c': nat, e: nat)
    requires a <= 0x1_ffff_fffe && Decays(c, c', 6)
    requires p * 0xfa83b2da <= 0x1_0000_0000 * p' <= p * 0xfa83b2da + 3 * 0x1_0000_0000 * a
    requires 0x1_0000_0000 * c <= p + e * 0x1_0000_0000 && p <= 0x1_0000_0000 * c + e * 0x1_0000_0000
    ensures 0x1_0000_0000 * c' <= p' + (e + 6) * 0x1_0000_0000 && p' <= 0x1_0000_0000 * c' + (e + 6) * 0x1_0000_0000
  {
  }

  lemma Rise(x: nat, y: nat, k: nat)
    requires x <= y
    ensures k * x <= k * y && x * k <= y * k
  {
  }

  lemma {:induction false} ShiftShift(val: nat, p: nat, q: nat)
    ensures ShiftRight(ShiftRight(val, p), q) == ShiftRight(val, p + q)
    decreases q
  {
    if q > 0 {
      ShiftShift(val, p, q - 1);
    }
  }

  /** A period of 32 halves exactly. */
  lemma HalfLife(val: nat, num: nat)
    requires num + 32 <= 32 * 63
    ensures DecayLoad(val, num + 32) == DecayLoad(val / 2, num)
  {
    assert (num + 32) / 32 == num / 32 + 1 && (num + 32) % 32 == num % 32;
    ShiftShift(val, 1, num / 32);
    assert ShiftRight(val, 1) == val / 2;
  }

  lemma ScaleBounds(x: nat, f: nat)
    ensures Scale(x, f) * 0x1_0000_0000 <= x * f < (Scale(x, f) + 1) * 0x1_0000_0000
  {
  }

  lemma ScaleShrinks(x: nat, f: nat)
    requires f <= 0xffff_ffff
    ensures Scale(x, f) <= x
  {
    Rise(f, 0x1_0000_0000, x);
  }

  /** Between half and all of what the shift leaves. */
  lemma DecayKeepsHalf(val: nat, num: nat)
    requires num <= 32 * 63
    ensures DecayLoad(val, num) <= ShiftRight(val, num / 32) <= 2 * DecayLoad(val, num) + 1
  {
    var x, f := ShiftRight(val, num / 32), Factor(num % 32);
    ScaleShrinks(x, f);
    ScaleBounds(x, f);
    Rise(0x8000_0000, f, x);
  }

  lemma ScaleOfHalf(x: nat, f: nat)
    requires f <= 0xffff_ffff
    ensures 2 * Scale(x / 2, f) <= Scale(x, f) <= 2 * Scale(x / 2, f) + 2
  {
    var h := x / 2;
    ScaleBounds(h, f);
    ScaleBounds(x, f);
    Rise(2 * h, x, f);
    Rise(x, 2 * h + 1, f);
    assert 2 * h * f == 2 * (h * f) && (2 * h + 1) * f == 2 * (h * f) + f;
  }

  /** Scaling and shifting commute up to 1. */
  lemma {:induction false} ShiftOfScale(x: nat, f: nat, q: nat)
    requires f <= 0xffff_ffff
    ensures Scale(ShiftRight(x, q), f) <= ShiftRight(Scale(x, f), q) <= Scale(ShiftRight(x, q), f) + 1
  {
    hide Scale;
    if q > 0 {
      ShiftOfScale(x, f, q - 1);
      ScaleOfHalf(ShiftRight(x, q - 1), f);
    }
  }

  lemma ScaleOfNext(x: nat, f: nat)
    requires f <= 0xffff_ffff
    ensures Scale(x, f) <= Scale(x + 1, f) <= Scale(x, f) + 1
  {
    ScaleBounds(x, f);
    ScaleBounds(x + 1, f);
    assert (x + 1) * f == x * f + f;
  }

  /** What rounding may add or take away when a decay is split in two. */
  function Slack(val: nat): nat {
    3 + 96 * val / 0x1_0000_0000
  }

  lemma TwoFloors(y: nat, f: nat, g: nat)
    requires 0 < g <= 0xffff_ffff
    ensures var z, p := Scale(Scale(y, f), g), y * f * g;
            z * 0x1_0000_0000_0000_0000 <= p < (z + 2) * 0x1_0000_0000_0000_0000
  {
    var x := Scale(y, f);
    ScaleBounds(y, f);
    ScaleBounds(x, g);
    Rise(x * 0x1_0000_0000, y * f, g);
    Rise(y * f + 1, (x + 1) * 0x1_0000_0000, g);
    hide Scale;
    assert (x + 1) * 0x1_0000_0000 * g == (x * g + g) * 0x1_0000_0000;
    assert (y * f + 1) * g == y * f * g + g;
  }

  /** Two floors against the floor of the product. */
  lemma ProductOfScales(y: nat, f: nat, g: nat, u: nat, d: nat)
    requires f <= 0xffff_ffff && 0 < g <= 0xffff_ffff && Multiplies(2 * f, g, u, 192)
    requires d * 0x2_0000_0000 <= y * u < (d + 2) * 0x2_0000_0000
    ensures var z := Scale(Scale(y, f), g); z <= d + Slack(y) - 1 && d <= z + Slack(y) - 1
  {
    TwoFloors(y, f, g);
    TimesProduct(y, f, g, u);
    Gap(y * f * g, y * u, y, Scale(Scale(y, f), g), d);
  }

  lemma TimesProduct(y: nat, f: nat, g: nat, u: nat)
    requires Multiplies(2 * f, g, u, 192)
    ensures 2 * (y * f * g) <= 0x1_0000_0000 * (y * u) + 192 * (0x1_0000_0000 * y)
    ensures 0x1_0000_0000 * (y * u) <= 2 * (y * f * g) + 192 * (0x1_0000_0000 * y)
  {
    var t := f * g;
    assert 2 * f * g == 2 * t && y * f * g == y * t;
    Rise(2 * t, 0x1_0000_0000 * u + 192 * 0x1_0000_0000, y);
    Rise(0x1_0000_0000 * u, 2 * t + 192 * 0x1_0000_0000, y);
  }

  lemma Gap(p: nat, q: nat, y: nat, z: nat, d: nat)
    requires z * 0x1_0000_0000_0000_0000 <= p < (z + 2) * 0x1_0000_0000_0000_0000
    requires d * 0x2_0000_0000 <= q < (d + 2) * 0x2_0000_0000
    requires 2 * p <= 0x1_0000_0000 * q + 192 * (0x1_0000_0000 * y)
    requires 0x1_0000_0000 * q <= 2 * p + 192 * (0x1_0000_0000 * y)
    ensures z <= d + Slack(y) - 1 && d <= z + Slack(y) - 1
  {
  }

  lemma DecayByTwice(val: nat, p: nat, n: nat)
    requires n < 64 && 32 * p + n <= 32 * 63
    ensures var d, q := DecayLoad(val, 32 * p + n), ShiftRight(val, p) * Twice(n);
            d * 0x2_0000_0000 <= q < (d + 2) * 0x2_0000_0000
  {
    hide Factor;
    var y := ShiftRight(val, p);
    if n < 32 {
      assert (32 * p + n) / 32 == p && (32 * p + n) % 32 == n;
      hide Scale, ShiftRight;
      ScaleBounds(y, Factor(n));
      assert y * Twice(n) == 2 * (y * Factor(n));
    } else {
      assert (32 * p + n) / 32 == p + 1 && (32 * p + n) % 32 == n - 32;
      assert ShiftRight(val, p + 1) == y / 2;
      hide Scale, ShiftRight;
      HalfBounds(y, Factor(n - 32));
    }
  }

  lemma HalfBounds(y: nat, f: nat)
    requires f <= 0xffff_ffff
    ensures var d := Scale(y / 2, f); d * 0x2_0000_0000 <= y * f < (d + 2) * 0x2_0000_0000
  {
    var h := y / 2;
    ScaleBounds(h, f);
    hide Scale;
    if y == 2 * h {
      assert 2 * h * f == 2 * (h * f);
    } else {
      assert (2 * h + 1) * f == 2 * (h * f) + f;
    }
  }

  /** Past the cut-off a 64-bit load has decayed to at most 3 anyway. */
  lemma PastCutOff(val: nat, m: nat, n: nat)
    requires m + n > 32 * 63 && val < TWO64
    ensures DecayLoad(DecayLoad(val, m), n) <= 3
  {
    hide Factor, ShiftRight;
    if m <= 32 * 63 && n <= 32 * 63 {
      var p, q := m / 32, n / 32;
      DecayKeepsHalf(val, m);
      DecayKeepsHalf(DecayLoad(val, m), n);
      hide DecayLoad;
      ShiftMono(DecayLoad(val, m), ShiftRight(val, p), q);
      ShiftShift(val, p, q);
      assert p + q >= 62;
      ShiftShift(val, 62, p + q - 62);
      ShiftShrinks(ShiftRight(val, 62), p + q - 62);
      ShiftMono(val, 0xffff_ffff_ffff_ffff, 62);
      TopBits();
    } else if n <= 32 * 63 {
      DecayKeepsHalf(0, n);
      ShiftShrinks(0, n / 32);
    }
  }

  lemma TopBits()
    ensures ShiftRight(0xffff_ffff_ffff_ffff, 62) == 3
  {
    var top := 0xffff_ffff_ffff_ffff;
    Byte(top, 0xff_ffff_ffff_ffff);
    ByteMore(top, 8, 0xffff_ffff_ffff);
    ByteMore(top, 16, 0xff_ffff_ffff);
    ByteMore(top, 24, 0xffff_ffff);
    ByteMore(top, 32, 0xff_ffff);
    ByteMore(top, 40, 0xffff);
    ByteMore(top, 48, 0xff);
    ShiftShift(top, 56, 6);
    assert ShiftRight(0xff, 6) == 3;
  }

  lemma Byte(val: nat, rest: nat)
    requires val == 256 * rest + 255
    ensures ShiftRight(val, 8) == rest
  {
    assert ShiftRight(val, 1) == 128 * rest + 127;
    assert ShiftRight(val, 2) == 64 * rest + 63;
    assert ShiftRight(val, 3) == 32 * rest + 31;
    assert ShiftRight(val, 4) == 16 * rest + 15;
    assert ShiftRight(val, 5) == 8 * rest + 7;
    assert ShiftRight(val, 6) == 4 * rest + 3;
    assert ShiftRight(val, 7) == 2 * rest + 1;
  }

  lemma ByteMore(val: nat, n: nat, rest: nat)
    requires ShiftRight(val, n) == 256 * rest + 255
    ensures ShiftRight(val, n + 8) == rest
  {
    hide ShiftRight;
    ShiftShift(val, n, 8);
    Byte(ShiftRight(val, n), rest);
  }

  /** Decaying by m periods and then by n is decaying by m + n, up to 3 for loads below 2^25. */
  lemma DecayComposes(val: nat, m: nat, n: nat)
    requires m + n <= 32 * 63 || val < TWO64
    ensures var twice, once := DecayLoad(DecayLoad(val, m), n), DecayLoad(val, m + n);
            twice <= once + Slack(val) && once <= twice + Slack(val)
  {
    hide Factor;
    if m + n <= 32 * 63 {
      DecayComposesBefore(val, m, n);
    } else {
      PastCutOff(val, m, n);
    }
  }

  lemma DecayComposesBefore(val: nat, m: nat, n: nat)
    requires m + n <= 32 * 63
    ensures var twice, once := DecayLoad(DecayLoad(val, m), n), DecayLoad(val, m + n);
            twice <= once + Slack(val) && once <= twice + Slack(val)
  {
    hide Factor, Twice, Scale, Multiplies, Slack;
    var a, b, p, q := m % 32, n % 32, m / 32, n / 32;
    var f, g, y := Factor(a), Factor(b), ShiftRight(val, p + q);
    var z := Scale(Scale(y, f), g);
    DecayTwice(val, m, n);
    assert m + n == 32 * (p + q) + (a + b);
    DecayByTwice(val, p + q, a + b);
    EntriesMultiply(a, b);
    hide DecayLoad, ShiftRight;
    ProductOfScales(y, f, g, Twice(a + b), DecayLoad(val, m + n));
    ShiftShrinks(val, p + q);
  }

  lemma EntriesMultiply(a: nat, b: nat)
    requires a < 32 && b < 32
    ensures Multiplies(2 * Factor(a), Factor(b), Twice(a + b), 192)
  {
    hide Factor;
    TableComposes(a, b);
  }

  lemma DecayTwice(val: nat, m: nat, n: nat)
    requires m + n <= 32 * 63
    ensures var z := Scale(Scale(ShiftRight(val, m / 32 + n / 32), Factor(m % 32)), Factor(n % 32));
            z <= DecayLoad(DecayLoad(val, m), n) <= z + 1
  {
    hide Factor, Scale;
    var f, g, x, q := Factor(m % 32), Factor(n % 32), ShiftRight(val, m / 32), n / 32;
    ShiftShift(val, m / 32, q);
    ShiftOfScale(x, f, q);
    ScaleOfNext(Scale(ShiftRight(x, q), f), g);
  }

  lemma {:induction false} ShiftShrinks(val: nat, n: nat)
    ensures ShiftRight(val, n) <= val && Slack(ShiftRight(val, n)) <= Slack(val)
  {
    if n > 0 {
      ShiftShrinks(val, n - 1);
    }
  }

  lemma {:induction false} ShiftSub(a: nat, b: nat, n: nat)
    ensures ShiftRight(a + b, n) <= ShiftRight(a, n) + ShiftRight(b, n) + 1
  {
    if n > 0 {
      ShiftSub(a, b, n - 1);
    }
  }

  lemma ScaleSub(a: nat, b: nat, f: nat)
    ensures Scale(a + b, f) <= Scale(a, f) + Scale(b, f) + 1
  {
    assert (a + b) * f == a * f + b * f;
  }

  /** Floors gain at most 2 on the sum over the parts. */
  lemma DecaySubadditive(a: nat, b: nat, num: nat)
    ensures DecayLoad(a + b, num) <= DecayLoad(a, num) + DecayLoad(b, num) + 2
  {
    hide Factor, Scale;
    if num <= 32 * 63 {
      var f, x, y := Factor(num % 32), ShiftRight(a, num / 32), ShiftRight(b, num / 32);
      ShiftSub(a, b, num / 32);
      ScaleMono(ShiftRight(a + b, num / 32), x + y + 1, f, f);
      ScaleSub(x, y, f);
      ScaleOfNext(x + y, f);
    }
  }

  /** One period takes exactly 1024 from the maximal sum: the floor leaves no slack. */
  lemma FirstPeriod()
    ensures DecayLoad(LOAD_AVG_MAX, 1) == LOAD_AVG_MAX - 1024
  {
    assert ShiftRight(LOAD_AVG_MAX, 0) == LOAD_AVG_MAX;
    assert Scale(LOAD_AVG_MAX, 0xfa83b2da) == 46718;
  }

  // ---------- segments ----------

  /** The middle segment is not below zero: the source's unsigned subtractions are safe. */
  lemma SegmentDoesNotUnderflow(periods: nat)
    requires periods >= 1
    ensures DecayLoad(LOAD_AVG_MAX, periods) + 1024 <= LOAD_AVG_MAX
  {
    FirstPeriod();
    DecayAntitone(LOAD_AVG_MAX, 1, periods);
  }

  function AddSegment(periods: nat, load1: nat, load3: nat): nat
    requires periods >= 1
  {
    SegmentDoesNotUnderflow(periods);
    var c1 := DecayLoad(load1, periods);
    var c2 := LOAD_AVG_MAX - DecayLoad(LOAD_AVG_MAX, periods) - 1024;
    (c1 + c2 + load3) % TWO32
  }

  lemma DecayShrinks(val: nat, num: nat)
    ensures DecayLoad(val, num) <= val
  {
    hide Factor;
    if num <= 32 * 63 {
      DecayKeepsHalf(val, num);
      ShiftShrinks(val, num / 32);
    }
  }

  /** What the closed periods between the first and the last contribute. */
  function Middle(periods: nat): nat
    requires periods >= 1
  {
    SegmentDoesNotUnderflow(periods);
    LOAD_AVG_MAX - DecayLoad(LOAD_AVG_MAX, periods) - 1024
  }

  /** One period has no middle; each further one adds 1024 decayed by one period more, up to
      rounding. */
  lemma MiddleGrows(periods: nat)
    requires 1 <= periods
    ensures Middle(1) == 0
    ensures var more := DecayLoad(1024, periods); more - 3 <= Middle(periods + 1) - Middle(periods) <= more + 5
  {
    hide DecayLoad;
    FirstPeriod();
    DecaySuperadditive(LOAD_AVG_MAX - 1024, 1024, periods);
    DecaySubadditive(LOAD_AVG_MAX - 1024, 1024, periods);
    DecayComposes(LOAD_AVG_MAX, 1, periods);
  }

  // ---------- the tracker ----------

  datatype Tracker = Tracker(last: nat, sum: nat, contrib: nat, avg: nat)

  const NEW := Tracker(0, 0, 0, 0)

  function Divider(t: Tracker): nat {
    t.contrib + PELT_MIN_DIVIDER
  }

  /** The bound every update keeps. */
  predicate Bounded(t: Tracker) {
    t.contrib < 1024 && t.sum <= Divider(t) && t.avg <= 1
  }

  /** The running time plus the open window, in 64-bit arithmetic. */
  function Window(t: Tracker, delta: nat): nat {
    (delta + t.contrib) % TWO64
  }

  function AfterTaskLoad(t: Tracker, delta: nat): (r: (Tracker, nat))
    requires t.contrib <= 1024
  {
    var window := Window(t, delta);
    var periods := window / 1024;
    if periods != 0 then
      var rest := window % 1024;
      var contribute := AddSegment(periods, 1024 - t.contrib, rest);
      (t.(sum := DecayLoad(t.sum, periods) + contribute, contrib := rest), periods % TWO32)
    else
      (t.(contrib := window), 0)
  }

  function AfterLoadSum(t: Tracker, now: nat): (r: (Tracker, bool))
    requires t.contrib <= 1024 && t.last < TWO64 && now < TWO64
  {
    var delta := (now - t.last) % TWO64;
    if delta == 0 then (t, false)
    else
      var (u, periods) := AfterTaskLoad(t.(last := (t.last + delta) % TWO64), delta);
      (u, periods != 0)
  }

  function AfterLoadAvg(t: Tracker): Tracker {
    t.(avg := t.sum / Divider(t) % TWO32)
  }

  function AfterLoadAvgSe(t: Tracker, now: nat): Tracker
    requires t.contrib <= 1024 && t.last < TWO64 && now < TWO64
  {
    var (u, crossed) := AfterLoadSum(t, now);
    if crossed then AfterLoadAvg(u) else u
  }

  /** The new sum, when periods have passed, is at most the new divider: the old sum and the
      closed part of the window decay together to at most what the maximal sum decays to. */
  lemma CrossingIsBounded(t: Tracker, periods: nat, rest: nat)
    requires t.contrib < 1024 && t.sum <= Divider(t) && periods >= 1 && rest < 1024
    ensures DecayLoad(t.sum, periods) + AddSegment(periods, 1024 - t.contrib, rest) <= rest + PELT_MIN_DIVIDER
  {
    hide DecayLoad;
    var open := 1024 - t.contrib;
    SegmentDoesNotUnderflow(periods);
    DecaySuperadditive(t.sum, open, periods);
    DecayMonotone(t.sum + open, LOAD_AVG_MAX, periods);
  }

  /** An update keeps the bound exactly when the window does not wrap around 64 bits, or the
      sum happens to fit the window left over after the wrap. */
  lemma UpdateKeepsBoundIff(t: Tracker, delta: nat)
    requires Bounded(t) && delta < TWO64
    ensures Bounded(AfterTaskLoad(t, delta).0) <==>
            delta + t.contrib < TWO64 || t.sum <= delta + t.contrib - TWO64 + PELT_MIN_DIVIDER
  {
    hide AddSegment, DecayLoad;
    var window := Window(t, delta);
    if delta + t.contrib < TWO64 {
      assert window == delta + t.contrib;
      if window / 1024 != 0 {
        CrossingIsBounded(t, window / 1024, window % 1024);
      }
    } else {
      assert window == delta + t.contrib - TWO64;
    }
  }

  /** A crossing decays the old sum and adds the rest of the first period, the periods in the
      middle, and the begun one; within a period the sum stays. */
  lemma CrossingAdds(t: Tracker, delta: nat)
    requires Bounded(t) && delta + t.contrib < TWO64
    ensures var u, window := AfterTaskLoad(t, delta).0, delta + t.contrib;
            var periods := window / 1024;
            && u.contrib == window % 1024 && u.last == t.last && u.avg == t.avg
            && u.sum == if periods == 0 then t.sum
                        else DecayLoad(t.sum, periods) + DecayLoad(1024 - t.contrib, periods) + Middle(periods) + window % 1024
  {
    hide DecayLoad;
    var window := delta + t.contrib;
    assert Window(t, delta) == window;
    if window / 1024 != 0 {
      DecayShrinks(1024 - t.contrib, window / 1024);
    }
  }

  /** One long update or two shorter ones: if both cross a period, the sums agree up to 25 and
      the open windows exactly. */
  lemma SplitAgrees(t: Tracker, d: nat, e: nat)
    requires Bounded(t) && d + e + t.contrib < TWO64 && d + t.contrib >= 1024
    requires var rest := (d + t.contrib) % 1024; rest + e >= 1024
    ensures Bounded(AfterTaskLoad(t, d).0)
    ensures var two, one := AfterTaskLoad(AfterTaskLoad(t, d).0, e).0, AfterTaskLoad(t, d + e).0;
            && two.contrib == one.contrib && two.sum - 25 <= one.sum <= two.sum + 25
  {
    hide DecayLoad, AfterTaskLoad;
    UpdateKeepsBoundIff(t, d);
    var u := AfterTaskLoad(t, d).0;
    CrossingAdds(t, d);
    CrossingAdds(u, e);
    CrossingAdds(t, d + e);
    WindowsAdd(d + t.contrib, e);
    SumsAgree(t.sum, 1024 - t.contrib, 1024 - u.contrib, (d + t.contrib) / 1024, (u.contrib + e) / 1024, u.sum);
  }

  lemma WindowsAdd(w: nat, e: nat)
    ensures (w + e) / 1024 == w / 1024 + (w % 1024 + e) / 1024 && (w + e) % 1024 == (w % 1024 + e) % 1024
  {
  }

  /** An update that stays within its period adds nothing to the sum: the time it covers is
      missing after a crossing, and missing as decayed time before one. */
  lemma ShortUpdatesAreLost(t: Tracker, d: nat, e: nat)
    requires Bounded(t) && d + e + t.contrib < TWO64
    ensures Bounded(AfterTaskLoad(t, d).0)
    ensures var two, one := AfterTaskLoad(AfterTaskLoad(t, d).0, e).0, AfterTaskLoad(t, d + e).0;
            && (d + t.contrib >= 1024 && (d + t.contrib) % 1024 + e < 1024 ==> one.sum == two.sum + e)
            && (d + t.contrib < 1024 <= d + e + t.contrib ==>
                  var lost := DecayLoad(d, (d + e + t.contrib) / 1024);
                  two.sum + lost <= one.sum <= two.sum + lost + 2)
  {
    hide DecayLoad, AfterTaskLoad;
    UpdateKeepsBoundIff(t, d);
    var u := AfterTaskLoad(t, d).0;
    CrossingAdds(t, d);
    CrossingAdds(u, e);
    CrossingAdds(t, d + e);
    WindowsAdd(d + t.contrib, e);
    if d + t.contrib < 1024 {
      Sums(1024 - u.contrib, d, (d + e + t.contrib) / 1024);
    }
  }

  lemma SumsAgree(s: nat, a: nat, b: nat, m: nat, n: nat, s': nat)
    requires s <= LOAD_AVG_MAX && a <= 1024 && b <= 1024 && m >= 1 && n >= 1
    requires s' + b == DecayLoad(s, m) + DecayLoad(a, m) + Middle(m) + 1024
    ensures var two, one := DecayLoad(s', n) + DecayLoad(b, n) + Middle(n), DecayLoad(s, m + n) + DecayLoad(a, m + n) + Middle(m + n);
            two - 25 <= one <= two + 25
  {
    hide DecayLoad;
    var x, y, z := DecayLoad(s, m), DecayLoad(a, m), DecayLoad(LOAD_AVG_MAX, m);
    DecayComposes(s, m, n);
    DecayComposes(a, m, n);
    DecayComposes(LOAD_AVG_MAX, m, n);
    Sums(s', b, n);
    Sums(s' + b, z, n);
    Sums(x, y, n);
    Sums(x + y, LOAD_AVG_MAX, n);
    assert s' + b + z == x + y + LOAD_AVG_MAX;
  }

  lemma Sums(a: nat, b: nat, num: nat)
    ensures DecayLoad(a, num) + DecayLoad(b, num) <= DecayLoad(a + b, num) <= DecayLoad(a, num) + DecayLoad(b, num) + 2
  {
    hide DecayLoad;
    DecaySuperadditive(a, b, num);
    DecaySubadditive(a, b, num);
  }

  lemma Quotient(a: nat, d: nat)
    requires a <= d && d > 0
    ensures a / d == if a == d then 1 else 0
  {
    if a < d {
      assert a / d == 0;
    }
  }

  /** The average is a whole number, and the bound leaves it only 0 and 1. */
  lemma AverageIsZeroOrOne(t: Tracker)
    requires t.contrib < 1024 && t.sum <= Divider(t)
    ensures AfterLoadAvg(t).avg == if t.sum == Divider(t) then 1 else 0
  {
    Quotient(t.sum, Divider(t));
  }

  // ---------- runs ----------

  /** Clock readings are 64-bit and no step is so long that the window wraps. */
  predicate NoWrap(times: seq<nat>) {
    times == [] ||
    var n := |times| - 1;
    && NoWrap(times[..n])
    && times[n] < TWO64
    && Elapsed(if n == 0 then 0 else times[n - 1], times[n]) < TWO64 - 1024
  }

  function Elapsed(last: nat, now: nat): nat {
    (now - last) % TWO64
  }

  lemma ClockAdvances(last: nat, now: nat)
    requires last < TWO64 && now < TWO64
    ensures (last + Elapsed(last, now)) % TWO64 == now
  {
    if now >= last {
      assert Elapsed(last, now) == now - last;
    } else {
      assert Elapsed(last, now) == now - last + TWO64;
    }
  }

  lemma AfterReading(t: Tracker, now: nat)
    requires t.contrib <= 1024 && t.last < TWO64 && now < TWO64
    ensures var delta := Elapsed(t.last, now);
            AfterLoadSum(t, now) ==
              if delta == 0 then (t, false)
              else var (u, periods) := AfterTaskLoad(t.(last := now), delta); (u, periods != 0)
    ensures Elapsed(t.last, now) == 0 ==> now == t.last
  {
    hide AfterTaskLoad;
    ClockAdvances(t.last, now);
  }

  lemma StepKeepsBound(t: Tracker, now: nat)
    requires Bounded(t) && t.last < TWO64 && now < TWO64 && Elapsed(t.last, now) < TWO64 - 1024
    ensures Bounded(AfterLoadAvgSe(t, now)) && AfterLoadAvgSe(t, now).last == now
  {
    hide AfterTaskLoad, AfterLoadSum, DecayLoad, Elapsed, AfterLoadAvg;
    AfterReading(t, now);
    var delta := Elapsed(t.last, now);
    if delta != 0 {
      var t1 := t.(last := now);
      UpdateKeepsBoundIff(t1, delta);
      CrossingAdds(t1, delta);
      AveragingKeepsBound(AfterTaskLoad(t1, delta).0);
    }
  }

  lemma AveragingKeepsBound(u: Tracker)
    requires Bounded(u)
    ensures Bounded(AfterLoadAvg(u)) && AfterLoadAvg(u).last == u.last
  {
    AverageIsZeroOrOne(u);
  }

  /** Every tracker reached from a new one by any sequence of clock readings is bounded. */
  function Run(times: seq<nat>): (t: Tracker)
    requires NoWrap(times)
    ensures Bounded(t)
    ensures t.last == if times == [] then 0 else times[|times| - 1]
  {
    if times == [] then NEW
    else
      var n := |times| - 1;
      var t := Run(times[..n]);
      StepKeepsBound(t, times[n]);
      AfterLoadAvgSe(t, times[n])
  }

  /** After long enough a new tracker is full but for the open window. */
  lemma FirstReading()
    ensures AfterLoadAvgSe(NEW, 2066431) == Tracker(2066431, 47741, 1023, 1)
  {
    assert Window(NEW.(last := 2066431), 2066431) == 2066431;
    assert 2066431 / 1024 == 2017 && 2066431 % 1024 == 1023;
    assert DecayLoad(0, 2017) == 0 && DecayLoad(1024, 2017) == 0 && DecayLoad(LOAD_AVG_MAX, 2017) == 0;
    assert AddSegment(2017, 1024, 1023) == 47741;
    assert AfterTaskLoad(NEW.(last := 2066431), 2066431).0 == Tracker(2066431, 47741, 1023, 0);
    hide DecayLoad, AddSegment, AfterTaskLoad, Window;
    assert 47741 / 47741 == 1;
  }

  /** The wrap does break the bound: a reading, then one a microsecond earlier. The first is
      a run without wrap, the second makes the window wrap to almost nothing. */
  lemma WrapBreaksBound()
    ensures NoWrap([2066431]) && Run([2066431]) == Tracker(2066431, 47741, 1023, 1)
    ensures !NoWrap([2066431, 2066430]) && !Bounded(AfterLoadAvgSe(Run([2066431]), 2066430))
  {
    FirstReading();
    var t := Tracker(2066431, 47741, 1023, 1);
    assert [2066431][..0] == [] && [2066431, 2066430][..1] == [2066431];
    assert Run([]) == NEW && Run([2066431]) == t by { hide AfterLoadAvgSe; }
    BackwardReading();
  }

  lemma BackwardReading()
    ensures var t := Tracker(2066431, 47741, 1023, 1);
            Elapsed(t.last, 2066430) == TWO64 - 1 && !Bounded(AfterLoadAvgSe(t, 2066430))
  {
    var t := Tracker(2066431, 47741, 1023, 1);
    assert Elapsed(t.last, 2066430) == TWO64 - 1;
    assert (t.last + (TWO64 - 1)) % TWO64 == 2066430;
    hide AddSegment, DecayLoad;
    assert Window(t.(last := 2066430), TWO64 - 1) == 1022;
    assert AfterTaskLoad(t.(last := 2066430), TWO64 - 1) == (Tracker(2066430, 47741, 1022, 1), 0);
    hide AfterTaskLoad, Window;
  }

  // ---------- the tracker in place ----------

  class TaskLoadTracker {
    var lastUpdateTime: nat
    var loadSum: nat
    var periodContribute: nat
    var loadAvg: nat

    ghost function Value(): Tracker
      reads this
    {
      Tracker(lastUpdateTime, loadSum, periodContribute, loadAvg)
    }

    constructor ()
      ensures Value() == NEW
    {
      lastUpdateTime, loadSum, periodContribute, loadAvg := 0, 0, 0, 0;
    }

    method UpdateTaskLoad(time: nat) returns (periods32: nat)
      requires Bounded(Value())
      modifies this
      ensures (Value(), periods32) == AfterTaskLoad(old(Value()), time)
    {
      var contribute := 0;
      var delta := (time + periodContribute) % TWO64;
      var periods := delta / 1024;
      if periods != 0 {
        loadSum := DecayLoad(loadSum, periods);
        delta := delta % 1024;
        contribute := AddSegment(periods, 1024 - periodContribute, delta);
      }
      periodContribute := delta;
      loadSum := loadSum + contribute;
      periods32 := periods % TWO32;
    }

    method UpdateLoadSum(now: nat) returns (crossed: bool)
      requires Bounded(Value()) && lastUpdateTime < TWO64 && now < TWO64
      modifies this
      ensures (Value(), crossed) == AfterLoadSum(old(Value()), now)
    {
      var delta := (now - lastUpdateTime) % TWO64;
      if delta == 0 {
        return false;
      }
      lastUpdateTime := (lastUpdateTime + delta) % TWO64;
      var periods := UpdateTaskLoad(delta);
      crossed := periods != 0;
    }

    method UpdateLoadAvgSe(now: nat) returns (updated: bool)
      requires Bounded(Value()) && lastUpdateTime < TWO64 && now < TWO64
      requires Elapsed(lastUpdateTime, now) < TWO64 - 1024
      modifies this
      ensures Bounded(Value()) && lastUpdateTime == now
      ensures Value() == AfterLoadAvgSe(old(Value()), now) && updated == AfterLoadSum(old(Value()), now).1
    {
      hide AfterLoadSum, Bounded, Elapsed;
      StepKeepsBound(Value(), now);
      updated := UpdateLoadSum(now);
      if updated {
        loadAvg := loadSum / (periodContribute + PELT_MIN_DIVIDER) % TWO32;
      }
    }
  }

  // ---------- balancing ----------

  /** The busiest core is the last one with the greatest load, the idlest the first one with
      the least; tasks move only when the difference passes the threshold, which no two
      loads of at most one ever do. */
  method LoadBalance(loads: seq<nat>) returns (balanced: bool, busiest: nat, idlest: nat)
    requires loads != []
    ensures busiest < |loads| && forall i | 0 <= i < |loads| :: loads[i] <= loads[busiest]
    ensures forall i | busiest < i < |loads| :: loads[i] < loads[busiest]
    ensures idlest < |loads| && forall i | 0 <= i < |loads| :: loads[idlest] <= loads[i]
    ensures forall i | 0 <= i < idlest :: loads[idlest] < loads[i]
    ensures balanced <==> loads[busiest] - loads[idlest] <= LOAD_THRESHOLD
    ensures (forall i | 0 <= i < |loads| :: loads[i] <= 1) ==> balanced
  {
    busiest, idlest := 0, 0;
    for i := 1 to |loads|
      invariant busiest < i && forall j | 0 <= j < i :: loads[j] <= loads[busiest]
      invariant forall j | busiest < j < i :: loads[j] < loads[busiest]
      invariant idlest < i && forall j | 0 <= j < i :: loads[idlest] <= loads[j]
      invariant forall j | 0 <= j < idlest :: loads[idlest] < loads[j]
    {
      if loads[i] >= loads[busiest] {
        busiest := i;
      }
      if loads[i] < loads[idlest] {
        idlest := i;
      }
    }
    balanced := !(loads[busiest] - loads[idlest] > LOAD_THRESHOLD);
  }

  /** The loads are read off the processors' trackers. Trackers that keep the bound never
      make tasks move. */
  method BalanceProcessors(trackers: seq<Tracker>) returns (balanced: bool)
    requires trackers != []
    ensures balanced <==> forall i, j | 0 <= i < |trackers| && 0 <= j < |trackers| ::
                            trackers[i].avg - trackers[j].avg <= LOAD_THRESHOLD
    ensures (forall i | 0 <= i < |trackers| :: Bounded(trackers[i])) ==> balanced
  {
    var loads := [];
    for i := 0 to |trackers|
      invariant |loads| == i && forall k | 0 <= k < i :: loads[k] == trackers[k].avg
    {
      loads := loads + [trackers[i].avg];
    }
    var b, busiest, idlest := LoadBalance(loads);
    balanced := b;
    assert loads[busiest] == trackers[busiest].avg && loads[idlest] == trackers[idlest].avg;
    assert forall i | 0 <= i < |trackers| :: loads[i] == trackers[i].avg;
  }

  /** Whatever the processors' clock readings were, short of a wrap, nothing is ever moved. */
  method NothingMoves(readings: seq<seq<nat>>) returns (balanced: bool)
    requires readings != [] && forall i | 0 <= i < |readings| :: NoWrap(readings[i])
    ensures balanced
  {
    balanced := BalanceProcessors(seq(|readings|, i requires 0 <= i < |readings| => Run(readings[i])));
  }
}
