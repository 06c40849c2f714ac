/** The BIP 173 checksum: `polymod`, `hrpExpand`, `verifyChecksum` and `createChecksum`. */
module Bech32Checksum {
  import opened Words
  import opened Strings

  const GENERATOR: seq<nat> := [0x3b6a57b2, 0x26508e6d, 0x1ea119fa, 0x3d4233dd, 0x2a1462b3]

  // The register is 30 bits wide; its five top bits select the generators.
  const WIDTH: nat := 0x4000_0000
  const TOP: nat := 0x200_0000

  // The suffix in whose place a checksum is computed.
  const ZEROS: seq<Byte> := [0, 0, 0, 0, 0, 0]

  ghost predicate Symbols(s: seq<Byte>) {
    forall i :: 0 <= i < |s| ==> s[i] < 32
  }

  // ---------- the checksum register ----------

  /** `chk` after the first `n` rounds of the inner loop. */
  function Reduce(chk: nat, top: nat, n: nat): nat
    requires n <= 5
  {
    if n == 0 then chk
    else
      var c := Reduce(chk, top, n - 1);
      if Bit(top, n - 1) then Xor(c, GENERATOR[n - 1]) else c
  }

  function Step(chk: nat, v: Byte): nat {
    Reduce(Xor(chk % TOP * 32, v), chk / TOP, 5)
  }

  function Fold(chk: nat, values: seq<Byte>): nat {
    if values == [] then chk
    else Step(Fold(chk, values[..|values| - 1]), values[|values| - 1])
  }

  method Polymod(values: seq<Byte>) returns (chk: nat)
    ensures chk == Fold(1, values)
    ensures chk < WIDTH
  {
    chk := 1;
    for k := 0 to |values|
      invariant chk == Fold(1, values[..k])
    {
      var top := chk / TOP;
      chk := chk % TOP * 32;
      chk := Xor(chk, values[k]);
      ghost var shifted := chk;
      for i := 0 to 5
        invariant chk == Reduce(shifted, top, i)
      {
        var bit := Shr(top, i) % 2;
        if bit == 1 {
          chk := Xor(chk, GENERATOR[i]);
        }
      }
      assert values[..k + 1][..k] == values[..k];
    }
    assert values[..|values|] == values;
    FoldBound(1, values);
  }

  lemma {:induction false} FoldConcat(chk: nat, a: seq<Byte>, b: seq<Byte>)
    ensures Fold(chk, a + b) == Fold(Fold(chk, a), b)
    decreases |b|
  {
    if b == [] {
      assert a + b == a;
    } else {
      var b' := b[..|b| - 1];
      assert (a + b)[..|a + b| - 1] == a + b';
      FoldConcat(chk, a, b');
    }
  }

  lemma {:induction false} ReduceBound(chk: nat, top: nat, n: nat)
    requires n <= 5 && chk < WIDTH
    ensures Reduce(chk, top, n) < WIDTH
  {
    if n > 0 {
      ReduceBound(chk, top, n - 1);
      XorBound30(Reduce(chk, top, n - 1), GENERATOR[n - 1]);
    }
  }

  lemma StepBound(chk: nat, v: Byte)
    ensures Step(chk, v) < WIDTH
  {
    XorBound30(chk % TOP * 32, v);
    ReduceBound(Xor(chk % TOP * 32, v), chk / TOP, 5);
  }

  lemma FoldBound(chk: nat, values: seq<Byte>)
    requires chk < WIDTH
    ensures Fold(chk, values) < WIDTH
  {
    if values != [] {
      StepBound(Fold(chk, values[..|values| - 1]), values[|values| - 1]);
    }
  }

  // ---------- the generators ----------

  /** The generators a step adds for the top bits `top`. */
  function Taps(top: nat): nat {
    Reduce(0, top, 5)
  }

  lemma {:induction false} ReduceIsXor(chk: nat, top: nat, n: nat)
    requires n <= 5
    ensures Reduce(chk, top, n) == Xor(chk, Reduce(0, top, n))
  {
    hide Xor;
    if n == 0 {
      XorZero(chk);
    } else {
      ReduceIsXor(chk, top, n - 1);
      XorAssoc(chk, Reduce(0, top, n - 1), GENERATOR[n - 1]);
    }
  }

  /** Bit `j` of the sum of the first `n` generators that `top` selects. */
  predicate TapBit(top: nat, j: nat, n: nat)
    requires n <= 5
  {
    n > 0 && TapBit(top, j, n - 1) != (Bit(top, n - 1) && Bit(GENERATOR[n - 1], j))
  }

  lemma {:induction false} TapBits(top: nat, j: nat, n: nat)
    requires n <= 5
    ensures Bit(Reduce(0, top, n), j) == TapBit(top, j, n)
  {
    hide Xor;
    if n == 0 {
      assert Shr(0, j) == 0 by { ShrZero(j); }
    } else {
      TapBits(top, j, n - 1);
      XorBits(Reduce(0, top, n - 1), GENERATOR[n - 1], j);
    }
  }

  /** The five low bits as sums of the bits of `top`. */
  lemma LowTapBits(top: nat)
    ensures TapBit(top, 0, 5) == ((Bit(top, 1) != Bit(top, 3)) != Bit(top, 4))
    ensures TapBit(top, 1, 5) == ((Bit(top, 0) != Bit(top, 2)) != Bit(top, 4))
    ensures TapBit(top, 2, 5) == (Bit(top, 1) != Bit(top, 3))
    ensures TapBit(top, 3, 5) == ((Bit(top, 1) != Bit(top, 2)) != Bit(top, 3))
    ensures TapBit(top, 4, 5) == (((Bit(top, 0) != Bit(top, 2)) != Bit(top, 3)) != Bit(top, 4))
  {
    forall j, n | 0 <= j < 5 && 0 < n <= 5
      ensures TapBit(top, j, n) == (TapBit(top, j, n - 1) != (Bit(top, n - 1) && Bit(GENERATOR[n - 1], j)))
    {
    }
    GeneratorBits();
  }

  lemma GeneratorBits()
    ensures !Bit(0x3b6a57b2, 0) && Bit(0x3b6a57b2, 1) && !Bit(0x3b6a57b2, 2) &&
            !Bit(0x3b6a57b2, 3) && Bit(0x3b6a57b2, 4)
    ensures Bit(0x26508e6d, 0) && !Bit(0x26508e6d, 1) && Bit(0x26508e6d, 2) && Bit(0x26508e6d, 3) && !Bit(0x26508e6d, 4)
    ensures !Bit(0x1ea119fa, 0) && Bit(0x1ea119fa, 1) && !Bit(0x1ea119fa, 2) && Bit(0x1ea119fa, 3) && Bit(0x1ea119fa, 4)
    ensures Bit(0x3d4233dd, 0) && !Bit(0x3d4233dd, 1) && Bit(0x3d4233dd, 2) && Bit(0x3d4233dd, 3) && Bit(0x3d4233dd, 4)
    ensures Bit(0x2a1462b3, 0) && Bit(0x2a1462b3, 1) && !Bit(0x2a1462b3, 2) && !Bit(0x2a1462b3, 3) && Bit(0x2a1462b3, 4)
  {
  }

  /** The low five bits of the five generators are linearly independent. */
  lemma TapsInjective(s: nat, t: nat)
    requires s < 32 && t < 32
    requires Taps(s) % 32 == Taps(t) % 32
    ensures s == t
  {
    hide Reduce, TapBit, Bit;
    FiveBits(Taps(s), Taps(t));
    forall j | 0 <= j < 5
      ensures TapBit(s, j, 5) == TapBit(t, j, 5)
    {
      TapBits(s, j, 5);
      TapBits(t, j, 5);
    }
    LowTapBits(s);
    LowTapBits(t);
    assert Bit(s, 0) == Bit(t, 0) && Bit(s, 1) == Bit(t, 1) && Bit(s, 2) == Bit(t, 2) &&
           Bit(s, 3) == Bit(t, 3) && Bit(s, 4) == Bit(t, 4);
    FiveBits(s, t);
  }

  // ---------- a step loses nothing ----------

  lemma StepAsXor(q: nat, r: nat, v: Byte)
    requires r < TOP
    ensures Step(TOP * q + r, v) == Xor(Xor(32 * r, v), Taps(q))
  {
    hide Xor, Reduce;
    var a := TOP * q + r;
    assert a / TOP == q && a % TOP == r;
    ReduceIsXor(Xor(32 * r, v), q, 5);
  }

  /** Different registers stay different when both take in the same value. */
  lemma StepInjective(a: nat, b: nat, v: Byte)
    requires a < WIDTH && b < WIDTH && Step(a, v) == Step(b, v)
    ensures a == b
  {
    hide Xor, Reduce, Step, Taps;
    var q, r, s, t := a / TOP, a % TOP, b / TOP, b % TOP;
    StepAsXor(q, r, v);
    StepAsXor(s, t, v);
    StepMod(r, q, v);
    StepMod(t, s, v);
    XorCancel(v % 32, Taps(q) % 32, Taps(s) % 32);
    TapsInjective(q, s);
    XorComm(Xor(32 * r, v), Taps(q));
    XorComm(Xor(32 * t, v), Taps(q));
    XorCancel(Taps(q), Xor(32 * r, v), Xor(32 * t, v));
    XorComm(32 * r, v);
    XorComm(32 * t, v);
    XorCancel(v, 32 * r, 32 * t);
  }

  lemma StepMod(r: nat, q: nat, v: Byte)
    ensures Xor(Xor(32 * r, v), Taps(q)) % 32 == Xor(v % 32, Taps(q) % 32)
  {
    hide Xor, Taps;
    XorMod32(Xor(32 * r, v), Taps(q));
    XorMod32(32 * r, v);
    XorComm(0, v % 32);
    XorZero(v % 32);
  }

  lemma {:induction false} FoldInjective(a: nat, b: nat, z: seq<Byte>)
    requires a < WIDTH && b < WIDTH && Fold(a, z) == Fold(b, z)
    ensures a == b
    decreases |z|
  {
    hide Step;
    if z != [] {
      var z' := z[..|z| - 1];
      FoldBound(a, z');
      FoldBound(b, z');
      StepInjective(Fold(a, z'), Fold(b, z'), z[|z| - 1]);
      FoldInjective(a, b, z');
    }
  }

  // ---------- the last six symbols are not reduced ----------

  /** Symbols as the digits of a number in base 32. */
  function Pack(s: seq<Byte>): nat {
    if s == [] then 0 else 32 * Pack(s[..|s| - 1]) + s[|s| - 1]
  }

  /** A difference below the top five bits moves up by five bits, the new symbol enters below it. */
  lemma StepAbsorbs(a: nat, d: nat, v: Byte)
    requires d < TOP && v < 32
    ensures Step(Xor(a, d), v) == Xor(Step(a, 0), 32 * d + v)
  {
    hide Xor, Reduce, Step, Taps;
    var q, r := a / TOP, a % TOP;
    XorSplit25(q, 0, r, d);
    XorZero(q);
    StepAsXor(q, Xor(r, d), v);
    StepAsXor(q, r, 0);
    XorZero(32 * r);
    Xor32(Xor(r, d), 0, 0, v);
    Xor32(r, d, 0, v);
    XorZero(Xor(r, d));
    XorComm(0, v);
    XorZero(v);
    XorRotate(32 * r, 32 * d + v, Taps(q));
  }

  lemma XorRotate(x: nat, y: nat, z: nat)
    ensures Xor(Xor(x, y), z) == Xor(Xor(x, z), y)
  {
    hide Xor;
    XorAssoc(x, y, z);
    XorComm(y, z);
    XorAssoc(x, z, y);
  }

  lemma PackBound(s: seq<Byte>)
    requires Symbols(s) && |s| <= 6
    ensures Pack(s) < WIDTH
    ensures |s| <= 5 ==> Pack(s) < TOP
    ensures |s| <= 4 ==> Pack(s) < 0x10_0000
    ensures |s| <= 3 ==> Pack(s) < 0x8000
    ensures |s| <= 2 ==> Pack(s) < 0x400
    ensures |s| <= 1 ==> Pack(s) < 0x20
    ensures |s| <= 0 ==> Pack(s) == 0
  {
    if s != [] { PackBound(s[..|s| - 1]); }
  }

  /** Up to six symbols enter the register as one number. */
  lemma {:induction false} FoldSymbols(chk: nat, s: seq<Byte>)
    requires Symbols(s) && |s| <= 6
    ensures Fold(chk, s) == Xor(Fold(chk, ZEROS[..|s|]), Pack(s))
    decreases |s|
  {
    hide Xor, Step;
    var zeros := ZEROS[..|s|];
    if s == [] {
      XorZero(chk);
    } else {
      var s' := s[..|s| - 1];
      assert zeros[..|s| - 1] == ZEROS[..|s'|];
      FoldSymbols(chk, s');
      PackBound(s');
      StepAbsorbs(Fold(chk, ZEROS[..|s'|]), Pack(s'), s[|s| - 1]);
    }
  }

  lemma {:induction false} PackInjective(s: seq<Byte>, t: seq<Byte>)
    requires Symbols(s) && Symbols(t) && |s| == |t| && Pack(s) == Pack(t)
    ensures s == t
    decreases |s|
  {
    if s != [] {
      var n := |s| - 1;
      PackInjective(s[..n], t[..n]);
      assert s == s[..n] + [s[n]] && t == t[..n] + [t[n]];
    }
  }

  /** The six base-32 digits of a register. */
  function Digits(m: nat): (d: seq<Byte>)
    ensures |d| == 6 && Symbols(d)
  {
    [m / 0x200_0000 % 32, m / 0x10_0000 % 32, m / 0x8000 % 32, m / 0x400 % 32, m / 0x20 % 32, m % 32]
  }

  lemma PackDigits(m: nat)
    requires m < WIDTH
    ensures Pack(Digits(m)) == m
  {
    var d := Digits(m);
    var a, b, c, e, f := m / 0x20, m / 0x400, m / 0x8000, m / 0x10_0000, m / 0x200_0000;
    assert b == a / 32 && c == b / 32 && e == c / 32 && f == e / 32 && f < 32;
    assert d[..5] == [f % 32, e % 32, c % 32, b % 32, a % 32];
    assert d[..5][..4] == [f % 32, e % 32, c % 32, b % 32];
    assert d[..5][..4][..3] == [f % 32, e % 32, c % 32];
    assert d[..5][..4][..3][..2] == [f % 32, e % 32];
    assert d[..5][..4][..3][..2][..1] == [f % 32];
    assert Pack([f % 32]) == f;
    assert Pack([f % 32, e % 32]) == e;
    assert Pack([f % 32, e % 32, c % 32]) == c;
    assert Pack([f % 32, e % 32, c % 32, b % 32]) == b;
    assert Pack([f % 32, e % 32, c % 32, b % 32, a % 32]) == a;
  }

  // ---------- checksums of human-readable parts and data ----------

  function HrpExpand(hrp: string): seq<Byte>
    requires IsAscii(hrp)
  {
    var h := ToLower(hrp);
    seq(|h|, i requires 0 <= i < |h| => h[i] as int / 32) + [0] + seq(|h|, i requires 0 <= i < |h| => h[i] as int % 32)
  }

  predicate Verifies(hrp: string, data: seq<Byte>)
    requires IsAscii(hrp)
  {
    Fold(1, HrpExpand(hrp) + data) == 1
  }

  function Checksum(hrp: string, data: seq<Byte>): (c: seq<Byte>)
    requires IsAscii(hrp)
    ensures |c| == 6 && Symbols(c)
  {
    Digits(Xor(Fold(1, HrpExpand(hrp) + data + ZEROS), 1))
  }

  method ExpandHrp(hrp: string) returns (ret: seq<Byte>)
    requires IsAscii(hrp)
    ensures ret == HrpExpand(hrp)
  {
    var h := ToLower(hrp);
    ret := [];
    for i := 0 to |h|
      invariant ret == seq(i, j requires 0 <= j < i => h[j] as int / 32)
    {
      ret := ret + [h[i] as int / 32];
    }
    ret := ret + [0];
    ghost var high := ret;
    for i := 0 to |h|
      invariant ret == high + seq(i, j requires 0 <= j < i => h[j] as int % 32)
    {
      ret := ret + [h[i] as int % 32];
    }
  }

  /** High parts in front of a zero, low parts behind it: together they spell the lower-case characters. */
  lemma HrpExpanded(hrp: string, i: nat)
    requires IsAscii(hrp) && i < |hrp|
    ensures var (e, n) := (HrpExpand(hrp), |hrp|);
            && |e| == 2 * n + 1 && e[n] == 0 && e[n + 1 + i] < 32
            && 32 * e[i] + e[n + 1 + i] == hrp[i] as int + (if 'A' <= hrp[i] <= 'Z' then 32 else 0)
  {
  }

  method VerifyChecksum(hrp: string, data: seq<Byte>) returns (ok: bool)
    requires IsAscii(hrp)
    ensures ok == Verifies(hrp, data)
  {
    var expanded := ExpandHrp(hrp);
    var chk := Polymod(expanded + data);
    ok := chk == 1;
  }

  method CreateChecksum(hrp: string, data: seq<Byte>) returns (ret: seq<Byte>)
    requires IsAscii(hrp)
    ensures ret == Checksum(hrp, data)
  {
    var expanded := ExpandHrp(hrp);
    var chk := Polymod(expanded + data + ZEROS);
    var mod := Xor(chk, 1);
    var buf := new Byte[6](_ => 0);
    for p := 0 to 6
      invariant forall j :: 0 <= j < p ==> buf[j] == Digits(mod)[j]
    {
      var shift := 5 * (5 - p);
      DigitAt(mod, p);
      buf[p] := Shr(mod, shift) % 256 % 32;
    }
    ret := buf[..];
    assert ret == Digits(mod);
  }

  lemma DigitAt(m: nat, p: nat)
    requires p < 6
    ensures Shr(m, 5 * (5 - p)) % 256 % 32 == Digits(m)[p]
  {
    var k := 5 * (5 - p);
    ShrByFive(m, k / 5);
    assert Shr(m, k) % 256 % 32 == Shr(m, k) % 32;
  }

  lemma ShrByFive(m: nat, n: nat)
    requires n <= 5
    ensures Shr(m, 5 * n) == m / [1, 0x20, 0x400, 0x8000, 0x10_0000, 0x200_0000][n]
  {
    if n > 0 {
      ShrByFive(m, n - 1);
      ShrStep(m, 5 * n - 5);
      ShrStep(m, 5 * n - 4);
      ShrStep(m, 5 * n - 3);
      ShrStep(m, 5 * n - 2);
      ShrStep(m, 5 * n - 1);
    }
  }

  /** Exactly one suffix of six symbols makes the data verify, and it is the one created. */
  lemma ChecksumUnique(hrp: string, data: seq<Byte>, suffix: seq<Byte>)
    requires IsAscii(hrp) && |suffix| == 6 && Symbols(suffix)
    ensures Verifies(hrp, data + suffix) <==> suffix == Checksum(hrp, data)
  {
    hide Xor, Step;
    var e := HrpExpand(hrp) + data;
    var chk := Fold(1, e);
    assert HrpExpand(hrp) + (data + suffix) == e + suffix;
    FoldConcat(1, e, suffix);
    FoldConcat(1, e, ZEROS);
    assert ZEROS[..6] == ZEROS;
    FoldSymbols(chk, suffix);
    var zero := Fold(chk, ZEROS);
    FoldBound(1, e + ZEROS);
    XorBound30(zero, 1);
    PackDigits(Xor(zero, 1));
    XorUndo(zero, 1);
    if Xor(zero, Pack(suffix)) == 1 {
      XorCancel(zero, Pack(suffix), Xor(zero, 1));
      PackInjective(suffix, Digits(Xor(zero, 1)));
    }
  }

  /** Two windows of up to six symbols that lead to the same register are the same window. */
  lemma WindowInjective(chk: nat, u: seq<Byte>, v: seq<Byte>, z: seq<Byte>)
    requires chk < WIDTH && |u| == |v| <= 6 && Symbols(u) && Symbols(v)
    requires Fold(chk, u + z) == Fold(chk, v + z)
    ensures u == v
  {
    hide Xor, Step;
    FoldConcat(chk, u, z);
    FoldConcat(chk, v, z);
    FoldBound(chk, u);
    FoldBound(chk, v);
    FoldInjective(Fold(chk, u), Fold(chk, v), z);
    FoldSymbols(chk, u);
    FoldSymbols(chk, v);
    XorCancel(Fold(chk, ZEROS[..|u|]), Pack(u), Pack(v));
    PackInjective(u, v);
  }

  lemma Cut(s: seq<Byte>, lo: nat, hi: nat)
    requires lo <= hi <= |s|
    ensures s == s[..lo] + (s[lo..hi] + s[hi..])
  {
  }

  lemma ConcatAssoc(a: seq<Byte>, b: seq<Byte>, c: seq<Byte>)
    ensures a + (b + c) == (a + b) + c
  {
  }

  /** Two data parts that both verify cannot differ only within six adjacent symbols. */
  lemma BurstDetected(hrp: string, x: seq<Byte>, y: seq<Byte>, i: nat)
    requires IsAscii(hrp) && Symbols(x) && Symbols(y) && |x| == |y|
    requires forall j :: 0 <= j < |x| && !(i <= j < i + 6) ==> x[j] == y[j]
    requires Verifies(hrp, x) && Verifies(hrp, y)
    ensures x == y
  {
    hide Fold, HrpExpand;
    var lo := if i <= |x| then i else |x|;
    var hi := if i + 6 <= |x| then i + 6 else |x|;
    var p, u, v, z := x[..lo], x[lo..hi], y[lo..hi], x[hi..];
    assert p == y[..lo] && z == y[hi..];
    Cut(x, lo, hi);
    Cut(y, lo, hi);
    var e := HrpExpand(hrp) + p;
    ConcatAssoc(HrpExpand(hrp), p, u + z);
    ConcatAssoc(HrpExpand(hrp), p, v + z);
    FoldConcat(1, e, u + z);
    FoldConcat(1, e, v + z);
    FoldBound(1, e);
    WindowInjective(Fold(1, e), u, v, z);
  }
}
