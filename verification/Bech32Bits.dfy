/** `convertBits`: regrouping the bits of a byte sequence, specified on bit strings. */
module Bech32Bits {
  import opened Words
  import opened Wrappers

  const UINT32: nat := 0x1_0000_0000

  datatype BitsError = InvalidRange(index: nat) | IllegalZeroPadding | NonZeroPadding

  // ---------- bit strings, most significant bit first ----------

  function BitsOf(v: nat, w: nat): (b: seq<bool>)
    ensures |b| == w
  {
    if w == 0 then [] else BitsOf(v / 2, w - 1) + [v % 2 == 1]
  }

  function ValueOf(b: seq<bool>): nat {
    if b == [] then 0 else 2 * ValueOf(b[..|b| - 1]) + (if b[|b| - 1] then 1 else 0)
  }

  /** The bits of all elements of `s`, each `w` bits wide. */
  function Bits(s: seq<Byte>, w: nat): seq<bool> {
    if s == [] then [] else Bits(s[..|s| - 1], w) + BitsOf(s[|s| - 1], w)
  }

  /** The elements `w` bits wide whose bits are `b`. */
  function Chunks(b: seq<bool>, w: nat): seq<Byte>
    requires 0 < w <= 8
  {
    if |b| < w then []
    else
      ValueBound(b[|b| - w..]);
      Chunks(b[..|b| - w], w) + [ValueOf(b[|b| - w..])]
  }

  function Zeros(n: nat): seq<bool> {
    seq(n, _ => false)
  }

  predicate Fits(s: seq<Byte>, w: nat) {
    forall i :: 0 <= i < |s| ==> Shr(s[i], w) == 0
  }

  lemma {:induction false} ValueBound(b: seq<bool>)
    requires |b| <= 8
    ensures ValueOf(b) < 256
    ensures |b| <= 7 ==> ValueOf(b) < 128
    ensures |b| <= 6 ==> ValueOf(b) < 64
    ensures |b| <= 5 ==> ValueOf(b) < 32
    ensures |b| <= 4 ==> ValueOf(b) < 16
    ensures |b| <= 3 ==> ValueOf(b) < 8
    ensures |b| <= 2 ==> ValueOf(b) < 4
    ensures |b| <= 1 ==> ValueOf(b) < 2
    ensures |b| == 0 ==> ValueOf(b) == 0
  {
    if b != [] { ValueBound(b[..|b| - 1]); }
  }

  lemma {:induction false} BitsOfValue(b: seq<bool>)
    ensures BitsOf(ValueOf(b), |b|) == b
    ensures Shr(ValueOf(b), |b|) == 0
    decreases |b|
  {
    if b != [] {
      BitsOfValue(b[..|b| - 1]);
      assert b == b[..|b| - 1] + [b[|b| - 1]];
    }
  }

  lemma {:induction false} ValueOfBits(v: nat, w: nat)
    requires Shr(v, w) == 0
    ensures ValueOf(BitsOf(v, w)) == v
    decreases w
  {
    if w > 0 {
      ValueOfBits(v / 2, w - 1);
      var b := BitsOf(v, w);
      assert b[..|b| - 1] == BitsOf(v / 2, w - 1);
    }
  }

  lemma {:induction false} BitsLength(s: seq<Byte>, w: nat)
    ensures |Bits(s, w)| == |s| * w
    decreases |s|
  {
    if s != [] {
      BitsLength(s[..|s| - 1], w);
      assert |s| * w == (|s| - 1) * w + w;
    }
  }

  lemma {:induction false} ChunksOfBits(s: seq<Byte>, w: nat)
    requires 0 < w <= 8 && Fits(s, w)
    ensures Chunks(Bits(s, w), w) == s
    decreases |s|
  {
    hide BitsOf, ValueOf, Shr;
    if s != [] {
      var n := |s| - 1;
      ChunksOfBits(s[..n], w);
      ValueOfBits(s[n], w);
      ChunkLast(Bits(s[..n], w), BitsOf(s[n], w), w);
      assert s == s[..n] + [s[n]];
    }
  }

  lemma ChunkLast(b: seq<bool>, last: seq<bool>, w: nat)
    requires 0 < w <= 8 && |last| == w
    ensures ValueOf(last) < 256
    ensures Chunks(b + last, w) == Chunks(b, w) + [ValueOf(last)]
  {
    hide ValueOf;
    ValueBound(last);
    var all := b + last;
    assert all[..|all| - w] == b && all[|all| - w..] == last;
  }

  lemma {:induction false} BitsOfChunks(b: seq<bool>, w: nat, n: nat)
    requires 0 < w <= 8 && |b| == n * w
    ensures Bits(Chunks(b, w), w) == b && Fits(Chunks(b, w), w)
    decreases n
  {
    hide *;
    if n == 0 {
      NoChunks(w);
    } else {
      OneLess(n, w);
      var b', last := b[..|b| - w], b[|b| - w..];
      assert b == b' + last;
      BitsOfChunks(b', w, n - 1);
      ChunkLast(b', last, w);
      BitsOfValue(last);
      AppendGroup(Chunks(b', w), ValueOf(last), w);
    }
  }

  lemma NoChunks(w: nat)
    requires 0 < w <= 8
    ensures Chunks([], w) == [] && Bits([], w) == [] && Fits([], w)
  {
  }

  lemma OneLess(n: nat, w: nat)
    requires n > 0
    ensures n * w == (n - 1) * w + w && n * w >= w
  {
  }

  lemma AppendGroup(s: seq<Byte>, v: Byte, w: nat)
    requires Fits(s, w) && Shr(v, w) == 0
    ensures Bits(s + [v], w) == Bits(s, w) + BitsOf(v, w) && Fits(s + [v], w)
  {
    assert (s + [v])[..|s|] == s;
  }

  // ---------- what convertBits computes ----------

  /** Index of the first element wider than `w` bits. */
  function TooWide(data: seq<Byte>, w: nat): (r: Option<nat>)
    ensures r.None? <==> Fits(data, w)
    ensures r.Some? ==> r.value < |data| && Shr(data[r.value], w) != 0 && Fits(data[..r.value], w)
  {
    if data == [] then None
    else
      var n := |data| - 1;
      assert data == data[..n] + [data[n]];
      match TooWide(data[..n], w)
      case Some(i) => assert data[..n][..i] == data[..i]; Some(i)
      case None => if Shr(data[n], w) != 0 then Some(n) else None
  }

  /**
   * The bits of the input, regrouped. With padding the last group is filled up with zeros;
   * without it, at most an incomplete group of zeros is dropped.
   */
  function Regroup(data: seq<Byte>, from: nat, to: nat, pad: bool): Result<seq<Byte>, BitsError>
    requires 0 < from <= 8 && 0 < to <= 8
  {
    var bits := Bits(data, from);
    var n := |bits| % to;
    if TooWide(data, from).Some? then Err(InvalidRange(TooWide(data, from).value))
    else if pad then Ok(Chunks(bits + Zeros(if n > 0 then to - n else 0), to))
    else if n >= from then Err(IllegalZeroPadding)
    else if bits[|bits| - n..] != Zeros(n) then Err(NonZeroPadding)
    else Ok(Chunks(bits[..|bits| - n], to))
  }

  // ---------- round trips ----------

  lemma DropsZeros(x: seq<Byte>, kept: seq<bool>, n: nat)
    requires Fits(x, 5) && Bits(x, 5) == kept + Zeros(n) && |kept| % 8 == 0 && n < 5
    ensures Regroup(x, 5, 8, false) == Ok(Chunks(kept, 8))
  {
    hide Bits, Chunks, Fits;
    var bits := Bits(x, 5);
    assert |bits| % 8 == n;
    assert bits[|bits| - n..] == Zeros(n) && bits[..|bits| - n] == kept;
  }

  lemma AddsZeros(y: seq<Byte>, n: nat)
    requires n < 5 && (|Bits(y, 8)| + n) % 5 == 0
    ensures Regroup(y, 8, 5, true) == Ok(Chunks(Bits(y, 8) + Zeros(n), 5))
  {
    hide Bits, Chunks, Fits;
    ByteFits(y);
    var m := |Bits(y, 8)| % 5;
    assert n == if m > 0 then 5 - m else 0;
  }

  /** Eight to five bits with padding, then five to eight without, is the identity. */
  lemma RegroupRoundTrip(data: seq<Byte>)
    ensures Regroup(data, 8, 5, true).Ok?
    ensures Fits(Regroup(data, 8, 5, true).value, 5)
    ensures Regroup(Regroup(data, 8, 5, true).value, 5, 8, false) == Ok(data)
  {
    hide *;
    var bits := Bits(data, 8);
    BitsLength(data, 8);
    var n := (5 - |bits| % 5) % 5;
    FillUp(|bits|, n);
    ZerosLength(n);
    AddsZeros(data, n);
    BitsOfChunks(bits + Zeros(n), 5, (|bits| + n) / 5);
    DropsZeros(Chunks(bits + Zeros(n), 5), bits, n);
    ByteFits(data);
    ChunksOfBits(data, 8);
  }

  lemma FillUp(k: nat, n: nat)
    requires n == (5 - k % 5) % 5
    ensures n < 5 && (k + n) % 5 == 0 && k + n == (k + n) / 5 * 5
  {
  }

  lemma ZerosLength(n: nat)
    ensures |Zeros(n)| == n
  {
  }

  /** What five to eight bits without padding accepts, eight to five with padding gives back. */
  lemma RegroupCanonical(x: seq<Byte>)
    requires Regroup(x, 5, 8, false).Ok?
    ensures Regroup(Regroup(x, 5, 8, false).value, 8, 5, true) == Ok(x)
  {
    hide Bits, Chunks, Fits;
    var bits := Bits(x, 5);
    BitsLength(x, 5);
    var n := |bits| % 8;
    var kept := bits[..|bits| - n];
    BitsOfChunks(kept, 8, |bits| / 8);
    assert bits == kept + Zeros(n);
    AddsZeros(Chunks(kept, 8), n);
    ChunksOfBits(x, 5);
  }

  lemma ByteFits(data: seq<Byte>)
    ensures Fits(data, 8)
  {
    forall i | 0 <= i < |data|
      ensures Shr(data[i], 8) == 0
    {
      var v := data[i];
      ShrStep(v, 7);
      ShrStep(v, 6);
      ShrStep(v, 5);
      ShrStep(v, 4);
      ShrStep(v, 3);
      ShrStep(v, 2);
      ShrStep(v, 1);
    }
  }

  // ---------- regrouping keeps the number ----------

  /** The number whose digits in base two to the `w` are `s`. */
  function Number(s: seq<Byte>, w: nat): nat {
    if s == [] then 0 else Shl(Number(s[..|s| - 1], w), w) + s[|s| - 1]
  }

  lemma {:induction false} ValueConcat(a: seq<bool>, b: seq<bool>)
    ensures ValueOf(a + b) == Shl(ValueOf(a), |b|) + ValueOf(b)
    decreases |b|
  {
    if b == [] {
      assert a + b == a;
    } else {
      var b' := b[..|b| - 1];
      ValueConcat(a, b');
      assert (a + b)[..|a + b| - 1] == a + b';
    }
  }

  lemma {:induction false} NumberOfBits(s: seq<Byte>, w: nat)
    requires Fits(s, w)
    ensures Number(s, w) == ValueOf(Bits(s, w))
    decreases |s|
  {
    hide BitsOf, ValueOf, Shr, Shl;
    if s == [] {
      NoValue();
    } else {
      var n := |s| - 1;
      NumberOfBits(s[..n], w);
      ValueConcat(Bits(s[..n], w), BitsOf(s[n], w));
      ValueOfBits(s[n], w);
    }
  }

  lemma NoValue()
    ensures ValueOf([]) == 0
  {
  }

  lemma Divides(n: nat, d: nat)
    requires d > 0 && n % d == 0
    ensures n == n / d * d
  {
  }

  lemma ChunksNumber(b: seq<bool>, w: nat)
    requires 0 < w <= 8 && |b| % w == 0
    ensures Fits(Chunks(b, w), w) && |Chunks(b, w)| * w == |b| && Number(Chunks(b, w), w) == ValueOf(b)
  {
    hide *;
    Divides(|b|, w);
    BitsOfChunks(b, w, |b| / w);
    BitsLength(Chunks(b, w), w);
    NumberOfBits(Chunks(b, w), w);
  }

  /** The bits that are regrouped: `k` zeros more or less than those of the input. */
  lemma KeptBits(data: seq<Byte>, from: nat, to: nat, pad: bool) returns (kept: seq<bool>, k: nat)
    requires 0 < from <= 8 && 0 < to <= 8 && Regroup(data, from, to, pad).Ok?
    ensures Regroup(data, from, to, pad).value == Chunks(kept, to) && |kept| % to == 0
    ensures Fits(data, from) && k < to && |Bits(data, from)| == |data| * from
    ensures if pad then kept == Bits(data, from) + Zeros(k)
            else k < from && Bits(data, from) == kept + Zeros(k) && k == |Bits(data, from)| % to
  {
    hide Bits, Chunks, Fits;
    var bits := Bits(data, from);
    var n := |bits| % to;
    BitsLength(data, from);
    k := if pad && n > 0 then to - n else if pad then 0 else n;
    PadsOrDrops(|bits|, to, pad, k);
    ZerosLength(k);
    kept := if pad then bits + Zeros(k) else bits[..|bits| - n];
  }

  /**
   * With padding, the input read as one number in base `2^from` and the output in base `2^to`
   * are the same but for the `k` zero bits added; without padding, but for the `k` zero bits
   * dropped. Fewer than a whole group are added or dropped.
   */
  lemma RegroupKeepsNumber(data: seq<Byte>, from: nat, to: nat, pad: bool) returns (k: nat)
    requires 0 < from <= 8 && 0 < to <= 8 && Regroup(data, from, to, pad).Ok?
    ensures var out := Regroup(data, from, to, pad).value;
            && Fits(out, to) && k < to
            && if pad then |out| * to == |data| * from + k && Number(out, to) == Shl(Number(data, from), k)
               else k < from && |data| * from == |out| * to + k && Number(data, from) == Shl(Number(out, to), k)
  {
    hide *;
    var kept;
    kept, k := KeptBits(data, from, to, pad);
    ChunksNumber(kept, to);
    NumberOfBits(data, from);
    ZerosLength(k);
    ZeroValue(k);
    ValueConcat(if pad then Bits(data, from) else kept, Zeros(k));
  }

  lemma PadsOrDrops(len: nat, to: nat, pad: bool, k: nat)
    requires to > 0 && k == if pad && len % to > 0 then to - len % to else if pad then 0 else len % to
    ensures k < to && k <= (if pad then to else len) && (if pad then len + k else len - k) % to == 0
  {
    var q, r := len / to, len % to;
    assert len == to * q + r;
    if pad {
      if r > 0 { MultipleOf(len + k, q + 1, to); } else { MultipleOf(len, q, to); }
    } else {
      MultipleOf(len - k, q, to);
    }
  }

  lemma MultipleOf(n: nat, q: nat, d: nat)
    requires d > 0 && n == d * q
    ensures n % d == 0
  {
    DivModUnique(n, d, q, 0);
  }

  lemma {:induction false} NothingBelow(y: nat, v: nat, t: nat, n: nat)
    requires Shl(y, n) == Shl(v, n) + t && Shr(t, n) == 0
    ensures t == 0
    decreases n
  {
    if n > 0 {
      assert t == 2 * (t / 2);
      NothingBelow(y, v, t / 2, n - 1);
    }
  }

  lemma TailIsZero(data: seq<Byte>, from: nat, n: nat, y: nat)
    requires Fits(data, from) && n <= |Bits(data, from)| && Shl(y, n) == Number(data, from)
    ensures var bits := Bits(data, from); bits[|bits| - n..] == Zeros(n)
  {
    hide Bits, ValueOf, Fits, Number, Shl, Shr;
    var bits := Bits(data, from);
    var head, tail := bits[..|bits| - n], bits[|bits| - n..];
    assert bits == head + tail;
    NumberOfBits(data, from);
    ValueConcat(head, tail);
    BitsOfValue(tail);
    NothingBelow(y, ValueOf(head), ValueOf(tail), n);
    ZeroBits(n);
  }

  /** The left-over bits when the input is regrouped. */
  function LeftOver(data: seq<Byte>, from: nat, to: nat): nat
    requires to > 0
  {
    |data| * from % to
  }

  lemma AcceptedIsMultiple(data: seq<Byte>, from: nat, to: nat)
    requires 0 < from <= 8 && 0 < to <= 8 && Regroup(data, from, to, false).Ok?
    ensures Fits(data, from) && LeftOver(data, from, to) < from
    ensures exists y :: Shl(y, LeftOver(data, from, to)) == Number(data, from)
  {
    var kept, k := KeptBits(data, from, to, false);
    assert k == LeftOver(data, from, to);
    hide *;
    NumberOfBits(data, from);
    ZerosLength(k);
    ZeroValue(k);
    ValueConcat(kept, Zeros(k));
    assert Shl(ValueOf(kept), k) == Number(data, from);
  }

  lemma MultipleIsAccepted(data: seq<Byte>, from: nat, to: nat, y: nat)
    requires 0 < from <= 8 && 0 < to <= 8
    requires Fits(data, from) && LeftOver(data, from, to) < from
    requires Shl(y, LeftOver(data, from, to)) == Number(data, from)
    ensures Regroup(data, from, to, false).Ok?
  {
    hide Bits, Chunks, Fits, Zeros, Number, Shl;
    BitsLength(data, from);
    TailIsZero(data, from, LeftOver(data, from, to), y);
  }

  /** Without padding exactly those inputs are accepted whose left-over bits are too few for a value, and zero. */
  lemma AcceptsExactly(data: seq<Byte>, from: nat, to: nat)
    requires 0 < from <= 8 && 0 < to <= 8
    ensures Regroup(data, from, to, false).Ok? <==>
            && Fits(data, from) && LeftOver(data, from, to) < from
            && exists y :: Shl(y, LeftOver(data, from, to)) == Number(data, from)
  {
    hide Regroup, Fits, Number, Shl, LeftOver;
    if Regroup(data, from, to, false).Ok? {
      AcceptedIsMultiple(data, from, to);
    } else if Fits(data, from) && LeftOver(data, from, to) < from {
      forall y | Shl(y, LeftOver(data, from, to)) == Number(data, from)
        ensures false
      {
        MultipleIsAccepted(data, from, to, y);
      }
    }
  }

  // ---------- the accumulator of convertBits ----------

  /** Shifting left makes room for a value that fits. */
  lemma {:induction false} ShlBits(x: nat, v: nat, n: nat, k: nat)
    requires Shr(v, k) == 0
    ensures BitsOf(Shl(x, k) + v, n + k) == BitsOf(x, n) + BitsOf(v, k)
    decreases k
  {
    if k > 0 {
      ShlBits(x, v / 2, n, k - 1);
      assert (Shl(x, k) + v) / 2 == Shl(x, k - 1) + v / 2;
    }
  }

  lemma {:induction false} ShrBits(x: nat, n: nat, k: nat)
    ensures BitsOf(x, n + k) == BitsOf(Shr(x, k), n) + BitsOf(x, k)
    decreases k
  {
    if k > 0 {
      ShrBits(x / 2, n, k - 1);
      assert BitsOf(x, n + k) == BitsOf(x / 2, n + k - 1) + [x % 2 == 1];
    }
  }

  lemma {:induction false} MaskBits(x: nat, w: nat)
    ensures BitsOf(Mask(x, w), w) == BitsOf(x, w) && Shr(Mask(x, w), w) == 0
    decreases w
  {
    if w > 0 { MaskBits(x / 2, w - 1); }
  }

  lemma {:induction false} HighBits(q: nat, r: nat, k: nat, w: nat)
    requires w <= k
    ensures BitsOf(Shl(q, k) + r, w) == BitsOf(r, w)
    decreases w
  {
    if w > 0 {
      HighBits(q, r / 2, k - 1, w - 1);
      assert (Shl(q, k) + r) / 2 == Shl(q, k - 1) + r / 2;
    }
  }

  lemma {:induction false} ShlAdd(q: nat, j: nat, k: nat)
    ensures Shl(q, j + k) == Shl(Shl(q, j), k)
  {
    if k > 0 { ShlAdd(q, j, k - 1); }
  }

  lemma Shl8(q: nat)
    ensures Shl(q, 8) == 256 * q
  {
    assert Shl(q, 4) == 2 * Shl(q, 3) == 4 * Shl(q, 2) == 8 * Shl(q, 1) == 16 * q;
    assert Shl(q, 8) == 2 * Shl(q, 7) == 4 * Shl(q, 6) == 8 * Shl(q, 5) == 16 * Shl(q, 4);
  }

  lemma Shl32(q: nat)
    ensures Shl(q, 32) == UINT32 * q
  {
    hide Shl;
    ShlAdd(q, 8, 8);
    ShlAdd(q, 16, 8);
    ShlAdd(q, 24, 8);
    Shl8(q);
    Shl8(256 * q);
    Shl8(0x1_0000 * q);
    Shl8(0x100_0000 * q);
  }

  /** Truncation to a byte or to 32 bits keeps the low bits. */
  lemma TruncateBits(x: nat, w: nat)
    ensures w <= 8 ==> BitsOf(x % 256, w) == BitsOf(x, w)
    ensures w <= 32 ==> BitsOf(x % UINT32, w) == BitsOf(x, w)
  {
    hide Shl, BitsOf;
    if w <= 8 {
      Shl8(x / 256);
      HighBits(x / 256, x % 256, 8, w);
    }
    if w <= 32 {
      Shl32(x / UINT32);
      HighBits(x / UINT32, x % UINT32, 32, w);
    }
  }

  /** The 32-bit accumulator after taking in a value of `from` bits. */
  function Accumulate(acc: nat, value: Byte, from: nat): nat {
    Or(Shl(acc, from) % UINT32, value)
  }

  /** Or-ing a value of `k` bits into a word that ends in `k` zero bits puts it in their place. */
  lemma {:induction false} OrBits(x: nat, v: nat, n: nat, k: nat, high: seq<bool>)
    requires BitsOf(x, n + k) == high + Zeros(k) && |high| == n && Shr(v, k) == 0
    ensures BitsOf(Or(x, v), n + k) == high + BitsOf(v, k)
    decreases k
  {
    if k == 0 {
      OrZero(x);
    } else {
      assert Or(x, v) / 2 == Or(x / 2, v / 2);
      assert BitsOf(x / 2, n + k - 1) == BitsOf(x, n + k)[..n + k - 1] == high + Zeros(k - 1);
      assert BitsOf(x, n + k)[n + k - 1] == false;
      OrBits(x / 2, v / 2, n, k - 1, high);
    }
  }

  /** The `to` bits above the `bits` lowest ones, by way of a byte. */
  function Group(acc: nat, bits: nat, to: nat): Byte {
    Mask(Shr(acc, bits) % 256, to)
  }

  /** The `bits` lowest bits, moved to the top of a group of `to`. */
  function FillGroup(acc: nat, bits: nat, to: nat): Byte
    requires bits <= to
  {
    Mask(Shl(acc, to - bits) % UINT32 % 256, to)
  }

  /** The group emitted from `acc` when `bits` bits stay pending. */
  lemma EmitBits(acc: nat, bits: nat, to: nat)
    requires to <= 8
    ensures var v := Group(acc, bits, to);
            BitsOf(acc, bits + to) == BitsOf(v, to) + BitsOf(acc, bits) && Shr(v, to) == 0
  {
    ShrBits(acc, to, bits);
    MaskBits(Shr(acc, bits) % 256, to);
    TruncateBits(Shr(acc, bits), to);
  }

  /** The last group: the pending bits moved to the top of it. */
  lemma LastGroup(acc: nat, bits: nat, to: nat)
    requires bits < to <= 8
    ensures var v := FillGroup(acc, bits, to);
            BitsOf(v, to) == BitsOf(acc, bits) + Zeros(to - bits) && Shr(v, to) == 0
  {
    var k := to - bits;
    var x := Shl(acc, k);
    MaskBits(x % UINT32 % 256, to);
    TruncateBits(x % UINT32, to);
    TruncateBits(x, to);
    ShrZero(k);
    ShlBits(acc, 0, bits, k);
    ZeroBits(k);
  }

  lemma {:induction false} ZeroBits(w: nat)
    ensures BitsOf(0, w) == Zeros(w)
  {
    if w > 0 { ZeroBits(w - 1); }
  }

  /** The pending bits are what a division by the group size leaves. */
  lemma Pending(s: seq<Byte>, pending: seq<bool>, w: nat)
    requires 0 < w && |pending| < w
    ensures |Bits(s, w) + pending| % w == |pending|
  {
    BitsLength(s, w);
    DivModUnique(|Bits(s, w) + pending|, w, |s|, |pending|);
  }

  /** The state of the conversion: what is emitted and what is pending is what was read. */
  ghost predicate Regrouped(data: seq<Byte>, from: nat, to: nat, ret: seq<Byte>, acc: nat, bits: nat) {
    Fits(data, from) && Fits(ret, to) && Bits(ret, to) + BitsOf(acc, bits) == Bits(data, from)
  }

  lemma TakesIn(data: seq<Byte>, value: Byte, from: nat, to: nat, ret: seq<Byte>, acc: nat, bits: nat)
    requires from <= 8 && bits < to <= 8 && Regrouped(data, from, to, ret, acc, bits) && Shr(value, from) == 0
    ensures Regrouped(data + [value], from, to, ret, Accumulate(acc, value, from), bits + from)
  {
    hide Bits, BitsOf, Shl, Shr, Fits;
    AppendGroup(data, value, from);
    ShrZero(from);
    ShlBits(acc, 0, bits, from);
    ZeroBits(from);
    TruncateBits(Shl(acc, from), bits + from);
    OrBits(Shl(acc, from) % UINT32, value, bits, from, BitsOf(acc, bits));
  }

  lemma Emits(data: seq<Byte>, from: nat, to: nat, ret: seq<Byte>, acc: nat, bits: nat)
    requires to <= 8 && Regrouped(data, from, to, ret, acc, bits + to)
    ensures Regrouped(data, from, to, ret + [Group(acc, bits, to)], acc, bits)
  {
    hide Bits, BitsOf, Group, Fits;
    EmitBits(acc, bits, to);
    AppendGroup(ret, Group(acc, bits, to), to);
  }

  lemma FinishesPadded(data: seq<Byte>, from: nat, to: nat, ret: seq<Byte>, acc: nat, bits: nat)
    requires 0 < from <= 8 && bits < to <= 8 && Regrouped(data, from, to, ret, acc, bits)
    ensures var last := FillGroup(acc, bits, to);
            Regroup(data, from, to, true) == Ok(if bits > 0 then ret + [last] else ret)
  {
    hide Bits, BitsOf, FillGroup, Fits, Chunks;
    Pending(ret, BitsOf(acc, bits), to);
    if bits > 0 {
      var last := FillGroup(acc, bits, to);
      LastGroup(acc, bits, to);
      AppendGroup(ret, last, to);
      assert Bits(data, from) + Zeros(to - bits) == Bits(ret + [last], to);
      ChunksOfBits(ret + [last], to);
    } else {
      assert Bits(data, from) + Zeros(0) == Bits(ret, to);
      ChunksOfBits(ret, to);
    }
  }

  lemma FinishesUnpadded(data: seq<Byte>, from: nat, to: nat, ret: seq<Byte>, acc: nat, bits: nat)
    requires 0 < from <= 8 && bits < to <= 8 && Regrouped(data, from, to, ret, acc, bits)
    ensures var last := FillGroup(acc, bits, to);
            Regroup(data, from, to, false) ==
            if bits >= from then Err(IllegalZeroPadding) else if last != 0 then Err(NonZeroPadding) else Ok(ret)
  {
    hide Bits, BitsOf, FillGroup, Fits, Chunks;
    var last := FillGroup(acc, bits, to);
    var all := Bits(data, from);
    Pending(ret, BitsOf(acc, bits), to);
    LastGroup(acc, bits, to);
    assert all[|all| - bits..] == BitsOf(acc, bits) && all[..|all| - bits] == Bits(ret, to);
    ValueOfBits(last, to);
    ZeroBits(to);
    ZeroValue(to);
    assert Zeros(bits) + Zeros(to - bits) == Zeros(to);
    assert BitsOf(acc, bits) == (BitsOf(acc, bits) + Zeros(to - bits))[..bits];
    assert Zeros(to)[..bits] == Zeros(bits);
    ChunksOfBits(ret, to);
  }

  lemma ZeroValue(w: nat)
    ensures ValueOf(Zeros(w)) == 0
  {
    if w > 0 {
      ZeroValue(w - 1);
      assert Zeros(w)[..w - 1] == Zeros(w - 1);
    }
  }

  lemma NothingRegrouped(from: nat, to: nat)
    ensures Regrouped([], from, to, [], 0, 0)
  {
  }

  method ConvertBits(data: seq<Byte>, from: nat, to: nat, pad: bool) returns (r: Result<seq<Byte>, BitsError>)
    requires 0 < from <= 8 && 0 < to <= 8
    ensures r == Regroup(data, from, to, pad)
  {
    hide *;
    NothingRegrouped(from, to);
    var ret: seq<Byte> := [];
    var acc: nat := 0;
    var bits: nat := 0;
    ghost var read: seq<Byte> := [];
    for idx := 0 to |data|
      invariant bits < to
      invariant read == data[..idx]
      invariant Regrouped(read, from, to, ret, acc, bits)
    {
      var value := data[idx];
      if Shr(value, from) != 0 {
        RejectsWide(data, from, to, pad, idx, ret, acc, bits);
        return Err(InvalidRange(idx));
      }
      TakesIn(read, value, from, to, ret, acc, bits);
      read := read + [value];
      assert read == data[..idx + 1];
      acc := Accumulate(acc, value, from);
      bits := bits + from;
      while bits >= to
        invariant Regrouped(read, from, to, ret, acc, bits)
        decreases bits
      {
        bits := bits - to;
        Emits(read, from, to, ret, acc, bits);
        ret := ret + [Group(acc, bits, to)];
      }
    }
    assert read == data;
    FinishesPadded(data, from, to, ret, acc, bits);
    FinishesUnpadded(data, from, to, ret, acc, bits);
    if pad {
      if bits > 0 {
        ret := ret + [FillGroup(acc, bits, to)];
      }
    } else if bits >= from {
      return Err(IllegalZeroPadding);
    } else if FillGroup(acc, bits, to) != 0 {
      return Err(NonZeroPadding);
    }
    return Ok(ret);
  }

  lemma RejectsWide(data: seq<Byte>, from: nat, to: nat, pad: bool, i: nat, ret: seq<Byte>, acc: nat, bits: nat)
    requires 0 < from <= 8 && 0 < to <= 8
    requires i < |data| && Regrouped(data[..i], from, to, ret, acc, bits) && Shr(data[i], from) != 0
    ensures Regroup(data, from, to, pad) == Err(InvalidRange(i))
  {
    hide Shr, BitsOf, Bits;
    var j := TooWide(data, from).value;
    if j < i {
      FitsAt(data, from, i, j);
    } else if i < j {
      FitsAt(data, from, j, i);
    }
  }

  lemma FitsAt(data: seq<Byte>, w: nat, n: nat, i: nat)
    requires i < n <= |data| && Fits(data[..n], w)
    ensures Shr(data[i], w) == 0
  {
    assert data[..n][i] == data[i];
  }
}
