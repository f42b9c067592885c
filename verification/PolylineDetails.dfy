/** The polyline format in numbers: which code units a number is written with, and which coordinates the points stand
    for. */
module PolylineDetails {
  import opened Wrappers
  import opened PolylineModel
  import opened PolylineTheorems

  // ---------------------------------------------------------------- powers of ten

  lemma {:induction false} Pow10Next(n: int)
    ensures Pow10(n + 1) == 10.0 * Pow10(n)
  {}

  /** Powers add up: with the first one this says what all of them are. */
  lemma {:induction false} Pow10Sum(m: int, n: int)
    ensures Pow10(0) == 1.0 && Pow10(1) == 10.0 && Pow10(m + n) == Pow10(m) * Pow10(n)
    decreases if m < 0 then -m else m
  {
    hide *;
    Pow10Start();
    if m > 0 {
      Pow10Sum(m - 1, n);
      Pow10Next(m - 1);
      Pow10Next(m - 1 + n);
      TenTimes(Pow10(m - 1), Pow10(n), Pow10(m), Pow10(m - 1 + n), Pow10(m + n));
    } else if m < 0 {
      Pow10Sum(m + 1, n);
      Pow10Next(m);
      Pow10Next(m + n);
      TenTimes(Pow10(m), Pow10(n), Pow10(m + 1), Pow10(m + n), Pow10(m + n + 1));
    } else {
      assert Pow10(m) == 1.0;
    }
  }

  lemma {:induction false} Pow10Start()
    ensures Pow10(0) == 1.0 && Pow10(1) == 10.0
  {
    Pow10Next(0);
  }

  /** One step of both factor and product. */
  lemma {:induction false} TenTimes(a: real, b: real, a': real, p: real, p': real)
    requires a' == 10.0 * a && p' == 10.0 * p
    ensures p == a * b <==> p' == a' * b
  {
    assert a' * b == 10.0 * (a * b);
  }

  /** Without a precision a unit of the lattice is 0.00001 of a degree; with six digits, as for train maps, 0.000001. */
  lemma {:induction false} FactorWrittenOut()
    ensures Factor(None) == 100000.0 && Factor(Some(6)) == 1000000.0 && Factor(Some(0)) == 1.0
  {
    Pow10Next(0);
    Pow10Next(1);
    Pow10Next(2);
    Pow10Next(3);
    Pow10Next(4);
    Pow10Next(5);
  }

  /** The precision is the power of ten. */
  lemma {:induction false} FactorIsPow10(k: int)
    ensures Factor(Some(k)) == Pow10(k) && Factor(None) == Factor(Some(5))
  {}

  /** A decoded coordinate times the factor is its lattice value. */
  lemma {:induction false} DecodedValue(str: seq<CodeUnit>, precision: Option<int>, i: nat)
    requires i < |PointsFrom(str, 0, ORIGIN)|
    ensures var r, l := Decode(str, precision), PointsFrom(str, 0, ORIGIN);
      && |r| == |l|
      && r[i].lat * Factor(precision) == l[i].lat as real && r[i].lng * Factor(precision) == l[i].lng as real
  {
    hide PointsFrom, Pow10;
    var f, l := Factor(precision), PointsFrom(str, 0, ORIGIN);
    assert Decode(str, precision)[i] == Scaled(l[i], f);
    Unscaled(l[i].lat, f);
    Unscaled(l[i].lng, f);
  }

  lemma {:induction false} Unscaled(n: int, f: real)
    requires f > 0.0
    ensures FromLattice(n, f) * f == n as real
  {}

  /** A coordinate that has been encoded without a precision is decoded with an error of at most 0.000005. */
  lemma {:induction false} FiveDigits(ps: seq<LatLng<real>>, i: nat)
    requires DeltasFit(Lattice(ps, 100000.0)) && i < |ps|
    ensures var r := Decode(Encode(ps, None), None);
      && |r| == |ps|
      && -0.000005 <= r[i].lat - ps[i].lat <= 0.000005 && -0.000005 <= r[i].lng - ps[i].lng <= 0.000005
  {
    FactorWrittenOut();
    NoDrift(ps, None, i);
    assert 0.5 / 100000.0 == 0.000005;
    hide Decode, Encode, DeltasFit;
  }

  // ---------------------------------------------------------------- numbers

  /** A number without its last 5 * i bits. */
  function Shifted(c: nat, i: nat): nat {
    if i == 0 then c else Shifted(c / 32, i - 1)
  }

  /** Chunk i of a number: five bits from bit 5 * i on, a sixth one if there are more, and 63 so that it can be read. */
  function ChunkOf(c: nat, i: nat, count: nat): int {
    63 + Shifted(c, i) % 32 + if i + 1 < count then 32 else 0
  }

  function Pow32Of(i: nat): (r: nat)
    ensures r >= 1
  {
    if i == 0 then 1 else 32 * Pow32Of(i - 1)
  }

  /** The chunks of a number, one by one, as few as it takes. */
  lemma {:induction false} ChunksWrittenOut(c: nat)
    ensures var s := Chunks(c); var n := |s|;
      && c < Pow32Of(n) && (n > 1 ==> c >= Pow32Of(n - 1))
      && forall i | 0 <= i < n :: s[i] as int == ChunkOf(c, i, n)
  {
    var s := Chunks(c);
    var n := |s|;
    assert Pow32Of(1) == 32 * Pow32Of(0) == 32;
    ChunksHead(c);
    if c >= 0x20 {
      ChunksWrittenOut(c / 0x20);
      var rest := Chunks(c / 0x20);
      assert s[1..] == rest && n == |rest| + 1;
      hide Chunks;
      assert Pow32Of(n) == 32 * Pow32Of(n - 1);
      if n > 2 { assert Pow32Of(n - 1) == 32 * Pow32Of(n - 2); }
      forall i | 0 <= i < n ensures s[i] as int == ChunkOf(c, i, n) {
        if i > 0 {
          assert s[i] == rest[i - 1];
          assert Shifted(c, i) == Shifted(c / 32, i - 1);
        }
      }
    }
  }

  /** Negative numbers are doubled and inverted, the others doubled: so the last bit tells them apart. */
  lemma {:induction false} ZigzagWrittenOut(d: int)
    requires -0x4000_0000 <= d < 0x4000_0000
    ensures Zigzag(d) == if d < 0 then -2 * d - 1 else 2 * d
  {
    assert Pow2(1) == 2 * Pow2(0) == 2;
  }

  /** What a point adds to the text: the chunks of its latitude's difference to the point before, then its
      longitude's. */
  lemma {:induction false} TextWrittenOut(ps: seq<LatLng<int>>, n: nat)
    requires n < |ps|
    ensures var p, q := ps[n], if n == 0 then LatLng(0, 0) else ps[n - 1];
      TextTo(ps, n + 1) == TextTo(ps, n) + (Chunks(Zigzag(p.lat - q.lat)) + Chunks(Zigzag(p.lng - q.lng)))
    ensures TextTo(ps, 0) == []
  {}

  /** The rounded coordinate: the next integer, and of two the one farther from zero. */
  lemma {:induction false} LatticeWrittenOut(v: real, precision: Option<int>)
    ensures var x, n := v * Factor(precision), ToLattice(v, Factor(precision)) as real;
      if x >= 0.0 then n - 0.5 <= x < n + 0.5 else n - 0.5 < x <= n + 0.5
  {
    hide Pow10;
  }

  /** The example of the format's description: (38.5, -120.2), without a precision, is "_p~iF~ps|U". */
  lemma {:induction false} KnownText()
    ensures TextTo([LatLng(3850000, -12020000)], 1) == [95, 112, 126, 105, 70, 126, 112, 115, 124, 85]
  {
    hide *;
    var ps := [LatLng(3850000, -12020000)];
    TextWrittenOut(ps, 0);
    ZigzagWrittenOut(3850000);
    ZigzagWrittenOut(-12020000);
    KnownChunks();
  }

  lemma {:induction false} KnownRounding()
    ensures ToLattice(38.5, Factor(None)) == 3850000 && ToLattice(-120.2, Factor(None)) == -12020000
  {
    FactorWrittenOut();
    hide Factor;
  }

  lemma {:induction false} KnownChunks()
    ensures Chunks(7700000) == [95, 112, 126, 105, 70] && Chunks(24039999) == [126, 112, 115, 124, 85]
  {
    assert Chunks(7) == [70] && Chunks(22) == [85];
    assert Chunks(234) == [105] + Chunks(7);
    assert Chunks(7519) == [126] + Chunks(234);
    assert Chunks(240625) == [112] + Chunks(7519);
    assert Chunks(7700000) == [95] + Chunks(240625);
    assert Chunks(733) == [124] + Chunks(22);
    assert Chunks(23476) == [115] + Chunks(733);
    assert Chunks(751249) == [112] + Chunks(23476);
    assert Chunks(24039999) == [126] + Chunks(751249);
  }

  // ---------------------------------------------------------------- reading, bit by bit

  predicate BitOf(x: nat, k: nat) {
    if k == 0 then x % 2 == 1 else BitOf(x / 2, k - 1)
  }

  /** Bit k of a 32-bit number, the sign being bit 31. */
  predicate HasBit(x: int, k: nat) {
    BitOf(if x < 0 then x % 0x1_0000_0000 else x, k)
  }

  lemma {:induction false} NoBits(k: nat)
    ensures !BitOf(0, k)
  {
    if k > 0 { NoBits(k - 1); }
  }

  lemma {:induction false} FiveBits(v: nat, k: nat)
    requires v < 32 && k >= 5
    ensures !BitOf(v, k)
  {
    NoBits(k - 5);
    assert BitOf(v, k) == BitOf(v / 2, k - 1) == BitOf(v / 2 / 2, k - 2) == BitOf(v / 2 / 2 / 2, k - 3);
    assert BitOf(v / 2 / 2 / 2, k - 3) == BitOf(v / 2 / 2 / 2 / 2, k - 4) == BitOf(v / 2 / 2 / 2 / 2 / 2, k - 5);
  }

  lemma {:induction false} OrHasBit(a: nat, b: nat, k: nat)
    ensures BitOf(OrBits(a, b), k) <==> BitOf(a, k) || BitOf(b, k)
  {
    NoBits(k);
    if a > 0 && b > 0 && k > 0 { OrHasBit(a / 2, b / 2, k - 1); }
  }

  lemma {:induction false} ShiftedHasBit(v: nat, m: nat, k: nat)
    ensures BitOf(v * Pow2(m), k) <==> k >= m && BitOf(v, k - m)
  {
    if m > 0 {
      var w := v * Pow2(m - 1);
      assert v * Pow2(m) == 2 * w;
      if k > 0 { ShiftedHasBit(v, m - 1, k - 1); }
    } else {
      assert v * Pow2(0) == v;
    }
  }

  /** The rest of a division by a power of two has the bits below it. */
  lemma {:induction false} CutHasBit(x: nat, q: nat, r: nat, n: nat, k: nat)
    requires x == q * Pow2(n) + r && r < Pow2(n) && k < n
    ensures BitOf(r, k) <==> BitOf(x, k)
  {
    var p := Pow2(n - 1);
    assert Pow2(n) == 2 * p;
    TwiceAsMuch(q, p, Pow2(n));
    HalfOf(x, q * p, r, p);
    if k > 0 { CutHasBit(x / 2, q, r / 2, n - 1, k - 1); }
  }

  lemma {:induction false} TwiceAsMuch(q: nat, p: nat, d: nat)
    requires d == 2 * p
    ensures q * d == 2 * (q * p)
  {}

  lemma {:induction false} HalfOf(x: nat, h: nat, r: nat, p: nat)
    requires x == 2 * h + r && r < 2 * p
    ensures x / 2 == h + r / 2 && r / 2 < p && r % 2 == x % 2
  {}

  lemma {:induction false} WordHasBit(x: nat, k: nat)
    requires k < 32
    ensures BitOf(x % 0x1_0000_0000, k) <==> BitOf(x, k)
  {
    TwoTo32();
    CutHasBit(x, x / 0x1_0000_0000, x % 0x1_0000_0000, 32, k);
  }

  /** `x | v << shift` has the bits of x, and those of v so many places up, as far as they are below bit 32. */
  lemma {:induction false} OrShiftHasBit(x: int, v: nat, shift: nat, k: nat)
    requires -0x8000_0000 <= x < 0x8000_0000 && v < 32 && k < 32
    ensures HasBit(Or(x, ShiftLeft(v, shift)), k) <==>
      HasBit(x, k) || (shift % 32 <= k < shift % 32 + 5 && BitOf(v, k - shift % 32))
  {
    hide BitOf, OrBits, Pow2;
    var m := shift % 32;
    ShiftWraps(v, shift);
    OrWraps(x, ShiftLeft(v, shift));
    OrHasBit(ToUint32(x), ToUint32(ShiftLeft(v, shift)), k);
    WordHasBit(OrBits(ToUint32(x), ToUint32(ShiftLeft(v, shift))), k);
    WordHasBit(v * Pow2(m), k);
    ShiftedHasBit(v, m, k);
    if k >= m + 5 { FiveBits(v, k - m); }
    HasBitOfWord(x, k);
    HasBitOfWord(Or(x, ShiftLeft(v, shift)), k);
    hide Or, ShiftLeft;
  }

  lemma {:induction false} ShiftWraps(v: nat, shift: nat)
    ensures v * Pow2(shift % 32) >= 0
    ensures ToUint32(ShiftLeft(v, shift)) == v * Pow2(shift % 32) % 0x1_0000_0000
  {
    WrapsAgain(v * Pow2(shift % 32));
  }

  lemma {:induction false} OrWraps(a: int, b: int)
    ensures ToUint32(Or(a, b)) == OrBits(ToUint32(a), ToUint32(b)) % 0x1_0000_0000
  {
    WrapsAgain(OrBits(ToUint32(a), ToUint32(b)));
  }

  lemma {:induction false} HasBitOfWord(x: int, k: nat)
    requires -0x8000_0000 <= x < 0x8000_0000
    ensures HasBit(x, k) <==> BitOf(ToUint32(x), k)
  {}

  lemma {:induction false} WrapsAgain(w: nat)
    ensures ToUint32(ToInt32(w)) == w % 0x1_0000_0000
  {}

  lemma {:induction false} TwoTo32()
    ensures Pow2(32) == 0x1_0000_0000
  {
    Pow2Of31();
  }

  /** Character `at` has bit t among its five and lands on bit k: the i-th is shifted by 5 * i, of which only the rest
      of a division by 32 counts. */
  ghost predicate Lands(str: seq<CodeUnit>, at: nat, shift: nat, k: nat) {
    && at < |str| && shift % 32 <= k < shift % 32 + 5
    && BitOf((str[at] as int - 63) % 32, k - shift % 32)
  }

  /** How many characters are read from index on: up to the first below 95, or one more than there are. */
  ghost predicate ReadsUpTo(str: seq<CodeUnit>, index: nat, next: nat) {
    && index < next
    && (forall at | index <= at < next - 1 :: at < |str| && str[at] as int >= 95)
    && (next - 1 < |str| ==> (str[next - 1] as int) < 95)
  }

  /** Some character from index on, shifted by 5 more for each before it, has this bit. */
  ghost predicate SomeLands(str: seq<CodeUnit>, index: nat, next: nat, shift: nat, k: nat) {
    exists at: nat :: at < next && LandsFrom(str, index, at, shift, k)
  }

  ghost predicate LandsFrom(str: seq<CodeUnit>, index: nat, at: nat, shift: nat, k: nat) {
    index <= at && Lands(str, at, shift + 5 * (at - index), k)
  }

  lemma {:induction false} FirstOrLater(str: seq<CodeUnit>, index: nat, next: nat, shift: nat, k: nat)
    requires index < next
    ensures SomeLands(str, index, next, shift, k) <==>
      Lands(str, index, shift, k) || SomeLands(str, index + 1, next, shift + 5, k)
  {
    hide Lands;
    forall at: nat ensures LandsFrom(str, index, at, shift, k) <==>
      (at == index && Lands(str, index, shift, k)) || LandsFrom(str, index + 1, at, shift + 5, k)
    {
      if at > index { assert shift + 5 + 5 * (at - (index + 1)) == shift + 5 * (at - index); }
    }
    if Lands(str, index, shift, k) { assert LandsFrom(str, index, index, shift, k); }
    var later: nat, more: nat := index + 1, shift + 5;
    if at: nat :| at < next && LandsFrom(str, later, at, more, k) {
      assert LandsFrom(str, index, at, shift, k);
    }
  }

  lemma {:induction false} NoneLater(str: seq<CodeUnit>, index: nat, shift: nat, k: nat)
    ensures !SomeLands(str, index, index, shift, k)
  {}

  /** What one character adds. */
  lemma {:induction false} CharacterAdds(str: seq<CodeUnit>, index: nat, shift: nat, result: int, k: nat)
    requires -0x8000_0000 <= result < 0x8000_0000 && k < 32
    ensures HasBit(Or(result, ShiftLeft(LowBits(ByteAt(str, index)), shift)), k) <==>
      HasBit(result, k) || Lands(str, index, shift, k)
  {
    hide Or, ShiftLeft, HasBit, BitOf;
    OrShiftHasBit(result, LowBits(ByteAt(str, index)), shift, k);
    if shift % 32 <= k { NoBits(k - shift % 32); }
  }

  lemma {:induction false} OneRead(str: seq<CodeUnit>, index: nat, shift: nat, result: int)
    requires -0x8000_0000 <= result < 0x8000_0000
    ensures var r := Or(result, ShiftLeft(LowBits(ByteAt(str, index)), shift));
      Read(str, index, shift, result) ==
        if More(ByteAt(str, index)) then Read(str, index + 1, shift + 5, r) else (r, index + 1)
    ensures More(ByteAt(str, index)) <==> index < |str| && str[index] as int >= 95
  {
    hide Or, ShiftLeft;
  }

  lemma {:induction false} ReadHasBit(str: seq<CodeUnit>, index: nat, shift: nat, result: int, k: nat)
    requires -0x8000_0000 <= result < 0x8000_0000 && k < 32
    ensures var r := Read(str, index, shift, result);
      && ReadsUpTo(str, index, r.1) && (HasBit(r.0, k) <==> HasBit(result, k) || SomeLands(str, index, r.1, shift, k))
    decreases |str| - index
  {
    hide *;
    var r := Or(result, ShiftLeft(LowBits(ByteAt(str, index)), shift));
    OneRead(str, index, shift, result);
    CharacterAdds(str, index, shift, result, k);
    FirstOrLater(str, index, Read(str, index, shift, result).1, shift, k);
    if More(ByteAt(str, index)) {
      ReadHasBit(str, index + 1, shift + 5, r, k);
      OneMoreRead(str, index, Read(str, index, shift, result).1);
    } else {
      NoneLater(str, index + 1, shift + 5, k);
      LastRead(str, index);
    }
  }

  lemma {:induction false} OneMoreRead(str: seq<CodeUnit>, index: nat, next: nat)
    requires ReadsUpTo(str, index + 1, next) && index < |str| && str[index] as int >= 95
    ensures ReadsUpTo(str, index, next)
  {}

  lemma {:induction false} LastRead(str: seq<CodeUnit>, index: nat)
    requires !(index < |str| && str[index] as int >= 95)
    ensures ReadsUpTo(str, index, index + 1)
  {}

  /** A number in any text, malformed or not: which characters it is read from, and every bit of it before the sign is
      taken from the last. */
  lemma {:induction false} NumberWrittenOut(str: seq<CodeUnit>, index: nat) returns (bits: int)
    ensures var r := Number(str, index);
      && ReadsUpTo(str, index, r.1) && -0x8000_0000 <= bits < 0x8000_0000
      && (bits % 2 == 0 ==> r.0 == bits / 2) && (bits % 2 == 1 ==> r.0 == -(bits / 2) - 1)
      && forall k: nat | k < 32 :: HasBit(bits, k) <==> SomeLands(str, index, r.1, 0, k)
  {
    hide HasBit, SomeLands, Read;
    bits := Read(str, index, 0, 0).0;
    ReadHasBit(str, index, 0, 0, 0);
    forall k: nat | k < 32 ensures HasBit(bits, k) <==> SomeLands(str, index, Number(str, index).1, 0, k) {
      ReadHasBit(str, index, 0, 0, k);
      ZeroHasNoBit(k);
    }
  }

  lemma {:induction false} ZeroHasNoBit(k: nat)
    ensures !HasBit(0, k)
  {
    NoBits(k);
  }
}
