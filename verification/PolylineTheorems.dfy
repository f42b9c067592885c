/** Decoding gives back the rounded coordinates, exactly when the differences fit. */
module PolylineTheorems {
  import opened Wrappers
  import opened PolylineModel

  // ---------------------------------------------------------------- one number

  /** The differences that survive doubling in 32 bits. */
  predicate Fits(d: int) {
    -0x4000_0000 <= d < 0x4000_0000
  }

  lemma {:induction false} ZigzagInverts(d: int)
    requires Fits(d)
    ensures 0 <= Zigzag(d) < 0x8000_0000 && Unzigzag(Zigzag(d)) == d
  {
    assert Pow2(1) == 2 by { assert Pow2(0) == 1; }
    assert ShiftLeft(d, 1) == 2 * d;
  }

  lemma {:induction false} UnzigzagFits(r: int)
    requires -0x8000_0000 <= r < 0x8000_0000
    ensures Fits(Unzigzag(r))
  {}

  /** Bits that do not overlap are added. */
  lemma {:induction false} OrIsSum(a: nat, v: nat, k: nat)
    requires a < Pow2(k)
    ensures OrBits(a, v * Pow2(k)) == a + v * Pow2(k)
  {
    if a != 0 && v * Pow2(k) != 0 {
      assert k > 0 by { assert Pow2(0) == 1; }
      var w := v * Pow2(k - 1);
      assert v * Pow2(k) == 2 * w;
      OrIsSum(a / 2, v, k - 1);
    }
  }

  /** 2 to the power of 5k, for the k that occur. */
  lemma {:induction false} Pow2Step(k: nat)
    ensures Pow2(k + 5) == 32 * Pow2(k)
  {
    assert Pow2(k + 5) == 2 * Pow2(k + 4) && Pow2(k + 4) == 2 * Pow2(k + 3) && Pow2(k + 3) == 2 * Pow2(k + 2);
    assert Pow2(k + 2) == 2 * Pow2(k + 1) && Pow2(k + 1) == 2 * Pow2(k);
  }

  lemma {:induction false} Pow2Grows(j: nat, k: nat)
    requires j <= k
    ensures Pow2(j) <= Pow2(k)
  {
    if j < k { Pow2Grows(j, k - 1); }
  }

  lemma {:induction false} Pow2Of31()
    ensures Pow2(30) == 0x4000_0000 && Pow2(31) == 0x8000_0000 && Pow2(0) == 1
  {
    assert Pow2(0) == 1;
    Pow2Step(0); Pow2Step(5); Pow2Step(10); Pow2Step(15); Pow2Step(20); Pow2Step(25);
    assert Pow2(31) == 2 * Pow2(30);
  }

  /** One chunk of five bits is put above the bits gathered so far. */
  lemma {:induction false} ChunkGathered(acc: nat, v: nat, shift: nat)
    requires shift <= 30 && acc < Pow2(shift) && acc + v * Pow2(shift) < 0x8000_0000
    ensures Or(acc, ShiftLeft(v, shift)) == acc + v * Pow2(shift)
  {
    hide Pow2, OrBits, Or, ShiftLeft;
    var w := v * Pow2(shift);
    assert w >= 0;
    ShiftedInRange(v, shift, w);
    OrIsSum(acc, v, shift);
    OrInRange(acc, w, acc + w);
  }

  lemma {:induction false} ShiftedInRange(v: nat, shift: nat, w: nat)
    requires shift < 32 && w == v * Pow2(shift) < 0x8000_0000
    ensures ShiftLeft(v, shift) == w
  {
    assert shift % 32 == shift;
  }

  lemma {:induction false} OrInRange(a: nat, b: nat, c: nat)
    requires a < 0x8000_0000 && b < 0x8000_0000 && OrBits(a, b) == c < 0x8000_0000
    ensures Or(a, b) == c
  {
    assert ToUint32(a) == a && ToUint32(b) == b;
  }

  /** The chunks of c stand at index. */
  ghost predicate ChunksAt(str: seq<CodeUnit>, index: nat, c: int) {
    index + |Chunks(c)| <= |str| && str[index..index + |Chunks(c)|] == Chunks(c)
  }

  /** The head and the rest of what stands at index. */
  lemma {:induction false} SliceHead(str: seq<CodeUnit>, index: nat, s: seq<CodeUnit>)
    requires |s| > 0 && index + |s| <= |str| && str[index..index + |s|] == s
    ensures str[index] == s[0] && str[index + 1..index + |s|] == s[1..]
  {
    assert str[index] == str[index..index + |s|][0];
    assert str[index + 1..index + |s|] == str[index..index + |s|][1..];
  }

  /** What stands behind a text: two texts one after the other. */
  lemma {:induction false} Slices(str: seq<CodeUnit>, t: seq<CodeUnit>, a: seq<CodeUnit>, b: seq<CodeUnit>)
    requires |t| + |a| + |b| <= |str| && str[..|t| + |a| + |b|] == t + (a + b)
    ensures str[|t|..|t| + |a|] == a && str[|t| + |a|..|t| + |a| + |b|] == b
  {
    var upTo := str[..|t| + |a| + |b|];
    assert str[|t|..|t| + |a|] == upTo[|t|..|t| + |a|] == a;
    assert str[|t| + |a|..|t| + |a| + |b|] == upTo[|t| + |a|..] == b;
  }

  lemma {:induction false} ChunksHead(c: nat)
    ensures var x: int := Chunks(c)[0]; x == 63 + c % 0x20 + if c >= 0x20 then 0x20 else 0
    ensures if c >= 0x20 then Chunks(c)[1..] == Chunks(c / 0x20) else |Chunks(c)| == 1
  {}

  lemma {:induction false} FirstChunk(str: seq<CodeUnit>, index: nat, c: nat)
    requires ChunksAt(str, index, c)
    ensures index < |str| && LowBits(ByteAt(str, index)) == c % 0x20 && (More(ByteAt(str, index)) <==> c >= 0x20)
    ensures c >= 0x20 ==> ChunksAt(str, index + 1, c / 0x20) && |Chunks(c)| == 1 + |Chunks(c / 0x20)|
  {
    hide Chunks;
    ChunksHead(c);
    SliceHead(str, index, Chunks(c));
  }

  lemma {:induction false} SplitProduct(c: nat, v: nat, q: nat, p: nat)
    requires c == 32 * q + v && v < 32
    ensures c * p == v * p + q * (32 * p) && v * p <= 31 * p && v * p <= c * p
  {
    assert c * p == v * p + 32 * (q * p);
    assert (31 - v) * p >= 0 && q * p >= 0;
  }

  /** A further chunk is only needed while there is room for it. */
  lemma {:induction false} RoomLeft(shift: nat, c: nat)
    requires shift <= 30 && c >= 0x20 && c * Pow2(shift) < 0x8000_0000
    ensures shift <= 25
  {
    if shift > 25 {
      Pow2Grows(26, shift);
      Pow2Of31();
      assert Pow2(30) == 2 * Pow2(29) && Pow2(29) == 2 * Pow2(28) && Pow2(28) == 2 * Pow2(27)
          && Pow2(27) == 2 * Pow2(26);
      Product(c, Pow2(shift));
    }
  }

  lemma {:induction false} Product(c: nat, p: nat)
    requires c >= 0x20
    ensures c * p >= 0x20 * p
  {
    assert (c - 0x20) * p >= 0;
  }

  /** The chunks of a number are read back and nothing more: the first chunk without the continuation bit ends it. */
  lemma {:induction false} ReadsChunks(str: seq<CodeUnit>, index: nat, shift: nat, acc: nat, c: nat)
    requires ChunksAt(str, index, c) && shift <= 30 && acc < Pow2(shift) && acc + c * Pow2(shift) < 0x8000_0000
    ensures Read(str, index, shift, acc) == (acc + c * Pow2(shift), index + |Chunks(c)|)
    decreases c
  {
    hide Pow2, Or, ShiftLeft, ByteAt, LowBits, More, ChunksAt;
    FirstChunk(str, index, c);
    var p, v, q := Pow2(shift), c % 0x20, c / 0x20;
    SplitProduct(c, v, q, p);
    if c < 0x20 {
      ChunkGathered(acc, c, shift);
      assert |Chunks(c)| == 1;
    } else {
      ChunkGathered(acc, v, shift);
      RoomLeft(shift, c);
      Pow2Step(shift);
      assert acc + v * p + q * (32 * p) == acc + c * p;
      ReadsChunks(str, index + 1, shift + 5, acc + v * p, q);
      assert Read(str, index, shift, acc) == Read(str, index + 1, shift + 5, acc + v * p);
    }
  }

  lemma {:induction false} NumberReadsBack(str: seq<CodeUnit>, index: nat, d: int)
    requires Fits(d) && ChunksAt(str, index, Zigzag(d))
    ensures Number(str, index) == (d, index + |Chunks(Zigzag(d))|)
  {
    ZigzagInverts(d);
    Pow2Of31();
    ReadsChunks(str, index, 0, 0, Zigzag(d));
  }

  // ---------------------------------------------------------------- whole texts

  /** First values and all differences of consecutive points fit. */
  predicate DeltasFit(ps: seq<LatLng<int>>) {
    forall i | 0 <= i < |ps| :: DeltaFits(ps, i)
  }

  predicate DeltaFits(ps: seq<LatLng<int>>, i: nat)
    requires i < |ps|
  {
    Fits(Delta(ps, i).lat) && Fits(Delta(ps, i).lng)
  }

  lemma {:induction false} TextPrefix(ps: seq<LatLng<int>>, i: nat, n: nat)
    requires i <= n <= |ps|
    ensures |TextTo(ps, i)| <= |TextTo(ps, n)| && TextTo(ps, n)[..|TextTo(ps, i)|] == TextTo(ps, i)
    decreases n - i
  {
    if i < n { TextPrefix(ps, i, n - 1); }
  }

  /** The text of point i stands where the texts of the points before it end. */
  lemma {:induction false} PairAt(ps: seq<LatLng<int>>, i: nat)
    requires i < |ps|
    ensures var str, at, d := TextTo(ps, |ps|), |TextTo(ps, i)|, Delta(ps, i);
      && at < |str| && ChunksAt(str, at, Zigzag(d.lat)) && ChunksAt(str, at + |Chunks(Zigzag(d.lat))|, Zigzag(d.lng))
      && at + |Chunks(Zigzag(d.lat))| + |Chunks(Zigzag(d.lng))| == |TextTo(ps, i + 1)|
  {
    hide Zigzag, Chunks, Delta;
    var str, at, d := TextTo(ps, |ps|), |TextTo(ps, i)|, Delta(ps, i);
    var a, b := Chunks(Zigzag(d.lat)), Chunks(Zigzag(d.lng));
    TextPrefix(ps, i + 1, |ps|);
    assert TextTo(ps, i + 1) == TextTo(ps, i) + (a + b);
    hide TextTo;
    Slices(str, TextTo(ps, i), a, b);
  }

  /** The concatenated text splits in one way only, and the differences add up again. */
  lemma {:induction false} PointsReadBack(ps: seq<LatLng<int>>, i: nat)
    requires DeltasFit(ps) && i <= |ps|
    ensures PointsFrom(TextTo(ps, |ps|), |TextTo(ps, i)|, Before(ps, i)) == ps[i..]
    decreases |ps| - i
  {
    hide *;
    if i < |ps| {
      PointReadsBack(ps, i);
      PointsReadBack(ps, i + 1);
      assert ps[i..] == [ps[i]] + ps[i + 1..];
    } else {
      NothingLeft(ps);
    }
  }

  lemma {:induction false} NothingLeft(ps: seq<LatLng<int>>)
    ensures PointsFrom(TextTo(ps, |ps|), |TextTo(ps, |ps|)|, Before(ps, |ps|)) == ps[|ps|..]
  {}

  lemma {:induction false} Reassociate(a: seq<CodeUnit>, b: seq<CodeUnit>, c: seq<CodeUnit>)
    ensures (a + b) + c == a + (b + c)
  {}

  lemma {:induction false} PointReadsBack(ps: seq<LatLng<int>>, i: nat)
    requires DeltasFit(ps) && i < |ps|
    ensures var str := TextTo(ps, |ps|);
      PointsFrom(str, |TextTo(ps, i)|, Before(ps, i)) == [ps[i]]
        + PointsFrom(str, |TextTo(ps, i + 1)|, Before(ps, i + 1))
  {
    hide Read, Zigzag, Unzigzag, Number, TextTo, Chunks, ChunksAt;
    var str, at, d := TextTo(ps, |ps|), |TextTo(ps, i)|, Delta(ps, i);
    PairAt(ps, i);
    assert DeltaFits(ps, i);
    NumberReadsBack(str, at, d.lat);
    NumberReadsBack(str, at + |Chunks(Zigzag(d.lat))|, d.lng);
  }

  /** Whatever the text, no decoded point is further from the one before than fits. */
  lemma {:induction false} DecodedDeltasFit(str: seq<CodeUnit>, index: nat, last: LatLng<int>, i: nat)
    requires i < |PointsFrom(str, index, last)|
    ensures var ps := PointsFrom(str, index, last); var d := Difference(ps[i], if i == 0 then last else ps[i - 1]);
      Fits(d.lat) && Fits(d.lng)
    decreases |str| - index
  {
    var lat := Number(str, index);
    var lng := Number(str, lat.1);
    UnzigzagFits(Read(str, index, 0, 0).0);
    UnzigzagFits(Read(str, lat.1, 0, 0).0);
    var p := LatLng(last.lat + lat.0, last.lng + lng.0);
    if i > 0 { DecodedDeltasFit(str, lng.1, p, i - 1); }
  }

  /** A list of lattice points survives encoding and decoding iff first values and differences fit. */
  lemma {:induction false} LatticeRoundTripIff(ps: seq<LatLng<int>>)
    ensures PointsFrom(TextTo(ps, |ps|), 0, ORIGIN) == ps <==> DeltasFit(ps)
  {
    if DeltasFit(ps) {
      PointsReadBack(ps, 0);
    } else if PointsFrom(TextTo(ps, |ps|), 0, ORIGIN) == ps {
      forall i | 0 <= i < |ps| ensures DeltaFits(ps, i) {
        DecodedDeltasFit(TextTo(ps, |ps|), 0, ORIGIN, i);
      }
    }
  }

  /** A first value of 2^30 is doubled out of the 32-bit range; it is written as 0, and read as such. */
  lemma {:induction false} TooFarIsZero()
    ensures var ps := [LatLng(0x4000_0000, 0)];
      !DeltasFit(ps) && TextTo(ps, 1) == [63, 63] && PointsFrom(TextTo(ps, 1), 0, ORIGIN) == [LatLng(0, 0)]
  {
    hide PointsFrom, TextTo, Zigzag, Chunks;
    var ps, origin := [LatLng(0x4000_0000, 0)], [ORIGIN];
    assert !DeltaFits(ps, 0) && DeltaFits(origin, 0);
    assert Delta(ps, 0) == ps[0] && Delta(origin, 0) == ORIGIN;
    TooFarIsWrittenAsZero();
    LatticeRoundTripIff(origin);
    OnePointText(ps);
    OnePointText(origin);
  }

  lemma {:induction false} OnePointText(ps: seq<LatLng<int>>)
    requires |ps| == 1
    ensures TextTo(ps, 1) == EncodedPair(Delta(ps, 0))
  {
    assert TextTo(ps, 0) == [];
  }

  lemma {:induction false} TooFarIsWrittenAsZero()
    ensures Chunks(Zigzag(0x4000_0000)) == [63] && Chunks(Zigzag(0)) == [63]
  {
    assert Pow2(1) == 2 * Pow2(0) == 2;
    assert ToInt32(0x4000_0000) == 0x4000_0000 && ToInt32(0x8000_0000) == -0x8000_0000 && ToInt32(0) == 0;
    assert Zigzag(0x4000_0000) == -0x8000_0000 && Zigzag(0) == 0;
    hide Zigzag;
    assert Chunks(-0x8000_0000) == [FromCharCode(-0x8000_0000 + 63)];
    assert FromCharCode(-0x8000_0000 + 63) == 63 && FromCharCode(63) == 63;
  }

  // ---------------------------------------------------------------- coordinates

  lemma {:induction false} RoundingError(v: real)
    ensures -0.5 <= Py2Round(v) as real - v <= 0.5
  {}

  lemma {:induction false} RoundInteger(n: int)
    ensures Py2Round(n as real) == n
  {}

  function AbsReal(x: real): real {
    if x < 0.0 then -x else x
  }

  lemma {:induction false} ScaledError(v: real, factor: real)
    requires factor > 0.0
    ensures AbsReal(FromLattice(ToLattice(v, factor), factor) - v) <= 0.5 / factor
  {
    var n := Py2Round(v * factor) as real;
    RoundingError(v * factor);
    var e := n - v * factor;
    assert n / factor - v == e / factor by {
      assert (n / factor - v) * factor == n - v * factor;
      SameProduct(n / factor - v, e / factor, factor);
    }
    DivOrder(e, 0.5, factor);
    DivOrder(-0.5, e, factor);
    assert (-0.5) / factor == -(0.5 / factor);
  }

  lemma {:induction false} SameProduct(x: real, y: real, f: real)
    requires f > 0.0 && x * f == y * f
    ensures x == y
  {
    assert (x - y) * f == 0.0;
  }

  lemma {:induction false} PositiveFactor(x: real, f: real)
    requires f > 0.0 && x * f >= 0.0
    ensures x >= 0.0
  {
    if x < 0.0 { MulNegative(x, f); }
  }

  lemma {:induction false} MulNegative(x: real, f: real)
    requires f > 0.0 && x < 0.0
    ensures x * f < 0.0
  {
    assert (-x) * f > 0.0;
  }

  lemma {:induction false} DivOrder(a: real, b: real, f: real)
    requires f > 0.0 && a <= b
    ensures a / f <= b / f
  {
    var q, r := a / f, b / f;
    assert q * f == a && r * f == b;
    assert (r - q) * f == b - a;
    PositiveFactor(r - q, f);
  }

  /** Decoding an encoded list gives exactly its lattice points iff first values and differences fit. */
  lemma {:induction false} RoundTripIff(ps: seq<LatLng<real>>, precision: Option<int>)
    ensures Decode(Encode(ps, precision), precision) == Coordinates(Lattice(ps, Factor(precision)), Factor(precision))
       <==> DeltasFit(Lattice(ps, Factor(precision)))
  {
    var f := Factor(precision);
    var l := Lattice(ps, f);
    LatticeRoundTripIff(l);
    var d := PointsFrom(TextTo(l, |l|), 0, ORIGIN);
    CoordinatesInjective(d, l, f);
  }

  lemma {:induction false} CoordinatesInjective(a: seq<LatLng<int>>, b: seq<LatLng<int>>, f: real)
    requires f > 0.0
    ensures Coordinates(a, f) == Coordinates(b, f) <==> a == b
  {
    hide FromLattice;
    if Coordinates(a, f) == Coordinates(b, f) {
      assert |Coordinates(a, f)| == |a| && |Coordinates(b, f)| == |b|;
      forall i | 0 <= i < |a| ensures a[i] == b[i] {
        assert Coordinates(a, f)[i] == Scaled(a[i], f) && Coordinates(b, f)[i] == Scaled(b[i], f);
        ScaledInjective(a[i].lat, b[i].lat, f);
        ScaledInjective(a[i].lng, b[i].lng, f);
      }
    }
  }

  lemma {:induction false} ScaledInjective(a: int, b: int, f: real)
    requires f > 0.0 && FromLattice(a, f) == FromLattice(b, f)
    ensures a == b
  {
    assert a as real / f * f == a as real && b as real / f * f == b as real;
  }

  lemma {:induction false} PointError(p: LatLng<real>, f: real)
    requires f > 0.0
    ensures var r := Scaled(Rounded(p, f), f); AbsReal(r.lat - p.lat) <= 0.5 / f && AbsReal(r.lng - p.lng) <= 0.5 / f
  {
    hide ToLattice, FromLattice, AbsReal;
    ScaledError(p.lat, f);
    ScaledError(p.lng, f);
  }

  /** Then every decoded coordinate is off by at most half a unit of the last place: errors do not add up along the
      list. */
  lemma {:induction false} NoDrift(ps: seq<LatLng<real>>, precision: Option<int>, i: nat)
    requires DeltasFit(Lattice(ps, Factor(precision))) && i < |ps|
    ensures var r, f := Decode(Encode(ps, precision), precision), Factor(precision);
      && |r| == |ps|
      && AbsReal(r[i].lat - ps[i].lat) <= 0.5 / f && AbsReal(r[i].lng - ps[i].lng) <= 0.5 / f
  {
    var f := Factor(precision);
    RoundTripIff(ps, precision);
    hide DeltasFit, Encode, Decode, Pow10, AbsReal, Scaled, Rounded;
    assert Coordinates(Lattice(ps, f), f)[i] == Scaled(Rounded(ps[i], f), f);
    PointError(ps[i], f);
  }

  /** And encoding what was decoded gives the same text again. */
  lemma {:induction false} Reencodes(ps: seq<LatLng<real>>, precision: Option<int>)
    requires DeltasFit(Lattice(ps, Factor(precision)))
    ensures Encode(Decode(Encode(ps, precision), precision), precision) == Encode(ps, precision)
  {
    var f := Factor(precision);
    var l := Lattice(ps, f);
    RoundTripIff(ps, precision);
    LatticeOfCoordinates(l, f);
    hide DeltasFit, Decode, Pow10, Factor, TextTo;
    assert Encode(Coordinates(l, f), precision) == TextTo(l, |l|) == Encode(ps, precision);
  }

  lemma {:induction false} RoundsBack(n: int, f: real)
    requires f > 0.0
    ensures ToLattice(FromLattice(n, f), f) == n
  {
    assert n as real / f * f == n as real;
    RoundInteger(n);
  }

  lemma {:induction false} LatticeOfCoordinates(l: seq<LatLng<int>>, f: real)
    requires f > 0.0
    ensures Lattice(Coordinates(l, f), f) == l
  {
    hide ToLattice, FromLattice;
    var c := Coordinates(l, f);
    forall i | 0 <= i < |l| ensures Lattice(c, f)[i] == l[i] {
      assert c[i] == Scaled(l[i], f) && Lattice(c, f)[i] == Rounded(c[i], f);
      RoundsBack(l[i].lat, f);
      RoundsBack(l[i].lng, f);
    }
  }
}
