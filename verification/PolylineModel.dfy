/**
 The polyline text format: rounded coordinates, differences, zigzag numbers, chunks of five bits.  JavaScript's
 bit operators work on 32-bit integers; their truncation is written out.  Text is a sequence of UTF-16 code units.
 */
module PolylineModel {
  import opened Wrappers

  type CodeUnit = c: int | 0 <= c < 0x1_0000

  datatype LatLng<T> = LatLng(lat: T, lng: T)

  // ---------------------------------------------------------------- JavaScript integers

  function ToInt32(x: int): (r: int)
    ensures -0x8000_0000 <= r < 0x8000_0000
    ensures -0x8000_0000 <= x < 0x8000_0000 ==> r == x
  {
    var m := x % 0x1_0000_0000;
    if m >= 0x8000_0000 then m - 0x1_0000_0000 else m
  }

  function ToUint32(x: int): nat {
    x % 0x1_0000_0000
  }

  function Pow2(n: nat): (r: nat)
    ensures r >= 1
  {
    if n == 0 then 1 else 2 * Pow2(n - 1)
  }

  /** `x << n`: only the low five bits of n count. */
  function ShiftLeft(x: int, n: nat): int {
    ToInt32(x * Pow2(n % 32))
  }

  /** Bitwise or. */
  function OrBits(a: nat, b: nat): nat {
    if a == 0 then b else if b == 0 then a
    else 2 * OrBits(a / 2, b / 2) + if a % 2 == 1 || b % 2 == 1 then 1 else 0
  }

  function Or(a: int, b: int): (r: int)
    ensures -0x8000_0000 <= r < 0x8000_0000
  {
    ToInt32(OrBits(ToUint32(a), ToUint32(b)))
  }

  function Not(x: int): int {
    -x - 1
  }

  // ---------------------------------------------------------------- encoding

  /** `current - previous` doubled, and inverted if negative. */
  function Zigzag(d: int): int {
    var c := ShiftLeft(ToInt32(d), 1);
    if d < 0 then Not(c) else c
  }

  /** `String.fromCharCode` keeps 16 bits. */
  function FromCharCode(x: int): CodeUnit {
    x % 0x1_0000
  }

  function Chunks(c: int): (r: seq<CodeUnit>)
    ensures |r| >= 1
    decreases if c < 0 then 0 else c
  {
    if c >= 0x20 then [FromCharCode(0x20 + c % 0x20 + 63)] + Chunks(c / 0x20) else [FromCharCode(c + 63)]
  }

  function EncodedPair(d: LatLng<int>): seq<CodeUnit> {
    Chunks(Zigzag(d.lat)) + Chunks(Zigzag(d.lng))
  }

  function Difference(p: LatLng<int>, q: LatLng<int>): LatLng<int> {
    LatLng(p.lat - q.lat, p.lng - q.lng)
  }

  const ORIGIN := LatLng(0, 0)

  /** The point before point i. */
  function Before(ps: seq<LatLng<int>>, i: nat): LatLng<int>
    requires i <= |ps|
  {
    if i == 0 then ORIGIN else ps[i - 1]
  }

  /** What is encoded for point i: its difference to the point before. */
  function Delta(ps: seq<LatLng<int>>, i: nat): LatLng<int>
    requires i < |ps|
  {
    Difference(ps[i], Before(ps, i))
  }

  /** The text of the first n points. */
  function TextTo(ps: seq<LatLng<int>>, n: nat): seq<CodeUnit>
    requires n <= |ps|
  {
    if n == 0 then [] else TextTo(ps, n - 1) + EncodedPair(Delta(ps, n - 1))
  }

  // ---------------------------------------------------------------- decoding

  /** `charCodeAt(index) - 63`; past the end that is NaN. */
  function ByteAt(str: seq<CodeUnit>, index: nat): Option<int> {
    if index < |str| then (var c: int := str[index]; Some(c - 63)) else None
  }

  function LowBits(byte: Option<int>): int {
    if byte.Some? then byte.value % 0x20 else 0
  }

  predicate More(byte: Option<int>) {
    byte.Some? && byte.value >= 0x20
  }

  /** Reads one number from index on: the bits gathered, and where the next number starts. */
  function Read(str: seq<CodeUnit>, index: nat, shift: nat, result: int): (r: (int, nat))
    requires -0x8000_0000 <= result < 0x8000_0000
    ensures -0x8000_0000 <= r.0 < 0x8000_0000 && r.1 > index
    decreases |str| - index
  {
    var byte := ByteAt(str, index);
    var result' := Or(result, ShiftLeft(LowBits(byte), shift));
    if More(byte) then Read(str, index + 1, shift + 5, result') else (result', index + 1)
  }

  function Unzigzag(r: int): int {
    if r % 2 == 1 then Not(r / 2) else r / 2
  }

  /** The number at index, and where the next one starts. */
  function Number(str: seq<CodeUnit>, index: nat): (r: (int, nat))
    ensures r.1 > index
  {
    var bits := Read(str, index, 0, 0);
    (Unzigzag(bits.0), bits.1)
  }

  /** The points from index on, if the point before was `last`. */
  function PointsFrom(str: seq<CodeUnit>, index: nat, last: LatLng<int>): seq<LatLng<int>>
    decreases |str| - index
  {
    if index >= |str| then []
    else
      var lat := Number(str, index);
      var lng := Number(str, lat.1);
      var p := LatLng(last.lat + lat.0, last.lng + lng.0);
      [p] + PointsFrom(str, lng.1, p)
  }

  // ---------------------------------------------------------------- coordinates

  function Pow10(n: int): (r: real)
    ensures r > 0.0
    decreases if n < 0 then -n else n
  {
    if n == 0 then 1.0 else if n > 0 then 10.0 * Pow10(n - 1) else Pow10(n + 1) / 10.0
  }

  /** A precision that is no integer counts as 5. */
  function Factor(precision: Option<int>): (r: real)
    ensures r > 0.0
  {
    Pow10(if precision.Some? then precision.value else 5)
  }

  /** Rounds to the nearest integer, halves away from zero. */
  function Py2Round(v: real): int {
    if v >= 0.0 then (v + 0.5).Floor else -((-v + 0.5).Floor)
  }

  function ToLattice(v: real, factor: real): int {
    Py2Round(v * factor)
  }

  function FromLattice(n: int, factor: real): real
    requires factor > 0.0
  {
    n as real / factor
  }

  /** The lattice point of a coordinate pair. */
  function Rounded(p: LatLng<real>, factor: real): LatLng<int> {
    LatLng(ToLattice(p.lat, factor), ToLattice(p.lng, factor))
  }

  function Lattice(ps: seq<LatLng<real>>, factor: real): (r: seq<LatLng<int>>)
    ensures |r| == |ps| && forall i {:trigger r[i]} | 0 <= i < |ps| :: r[i] == Rounded(ps[i], factor)
  {
    seq(|ps|, i requires 0 <= i < |ps| => Rounded(ps[i], factor))
  }

  function Scaled(p: LatLng<int>, factor: real): LatLng<real>
    requires factor > 0.0
  {
    LatLng(FromLattice(p.lat, factor), FromLattice(p.lng, factor))
  }

  function Coordinates(ps: seq<LatLng<int>>, factor: real): (r: seq<LatLng<real>>)
    requires factor > 0.0
    ensures |r| == |ps| && forall i {:trigger r[i]} | 0 <= i < |ps| :: r[i] == Scaled(ps[i], factor)
  {
    seq(|ps|, i requires 0 <= i < |ps| => Scaled(ps[i], factor))
  }

  function Encode(ps: seq<LatLng<real>>, precision: Option<int>): seq<CodeUnit> {
    TextTo(Lattice(ps, Factor(precision)), |ps|)
  }

  function Decode(str: seq<CodeUnit>, precision: Option<int>): seq<LatLng<real>> {
    Coordinates(PointsFrom(str, 0, ORIGIN), Factor(precision))
  }
}
