/** The encoder and the decoder as loops. */
module Polyline {
  import opened Wrappers
  import opened PolylineModel
  import opened PolylineTheorems

  method EncodeNumber(current: real, previous: real, factor: real) returns (output: seq<CodeUnit>)
    ensures output == Chunks(Zigzag(ToLattice(current, factor) - ToLattice(previous, factor)))
  {
    hide ToLattice, Pow2, ToInt32;
    var curr, prev := ToLattice(current, factor), ToLattice(previous, factor);
    var coordinate := curr - prev;
    coordinate := ShiftLeft(ToInt32(coordinate), 1);
    if curr - prev < 0 {
      coordinate := Not(coordinate);
    }
    ghost var c := coordinate;
    output := [];
    while coordinate >= 0x20
      invariant output + Chunks(coordinate) == Chunks(c)
    {
      Reassociate(output, [FromCharCode(0x20 + coordinate % 0x20 + 63)], Chunks(coordinate / 0x20));
      output := output + [FromCharCode(0x20 + coordinate % 0x20 + 63)];
      coordinate := coordinate / 0x20;
    }
    output := output + [FromCharCode(coordinate + 63)];
  }

  /** The text is that of all points' differences. */
  method EncodePolyline(coordinates: seq<LatLng<real>>, precision: Option<int>) returns (output: seq<CodeUnit>)
    ensures output == Encode(coordinates, precision)
  {
    if |coordinates| == 0 {
      return [];
    }
    var factor := Factor(precision);
    ghost var l := Lattice(coordinates, factor);
    var lat := EncodeNumber(coordinates[0].lat, 0.0, factor);
    var lng := EncodeNumber(coordinates[0].lng, 0.0, factor);
    output := lat + lng;
    hide Zigzag, Chunks, Pow10;
    ZeroRounds(factor);
    FirstText(l);
    for i := 1 to |coordinates|
      invariant output == TextTo(l, i)
    {
      var a, b := coordinates[i], coordinates[i - 1];
      lat := EncodeNumber(a.lat, b.lat, factor);
      output := output + lat;
      lng := EncodeNumber(a.lng, b.lng, factor);
      output := output + lng;
      NextText(l, i);
    }
  }

  lemma {:induction false} ZeroRounds(factor: real)
    ensures ToLattice(0.0, factor) == 0
  {}

  lemma {:induction false} FirstText(l: seq<LatLng<int>>)
    requires |l| > 0
    ensures TextTo(l, 1) == Chunks(Zigzag(l[0].lat - 0)) + Chunks(Zigzag(l[0].lng - 0))
  {
    assert TextTo(l, 0) == [];
  }

  lemma {:induction false} NextText(l: seq<LatLng<int>>, i: nat)
    requires 0 < i < |l|
    ensures TextTo(l, i + 1) ==
      TextTo(l, i) + Chunks(Zigzag(l[i].lat - l[i - 1].lat)) + Chunks(Zigzag(l[i].lng - l[i - 1].lng))
  {
    hide Chunks, Zigzag;
    var d := Delta(l, i);
    Reassociate(TextTo(l, i), Chunks(Zigzag(d.lat)), Chunks(Zigzag(d.lng)));
  }

  /** The inner loop: at least one code unit is read, and the one without continuation bit is the last. */
  method ReadNumber(str: seq<CodeUnit>, start: nat) returns (change: int, index: nat)
    ensures (change, index) == Number(str, start)
  {
    index := start;
    var shift, result, more := 0, 0, true;
    while more
      invariant -0x8000_0000 <= result < 0x8000_0000 && shift >= 0
      invariant if more then Read(str, index, shift, result) == Read(str, start, 0, 0)
          else (result, index) == Read(str, start, 0, 0)
      decreases more, |str| - index
    {
      var byte := ByteAt(str, index);
      index := index + 1;
      result := Or(result, ShiftLeft(LowBits(byte), shift));
      shift := shift + 5;
      more := More(byte);
    }
    change := if result % 2 == 1 then Not(result / 2) else result / 2;
  }

  /** Any text decodes, malformed or not. */
  method DecodePolyline(str: seq<CodeUnit>, precision: Option<int>) returns (coordinates: seq<LatLng<real>>)
    ensures coordinates == Decode(str, precision)
  {
    var index, last, factor := 0, ORIGIN, Factor(precision);
    ghost var points: seq<LatLng<int>> := [];
    coordinates := [];
    hide Number, Scaled, Pow10;
    while index < |str|
      invariant points + PointsFrom(str, index, last) == PointsFrom(str, 0, ORIGIN)
      invariant coordinates == Coordinates(points, factor)
      decreases |str| - index
    {
      var latChange, lngChange;
      latChange, index := ReadNumber(str, index);
      lngChange, index := ReadNumber(str, index);
      last := LatLng(last.lat + latChange, last.lng + lngChange);
      coordinates := coordinates + [Scaled(last, factor)];
      points := points + [last];
    }
  }
}
