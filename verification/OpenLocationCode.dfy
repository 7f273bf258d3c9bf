/** Encoding a position as a 10-digit Open Location Code (Open Location Code specification, "Encoding"), over the reals. */
module OpenLocationCode {

  const ALPHABET: string := "23456789CFGHJMPQRVWX"

  /** The value of a code digit, by the table of the specification; -1 for other characters. */
  function DigitValue(c: char): int {
    match c
    case '2' => 0
    case '3' => 1
    case '4' => 2
    case '5' => 3
    case '6' => 4
    case '7' => 5
    case '8' => 6
    case '9' => 7
    case 'C' => 8
    case 'F' => 9
    case 'G' => 10
    case 'H' => 11
    case 'J' => 12
    case 'M' => 13
    case 'P' => 14
    case 'Q' => 15
    case 'R' => 16
    case 'V' => 17
    case 'W' => 18
    case 'X' => 19
    case _ => -1
  }

  /** The characters that encode are those of the table, in its order. */
  lemma DigitOfAlphabet(i: nat)
    requires i < 20
    ensures |ALPHABET| == 20 && DigitValue(ALPHABET[i]) == i
  {
  }

  /** The latitude and longitude cells, in steps of 1/8000 degree from the south-west corner, that a code stands for. */
  function LatitudeCell(code: string): int
    requires |code| == 11
  {
    160000 * DigitValue(code[0]) + 8000 * DigitValue(code[2]) + 400 * DigitValue(code[4]) + 20 * DigitValue(code[6])
    + DigitValue(code[9])
  }

  function LongitudeCell(code: string): int
    requires |code| == 11
  {
    160000 * DigitValue(code[1]) + 8000 * DigitValue(code[3]) + 400 * DigitValue(code[5]) + 20 * DigitValue(code[7])
    + DigitValue(code[10])
  }

  /** Five base-20 digits, least significant first. */
  function Digit20(v: nat, i: nat): nat
    requires i < 5
  {
    match i
    case 0 => v % 20
    case 1 => v / 20 % 20
    case 2 => v / 400 % 20
    case 3 => v / 8000 % 20
    case 4 => v / 160000 % 20
  }

  lemma Base20(v: nat)
    requires v < 3200000
    ensures v == 160000 * Digit20(v, 4) + 8000 * Digit20(v, 3) + 400 * Digit20(v, 2) + 20 * Digit20(v, 1) + Digit20(v, 0)
  {
    var a := v / 20;
    var b := a / 20;
    var c := b / 20;
    var d := c / 20;
    assert a == v / 20 && b == v / 400 && c == v / 8000 && d == v / 160000;
    assert d < 20;
  }

  /** v divided by a small power of p. */
  function Quotient(v: nat, p: nat, i: nat): nat
    requires p > 0
  {
    if i == 0 then v else Quotient(v, p, i - 1) / p
  }

  lemma QuotientDigits(v: nat, i: nat)
    requires i < 5
    ensures Quotient(v, 20, i) % 20 == Digit20(v, i)
  {
    var a := v / 20;
    var b := a / 20;
    var c := b / 20;
    var d := c / 20;
    assert b == v / 400 && c == v / 8000 && d == v / 160000;
    assert Quotient(v, 20, 1) == a;
    assert Quotient(v, 20, 2) == b;
    assert Quotient(v, 20, 3) == c;
    assert Quotient(v, 20, 4) == d;
  }

  lemma GridQuotients(v: nat)
    ensures Quotient(v, 5, 5) == v / 3125 && Quotient(v, 4, 5) == v / 1024
  {
    assert Quotient(v, 5, 1) == v / 5;
    assert Quotient(v, 5, 2) == v / 25;
    assert Quotient(v, 5, 3) == v / 125;
    assert Quotient(v, 5, 4) == v / 625;
    assert Quotient(v, 4, 1) == v / 4;
    assert Quotient(v, 4, 2) == v / 16;
    assert Quotient(v, 4, 3) == v / 64;
    assert Quotient(v, 4, 4) == v / 256;
  }

  const OLC_CODE_LEN: nat := 11

  /** Latitude is clipped to [-90, 90], and the pole moved half a cell of the full code length inwards. */
  function ClippedLatitude(lat: real): real {
    if lat < -90.0 then -90.0 else if lat < 90.0 then lat else 90.0 - 1.0 / 40000.0 / 2.0
  }

  function Turned(lon: real, turns: int): real {
    lon + 360.0 * turns as real
  }

  /** lon plus a whole number of turns. */
  ghost predicate SameLongitude(lon: real, longitude: real) {
    exists turns: int :: longitude == Turned(lon, turns)
  }

  method NormaliseLongitude(lon: real) returns (longitude: real)
    ensures -180.0 <= longitude < 180.0 && SameLongitude(lon, longitude)
    ensures -180.0 <= lon < 180.0 ==> longitude == lon
  {
    longitude := lon;
    ghost var turns := 0;
    while longitude < -180.0
      invariant longitude == Turned(lon, turns) && turns >= 0
      invariant turns > 0 ==> longitude < 180.0 && lon < -180.0
      decreases -180.0 - longitude
    {
      longitude := longitude + 360.0;
      turns := turns + 1;
    }
    while longitude >= 180.0
      invariant longitude == Turned(lon, turns)
      invariant longitude >= -180.0
      invariant -180.0 <= lon < 180.0 ==> longitude == lon
      decreases longitude
    {
      longitude := longitude - 360.0;
      turns := turns - 1;
    }
  }

  /** Position of the longitude and latitude digit of pair i, and of the plus sign, in the code. */
  function LngPos(i: nat): nat
    requires i < 5
  {
    if i == 0 then 10 else 9 - 2 * i
  }

  function LatPos(i: nat): nat
    requires i < 5
  {
    LngPos(i) - 1
  }

  predicate PairsDone(code: seq<char>, lat: nat, lng: nat, n: nat)
    requires |code| == 13 && n <= 5
  {
    && (forall i :: 0 <= i < n ==> code[LatPos(i)] == ALPHABET[Digit20(lat, i)])
    && (forall i :: 0 <= i < n ==> code[LngPos(i)] == ALPHABET[Digit20(lng, i)])
    && (n > 0 ==> code[8] == '+')
  }

  /** The grid part of the code; its digits 7 to 10 are overwritten by the pairs. */
  method GridPart(tempCode: array<char>, latVal: nat, lngVal: nat) returns (lat: nat, lng: nat)
    requires tempCode.Length == 13
    modifies tempCode
    ensures lat == latVal / 3125 && lng == lngVal / 1024
  {
    hide DigitValue;
    lat, lng := latVal, lngVal;
    var pos := OLC_CODE_LEN;
    var i := 0;
    while i < 5
      invariant 0 <= i <= 5 && pos == OLC_CODE_LEN - i
      invariant lat == Quotient(latVal, 5, i) && lng == Quotient(lngVal, 4, i)
    {
      var latDigit := lat % 5;
      var lngDigit := lng % 4;
      var ndx := latDigit * 4 + lngDigit;
      tempCode[pos] := ALPHABET[ndx];
      pos := pos - 1;
      lat := lat / 5;
      lng := lng / 4;
      i := i + 1;
    }
    GridQuotients(latVal);
    GridQuotients(lngVal);
  }

  method PairPart(tempCode: array<char>, latVal: nat, lngVal: nat)
    requires tempCode.Length == 13
    modifies tempCode
    ensures PairsDone(tempCode[..], latVal, lngVal, 5)
  {
    hide Digit20;
    var lat, lng := latVal, lngVal;
    var pos: int := 10;
    var i := 0;
    while i < 5
      invariant 0 <= i <= 5 && pos == (if i == 0 then 10 else 9 - 2 * i)
      invariant lat == Quotient(latVal, 20, i) && lng == Quotient(lngVal, 20, i)
      invariant PairsDone(tempCode[..], latVal, lngVal, i)
    {
      QuotientDigits(latVal, i);
      QuotientDigits(lngVal, i);
      var latNdx := lat % 20;
      var lngNdx := lng % 20;
      ghost var before := tempCode[..];
      tempCode[pos] := ALPHABET[lngNdx];
      pos := pos - 1;
      tempCode[pos] := ALPHABET[latNdx];
      pos := pos - 1;
      lat := lat / 20;
      lng := lng / 20;
      if i == 0 {
        tempCode[pos] := '+';
        pos := pos - 1;
      }
      assert forall k {:trigger LatPos(k)} :: 0 <= k < i ==> tempCode[..][LatPos(k)] == before[LatPos(k)];
      assert forall k {:trigger LngPos(k)} :: 0 <= k < i ==> tempCode[..][LngPos(k)] == before[LngPos(k)];
      i := i + 1;
    }
  }

  /** Ten digits of the table around a plus sign. */
  predicate IsCode(code: string) {
    |code| == 11 && code[8] == '+' && forall i :: 0 <= i < 11 && i != 8 ==> 0 <= DigitValue(code[i]) < 20
  }

  /** Positions at and beyond the poles belong to the southernmost and the northernmost cells. */
  lemma Poles(lat: real, cell: int)
    requires cell as real / 8000.0 - 90.0 <= ClippedLatitude(lat) < cell as real / 8000.0 - 90.0 + 1.0 / 8000.0
    ensures -90.0 <= lat < 90.0 ==> ClippedLatitude(lat) == lat
    ensures lat <= -90.0 ==> cell == 0
    ensures lat >= 90.0 ==> cell == 1439999
    ensures 0 <= cell < 1440000
  {
  }

  /** The code's cell, decoded, contains the position: the latitude as clipped, the longitude up to whole turns. */
  method LatLongToOLC(lat: real, lon: real) returns (code: string)
    ensures IsCode(code)
    ensures -90.0 <= lat < 90.0 ==>
              var cell := LatitudeCell(code) as real / 8000.0 - 90.0; cell <= lat < cell + 1.0 / 8000.0
    ensures lat <= -90.0 ==> LatitudeCell(code) == 0
    ensures lat >= 90.0 ==> LatitudeCell(code) == 180 * 8000 - 1
    ensures var cell := LatitudeCell(code) as real / 8000.0 - 90.0; cell <= ClippedLatitude(lat) < cell + 1.0 / 8000.0
    ensures exists longitude ::
              && -180.0 <= longitude < 180.0 && SameLongitude(lon, longitude)
              && (-180.0 <= lon < 180.0 ==> longitude == lon)
              && var cell := LongitudeCell(code) as real / 8000.0 - 180.0; cell <= longitude < cell + 1.0 / 8000.0
  {
    var latitude := ClippedLatitude(lat);
    var longitude := NormaliseLongitude(lon);
    var latVal := (2250000000.0 + latitude * 25000000.0).Floor;
    var lngVal := (1474560000.0 + longitude * 8192000.0).Floor;
    var tempCode := new char[13](i requires 0 <= i < 13 => "1234567890abc"[i]);
    var latPart, lngPart := GridPart(tempCode, latVal, lngVal);
    PairPart(tempCode, latPart, lngPart);
    code := tempCode[..OLC_CODE_LEN];
    DecodePairs(tempCode[..], latPart, lngPart);
    CellOfFloor(latitude + 90.0, 25000000, 3125, latVal);
    CellOfFloor(longitude + 180.0, 8192000, 1024, lngVal);
    Poles(lat, LatitudeCell(code));
  }

  /** Rounding down to fine units and then to 1/8000 degree is rounding down to 1/8000 degree. */
  lemma CellOfFloor(x: real, fine: nat, coarse: nat, v: nat)
    requires (fine == 25000000 && coarse == 3125) || (fine == 8192000 && coarse == 1024)
    requires v == (x * fine as real).Floor
    ensures (v / coarse) as real / 8000.0 <= x < (v / coarse) as real / 8000.0 + 1.0 / 8000.0
  {
    if fine == 25000000 {
      assert x * 25000000.0 - 1.0 < v as real <= x * 25000000.0;
      assert 3125 * (v / 3125) <= v <= 3125 * (v / 3125) + 3124;
    } else {
      assert x * 8192000.0 - 1.0 < v as real <= x * 8192000.0;
      assert 1024 * (v / 1024) <= v <= 1024 * (v / 1024) + 1023;
    }
  }

  lemma DecodePairs(code: seq<char>, lat: nat, lng: nat)
    requires |code| == 13 && PairsDone(code, lat, lng, 5) && lat < 3200000 && lng < 3200000
    ensures IsCode(code[..11]) && LatitudeCell(code[..11]) == lat && LongitudeCell(code[..11]) == lng
  {
    hide Digit20, DigitValue;
    forall i | 0 <= i < 5
      ensures DigitValue(code[LatPos(i)]) == Digit20(lat, i) && DigitValue(code[LngPos(i)]) == Digit20(lng, i)
      ensures Digit20(lat, i) < 20 && Digit20(lng, i) < 20
    {
      DigitRange(lat, i);
      DigitRange(lng, i);
      DigitOfAlphabet(Digit20(lat, i));
      DigitOfAlphabet(Digit20(lng, i));
    }
    assert LatPos(0) == 9 && LatPos(1) == 6 && LatPos(2) == 4 && LatPos(3) == 2 && LatPos(4) == 0;
    assert LngPos(0) == 10 && LngPos(1) == 7 && LngPos(2) == 5 && LngPos(3) == 3 && LngPos(4) == 1;
    forall i | 0 <= i < 11 && i != 8
      ensures 0 <= DigitValue(code[..11][i]) < 20
    {
      var k := if i > 8 then 0 else 4 - i / 2;
      assert i == LatPos(k) || i == LngPos(k);
    }
    Base20(lat);
    Base20(lng);
  }

  lemma DigitRange(v: nat, i: nat)
    requires i < 5
    ensures Digit20(v, i) < 20
  {
  }
}
