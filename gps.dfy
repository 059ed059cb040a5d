/** Derivation of signed decimal-degree coordinates from the GPS directory
    of a normalized EXIF table (get_gps_info and its convert_to_degrees). */
module Gps {
  import opened Values

  /** Why the derivation raised. The extractor swallows every kind alike. */
  datatype GpsError =
    | MissingEntry(tag: int)  // the GPS directory has no entry under tag
    | Malformed               // a value does not have the shape the code indexes or unpacks
    | ZeroDivision            // a rational has a zero denominator

  datatype GpsCoord = GpsCoord(latitude: real, longitude: real)

  datatype GpsOutcome = NoGps | Located(coord: GpsCoord) | Failed(error: GpsError)

  const GpsInfoKey: Key := Named("GPSInfo")

  // Positions inside the GPS directory.
  const LatitudeRefTag: int := 1
  const LatitudeTag: int := 2
  const LongitudeRefTag: int := 3
  const LongitudeTag: int := 4

  /** Reference value of degrees + minutes/60 + seconds/3600, written as one
      fraction over the common denominator 3600 * dd * md * sd. */
  function SingleFraction(d: Rational, m: Rational, s: Rational): real
    requires d.den != 0 && m.den != 0 && s.den != 0
  {
    var dn, dd := d.num as real, d.den as real;
    var mn, md := m.num as real, m.den as real;
    var sn, sd := s.num as real, s.den as real;
    NonzeroProduct(dd, md, sd);
    (dn * md * sd * 3600.0 + mn * dd * sd * 60.0 + sn * dd * md) / (dd * md * sd * 3600.0)
  }

  lemma NonzeroProduct(a: real, b: real, c: real)
    requires a != 0.0 && b != 0.0 && c != 0.0
    ensures a * b * c * 3600.0 != 0.0
  {
  }

  /** The sum of the three quotients equals the single fraction. */
  lemma FractionSum(d: Rational, m: Rational, s: Rational)
    requires d.den != 0 && m.den != 0 && s.den != 0
    ensures d.num as real / d.den as real + m.num as real / m.den as real / 60.0
              + s.num as real / s.den as real / 3600.0
            == SingleFraction(d, m, s)
  {
  }

  /** convert_to_degrees: a (degrees, minutes, seconds) triple of rationals
      to decimal degrees; any other shape fails to unpack, and a zero
      denominator raises. */
  function ConvertToDegrees(v: Value): (r: Result<real, GpsError>)
    ensures r.Success? <==> IsCoordinate(v)
    ensures r == Failure(ZeroDivision) <==>
              v.TripleValue? && (v.deg.den == 0 || v.min.den == 0 || v.sec.den == 0)
    ensures r.Failure? && !v.TripleValue? ==> r.error == Malformed
    ensures r.Success? ==> r.value == SingleFraction(v.deg, v.min, v.sec)
  {
    match v
    case TripleValue(d, m, s) =>
      if d.den == 0 || m.den == 0 || s.den == 0 then Failure(ZeroDivision)
      else
        FractionSum(d, m, s);
        Success(d.num as real / d.den as real + m.num as real / m.den as real / 60.0
                + s.num as real / s.den as real / 3600.0)
    case _ => Failure(Malformed)
  }

  /** A triple of rationals none of whose denominators is zero. */
  predicate IsCoordinate(v: Value) {
    v.TripleValue? && v.deg.den != 0 && v.min.den != 0 && v.sec.den != 0
  }

  /** The decimal degrees of a well-formed triple, by the reference fraction. */
  function Degrees(v: Value): real
    requires IsCoordinate(v)
  {
    SingleFraction(v.deg, v.min, v.sec)
  }

  /** The table holds a GPS directory from which a coordinate can be derived:
      all four positional entries, both coordinates convertible. */
  predicate WellFormedGps(exif: map<Key, Value>) {
    && GpsInfoKey in exif
    && exif[GpsInfoKey].DirectoryValue?
    && var g := exif[GpsInfoKey].entries;
       && LatitudeRefTag in g && LatitudeTag in g && LongitudeRefTag in g && LongitudeTag in g
       && IsCoordinate(g[LatitudeTag]) && IsCoordinate(g[LongitudeTag])
  }

  /** get_gps_info over a normalized table. The directory is read in the
      source's order: latitude (2), its reference (1), longitude (4), its
      reference (3). A truthy GPSInfo that is not a directory cannot be
      indexed and unpacked as the code does, so it is malformed. */
  function GetGpsInfo(exif: map<Key, Value>): (r: GpsOutcome)
    ensures r == NoGps <==> GpsInfoKey !in exif || !Truthy(exif[GpsInfoKey])
    ensures r.Located? <==> WellFormedGps(exif)
    ensures r.Located? ==>
              var g := exif[GpsInfoKey].entries;
              && r.coord.latitude == (if g[LatitudeRefTag] == TextValue("S") then -Degrees(g[LatitudeTag])
                                      else Degrees(g[LatitudeTag]))
              && r.coord.longitude == (if g[LongitudeRefTag] == TextValue("W") then -Degrees(g[LongitudeTag])
                                       else Degrees(g[LongitudeTag]))
  {
    if GpsInfoKey !in exif || !Truthy(exif[GpsInfoKey]) then NoGps
    else
      match exif[GpsInfoKey]
      case DirectoryValue(g) =>
        if LatitudeTag !in g then Failed(MissingEntry(LatitudeTag))
        else
          (match ConvertToDegrees(g[LatitudeTag])
           case Failure(e) => Failed(e)
           case Success(lat0) =>
            if LatitudeRefTag !in g then Failed(MissingEntry(LatitudeRefTag))
            else
              var lat := if g[LatitudeRefTag] == TextValue("S") then -lat0 else lat0;
              if LongitudeTag !in g then Failed(MissingEntry(LongitudeTag))
              else
                (match ConvertToDegrees(g[LongitudeTag])
                 case Failure(e) => Failed(e)
                 case Success(lon0) =>
                   if LongitudeRefTag !in g then Failed(MissingEntry(LongitudeRefTag))
                   else
                     var lon := if g[LongitudeRefTag] == TextValue("W") then -lon0 else lon0;
                     Located(GpsCoord(lat, lon))))
      case _ => Failed(Malformed)
  }

  /** The same table with its GPS directory's entry under tag replaced. */
  function WithGpsEntry(exif: map<Key, Value>, tag: int, v: Value): map<Key, Value>
    requires GpsInfoKey in exif && exif[GpsInfoKey].DirectoryValue?
  {
    exif[GpsInfoKey := DirectoryValue(exif[GpsInfoKey].entries[tag := v])]
  }

  /** Hemisphere symmetry: with latitude reference "S" the latitude is the
      negation of the one with reference "N"; the longitude is untouched. */
  lemma HemisphereFlipNegatesLatitude(exif: map<Key, Value>)
    requires WellFormedGps(exif)
    ensures var south := GetGpsInfo(WithGpsEntry(exif, LatitudeRefTag, TextValue("S")));
            var north := GetGpsInfo(WithGpsEntry(exif, LatitudeRefTag, TextValue("N")));
            && south.Located? && north.Located?
            && south.coord.latitude == -north.coord.latitude
            && south.coord.longitude == north.coord.longitude
  {
  }

  /** The same symmetry for the longitude and the references "W" and "E". */
  lemma HemisphereFlipNegatesLongitude(exif: map<Key, Value>)
    requires WellFormedGps(exif)
    ensures var west := GetGpsInfo(WithGpsEntry(exif, LongitudeRefTag, TextValue("W")));
            var east := GetGpsInfo(WithGpsEntry(exif, LongitudeRefTag, TextValue("E")));
            && west.Located? && east.Located?
            && west.coord.longitude == -east.coord.longitude
            && west.coord.latitude == east.coord.latitude
  {
  }

  /** The comparison is exact: a lower-case "s" or "w", or any reference
      other than the exact text "S" / "W", leaves the coordinate equal to
      its unsigned conversion. */
  lemma OnlyExactReferenceNegates(exif: map<Key, Value>)
    requires WellFormedGps(exif)
    ensures var g := exif[GpsInfoKey].entries;
            var r := GetGpsInfo(exif);
            && (g[LatitudeRefTag] != TextValue("S") ==> r.coord.latitude == Degrees(g[LatitudeTag]))
            && (g[LongitudeRefTag] != TextValue("W") ==> r.coord.longitude == Degrees(g[LongitudeTag]))
  {
  }

  /** A zero denominator in the latitude triple raises before anything else
      is read; one in the longitude triple raises once the latitude and its
      reference have been read. No coordinate comes out either way. */
  lemma ZeroDenominatorFails(exif: map<Key, Value>)
    requires GpsInfoKey in exif && exif[GpsInfoKey].DirectoryValue?
    requires var g := exif[GpsInfoKey].entries;
             || (LatitudeTag in g && g[LatitudeTag].TripleValue? && !IsCoordinate(g[LatitudeTag]))
             || (&& LatitudeTag in g && IsCoordinate(g[LatitudeTag]) && LatitudeRefTag in g
                 && LongitudeTag in g && g[LongitudeTag].TripleValue? && !IsCoordinate(g[LongitudeTag]))
    ensures GetGpsInfo(exif) == Failed(ZeroDivision)
  {
  }

  /** A worked example: 40 deg 26' 46" N, 79 deg 56' 55" W gives
      exactly 145606/3600 (about 40.4461) and -287815/3600 (about -79.9486). */
  lemma PittsburghExample()
    ensures var g := map[
              LatitudeRefTag := TextValue("N"),
              LatitudeTag := TripleValue(Rational(40, 1), Rational(26, 1), Rational(46, 1)),
              LongitudeRefTag := TextValue("W"),
              LongitudeTag := TripleValue(Rational(79, 1), Rational(56, 1), Rational(55, 1))];
            GetGpsInfo(map[GpsInfoKey := DirectoryValue(g)])
              == Located(GpsCoord(145606.0 / 3600.0, -287815.0 / 3600.0))
  {
  }

  /** No range check: a latitude of 100 degrees is returned as it is. */
  lemma LatitudeNotRangeChecked()
    ensures var g := map[
              LatitudeRefTag := TextValue("N"),
              LatitudeTag := TripleValue(Rational(100, 1), Rational(0, 1), Rational(0, 1)),
              LongitudeRefTag := TextValue("E"),
              LongitudeTag := TripleValue(Rational(0, 1), Rational(0, 1), Rational(0, 1))];
            GetGpsInfo(map[GpsInfoKey := DirectoryValue(g)]) == Located(GpsCoord(100.0, 0.0))
  {
  }
}
