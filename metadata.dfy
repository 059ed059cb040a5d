/** The record extract_metadata assembles from its colour-profile and EXIF
    steps. Each step is isolated: what one records does not depend on the
    other's input or failure. */
module Metadata {
  import opened Values
  import opened Gps
  import opened Exif
  import opened Icc

  datatype Record = Record(
    icc: Option<string>,
    exif: map<string, Option<Value>>,
    gps: Option<GpsCoord>)

  /** The two steps in the source's order: the ICC field first, then the
      EXIF try block, whose outcome fills the summary and GPS fields. */
  method ExtractMetadata(profile: Option<seq<byte>>, parse: seq<byte> -> Option<string>,
                         tags: map<int, string>, read: ExifRead)
    returns (record: Record)
    ensures record.icc == IccDescription(profile, parse)
    ensures record.icc.None? <==> !HasProfile(profile)
    ensures record.exif == ExifOutcome(tags, read).summary
    ensures record.gps == ExifOutcome(tags, read).gps
    ensures record.exif == map[] ==> record.gps == None
  {
    var icc := IccDescription(profile, parse);
    var fields := ExtractExif(tags, read);
    record := Record(icc, fields.summary, fields.gps);
  }
}
