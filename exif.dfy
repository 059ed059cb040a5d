/** The EXIF part of extract_metadata: renaming the raw tag table through the
    tag dictionary, deriving GPS from the renamed table, projecting the
    seven-field summary, and the try/except that decides what survives. */
module Exif {
  import opened Values
  import opened Gps

  /** What reading the raw EXIF table gave: it raised, there was none, or
      the table's (tag ID, value) items in the dictionary's iteration order. */
  datatype ExifRead = ReadRaises | NoExif | Items(items: seq<(int, Value)>)

  /** The two fields the EXIF step records: the summary ({} when nothing was
      recorded) and the GPS coordinate (None for {}). */
  datatype ExifFields = ExifFields(summary: map<string, Option<Value>>, gps: Option<GpsCoord>)

  /** TAGS.get(tag, tag): the dictionary's name for the ID, else the ID. */
  function Lookup(tags: map<int, string>, tag: int): Key {
    if tag in tags then Named(tags[tag]) else Numbered(tag)
  }

  /** The table the normalization loop holds after inserting items in order:
      each item is stored under its looked-up key, a later item overwriting
      an earlier one with the same key. */
  function Normalized(tags: map<int, string>, items: seq<(int, Value)>): map<Key, Value>
    decreases |items|
  {
    if items == [] then map[]
    else
      var last := items[|items| - 1];
      Normalized(tags, items[..|items| - 1])[Lookup(tags, last.0) := last.1]
  }

  /** The image of the raw tag IDs under the lookup. */
  function KeyImage(tags: map<int, string>, items: seq<(int, Value)>): set<Key> {
    set i | 0 <= i < |items| :: Lookup(tags, items[i].0)
  }

  /** Tag IDs are unique, as the keys of the raw dictionary are. */
  predicate DistinctTags(items: seq<(int, Value)>) {
    forall i, j :: 0 <= i < j < |items| ==> items[i].0 != items[j].0
  }

  /** No two raw items are renamed to the same key. */
  predicate DistinctKeys(tags: map<int, string>, items: seq<(int, Value)>) {
    forall i, j :: 0 <= i < j < |items| ==> Lookup(tags, items[i].0) != Lookup(tags, items[j].0)
  }

  lemma KeyImageSnoc(tags: map<int, string>, items: seq<(int, Value)>)
    requires items != []
    ensures KeyImage(tags, items)
            == KeyImage(tags, items[..|items| - 1]) + {Lookup(tags, items[|items| - 1].0)}
  {
  }

  /** The normalized key set is exactly the image of the raw tag IDs. */
  lemma {:induction false} NormalizedKeys(tags: map<int, string>, items: seq<(int, Value)>)
    ensures Normalized(tags, items).Keys == KeyImage(tags, items)
    decreases |items|
  {
    if items != [] {
      NormalizedKeys(tags, items[..|items| - 1]);
      KeyImageSnoc(tags, items);
    }
  }

  /** An item whose key no later item shares keeps its raw value unchanged. */
  lemma {:induction false} NormalizedLastWins(tags: map<int, string>, items: seq<(int, Value)>, i: int)
    requires 0 <= i < |items|
    requires forall j :: i < j < |items| ==> Lookup(tags, items[j].0) != Lookup(tags, items[i].0)
    ensures Lookup(tags, items[i].0) in Normalized(tags, items)
    ensures Normalized(tags, items)[Lookup(tags, items[i].0)] == items[i].1
    decreases |items|
  {
    var n := |items| - 1;
    if i < n {
      var front := items[..n];
      assert front[i] == items[i];
      forall j | i < j < |front|
        ensures Lookup(tags, front[j].0) != Lookup(tags, front[i].0)
      {
        assert front[j] == items[j];
      }
      NormalizedLastWins(tags, front, i);
    }
  }

  /** When no two tags are renamed alike, every raw value is found under its
      looked-up key and no entry is lost. */
  lemma {:induction false} NormalizedPreservesItems(tags: map<int, string>, items: seq<(int, Value)>)
    requires DistinctKeys(tags, items)
    ensures forall i :: 0 <= i < |items| ==>
              Lookup(tags, items[i].0) in Normalized(tags, items)
              && Normalized(tags, items)[Lookup(tags, items[i].0)] == items[i].1
    ensures |Normalized(tags, items)| == |items|
    decreases |items|
  {
    forall i | 0 <= i < |items|
      ensures Lookup(tags, items[i].0) in Normalized(tags, items)
      ensures Normalized(tags, items)[Lookup(tags, items[i].0)] == items[i].1
    {
      NormalizedLastWins(tags, items, i);
    }
    if items != [] {
      var n := |items| - 1;
      var front := items[..n];
      assert DistinctKeys(tags, front) by {
        forall i, j | 0 <= i < j < |front|
          ensures Lookup(tags, front[i].0) != Lookup(tags, front[j].0)
        {
          assert front[i] == items[i] && front[j] == items[j];
        }
      }
      NormalizedPreservesItems(tags, front);
      NormalizedKeys(tags, front);
      forall i | 0 <= i < |front|
        ensures Lookup(tags, front[i].0) != Lookup(tags, items[n].0)
      {
        assert front[i] == items[i];
      }
      assert Lookup(tags, items[n].0) !in KeyImage(tags, front);
    }
  }

  /** A tag the dictionary does not know is kept under its numeric ID with
      its raw value: no other item can be renamed to that ID. */
  lemma UnknownTagKept(tags: map<int, string>, items: seq<(int, Value)>, i: int)
    requires DistinctTags(items)
    requires 0 <= i < |items| && items[i].0 !in tags
    ensures Numbered(items[i].0) in Normalized(tags, items)
    ensures Normalized(tags, items)[Numbered(items[i].0)] == items[i].1
  {
  }

  /** The normalization loop: a fresh table, filled item by item. */
  method NormalizeTags(tags: map<int, string>, items: seq<(int, Value)>) returns (exif: map<Key, Value>)
    ensures exif == Normalized(tags, items)
    ensures exif.Keys == KeyImage(tags, items)
  {
    exif := map[];
    for i := 0 to |items|
      invariant exif == Normalized(tags, items[..i])
    {
      var (tag, value) := items[i];
      var decoded := Lookup(tags, tag);
      exif := exif[decoded := value];
      assert items[..i + 1][..i] == items[..i];
    }
    assert items[..|items|] == items;
    NormalizedKeys(tags, items);
  }

  /** (summary key, normalized tag name), in the order the summary is filled. */
  const SummaryFields: seq<(string, string)> := [
    ("camera_make", "Make"),
    ("camera_model", "Model"),
    ("iso", "ISOSpeedRatings"),
    ("exposure_time", "ExposureTime"),
    ("aperture", "FNumber"),
    ("focal_length", "FocalLength"),
    ("date_taken", "DateTimeOriginal")
  ]

  /** The seven-field summary, filled key by key: each field is the lookup
      of its tag name in the normalized table, None when the name is absent.
      The ensures read it against the table of summary fields. */
  function Summary(exif: map<Key, Value>): (s: map<string, Option<Value>>)
    ensures |s| == |SummaryFields| == 7
    ensures forall i :: 0 <= i < |SummaryFields| ==>
              SummaryFields[i].0 in s && s[SummaryFields[i].0] == Get(exif, Named(SummaryFields[i].1))
    ensures s.Keys == {"camera_make", "camera_model", "iso", "exposure_time",
                       "aperture", "focal_length", "date_taken"}
  {
    map[
      "camera_make" := Get(exif, Named("Make")),
      "camera_model" := Get(exif, Named("Model")),
      "iso" := Get(exif, Named("ISOSpeedRatings")),
      "exposure_time" := Get(exif, Named("ExposureTime")),
      "aperture" := Get(exif, Named("FNumber")),
      "focal_length" := Get(exif, Named("FocalLength")),
      "date_taken" := Get(exif, Named("DateTimeOriginal"))
    ]
  }

  /** What the EXIF step records. A read that raises, a missing or empty
      table, and a GPS derivation that raises all leave both fields empty;
      otherwise the summary is recorded, and the coordinate when one was found. */
  function ExifOutcome(tags: map<int, string>, read: ExifRead): (o: ExifFields)
    ensures o.summary == map[] <==>
              (|| !read.Items? || read.items == []
               || GetGpsInfo(Normalized(tags, read.items)).Failed?)
    ensures o.summary != map[] ==> o.summary == Summary(Normalized(tags, read.items))
    ensures o.gps.Some? <==>
              read.Items? && read.items != [] && GetGpsInfo(Normalized(tags, read.items)).Located?
    ensures o.gps.Some? ==> o.gps == Some(GetGpsInfo(Normalized(tags, read.items)).coord)
  {
    if !read.Items? || read.items == [] then ExifFields(map[], None)
    else
      var exif := Normalized(tags, read.items);
      match GetGpsInfo(exif)
      case Failed(_) => ExifFields(map[], None)
      case NoGps => ExifFields(Summary(exif), None)
      case Located(c) => ExifFields(Summary(exif), Some(c))
  }

  /** The try block of the EXIF step, run for its recorded fields. */
  method ExtractExif(tags: map<int, string>, read: ExifRead) returns (fields: ExifFields)
    ensures fields == ExifOutcome(tags, read)
  {
    var summary: map<string, Option<Value>> := map[];
    var gps: Option<GpsCoord> := None;
    if read.Items? && read.items != [] {
      var exif := NormalizeTags(tags, read.items);
      var info := GetGpsInfo(exif);
      if !info.Failed? {
        if info.Located? {
          gps := Some(info.coord);
        }
        summary := summary["camera_make" := Get(exif, Named("Make"))];
        summary := summary["camera_model" := Get(exif, Named("Model"))];
        summary := summary["iso" := Get(exif, Named("ISOSpeedRatings"))];
        summary := summary["exposure_time" := Get(exif, Named("ExposureTime"))];
        summary := summary["aperture" := Get(exif, Named("FNumber"))];
        summary := summary["focal_length" := Get(exif, Named("FocalLength"))];
        summary := summary["date_taken" := Get(exif, Named("DateTimeOriginal"))];
        assert summary == Summary(exif);
      }
    }
    fields := ExifFields(summary, gps);
  }

  /** A zero denominator in the latitude triple empties both recorded fields:
      the summary assignments come after the GPS call that raises. */
  lemma ZeroDenominatorEmptiesBoth(tags: map<int, string>, read: ExifRead)
    requires read.Items? && read.items != []
    requires var exif := Normalized(tags, read.items);
             && GpsInfoKey in exif && exif[GpsInfoKey].DirectoryValue?
             && LatitudeTag in exif[GpsInfoKey].entries
             && exif[GpsInfoKey].entries[LatitudeTag].TripleValue?
             && !IsCoordinate(exif[GpsInfoKey].entries[LatitudeTag])
    ensures ExifOutcome(tags, read) == ExifFields(map[], None)
  {
  }

  /** Without a GPSInfo entry the summary is still recorded and the
      coordinate is empty. */
  lemma NoGpsKeepsSummary(tags: map<int, string>, read: ExifRead)
    requires read.Items? && read.items != []
    requires GpsInfoKey !in Normalized(tags, read.items)
    ensures ExifOutcome(tags, read)
            == ExifFields(Summary(Normalized(tags, read.items)), None)
  {
  }
}
