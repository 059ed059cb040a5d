# img-metadata: the extractor's own logic, modelled and proved in Dafny

`img-metadata.py` extracts a metadata record from one image, for a command
line or an HTTP endpoint. It hands most of the work to Pillow, `imagehash` and
FastAPI. This project models the parts the script decides for itself:

- **GPS** (`gps.dfy`, module `Gps`): `get_gps_info` and its inner
  `convert_to_degrees`. A (degrees, minutes, seconds) triple of
  (numerator, denominator) rationals becomes `d + m/60 + s/3600`, computed
  exactly over `real`. The GPS directory is read by position: 1 is the latitude
  reference, 2 the latitude, 3 the longitude reference, 4 the longitude. The
  latitude is negated when its reference is exactly `"S"`, the longitude when
  its reference is exactly `"W"`. The outcome is `NoGps` (no `GPSInfo` entry,
  or a falsy one), `Located`, or `Failed` with the exception it would raise:
  a missing directory entry, a value of the wrong shape, or a zero denominator.
- **EXIF** (`exif.dfy`, module `Exif`): the EXIF part of `extract_metadata`.
  - The normalization loop renames each raw tag ID through the tag dictionary,
    or keeps the numeric ID when the dictionary does not know it.
  - GPS is derived from the normalized table.
  - A seven-field summary is projected from that table.
  - The `try`/`except` decides what is recorded. A read that raises, a missing
    or empty table, and a GPS derivation that raises all leave both the
    summary and the GPS field empty.
  - The loop is a `method` with a loop invariant. It is proved equal to the
    fold `Normalized`, and the lemmas about `Normalized` say what the table holds.
- **ICC** (`icc.dfy`, module `Icc`): the three-way colour-profile field.
  - An absent or empty profile gives `None`.
  - A profile the parser can read gives its description.
  - A profile the parser cannot read gives the fixed sentinel text.
- **Upload gate** (`upload.dfy`, module `Upload`): the endpoint accepts a file
  when its lower-cased name ends with `.jpg`, `.jpeg`, `.png`, `.webp` or
  `.tiff`. Every other name is rejected with status 400.
- **Assembly** (`metadata.dfy`, module `Metadata`): the ICC step and the EXIF
  step combined into one record, each independent of the other.

Shared value types are in `values.dfy` (module `Values`):
- tag values as a tagged variant: integer, text, bytes, one rational, a
  rational triple, or a nested directory;
- normalized keys: `Named(string)` or `Numbered(int)`;
- Python truthiness of a value.

The foreign parts are parameters:
- the tag dictionary `ExifTags.TAGS` is a `map<int, string>`;
- the raw EXIF table is the result of the read;
- the ICC parser is a function `seq<byte> -> Option<string>`.

The raw table is given as its `(tag, value)` items in the dictionary's
iteration order, not as a `map`. Two tag IDs can share one dictionary name.
The loop then keeps the value inserted last, and only the order tells which
value that is (`Exif.NormalizedLastWins`).

Two things the code does not do:
- A valid latitude lies in [-90, 90] and a longitude in [-180, 180]. The code
  never checks this, and `Gps.LatitudeNotRangeChecked` shows a latitude of 100
  coming back as it is.
- GPS altitude (tag 6) is not read.

## Model

| member | source | states |
|---|---|---|
| `Gps.ConvertToDegrees` | img-metadata.py:16-18 | succeeds exactly on a rational triple whose three denominators are non-zero. Its value then equals the single fraction `(dn·md·sd·3600 + mn·dd·sd·60 + sn·dd·md) / (dd·md·sd·3600)`. A triple with a zero denominator fails with `ZeroDivision`, and any other shape fails as malformed |
| `Gps.FractionSum` | img-metadata.py:18 | `dn/dd + (mn/md)/60 + (sn/sd)/3600` equals that single fraction exactly, whenever no denominator is zero |
| `Gps.GetGpsInfo` | img-metadata.py:12-27 | gives `NoGps` exactly when `GPSInfo` is missing or falsy, so no conversion is attempted then. Gives a coordinate exactly when the directory holds entries 1-4 and entries 2 and 4 are convertible triples. The latitude is minus its magnitude exactly when entry 1 is the text `"S"`, and the magnitude otherwise; likewise the longitude with entry 3 and `"W"` |
| `Gps.HemisphereFlipNegatesLatitude` | img-metadata.py:19-21 | switching the latitude reference from `"N"` to `"S"` negates the latitude and leaves the longitude unchanged |
| `Gps.HemisphereFlipNegatesLongitude` | img-metadata.py:22-24 | switching the longitude reference from `"E"` to `"W"` negates the longitude and leaves the latitude unchanged |
| `Gps.OnlyExactReferenceNegates` | img-metadata.py:20-24 | any reference other than the exact text `"S"` / `"W"`, lower-case included, leaves the coordinate equal to its unsigned conversion |
| `Gps.ZeroDenominatorFails` | img-metadata.py:16-22 | a zero denominator in the latitude triple, or in the longitude triple once the latitude and its reference have been read, makes the derivation fail with `ZeroDivision` instead of giving a value |
| `Gps.PittsburghExample` | img-metadata.py:16-27 | 40°26'46" N, 79°56'55" W gives exactly 145606/3600 and -287815/3600 |
| `Gps.LatitudeNotRangeChecked` | img-metadata.py:19-27 | a latitude of 100 degrees is returned unchanged: nothing checks the range |
| `Exif.NormalizeTags` | img-metadata.py:56-58 | the loop builds exactly the fold `Normalized` of the raw items. Its key set is exactly the image of the raw tag IDs under the dictionary lookup |
| `Exif.NormalizedKeys` | img-metadata.py:56-58 | the normalized key set equals `{TAGS[t] if t in TAGS else t : t a raw tag ID}` |
| `Exif.NormalizedLastWins` | img-metadata.py:56-58 | a raw item whose renamed key no later item shares is stored under that key with its value unchanged |
| `Exif.NormalizedPreservesItems` | img-metadata.py:56-58 | when no two raw tags are renamed alike, every raw value sits unchanged under its renamed key, and the table has as many entries as the raw table |
| `Exif.UnknownTagKept` | img-metadata.py:57-58 | a tag ID the dictionary does not know is kept under its numeric ID with its raw value |
| `Exif.Summary` | img-metadata.py:63-69 | the summary has exactly the seven keys camera_make, camera_model, iso, exposure_time, aperture, focal_length and date_taken. Each holds the normalized-table lookup of Make, Model, ISOSpeedRatings, ExposureTime, FNumber, FocalLength and DateTimeOriginal respectively, or `None` when that name is absent |
| `Exif.ExifOutcome` | img-metadata.py:50-73 | the recorded summary is empty exactly when the read raises, gives no table or an empty one, or the GPS derivation raises; otherwise it is the seven-field summary of the normalized table. A coordinate is recorded exactly when the derivation located one, and never without the summary |
| `Exif.ExtractExif` | img-metadata.py:50-73 | the try block, with its loop and its successive summary assignments, records exactly `ExifOutcome` |
| `Exif.ZeroDenominatorEmptiesBoth` | img-metadata.py:53-73 | a zero denominator in the latitude triple leaves both the summary and the GPS field empty |
| `Exif.NoGpsKeepsSummary` | img-metadata.py:59-69 | without a `GPSInfo` entry the summary is still recorded, and the GPS field is empty |
| `Icc.IccDescription` | img-metadata.py:40-48 | `None` exactly when no non-empty profile is present. The sentinel when the parser fails on a present profile. The parser's description when it succeeds |
| `Icc.SentinelOnlyForPresentProfile` | img-metadata.py:40-48 | an absent profile never yields the sentinel. The sentinel appears exactly when a profile is present and either cannot be parsed or describes itself with the sentinel's own text |
| `Icc.ThreeStatesDistinct` | img-metadata.py:40-48 | absent, parsed and unparsable give three different field values, unless the description is the sentinel text itself |
| `Upload.Lower` | img-metadata.py:108 | the lower-cased name has the same length, and every character is the lower-case form of the one at the same position |
| `Upload.CheckUpload` | img-metadata.py:108-109 | accepts exactly the names whose lower-cased form ends with one of `.jpg`, `.jpeg`, `.png`, `.webp`, `.tiff`. Every other name is rejected with status 400 and detail "Unsupported file type." |
| `Upload.EndsWithAnyMeansSome` | img-metadata.py:108 | `endswith` over a tuple of suffixes holds exactly when some one suffix of the tuple ends the name |
| `Upload.CaseInsensitive` | img-metadata.py:108 | a name and its lower-case form get the same decision |
| `Upload.AllowedSuffixAccepted` | img-metadata.py:108 | any name ending with an allowed suffix, in any mix of letter case, is accepted |
| `Upload.TifRejected` | img-metadata.py:108-109 | any name ending with `.tif`, in any mix of letter case, is rejected with status 400 |
| `Metadata.ExtractMetadata` | img-metadata.py:31-73 | the record's profile field is `IccDescription` of the profile alone, whatever the EXIF read gives. Its summary and GPS fields are `ExifOutcome` of the read alone |

## Left out

- Opening the image, `image._getexif()`, `image.format`, `image.mode` and `image.size` are Pillow calls. The EXIF read is a parameter that raises, gives nothing, or gives the raw items.
- Parsing the ICC profile (`ImageCms.getOpenProfile`) and decoding its description (UTF-8 with errors ignored) are Pillow and codec calls. Together they are one parameter `seq<byte> -> Option<string>`, where `None` means the step raised.
- The perceptual hash (img-metadata.py:75-78) and the histogram mean, median and standard deviation (img-metadata.py:80-86) are foreign library calls with floating-point results.
- The `google_maps` URL field (img-metadata.py:28) is not modelled. It depends on Python's float-to-text formatting.
- The filename and file-size fields (img-metadata.py:37-38) are not modelled. They read the file object and the operating system.
- The command-line entry point and its JSON printing (img-metadata.py:90-100) are I/O.
- The FastAPI application, the health endpoint and the upload read (img-metadata.py:10, 102-112) are transport. Only the suffix gate is modelled.
- Gps.ConvertToDegrees: computes with exact rationals, not IEEE-754 doubles, so rounding is not modelled.
- Upload.Lower: lower-cases ASCII letters only, whereas Python's `str.lower` maps all of Unicode. The decision is unchanged all the same. The Kelvin sign U+212A lower-cases to `k`, which no allowed suffix contains. U+0130 `İ` lower-cases to `i` followed by the combining dot U+0307, and that dot always separates the `i` from what follows it, so a name containing it still cannot end with `.tiff` through that `i`.
- Upload.CheckUpload: takes the filename as a string. A missing filename, on which the endpoint would raise before deciding, is not modelled.
- Rationals are modelled as (numerator, denominator) pairs, because the code indexes them as `d[0]` and `d[1]`. Whether a given Pillow version hands out such pairs is outside this model.
- Which exception a malformed GPS directory raises (`KeyError`, `TypeError`, `IndexError` or `ValueError`) is folded into `MissingEntry`/`Malformed`. The caller swallows every kind alike.
