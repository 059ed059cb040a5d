/** The file-type gate of the upload endpoint: a case-insensitive suffix
    whitelist, with HTTP 400 for anything else. */
module Upload {

  const AllowedSuffixes: seq<string> := [".jpg", ".jpeg", ".png", ".webp", ".tiff"]

  const RejectDetail: string := "Unsupported file type."

  datatype Decision = Accepted | Rejected(status: int, detail: string)

  function LowerChar(c: char): char {
    if 'A' <= c <= 'Z' then (c as int + 32) as char else c
  }

  /** The filename's lower-case form, letter by letter. */
  function Lower(s: string): (r: string)
    ensures |r| == |s|
    ensures forall i :: 0 <= i < |s| ==> r[i] == LowerChar(s[i])
  {
    if s == [] then [] else [LowerChar(s[0])] + Lower(s[1..])
  }

  predicate EndsWith(s: string, suffix: string) {
    |suffix| <= |s| && s[|s| - |suffix|..] == suffix
  }

  /** str.endswith with a tuple of suffixes: true when any one of them ends s. */
  predicate EndsWithAny(s: string, suffixes: seq<string>)
    decreases |suffixes|
  {
    suffixes != [] && (EndsWith(s, suffixes[0]) || EndsWithAny(s, suffixes[1..]))
  }

  lemma {:induction false} EndsWithAnyMeansSome(s: string, suffixes: seq<string>)
    ensures EndsWithAny(s, suffixes) <==>
              exists k :: 0 <= k < |suffixes| && EndsWith(s, suffixes[k])
    decreases |suffixes|
  {
    if suffixes != [] {
      EndsWithAnyMeansSome(s, suffixes[1..]);
      if EndsWithAny(s, suffixes[1..]) {
        var k :| 0 <= k < |suffixes[1..]| && EndsWith(s, suffixes[1..][k]);
        assert EndsWith(s, suffixes[k + 1]);
      }
      if exists k :: 0 <= k < |suffixes| && EndsWith(s, suffixes[k]) {
        var k :| 0 <= k < |suffixes| && EndsWith(s, suffixes[k]);
        if k > 0 { assert suffixes[1..][k - 1] == suffixes[k]; }
      }
    }
  }

  /** Accept exactly the filenames whose lower-case form ends with one of the
      allowed suffixes; reject every other one with status 400. */
  function CheckUpload(filename: string): (d: Decision)
    ensures d.Accepted? <==>
              exists k :: 0 <= k < |AllowedSuffixes| && EndsWith(Lower(filename), AllowedSuffixes[k])
    ensures d.Rejected? ==> d == Rejected(400, RejectDetail)
  {
    var low := Lower(filename);
    EndsWithAnyMeansSome(low, AllowedSuffixes);
    if EndsWithAny(low, AllowedSuffixes) then Accepted else Rejected(400, RejectDetail)
  }

  lemma {:induction false} LowerIdempotent(s: string)
    ensures Lower(Lower(s)) == Lower(s)
  {
  }

  lemma {:induction false} LowerAppend(a: string, b: string)
    ensures Lower(a + b) == Lower(a) + Lower(b)
  {
  }

  /** The decision ignores letter case: a name and its lower-case form are
      accepted or rejected alike. */
  lemma CaseInsensitive(filename: string)
    ensures CheckUpload(Lower(filename)) == CheckUpload(filename)
  {
    LowerIdempotent(filename);
  }

  /** Any name ending with an allowed suffix, in any mix of cases, is accepted. */
  lemma AllowedSuffixAccepted(stem: string, ext: string, k: int)
    requires 0 <= k < |AllowedSuffixes| && Lower(ext) == AllowedSuffixes[k]
    ensures CheckUpload(stem + ext) == Accepted
  {
    LowerAppend(stem, ext);
    var low := Lower(stem + ext);
    assert low[|low| - |ext|..] == Lower(ext);
  }

  /** A suffix of at least four characters fixes the last and the fourth-last
      character of any string it ends. */
  lemma EndsWithFixesChars(s: string, x: string)
    requires |x| >= 4
    ensures EndsWith(s, x) ==> s[|s| - 1] == x[|x| - 1] && s[|s| - 4] == x[|x| - 4]
  {
    if EndsWith(s, x) {
      var t := s[|s| - |x|..];
      assert s[|s| - 1] == t[|x| - 1] && s[|s| - 4] == t[|x| - 4];
    }
  }

  /** Every allowed suffix has at least four characters, and either does not
      end with 'f' or has no '.' fourth from its end. */
  lemma AllowedSuffixShapes()
    ensures forall k :: 0 <= k < |AllowedSuffixes| ==>
              |AllowedSuffixes[k]| >= 4
              && (AllowedSuffixes[k][|AllowedSuffixes[k]| - 1] != 'f'
                  || AllowedSuffixes[k][|AllowedSuffixes[k]| - 4] != '.')
  {
  }

  /** A name ending with ".tif" ends with none of the allowed suffixes. */
  lemma TifMatchesNoSuffix(low: string)
    requires EndsWith(low, ".tif")
    ensures forall k :: 0 <= k < |AllowedSuffixes| ==> !EndsWith(low, AllowedSuffixes[k])
  {
    var n := |low|;
    assert low[n - 1] == low[n - 4..][3] && low[n - 4] == low[n - 4..][0];
    AllowedSuffixShapes();
    forall k | 0 <= k < |AllowedSuffixes|
      ensures !EndsWith(low, AllowedSuffixes[k])
    {
      EndsWithFixesChars(low, AllowedSuffixes[k]);
    }
  }

  /** ".tif", in any mix of cases, is not on the list: such a name is
      rejected with status 400. */
  lemma TifRejected(stem: string, ext: string)
    requires Lower(ext) == ".tif"
    ensures CheckUpload(stem + ext) == Rejected(400, RejectDetail)
  {
    LowerAppend(stem, ext);
    var low := Lower(stem + ext);
    assert low == Lower(stem) + ".tif";
    assert low[|low| - 4..] == ".tif";
    TifMatchesNoSuffix(low);
  }
}
