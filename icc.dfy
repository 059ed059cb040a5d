/** The embedded colour-profile field of extract_metadata: None without a
    profile, the profile's description when it can be read, a fixed sentinel
    when it cannot. */
module Icc {
  import opened Values

  const Unparsable: string := "Embedded ICC profile found, could not parse description"

  /** True when the image info carries a non-empty ICC profile. */
  predicate HasProfile(profile: Option<seq<byte>>) {
    profile.Some? && profile.value != []
  }

  /** parse stands for opening the profile and decoding its product
      description; it gives None exactly when that raises. */
  function IccDescription(profile: Option<seq<byte>>, parse: seq<byte> -> Option<string>): (r: Option<string>)
    ensures r.None? <==> !HasProfile(profile)
    ensures HasProfile(profile) && parse(profile.value).None? ==> r == Some(Unparsable)
    ensures HasProfile(profile) && parse(profile.value).Some? ==> r == parse(profile.value)
  {
    if HasProfile(profile) then
      match parse(profile.value)
      case Some(desc) => Some(desc)
      case None => Some(Unparsable)
    else
      None
  }

  /** The sentinel is never produced for an absent or empty profile; when it
      appears, a profile was present and either could not be parsed or its
      description is that very text. */
  lemma SentinelOnlyForPresentProfile(profile: Option<seq<byte>>, parse: seq<byte> -> Option<string>)
    ensures !HasProfile(profile) ==> IccDescription(profile, parse) != Some(Unparsable)
    ensures IccDescription(profile, parse) == Some(Unparsable) <==>
              HasProfile(profile) && parse(profile.value) in {None, Some(Unparsable)}
  {
  }

  /** The three states are distinct whenever the parsed description is not
      the sentinel text itself. */
  lemma ThreeStatesDistinct(bytes: seq<byte>, good: seq<byte> -> Option<string>, bad: seq<byte> -> Option<string>)
    requires bytes != []
    requires good(bytes).Some? && good(bytes).value != Unparsable
    requires bad(bytes).None?
    ensures var absent := IccDescription(None, good);
            var parsed := IccDescription(Some(bytes), good);
            var failed := IccDescription(Some(bytes), bad);
            absent != parsed && parsed != failed && failed != absent
  {
  }
}
