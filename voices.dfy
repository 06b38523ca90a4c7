/** Choice of the synthesis voice from the list the platform offers
    (`loadVoices`). */
module Voices {

  import opened Optional

  /** A platform voice: its language tag and its display name. */
  datatype Voice = Voice(lang: string, name: string)

  /** `s.includes(part)`: `part` occurs in `s` (case-sensitively). */
  predicate Includes(s: string, part: string)
    ensures Includes(s, part) ==> |part| <= |s|
    decreases |s|
  {
    part <= s || (|s| > 0 && Includes(s[1..], part))
  }

  /** `part` occurs in `s` starting at index `i`. */
  predicate OccursAt(s: string, part: string, i: int) {
    0 <= i <= |s| - |part| && s[i..i + |part|] == part
  }

  /** `Includes` finds exactly the occurrences of `part` in `s`. */
  lemma {:induction false} IncludesOccurrence(s: string, part: string)
    ensures Includes(s, part) <==> exists i :: OccursAt(s, part, i)
    decreases |s|
  {
    if part <= s {
      assert OccursAt(s, part, 0);
    } else if |s| > 0 {
      IncludesOccurrence(s[1..], part);
      if Includes(s[1..], part) {
        var i :| OccursAt(s[1..], part, i);
        assert s[1..][i..i + |part|] == s[i + 1..i + 1 + |part|];
        assert OccursAt(s, part, i + 1);
      }
      if i :| OccursAt(s, part, i) {
        assert i != 0;
        assert OccursAt(s[1..], part, i - 1);
      }
    }
  }

  /** An occurrence of `part` means `s` includes it. */
  lemma IncludesAt(s: string, part: string, i: nat)
    requires OccursAt(s, part, i)
    ensures Includes(s, part)
  {
    IncludesOccurrence(s, part);
  }

  /** `part` cannot occur where one of its characters is missing. */
  lemma MissingCharacter(s: string, part: string, k: nat)
    requires k < |part| && part[k] !in s
    ensures !Includes(s, part)
  {
    IncludesOccurrence(s, part);
  }

  /** The first two tiers of the voice preference. */
  datatype Tier = BritishMale | AmericanNotFemale {

    predicate Matches(v: Voice) {
      match this
      case BritishMale => Includes(v.lang, "en-GB") && Includes(v.name, "Male")
      case AmericanNotFemale => Includes(v.lang, "en-US") && !Includes(v.name, "Female")
    }
  }

  /** `voices.find(voice => tier.Matches(voice))`, as an index. */
  function FindFirst(voices: seq<Voice>, tier: Tier): (r: Option<nat>)
    ensures r.Some? ==> r.value < |voices| && tier.Matches(voices[r.value])
    ensures r.Some? ==> forall j | 0 <= j < r.value :: !tier.Matches(voices[j])
    ensures r.None? ==> forall j | 0 <= j < |voices| :: !tier.Matches(voices[j])
    decreases |voices|
  {
    if voices == [] then None
    else if tier.Matches(voices[0]) then Some(0)
    else match FindFirst(voices[1..], tier)
      case None => None
      case Some(i) => Some(i + 1)
  }

  /** The voice `loadVoices` selects: the first British voice whose name
      includes `Male`, else the first American voice whose name does not
      include `Female`, else the first voice, and none for an empty list. */
  function SelectVoice(voices: seq<Voice>): (r: Option<Voice>)
    ensures r.None? <==> voices == []
    ensures r.Some? ==> r.value in voices
  {
    match FindFirst(voices, BritishMale)
    case Some(i) => Some(voices[i])
    case None =>
      match FindFirst(voices, AmericanNotFemale)
      case Some(j) => Some(voices[j])
      case None => if voices == [] then None else Some(voices[0])
  }

  /** Tier 1 wins whenever some voice matches it. */
  lemma SelectBritishMale(voices: seq<Voice>, i: nat)
    requires i < |voices| && BritishMale.Matches(voices[i])
    requires forall j | 0 <= j < i :: !BritishMale.Matches(voices[j])
    ensures SelectVoice(voices) == Some(voices[i])
  {
  }

  /** Tier 2 wins when no voice matches tier 1. */
  lemma SelectAmerican(voices: seq<Voice>, i: nat)
    requires forall j | 0 <= j < |voices| :: !BritishMale.Matches(voices[j])
    requires i < |voices| && AmericanNotFemale.Matches(voices[i])
    requires forall j | 0 <= j < i :: !AmericanNotFemale.Matches(voices[j])
    ensures SelectVoice(voices) == Some(voices[i])
  {
  }

  /** Otherwise the first voice of the list is taken. */
  lemma SelectFallback(voices: seq<Voice>)
    requires voices != []
    requires forall j | 0 <= j < |voices| :: !BritishMale.Matches(voices[j]) && !AmericanNotFemale.Matches(voices[j])
    ensures SelectVoice(voices) == Some(voices[0])
  {
  }
}
