/** Worked cases: an answer of three punctuated sentences and how it is
    spoken, and the voice each tier of the preference picks. */
module Scenarios {

  import opened Optional
  import opened Text
  import opened Voices
  import opened Assistant

  lemma SplitThree(a: string, b: string, c: string, t1: char, t2: char, t3: char)
    requires NoTerminator(a) && NoTerminator(b) && NoTerminator(c)
    requires !IsBlank(b) && !IsBlank(c)
    requires IsTerminator(t1) && IsTerminator(t2) && IsTerminator(t3)
    ensures Split(a + [t1] + (b + [t2] + (c + [t3]))) == [a, b, c, []]
  {
    SplitSentence(c, t3, []);
    assert c + [t3] == c + [t3] + [];
    SplitSentence(b, t2, c + [t3]);
    SplitSentence(a, t1, b + [t2] + (c + [t3]));
  }

  lemma KeepThree(a: string, b: string, c: string)
    requires !IsBlank(a) && !IsBlank(b) && !IsBlank(c)
    ensures KeepNonBlank([a, b, c, []]) == [a, b, c]
  {
    var pieces := [a, b, c, []];
    assert pieces[1..] == [b, c, []] && pieces[2..] == [c, []] && pieces[3..] == [[]];
    assert KeepNonBlank(pieces[3..]) == [];
    assert KeepNonBlank(pieces[2..]) == [c];
    assert KeepNonBlank(pieces[1..]) == [b, c];
  }

  /** Three non-blank sentences, each closed by one terminator, are spoken
      as exactly those three sentences, without their terminators. */
  lemma ThreeSentences(a: string, b: string, c: string, t1: char, t2: char, t3: char)
    requires NoTerminator(a) && NoTerminator(b) && NoTerminator(c)
    requires !IsBlank(a) && !IsBlank(b) && !IsBlank(c)
    requires IsTerminator(t1) && IsTerminator(t2) && IsTerminator(t3)
    ensures Segments(a + [t1] + (b + [t2] + (c + [t3]))) == [a, b, c]
  {
    SplitThree(a, b, c, t1, t2, t3);
    KeepThree(a, b, c);
  }

  lemma ReplySegments(reply: string)
    requires reply == "Hello there! How are you? Fine."
    ensures Segments(reply) == ["Hello there", " How are you", " Fine"]
  {
    var a, b, c := "Hello there", " How are you", " Fine";
    assert reply == a + ['!'] + (b + ['?'] + (c + ['.']));
    assert !IsSpace(a[0]) && !IsSpace(b[1]) && !IsSpace(c[1]);
    ThreeSentences(a, b, c, '!', '?', '.');
  }

  lemma CleanFirst(a: string)
    requires a == "Hello there"
    ensures Clean(a) == a
  {
    CleanSingleSpaced(a);
  }

  /** "Hello there! How are you? Fine." is spoken as three cancel-then-speak
      pairs whose texts carry no closing period. */
  lemma ReplyPlayback(reply: string, voice: Option<Voice>)
    requires reply == "Hello there! How are you? Fine."
    ensures var calls := Playback(Segments(reply), voice);
            |calls| == 6 && calls[0] == calls[2] == calls[4] == Cancel
            && calls[1] == Speak("Hello there", voice)
            && calls[3] == Speak("How are you", voice)
            && calls[5] == Speak("Fine", voice)
  {
    ReplySegments(reply);
    var segments := Segments(reply);
    CleanFirst(segments[0]);
    SpacedWords(segments[1], "How are you");
    SpacedWords(segments[2], "Fine");
    PlaybackThree(segments, voice, "Hello there", "How are you", "Fine");
  }

  /** Three sentences are played as three cancel-then-speak pairs of their
      cleaned texts, in order. */
  lemma PlaybackThree(sentences: seq<string>, voice: Option<Voice>, x: string, y: string, z: string)
    requires |sentences| == 3
    requires Clean(sentences[0]) == x && Clean(sentences[1]) == y && Clean(sentences[2]) == z
    ensures var calls := Playback(sentences, voice);
            |calls| == 6 && calls[0] == calls[2] == calls[4] == Cancel
            && calls[1] == Speak(x, voice) && calls[3] == Speak(y, voice) && calls[5] == Speak(z, voice)
  {
    PlaybackAt(sentences, voice, 0);
    PlaybackAt(sentences, voice, 1);
    PlaybackAt(sentences, voice, 2);
  }

  /** The second and third segments of the reply lose their leading space. */
  lemma SpacedWords(segment: string, w: string)
    requires (segment == " How are you" && w == "How are you") || (segment == " Fine" && w == "Fine")
    ensures Clean(segment) == w
  {
    assert segment == " " + w;
    CleanLeadingSpace(w);
  }

  /** A single-spaced sentence without terminators or whitespace at its
      ends is cleaned to itself. */
  lemma CleanSingleSpaced(sentence: string)
    requires forall i | 0 <= i < |sentence| :: !IsTerminator(sentence[i]) && (IsSpace(sentence[i]) ==> sentence[i] == ' ')
    requires NoAdjacent(sentence, Blanks)
    requires sentence == [] || (!IsSpace(sentence[0]) && !IsSpace(sentence[|sentence| - 1]))
    ensures Clean(sentence) == sentence
  {
    CleanUnchanged(sentence);
  }

  /** A single-spaced sentence with one space in front is cleaned to the
      sentence without that space. */
  lemma CleanLeadingSpace(sentence: string)
    requires forall i | 0 <= i < |sentence| :: !IsTerminator(sentence[i]) && (IsSpace(sentence[i]) ==> sentence[i] == ' ')
    requires NoAdjacent(sentence, Blanks)
    requires sentence != [] && !IsSpace(sentence[0]) && !IsSpace(sentence[|sentence| - 1])
    ensures Clean(" " + sentence) == sentence
  {
    var spaced := " " + sentence;
    assert spaced[0] == ' ' && spaced[1..] == sentence;
    TrimUnchanged(sentence);
    assert Trim(spaced) == sentence;
    CleanUnchanged(sentence);
  }

  // ---------------------------------------------------------------------
  // Voice preference

  /** A British voice whose name includes `Male` wins over an earlier American one. */
  lemma PicksBritishMale(samantha: Voice, daniel: Voice)
    requires samantha.lang == "en-US" && samantha.name == "Samantha"
    requires daniel.lang == "en-GB" && daniel.name == "Daniel Male"
    ensures SelectVoice([samantha, daniel]) == Some(daniel)
  {
    MissingCharacter(samantha.lang, "en-GB", 3);
    IncludesAt(daniel.lang, "en-GB", 0);
    IncludesAt(daniel.name, "Male", 7);
    SelectBritishMale([samantha, daniel], 1);
  }

  /** `Female` does not include `Male` (the search is case-sensitive), so a
      British female voice is passed over for an American voice. */
  lemma PassesOverFemale(kate: Voice, alex: Voice)
    requires kate.lang == "en-GB" && kate.name == "Kate Female"
    requires alex.lang == "en-US" && alex.name == "Alex"
    ensures SelectVoice([kate, alex]) == Some(alex)
  {
    KateIsNeither(kate);
    AlexIsAmerican(alex);
    SelectAmerican([kate, alex], 1);
  }

  /** A British voice named `Kate Female` matches neither of the first two tiers. */
  lemma KateIsNeither(kate: Voice)
    requires kate.lang == "en-GB" && kate.name == "Kate Female"
    ensures !BritishMale.Matches(kate) && !AmericanNotFemale.Matches(kate)
  {
    FemaleIsNotMale(kate.name);
    MissingCharacter(kate.lang, "en-US", 3);
  }

  /** An American voice named `Alex` matches the second tier and not the first. */
  lemma AlexIsAmerican(alex: Voice)
    requires alex.lang == "en-US" && alex.name == "Alex"
    ensures !BritishMale.Matches(alex) && AmericanNotFemale.Matches(alex)
  {
    MissingCharacter(alex.lang, "en-GB", 3);
    IncludesAt(alex.lang, "en-US", 0);
    MissingCharacter(alex.name, "Female", 0);
  }

  /** The name search is case-sensitive: `Female` does not include `Male`. */
  lemma FemaleIsNotMale(name: string)
    requires name == "Kate Female"
    ensures !Includes(name, "Male")
  {
    MissingCharacter(name, "Male", 0);
  }
}
