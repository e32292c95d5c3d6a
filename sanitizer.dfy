/**
 * The chat front end's reply clean-up (`clean_response` in app.py): cut the
 * reply before the first echoed prompt heading, cut it before the first
 * unwanted advice phrase and trim what precedes that phrase, then strip.
 */
module Sanitizer {
  import opened Text

  /** Prompt headings that must not leak into a reply; each cut keeps what precedes the first occurrence. */
  const Markers: seq<string> := ["\nQuery:", "\nContext:", "\nQUERY:", "\nCONTEXT:"]

  /** Advice phrases; each cut keeps what precedes the first occurrence, right-trimmed. */
  const UnwantedPhrases: seq<string> := ["I recommend", "You could try", "suggestions:"]

  /** Every pattern in `ms` is non-empty (Python's `split` rejects an empty separator). */
  predicate NonEmptyPatterns(ms: seq<string>) {
    forall i :: 0 <= i < |ms| ==> ms[i] != []
  }

  /** One marker step: `text.split(m)[0]` when `m in text`. */
  function CutMarker(text: string, m: string): (r: string)
    requires m != []
    ensures |r| <= |text| && r == text[..|r|]
    ensures !Contains(r, m)
    ensures Contains(text, m) ==> |r| == Find(text, m)
    ensures !Contains(text, m) ==> r == text
  {
    if Contains(text, m) then SplitHead(text, m) else text
  }

  /** One phrase step: `text.split(u)[0].rstrip()` when `u in text`. */
  function CutPhrase(text: string, u: string): (r: string)
    requires u != []
    ensures |r| <= |text| && r == text[..|r|]
    ensures !Contains(r, u)
    ensures Contains(text, u) ==> |r| <= Find(text, u) && AllSpace(text[|r|..Find(text, u)])
                                  && (r == [] || !IsSpace(r[|r| - 1]))
    ensures !Contains(text, u) ==> r == text
  {
    if Contains(text, u) then
      var head := SplitHead(text, u);
      RStripSpec(head);
      NotContainedInSlice(head, u, 0, |RStrip(head)|);
      assert head[..|RStrip(head)|] == RStrip(head);
      assert text[|RStrip(head)|..Find(text, u)] == head[|RStrip(head)|..];
      RStrip(head)
    else text
  }

  /** The marker loop: apply the marker steps in order. */
  function CutMarkers(text: string, ms: seq<string>): string
    requires NonEmptyPatterns(ms)
  {
    if ms == [] then text else CutMarkers(CutMarker(text, ms[0]), ms[1..])
  }

  /** The phrase loop: apply the phrase steps in order. */
  function CutPhrases(text: string, us: seq<string>): string
    requires NonEmptyPatterns(us)
  {
    if us == [] then text else CutPhrases(CutPhrase(text, us[0]), us[1..])
  }

  /** What `clean_response` returns. */
  function Cleaned(text: string): string {
    if text == "" then "" else Strip(CutPhrases(CutMarkers(text, Markers), UnwantedPhrases))
  }

  /** `clean_response`: the two loops over the marker and phrase lists, then a strip. */
  method CleanResponse(text: string) returns (cleaned: string)
    ensures cleaned == Cleaned(text)
  {
    if text == "" {
      return "";
    }
    var t := text;
    for j := 0 to |Markers|
      invariant CutMarkers(text, Markers) == CutMarkers(t, Markers[j..])
    {
      var m := Markers[j];
      assert Markers[j..][1..] == Markers[j + 1..];
      if Contains(t, m) {
        t := SplitHead(t, m);
      }
    }
    assert Markers[|Markers|..] == [];
    for j := 0 to |UnwantedPhrases|
      invariant CutPhrases(CutMarkers(text, Markers), UnwantedPhrases) == CutPhrases(t, UnwantedPhrases[j..])
    {
      var u := UnwantedPhrases[j];
      assert UnwantedPhrases[j..][1..] == UnwantedPhrases[j + 1..];
      if Contains(t, u) {
        var head := SplitHead(t, u);
        t := RStrip(head);
      }
    }
    assert UnwantedPhrases[|UnwantedPhrases|..] == [];
    cleaned := Strip(t);
  }

  /** A prefix of a string that does not contain `m` does not contain `m` either. */
  lemma PrefixKeepsAbsence(s: string, r: string, m: string)
    requires |r| <= |s| && r == s[..|r|]
    requires !Contains(s, m)
    ensures !Contains(r, m)
  {
    NotContainedInSlice(s, m, 0, |r|);
  }

  /** The marker loop only ever shortens: its result is a prefix of its input. */
  lemma {:induction false} CutMarkersIsPrefix(text: string, ms: seq<string>)
    requires NonEmptyPatterns(ms)
    ensures var r := CutMarkers(text, ms); |r| <= |text| && r == text[..|r|]
  {
    if ms != [] {
      var t := CutMarker(text, ms[0]);
      CutMarkersIsPrefix(t, ms[1..]);
      var r := CutMarkers(t, ms[1..]);
      assert r == text[..|r|] by { assert t[..|r|] == text[..|r|]; }
    }
  }

  /** The phrase loop only ever shortens: its result is a prefix of its input. */
  lemma {:induction false} CutPhrasesIsPrefix(text: string, us: seq<string>)
    requires NonEmptyPatterns(us)
    ensures var r := CutPhrases(text, us); |r| <= |text| && r == text[..|r|]
  {
    if us != [] {
      var t := CutPhrase(text, us[0]);
      CutPhrasesIsPrefix(t, us[1..]);
      var r := CutPhrases(t, us[1..]);
      assert r == text[..|r|] by { assert t[..|r|] == text[..|r|]; }
    }
  }

  /** After the marker loop none of the markers occurs. */
  lemma {:induction false} CutMarkersRemovesAll(text: string, ms: seq<string>)
    requires NonEmptyPatterns(ms)
    ensures forall i :: 0 <= i < |ms| ==> !Contains(CutMarkers(text, ms), ms[i])
  {
    if ms != [] {
      var t := CutMarker(text, ms[0]);
      var r := CutMarkers(t, ms[1..]);
      CutMarkersRemovesAll(t, ms[1..]);
      CutMarkersIsPrefix(t, ms[1..]);
      PrefixKeepsAbsence(t, r, ms[0]);
      forall i | 0 <= i < |ms| ensures !Contains(r, ms[i]) {
        if i > 0 { assert ms[i] == ms[1..][i - 1]; }
      }
    }
  }

  /** After the phrase loop none of the phrases occurs. */
  lemma {:induction false} CutPhrasesRemovesAll(text: string, us: seq<string>)
    requires NonEmptyPatterns(us)
    ensures forall i :: 0 <= i < |us| ==> !Contains(CutPhrases(text, us), us[i])
  {
    if us != [] {
      var t := CutPhrase(text, us[0]);
      var r := CutPhrases(t, us[1..]);
      CutPhrasesRemovesAll(t, us[1..]);
      CutPhrasesIsPrefix(t, us[1..]);
      PrefixKeepsAbsence(t, r, us[0]);
      forall i | 0 <= i < |us| ensures !Contains(r, us[i]) {
        if i > 0 { assert us[i] == us[1..][i - 1]; }
      }
    }
  }

  /** A text in which no marker occurs passes the marker loop unchanged. */
  lemma {:induction false} CutMarkersUntouched(text: string, ms: seq<string>)
    requires NonEmptyPatterns(ms)
    requires forall i :: 0 <= i < |ms| ==> !Contains(text, ms[i])
    ensures CutMarkers(text, ms) == text
  {
    if ms != [] {
      assert forall i :: 0 <= i < |ms| - 1 ==> ms[1..][i] == ms[i + 1];
      CutMarkersUntouched(text, ms[1..]);
    }
  }

  /** A text in which no phrase occurs passes the phrase loop unchanged. */
  lemma {:induction false} CutPhrasesUntouched(text: string, us: seq<string>)
    requires NonEmptyPatterns(us)
    requires forall i :: 0 <= i < |us| ==> !Contains(text, us[i])
    ensures CutPhrases(text, us) == text
  {
    if us != [] {
      assert forall i :: 0 <= i < |us| - 1 ==> us[1..][i] == us[i + 1];
      CutPhrasesUntouched(text, us[1..]);
    }
  }

  /** The text the final strip is applied to: a prefix of the input. */
  lemma CutIsPrefix(text: string)
    ensures var p := CutPhrases(CutMarkers(text, Markers), UnwantedPhrases);
      |p| <= |text| && p == text[..|p|]
  {
    var t := CutMarkers(text, Markers);
    CutMarkersIsPrefix(text, Markers);
    CutPhrasesIsPrefix(t, UnwantedPhrases);
    var p := CutPhrases(t, UnwantedPhrases);
    assert t[..|p|] == text[..|p|];
  }

  /**
   * The result is the strip of a prefix of the input, so it has no leading or
   * trailing whitespace, and the empty reply cleans to the empty string.
   */
  lemma CleanedIsStrippedPrefix(text: string)
    ensures exists k :: 0 <= k <= |text| && Cleaned(text) == Strip(text[..k])
    ensures IsStripped(Cleaned(text))
    ensures text == "" ==> Cleaned(text) == ""
  {
    if text != "" {
      CutIsPrefix(text);
      var p := CutPhrases(CutMarkers(text, Markers), UnwantedPhrases);
      assert Cleaned(text) == Strip(text[..|p|]);
    } else {
      assert Cleaned(text) == Strip(text[..0]);
    }
  }

  /** Stripping cannot create an occurrence: the stripped string is a slice. */
  lemma StripKeepsAbsence(p: string, m: string)
    requires !Contains(p, m)
    ensures !Contains(Strip(p), m)
  {
    LStripSpec(p);
    RStripSpec(LStrip(p));
    var a := |p| - |LStrip(p)|;
    assert Strip(p) == p[a..a + |Strip(p)|];
    NotContainedInSlice(p, m, a, a + |Strip(p)|);
  }

  /** The empty string contains no non-empty pattern. */
  lemma EmptyContainsNothing(m: string)
    requires m != []
    ensures !Contains("", m)
  {
  }

  /** No marker occurs in the cleaned reply. */
  lemma CleanedHasNoMarkers(text: string)
    ensures forall i :: 0 <= i < |Markers| ==> !Contains(Cleaned(text), Markers[i])
  {
    forall i | 0 <= i < |Markers| ensures !Contains(Cleaned(text), Markers[i]) {
      if text == "" {
        EmptyContainsNothing(Markers[i]);
      } else {
        var t := CutMarkers(text, Markers);
        var p := CutPhrases(t, UnwantedPhrases);
        CutMarkersRemovesAll(text, Markers);
        CutPhrasesIsPrefix(t, UnwantedPhrases);
        PrefixKeepsAbsence(t, p, Markers[i]);
        StripKeepsAbsence(p, Markers[i]);
      }
    }
  }

  /** No unwanted phrase occurs in the cleaned reply. */
  lemma CleanedHasNoPhrases(text: string)
    ensures forall i :: 0 <= i < |UnwantedPhrases| ==> !Contains(Cleaned(text), UnwantedPhrases[i])
  {
    forall i | 0 <= i < |UnwantedPhrases| ensures !Contains(Cleaned(text), UnwantedPhrases[i]) {
      if text == "" {
        EmptyContainsNothing(UnwantedPhrases[i]);
      } else {
        var p := CutPhrases(CutMarkers(text, Markers), UnwantedPhrases);
        CutPhrasesRemovesAll(CutMarkers(text, Markers), UnwantedPhrases);
        StripKeepsAbsence(p, UnwantedPhrases[i]);
      }
    }
  }

  /** A reply with no marker and no phrase in it is only stripped. */
  lemma CleanedUntouched(text: string)
    requires forall i :: 0 <= i < |Markers| ==> !Contains(text, Markers[i])
    requires forall i :: 0 <= i < |UnwantedPhrases| ==> !Contains(text, UnwantedPhrases[i])
    ensures Cleaned(text) == Strip(text)
  {
    CutMarkersUntouched(text, Markers);
    CutPhrasesUntouched(text, UnwantedPhrases);
  }

  /** Cleaning a cleaned reply changes nothing. */
  lemma CleanedIdempotent(text: string)
    ensures Cleaned(Cleaned(text)) == Cleaned(text)
  {
    var c := Cleaned(text);
    CleanedHasNoMarkers(text);
    CleanedHasNoPhrases(text);
    CleanedUntouched(c);
    CleanedIsStrippedPrefix(text);
    StrippedStripsToItself(c);
  }
}

/** A worked example of the reply clean-up. */
module SanitizerExamples {
  import opened Text
  import opened Sanitizer

  /**
   * `m` does not occur in `s` when no position of `s` holds the first two
   * characters of `m` in a row.
   */
  lemma NoOccurrenceByFirstTwo(s: string, m: string)
    requires |m| >= 2
    requires forall i :: 0 <= i < |s| - 1 ==> s[i] != m[0] || s[i + 1] != m[1]
    ensures !Contains(s, m)
  {
    forall i | 0 <= i && i + |m| <= |s| ensures !OccursAt(s, m, i) {
      if s[i] != m[0] {
        assert s[i..i + |m|][0] == s[i];
      } else {
        assert s[i..i + |m|][1] == s[i + 1];
      }
    }
  }

  /** When the first character of `m` does not occur in `a`, the first occurrence of `m` in `a + m + b` is right after `a`. */
  lemma FirstOccurrenceAfter(a: string, m: string, b: string)
    requires m != []
    requires forall i :: 0 <= i < |a| ==> a[i] != m[0]
    ensures Find(a + m + b, m) == |a|
  {
    var s := a + m + b;
    assert s[|a|..|a| + |m|] == m;
    assert OccursAt(s, m, |a|);
    forall i | 0 <= i < |a| ensures !OccursAt(s, m, i) {
      assert s[i] == a[i];
    }
  }

  /** The example reply: a sentence, the echoed context heading, and leaked context. */
  const LeakyReply: string := "Here is data.\nContext:\nleaked stuff"

  /** The sentence the example reply should be cut down to. */
  const Answer: string := "Here is data."

  /** The example reply does not contain the query heading, so the first marker cut leaves it alone. */
  lemma LeakyReplyHasNoQueryHeading()
    ensures !Contains(LeakyReply, Markers[0])
  {
    NoOccurrenceByFirstTwo(LeakyReply, Markers[0]);
  }

  /** The second marker cut keeps exactly the sentence before the context heading. */
  lemma LeakyReplyIsCutAtContextHeading()
    ensures CutMarker(LeakyReply, Markers[1]) == Answer
  {
    assert LeakyReply == Answer + Markers[1] + "\nleaked stuff";
    FirstOccurrenceAfter(Answer, Markers[1], "\nleaked stuff");
    assert LeakyReply[..|Answer|] == Answer;
  }

  /** The sentence holds no marker and no phrase, and has no surrounding whitespace. */
  lemma AnswerIsClean()
    ensures forall i :: 0 <= i < |Markers| ==> !Contains(Answer, Markers[i])
    ensures forall i :: 0 <= i < |UnwantedPhrases| ==> !Contains(Answer, UnwantedPhrases[i])
    ensures IsStripped(Answer)
  {
    forall i | 0 <= i < |Markers| ensures !Contains(Answer, Markers[i]) {
      NoOccurrenceByFirstTwo(Answer, Markers[i]);
    }
    forall i | 0 <= i < |UnwantedPhrases| ensures !Contains(Answer, UnwantedPhrases[i]) {
      NoOccurrenceByFirstTwo(Answer, UnwantedPhrases[i]);
    }
  }

  /**
   * A non-empty reply that the first marker leaves alone and the second cuts
   * down to a clean, stripped text cleans to that text.
   */
  lemma CleanedWhenSecondMarkerCuts(x: string, a: string)
    requires x != ""
    requires CutMarker(x, Markers[0]) == x && CutMarker(x, Markers[1]) == a
    requires forall i :: 0 <= i < |Markers| ==> !Contains(a, Markers[i])
    requires forall i :: 0 <= i < |UnwantedPhrases| ==> !Contains(a, UnwantedPhrases[i])
    requires IsStripped(a)
    ensures Cleaned(x) == a
  {
    assert CutMarkers(x, Markers) == CutMarkers(a, Markers[2..]);
    CutMarkersUntouched(a, Markers[2..]);
    CutPhrasesUntouched(a, UnwantedPhrases);
    StrippedStripsToItself(a);
  }

  /** A reply that echoes the context heading is cut before it. */
  lemma ExampleLeakedContextIsCut()
    ensures Cleaned(LeakyReply) == Answer
  {
    LeakyReplyHasNoQueryHeading();
    LeakyReplyIsCutAtContextHeading();
    AnswerIsClean();
    CleanedWhenSecondMarkerCuts(LeakyReply, Answer);
  }
}
