/** The choice of a speech voice for Marathi: among the voices the browser offers, prefer a female
    Marathi voice, then any Marathi voice, then a female Hindi voice, then any Hindi voice. The
    choice is remembered in a module-level cache. */
module Speech {
  import opened Wrappers
  import opened Seqs

  /** A voice as the browser describes it: its language tag and its name. */
  datatype Voice = Voice(lang: string, name: string)

  /** Name fragments taken to mark a female voice. */
  const FemalePatterns: seq<string> := ["female", "woman", "lekha", "aditi", "raveena", "priya", "sunita", "meera"]

  /** Lower case of one character; only the letters A to Z have a lower-case form here. */
  function LowerChar(c: char): (r: char)
    ensures 'A' <= c <= 'Z' ==> r as int == c as int + 32
    ensures !('A' <= c <= 'Z') ==> r == c
  {
    if 'A' <= c <= 'Z' then (c as int + 32) as char else c
  }

  /** toLowerCase, character by character. */
  function Lower(s: string): (r: string)
    ensures |r| == |s|
    ensures forall i :: 0 <= i < |s| ==> r[i] == LowerChar(s[i])
  {
    seq(|s|, i requires 0 <= i < |s| => LowerChar(s[i]))
  }

  /** includes: whether pat occurs in s, tried at each starting position in turn. */
  function Contains(s: string, pat: string): bool
    decreases |s|
  {
    if |s| < |pat| then false
    else s[..|pat|] == pat || Contains(s[1..], pat)
  }

  /** pat occurs in s starting at position i. */
  predicate OccursAt(s: string, pat: string, i: int) {
    0 <= i && i + |pat| <= |s| && s[i..i + |pat|] == pat
  }

  /** Contains holds exactly when pat occurs in s at some position. */
  lemma {:induction false} ContainsIff(s: string, pat: string)
    ensures Contains(s, pat) <==> exists i :: OccursAt(s, pat, i)
    decreases |s|
  {
    if |s| >= |pat| && s[..|pat|] == pat {
      assert OccursAt(s, pat, 0);
    } else if |s| >= |pat| {
      ContainsIff(s[1..], pat);
      if Contains(s[1..], pat) {
        var i :| OccursAt(s[1..], pat, i);
        assert s[i + 1..i + 1 + |pat|] == s[1..][i..i + |pat|];
        assert OccursAt(s, pat, i + 1);
      }
      if exists i :: OccursAt(s, pat, i) {
        var i :| OccursAt(s, pat, i);
        assert i != 0;
        assert s[1..][i - 1..i - 1 + |pat|] == s[i..i + |pat|];
        assert OccursAt(s[1..], pat, i - 1);
      }
    }
  }

  /** some over the patterns: whether one of them occurs in s. */
  function SomePattern(s: string, patterns: seq<string>): (r: bool)
    ensures r <==> exists k :: 0 <= k < |patterns| && Contains(s, patterns[k])
  {
    if patterns == [] then false
    else Contains(s, patterns[0]) || SomePattern(s, patterns[1..])
  }

  /** A Marathi voice: its lower-case language tag contains "mr" or "marathi". */
  predicate IsMarathi(v: Voice) {
    Contains(Lower(v.lang), "mr") || Contains(Lower(v.lang), "marathi")
  }

  /** A Hindi voice: its lower-case language tag contains "hi" or "hindi". */
  predicate IsHindi(v: Voice) {
    Contains(Lower(v.lang), "hi") || Contains(Lower(v.lang), "hindi")
  }

  /** A female voice: its lower-case name contains one of the female patterns. */
  predicate IsFemale(v: Voice) {
    SomePattern(Lower(v.name), FemalePatterns)
  }

  /** The first tier: a female Marathi voice. */
  predicate IsFemaleMarathi(v: Voice) {
    IsMarathi(v) && IsFemale(v)
  }

  /** The third tier: a female Hindi voice. */
  predicate IsFemaleHindi(v: Voice) {
    IsHindi(v) && IsFemale(v)
  }

  /** find: the first element that satisfies p, if any. */
  function Find<T>(s: seq<T>, p: T -> bool): (r: Option<T>)
    ensures r.Some? ==> r.value in s && p(r.value)
  {
    if s == [] then None
    else if p(s[0]) then Some(s[0])
    else Find(s[1..], p)
  }

  /** Find gives the element at the first position that satisfies p, and nothing exactly when no
      position does. */
  lemma {:induction false} FindFirst<T>(s: seq<T>, p: T -> bool)
    ensures Find(s, p).None? <==> forall i :: 0 <= i < |s| ==> !p(s[i])
    ensures Find(s, p).Some? ==>
      exists i :: 0 <= i < |s| && s[i] == Find(s, p).value && p(s[i]) && forall j :: 0 <= j < i ==> !p(s[j])
  {
    if s != [] && !p(s[0]) {
      FindFirst(s[1..], p);
      if Find(s[1..], p).Some? {
        var i :| 0 <= i < |s[1..]| && s[1..][i] == Find(s[1..], p).value && p(s[1..][i]) && forall j :: 0 <= j < i ==> !p(s[1..][j]);
        assert s[i + 1] == Find(s, p).value;
        assert forall j :: 0 <= j < i + 1 ==> !p(s[j]) by {
          forall j | 0 <= j < i + 1 ensures !p(s[j]) {
            if j > 0 {
              assert s[j] == s[1..][j - 1];
            }
          }
        }
      } else {
        forall i | 0 <= i < |s| ensures !p(s[i]) {
          if i > 0 {
            assert s[i] == s[1..][i - 1];
          }
        }
      }
    }
  }

  /** Finding in a filtered list is finding what passes both tests. */
  lemma {:induction false} FindInFilter<T>(s: seq<T>, keep: T -> bool, p: T -> bool, both: T -> bool)
    requires forall x :: both(x) == (keep(x) && p(x))
    ensures Find(Filter(s, keep), p) == Find(s, both)
  {
    if s != [] {
      FindInFilter(s[1..], keep, p, both);
    }
  }

  /** The first element of a filtered list is the first element that passes the filter. */
  lemma {:induction false} FirstOfFilter<T>(s: seq<T>, keep: T -> bool)
    ensures |Filter(s, keep)| > 0 <==> Find(s, keep).Some?
    ensures |Filter(s, keep)| > 0 ==> Filter(s, keep)[0] == Find(s, keep).value
  {
    if s != [] {
      FirstOfFilter(s[1..], keep);
    }
  }

  /** The voice search of getMarathiVoice, step by step as the code does it: filter the Marathi
      voices and look for a female one, else take the first Marathi voice; failing that, filter
      the Hindi voices and take a female one or else the first of them. */
  function SelectVoice(voices: seq<Voice>): (r: Option<Voice>)
    ensures r.Some? ==> r.value in voices && (IsMarathi(r.value) || IsHindi(r.value))
  {
    FilterMembers(voices, IsMarathi);
    FilterMembers(voices, IsHindi);
    var marathiVoices := Filter(voices, IsMarathi);
    var femaleMarathi := Find(marathiVoices, IsFemale);
    var selected := if femaleMarathi.None? && |marathiVoices| > 0 then Some(marathiVoices[0]) else femaleMarathi;
    if selected.Some? then selected
    else
      var hindiVoices := Filter(voices, IsHindi);
      var femaleHindi := Find(hindiVoices, IsFemale);
      if femaleHindi.Some? then femaleHindi
      else if |hindiVoices| > 0 then Some(hindiVoices[0])
      else None
  }

  /** The four tiers of the choice, stated on the whole list: the first voice of the first tier
      that has one. */
  function Preferred(voices: seq<Voice>): Option<Voice> {
    var tier1 := Find(voices, IsFemaleMarathi);
    var tier2 := Find(voices, IsMarathi);
    var tier3 := Find(voices, IsFemaleHindi);
    var tier4 := Find(voices, IsHindi);
    if tier1.Some? then tier1
    else if tier2.Some? then tier2
    else if tier3.Some? then tier3
    else tier4
  }

  /** The step-by-step search makes exactly the four-tier choice. */
  lemma SelectVoiceIsPreferred(voices: seq<Voice>)
    ensures SelectVoice(voices) == Preferred(voices)
  {
    FindInFilter(voices, IsMarathi, IsFemale, IsFemaleMarathi);
    FindInFilter(voices, IsHindi, IsFemale, IsFemaleHindi);
    FirstOfFilter(voices, IsMarathi);
    FirstOfFilter(voices, IsHindi);
  }

  /** What the choice promises: a voice from the list, or none exactly when no voice is Marathi
      or Hindi; a Marathi voice whenever there is one, and a female one whenever there is a
      female Marathi voice; otherwise a Hindi voice, female whenever a female Hindi voice exists. */
  lemma SelectVoiceSpec(voices: seq<Voice>)
    ensures SelectVoice(voices).Some? ==> SelectVoice(voices).value in voices
    ensures SelectVoice(voices).None? <==> forall i :: 0 <= i < |voices| ==> !IsMarathi(voices[i]) && !IsHindi(voices[i])
    ensures (exists i :: 0 <= i < |voices| && IsMarathi(voices[i])) ==> SelectVoice(voices).Some? && IsMarathi(SelectVoice(voices).value)
    ensures (exists i :: 0 <= i < |voices| && IsMarathi(voices[i]) && IsFemale(voices[i])) ==> IsFemale(SelectVoice(voices).value)
    ensures (forall i :: 0 <= i < |voices| ==> !IsMarathi(voices[i])) && SelectVoice(voices).Some? ==> IsHindi(SelectVoice(voices).value)
    ensures (forall i :: 0 <= i < |voices| ==> !IsMarathi(voices[i])) && (exists i :: 0 <= i < |voices| && IsHindi(voices[i]) && IsFemale(voices[i])) ==>
      SelectVoice(voices).Some? && IsFemale(SelectVoice(voices).value)
  {
    SelectVoiceIsPreferred(voices);
    FindFirst(voices, IsFemaleMarathi);
    FindFirst(voices, IsMarathi);
    FindFirst(voices, IsFemaleHindi);
    FindFirst(voices, IsHindi);
  }

  /** The module-level cache of getMarathiVoice. */
  class VoiceCache {
    var cachedVoice: Option<Voice>
    var voicesLoaded: bool

    /** A voice is only ever cached together with marking the voices loaded. */
    ghost predicate Valid()
      reads this
    {
      cachedVoice.Some? ==> voicesLoaded
    }

    /** Module load: nothing cached, voices not loaded. */
    constructor ()
      ensures Valid()
      ensures cachedVoice == None && !voicesLoaded
    {
      cachedVoice := None;
      voicesLoaded := false;
    }

    /** getMarathiVoice, given what getVoices returns: a cached voice is served once the voices
        are loaded, without looking at the list; an empty list gives none and leaves the cache
        alone; otherwise the choice is made, cached (even when it is none) and the voices are
        marked loaded. */
    method GetMarathiVoice(voices: seq<Voice>) returns (r: Option<Voice>)
      requires Valid()
      modifies this
      ensures Valid()
      ensures old(cachedVoice.Some? && voicesLoaded) ==> r == old(cachedVoice) && unchanged(this)
      ensures !old(cachedVoice.Some? && voicesLoaded) && voices == [] ==> r == None && unchanged(this)
      ensures !old(cachedVoice.Some? && voicesLoaded) && voices != [] ==>
        r == SelectVoice(voices) && cachedVoice == r && voicesLoaded
    {
      if cachedVoice.Some? && voicesLoaded {
        return cachedVoice;
      }
      if |voices| == 0 {
        return None;
      }
      var selected := SelectVoice(voices);
      cachedVoice := selected;
      voicesLoaded := true;
      r := cachedVoice;
    }
  }
}
