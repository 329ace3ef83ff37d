/** Placeholder substitution in notification templates (app/modules/notifications/service.py,
    `_render`). The regex class \w is a parameter; all that matters is that braces are not in it. */
module TemplateRenderer {
  import opened Options

  type Class = char -> bool

  ghost predicate NoBraces(word: Class) {
    !word('{') && !word('}')
  }

  function Braced(name: string): string {
    "{{" + name + "}}"
  }

  /** The regex at the start of t: two braces, a word, two braces. */
  ghost predicate Matches(t: string, name: string, word: Class) {
    name != "" && (forall i :: 0 <= i < |name| ==> word(name[i])) && Braced(name) <= t
  }

  function WordLength(t: string, word: Class): (n: nat)
    ensures n <= |t| && (forall i :: 0 <= i < n ==> word(t[i])) && (n < |t| ==> !word(t[n]))
  {
    if t == "" || !word(t[0]) then 0 else 1 + WordLength(t[1..], word)
  }

  /** The matcher: take the longest word, then look for the closing braces. */
  function NameAt(t: string, word: Class): (r: Option<string>)
    ensures r.Some? ==> |t| >= |r.value| + 4
  {
    if |t| < 2 || t[..2] != "{{" then None
    else
      var n := WordLength(t[2..], word);
      if n > 0 && "}}" <= t[2 + n..] then Some(t[2..2 + n]) else None
  }

  /** Taking the longest word loses no match: the matcher finds a name exactly when the regex does. */
  lemma NameAtIsRegex(t: string, word: Class, name: string)
    requires NoBraces(word)
    ensures NameAt(t, word) == Some(name) <==> Matches(t, name, word)
  {
    if NameAt(t, word) == Some(name) {
      FoundMatches(t, word, name);
    }
    if Matches(t, name, word) {
      MatchIsFound(t, word, name);
    }
  }

  lemma FoundMatches(t: string, word: Class, name: string)
    requires NameAt(t, word) == Some(name)
    ensures Matches(t, name, word)
  {
    var n := |name|;
    assert t == t[..2] + t[2..2 + n] + t[2 + n..];
    assert t[2 + n..] == "}}" + t[4 + n..];
    assert t == Braced(name) + t[4 + n..];
  }

  lemma MatchIsFound(t: string, word: Class, name: string)
    requires NoBraces(word) && Matches(t, name, word)
    ensures NameAt(t, word) == Some(name)
  {
    var n := WordLength(t[2..], word);
    assert t[..2] == Braced(name)[..2] == "{{";
    assert forall i :: 0 <= i < |name| ==> t[2..][i] == Braced(name)[2 + i] == name[i];
    assert t[2..][|name|] == Braced(name)[2 + |name|] == '}';
    assert n == |name|;
    assert t[2..2 + n] == name;
    assert t[2 + n] == Braced(name)[2 + n] && t[3 + n] == Braced(name)[3 + n];
  }

  // ---------------------------------------------------------------- the renderer

  type Payload = map<string, string>

  function ValueOf(name: string, payload: Payload): string {
    if name in payload then payload[name] else Braced(name)
  }

  /** `re.sub`: scan from the left, replace a match and go on after it. */
  function Render(t: string, payload: Payload, word: Class): string {
    if t == "" then ""
    else
      match NameAt(t, word)
      case Some(name) => ValueOf(name, payload) + Render(t[|name| + 4..], payload, word)
      case None => [t[0]] + Render(t[1..], payload, word)
  }

  // ---------------------------------------------------------------- segmentations

  datatype Segment = Literal(c: char) | Placeholder(name: string)

  function Text(s: Segment): string {
    match s
    case Literal(c) => [c]
    case Placeholder(name) => Braced(name)
  }

  function Flatten(segments: seq<Segment>): string {
    if segments == [] then "" else Text(segments[0]) + Flatten(segments[1..])
  }

  /** The template cut into placeholders and single characters at which no match starts. */
  ghost predicate Segmentation(t: string, segments: seq<Segment>, word: Class)
    decreases segments
  {
    && t == Flatten(segments)
    && (segments != [] ==>
          && (segments[0].Literal? ==> forall name :: !Matches(t, name, word))
          && (segments[0].Placeholder? ==> Matches(t, segments[0].name, word))
          && Segmentation(Flatten(segments[1..]), segments[1..], word))
  }

  function Substitute(s: Segment, payload: Payload): string {
    match s
    case Literal(c) => [c]
    case Placeholder(name) => ValueOf(name, payload)
  }

  /** Each segment is substituted once, on its own: substituted text is never scanned again, and
      an unknown name stands as it was. */
  function Substituted(segments: seq<Segment>, payload: Payload): string {
    if segments == [] then "" else Substitute(segments[0], payload) + Substituted(segments[1..], payload)
  }

  function Segments(t: string, word: Class): seq<Segment> {
    if t == "" then []
    else
      match NameAt(t, word)
      case Some(name) => [Placeholder(name)] + Segments(t[|name| + 4..], word)
      case None => [Literal(t[0])] + Segments(t[1..], word)
  }

  lemma SegmentationCons(t: string, s: Segment, rest: string, segments: seq<Segment>, word: Class)
    requires Segmentation(rest, segments, word) && t == Text(s) + rest
    requires s.Literal? ==> forall name :: !Matches(t, name, word)
    requires s.Placeholder? ==> Matches(t, s.name, word)
    ensures Segmentation(t, [s] + segments, word)
  {
    assert ([s] + segments)[1..] == segments;
  }

  lemma FirstSegment(t: string, word: Class)
    requires NoBraces(word)
    ensures match NameAt(t, word)
      case Some(name) => Matches(t, name, word) && t == Braced(name) + t[|name| + 4..]
      case None => forall name :: !Matches(t, name, word)
  {
    forall name ensures NameAt(t, word) == Some(name) <==> Matches(t, name, word) {
      NameAtIsRegex(t, word, name);
    }
  }

  /** Every template has a segmentation. */
  lemma {:induction false} SegmentationExists(t: string, word: Class)
    requires NoBraces(word)
    ensures Segmentation(t, Segments(t, word), word)
  {
    if t == "" {
    } else {
      match NameAt(t, word) {
        case Some(name) =>
          var rest := t[|name| + 4..];
          SegmentationExists(rest, word);
          FirstSegment(t, word);
          SegmentationCons(t, Placeholder(name), rest, Segments(rest, word), word);
        case None =>
          SegmentationExists(t[1..], word);
          FirstSegment(t, word);
          SegmentationCons(t, Literal(t[0]), t[1..], Segments(t[1..], word), word);
      }
    }
  }

  /** ... and only one. */
  lemma {:induction false} SegmentationIsUnique(t: string, segments: seq<Segment>, word: Class)
    requires NoBraces(word) && Segmentation(t, segments, word)
    ensures segments == Segments(t, word)
    decreases segments
  {
    if segments == [] {
    } else {
      var rest := Flatten(segments[1..]);
      SegmentationIsUnique(rest, segments[1..], word);
      SegmentsOfCons(t, segments[0], rest, word);
      assert segments == [segments[0]] + segments[1..];
    }
  }

  lemma SegmentsOfCons(t: string, s: Segment, rest: string, word: Class)
    requires NoBraces(word) && t == Text(s) + rest
    requires s.Literal? ==> forall name :: !Matches(t, name, word)
    requires s.Placeholder? ==> Matches(t, s.name, word)
    ensures Segments(t, word) == [s] + Segments(rest, word)
  {
    assert t[|Text(s)|..] == rest;
    FirstSegment(t, word);
    if s.Placeholder? {
      NameAtIsRegex(t, word, s.name);
    }
  }

  /** Rendering is the concatenation of the substituted segments of the one segmentation. */
  lemma RenderSubstitutesSegments(t: string, segments: seq<Segment>, payload: Payload, word: Class)
    requires NoBraces(word) && Segmentation(t, segments, word)
    ensures Render(t, payload, word) == Substituted(segments, payload)
  {
    SegmentationIsUnique(t, segments, word);
    RenderIsSubstituted(t, payload, word);
  }

  lemma {:induction false} RenderIsSubstituted(t: string, payload: Payload, word: Class)
    ensures Render(t, payload, word) == Substituted(Segments(t, word), payload)
  {
    if t == "" {
    } else {
      match NameAt(t, word) {
        case Some(name) =>
          RenderIsSubstituted(t[|name| + 4..], payload, word);
          assert Segments(t, word)[1..] == Segments(t[|name| + 4..], word);
        case None =>
          RenderIsSubstituted(t[1..], payload, word);
          assert Segments(t, word)[1..] == Segments(t[1..], word);
      }
    }
  }

  lemma {:induction false} UnknownNamesStand(segments: seq<Segment>, payload: Payload)
    requires forall i :: 0 <= i < |segments| && segments[i].Placeholder? ==> segments[i].name !in payload
    ensures Substituted(segments, payload) == Flatten(segments)
  {
    if segments == [] {
    } else {
      UnknownNamesStand(segments[1..], payload);
    }
  }

  /** A payload that knows no name of the template, the empty one above all, leaves it as it is. */
  lemma UnknownPayloadIsIdentity(t: string, payload: Payload, word: Class)
    requires NoBraces(word)
    requires forall name :: Placeholder(name) in Segments(t, word) ==> name !in payload
    ensures Render(t, payload, word) == t
  {
    SegmentationExists(t, word);
    RenderSubstitutesSegments(t, Segments(t, word), payload, word);
    UnknownNamesStand(Segments(t, word), payload);
  }

  lemma {:induction false} SubstitutedAgrees(segments: seq<Segment>, p: Payload, q: Payload)
    requires forall i :: 0 <= i < |segments| && segments[i].Placeholder? ==>
        ValueOf(segments[i].name, p) == ValueOf(segments[i].name, q)
    ensures Substituted(segments, p) == Substituted(segments, q)
  {
    if segments == [] {
    } else {
      SubstitutedAgrees(segments[1..], p, q);
    }
  }

  /** Only the names that occur matter. */
  lemma OnlyOccurringNamesMatter(t: string, p: Payload, q: Payload, word: Class)
    requires forall name :: Placeholder(name) in Segments(t, word) ==>
      (name in p <==> name in q) && (name in p ==> p[name] == q[name])
    ensures Render(t, p, word) == Render(t, q, word)
  {
    RenderIsSubstituted(t, p, word);
    RenderIsSubstituted(t, q, word);
    SubstitutedAgrees(Segments(t, word), p, q);
  }

  // ---------------------------------------------------------------- what rendering does at the front

  predicate Word(name: string, word: Class) {
    name != "" && forall i :: 0 <= i < |name| ==> word(name[i])
  }

  /** A placeholder of a known name becomes its value, and the rest is rendered on its own. */
  lemma KnownNameIsReplaced(name: string, rest: string, payload: Payload, word: Class)
    requires NoBraces(word) && Word(name, word) && name in payload
    ensures Render("{{" + name + "}}" + rest, payload, word) == payload[name] + Render(rest, payload, word)
  {
    FrontIsMatched(name, rest, word);
  }

  /** A placeholder of an unknown name stands. */
  lemma UnknownNameStands(name: string, rest: string, payload: Payload, word: Class)
    requires NoBraces(word) && Word(name, word) && name !in payload
    ensures Render("{{" + name + "}}" + rest, payload, word) == "{{" + name + "}}" + Render(rest, payload, word)
  {
    FrontIsMatched(name, rest, word);
  }

  lemma FrontIsMatched(name: string, rest: string, word: Class)
    requires NoBraces(word) && Word(name, word)
    ensures var t := "{{" + name + "}}" + rest; NameAt(t, word) == Some(name) && t[|name| + 4..] == rest
  {
    var t := "{{" + name + "}}" + rest;
    assert t == Braced(name) + rest;
    assert Matches(t, name, word);
    MatchIsFound(t, word, name);
  }

  /** A character at which no placeholder starts stays. */
  lemma OtherCharacterStays(c: char, rest: string, payload: Payload, word: Class)
    requires NoBraces(word)
    requires forall name :: Word(name, word) ==> !("{{" + name + "}}" <= [c] + rest)
    ensures Render([c] + rest, payload, word) == [c] + Render(rest, payload, word)
  {
    var t := [c] + rest;
    FirstSegment(t, word);
    assert forall name :: Matches(t, name, word) ==> Word(name, word) && Braced(name) == "{{" + name + "}}";
    assert t[1..] == rest;
  }
}
