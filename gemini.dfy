/** The parser for the waste classifier's reply, and how `classifyWasteImage`
    maps every failure to one message. The reply is free text that the prompt
    asks to take the shape

        Category: <category>
        Confidence: <score>
        ---
        - <recommendation>
        ...

    The parser splits on `---`, reads the two markers out of the first part
    and the bullet lines out of the second. */
module Gemini {
  import opened Outcomes
  import opened Text
  import opened Lists

  const Separator: string := "---"
  const CategoryMarker: string := "Category: "
  const ConfidenceMarker: string := "Confidence: "
  const Bullet: string := "- "

  /** The one message every failure of the classification surfaces as. */
  const ClassifyFailed: string := "Failed to classify waste image"

  /** A parsed reply. The confidence is the captured text, not yet a number. */
  datatype Classification = Classification(
    classification: string, confidence: string, recommendations: seq<string>)

  /** `line.replace(/^- /, "")`: at most one leading bullet is removed. */
  function StripBullet(line: string): (r: string)
    ensures |line| >= 2 && line[..2] == Bullet ==> line == Bullet + r
    ensures !(|line| >= 2 && line[..2] == Bullet) ==> r == line
  {
    if |line| >= 2 && line[..2] == Bullet then
      assert line == line[..2] + line[2..];
      line[2..]
    else line
  }

  /** One recommendation line cleaned up. */
  function CleanLine(line: string): string {
    Trim(StripBullet(line))
  }

  function CleanAll(lines: seq<string>): (r: seq<string>)
    ensures |r| == |lines| && forall i :: 0 <= i < |lines| ==> r[i] == CleanLine(lines[i])
  {
    Map(lines, CleanLine)
  }

  /** `filter(Boolean)` on strings keeps the non-empty ones. */
  function NotEmpty(s: string): bool {
    s != ""
  }

  /** The cleaned lines that are not empty, in line order. */
  function CleanLines(lines: seq<string>): (recs: seq<string>)
    ensures |recs| <= |lines|
    ensures forall i :: 0 <= i < |recs| ==> recs[i] != ""
    ensures forall i :: 0 <= i < |recs| ==> recs[i] in CleanAll(lines)
    ensures forall j :: 0 <= j < |lines| && CleanLine(lines[j]) != "" ==> CleanLine(lines[j]) in recs
  {
    Filter(CleanAll(lines), NotEmpty)
  }

  /** Cleaning a block of lines is cleaning each part in turn, so the order
      of the lines is kept. */
  lemma CleanLinesAppend(a: seq<string>, b: seq<string>)
    ensures CleanLines(a + b) == CleanLines(a) + CleanLines(b)
  {
    MapAppend(a, b, CleanLine);
    FilterAppend(CleanAll(a), CleanAll(b), NotEmpty);
  }

  /** One line yields its cleaned text, unless that is empty. */
  lemma CleanLinesOne(line: string)
    ensures CleanLines([line]) == if CleanLine(line) == "" then [] else [CleanLine(line)]
  {
    assert CleanAll([line]) == [CleanLine(line)];
    FilterOne(CleanLine(line), NotEmpty);
  }

  /** `part.split("\n").map(r => r.replace(/^- /, "").trim()).filter(Boolean)`. */
  function Recommendations(part: string): (recs: seq<string>)
    ensures |recs| <= |Split(part, "\n")|
    ensures forall i :: 0 <= i < |recs| ==> recs[i] != ""
    ensures forall j :: 0 <= j < |Split(part, "\n")| && CleanLine(Split(part, "\n")[j]) != "" ==>
              CleanLine(Split(part, "\n")[j]) in recs
  {
    CleanLines(Split(part, "\n"))
  }

  /** `header.match(/<marker>(.+)/)?.[1] || fallback`. The capture is never
      empty, so the fallback is taken exactly when there is no match. */
  function CaptureOr(header: string, marker: string, fallback: string): (v: string)
    ensures !Contains(header, marker) ==> v == fallback
    ensures (forall i :: !MatchesAt(header, marker, i)) ==> v == fallback
    ensures forall i :: MatchesAt(header, marker, i) && (forall j :: 0 <= j < i ==> !MatchesAt(header, marker, j))
              ==> v == RestOfLine(header[i + |marker|..])
  {
    match MatchLineAfter(header, marker)
    case None => fallback
    case Some(c) =>
      assert forall i :: MatchesAt(header, marker, i) && (forall j :: 0 <= j < i ==> !MatchesAt(header, marker, j))
               ==> c == RestOfLine(header[i + |marker|..]) by {
        forall i | MatchesAt(header, marker, i) && (forall j :: 0 <= j < i ==> !MatchesAt(header, marker, j))
          ensures c == RestOfLine(header[i + |marker|..])
        {
          MatchLineAfterAt(header, marker, i);
        }
      }
      if c != "" then c else fallback
  }

  /** The parsing block of `classifyWasteImage`. With no `---` the second part
      is missing and reading its lines throws. */
  function Parse(text: string): (r: Result<Classification, string>)
    ensures r.Failure? <==> !Contains(text, Separator)
    ensures r.Failure? ==> r.error == ClassifyFailed
    ensures r.Success? ==> r.value.classification != "" && r.value.confidence != ""
    ensures r.Success? ==> forall i :: 0 <= i < |r.value.recommendations| ==> r.value.recommendations[i] != ""
    ensures r.Success? ==> |r.value.recommendations| <= |Split(Trim(Split(text, Separator)[1]), "\n")|
  {
    var parts := Split(text, Separator);
    if |parts| < 2 then Failure(ClassifyFailed)
    else
      var header := Trim(parts[0]);
      Success(Classification(
        CaptureOr(header, CategoryMarker, "Unknown"),
        CaptureOr(header, ConfidenceMarker, "0"),
        Recommendations(Trim(parts[1]))))
  }

  /** `classifyWasteImage` around the parser: an empty image encoding, a failed
      model call (`None`) and a reply without `---` all end in the same error. */
  function ClassifyWasteImage(imageData: string, reply: Option<string>): (r: Result<Classification, string>)
    ensures imageData == "" || reply.None? ==> r == Failure(ClassifyFailed)
    ensures imageData != "" && reply.Some? ==> r == Parse(reply.value)
    ensures r.Failure? ==> r.error == ClassifyFailed
  {
    if imageData == "" then Failure(ClassifyFailed)
    else
      match reply
      case None => Failure(ClassifyFailed)
      case Some(text) => Parse(text)
  }

  /** The first part of the reply taken by the parser, in the first `---`
      part, is a prefix of the reply; a marker missing from the whole reply is
      missing from it. */
  lemma HeaderInsideText(text: string, marker: string)
    requires Contains(text, Separator) && !Contains(text, marker)
    ensures !Contains(Trim(Split(text, Separator)[0]), marker)
  {
    var part := Split(text, Separator)[0];
    var header := Trim(part);
    assert OccursAt(text, part, 0);
    if Contains(header, marker) {
      ContainsTransitive(part, header, marker);
      ContainsTransitive(text, part, marker);
    }
  }

  /** A reply that never mentions `Category: ` is classified as "Unknown". */
  lemma UnknownWithoutCategory(text: string)
    requires Contains(text, Separator) && !Contains(text, CategoryMarker)
    ensures Parse(text).Success? && Parse(text).value.classification == "Unknown"
  {
    HeaderInsideText(text, CategoryMarker);
  }

  /** A reply that never mentions `Confidence: ` has confidence "0". */
  lemma ZeroWithoutConfidence(text: string)
    requires Contains(text, Separator) && !Contains(text, ConfidenceMarker)
    ensures Parse(text).Success? && Parse(text).value.confidence == "0"
  {
    HeaderInsideText(text, ConfidenceMarker);
  }

  // ---------------------------------------------------------------------------
  // The prompted format, and the round trip through the parser
  // ---------------------------------------------------------------------------

  function Bullets(recs: seq<string>): (lines: seq<string>)
    ensures |lines| == |recs| && forall i :: 0 <= i < |recs| ==> lines[i] == Bullet + recs[i]
  {
    seq(|recs|, i requires 0 <= i < |recs| => Bullet + recs[i])
  }

  function Header(category: string, confidence: string): string {
    CategoryMarker + category + "\n" + ConfidenceMarker + confidence
  }

  /** What follows the separator: a line break, then the bullet lines. */
  function Body(recs: seq<string>): string {
    "\n" + Join(Bullets(recs), "\n")
  }

  /** A reply in exactly the shape the prompt asks for. */
  function Format(category: string, confidence: string, recs: seq<string>): string {
    Header(category, confidence) + "\n" + Separator + Body(recs)
  }

  /** A category the format can carry: one non-empty line, without the
      separator or the confidence marker. */
  predicate IsCategoryText(c: string) {
    c != "" && NoLineTerminator(c) && !Contains(c, Separator) && !Contains(c, ConfidenceMarker)
  }

  /** A confidence the format can carry: one non-empty line without the
      separator, not ending in white space (the header is trimmed). */
  predicate IsConfidenceText(c: string) {
    c != "" && NoLineTerminator(c) && !Contains(c, Separator) && !IsWhiteSpace(c[|c| - 1])
  }

  /** A recommendation the format can carry: a non-empty line without the
      separator and without white space at either end. */
  predicate IsRecommendationText(r: string) {
    r != "" && '\n' !in r && !Contains(r, Separator) && !IsWhiteSpace(r[0]) && !IsWhiteSpace(r[|r| - 1])
  }

  lemma CategoryLineLacksConfidenceMarker(category: string)
    requires !Contains(category, ConfidenceMarker)
    ensures !Contains(CategoryMarker + category, ConfidenceMarker)
  {
    var rest := "ategory: " + category;
    NoOccurrenceAfterForeignPrefix("ategory: ", category, ConfidenceMarker);
    var t := CategoryMarker + category;
    assert t == ['C'] + rest;
    forall j | 0 <= j <= |t| ensures !OccursAt(t, ConfidenceMarker, j) {
      if j == 0 {
        if |ConfidenceMarker| <= |t| {
          assert t[..|ConfidenceMarker|][1] == 'a' != ConfidenceMarker[1];
        }
      } else if j + |ConfidenceMarker| <= |t| {
        assert t[j..j + |ConfidenceMarker|] == rest[j - 1..j - 1 + |ConfidenceMarker|];
        assert !OccursAt(rest, ConfidenceMarker, j - 1);
      }
    }
  }

  /** The header of a well-formed reply has no separator, starts with `C` and
      ends with the last character of the confidence. */
  lemma HeaderShape(category: string, confidence: string)
    requires IsCategoryText(category) && IsConfidenceText(confidence)
    ensures var h := Header(category, confidence);
            && h == (CategoryMarker + category) + ['\n'] + (ConfidenceMarker + confidence)
            && !Contains(h, Separator)
            && h[0] == 'C' && h[|h| - 1] == confidence[|confidence| - 1]
  {
    var h := Header(category, confidence);
    assert h == (CategoryMarker + category) + ['\n'] + (ConfidenceMarker + confidence);
    NoOccurrenceAfterForeignPrefix(CategoryMarker, category, Separator);
    NoOccurrenceAfterForeignPrefix(ConfidenceMarker, confidence, Separator);
    NoOccurrenceAcross(CategoryMarker + category, '\n', ConfidenceMarker + confidence, Separator);
  }

  /** The parser reads back the category and the confidence of a well-formed header. */
  lemma HeaderRoundTrip(category: string, confidence: string)
    requires IsCategoryText(category) && IsConfidenceText(confidence)
    ensures CaptureOr(Header(category, confidence), CategoryMarker, "Unknown") == category
    ensures CaptureOr(Header(category, confidence), ConfidenceMarker, "0") == confidence
  {
    var h := Header(category, confidence);
    var a := CategoryMarker + category;
    var b := ConfidenceMarker + confidence;
    HeaderShape(category, confidence);
    assert h == a + ['\n'] + b;
    // The category marker matches at the very start.
    assert OccursAt(h, CategoryMarker, 0) by {
      assert h[..|CategoryMarker|] == CategoryMarker;
    }
    assert h[|CategoryMarker|] == category[0];
    assert MatchesAt(h, CategoryMarker, 0);
    assert h[|CategoryMarker|..] == category + ['\n'] + b;
    RestOfLineOf(category, '\n', b);
    // The confidence marker first matches right after the first line.
    var k := |a| + 1;
    OccursAfterPrefix(a + ['\n'], b, ConfidenceMarker);
    assert h[k + |ConfidenceMarker|] == confidence[0];
    assert MatchesAt(h, ConfidenceMarker, k);
    CategoryLineLacksConfidenceMarker(category);
    forall j | 0 <= j < k ensures !MatchesAt(h, ConfidenceMarker, j) {
      NoOccurrenceUpToSeparator(a, '\n', b, ConfidenceMarker, j);
    }
    assert h[k + |ConfidenceMarker|..] == confidence;
    RestOfLineWhole(confidence);
  }

  /** The bullet lines of well-formed recommendations contain neither a line
      break nor the separator. */
  lemma BulletLines(recs: seq<string>)
    requires forall i :: 0 <= i < |recs| ==> IsRecommendationText(recs[i])
    ensures forall i :: 0 <= i < |recs| ==> '\n' !in Bullets(recs)[i] && !Contains(Bullets(recs)[i], Separator)
  {
    forall i | 0 <= i < |recs|
      ensures '\n' !in Bullets(recs)[i] && !Contains(Bullets(recs)[i], Separator)
    {
      var line := Bullets(recs)[i];
      assert line == "-" + [' '] + recs[i];
      assert !Contains("-", Separator);
      NoOccurrenceAcross("-", ' ', recs[i], Separator);
    }
  }

  /** The parser reads back the recommendations of a well-formed body. */
  lemma BodyRoundTrip(recs: seq<string>)
    requires forall i :: 0 <= i < |recs| ==> IsRecommendationText(recs[i])
    ensures !Contains(Body(recs), Separator)
    ensures Recommendations(Trim(Body(recs))) == recs
  {
    BodyWithoutSeparator(recs);
    if recs == [] {
      EmptyBody();
    } else {
      var lines := Bullets(recs);
      var body := Join(lines, "\n");
      BulletLines(recs);
      JoinEnds(lines, "\n");
      TrimPadded("\n", body, "");
      assert "\n" + body + "" == "\n" + body;
      SplitJoin(lines, '\n');
      BulletsCleaned(recs);
      FilterKeepsAll(recs, NotEmpty);
    }
  }

  lemma BodyWithoutSeparator(recs: seq<string>)
    requires forall i :: 0 <= i < |recs| ==> IsRecommendationText(recs[i])
    ensures !Contains(Body(recs), Separator)
  {
    var lines := Bullets(recs);
    BulletLines(recs);
    NoOccurrenceInJoin(lines, '\n', Separator);
    NoOccurrenceAfterForeignPrefix("\n", Join(lines, "\n"), Separator);
  }

  lemma EmptyBody()
    ensures Recommendations(Trim(Body([]))) == []
  {
    assert Body([]) == "\n";
    assert Trim("\n") == "";
    assert !Contains("", "\n");
    assert Split("", "\n") == [""];
    assert CleanAll([""]) == [""];
  }

  /** Stripping the bullet and trimming gives each recommendation back. */
  lemma BulletsCleaned(recs: seq<string>)
    requires forall i :: 0 <= i < |recs| ==> IsRecommendationText(recs[i])
    ensures CleanAll(Bullets(recs)) == recs
  {
    var lines := Bullets(recs);
    forall i | 0 <= i < |recs| ensures CleanLine(lines[i]) == recs[i] {
      assert (Bullet + recs[i])[..2] == Bullet;
      assert StripBullet(lines[i]) == recs[i];
      TrimNoop(recs[i]);
    }
  }

  /** Splitting a header line, the separator and a body that contain no
      further separator yields exactly the two parts. */
  lemma SplitAtSeparator(h: string, body: string)
    requires !Contains(h, Separator) && !Contains(body, Separator)
    ensures Split(h + "\n" + Separator + body, Separator) == [h + "\n", body]
  {
    var text := h + "\n" + Separator + body;
    assert text == h + ['\n'] + (Separator + body);
    FirstOccurrenceAfterSeparator(h, '\n', Separator + body, Separator);
    assert text[..|h| + 1] == h + "\n";
    assert text[|h| + 1 + |Separator|..] == body;
  }

  lemma TrimLine(h: string)
    requires h != [] && !IsWhiteSpace(h[0]) && !IsWhiteSpace(h[|h| - 1])
    ensures Trim(h + "\n") == h
  {
    TrimPadded("", h, "\n");
    assert "" + h + "\n" == h + "\n";
  }

  /** A reply in the prompted format is parsed back into exactly the category,
      the confidence and the recommendations, in order, that it was built from. */
  lemma ParseFormat(category: string, confidence: string, recs: seq<string>)
    requires IsCategoryText(category) && IsConfidenceText(confidence)
    requires forall i :: 0 <= i < |recs| ==> IsRecommendationText(recs[i])
    ensures Parse(Format(category, confidence, recs)) == Success(Classification(category, confidence, recs))
  {
    var h := Header(category, confidence);
    var text := Format(category, confidence, recs);
    var parts := Split(text, Separator);
    assert parts == [h + "\n", Body(recs)] by {
      HeaderShape(category, confidence);
      BodyRoundTrip(recs);
      SplitAtSeparator(h, Body(recs));
    }
    assert Trim(parts[0]) == h by {
      HeaderShape(category, confidence);
      TrimLine(h);
    }
    assert CaptureOr(h, CategoryMarker, "Unknown") == category && CaptureOr(h, ConfidenceMarker, "0") == confidence by {
      HeaderRoundTrip(category, confidence);
    }
    assert Recommendations(Trim(parts[1])) == recs by {
      BodyRoundTrip(recs);
    }
  }
}
