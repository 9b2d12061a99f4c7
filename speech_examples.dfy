/**
 * Worked examples of `parse_speechtypes_text`: a script with two tagged
 * sentences, in general and for the script `{alegre} Hola {triste} adiós`.
 */
module SpeechExamples {
  import opened Str
  import opened SpeechTypes

  /** The pieces of a two-tag script, joined back. */
  lemma TwoTagsJoin(x: string, y: string, z: string, w: string)
    ensures Unsplit(["", x, y, z, w]) == "{" + x + "}" + y + "{" + z + "}" + w
  {
    var tokens := ["", x, y, z, w];
    var tail := tokens[2..];
    assert tail[2..] == [w];
    assert Unsplit(tail) == y + "{" + z + "}" + w;
  }

  /** A two-tag script splits into an empty leading text and its four parts. */
  lemma TwoTagsSplit(x: string, y: string, z: string, w: string)
    requires Unclosed(x) && Unclosed(z) && NoOpen(y) && NoOpen(w)
    ensures SplitOnTags("{" + x + "}" + y + "{" + z + "}" + w) == ["", x, y, z, w]
  {
    var tokens := ["", x, y, z, w];
    var tail := tokens[2..];
    assert tail[2..] == [w];
    assert Splittable(tail[2..]);
    assert Splittable(tail);
    TwoTagsJoin(x, y, z, w);
    UnsplitThenSplit(tokens);
  }

  /** The segments of two styled sentences after an empty leading text. */
  lemma TwoTagsSegments(pieces: seq<string>)
    requires |pieces| == 5 && pieces[0] == [] && pieces[2] != [] && pieces[4] != []
    ensures SegmentsFrom(pieces, 0, DefaultStyle) == [Segment(pieces[1], pieces[2]), Segment(pieces[3], pieces[4])]
  {
    SegmentsFromText(pieces, 4, pieces[3]);
    SegmentsFromTag(pieces, 3, pieces[1]);
    SegmentsFromText(pieces, 2, pieces[1]);
    SegmentsFromTag(pieces, 1, DefaultStyle);
    SegmentsFromText(pieces, 0, DefaultStyle);
  }

  lemma TwoTagsStripped(tokens: seq<string>, x: string, y: string, z: string, w: string)
    requires tokens == ["", x, y, z, w]
    requires !IsBlank(y) && !IsBlank(w)
    ensures SegmentsFrom(StripAll(tokens), 0, DefaultStyle)
            == [Segment(Strip(x), Strip(y)), Segment(Strip(z), Strip(w))]
  {
    var pieces := StripAll(tokens);
    assert pieces[0] == Strip(tokens[0]) == [];
    assert pieces[1] == Strip(x) && pieces[2] == Strip(y) && pieces[3] == Strip(z) && pieces[4] == Strip(w);
    TwoTagsSegments(pieces);
  }

  /**
   * Two tagged sentences: each sentence is spoken in the style of the tag
   * before it, and both come out with their whitespace stripped.
   */
  lemma TwoStyledSentences(x: string, y: string, z: string, w: string)
    requires Unclosed(x) && Unclosed(z) && NoOpen(y) && NoOpen(w)
    requires !IsBlank(y) && !IsBlank(w)
    ensures SpeechSegments("{" + x + "}" + y + "{" + z + "}" + w)
            == [Segment(Strip(x), Strip(y)), Segment(Strip(z), Strip(w))]
  {
    TwoTagsSplit(x, y, z, w);
    TwoTagsStripped(SplitOnTags("{" + x + "}" + y + "{" + z + "}" + w), x, y, z, w);
  }

  /** The literal pieces of the example, stripped. */
  lemma StripHola(a: string)
    requires a == " Hola "
    ensures Strip(a) == "Hola"
  {
    StripBetween(a, 1, 5);
    assert a[1..5] == "Hola";
  }

  lemma StripAdios(b: string)
    requires b == " adiós"
    ensures Strip(b) == "adiós"
  {
    StripBetween(b, 1, 6);
    assert b[1..6] == "adiós";
  }

  lemma StripLabel(c: string)
    requires c == "alegre" || c == "triste"
    ensures Strip(c) == c
  {
    StripBetween(c, 0, 6);
    assert c[0..6] == c;
  }

  lemma LabelUnclosed(c: string)
    requires c == "alegre" || c == "triste"
    ensures Unclosed(c)
  {
  }

  lemma SentenceNoOpen(t: string)
    requires t == " Hola " || t == " adiós"
    ensures NoOpen(t) && !IsBlank(t)
  {
    assert !IsSpace(t[1]);
  }

  lemma ScriptParts(s: string)
    requires s == "{alegre} Hola {triste} adiós"
    ensures s == "{" + "alegre" + "}" + " Hola " + "{" + "triste" + "}" + " adiós"
  {
  }

  /** The two-style script `{alegre} Hola {triste} adiós`. */
  lemma TwoStyles(s: string)
    requires s == "{alegre} Hola {triste} adiós"
    ensures SpeechSegments(s) == [Segment("alegre", "Hola"), Segment("triste", "adiós")]
  {
    var x, y, z, w := "alegre", " Hola ", "triste", " adiós";
    ScriptParts(s);
    LabelUnclosed(x);
    LabelUnclosed(z);
    SentenceNoOpen(y);
    SentenceNoOpen(w);
    StripLabel(x);
    StripHola(y);
    StripLabel(z);
    StripAdios(w);
    TwoStyledSentences(x, y, z, w);
  }
}
