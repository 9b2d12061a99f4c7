/**
 * `parse_speechtypes_text`: a script is cut at `{label}` tags into segments,
 * each carrying the label of the last tag before it ("Regular" before the
 * first tag) and its own text with surrounding whitespace removed.
 */
module SpeechTypes {
  import opened Str

  datatype Segment = Segment(style: string, text: string)

  const DefaultStyle: string := "Regular"

  /**
   * Where the `}` closing a tag whose contents start at `i` lies. The lazy
   * `(.*?)` stops at the first `}`; `.` does not match a newline, so a newline
   * met before any `}` means there is no tag.
   */
  function CloseAt(s: string, i: nat): (r: Option<nat>)
    requires i <= |s|
    ensures r.Some? ==> i <= r.value < |s| && s[r.value] == '}'
    ensures r.Some? ==> forall k :: i <= k < r.value ==> s[k] != '}' && s[k] != '\n'
    decreases |s| - i
  {
    if i == |s| || s[i] == '\n' then None
    else if s[i] == '}' then Some(i)
    else CloseAt(s, i + 1)
  }

  /** `CloseAt` finds exactly the first `}` that no newline precedes. */
  lemma {:induction false} CloseAtFirst(s: string, i: nat, j: nat)
    requires i <= j < |s| && s[j] == '}'
    requires forall k :: i <= k < j ==> s[k] != '}' && s[k] != '\n'
    ensures CloseAt(s, i) == Some(j)
    decreases j - i
  {
    if i < j {
      CloseAtFirst(s, i + 1, j);
    }
  }

  /** The pattern `\{(.*?)\}` matches at position `p`. */
  predicate TagAt(s: string, p: nat)
    requires p < |s|
  {
    s[p] == '{' && CloseAt(s, p + 1).Some?
  }

  /** The leftmost match at or after `i`: the positions of its `{` and its `}`. */
  function NextTag(s: string, i: nat): (r: Option<(nat, nat)>)
    requires i <= |s|
    ensures r.Some? ==> i <= r.value.0 < r.value.1 < |s| && TagAt(s, r.value.0)
                        && CloseAt(s, r.value.0 + 1) == Some(r.value.1)
    ensures r.Some? ==> forall p :: i <= p < r.value.0 ==> !TagAt(s, p)
    ensures r.None? ==> forall p :: i <= p < |s| ==> !TagAt(s, p)
    decreases |s| - i
  {
    if i == |s| then None
    else if TagAt(s, i) then Some((i, CloseAt(s, i + 1).value))
    else NextTag(s, i + 1)
  }

  /** `NextTag` finds exactly the leftmost match. */
  lemma {:induction false} NextTagLeftmost(s: string, i: nat, p: nat)
    requires i <= p < |s| && TagAt(s, p)
    requires forall q :: i <= q < p ==> !TagAt(s, q)
    ensures NextTag(s, i) == Some((p, CloseAt(s, p + 1).value))
    decreases p - i
  {
    if i < p {
      NextTagLeftmost(s, i + 1, p);
    }
  }

  /**
   * `re.split(r"\{(.*?)\}", s)`: with one capture group the pieces alternate
   * between text (even positions) and tag contents (odd positions).
   */
  function SplitOnTags(s: string): (tokens: seq<string>)
    ensures |tokens| == 2 * TagCount(s) + 1
    decreases |s|
  {
    match NextTag(s, 0)
    case None => [s]
    case Some((p, q)) => [s[..p], s[p + 1..q]] + SplitOnTags(s[q + 1..])
  }

  /** No `}` and no newline: what the lazy `(.*?)` can capture before the `}`. */
  predicate Unclosed(t: string) {
    forall j :: 0 <= j < |t| ==> t[j] != '}' && t[j] != '\n'
  }

  /** Every piece at an odd position is `Unclosed`. */
  predicate TagsUnclosed(tokens: seq<string>)
    decreases |tokens|
  {
    |tokens| < 2 || (Unclosed(tokens[1]) && TagsUnclosed(tokens[2..]))
  }

  /** A tag's contents never hold a `}` or a newline. */
  lemma {:induction false} TagPiecesClean(s: string)
    ensures TagsUnclosed(SplitOnTags(s))
    decreases |s|
  {
    match NextTag(s, 0)
    case None =>
    case Some((p, q)) =>
      TagPiecesClean(s[q + 1..]);
      FirstTagClean(s, p, q);
      var tokens := SplitOnTags(s);
      assert tokens[1] == s[p + 1..q];
      assert tokens[2..] == SplitOnTags(s[q + 1..]);
  }

  lemma FirstTagClean(s: string, p: nat, q: nat)
    requires NextTag(s, 0) == Some((p, q))
    ensures Unclosed(s[p + 1..q])
  {
  }

  /** Number of tags in `s`: how often the pattern matches, scanning left to right. */
  function TagCount(s: string): nat
    decreases |s|
  {
    match NextTag(s, 0)
    case None => 0
    case Some((_, q)) => 1 + TagCount(s[q + 1..])
  }

  /** Puts the tags back around the odd pieces and joins everything. */
  function Unsplit(tokens: seq<string>): string
    decreases |tokens|
  {
    if |tokens| == 0 then []
    else if |tokens| == 1 then tokens[0]
    else tokens[0] + "{" + tokens[1] + "}" + Unsplit(tokens[2..])
  }

  /** Splitting loses nothing: the pieces and their tags give back the script. */
  lemma {:induction false} SplitRoundTrip(s: string)
    ensures Unsplit(SplitOnTags(s)) == s
    decreases |s|
  {
    match NextTag(s, 0)
    case None =>
    case Some((p, q)) =>
      var tokens := SplitOnTags(s);
      assert tokens[2..] == SplitOnTags(s[q + 1..]);
      SplitRoundTrip(s[q + 1..]);
      Rejoin(s, p, q);
  }

  /** A `{` at `p` and a `}` at `q` cut `s` into four parts. */
  lemma Rejoin(s: string, p: nat, q: nat)
    requires p < q < |s| && s[p] == '{' && s[q] == '}'
    ensures s == s[..p] + "{" + s[p + 1..q] + "}" + s[q + 1..]
  {
    assert s[p..q + 1] == "{" + s[p + 1..q] + "}";
    assert s == s[..p] + s[p..q + 1] + s[q + 1..];
  }

  /** A text with no `{`, where no tag can start. */
  predicate NoOpen(t: string) {
    forall j :: 0 <= j < |t| ==> t[j] != '{'
  }

  /** A script with no `{` has no tag. */
  lemma NoBraceNoTags(s: string)
    requires NoOpen(s)
    ensures SplitOnTags(s) == [s]
  {
  }

  /** Texts without `{` and tag contents that are `Unclosed` all come back out of the split. */
  predicate Splittable(tokens: seq<string>)
    decreases |tokens|
  {
    |tokens| % 2 == 1 && NoOpen(tokens[0])
    && (|tokens| > 1 ==> Unclosed(tokens[1]) && Splittable(tokens[2..]))
  }

  /**
   * The other round trip: token lists whose texts have no `{` and whose tag
   * contents have no `}` or newline, joined with their tags and split again,
   * come back unchanged. This is a sufficient condition; a split can produce
   * other lists too (a text `a{b` whose brace is never closed).
   */
  lemma {:induction false} UnsplitThenSplit(tokens: seq<string>)
    requires Splittable(tokens)
    ensures SplitOnTags(Unsplit(tokens)) == tokens
    decreases |tokens|
  {
    if |tokens| == 1 {
      NoBraceNoTags(tokens[0]);
    } else {
      UnsplitThenSplit(tokens[2..]);
      SplitAtFirstTag(tokens[0], tokens[1], Unsplit(tokens[2..]));
      assert tokens == [tokens[0], tokens[1]] + tokens[2..];
    }
  }

  /** A tag after a text without `{` is the first match; the split goes on after it. */
  lemma SplitAtFirstTag(a: string, t: string, rest: string)
    requires NoOpen(a) && Unclosed(t)
    ensures SplitOnTags(a + "{" + t + "}" + rest) == [a, t] + SplitOnTags(rest)
  {
    var s := a + "{" + t + "}" + rest;
    var p, q := |a|, |a| + 1 + |t|;
    FirstTagFound(a, t, rest);
    SplitStep(s, p, q);
    TagLayout(a, t, rest);
  }

  /** One step of the split, at the first tag. */
  lemma SplitStep(s: string, p: nat, q: nat)
    requires NextTag(s, 0) == Some((p, q))
    ensures SplitOnTags(s) == [s[..p], s[p + 1..q]] + SplitOnTags(s[q + 1..])
  {
  }

  /** The first tag of `a + "{" + t + "}" + rest` is the one around `t`. */
  lemma FirstTagFound(a: string, t: string, rest: string)
    requires NoOpen(a) && Unclosed(t)
    ensures NextTag(a + "{" + t + "}" + rest, 0) == Some((|a|, |a| + 1 + |t|))
  {
    var s := a + "{" + t + "}" + rest;
    var p, q := |a|, |a| + 1 + |t|;
    TagLayout(a, t, rest);
    CloseAtFirst(s, p + 1, q);
    NextTagLeftmost(s, 0, p);
  }

  /** Where the parts of `a + "{" + t + "}" + rest` lie. */
  lemma TagLayout(a: string, t: string, rest: string)
    ensures var s := a + "{" + t + "}" + rest;
      var p, q := |a|, |a| + 1 + |t|;
      q < |s| && s[p] == '{' && s[q] == '}'
      && (forall k :: p + 1 <= k < q ==> s[k] == t[k - p - 1])
      && (forall k :: 0 <= k < p ==> s[k] == a[k])
      && s[..p] == a && s[p + 1..q] == t && s[q + 1..] == rest
  {
    var s := a + "{" + t + "}" + rest;
    var p, q := |a|, |a| + 1 + |t|;
    assert s[..p] == a;
    assert s[p + 1..q] == t;
    assert s[q + 1..] == rest;
  }

  /** Every piece with its surrounding whitespace removed. */
  function StripAll(tokens: seq<string>): (pieces: seq<string>)
    ensures |pieces| == |tokens|
    ensures forall k :: 0 <= k < |tokens| ==> pieces[k] == Strip(tokens[k])
  {
    seq(|tokens|, k requires 0 <= k < |tokens| => Strip(tokens[k]))
  }

  /** The segment a text piece gives: none when its stripped text is empty. */
  function Emit(style: string, text: string): seq<Segment> {
    if text == [] then [] else [Segment(style, text)]
  }

  /**
   * The parser loop on the stripped pieces from position `i` on, with `style`
   * the current style: a text piece gives a segment unless it is empty, a tag
   * piece sets the style.
   */
  function SegmentsFrom(pieces: seq<string>, i: nat, style: string): seq<Segment>
    requires i <= |pieces|
    decreases |pieces| - i
  {
    if i == |pieces| then []
    else if i % 2 == 0 then Emit(style, pieces[i]) + SegmentsFrom(pieces, i + 1, style)
    else SegmentsFrom(pieces, i + 1, pieces[i])
  }

  lemma SegmentsFromText(pieces: seq<string>, i: nat, style: string)
    requires i < |pieces| && i % 2 == 0
    ensures SegmentsFrom(pieces, i, style) == Emit(style, pieces[i]) + SegmentsFrom(pieces, i + 1, style)
  {
  }

  lemma SegmentsFromTag(pieces: seq<string>, i: nat, style: string)
    requires i < |pieces| && i % 2 == 1
    ensures SegmentsFrom(pieces, i, style) == SegmentsFrom(pieces, i + 1, pieces[i])
  {
  }

  /** What `parse_speechtypes_text(s)` returns. */
  function SpeechSegments(s: string): seq<Segment> {
    SegmentsFrom(StripAll(SplitOnTags(s)), 0, DefaultStyle)
  }

  /** Every segment has text, with no whitespace at either end. */
  lemma {:induction false} SegmentTextsStripped(pieces: seq<string>, i: nat, style: string)
    requires i <= |pieces|
    requires forall k :: 0 <= k < |pieces| ==> IsStripped(pieces[k])
    ensures forall k :: 0 <= k < |SegmentsFrom(pieces, i, style)| ==>
      SegmentsFrom(pieces, i, style)[k].text != [] && IsStripped(SegmentsFrom(pieces, i, style)[k].text)
    decreases |pieces| - i
  {
    if i < |pieces| {
      if i % 2 == 0 {
        SegmentTextsStripped(pieces, i + 1, style);
      } else {
        SegmentTextsStripped(pieces, i + 1, pieces[i]);
      }
    }
  }

  /** At most one segment per text piece. */
  lemma {:induction false} SegmentCount(pieces: seq<string>, i: nat, style: string)
    requires i <= |pieces|
    ensures 2 * |SegmentsFrom(pieces, i, style)| <= |pieces| - i + (if i % 2 == 0 then 1 else 0)
    decreases |pieces| - i
  {
    if i < |pieces| {
      if i % 2 == 0 {
        SegmentCount(pieces, i + 1, style);
      } else {
        SegmentCount(pieces, i + 1, pieces[i]);
      }
    }
  }

  /**
   * What the parser promises about its output: every segment has text with no
   * whitespace at either end, and there are at most one more segments than tags.
   */
  lemma SpeechSegmentsShape(s: string)
    ensures forall k :: 0 <= k < |SpeechSegments(s)| ==>
      SpeechSegments(s)[k].text != [] && IsStripped(SpeechSegments(s)[k].text)
    ensures |SpeechSegments(s)| <= TagCount(s) + 1
  {
    var pieces := StripAll(SplitOnTags(s));
    SegmentTextsStripped(pieces, 0, DefaultStyle);
    SegmentCount(pieces, 0, DefaultStyle);
  }

  /** The loop of `parse_speechtypes_text` over the pieces of the split. */
  method ParsePieces(tokens: seq<string>) returns (segments: seq<Segment>)
    ensures segments == SegmentsFrom(StripAll(tokens), 0, DefaultStyle)
  {
    segments := [];
    var currentStyle := DefaultStyle;
    ghost var pieces := StripAll(tokens);
    ghost var whole := SegmentsFrom(pieces, 0, DefaultStyle);
    for i := 0 to |tokens|
      invariant segments + SegmentsFrom(pieces, i, currentStyle) == whole
    {
      ghost var rest := SegmentsFrom(pieces, i + 1, currentStyle);
      if i % 2 == 0 {
        var text := Strip(tokens[i]);
        SegmentsFromText(pieces, i, currentStyle);
        if text != [] {
          assert Emit(currentStyle, text) == [Segment(currentStyle, text)];
          assert segments + ([Segment(currentStyle, text)] + rest) == (segments + [Segment(currentStyle, text)]) + rest;
          segments := segments + [Segment(currentStyle, text)];
        } else {
          assert Emit(currentStyle, text) + rest == rest;
        }
      } else {
        SegmentsFromTag(pieces, i, currentStyle);
        currentStyle := Strip(tokens[i]);
      }
    }
  }

  /** `parse_speechtypes_text`: split the script, then walk the pieces. */
  method ParseSpeechTypes(genText: string) returns (segments: seq<Segment>)
    ensures segments == SpeechSegments(genText)
    ensures forall k :: 0 <= k < |segments| ==> segments[k].text != [] && IsStripped(segments[k].text)
    ensures |segments| <= TagCount(genText) + 1
  {
    var tokens := SplitOnTags(genText);
    segments := ParsePieces(tokens);
    SpeechSegmentsShape(genText);
  }

  // ---------------------------------------------------------------------------
  // A stateless reference for the parser

  /** The style in force for the text piece at even position `i`. */
  function StyleBefore(pieces: seq<string>, i: nat): string
    requires i <= |pieces|
  {
    if i == 0 then DefaultStyle else pieces[i - 1]
  }

  /**
   * Reference definition: in input order, one segment per text piece that is
   * not empty, styled by the tag directly before that piece. A tag followed
   * only by whitespace gives no segment of its own; the next tag replaces it.
   */
  function StyledTexts(pieces: seq<string>, i: nat): seq<Segment>
    requires i % 2 == 0
    decreases |pieces| - i
  {
    if i >= |pieces| then [] else Emit(StyleBefore(pieces, i), pieces[i]) + StyledTexts(pieces, i + 2)
  }

  lemma {:induction false} SegmentsFromIsStyled(pieces: seq<string>, i: nat)
    requires i % 2 == 0 && i <= |pieces|
    ensures SegmentsFrom(pieces, i, StyleBefore(pieces, i)) == StyledTexts(pieces, i)
    decreases |pieces| - i
  {
    if i + 1 < |pieces| {
      SegmentsFromIsStyled(pieces, i + 2);
    }
  }

  /** The parser's result, described without its mutable current style. */
  lemma ParseMatchesReference(s: string)
    ensures SpeechSegments(s) == StyledTexts(StripAll(SplitOnTags(s)), 0)
  {
    SegmentsFromIsStyled(StripAll(SplitOnTags(s)), 0);
  }

  /** Without tags: one "Regular" segment holding the stripped script, or none if it is blank. */
  lemma UntaggedScript(s: string)
    requires TagCount(s) == 0
    ensures SpeechSegments(s) == if IsBlank(s) then [] else [Segment(DefaultStyle, Strip(s))]
  {
    var tokens := SplitOnTags(s);
    SplitRoundTrip(s);
    assert tokens == [s];
    var pieces := StripAll(tokens);
    assert pieces == [Strip(s)];
    SegmentsFromText(pieces, 0, DefaultStyle);
  }

  /** Text before the first tag is spoken in the "Regular" style. */
  lemma LeadingTextIsRegular(s: string)
    requires !IsBlank(SplitOnTags(s)[0])
    ensures SpeechSegments(s) != []
    ensures SpeechSegments(s)[0] == Segment(DefaultStyle, Strip(SplitOnTags(s)[0]))
  {
  }
}
