/**
 * The text shaping that `infer` applies to a reply before handing it to the
 * voice-synthesis model: a leading space and a trailing ". " are forced, the
 * text is lower-cased, and numbers are spelled out.
 */
module Synthesis {
  import opened Str
  import opened Numbers

  /** Forces a leading " " and a trailing ". ", adding each only when it is missing. */
  function ShapeText(genText: string): (r: string)
    ensures StartsWith(r, " ") && EndsWith(r, ". ")
    ensures StartsWith(genText, " ") && EndsWith(genText, ". ") ==> r == genText
    ensures r == genText || r == " " + genText || r == genText + ". " || r == " " + genText + ". "
    ensures StartsWith(genText, " ") ==> r == genText || r == genText + ". "
    ensures EndsWith(genText, ". ") ==> r == genText || r == " " + genText
  {
    var spaced := if StartsWith(genText, " ") then genText else " " + genText;
    assert EndsWith(genText, ". ") ==> EndsWith(" " + genText, ". ") by {
      if EndsWith(genText, ". ") {
        EndsWithAppend(" ", genText, ". ");
      }
    }
    if EndsWith(spaced, ". ") then spaced else spaced + ". "
  }

  /** Lower-casing keeps the forced space and ". " in place. */
  lemma LowerKeepsEnds(s: string)
    requires StartsWith(s, " ") && EndsWith(s, ". ")
    ensures StartsWith(Lower(s), " ") && EndsWith(Lower(s), ". ")
  {
    assert s[0] == ' ' && s[|s| - 2] == '.' && s[|s| - 1] == ' ';
    assert Lower(s)[|s| - 2..] == [Lower(s)[|s| - 2], Lower(s)[|s| - 1]];
  }

  /**
   * The text the synthesis model receives for `genText`. Whatever the reply,
   * it starts with a space and ends with ". ".
   */
  function PrepareText(spell: nat -> string, genText: string): (r: string)
    ensures StartsWith(r, " ") && EndsWith(r, ". ")
  {
    var lowered := Lower(ShapeText(genText));
    LowerKeepsEnds(ShapeText(genText));
    TranslateNumbersKeepsEnds(spell, lowered);
    TranslateNumbers(spell, lowered)
  }

  lemma LowerPlain(s: string)
    requires PlainText(s)
    ensures PlainText(Lower(s))
  {
  }

  /**
   * A reply written with ASCII letters, digits and non-word characters only
   * reaches the synthesis model with every number spelled out.
   */
  lemma PlainReplyFullySpelled(spell: nat -> string, genText: string)
    requires forall n :: NoDigits(spell(n))
    requires PlainText(genText)
    ensures NoDigits(PrepareText(spell, genText))
  {
    var shaped := ShapeText(genText);
    assert PlainText(shaped) by {
      forall i | 0 <= i < |shaped|
        ensures IsAsciiLetter(shaped[i]) || IsDigit(shaped[i]) || !IsWordChar(shaped[i])
      {
        if shaped == " " + genText || shaped == " " + genText + ". " {
          if i > 0 && i <= |genText| { assert shaped[i] == genText[i - 1]; }
        } else {
          if i < |genText| { assert shaped[i] == genText[i]; }
        }
      }
    }
    LowerPlain(shaped);
    PlainTextFullySpelled(spell, Lower(shaped));
  }

  /** A reply without digits is only shaped and lower-cased. */
  lemma DigitFreeReplyOnlyShaped(spell: nat -> string, genText: string)
    requires NoDigits(genText)
    ensures PrepareText(spell, genText) == Lower(ShapeText(genText))
  {
    var shaped := ShapeText(genText);
    assert NoDigits(shaped) by {
      forall i | 0 <= i < |shaped| ensures !IsDigit(shaped[i]) {
        if shaped == " " + genText || shaped == " " + genText + ". " {
          if i > 0 && i <= |genText| { assert shaped[i] == genText[i - 1]; }
        } else {
          if i < |genText| { assert shaped[i] == genText[i]; }
        }
      }
    }
    NoDigitsUnchanged(spell, Lower(shaped));
  }
}
