/**
 * Worked examples of `traducir_numero_a_texto`: a number standing alone in a
 * sentence, and a number glued to a letter.
 */
module NumberExamples {
  import opened Str
  import opened Numbers

  lemma DecimalOneDigit(d: string)
    requires |d| == 1 && IsDigit(d[0])
    ensures DecimalValue(d) == d[0] as int - '0' as int
  {
    assert d[..0] == [];
  }

  /** "tengo 3 gatos": the lone 3 is spelled, nothing else changes. */
  lemma ThreeCats(spell: nat -> string, s: string)
    requires s == "tengo 3 gatos"
    ensures TranslateNumbers(spell, s) == "tengo " + spell(3) + " gatos"
  {
    var a, d, b := "tengo ", "3", " gatos";
    assert s == a + d + b;
    DecimalOneDigit(d);
    TranslateSpelledBetween(spell, a, d, b);
  }

  /** "v2 del modelo": the 2 is first parted from the v, then spelled. */
  lemma ModelVersion(spell: nat -> string, s: string)
    requires s == "v2 del modelo"
    ensures TranslateNumbers(spell, s) == "v " + spell(2) + " del modelo"
  {
    var a, d, b := "v ", "2", " del modelo";
    var r := d + b;
    assert [] + d + b == r;
    RunHasNoBoundary([], d, b);
    assert s == ['v'] + r;
    SeparateLetterThenDigit('v', r);
    assert ['v', ' '] + r == a + d + b;
    DecimalOneDigit(d);
    SpelledBetween(spell, a, d, b);
  }
}
