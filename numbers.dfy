/**
 * The number normaliser `traducir_numero_a_texto`: a space is put between an
 * ASCII letter and a digit (in either order), then every digit run that stands
 * between word boundaries is replaced by its spelling. The spelling library is
 * the parameter `spell`, applied to the run's decimal value.
 */
module Numbers {
  import opened Str

  predicate LetterThenDigit(a: char, b: char) {
    IsAsciiLetter(a) && IsDigit(b)
  }

  predicate DigitThenLetter(a: char, b: char) {
    IsDigit(a) && IsAsciiLetter(b)
  }

  /** A letter/digit boundary in either direction. */
  predicate Boundary(a: char, b: char) {
    LetterThenDigit(a, b) || DigitThenLetter(a, b)
  }

  /** No two neighbouring characters of `s` form a letter/digit boundary. */
  predicate NoBoundary(s: string) {
    forall i :: 0 <= i < |s| - 1 ==> !Boundary(s[i], s[i + 1])
  }

  /**
   * One left-to-right pass of `re.sub(r'([A-Za-z])(\d)', r'\1 \2', s)`:
   * a match consumes both characters and scanning resumes after them.
   */
  function SpaceLetterDigit(s: string): (r: string)
    decreases |s|
  {
    if |s| < 2 then s
    else if LetterThenDigit(s[0], s[1]) then [s[0], ' ', s[1]] + SpaceLetterDigit(s[2..])
    else [s[0]] + SpaceLetterDigit(s[1..])
  }

  /** One left-to-right pass of `re.sub(r'(\d)([A-Za-z])', r'\1 \2', s)`. */
  function SpaceDigitLetter(s: string): (r: string)
    decreases |s|
  {
    if |s| < 2 then s
    else if DigitThenLetter(s[0], s[1]) then [s[0], ' ', s[1]] + SpaceDigitLetter(s[2..])
    else [s[0]] + SpaceDigitLetter(s[1..])
  }

  /** The two boundary substitutions, in the order the source applies them. */
  function Separate(s: string): string {
    SpaceDigitLetter(SpaceLetterDigit(s))
  }

  /**
   * Reference definition of the separation: every character is kept, and one
   * space follows each character that forms a boundary with its successor.
   */
  function Spaced(s: string): string
    decreases |s|
  {
    if |s| < 2 then s
    else [s[0]] + (if Boundary(s[0], s[1]) then [' '] else []) + Spaced(s[1..])
  }

  /** The same, for letter-then-digit boundaries only: the state after line 74. */
  function SpacedLetterDigit(s: string): string
    decreases |s|
  {
    if |s| < 2 then s
    else [s[0]] + (if LetterThenDigit(s[0], s[1]) then [' '] else []) + SpacedLetterDigit(s[1..])
  }

  /** Length of the digit run at the start of `s` (greedy `\d+`). */
  function DigitRun(s: string): (n: nat)
    ensures n <= |s|
    ensures forall i :: 0 <= i < n ==> IsDigit(s[i])
    ensures n < |s| ==> !IsDigit(s[n])
  {
    if s != [] && IsDigit(s[0]) then 1 + DigitRun(s[1..]) else 0
  }

  /** `int(ds)` for a string of ASCII digits. */
  function DecimalValue(ds: string): nat
    requires forall i :: 0 <= i < |ds| ==> IsDigit(ds[i])
  {
    if ds == [] then 0
    else
      var d := ds[|ds| - 1];
      assert IsDigit(d);
      10 * DecimalValue(ds[..|ds| - 1]) + (d as int - '0' as int)
  }

  /**
   * `re.sub(r'\b\d+\b', reemplazar_numero, s)`. `afterWord` says whether the
   * character before `s` in the scanned string is a word character, which is
   * what `\b` looks at. A run is replaced when nothing word-like touches it on
   * either side; a run that touches a word character on its right (an
   * underscore, a Latin-1 letter) has no `\b` anywhere inside and is kept.
   */
  function ExpandRuns(spell: nat -> string, s: string, afterWord: bool): string
    decreases |s|
  {
    if s == [] then []
    else if IsDigit(s[0]) && !afterWord then
      var n := DigitRun(s);
      (if n == |s| || !IsWordChar(s[n]) then spell(DecimalValue(s[..n])) else s[..n])
      + ExpandRuns(spell, s[n..], true)
    else [s[0]] + ExpandRuns(spell, s[1..], IsWordChar(s[0]))
  }

  /** `traducir_numero_a_texto(s)`, with `spell(n)` standing for `num2words(n, lang='es')`. */
  function TranslateNumbers(spell: nat -> string, s: string): string {
    ExpandRuns(spell, Separate(s), false)
  }

  // ---------------------------------------------------------------------------
  // The boundary substitutions

  lemma {:induction false} SpaceLetterDigitIsSpaced(s: string)
    ensures SpaceLetterDigit(s) == SpacedLetterDigit(s)
    decreases |s|
  {
    if |s| >= 2 {
      if LetterThenDigit(s[0], s[1]) {
        SpaceLetterDigitIsSpaced(s[2..]);
        if |s| > 2 {
          assert s[1..][1..] == s[2..];
          assert SpacedLetterDigit(s[1..]) == [s[1]] + SpacedLetterDigit(s[2..]);
        }
      } else {
        SpaceLetterDigitIsSpaced(s[1..]);
      }
    }
  }

  lemma {:induction false} SpacedLetterDigitHead(s: string)
    requires s != []
    ensures SpacedLetterDigit(s) != [] && SpacedLetterDigit(s)[0] == s[0]
  {
  }

  lemma SpaceDigitLetterCons(c: char, t: string)
    requires t == [] || !DigitThenLetter(c, t[0])
    ensures SpaceDigitLetter([c] + t) == [c] + SpaceDigitLetter(t)
  {
    assert ([c] + t)[1..] == t;
  }

  lemma SpaceDigitLetterPair(c: char, d: char, t: string)
    requires DigitThenLetter(c, d)
    ensures SpaceDigitLetter([c, d] + t) == [c, ' ', d] + SpaceDigitLetter(t)
  {
    assert ([c, d] + t)[2..] == t;
  }

  lemma {:induction false} SpaceDigitLetterOfSpaced(s: string)
    ensures SpaceDigitLetter(SpacedLetterDigit(s)) == Spaced(s)
    decreases |s|, 1
  {
    if |s| >= 2 {
      var rest := SpacedLetterDigit(s[1..]);
      SpacedLetterDigitHead(s[1..]);
      if LetterThenDigit(s[0], s[1]) {
        SpaceDigitLetterOfSpaced(s[1..]);
        assert SpacedLetterDigit(s) == [s[0]] + ([' '] + rest);
        SpaceDigitLetterCons(s[0], [' '] + rest);
        SpaceDigitLetterCons(' ', rest);
      } else if DigitThenLetter(s[0], s[1]) {
        SpaceDigitLetterOfSpacedAtDigit(s);
      } else {
        SpaceDigitLetterOfSpaced(s[1..]);
        assert SpacedLetterDigit(s) == [s[0]] + rest;
        SpaceDigitLetterCons(s[0], rest);
      }
    }
  }

  lemma {:induction false} SpaceDigitLetterOfSpacedAtDigit(s: string)
    requires |s| >= 2 && DigitThenLetter(s[0], s[1])
    ensures SpaceDigitLetter(SpacedLetterDigit(s)) == Spaced(s)
    decreases |s|, 0
  {
    if |s| == 2 {
      assert SpacedLetterDigit(s) == [s[0], s[1]] + [];
      SpaceDigitLetterPair(s[0], s[1], []);
    } else {
      SpaceDigitLetterOfSpaced(s[2..]);
      AtDigitStep(s);
    }
  }

  /** The step of `SpaceDigitLetterOfSpacedAtDigit` once the tail is known. */
  lemma AtDigitStep(s: string)
    requires |s| >= 3 && DigitThenLetter(s[0], s[1])
    requires SpaceDigitLetter(SpacedLetterDigit(s[2..])) == Spaced(s[2..])
    ensures SpaceDigitLetter(SpacedLetterDigit(s)) == Spaced(s)
  {
    var gap: string := if LetterThenDigit(s[1], s[2]) then [' '] else [];
    var tail := SpacedLetterDigit(s[2..]);
    SpacedLetterDigitAtDigit(s, gap);
    SpacedAtDigit(s, gap);
    SpaceDigitLetterPair(s[0], s[1], gap + tail);
    SpaceDigitLetterAfterGap(gap, tail);
  }

  /** A space in front is passed over by the digit-letter pass. */
  lemma SpaceDigitLetterAfterGap(gap: string, t: string)
    requires gap == [' '] || gap == []
    ensures SpaceDigitLetter(gap + t) == gap + SpaceDigitLetter(t)
  {
    if gap == [] {
      assert gap + t == t;
    } else {
      SpaceDigitLetterCons(' ', t);
    }
  }

  /** Unfolds `SpacedLetterDigit` twice at a digit followed by a letter. */
  lemma SpacedLetterDigitAtDigit(s: string, gap: string)
    requires |s| >= 3 && DigitThenLetter(s[0], s[1])
    requires gap == if LetterThenDigit(s[1], s[2]) then [' '] else []
    ensures SpacedLetterDigit(s) == [s[0], s[1]] + (gap + SpacedLetterDigit(s[2..]))
  {
    var t := s[1..];
    SpacedLetterDigitUnfold(s);
    SpacedLetterDigitUnfold(t);
    assert t[1..] == s[2..];
    ConsTwo(s[0], s[1], gap, SpacedLetterDigit(s[2..]));
  }

  lemma SpacedLetterDigitUnfold(s: string)
    requires |s| >= 2
    ensures SpacedLetterDigit(s)
            == [s[0]] + (if LetterThenDigit(s[0], s[1]) then [' '] else []) + SpacedLetterDigit(s[1..])
  {
  }

  lemma ConsTwo(a: char, b: char, g: string, x: string)
    ensures [a] + ([b] + g + x) == [a, b] + (g + x)
  {
  }

  /** Unfolds `Spaced` twice at a digit followed by a letter. */
  lemma SpacedAtDigit(s: string, gap: string)
    requires |s| >= 3 && DigitThenLetter(s[0], s[1])
    requires gap == if LetterThenDigit(s[1], s[2]) then [' '] else []
    ensures Spaced(s) == [s[0], ' ', s[1]] + (gap + Spaced(s[2..]))
  {
    var t := s[1..];
    assert t[1..] == s[2..];
    assert Boundary(t[0], t[1]) == LetterThenDigit(s[1], s[2]);
    assert Spaced(t) == [t[0]] + gap + Spaced(t[1..]);
    assert Spaced(s) == [s[0]] + [' '] + Spaced(t);
  }

  /** The two substitutions of lines 74-75 together insert exactly the spaces `Spaced` does. */
  lemma SeparateIsSpaced(s: string)
    ensures Separate(s) == Spaced(s)
  {
    SpaceLetterDigitIsSpaced(s);
    SpaceDigitLetterOfSpaced(s);
  }

  lemma {:induction false} SpacedHead(s: string)
    requires s != []
    ensures Spaced(s) != [] && Spaced(s)[0] == s[0]
  {
  }

  /** After the separation no letter sits directly before or after a digit. */
  lemma {:induction false} SpacedHasNoBoundary(s: string)
    ensures NoBoundary(Spaced(s))
    decreases |s|
  {
    if |s| >= 2 {
      SpacedHasNoBoundary(s[1..]);
      SpacedHead(s[1..]);
      var rest := Spaced(s[1..]);
      var gap: string := if Boundary(s[0], s[1]) then [' '] else [];
      var r := [s[0]] + gap + rest;
      forall i | 0 <= i < |r| - 1
        ensures !Boundary(r[i], r[i + 1])
      {
        if i >= |gap| + 1 {
          assert r[i] == rest[i - 1 - |gap|] && r[i + 1] == rest[i - |gap|];
        }
      }
    }
  }

  /** `Spaced` adds one character per boundary and leaves `s` itself in place. */
  lemma {:induction false} SpacedLength(s: string)
    ensures |Spaced(s)| == |s| + Boundaries(s)
    decreases |s|
  {
    if |s| >= 2 {
      SpacedLength(s[1..]);
    }
  }

  /** Number of letter/digit boundaries in `s`. */
  function Boundaries(s: string): nat
    decreases |s|
  {
    if |s| < 2 then 0 else (if Boundary(s[0], s[1]) then 1 else 0) + Boundaries(s[1..])
  }

  /** A string without boundaries, in particular one without digits, passes the separation unchanged. */
  lemma {:induction false} SpacedIdentity(s: string)
    requires NoBoundary(s)
    ensures Spaced(s) == s
    decreases |s|
  {
    if |s| >= 2 {
      assert !Boundary(s[0], s[1]);
      assert s == [s[0]] + s[1..];
      SpacedIdentity(s[1..]);
    }
  }

  /** Separating twice gives what separating once gives. */
  lemma SpacedIdempotent(s: string)
    ensures Spaced(Spaced(s)) == Spaced(s)
  {
    SpacedHasNoBoundary(s);
    SpacedIdentity(Spaced(s));
  }

  /** The same for the two passes themselves. */
  lemma SeparateIdempotent(s: string)
    ensures Separate(Separate(s)) == Separate(s)
  {
    SeparateIsSpaced(s);
    SeparateIsSpaced(Separate(s));
    SpacedIdempotent(s);
  }

  // ---------------------------------------------------------------------------
  // The digit-run substitution

  lemma {:induction false} ExpandRunsNoDigits(spell: nat -> string, s: string, afterWord: bool)
    requires NoDigits(s)
    ensures ExpandRuns(spell, s, afterWord) == s
    decreases |s|
  {
    if s != [] {
      assert !IsDigit(s[0]);
      ExpandRunsNoDigits(spell, s[1..], IsWordChar(s[0]));
      assert s == [s[0]] + s[1..];
    }
  }

  /** Text without digits is returned unchanged: all three patterns need a `\d`. */
  lemma NoDigitsUnchanged(spell: nat -> string, s: string)
    requires NoDigits(s)
    ensures TranslateNumbers(spell, s) == s
  {
    assert NoBoundary(s);
    SeparateIsSpaced(s);
    SpacedIdentity(s);
    ExpandRunsNoDigits(spell, s, false);
  }

  /** Digit-free text in front of the rest passes through; the flag afterwards is its last character's. */
  lemma {:induction false} ExpandRunsPrefix(spell: nat -> string, a: string, rest: string, afterWord: bool)
    requires NoDigits(a)
    ensures ExpandRuns(spell, a + rest, afterWord)
      == a + ExpandRuns(spell, rest, if a == [] then afterWord else IsWordChar(a[|a| - 1]))
    decreases |a|
  {
    if a == [] {
      assert a + rest == rest;
    } else {
      assert !IsDigit((a + rest)[0]);
      assert (a + rest)[1..] == a[1..] + rest;
      ExpandRunsPrefix(spell, a[1..], rest, IsWordChar(a[0]));
      assert a == [a[0]] + a[1..];
    }
  }

  /**
   * A digit run at a word boundary on both sides becomes the spelling of its
   * decimal value; the rest continues after a word character.
   */
  lemma BoundedRunSpelled(spell: nat -> string, d: string, b: string)
    requires d != [] && forall i :: 0 <= i < |d| ==> IsDigit(d[i])
    requires b == [] || !IsWordChar(b[0])
    ensures ExpandRuns(spell, d + b, false) == spell(DecimalValue(d)) + ExpandRuns(spell, b, true)
  {
    var s := d + b;
    var n := DigitRun(s);
    assert forall i :: 0 <= i < |d| ==> IsDigit(s[i]);
    assert |d| < |s| ==> s[|d|] == b[0];
    assert n == |d|;
    assert s[..n] == d;
    assert s[n..] == b;
  }

  /**
   * Digit-free text, one word-bounded digit run, digit-free text: the run and
   * nothing else is replaced by its spelling.
   */
  lemma SpelledBetween(spell: nat -> string, a: string, d: string, b: string)
    requires NoDigits(a) && NoDigits(b)
    requires a == [] || !IsWordChar(a[|a| - 1])
    requires d != [] && forall i :: 0 <= i < |d| ==> IsDigit(d[i])
    requires b == [] || !IsWordChar(b[0])
    ensures ExpandRuns(spell, a + d + b, false) == a + spell(DecimalValue(d)) + b
  {
    var r := d + b;
    var spelled := spell(DecimalValue(d));
    assert a + d + b == a + r;
    ExpandRunsPrefix(spell, a, r, false);
    assert ExpandRuns(spell, a + r, false) == a + ExpandRuns(spell, r, false);
    BoundedRunSpelled(spell, d, b);
    ExpandRunsNoDigits(spell, b, true);
    assert ExpandRuns(spell, r, false) == spelled + b;
    assert a + (spelled + b) == a + spelled + b;
  }

  /** Digit-free text, a digit run, digit-free text, touching only at non-word characters. */
  lemma RunHasNoBoundary(a: string, d: string, b: string)
    requires NoDigits(a) && NoDigits(b)
    requires a == [] || !IsWordChar(a[|a| - 1])
    requires forall i :: 0 <= i < |d| ==> IsDigit(d[i])
    requires b == [] || !IsWordChar(b[0])
    ensures NoBoundary(a + d + b)
  {
    var s := a + d + b;
    forall i | 0 <= i < |s| - 1
      ensures !Boundary(s[i], s[i + 1])
    {
      if i + 1 < |a| {
        assert !IsDigit(s[i + 1]);
      } else if i + 1 == |a| {
        assert !IsAsciiLetter(s[i]);
      } else if i + 1 < |a| + |d| {
        assert IsDigit(s[i]) && IsDigit(s[i + 1]);
      } else if i + 1 == |a| + |d| {
        assert s[i + 1] == b[0];
      } else {
        assert !IsDigit(s[i]) && !IsDigit(s[i + 1]);
      }
    }
  }

  /** Such a text has no letter/digit boundary, so the separation leaves it as it is. */
  lemma SpacedAroundRun(a: string, d: string, b: string)
    requires NoDigits(a) && NoDigits(b)
    requires a == [] || !IsWordChar(a[|a| - 1])
    requires forall i :: 0 <= i < |d| ==> IsDigit(d[i])
    requires b == [] || !IsWordChar(b[0])
    ensures Spaced(a + d + b) == a + d + b
  {
    RunHasNoBoundary(a, d, b);
    SpacedIdentity(a + d + b);
  }

  /** A letter glued to the front of text with no boundary is parted from it by one space. */
  lemma SeparateLetterThenDigit(c: char, r: string)
    requires IsAsciiLetter(c) && r != [] && IsDigit(r[0]) && NoBoundary(r)
    ensures Separate([c] + r) == [c, ' '] + r
  {
    var s := [c] + r;
    assert s[1..] == r;
    assert Boundary(s[0], s[1]);
    SpacedIdentity(r);
    SeparateIsSpaced(s);
  }

  /**
   * `traducir_numero_a_texto` on text with one digit run standing alone between
   * non-word characters (or the ends): exactly that run becomes `spell(int(run))`.
   */
  lemma TranslateSpelledBetween(spell: nat -> string, a: string, d: string, b: string)
    requires NoDigits(a) && NoDigits(b)
    requires a == [] || !IsWordChar(a[|a| - 1])
    requires d != [] && forall i :: 0 <= i < |d| ==> IsDigit(d[i])
    requires b == [] || !IsWordChar(b[0])
    ensures TranslateNumbers(spell, a + d + b) == a + spell(DecimalValue(d)) + b
  {
    SeparateIsSpaced(a + d + b);
    SpacedAroundRun(a, d, b);
    SpelledBetween(spell, a, d, b);
  }

  /** Once a first pass has left no digit, a second pass changes nothing. */
  lemma IdempotentOnceDigitFree(spell: nat -> string, s: string)
    requires NoDigits(TranslateNumbers(spell, s))
    ensures TranslateNumbers(spell, TranslateNumbers(spell, s)) == TranslateNumbers(spell, s)
  {
    NoDigitsUnchanged(spell, TranslateNumbers(spell, s));
  }

  /** Every character is an ASCII letter, an ASCII digit or a non-word character. */
  predicate PlainText(s: string) {
    forall i :: 0 <= i < |s| ==> IsAsciiLetter(s[i]) || IsDigit(s[i]) || !IsWordChar(s[i])
  }

  lemma {:induction false} ExpandRunsSpellsAll(spell: nat -> string, s: string, afterWord: bool)
    requires forall n :: NoDigits(spell(n))
    requires PlainText(s) && NoBoundary(s)
    requires s != [] && IsDigit(s[0]) ==> !afterWord
    ensures NoDigits(ExpandRuns(spell, s, afterWord))
    decreases |s|
  {
    if s != [] {
      if IsDigit(s[0]) {
        var n := DigitRun(s);
        if n < |s| {
          assert !DigitThenLetter(s[n - 1], s[n]);
        }
        ExpandRunsSpellsAll(spell, s[n..], true);
        var spelled := spell(DecimalValue(s[..n]));
        var rest := ExpandRuns(spell, s[n..], true);
        assert ExpandRuns(spell, s, afterWord) == spelled + rest;
      } else {
        if |s| > 1 && IsDigit(s[1]) {
          assert !LetterThenDigit(s[0], s[1]);
        }
        ExpandRunsSpellsAll(spell, s[1..], IsWordChar(s[0]));
      }
    }
  }

  lemma {:induction false} SpacedPlain(s: string)
    requires PlainText(s)
    ensures PlainText(Spaced(s))
    decreases |s|
  {
    if |s| >= 2 {
      SpacedPlain(s[1..]);
    }
  }

  /**
   * When the text holds no word character other than ASCII letters and digits
   * (no underscore, no accented letter), and the speller writes no digits,
   * every number is spelled out and no digit is left.
   */
  lemma PlainTextFullySpelled(spell: nat -> string, s: string)
    requires forall n :: NoDigits(spell(n))
    requires PlainText(s)
    ensures NoDigits(TranslateNumbers(spell, s))
  {
    SeparateIsSpaced(s);
    SpacedPlain(s);
    SpacedHasNoBoundary(s);
    ExpandRunsSpellsAll(spell, Spaced(s), false);
  }

  /**
   * A digit run followed by a word character that the separation does not
   * handle (an underscore, an accented letter, an ordinal indicator such as
   * `º`) has no word boundary after it, so it is not replaced.
   */
  lemma RunBeforeWordCharKept(spell: nat -> string, digits: string, c: char)
    requires digits != [] && forall i :: 0 <= i < |digits| ==> IsDigit(digits[i])
    requires IsWordChar(c) && !IsAsciiLetter(c) && !IsDigit(c)
    ensures TranslateNumbers(spell, digits + [c]) == digits + [c]
  {
    var s := digits + [c];
    assert NoBoundary(s) by {
      forall i | 0 <= i < |s| - 1 ensures !Boundary(s[i], s[i + 1]) {
        assert IsDigit(s[i]);
      }
    }
    SeparateIsSpaced(s);
    SpacedIdentity(s);
    var n := DigitRun(s);
    assert n == |digits| by {
      assert s[|digits|] == c;
      assert forall i :: 0 <= i < |digits| ==> s[i] == digits[i];
    }
    assert s[..n] == digits && s[n..] == [c];
    assert ExpandRuns(spell, [c], true) == [c];
  }

  // ---------------------------------------------------------------------------
  // What the normaliser keeps at the ends of the text

  lemma {:induction false} SpacedKeepsEnd(s: string)
    requires EndsWith(s, ". ")
    ensures EndsWith(Spaced(s), ". ")
    decreases |s|
  {
    if |s| == 2 {
      assert s == ". ";
      assert Spaced(s) == [s[0]] + Spaced(s[1..]);
    } else {
      assert s[1..][|s| - 3..] == s[|s| - 2..];
      SpacedKeepsEnd(s[1..]);
      var gap: string := if Boundary(s[0], s[1]) then [' '] else [];
      EndsWithAppend([s[0]] + gap, Spaced(s[1..]), ". ");
    }
  }

  lemma {:induction false} ExpandRunsKeepsEnd(spell: nat -> string, s: string, afterWord: bool)
    requires EndsWith(s, ". ")
    ensures EndsWith(ExpandRuns(spell, s, afterWord), ". ")
    decreases |s|
  {
    if IsDigit(s[0]) && !afterWord {
      var n := DigitRun(s);
      assert s[|s| - 2] == '.';
      DropKeepsEnd(s, n);
      ExpandRunsKeepsEnd(spell, s[n..], true);
      RunKeepsEnd(spell, s, afterWord);
    } else if |s| == 2 {
      assert s == ". ";
      assert ExpandRuns(spell, s[1..], IsWordChar(s[0])) == [' '] + ExpandRuns(spell, [], false);
    } else {
      DropKeepsEnd(s, 1);
      ExpandRunsKeepsEnd(spell, s[1..], IsWordChar(s[0]));
      EndsWithAppend([s[0]], ExpandRuns(spell, s[1..], IsWordChar(s[0])), ". ");
    }
  }

  /** The step of `ExpandRunsKeepsEnd` at a digit run, once the rest is known. */
  lemma RunKeepsEnd(spell: nat -> string, s: string, afterWord: bool)
    requires s != [] && IsDigit(s[0]) && !afterWord
    requires EndsWith(ExpandRuns(spell, s[DigitRun(s)..], true), ". ")
    ensures EndsWith(ExpandRuns(spell, s, afterWord), ". ")
  {
    var n := DigitRun(s);
    var head := if n == |s| || !IsWordChar(s[n]) then spell(DecimalValue(s[..n])) else s[..n];
    EndsWithAppend(head, ExpandRuns(spell, s[n..], true), ". ");
  }

  /** Dropping a prefix that holds no character of the final ". " keeps it. */
  lemma DropKeepsEnd(s: string, n: nat)
    requires EndsWith(s, ". ") && n <= |s| - 2
    ensures EndsWith(s[n..], ". ")
  {
    assert s[n..][|s| - n - 2..] == s[|s| - 2..];
  }

  /**
   * The normaliser never touches a leading space or a trailing ". ": neither
   * is a letter, a digit or part of a digit run.
   */
  lemma TranslateNumbersKeepsEnds(spell: nat -> string, s: string)
    ensures StartsWith(s, " ") ==> StartsWith(TranslateNumbers(spell, s), " ")
    ensures EndsWith(s, ". ") ==> EndsWith(TranslateNumbers(spell, s), ". ")
  {
    SeparateIsSpaced(s);
    if StartsWith(s, " ") {
      SpacedHead(s);
    }
    if EndsWith(s, ". ") {
      SpacedKeepsEnd(s);
      ExpandRunsKeepsEnd(spell, Spaced(s), false);
    }
  }
}
