/**
 * The line classifier of the translation pass: a line of the subtitle file
 * is structural (an SRT index, a timing line or a blank separator) and is
 * copied verbatim, or it is subtitle text and is sent to the translator.
 */
module LineClassifier {
  import opened Text

  /** The substring that marks an SRT timing line. */
  const Arrow := "-->"

  /**
   * A line is structural when its stripped form is a digit string, when it
   * contains `-->`, or when its stripped form is empty.
   */
  predicate IsStructural(line: string) {
    IsDigits(Strip(line)) || Contains(line, Arrow) || Strip(line) == []
  }

  /**
   * The classifier in terms of the characters of the line: structural
   * exactly when the line is all whitespace, has `-->` at some position, or
   * strips to a non-empty run of digits.
   */
  lemma StructuralIff(line: string)
    ensures IsStructural(line) <==>
      AllSpace(line) || (exists i: nat :: OccursAt(line, Arrow, i))
      || (|Strip(line)| > 0 && forall k :: 0 <= k < |Strip(line)| ==> '0' <= Strip(line)[k] <= '9')
  {
    StripEmptyIffAllSpace(line);
  }

  /**
   * Although `-->` is looked for in the raw line and the other two tests in
   * the stripped line, the class depends on the stripped form only.
   */
  lemma StructuralOfStripped(line: string)
    ensures IsStructural(Strip(line)) == IsStructural(line)
  {
    StripIdempotent(line);
    assert !IsSpace(Arrow[0]) && !IsSpace(Arrow[|Arrow| - 1]);
    if Contains(line, Arrow) {
      ContainsInStripped(line, Arrow);
    }
    if Contains(Strip(line), Arrow) {
      ContainsOfStripped(line, Arrow);
    }
  }

  /**
   * Indentation, trailing blanks and the line terminator do not change how
   * a line is classified.
   */
  lemma StructuralPadded(a: string, line: string, b: string)
    requires AllSpace(a) && AllSpace(b)
    ensures IsStructural(a + line + b) == IsStructural(line)
  {
    assert a + line + b == a + (line + b);
    StripPadStart(a, line + b);
    StripPadEnd(line, b);
    StructuralOfStripped(a + line + b);
    StructuralOfStripped(line);
  }
}
