/**
 * One translation pass over the lines of a subtitle file into one target
 * language: structural lines are copied, every other line is sent, stripped,
 * to the external translator, and a failed call keeps the original line.
 */
module TranslationPass {
  import opened Text
  import opened LineClassifier
  import opened Seqs

  /** A target language code, passed to the translator unchanged. */
  type Lang = string

  /** The outcome of one call to the external translator. */
  datatype Attempt = Failed | Done(text: string)

  /**
   * The external translator, from a text and a target language to the
   * translated text or a failure (a network error, an unsupported language,
   * or no text returned).
   */
  type Translator = (string, Lang) -> Attempt

  /** The line that one input line becomes in the translated file. */
  function TranslateLine(line: string, lang: Lang, translate: Translator): string {
    if IsStructural(line) then
      line
    else
      match translate(Strip(line), lang)
      case Done(t) => t + "\n"
      case Failed => line
  }

  /** What the pass does to each line, as a function of the line alone. */
  function LineStep(lang: Lang, translate: Translator): string -> string {
    line => TranslateLine(line, lang, translate)
  }

  /**
   * The translated file for one language: one output line per input line,
   * in the same order, each the image of the input line at that position.
   */
  function TranslatedLines(lines: seq<string>, lang: Lang, translate: Translator): (r: seq<string>)
    ensures |r| == |lines|
    ensures forall i :: 0 <= i < |lines| ==> r[i] == TranslateLine(lines[i], lang, translate)
  {
    Map(LineStep(lang, translate), lines)
  }

  /** The text, if any, that the pass hands to the translator for one line. */
  function RequestOf(line: string): seq<string> {
    if IsStructural(line) then [] else [Strip(line)]
  }

  /** The texts a pass hands to the translator, in the order it hands them. */
  function Requests(lines: seq<string>): seq<string> {
    FlatMap(RequestOf, lines)
  }

  /** Translating a file in two pieces is translating it whole: no line depends on its neighbours. */
  lemma TranslatedLinesAppend(a: seq<string>, b: seq<string>, lang: Lang, translate: Translator)
    ensures TranslatedLines(a + b, lang, translate)
         == TranslatedLines(a, lang, translate) + TranslatedLines(b, lang, translate)
  {
    MapAppend(LineStep(lang, translate), a, b);
  }

  /** When every call fails, as when the service is unreachable, the output is the input. */
  lemma AllFailedKeepsInput(lines: seq<string>, lang: Lang, translate: Translator)
    requires forall t :: translate(t, lang) == Failed
    ensures TranslatedLines(lines, lang, translate) == lines
  {
  }

  /**
   * A translator that misbehaves on one text only changes the lines whose
   * stripped form is that text; every other line comes out the same.
   */
  lemma Isolation(lines: seq<string>, lang: Lang, tr1: Translator, tr2: Translator, bad: string)
    requires forall t :: t != bad ==> tr1(t, lang) == tr2(t, lang)
    ensures |TranslatedLines(lines, lang, tr1)| == |TranslatedLines(lines, lang, tr2)| == |lines|
    ensures forall i :: 0 <= i < |lines| && Strip(lines[i]) != bad ==>
      TranslatedLines(lines, lang, tr1)[i] == TranslatedLines(lines, lang, tr2)[i]
  {
  }

  /** Translators that agree on a language give the same file in that language. */
  lemma AgreeingTranslators(lines: seq<string>, lang: Lang, tr1: Translator, tr2: Translator)
    requires forall t :: tr1(t, lang) == tr2(t, lang)
    ensures TranslatedLines(lines, lang, tr1) == TranslatedLines(lines, lang, tr2)
  {
  }

  /**
   * The texts handed to the translator are exactly the stripped forms of the
   * non-structural lines: structural lines are never sent.
   */
  lemma RequestsAreTexts(lines: seq<string>, t: string)
    ensures t in Requests(lines)
        <==> exists i :: 0 <= i < |lines| && !IsStructural(lines[i]) && Strip(lines[i]) == t
  {
    if t in Requests(lines) {
      InFlatMap(RequestOf, lines, t);
      var i :| 0 <= i < |lines| && t in RequestOf(lines[i]);
      assert !IsStructural(lines[i]) && Strip(lines[i]) == t;
    }
    if exists i :: 0 <= i < |lines| && !IsStructural(lines[i]) && Strip(lines[i]) == t {
      var i :| 0 <= i < |lines| && !IsStructural(lines[i]) && Strip(lines[i]) == t;
      assert t in RequestOf(lines[i]);
      InFlatMapOf(RequestOf, lines, i, t);
    }
  }

  /** The requests of a file made of two pieces are those of the first piece, then those of the second. */
  lemma RequestsAppend(a: seq<string>, b: seq<string>)
    ensures Requests(a + b) == Requests(a) + Requests(b)
  {
    FlatMapAppend(RequestOf, a, b);
  }

  /** A file of structural lines only is copied as it is. */
  lemma StructuralOnlyUntouched(lines: seq<string>, lang: Lang, translate: Translator)
    requires forall i :: 0 <= i < |lines| ==> IsStructural(lines[i])
    ensures TranslatedLines(lines, lang, translate) == lines
  {
  }

  /** A file of structural lines only costs no call to the translator. */
  lemma StructuralOnlyNoRequests(lines: seq<string>)
    requires forall i :: 0 <= i < |lines| ==> IsStructural(lines[i])
    ensures Requests(lines) == []
  {
    assert forall i :: 0 <= i < |lines| ==> RequestOf(lines[i]) == [];
    FlatMapOfEmpties(RequestOf, lines);
  }

  /**
   * The inner loop of the pass. Returns the translated lines and the texts
   * sent to the translator.
   */
  method TranslateLines(lines: seq<string>, lang: Lang, translate: Translator)
    returns (out: seq<string>, asked: seq<string>)
    ensures |out| == |lines|
    ensures forall i :: 0 <= i < |lines| && IsStructural(lines[i]) ==> out[i] == lines[i]
    ensures forall i :: 0 <= i < |lines| && !IsStructural(lines[i]) && translate(Strip(lines[i]), lang).Done? ==>
      out[i] == translate(Strip(lines[i]), lang).text + "\n"
    ensures forall i :: 0 <= i < |lines| && !IsStructural(lines[i]) && translate(Strip(lines[i]), lang).Failed? ==>
      out[i] == lines[i]
    ensures out == TranslatedLines(lines, lang, translate)
    ensures asked == Requests(lines)
  {
    out, asked := [], [];
    var i := 0;
    while i < |lines|
      invariant 0 <= i <= |lines|
      invariant out == TranslatedLines(lines[..i], lang, translate)
      invariant asked == Requests(lines[..i])
    {
      var line := lines[i];
      if IsStructural(line) {
        out := out + [line];
      } else {
        var text := Strip(line);
        asked := asked + [text];
        match translate(text, lang)
        case Done(t) =>
          out := out + [t + "\n"];
        case Failed =>
          out := out + [line];
      }
      assert lines[..i + 1][..i] == lines[..i];
      i := i + 1;
    }
    assert lines[..i] == lines;
  }
}
