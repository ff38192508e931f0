/**
 * The outputs of one "translate" request: one translated file per entry of
 * the user's language list, in list order, all computed from the same lines.
 */
module Orchestrator {
  import opened TranslationPass
  import opened Seqs

  /**
   * One translated file: its language, the path it is written to, the name
   * it is sent under, and its lines.
   */
  datatype Output = Output(lang: Lang, path: string, name: string, lines: seq<string>)

  /** The output for one language of the file stored at `filePath` with contents `lines`. */
  function OutputFor(filePath: string, lines: seq<string>, lang: Lang, translate: Translator): Output {
    Output(lang, filePath + "_" + lang + ".srt", "translated_" + lang + ".srt",
           TranslatedLines(lines, lang, translate))
  }

  /** The output of a run for each language, as a function of the language alone. */
  function LangStep(filePath: string, lines: seq<string>, translate: Translator): Lang -> Output {
    lang => OutputFor(filePath, lines, lang, translate)
  }

  /**
   * The outputs of a run over the language list `langs`: exactly one output
   * per list entry, at the same position, named with that entry's code and
   * translated from the same input lines into it.
   */
  function Run(filePath: string, lines: seq<string>, langs: seq<Lang>, translate: Translator): (r: seq<Output>)
    ensures |r| == |langs|
    ensures forall k :: 0 <= k < |langs| ==>
      r[k].lang == langs[k]
      && r[k].path == filePath + "_" + langs[k] + ".srt"
      && r[k].name == "translated_" + langs[k] + ".srt"
      && r[k].lines == TranslatedLines(lines, langs[k], translate)
  {
    Map(LangStep(filePath, lines, translate), langs)
  }

  /** Selecting more languages appends their outputs and leaves the earlier ones as they were. */
  lemma RunAppend(filePath: string, lines: seq<string>, a: seq<Lang>, b: seq<Lang>, translate: Translator)
    ensures Run(filePath, lines, a + b, translate)
         == Run(filePath, lines, a, translate) + Run(filePath, lines, b, translate)
  {
    MapAppend(LangStep(filePath, lines, translate), a, b);
  }

  /**
   * Languages are independent: the output for a language depends only on
   * how the translator behaves for that language.
   */
  lemma LanguageIndependence(filePath: string, lines: seq<string>, langs: seq<Lang>,
                             tr1: Translator, tr2: Translator, lang: Lang)
    requires forall t :: tr1(t, lang) == tr2(t, lang)
    ensures |Run(filePath, lines, langs, tr1)| == |Run(filePath, lines, langs, tr2)| == |langs|
    ensures forall k :: 0 <= k < |langs| && langs[k] == lang ==>
      Run(filePath, lines, langs, tr1)[k] == Run(filePath, lines, langs, tr2)[k]
  {
    AgreeingTranslators(lines, lang, tr1, tr2);
  }

  /**
   * A language whose every call fails still gets its output, a copy of the
   * input lines; the run is not aborted.
   */
  lemma FailingLanguageKeepsInput(filePath: string, lines: seq<string>, langs: seq<Lang>,
                                  translate: Translator, lang: Lang)
    requires forall t :: translate(t, lang) == Failed
    ensures |Run(filePath, lines, langs, translate)| == |langs|
    ensures forall k :: 0 <= k < |langs| && langs[k] == lang ==>
      Run(filePath, lines, langs, translate)[k].lines == lines
  {
    AllFailedKeepsInput(lines, lang, translate);
  }

  /**
   * With a translator that is a function of text and language, a language
   * selected twice gets two identical outputs, written to and sent under the
   * same name.
   */
  lemma DuplicateSelections(filePath: string, lines: seq<string>, langs: seq<Lang>,
                            translate: Translator, i: nat, j: nat)
    requires i < |langs| && j < |langs| && langs[i] == langs[j]
    ensures |Run(filePath, lines, langs, translate)| == |langs|
    ensures Run(filePath, lines, langs, translate)[i] == Run(filePath, lines, langs, translate)[j]
  {
  }
}
