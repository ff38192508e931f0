/**
 * The bot's per-user state and its three handlers: a document upload, a
 * button press (a language code or "translate"), and the translation run.
 */
module Session {
  import opened Text
  import opened TranslationPass
  import opened Orchestrator

  /** A chat user's identifier. */
  type UserId = int

  /** The callback data of the button that starts the translation. */
  const TranslateCommand := "translate"

  /** The only accepted file name ending; the test is case-sensitive. */
  const SrtSuffix := ".srt"

  /** What an upload is answered with. */
  datatype UploadReply =
    | NotSrt           // asked to send a `.srt` file instead
    | ChooseLanguages  // shown the language keyboard

  /** The outcome of a translation run. */
  datatype SendResult =
    | FileNotFound                  // no file recorded for the user
    | Sent(outputs: seq<Output>)    // the documents sent, in order

  /** What a button press is answered with. */
  datatype ButtonReply =
    | NoLanguageSelected          // "translate" with a missing or empty selection
    | Started(result: SendResult) // "translate" with a selection: the run's outcome
    | Added                       // a language code appended to the selection
    | NoSession                   // a language press for a user with no selection list: the handler fails

  /**
   * The outcome of a run for `user`, whose selection is `selection`, when the
   * file at a path reads as `read(path)`.
   */
  function Send(files: map<UserId, string>, user: UserId, selection: seq<Lang>,
                read: string -> seq<string>, translate: Translator): SendResult
  {
    if user !in files || files[user] == "" then
      FileNotFound
    else
      Sent(Run(files[user], read(files[user]), selection, translate))
  }

  /**
   * No output without a recorded file; otherwise one document per selection
   * entry, in selection order, named after that entry's code and translated
   * into it from the lines of the recorded file.
   */
  lemma SendOnePerSelection(files: map<UserId, string>, user: UserId, selection: seq<Lang>,
                            read: string -> seq<string>, translate: Translator)
    ensures Send(files, user, selection, read, translate).FileNotFound?
        <==> user !in files || files[user] == ""
    ensures Send(files, user, selection, read, translate).Sent? ==>
      var outs := Send(files, user, selection, read, translate).outputs;
      |outs| == |selection|
      && forall k :: 0 <= k < |selection| ==>
           outs[k].lang == selection[k]
           && outs[k].name == "translated_" + selection[k] + ".srt"
           && outs[k].path == files[user] + "_" + selection[k] + ".srt"
           && outs[k].lines == TranslatedLines(read(files[user]), selection[k], translate)
  {
  }

  /** The process-wide state: the recorded file path and the selected language list of each user. */
  class Bot {
    var files: map<UserId, string>
    var langs: map<UserId, seq<Lang>>

    /**
     * A user has a selection list exactly when a file is recorded for them,
     * and a recorded path is never empty, since it names a temporary file.
     * This holds because every chat call the handlers make between the two
     * map updates is taken to succeed.
     */
    ghost predicate Valid()
      reads this
    {
      files.Keys == langs.Keys && forall u :: u in files ==> files[u] != ""
    }

    constructor ()
      ensures Valid() && files == map[] && langs == map[]
    {
      files := map[];
      langs := map[];
    }

    /**
     * A document from `user` named `fileName`, saved by the caller at
     * `tempPath`, the name of a fresh temporary file and so never empty. Only
     * a `.srt` name is accepted; it records the path and resets the selection.
     */
    method HandleFile(user: UserId, fileName: string, tempPath: string) returns (reply: UploadReply)
      requires Valid() && tempPath != ""
      modifies this
      ensures Valid()
      ensures reply == (if EndsWith(fileName, SrtSuffix) then ChooseLanguages else NotSrt)
      ensures EndsWith(fileName, SrtSuffix) ==>
        files == old(files)[user := tempPath] && langs == old(langs)[user := []]
      ensures !EndsWith(fileName, SrtSuffix) ==> files == old(files) && langs == old(langs)
    {
      if !EndsWith(fileName, SrtSuffix) {
        return NotSrt;
      }
      files := files[user := tempPath];
      langs := langs[user := []];
      reply := ChooseLanguages;
    }

    /**
     * A button press by `user` with callback data `data`. "translate" runs
     * the translation when the selection is non-empty; any other data is a
     * language code appended to the selection.
     */
    method Button(user: UserId, data: string, read: string -> seq<string>, translate: Translator)
      returns (reply: ButtonReply)
      requires Valid()
      modifies this
      ensures Valid() && files == old(files)
      ensures data == TranslateCommand ==>
        langs == old(langs)
        && reply == (if user !in langs || langs[user] == [] then NoLanguageSelected
                     else Started(Send(files, user, langs[user], read, translate)))
      ensures data == TranslateCommand && user in langs && langs[user] != [] ==>
        reply == Started(Sent(Run(files[user], read(files[user]), langs[user], translate)))
      ensures data != TranslateCommand && user in old(langs) ==>
        langs == old(langs)[user := old(langs)[user] + [data]] && reply == Added
      ensures data != TranslateCommand && user !in old(langs) ==>
        langs == old(langs) && reply == NoSession
    {
      if data == TranslateCommand {
        if user !in langs || langs[user] == [] {
          return NoLanguageSelected;
        }
        var result := TranslateAndSend(user, read, translate);
        reply := Started(result);
      } else if user in langs {
        langs := langs[user := langs[user] + [data]];
        reply := Added;
      } else {
        reply := NoSession;
      }
    }

    /**
     * The translation run for `user`: read the recorded file once, then for
     * each selected language in order, translate every line and emit the
     * document.
     */
    method TranslateAndSend(user: UserId, read: string -> seq<string>, translate: Translator)
      returns (result: SendResult)
      requires user in langs
      ensures result == Send(files, user, langs[user], read, translate)
    {
      if user !in files || files[user] == "" {
        return FileNotFound;
      }
      var path := files[user];
      var lines := read(path);
      var selection := langs[user];
      var outputs: seq<Output> := [];
      var k := 0;
      while k < |selection|
        invariant 0 <= k <= |selection|
        invariant outputs == Run(path, lines, selection[..k], translate)
      {
        var lang := selection[k];
        var translated, _ := TranslateLines(lines, lang, translate);
        outputs := outputs + [Output(lang, path + "_" + lang + ".srt", "translated_" + lang + ".srt", translated)];
        assert selection[..k + 1][..k] == selection[..k];
        k := k + 1;
      }
      assert selection[..k] == selection;
      result := Sent(outputs);
    }
  }

  /**
   * While the state is valid, a run that reaches the translation step fails
   * only when the recorded path is the empty string.
   */
  lemma RunNeedsOnlyAPath(files: map<UserId, string>, langs: map<UserId, seq<Lang>>, user: UserId,
                          read: string -> seq<string>, translate: Translator)
    requires files.Keys == langs.Keys && user in langs
    ensures Send(files, user, langs[user], read, translate).FileNotFound? <==> files[user] == ""
  {
    SendOnePerSelection(files, user, langs[user], read, translate);
  }

  /** One user's session: upload, three language presses (one repeated), then "translate". */
  method ExampleSession(read: string -> seq<string>, translate: Translator)
  {
    var bot := new Bot();
    var up := bot.HandleFile(7, "film.srt", "/tmp/b.srt");
    assert up == ChooseLanguages && bot.langs[7] == [];
    var r := bot.Button(7, "uk", read, translate);
    r := bot.Button(7, "en", read, translate);
    r := bot.Button(7, "uk", read, translate);
    assert bot.langs[7] == ["uk", "en", "uk"];
    r := bot.Button(7, TranslateCommand, read, translate);
    SendOnePerSelection(bot.files, 7, bot.langs[7], read, translate);
    assert r.Started? && r.result.Sent? && |r.result.outputs| == 3;
    assert r.result.outputs[0] == r.result.outputs[2];
  }

  /** The three rejections: a non-`.srt` upload, "translate" with nothing selected, a press with no session. */
  method ExampleRejections(read: string -> seq<string>, translate: Translator)
  {
    var bot := new Bot();
    var up := bot.HandleFile(7, "notes.txt", "/tmp/a");
    assert up == NotSrt && bot.files == map[];
    var r := bot.Button(7, "en", read, translate);
    assert r == NoSession && bot.langs == map[];
    up := bot.HandleFile(7, "film.srt", "/tmp/b.srt");
    r := bot.Button(7, TranslateCommand, read, translate);
    assert r == NoLanguageSelected;
  }
}
