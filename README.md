# Subtitle translation bot: a Dafny model

`bot.py` is a chat bot. A user sends it an `.srt` subtitle file and picks target
languages with buttons. On "translate", the bot sends back one machine-translated
copy of the file per picked language. This project models the two parts with real
logic, and proves what they promise:

- **The translation pass.** The file is read as a list of lines. For each selected
  language, every line is classified.
  - A structural line is copied verbatim. A line is structural when its stripped
    form is a digit string (an SRT index), when it contains `-->` (an SRT timing
    line), or when its stripped form is empty (a cue separator).
  - Every other line is stripped and sent to the external translator. On success
    it becomes the translation followed by a line feed. On any failure the original
    line is kept. The line feed is how the model reads bot.py:105-106; see "## Left out".
- **The per-user state.** Two process-wide maps hold, per user, the path of the
  last uploaded `.srt` file and the list of language codes pressed since then. An
  upload, a language press and the "translate" press change or read these maps.

Modules, leaves first:

- `Seqs` (`seqs.dfy`): a position-by-position map and a flat map over sequences,
  defined from the last element as the bot's loops append. The translated file,
  the texts sent to the translator and the outputs of a run are instances.
- `Text` (`text.dfy`): Python's `str.strip()`, `str.isdigit()`, the substring
  test `p in s` and `str.endswith`. `Strip` scans from both ends as CPython does.
  It is characterised by its contract and by `StripUnique`.
- `LineClassifier` (`classifier.dfy`): `IsStructural`, the condition at
  `bot.py:100`, and lemmas showing that it depends only on the stripped line.
- `TranslationPass` (`translation.dfy`): the translator is a function parameter
  `(text, lang) -> Failed | Done(text)`. `TranslateLines` is the inner loop of
  `translate_and_send`. `TranslatedLines` and `Requests` are its specification:
  the lines produced and the texts sent to the translator.
- `Orchestrator` (`orchestrator.dfy`): `Run` gives the outputs of one run, one per
  entry of the language list. Each output has its language, its output path, the
  file name it is sent under, and its lines.
- `Session` (`session.dfy`): the class `Bot`. Its fields `files` and `langs` are
  `user_files` and `user_langs`. Its methods are `HandleFile`, `Button` and
  `TranslateAndSend`, and `Send` specifies the last one. Two client methods,
  `ExampleSession` and `ExampleRejections`, go through a session. They show
  appends in press order, duplicates, one output per entry, and the three
  rejections.

Some facts about `bot.py` that the model keeps:
- `bot.py` has no SRT block parser. The pass works line by line.
- A repeated language press appends a duplicate. It does not toggle the language off.
- The "translate" press with no selection is answered with a message, not an error value.
- `bot.py` has no separate per-language failure report. A language whose every
  call fails gets a copy of the input.
- The session state is the two maps and nothing else. There are no phases.

## Model

| member | source | states |
|---|---|---|
| Text.IsSpace | bot.py:100 | the characters `str.strip()` removes: Python's whitespace set, that is space, `\t` to `\r`, `\x1c` to `\x1f`, `\x85`, `\xa0`, `\u1680`, `\u2000` to `\u200a`, `\u2028`, `\u2029`, `\u202f`, `\u205f` and `\u3000` |
| Text.SkipSpace | bot.py:100 | the scan from the front of `strip` passes only whitespace and stops at the end or at a non-whitespace character |
| Text.SkipSpaceBack | bot.py:100 | the scan from the back of `strip` passes only whitespace and stops at the front scan's position or just after a non-whitespace character |
| Text.Strip | bot.py:100 | `line.strip()`: everything before and after the result is whitespace, and the result neither starts nor ends with whitespace |
| Text.StripUnique | bot.py:100 | any split of a string into whitespace, a text without whitespace at its edges, and whitespace yields that text as the stripped form; so `Strip` is exactly Python's `strip` |
| Text.StripEmptyIffAllSpace | bot.py:100 | `not line.strip()` holds exactly when the line is all whitespace |
| Text.StripIdempotent | bot.py:100 | stripping twice equals stripping once |
| Text.StripPadStart | bot.py:100 | leading whitespace does not change the stripped form |
| Text.StripPadEnd | bot.py:100 | trailing whitespace, such as the line terminator, does not change the stripped form |
| Text.IsDigits | bot.py:100 | `str.isdigit()`: the string is non-empty and every character is an ASCII digit |
| Text.Contains | bot.py:100 | `p in s` is true exactly when `p` occurs in `s` at some position |
| Text.ContainsOfStripped | bot.py:100 | an occurrence in the stripped line is an occurrence in the line |
| Text.ContainsInStripped | bot.py:100 | an occurrence of a pattern with non-whitespace ends lies inside the stripped line |
| Text.EndsWith | bot.py:52 | `str.endswith(suffix)`: the last characters of the string, as many as the suffix has, are the suffix |
| LineClassifier.IsStructural | bot.py:100 | the classifier's condition: the stripped line is a digit string, or the line contains `-->`, or the stripped line is empty |
| LineClassifier.StructuralIff | bot.py:100-101 | a line is structural, and so is copied without a call to the translator, exactly when it is all whitespace, contains `-->` at some position, or strips to a non-empty run of digits |
| LineClassifier.StructuralOfStripped | bot.py:100 | testing `-->` on the raw line and the other two conditions on the stripped line is the same as testing all three on the stripped line |
| LineClassifier.StructuralPadded | bot.py:100 | indentation and trailing whitespace never change a line's class |
| TranslationPass.TranslateLine | bot.py:100-109 | what one line becomes: a structural line is kept; a text line becomes the translation of its stripped form plus `"\n"`, or stays the original line when the call fails |
| TranslationPass.Requests | bot.py:99-104 | the texts the pass hands to the translator, in order: the stripped form of each non-structural line |
| TranslationPass.TranslateLines | bot.py:98-109 | the inner loop gives one line per input line. A structural line is kept. A text line becomes the translation of its stripped form plus `"\n"`, or stays the original on failure. The texts it sends are exactly `Requests(lines)`, in order |
| TranslationPass.TranslatedLines | bot.py:98-109 | the list of translated lines has exactly one entry per input line, in the same order, each determined by the input line at that position |
| TranslationPass.TranslatedLinesAppend | bot.py:99-109 | translating a file in two pieces equals translating it whole; no line depends on its neighbours, and a failure never aborts the pass |
| TranslationPass.AllFailedKeepsInput | bot.py:103-109 | when every call to the translator fails, the output equals the input |
| TranslationPass.Isolation | bot.py:103-109 | changing the translator's behaviour on one text changes only the lines that strip to that text |
| TranslationPass.AgreeingTranslators | bot.py:104 | translators that agree on a language give the same file in that language |
| TranslationPass.RequestsAreTexts | bot.py:100-104 | the texts sent to the translator are exactly the stripped forms of the non-structural lines; structural lines are never sent |
| TranslationPass.RequestsAppend | bot.py:99-104 | the texts sent for a file in two pieces are those of the first piece, then those of the second |
| TranslationPass.StructuralOnlyUntouched | bot.py:100-101 | a file of structural lines only comes out unchanged |
| TranslationPass.StructuralOnlyNoRequests | bot.py:100-101 | a file of structural lines only makes no call to the translator |
| Orchestrator.Run | bot.py:97-116 | a run gives exactly one output per language-list entry, at the same position. Each is named `translated_<code>.srt`, written to `<path>_<code>.srt`, and translated into that code from the same input lines |
| Orchestrator.RunAppend | bot.py:97 | the outputs for a list that has grown are the old outputs followed by those of the added entries |
| Orchestrator.LanguageIndependence | bot.py:97-109 | the output for a language depends only on how the translator behaves for that language |
| Orchestrator.FailingLanguageKeepsInput | bot.py:97-113 | every entry of the list still gets an output, and each entry for a language whose every call fails gets a copy of the input |
| Orchestrator.DuplicateSelections | bot.py:97-116 | with a deterministic translator, a language selected twice produces two identical outputs |
| Session.Send | bot.py:89-116 | the outcome of a run: "file not found" when no path, or an empty path, is recorded for the user. Otherwise the outputs of `Run` over the user's selection, from the lines read from the recorded path |
| Session.SendOnePerSelection | bot.py:89-116 | no output when no file path is recorded, or the recorded path is empty. Otherwise one document per selection entry, in selection order, named with that entry's code and translated from the recorded file's lines |
| Session.RunNeedsOnlyAPath | bot.py:89-92 | while both maps have the same users, a run started for a user with a selection reports "file not found" only for an empty recorded path |
| Session.Bot.constructor | bot.py:24-25 | both maps start empty |
| Session.Bot.HandleFile | bot.py:50-69 | a name not ending in `.srt` changes nothing. A `.srt` name records the path, a non-empty temporary file name, for that user and resets the user's selection to the empty list; no other user changes. Both maps keep the same users and only non-empty paths |
| Session.Bot.Button | bot.py:72-85 | "translate" with a missing or empty selection produces no run. Otherwise it runs `Send` on the unchanged state, and that run always sends one output per selected entry, because every user with a selection has a non-empty recorded path. Any other data appends the code to the end of the user's list, keeping duplicates. Without a list it changes nothing. The file paths never change |
| Session.Bot.TranslateAndSend | bot.py:88-116 | reads the recorded file once, loops over the selection in order running the inner loop per language, and returns exactly `Send` of the state |

## Left out

- The string literal appended to a translation (bot.py:105-106) is written as an opening quote, a raw line break and a closing quote on the next line. A one-line Python string cannot span a line, so Python rejects `bot.py` as it stands with an unterminated string literal, and no handler can run. The model reads the literal as the evidently intended `"\n"`, a single line feed, in `TranslateLine` and `TranslateLines`.
- Chat transport: the `/start` handler, `reply_text`, `edit_message_text`, `query.answer`, `send_document`, the webhook route and `run_webhook` (bot.py:46-47, 119-123, 131-141). A run's documents are returned as a list of outputs.
- File download and the temporary file (bot.py:56-58). The temporary path is a parameter of `HandleFile`.
- Reading the input file (bot.py:94-95). Its lines are given by a function parameter `read` from path to lines; a decoding failure, which would abort the handler, is not modelled.
- Writing output files (bot.py:112-115). Each output records its path and lines instead.
- A failure while sending one document, which in the bot aborts the remaining languages, is not modelled.
- Session.Bot.HandleFile / Session.Bot.Button: every chat call is taken to succeed. These are `get_file` and `download_to_drive` (bot.py:56-58), the keyboard `reply_text` (bot.py:68), `query.answer` (bot.py:74) and `edit_message_text` (bot.py:78, 82). In the bot, a failing download records nothing. A failing keyboard reply leaves the path recorded without resetting the selection: a new user then has a path but no list, and a returning user keeps the old list for the new file. A failing `answer` or `edit_message_text` ends the press before the append or the run. `Valid()` (equal user sets, non-empty paths) is an invariant of the model only under this assumption.
- `GoogleTranslator` (bot.py:104) is the `Translator` function parameter. A call that returns no text makes the concatenation with the string literal at bot.py:105-106 raise, which the `except` catches, so it counts as `Failed`.
- Orchestrator.DuplicateSelections: the translator is a pure function of text and language. The bot calls the service again for each entry of the selection, so a duplicated language can get outputs that differ where the service failed, for instance by rate limiting, in one pass and not in the other.
- TranslationPass.TranslateLines: the translator is a pure function of text and language. Two identical lines in one pass therefore get the same outcome, while the real service may fail on one and succeed on the other.
- Text.IsDigits: only the ASCII digits count. Python's `str.isdigit` also accepts other Unicode digits, such as superscripts and Arabic-Indic digits, so a line made only of those is text here and structural in the bot.
- The keyboard and the `LANGUAGES` display names (bot.py:27-43, 61-68) are presentation only. A language code is any string.
- The token and webhook configuration and the start-up `ValueError` (bot.py:126-129).
- Logging (bot.py:18, 108) and the `async` structure. Handlers run one at a time.
