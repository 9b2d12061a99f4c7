# Mnemosynth voice chat: text handling and conversation state

Mnemosynth's voice-chat page (`src/f5_tts/infer/infer_gradio.py`) takes a
spoken or typed user turn and keeps a role-tagged message log for the reply
generator. It also keeps the list of (user text, reply) pairs shown on the
page, and voices the latest reply with a cloned reference voice. This
project models the text-handling and bookkeeping part of that page in Dafny
and proves what it promises:

- `Numbers` — `traducir_numero_a_texto`. It puts a space between an ASCII
  letter and a digit, in either order. Then every digit run that stands
  between word boundaries (`\b\d+\b`) is replaced by its Spanish spelling.
  The spelling library (`num2words(n, lang='es')`) is the parameter `spell`.
- `Synthesis` — the shaping at the top of `infer`. The text is forced to
  start with `" "` and end with `". "`, then lower-cased, then its numbers
  are spelled out.
- `SpeechTypes` — `parse_speechtypes_text`. The script is split at
  `{label}` tags the way `re.split(r"\{(.*?)\}", ...)` does. Each text piece
  is stripped and becomes a segment in the style of the last tag before it;
  the style is "Regular" before the first tag. `ParseSpeechTypes` and
  `ParsePieces` keep the source's loop with its mutable current style.
- `NumberExamples` — the normaliser worked out for `tengo 3 gatos` and
  `v2 del modelo`.
- `SpeechExamples` — the split and the parse worked out for a script with
  two tagged sentences, including `{alegre} Hola {triste} adiós`.
- `Chat` — the session state.
  - `process_audio_input` is the method `Conversation.ProcessAudioInput` of
    a class whose two fields it appends to in place.
  - `clear_conversation` and `update_system_prompt` build fresh sessions.
  - `generate_audio_response` has its guards modelled. The voice model is
    the parameter `synthesize`.
- `Str` — the Python built-ins these rely on: `str.strip`, `str.lower`,
  `startswith`/`endswith` and the `\w` and `\d` classes.

The transcriber (`preprocess_ref_audio_text(...)[1]`), the reply generator
(`generate_response`) and the voice model are function parameters. An
absent audio path (`None` or `""` in Python) is the empty string.

## Model

| member | source | states |
|---|---|---|
| Str.Strip | src/f5_tts/infer/infer_gradio.py:143 | `str.strip()`: the result has no whitespace at either end, and it is empty exactly when the input is empty or all whitespace |
| Str.StripSlice | src/f5_tts/infer/infer_gradio.py:143 | the result of `strip` is the stretch of the input that starts after its leading whitespace; every character cut off at either end is whitespace |
| Str.StripBetween | src/f5_tts/infer/infer_gradio.py:148 | the converse: cut whitespace-only stretches from both ends so that what is left starts and ends with non-whitespace, and the rest is exactly `strip`'s result |
| Str.LowerChar | src/f5_tts/infer/infer_gradio.py:98 | lower-casing one character leaves no ASCII capital, keeps digits, letters and word characters in their class, and does not touch non-word characters |
| Numbers.SpaceLetterDigitIsSpaced | src/f5_tts/infer/infer_gradio.py:74 | the left-to-right letter-then-digit substitution equals a reference that puts one space after each letter followed by a digit |
| Numbers.SpaceDigitLetterOfSpaced | src/f5_tts/infer/infer_gradio.py:74-75 | applied after the first substitution, the digit-then-letter substitution gives the reference separation `Spaced` |
| Numbers.SeparateIsSpaced | src/f5_tts/infer/infer_gradio.py:74-75 | the two substitutions together equal `Spaced`: every character kept, one space inserted at each letter/digit boundary in either order |
| Numbers.SpacedHasNoBoundary | src/f5_tts/infer/infer_gradio.py:74-75 | after separation no ASCII letter is adjacent to a digit |
| Numbers.SpacedLength | src/f5_tts/infer/infer_gradio.py:74-75 | separation adds exactly one character per letter/digit boundary |
| Numbers.SpacedIdentity | src/f5_tts/infer/infer_gradio.py:74-75 | text with no letter/digit boundary is left unchanged |
| Numbers.SpacedIdempotent | src/f5_tts/infer/infer_gradio.py:74-75 | separating an already separated text changes nothing |
| Numbers.SeparateIdempotent | src/f5_tts/infer/infer_gradio.py:74-75 | applying the two substitutions a second time changes nothing |
| Numbers.SpacedKeepsEnd | src/f5_tts/infer/infer_gradio.py:74-75 | separation keeps a trailing `". "` |
| Numbers.DigitRun | src/f5_tts/infer/infer_gradio.py:81 | the greedy `\d+`: the run is all digits and is followed by a non-digit or the end |
| Numbers.ExpandRunsNoDigits | src/f5_tts/infer/infer_gradio.py:81 | the substitution of `\b\d+\b` leaves digit-free text unchanged |
| Numbers.ExpandRunsSpellsAll | src/f5_tts/infer/infer_gradio.py:81 | in separated text of ASCII letters, digits and non-word characters, every digit run is replaced, so no digit remains when `spell` produces none |
| Numbers.RunBeforeWordCharKept | src/f5_tts/infer/infer_gradio.py:74-81 | a digit run directly followed by a word character that is neither an ASCII letter nor a digit (`_`, `ñ`, `á`) is not spelled out: `\b` never holds after it |
| Numbers.ExpandRunsKeepsEnd | src/f5_tts/infer/infer_gradio.py:81 | the number substitution keeps a trailing `". "` |
| Numbers.NoDigitsUnchanged | src/f5_tts/infer/infer_gradio.py:73-83 | `traducir_numero_a_texto` returns digit-free text unchanged |
| Numbers.ExpandRunsPrefix | src/f5_tts/infer/infer_gradio.py:81 | digit-free text ahead of the rest passes the run substitution unchanged, and the word-boundary state afterwards is that of its last character |
| Numbers.BoundedRunSpelled | src/f5_tts/infer/infer_gradio.py:77-81 | a digit run with no word character on either side is replaced by `spell` of its decimal value, `int(run)` |
| Numbers.SpelledBetween | src/f5_tts/infer/infer_gradio.py:77-81 | digit-free text, one bounded run, digit-free text: exactly the run is replaced by its spelling |
| Numbers.SpacedAroundRun | src/f5_tts/infer/infer_gradio.py:74-75 | such a text has no letter/digit boundary, so separation leaves it as it is |
| Numbers.TranslateSpelledBetween | src/f5_tts/infer/infer_gradio.py:73-83 | `traducir_numero_a_texto` on text with one digit run between non-word characters or the ends replaces exactly that run by `spell(int(run))` |
| Numbers.SeparateLetterThenDigit | src/f5_tts/infer/infer_gradio.py:74 | an ASCII letter in front of boundary-free text that starts with a digit is parted from it by exactly one space |
| NumberExamples.ThreeCats | src/f5_tts/infer/infer_gradio.py:73-83 | `tengo 3 gatos` becomes `tengo ` + `spell(3)` + ` gatos` |
| NumberExamples.ModelVersion | src/f5_tts/infer/infer_gradio.py:73-83 | `v2 del modelo` becomes `v ` + `spell(2)` + ` del modelo`: the 2 is parted from the v, then spelled |
| Numbers.IdempotentOnceDigitFree | src/f5_tts/infer/infer_gradio.py:73-83 | when its output has no digits, applying `traducir_numero_a_texto` again changes nothing |
| Numbers.PlainTextFullySpelled | src/f5_tts/infer/infer_gradio.py:73-83 | for text of ASCII letters, digits and non-word characters, the output has no digits left when `spell` produces none |
| Numbers.TranslateNumbersKeepsEnds | src/f5_tts/infer/infer_gradio.py:73-83 | a leading `" "` and a trailing `". "` survive `traducir_numero_a_texto` |
| Synthesis.ShapeText | src/f5_tts/infer/infer_gradio.py:93-96 | the shaped text starts with `" "` and ends with `". "`; each is added only when missing, so text that already has both is unchanged, and otherwise the input is kept between what was added |
| Synthesis.LowerKeepsEnds | src/f5_tts/infer/infer_gradio.py:98 | lower-casing keeps the forced `" "` and `". "` |
| Synthesis.PrepareText | src/f5_tts/infer/infer_gradio.py:93-99 | whatever the reply, the text the synthesis model receives starts with `" "` and ends with `". "` |
| Synthesis.PlainReplyFullySpelled | src/f5_tts/infer/infer_gradio.py:93-99 | a reply of ASCII letters, digits and non-word characters reaches the synthesis model with no digit left |
| Synthesis.DigitFreeReplyOnlyShaped | src/f5_tts/infer/infer_gradio.py:93-99 | a reply without digits is only shaped and lower-cased |
| SpeechTypes.CloseAt | src/f5_tts/infer/infer_gradio.py:131 | the `}` found for the lazy `(.*?)` lies after the start, and no `}` or newline comes before it |
| SpeechTypes.CloseAtFirst | src/f5_tts/infer/infer_gradio.py:131 | `CloseAt` finds exactly the first `}` that no newline precedes |
| SpeechTypes.NextTag | src/f5_tts/infer/infer_gradio.py:131-134 | the match found is a `{` with its closing `}`, and no match starts earlier; with no result, no match starts anywhere |
| SpeechTypes.NextTagLeftmost | src/f5_tts/infer/infer_gradio.py:131-134 | `NextTag` finds exactly the leftmost match |
| SpeechTypes.SplitOnTags | src/f5_tts/infer/infer_gradio.py:131-134 | `re.split` with one capture group returns twice as many pieces as there are matches, plus one |
| SpeechTypes.TagPiecesClean | src/f5_tts/infer/infer_gradio.py:131-134 | the captured tag contents never hold a `}` or a newline |
| SpeechTypes.SplitRoundTrip | src/f5_tts/infer/infer_gradio.py:131-134 | joining the pieces with `{`/`}` around the captured ones gives back the script |
| SpeechTypes.UnsplitThenSplit | src/f5_tts/infer/infer_gradio.py:131-134 | the other round trip: token lists whose texts have no `{` and whose tag contents have no `}` or newline, once joined, split back into themselves (a sufficient condition: a split can also yield other lists, such as `["a{b"]`) |
| SpeechTypes.SplitAtFirstTag | src/f5_tts/infer/infer_gradio.py:131-134 | a text without `{` followed by a tag splits into that text, the tag's contents and the split of the rest |
| SpeechTypes.NoBraceNoTags | src/f5_tts/infer/infer_gradio.py:131-134 | a script without `{` splits into itself alone |
| SpeechTypes.ParsePieces | src/f5_tts/infer/infer_gradio.py:136-151 | the source's loop with its mutable current style computes `SegmentsFrom` over the stripped pieces |
| SpeechTypes.ParseSpeechTypes | src/f5_tts/infer/infer_gradio.py:129-151 | `parse_speechtypes_text` returns `SpeechSegments`; every segment has non-empty text with no whitespace at either end; there is at most one segment more than there are tags |
| SpeechTypes.SegmentTextsStripped | src/f5_tts/infer/infer_gradio.py:143-145 | a segment is emitted only for non-empty stripped text |
| SpeechTypes.SegmentCount | src/f5_tts/infer/infer_gradio.py:140-149 | at most one segment per text piece |
| SpeechTypes.SpeechSegmentsShape | src/f5_tts/infer/infer_gradio.py:129-151 | every segment's text is non-empty and stripped; there are at most one more segments than tags |
| SpeechTypes.SegmentsFromIsStyled | src/f5_tts/infer/infer_gradio.py:138-149 | the loop equals a stateless reference that styles each text piece by the tag directly before it |
| SpeechTypes.ParseMatchesReference | src/f5_tts/infer/infer_gradio.py:129-151 | the parse equals the reference: in order, one segment per non-empty stripped text piece, styled by the tag before it, "Regular" for the first |
| SpeechTypes.UntaggedScript | src/f5_tts/infer/infer_gradio.py:129-151 | a script without tags gives no segment when blank and otherwise one "Regular" segment with the stripped script |
| SpeechTypes.LeadingTextIsRegular | src/f5_tts/infer/infer_gradio.py:138-145 | non-blank text before the first tag becomes the first segment, in the "Regular" style |
| SpeechExamples.TwoTagsSplit | src/f5_tts/infer/infer_gradio.py:131-134 | `{x}y{z}w`, with tag contents free of `}` and newlines and texts free of `{`, splits into `""`, `x`, `y`, `z`, `w` |
| SpeechExamples.TwoStyledSentences | src/f5_tts/infer/infer_gradio.py:129-151 | `{x}y{z}w` with non-blank sentences gives two segments: stripped `y` in style stripped `x`, then stripped `w` in style stripped `z` |
| SpeechExamples.TwoStyles | src/f5_tts/infer/infer_gradio.py:129-151 | `{alegre} Hola {triste} adiós` gives `("alegre", "Hola")` then `("triste", "adiós")` |
| Chat.UpdateSystemPrompt | src/f5_tts/infer/infer_gradio.py:305-308 | the new session has an empty history and a log holding only the new system prompt, and is consistent |
| Chat.ClearConversation | src/f5_tts/infer/infer_gradio.py:296-303 | the new session has an empty history and a log holding only the built-in system prompt, and is consistent |
| Chat.ClearRestoresInitialState | src/f5_tts/infer/infer_gradio.py:240-248 | clearing gives the same session as setting the built-in prompt, which is the state the page starts in |
| Chat.UserText | src/f5_tts/infer/infer_gradio.py:255-262 | the turn is ignored exactly when there is no audio and the text is blank, or the transcription is blank; otherwise the user's text is the typed text without audio and the transcription with audio, and is not blank |
| Chat.IgnoredTurnChangesNothing | src/f5_tts/infer/infer_gradio.py:255-262 | an ignored turn leaves the history and the log as they were |
| Chat.TurnAppends | src/f5_tts/infer/infer_gradio.py:264-270 | an accepted turn appends the user message and then the reply to the log and one filled line to the history, keeps every earlier entry, and gives the generator the log up to the new user message |
| Chat.TurnPreservesConsistency | src/f5_tts/infer/infer_gradio.py:252-272 | every turn keeps the log in step with the history: system prompt first, then each line's user and assistant messages in order |
| Chat.Conversation.ProcessAudioInput | src/f5_tts/infer/infer_gradio.py:252-272 | the in-place appends leave the state `Turn` describes, keep the session consistent, and return `""` as a third result, which the page's events do not bind |
| Chat.ReplyToVoice | src/f5_tts/infer/infer_gradio.py:277-282 | nothing is voiced exactly when there is no history, no reference audio, or the last reply is missing or empty; otherwise the last line's reply is voiced |
| Chat.GenerateAudioResponse | src/f5_tts/infer/infer_gradio.py:275-294 | `None` exactly in the cases above; otherwise the voice model's output for the last reply after the shaping of `infer` |
| Chat.VoicedReplyIsLastAssistantMessage | src/f5_tts/infer/infer_gradio.py:264-294 | in a consistent session, what gets voiced is the last assistant message of the log, shaped |
| Chat.TurnThenVoice | src/f5_tts/infer/infer_gradio.py:252-294 | after an accepted turn with a non-empty reply and reference audio, the audio produced is the voice of that reply |

## Left out

- Loading the chat model and tokenizer, and `generate_response` itself: the reply generator is a parameter.
- `infer_process`, silence removal, the spectrogram and the temporary files: the voice model is a parameter of `GenerateAudioResponse`. Its cross-fade and speed arguments are not modelled.
- `preprocess_ref_audio_text` is a parameter (the transcriber), and so is `num2words` (`spell`). What they return is not constrained.
- The unused `model` argument of `generate_audio_response` and `infer`, and `show_info`.
- Exceptions are not modelled. These include `int()` refusing a run of more than 4300 digits, `num2words` failing on a huge number, and a generator failure after the user message was already appended.
- Str.LowerChar: matches `str.lower()` only up to U+00FF. Characters above are left as they are.
- Str.IsWordChar: matches `\w` only up to U+00FF. Characters above are treated as non-word characters.
- Numbers.DigitRun: `\d` is modelled as the ASCII digits only. Python's `\d` also matches other Unicode decimal digits.
- The Gradio interface: layout, event chaining, `stop_recording`/`submit` wiring, the `launch` entry point and `gpu_decorator`.
- Chat.ClearConversation: always restores the built-in prompt, as lines 296-303 do. A custom prompt set through `update_system_prompt` from the prompt box (lines 218-222, 305-308) is dropped by a clear, while the box still shows it.
- There is no invalid-state error and no guard against a second turn arriving while one is in progress, because the code has neither. The turn handler runs to completion on the state it is given.
- An absent audio path is the empty string. `None` and `""` are treated alike, as Python's `not audio_path` does.
