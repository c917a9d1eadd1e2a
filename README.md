# Sentence-by-sentence playback of TextToSpeechWin

This project models the core of the TextToSpeechWin main window: the part that reads a document
aloud one sentence at a time. It is a model written in Dafny, and its properties are proved.

- **Segmenter** (`segmenter.dfy`) models `split_text_into_sentences`.
  - The text is cut after every `.`, `!`, `?`, `,`, `:` and `;`.
  - Each piece is trimmed with `str.strip()`. Whitespace is the set of characters for which
    Python's `str.isspace()` holds.
  - Each piece keeps the half-open span `(start, end)` it was cut from.
  - The piece after the last delimiter is kept only if it is not blank.
  - A second pass drops pieces with an empty sentence.

  The specification is the function `CutsFrom`, which gives the spans, and `Segment`, which pairs
  each span with its trimmed text. The scan itself is the method `SplitTextIntoSentences`, built from
  a loop over the characters (`ScanPieces` and `ScanStep`), the remainder step (`KeepRemainder`) and
  the blank filter (`DropBlankPieces`). The method is proved to return exactly `Segment(text)`.
- **Playback** (`playback.dfy`) models the playback state machine as the class `Controller`.
  - Its fields are `isPlaying`, `isPause`, `sentences`, `positions`, `index` and `currentText`.
  - It also holds the highlighted span (`highlight`), whether the 100 ms timer runs (`polling`), and
    a ghost log of the requests made of the speech engine (`calls`). `Purge` stands for
    `Speak("", 3)`.
  - Whether a speech engine exists is the constructor's `hasSpeaker`.
  - The timer tick takes the engine's "finished speaking" status (`RunningState == 1`) as a boolean
    argument.
  - The voice is chosen by an index into a voice list of a given length.
  - The document is passed as a string to the operations that read it.

  `Valid()` holds after every operation from any valid state:
  - the two flags are never both set;
  - `0 <= index <= |sentences|`;
  - the lists are the segmentation of the current text;
  - a session (playing or paused) has an engine and at least one sentence;
  - the timer runs exactly during a session.

  `Live()` holds in every state reachable from construction. During a session it also requires that
  the index is on a sentence and that this sentence is the one highlighted.

## Behaviour of the code worth noting

- The span of a unit includes the whitespace that its sentence trims away: `"Hello. World!"` gives
  the spans `(0, 6)` and `(6, 13)` (`Segmenter.HelloWorldExample`).
- `start_playback` strips the document before segmenting it, so the spans are offsets into the
  stripped text, while the highlighter applies them to the document itself. With leading whitespace
  in the document the highlight is shifted.
  - `Playback.SpansIndexStrippedText` proves where each sentence really is in the document: at its
    span shifted by the document's leading whitespace.
  - `Playback.HighlightShiftExample` shows the shift for `" A."`.
- `previous_phrase` and `next_phrase` purge the engine only when playing; when paused they only move
  the index and the highlight.

## Model

| member | source | states |
|---|---|---|
| Segmenter.SplitTextIntoSentences | main.py:130-160 | returns exactly the sentences and spans of `Segment(text)`, the specification below |
| Segmenter.ScanPieces | main.py:136-150 | the scan, before the filter, already yields the sentences and spans of `Segment(text)` |
| Segmenter.ScanStep | main.py:139-145 | one character keeps the scan invariant: the piece so far has no delimiter; the closed pieces are trimmed and their spans are the first spans of the text |
| Segmenter.KeepRemainder | main.py:147-150 | keeping the trailing piece only when its strip is not empty completes the segmentation |
| Segmenter.DropBlankPieces | main.py:152-158 | the filter walks both lists in step and keeps exactly the pairs whose sentence is not empty (`KeepNonEmpty`) |
| Segmenter.NextDelimiter | main.py:139-141 | the offset of the first delimiter at or after a position, or the text length if there is none |
| Segmenter.CutsFrom | main.py:137-150 | every span lies inside the text and is not empty |
| Segmenter.Strip | main.py:142 | `str.strip()`: the result is never longer than its input; `StripIsSlice`, `StripRemovesOnlyWhitespace` and `StripEmptyIffBlank` characterise it completely |
| Segmenter.Segment | main.py:130-160 | the reference segmentation: unit k pairs span k of `CutsFrom(text, 0)` with its stripped text, and every span lies inside the text and is not empty; `SegmentWellFormed`, `SegmentCount` and `SegmentEmptyIffBlank` characterise it |
| Segmenter.StripEmptyIffBlank | main.py:148 | `strip()` gives the empty string exactly when every character is whitespace |
| Segmenter.StripIsSlice | main.py:142 | `strip()` returns the contiguous slice that starts after the leading whitespace |
| Segmenter.StripRemovesOnlyWhitespace | main.py:142 | `strip()` removes only whitespace, and leaves none at either end of its result |
| Segmenter.CutsFromAreCuts | main.py:139-150 | every span holds text that is not blank; it ends just after its only delimiter or at the end of the text, and holds no other delimiter |
| Segmenter.CutsFromContiguous | main.py:137-145 | the spans tile the text: the first starts at the piece start, and each next one starts where the previous ended |
| Segmenter.CutsFromLeaveBlank | main.py:147-150 | whatever follows the last span is blank |
| Segmenter.CutsFromCount | main.py:139-150 | the number of spans from an offset is the number of delimiters after it, plus one when the tail after the last delimiter is not blank |
| Segmenter.SegmentCount | main.py:139-158 | the number of units is the number of delimiters, plus one when the tail after the last delimiter is not blank |
| Segmenter.SegmentEmptyIffBlank | main.py:139-158 | a text yields no unit exactly when it is blank; in particular `""` yields none |
| Segmenter.SegmentWellFormed | main.py:139-158 | sentence k is the non-empty strip of span k; span 0 starts at 0; spans are contiguous; each span ends after a delimiter or at the end of the text |
| Segmenter.KeepNonEmpty | main.py:155-158 | the filter keeps only units with a non-empty sentence, each taken from its input |
| Segmenter.KeepNonEmptyKeepsAll | main.py:155-158 | the filter returns its input unchanged when every sentence is non-empty |
| Segmenter.FilterDropsNothing | main.py:152-158 | the blank filter never drops a unit of a segmentation |
| Segmenter.HelloWorldExample | main.py:139-150 | `"Hello. World!"` gives `("Hello.", (0, 6))` and `("World!", (6, 13))` |
| Segmenter.TailExample | main.py:147-150 | a tail after the last delimiter that is not blank becomes a unit ending at the text length |
| Segmenter.BlankTailExample | main.py:147-150 | a blank tail after the last delimiter gives no unit |
| Playback.SelectedVoice | main.py:89-96 | corrected lookup: a voice exactly when `0 <= ind < count`, and then it is the voice at `ind` |
| Playback.LookupAsWritten | main.py:89-96 | `get_selected_voice` as written: a voice exactly when `0 <= ind < count`, and then the voice at `ind`; it raises exactly when `ind == count`; otherwise no voice |
| Playback.LookupAsWrittenOverruns | main.py:94 | as written, the index equal to the list length passes the test and the lookup raises |
| Playback.LookupAsWrittenAgrees | main.py:226-229 | the lookup as written finds a voice exactly where the corrected one does, and it is the same voice |
| Playback.SpansIndexStrippedText | main.py:220-232 | the spans index the stripped text; sentence k lies in the document at span k shifted by the leading whitespace |
| Playback.HighlightShiftExample | main.py:173-177 | for `" A."` the highlighted range `(0, 2)` covers `" A"`, while the sentence `"A."` is at `(1, 3)` |
| Playback.HasText | main.py:50 | the document has text exactly when it is not blank |
| Playback.Controller.CanControl | main.py:50-51 | Stop, Previous and Next need text in the document and a session (partner: `ButtonsFollowSession`) |
| Playback.Controller.CanStop | main.py:54 | Stop is enabled exactly when the controls are (partner: `ButtonsFollowSession`) |
| Playback.Controller.CanGoPrevious | main.py:58 | Previous is enabled during a session with text when the index is past the first sentence (partner: `NavigationMatchesGuards`) |
| Playback.Controller.CanGoNext | main.py:59 | Next is enabled during a session with text when the index is before the last sentence (partner: `NavigationMatchesGuards`) |
| Playback.Controller.CanPlayPause | main.py:65 | Play/Pause is enabled exactly when the document has text (partner: `ButtonsFollowSession`) |
| Playback.ButtonsFollowSession | main.py:46-65 | Stop is enabled only during a session, which has an engine, a sentence and the timer on; a blank document disables every button; with two sentences or more one of Previous and Next is enabled during a session |
| Playback.NavigationMatchesGuards | main.py:46-65 | an enabled Previous or Next button always moves the index; during a session with text, each button is enabled exactly when its operation would move the index |
| Playback.TwoSentenceSession | main.py:215-347 | for any document with at least two sentences and a voice: start, a tick with the engine done, previous and stop make the engine requests set-voice, the first sentence, the second, a purge, the first again, and a final purge; the session ends idle at index 0 with no highlight |
| Playback.Controller.constructor | main.py:12-27 | idle, no sentences, index 0, no highlight, timer off; `Live()` holds |
| Playback.Controller.ClearHighlights | main.py:186-196 | the highlight is removed and nothing else changes |
| Playback.Controller.HighlightCurrentSentence | main.py:162-184 | when the index is on a sentence, its span becomes the highlight; otherwise nothing changes |
| Playback.Controller.PlayCurrentSentence | main.py:259-267 | when the index is on a sentence, the engine is asked to speak it and it is highlighted; otherwise nothing changes |
| Playback.Controller.StartPlayback | main.py:215-257 | with a blank document or no voice nothing changes; otherwise `StartedFrom`: the stripped document is segmented, the voice set, sentence 0 spoken and highlighted, and playing begins with the timer on |
| Playback.Controller.CheckPlaybackStatus | main.py:269-289 | acts only when playing, not paused and the engine is done; then the index advances by one and the next sentence is spoken and highlighted, or playback stops past the last one |
| Playback.Controller.PausePlayback | main.py:291-304 | when playing, `PausedFrom`: purge, then paused with the index, highlight and sentences kept and the timer on; otherwise nothing changes |
| Playback.Controller.ResumePlayback | main.py:306-328 | when paused, `ResumedFrom`: speaks and highlights the sentence at the index, or sentence 0 when the index has passed the end, and plays; otherwise nothing changes |
| Playback.Controller.StopPlayback | main.py:330-347 | with an engine: purge, both flags off, index 0, timer off, no highlight, sentences kept; without one nothing changes |
| Playback.Controller.PreviousPhrase | main.py:349-375 | no-op with no sentences or at index 0; otherwise the index moves back by one and is highlighted, with a purge and a re-speak only when playing |
| Playback.Controller.NextPhrase | main.py:377-403 | no-op with no sentences or at the last index; otherwise the index moves forward by one and is highlighted, with a purge and a re-speak only when playing |
| Playback.Controller.TogglePlayPause | main.py:198-213 | without an engine nothing changes; an idle controller makes exactly the start of `StartedFrom` (requests, highlight, sentences) when there is text and a voice and otherwise stays unchanged; a playing one makes exactly the pause of `PausedFrom`; a paused one exactly the resume of `ResumedFrom`, at the old index or 0 |

## Left out

- `database.py`, the SQLite store of texts, is not part of this model. It is file and database I/O.
- `save_file`, `open_file` and `exit_application` are file dialogs, file I/O and message boxes. Their only
  effect on playback is to call `stop_playback` during a session, and that is modelled.
- `setup_voices` enumerates voices through COM and filters them by lower-cased names. The model takes only
  the index and the length of the resulting voice list.
- `update_speed_label` and the rate `int((value / 10 - 1) * 10)` are floating-point arithmetic on a
  widget value. The rate the engine receives at start is not modelled.
- Rendering is not modelled: the text formats, cursor moves, scrolling and button labels. The highlight
  is the highlighted span. The enablement of the buttons is modelled as predicates of the controller
  and the document.
- The `QTimer` schedule is not modelled. A tick is a call of `CheckPlaybackStatus`.
- The `try`/`except` blocks that print errors are not modelled, and engine calls are total.
  - The one raise the code can reach, the voice lookup past the end, leaves playback unstarted, the
    same as no voice (see Findings).
- Playback.Controller.StartPlayback: requires an idle controller with an engine. Its only caller,
  `toggle_play_pause`, guarantees both.
- Segmenter.SplitTextIntoSentences: the model splits the source's single function into the scan
  methods and the filter method, which it calls in the same order.

## Findings

| source | as written | input that shows it | evidently intended | confidence | as-written member | corrected member |
|---|---|---|---|---|---|---|
| main.py:94 | `0 <= ind <= len(self.voice_list)` admits `ind == len`, and `self.voice_list[ind]` then raises `IndexError`. `start_playback` swallows it, so the effect is that playback does not start | a selected index equal to the number of listed voices, e.g. index 0 when listing the voices failed and the combo box holds only its error item | `0 <= ind < len(self.voice_list)`: no voice is selected | not executed | Playback.LookupAsWrittenOverruns | Playback.SelectedVoice |
