/** The playback controller of the main window: it segments the document,
    speaks one sentence at a time through the speech engine, follows the
    engine with a periodic tick, highlights the sentence being spoken, and
    lets the user pause, resume, stop and step between sentences. */
module Playback {
  import opened Segmenter

  datatype Option<T> = None | Some(value: T)

  /** A request the controller makes of the speech engine. `Purge` is the
      engine's Speak("", 3): it cancels whatever is being said. `SetVoice`
      selects the voice at a position of the voice list. */
  datatype EngineCall = Speak(sentence: string) | Purge | SetVoice(voice: nat)

  // ---------------------------------------------------------------------------
  // Voice selection

  /** The outcome of indexing the voice list as get_selected_voice does. */
  datatype VoiceLookup = Voice(index: nat) | NoVoice | IndexError

  /** get_selected_voice as written: the bounds test admits ind == count,
      and indexing the list there raises. */
  function LookupAsWritten(ind: int, count: nat): (r: VoiceLookup)
    ensures r.Voice? <==> 0 <= ind < count
    ensures r.Voice? ==> r.index == ind
    ensures r == IndexError <==> ind == count
  {
    if 0 <= ind <= count then
      if ind < count then Voice(ind) else IndexError
    else NoVoice
  }

  /** The lookup as evidently intended: a voice exactly when the index
      points into the list. */
  function SelectedVoice(ind: int, count: nat): (r: Option<nat>)
    ensures r.Some? <==> 0 <= ind < count
    ensures r.Some? ==> r.value == ind && r.value < count
  {
    if 0 <= ind < count then Some(ind) else None
  }

  /** The bounds test as written lets the index one past the end through. */
  lemma {:induction false} LookupAsWrittenOverruns(count: nat)
    ensures LookupAsWritten(count, count) == IndexError
    ensures SelectedVoice(count, count) == None
  {
    assert !(0 <= count < count);
  }

  /** Where the lookup as written finds a voice, it is the intended one,
      and it fails exactly where the intended lookup finds none. The raise
      is swallowed by start_playback before any state is touched, so both
      leave playback unstarted. */
  lemma LookupAsWrittenAgrees(ind: int, count: nat)
    ensures LookupAsWritten(ind, count).Voice? <==> SelectedVoice(ind, count).Some?
    ensures LookupAsWritten(ind, count).Voice? ==>
      SelectedVoice(ind, count) == Some(LookupAsWritten(ind, count).index)
  {
    if 0 <= ind < count {
      assert LookupAsWritten(ind, count) == Voice(ind);
    }
  }

  // ---------------------------------------------------------------------------
  // The document

  /** The document has text to play: bool(text.strip()). */
  predicate HasText(doc: string): (r: bool)
    ensures r <==> !IsBlank(doc)
  {
    StripEmptyIffBlank(doc);
    Strip(doc) != []
  }

  /** Each unit of `text` read back from `doc`, where `text` sits at
      offset `lead`: the unit's span shifted by `lead` holds the same
      characters in the document, and trimming them gives the sentence. */
  predicate UnitsLocatedAt(doc: string, lead: nat, text: string) {
    forall k :: 0 <= k < |Segment(text)| ==>
      var s := Segment(text)[k].span;
      lead + s.start <= lead + s.end <= |doc|
      && doc[lead + s.start..lead + s.end] == text[s.start..s.end]
      && Segment(text)[k].sentence == Strip(doc[lead + s.start..lead + s.end])
  }

  /** Playback segments the stripped document, so its spans are offsets into
      the stripped text; the sentence of span k sits in the document itself
      at that span shifted by the document's leading whitespace. */
  lemma SpansIndexStrippedText(doc: string)
    ensures UnitsLocatedAt(doc, LeadingSpaces(doc), Strip(doc))
  {
    StripIsSlice(doc);
    SpansShift(doc, LeadingSpaces(doc), Strip(doc));
  }

  /** The units of a text found at offset `lead` of a document, read back
      from the document. */
  lemma SpansShift(doc: string, lead: nat, text: string)
    requires lead + |text| <= |doc| && text == doc[lead..lead + |text|]
    ensures UnitsLocatedAt(doc, lead, text)
  {
    forall k | 0 <= k < |Segment(text)|
      ensures var s := Segment(text)[k].span;
        lead + s.start <= lead + s.end <= |doc|
        && doc[lead + s.start..lead + s.end] == text[s.start..s.end]
        && Segment(text)[k].sentence == Strip(doc[lead + s.start..lead + s.end])
    {
      UnitLocated(doc, lead, text, k);
    }
  }

  lemma UnitLocated(doc: string, lead: nat, text: string, k: nat)
    requires lead + |text| <= |doc| && text == doc[lead..lead + |text|]
    requires k < |Segment(text)|
    ensures var s := Segment(text)[k].span;
      lead + s.start <= lead + s.end <= |doc|
      && doc[lead + s.start..lead + s.end] == text[s.start..s.end]
      && Segment(text)[k].sentence == Strip(doc[lead + s.start..lead + s.end])
  {
    var u := Segment(text)[k];
    var a, b := u.span.start, u.span.end;
    assert a < b <= |text|;
    assert u.sentence == Strip(text[a..b]);
    SliceOfSlice(doc, lead, text, a, b);
  }

  /** A slice of a slice is a slice of the whole. */
  lemma SliceOfSlice(doc: string, lead: nat, text: string, a: nat, b: nat)
    requires lead + |text| <= |doc| && text == doc[lead..lead + |text|] && a <= b <= |text|
    ensures doc[lead + a..lead + b] == text[a..b]
  {
    forall i | 0 <= i < b - a ensures doc[lead + a..lead + b][i] == text[a..b][i] {
      assert text[a + i] == doc[lead + a + i];
    }
  }

  /** With leading whitespace in the document the highlight is misplaced:
      for " A." the only span is (0, 2), which covers " A" in the document,
      while the sentence "A." is at (1, 3). */
  lemma HighlightShiftExample(doc: string)
    requires doc == " A."
    ensures Strip(doc) == "A."
    ensures Segment(Strip(doc)) == [Unit("A.", Span(0, 2))]
    ensures doc[0..2] == " A" && doc[1..3] == "A."
  {
    var text := "A.";
    assert doc[1..] == text && !IsSpace('A') && !IsSpace('.');
    assert Strip(doc) == text;
    CutsFromCloses(text, 0, 1);
    CutsFromRemainder(text, 2);
    assert text[2..] == [];
    assert text[0..2] == text;
  }

  // ---------------------------------------------------------------------------
  // The controller

  class Controller {
    /** Whether the speech engine could be created. */
    const hasSpeaker: bool
    var isPlaying: bool
    var isPause: bool
    var sentences: seq<string>
    var positions: seq<Span>
    var index: int
    /** The stripped document the sentences were cut from. */
    var currentText: string
    /** The highlighted range of the document, if any. */
    var highlight: Option<Span>
    /** Whether the 100 ms status timer runs. */
    var polling: bool
    /** Every request made of the speech engine, in order. */
    ghost var calls: seq<EngineCall>

    /** What holds between and within operations: the two flags exclude each
        other, the lists are the segmentation of the current text, a session
        needs an engine and a sentence, and the timer runs exactly during a
        session. */
    predicate Coherent()
      reads this
    {
      !(isPlaying && isPause)
      && 0 <= index
      && sentences == Sentences(Segment(currentText))
      && positions == Spans(Segment(currentText))
      && ((isPlaying || isPause) ==> hasSpeaker && sentences != [])
      && (polling <==> isPlaying || isPause)
    }

    /** Coherent, and the index does not pass the end of the sentences. */
    predicate Valid()
      reads this
    {
      Coherent() && index <= |sentences|
    }

    /** What holds in every state reachable from construction: during a
        session the index is on a sentence, and that sentence is the one
        highlighted. */
    predicate Live()
      reads this
    {
      Valid() && ((isPlaying || isPause) ==> index < |sentences| && highlight == Some(positions[index]))
    }

    /** The effect of stop_playback: the engine is purged, both flags and
        the timer are off, the index is back at 0 and nothing is
        highlighted; the sentences are kept. */
    twostate predicate StoppedFrom()
      reads this
    {
      !isPlaying && !isPause && !polling && index == 0 && highlight == None
      && calls == old(calls) + [Purge]
      && sentences == old(sentences) && positions == old(positions) && currentText == old(currentText)
    }

    /** The effect of start_playback on a document with text and a selected
        voice: the stripped document is segmented, the voice is set, the
        first sentence is spoken and highlighted, and playing begins with
        the timer on. */
    twostate predicate StartedFrom(doc: string, voice: nat)
      reads this
    {
      isPlaying && !isPause && polling && index == 0
      && currentText == Strip(doc)
      && sentences == Sentences(Segment(Strip(doc))) && positions == Spans(Segment(Strip(doc)))
      && sentences != [] && positions != []
      && highlight == Some(positions[0])
      && calls == old(calls) + [SetVoice(voice), Speak(sentences[0])]
    }

    /** The effect of pause_playback while playing: the engine is purged and
        the controller pauses, keeping its index, highlight and sentences;
        the timer keeps running. */
    twostate predicate PausedFrom()
      reads this
    {
      !isPlaying && isPause && polling && index == old(index) && highlight == old(highlight)
      && calls == old(calls) + [Purge]
      && sentences == old(sentences) && positions == old(positions) && currentText == old(currentText)
    }

    /** The effect of resume_playback while paused: the sentence at the old
        index, or the first one once the index has passed the end, is spoken
        and highlighted, and playing goes on. */
    twostate predicate ResumedFrom()
      reads this
    {
      isPlaying && !isPause && polling
      && index == (if old(index) < |old(sentences)| then old(index) else 0)
      && 0 <= index < |sentences| && index < |positions|
      && calls == old(calls) + [Speak(sentences[index])] && highlight == Some(positions[index])
      && sentences == old(sentences) && positions == old(positions) && currentText == old(currentText)
    }

    constructor(hasSpeaker: bool)
      ensures Live() && this.hasSpeaker == hasSpeaker
      ensures !isPlaying && !isPause && !polling
      ensures sentences == [] && positions == [] && index == 0 && currentText == ""
      ensures highlight == None && calls == []
    {
      this.hasSpeaker := hasSpeaker;
      isPlaying, isPause, polling := false, false, false;
      currentText := "";
      index := 0;
      highlight := None;
      calls := [];
      new;
      SegmentEmptyIffBlank("");
      sentences, positions := Sentences(Segment("")), Spans(Segment(""));
    }

    /** clear_highlights: removes the highlight from the whole document. */
    method ClearHighlights()
      modifies this
      ensures highlight == None
      ensures isPlaying == old(isPlaying) && isPause == old(isPause) && polling == old(polling)
      ensures sentences == old(sentences) && positions == old(positions) && index == old(index)
      ensures currentText == old(currentText) && calls == old(calls)
    {
      highlight := None;
    }

    /** highlight_current_sentence: when the index is on a sentence, the
        old highlight is cleared and the sentence's span is highlighted;
        otherwise nothing changes. */
    method HighlightCurrentSentence()
      requires Coherent()
      modifies this
      ensures highlight == if old(sentences) == [] || old(index) >= |old(positions)| then old(highlight)
                           else Some(old(positions)[old(index)])
      ensures isPlaying == old(isPlaying) && isPause == old(isPause) && polling == old(polling)
      ensures sentences == old(sentences) && positions == old(positions) && index == old(index)
      ensures currentText == old(currentText) && calls == old(calls)
    {
      if sentences == [] || index >= |positions| {
        return;
      }
      ClearHighlights();
      highlight := Some(positions[index]);
    }

    /** play_current_sentence: when the index is on a sentence, the engine
        is asked to speak it and it is highlighted; otherwise nothing
        changes. */
    method PlayCurrentSentence()
      requires Coherent() && hasSpeaker
      modifies this
      ensures 0 <= old(index) < |old(sentences)| ==>
        calls == old(calls) + [Speak(old(sentences)[old(index)])] && highlight == Some(old(positions)[old(index)])
      ensures !(0 <= old(index) < |old(sentences)|) ==> calls == old(calls) && highlight == old(highlight)
      ensures isPlaying == old(isPlaying) && isPause == old(isPause) && polling == old(polling)
      ensures sentences == old(sentences) && positions == old(positions) && index == old(index)
      ensures currentText == old(currentText)
    {
      if 0 <= index < |sentences| {
        calls := calls + [Speak(sentences[index])];
        HighlightCurrentSentence();
      }
    }

    /** start_playback: plays the stripped document from its first
        sentence when it is not blank and a voice is selected; otherwise
        nothing changes. */
    method StartPlayback(doc: string, voiceIndex: int, voiceCount: nat)
      requires Valid() && hasSpeaker && !isPlaying && !isPause
      modifies this
      ensures Valid() && (old(Live()) ==> Live())
      ensures !HasText(doc) || SelectedVoice(voiceIndex, voiceCount).None? ==> unchanged(this)
      ensures HasText(doc) && SelectedVoice(voiceIndex, voiceCount).Some? ==>
        StartedFrom(doc, SelectedVoice(voiceIndex, voiceCount).value)
    {
      var text := Strip(doc);
      if text == [] {
        return;
      }
      var voice := SelectedVoice(voiceIndex, voiceCount);
      if voice.None? {
        return;
      }
      sentences, positions := SplitTextIntoSentences(text);
      index := 0;
      currentText := text;
      // The source returns here when no sentence came out; a text that is
      // not blank always yields one.
      StripRemovesOnlyWhitespace(doc);
      assert !IsSpace(text[0]);
      SegmentEmptyIffBlank(text);
      assert sentences != [];
      calls := calls + [SetVoice(voice.value)];
      PlayCurrentSentence();
      isPlaying := true;
      polling := true;
    }

    /** stop_playback: with an engine, purges it, ends the session, resets
        the index to 0 and clears the highlight, keeping the sentences;
        without one, nothing changes. */
    method StopPlayback()
      requires Coherent()
      modifies this
      ensures Coherent()
      ensures hasSpeaker ==> StoppedFrom() && Live()
      ensures !hasSpeaker ==> unchanged(this)
    {
      if hasSpeaker {
        calls := calls + [Purge];
        isPlaying := false;
        isPause := false;
        index := 0;
        polling := false;
        ClearHighlights();
      }
    }

    /** check_playback_status, the timer tick: when playing and the engine
        reports it has finished, the index advances by one and the next
        sentence is spoken and highlighted, or, past the last sentence,
        playback stops. Otherwise nothing changes. */
    method CheckPlaybackStatus(engineDone: bool)
      requires Valid()
      modifies this
      ensures Valid() && (old(Live()) ==> Live())
      ensures !(old(isPlaying) && !old(isPause) && engineDone) ==> unchanged(this)
      ensures old(isPlaying) && !old(isPause) && engineDone && old(index) + 1 < |old(sentences)| ==>
        isPlaying && !isPause && polling && index == old(index) + 1 && index < |sentences|
        && calls == old(calls) + [Speak(sentences[index])] && highlight == Some(positions[index])
        && sentences == old(sentences) && positions == old(positions) && currentText == old(currentText)
      ensures old(isPlaying) && !old(isPause) && engineDone && old(index) + 1 >= |old(sentences)| ==>
        StoppedFrom()
    {
      if isPlaying && !isPause {
        if engineDone {
          index := index + 1;
          if index < |sentences| {
            PlayCurrentSentence();
          } else {
            StopPlayback();
          }
        }
      }
    }

    /** pause_playback: when playing, purges the engine and pauses, keeping
        the index and the highlight; otherwise nothing changes. */
    method PausePlayback()
      requires Valid()
      modifies this
      ensures Valid() && (old(Live()) ==> Live())
      ensures !(hasSpeaker && old(isPlaying)) ==> unchanged(this)
      ensures hasSpeaker && old(isPlaying) ==> PausedFrom()
    {
      if hasSpeaker && isPlaying {
        calls := calls + [Purge];
        isPlaying := false;
        isPause := true;
      }
    }

    /** resume_playback: when paused, speaks and highlights the sentence at
        the index, or the first sentence when the index has passed the end,
        and plays on; otherwise nothing changes. */
    method ResumePlayback()
      requires Valid()
      modifies this
      ensures Valid() && (old(Live()) ==> Live())
      ensures !(hasSpeaker && old(isPause)) ==> unchanged(this)
      ensures hasSpeaker && old(isPause) ==> ResumedFrom()
    {
      if hasSpeaker && isPause {
        if index < |sentences| {
          PlayCurrentSentence();
          isPlaying := true;
          isPause := false;
        } else {
          index := 0;
          PlayCurrentSentence();
          isPlaying := true;
          isPause := false;
        }
      }
    }

    /** previous_phrase: unless there are no sentences or the index is at
        the first, moves the index back by one and highlights that
        sentence; when playing, the engine is purged and the sentence
        spoken, and a paused controller stays paused. */
    method PreviousPhrase()
      requires Valid()
      modifies this
      ensures Valid() && (old(Live()) ==> Live())
      ensures old(sentences) == [] || old(index) <= 0 ==> unchanged(this)
      ensures !(old(sentences) == [] || old(index) <= 0) ==>
        index == old(index) - 1 && 0 <= index < |positions| && highlight == Some(positions[index])
        && isPlaying == old(isPlaying) && isPause == old(isPause) && polling == old(polling)
        && calls == old(calls) + (if old(isPlaying) then [Purge, Speak(sentences[index])] else [])
        && sentences == old(sentences) && positions == old(positions) && currentText == old(currentText)
    {
      if sentences == [] || index <= 0 {
        return;
      }
      if hasSpeaker && isPlaying {
        calls := calls + [Purge];
      }
      index := index - 1;
      HighlightCurrentSentence();
      if isPlaying {
        PlayCurrentSentence();
      } else if isPause {
        isPlaying := false;
        isPause := true;
      }
    }

    /** next_phrase: unless there are no sentences or the index is at the
        last, moves the index forward by one and highlights that sentence;
        when playing, the engine is purged and the sentence spoken, and a
        paused controller stays paused. */
    method NextPhrase()
      requires Valid()
      modifies this
      ensures Valid() && (old(Live()) ==> Live())
      ensures old(sentences) == [] || old(index) >= |old(sentences)| - 1 ==> unchanged(this)
      ensures !(old(sentences) == [] || old(index) >= |old(sentences)| - 1) ==>
        index == old(index) + 1 && 0 <= index < |positions| && highlight == Some(positions[index])
        && isPlaying == old(isPlaying) && isPause == old(isPause) && polling == old(polling)
        && calls == old(calls) + (if old(isPlaying) then [Purge, Speak(sentences[index])] else [])
        && sentences == old(sentences) && positions == old(positions) && currentText == old(currentText)
    {
      if sentences == [] || index >= |sentences| - 1 {
        return;
      }
      if hasSpeaker && isPlaying {
        calls := calls + [Purge];
      }
      index := index + 1;
      HighlightCurrentSentence();
      if isPlaying {
        PlayCurrentSentence();
      } else if isPause {
        isPlaying := false;
        isPause := true;
      }
    }

    /** toggle_play_pause: without an engine nothing changes; otherwise an
        idle controller starts (or, with a blank document or no voice, stays
        as it is), a playing one pauses and a paused one resumes. */
    method TogglePlayPause(doc: string, voiceIndex: int, voiceCount: nat)
      requires Valid()
      modifies this
      ensures Valid() && (old(Live()) ==> Live())
      ensures !hasSpeaker ==> unchanged(this)
      ensures hasSpeaker && !old(isPlaying) && !old(isPause) ==>
        if HasText(doc) && SelectedVoice(voiceIndex, voiceCount).Some?
        then StartedFrom(doc, SelectedVoice(voiceIndex, voiceCount).value)
        else unchanged(this)
      ensures hasSpeaker && old(isPlaying) ==> PausedFrom()
      ensures hasSpeaker && old(isPause) ==> ResumedFrom()
    {
      if !hasSpeaker {
        return;
      }
      if !isPlaying && !isPause {
        StartPlayback(doc, voiceIndex, voiceCount);
      } else if isPlaying {
        PausePlayback();
      } else if isPause {
        ResumePlayback();
      }
    }

    // -------------------------------------------------------------------------
    // Button enablement (update_button_states)

    /** Stop, Previous and Next need text in the document and a session. */
    predicate CanControl(doc: string)
      reads this
    {
      HasText(doc) && (isPlaying || isPause)
    }

    predicate CanStop(doc: string)
      reads this
    {
      CanControl(doc)
    }

    predicate CanGoPrevious(doc: string)
      reads this
    {
      CanControl(doc) && sentences != [] && index > 0
    }

    predicate CanGoNext(doc: string)
      reads this
    {
      CanControl(doc) && sentences != [] && index < |sentences| - 1
    }

    predicate CanPlayPause(doc: string)
      reads this
    {
      HasText(doc)
    }
  }

  /** An enabled Previous or Next button always moves the index, and during
      a session with text in the document the buttons are enabled exactly
      when the operations would move it. */
  lemma NavigationMatchesGuards(c: Controller, doc: string)
    requires c.Valid()
    ensures c.CanGoPrevious(doc) ==> !(c.sentences == [] || c.index <= 0)
    ensures c.CanGoNext(doc) ==> !(c.sentences == [] || c.index >= |c.sentences| - 1)
    ensures c.CanControl(doc) ==>
      (c.CanGoPrevious(doc) <==> 0 < c.index)
      && (c.CanGoNext(doc) <==> c.index + 1 < |c.sentences|)
  {
  }

  /** The buttons of a valid controller: Stop, Previous and Next are
      enabled only during a session, which has an engine and a sentence;
      with a blank document every button is disabled; and during a session
      at least one of Previous and Next is enabled whenever there are two
      sentences or more. */
  lemma ButtonsFollowSession(c: Controller, doc: string)
    requires c.Valid()
    ensures c.CanStop(doc) ==> c.hasSpeaker && c.sentences != [] && c.polling
    ensures !c.CanPlayPause(doc) ==> !c.CanStop(doc) && !c.CanGoPrevious(doc) && !c.CanGoNext(doc)
    ensures c.CanControl(doc) && |c.sentences| >= 2 ==> c.CanGoPrevious(doc) || c.CanGoNext(doc)
  {
  }

  // ---------------------------------------------------------------------------
  // A session

  /** A session over a document of at least two sentences, such as
      "One. Two. Three.": start speaks the first sentence, a tick with the
      engine done speaks the second, previous cancels and speaks the first
      again, and stop cancels and clears the highlight. */
  method TwoSentenceSession(doc: string, voiceIndex: int, voiceCount: nat)
    returns (index: int, highlight: Option<Span>, playing: bool, ghost requests: seq<EngineCall>)
    requires |Segment(Strip(doc))| >= 2 && 0 <= voiceIndex < voiceCount
    ensures index == 0 && highlight == None && !playing
    ensures var first, second := Segment(Strip(doc))[0].sentence, Segment(Strip(doc))[1].sentence;
      requests == [SetVoice(voiceIndex), Speak(first), Speak(second), Purge, Speak(first), Purge]
  {
    var us := Segment(Strip(doc));
    var first, second := us[0].sentence, us[1].sentence;
    SegmentEmptyIffBlank(Strip(doc));
    StripEmptyIffBlank(Strip(doc));
    var c := new Controller(true);
    c.StartPlayback(doc, voiceIndex, voiceCount);
    assert c.calls == [SetVoice(voiceIndex), Speak(first)] && c.index == 0;
    c.CheckPlaybackStatus(true);
    assert c.calls == [SetVoice(voiceIndex), Speak(first), Speak(second)] && c.index == 1;
    c.PreviousPhrase();
    assert c.calls == [SetVoice(voiceIndex), Speak(first), Speak(second), Purge, Speak(first)];
    assert c.index == 0 && c.isPlaying && c.highlight == Some(us[0].span);
    c.StopPlayback();
    assert c.calls == [SetVoice(voiceIndex), Speak(first), Speak(second), Purge, Speak(first), Purge];
    index, highlight, playing, requests := c.index, c.highlight, c.isPlaying, c.calls;
  }
}
