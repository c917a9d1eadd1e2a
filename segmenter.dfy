/** The sentence segmenter of the playback window: text is cut after every
    delimiter character, each piece is whitespace-trimmed, and each piece keeps
    the half-open character span it was cut from. */
module Segmenter {

  /** A half-open range [start, end) of character offsets. */
  datatype Span = Span(start: nat, end: nat)

  /** One playback unit: the trimmed sentence and the span it was cut from. */
  datatype Unit = Unit(sentence: string, span: Span)

  /** The characters after which the text is cut. */
  predicate IsDelimiter(c: char) {
    c == '.' || c == '!' || c == '?' || c == ',' || c == ':' || c == ';'
  }

  /** The characters a whitespace trim removes: the characters for which
      Python's str.isspace() holds. */
  predicate IsSpace(c: char) {
    ('\t' <= c <= '\r') || ('\U{1c}' <= c <= ' ') || c == '\U{85}' || c == '\U{a0}'
    || c == '\U{1680}' || ('\U{2000}' <= c <= '\U{200a}') || c == '\U{2028}' || c == '\U{2029}'
    || c == '\U{202f}' || c == '\U{205f}' || c == '\U{3000}'
  }

  predicate IsBlank(s: string) {
    forall i :: 0 <= i < |s| ==> IsSpace(s[i])
  }

  // ---------------------------------------------------------------------------
  // Whitespace trimming (str.strip)

  /** str.strip(): removes whitespace from both ends. Its properties are
      stated as lemmas below, so that callers unfold them only where needed. */
  function Strip(s: string): (r: string)
    ensures |r| <= |s|
  {
    if s != [] && IsSpace(s[0]) then Strip(s[1..])
    else if s != [] && IsSpace(s[|s| - 1]) then Strip(s[..|s| - 1])
    else s
  }

  /** The number of leading whitespace characters. */
  function LeadingSpaces(s: string): (n: nat)
    ensures n <= |s|
  {
    if s != [] && IsSpace(s[0]) then 1 + LeadingSpaces(s[1..]) else 0
  }

  /** Stripping leaves nothing exactly when the text is blank. */
  lemma {:induction false} StripEmptyIffBlank(s: string)
    ensures Strip(s) == [] <==> IsBlank(s)
  {
    if s != [] && IsSpace(s[0]) {
      StripEmptyIffBlank(s[1..]);
      assert forall i :: 1 <= i < |s| ==> s[i] == s[1..][i - 1];
    } else if s != [] && IsSpace(s[|s| - 1]) {
      StripEmptyIffBlank(s[..|s| - 1]);
      assert forall i :: 0 <= i < |s| - 1 ==> s[i] == s[..|s| - 1][i];
    }
  }

  /** Strip keeps the contiguous slice that starts after the leading
      whitespace. */
  lemma {:induction false} StripIsSlice(s: string)
    ensures LeadingSpaces(s) + |Strip(s)| <= |s|
    ensures Strip(s) == s[LeadingSpaces(s)..LeadingSpaces(s) + |Strip(s)|]
  {
    if s != [] && IsSpace(s[0]) {
      var t := s[1..];
      StripIsSlice(t);
      var n, m := LeadingSpaces(t), |Strip(t)|;
      assert LeadingSpaces(s) == n + 1 && Strip(s) == Strip(t);
      assert t[n..n + m] == s[n + 1..n + 1 + m];
    } else if s != [] && IsSpace(s[|s| - 1]) {
      var t := s[..|s| - 1];
      StripIsSlice(t);
      assert |s| >= 2 && t[0] == s[0];
      var n, m := LeadingSpaces(t), |Strip(t)|;
      assert LeadingSpaces(s) == n && Strip(s) == Strip(t);
      assert t[n..n + m] == s[n..n + m];
    }
  }

  /** Strip removes only whitespace and leaves none at either end. */
  lemma {:induction false} StripRemovesOnlyWhitespace(s: string)
    ensures var r, n := Strip(s), LeadingSpaces(s);
      (forall i :: 0 <= i < n ==> IsSpace(s[i]))
      && (forall i :: n + |r| <= i < |s| ==> IsSpace(s[i]))
      && (r == [] || (!IsSpace(r[0]) && !IsSpace(r[|r| - 1])))
  {
    StripIsSlice(s);
    if s != [] && IsSpace(s[0]) {
      var t := s[1..];
      StripRemovesOnlyWhitespace(t);
      assert forall i :: 1 <= i < |s| ==> s[i] == t[i - 1];
    } else if s != [] && IsSpace(s[|s| - 1]) {
      var t := s[..|s| - 1];
      StripRemovesOnlyWhitespace(t);
      assert |s| >= 2 && t[0] == s[0];
      assert forall i :: 0 <= i < |t| ==> s[i] == t[i];
    }
  }

  /** A delimiter is never whitespace, so text that contains one is not blank. */
  lemma DelimiterNotBlank(s: string, i: nat)
    requires i < |s| && IsDelimiter(s[i])
    ensures !IsBlank(s)
  {
    assert !IsSpace(s[i]);
  }


  // ---------------------------------------------------------------------------
  // The specification of the scan

  /** The index of the first delimiter at or after `from`, or |text| if
      there is none. */
  function NextDelimiter(text: string, from: nat): (k: nat)
    requires from <= |text|
    ensures from <= k <= |text|
    ensures k < |text| ==> IsDelimiter(text[k])
    ensures forall j :: from <= j < k ==> !IsDelimiter(text[j])
    decreases |text| - from
  {
    if from == |text| then |text|
    else if IsDelimiter(text[from]) then from
    else NextDelimiter(text, from + 1)
  }

  /** The spans the scan cuts from offset `start` on, where `start` is the
      beginning of a piece: every delimiter closes a span running from the
      piece start to just after the delimiter; what follows the last
      delimiter becomes a final span reaching to the end of the text unless
      it is blank. Every span lies inside the text and is not empty. */
  function CutsFrom(text: string, start: nat): (cs: seq<Span>)
    requires start <= |text|
    ensures forall k :: 0 <= k < |cs| ==> start <= cs[k].start < cs[k].end <= |text|
    decreases |text| - start
  {
    var k := NextDelimiter(text, start);
    if k == |text| then
      if IsBlank(text[start..]) then [] else [Span(start, |text|)]
    else
      [Span(start, k + 1)] + CutsFrom(text, k + 1)
  }

  /** The units of a whole text: each span of the scan, paired with its
      trimmed text. */
  function Segment(text: string): (us: seq<Unit>)
    ensures forall k :: 0 <= k < |us| ==> us[k].span.start < us[k].span.end <= |text|
  {
    var cs := CutsFrom(text, 0);
    seq(|cs|, k requires 0 <= k < |cs| => Unit(Strip(text[cs[k].start..cs[k].end]), cs[k]))
  }

  function Sentences(us: seq<Unit>): (r: seq<string>)
    ensures |r| == |us| && forall k :: 0 <= k < |us| ==> r[k] == us[k].sentence
  {
    seq(|us|, k requires 0 <= k < |us| => us[k].sentence)
  }

  function Spans(us: seq<Unit>): (r: seq<Span>)
    ensures |r| == |us| && forall k :: 0 <= k < |us| ==> r[k] == us[k].span
  {
    seq(|us|, k requires 0 <= k < |us| => us[k].span)
  }

  lemma ProjectionsSnoc(us: seq<Unit>, u: Unit)
    ensures Sentences(us + [u]) == Sentences(us) + [u.sentence]
    ensures Spans(us + [u]) == Spans(us) + [u.span]
  {
  }

  /** Sentence k is the trimmed text of span k, for every k. */
  predicate Trimmed(text: string, sentences: seq<string>, positions: seq<Span>) {
    |sentences| == |positions|
    && forall k :: 0 <= k < |positions| ==>
         positions[k].start <= positions[k].end <= |text|
         && sentences[k] == Strip(text[positions[k].start..positions[k].end])
  }

  /** Appending a span and its trimmed text keeps the lists paired. */
  lemma TrimmedSnoc(text: string, sentences: seq<string>, positions: seq<Span>, s: Span)
    requires Trimmed(text, sentences, positions) && s.start <= s.end <= |text|
    ensures Trimmed(text, sentences + [Strip(text[s.start..s.end])], positions + [s])
  {
  }

  /** Paired lists over the spans of the scan are the segmentation. */
  lemma TrimmedCutsAreSegment(text: string, sentences: seq<string>, positions: seq<Span>)
    requires Trimmed(text, sentences, positions) && positions == CutsFrom(text, 0)
    ensures sentences == Sentences(Segment(text)) && positions == Spans(Segment(text))
  {
  }

  /** The blank filter of the source: keeps the units whose sentence is not
      empty, in order. */
  function KeepNonEmpty(us: seq<Unit>): (r: seq<Unit>)
    ensures |r| <= |us|
    ensures forall k :: 0 <= k < |r| ==> r[k].sentence != [] && r[k] in us
  {
    if us == [] then []
    else KeepNonEmpty(us[..|us| - 1]) + (if us[|us| - 1].sentence != [] then [us[|us| - 1]] else [])
  }

  // ---------------------------------------------------------------------------
  // Properties of the segmentation

  /** The unfolding of CutsFrom at a delimiter: the span from `start` closes
      just after it. */
  lemma CutsFromCloses(text: string, start: nat, i: nat)
    requires start <= i < |text| && IsDelimiter(text[i])
    requires forall j :: start <= j < i ==> !IsDelimiter(text[j])
    ensures CutsFrom(text, start) == [Span(start, i + 1)] + CutsFrom(text, i + 1)
  {
    assert NextDelimiter(text, start) == i;
  }

  /** The unfolding of CutsFrom when no delimiter follows `start`. */
  lemma CutsFromRemainder(text: string, start: nat)
    requires start <= |text|
    requires forall j :: start <= j < |text| ==> !IsDelimiter(text[j])
    ensures CutsFrom(text, start) == if IsBlank(text[start..]) then [] else [Span(start, |text|)]
  {
    assert NextDelimiter(text, start) == |text|;
  }

  /** The scan's step at a delimiter: closing the current piece keeps the
      spans cut so far followed by the spans still to come equal to the
      spans of the whole text. */
  lemma ScanCloses(text: string, positions: seq<Span>, start: nat, i: nat)
    requires start <= i < |text| && IsDelimiter(text[i])
    requires forall j :: start <= j < i ==> !IsDelimiter(text[j])
    requires positions + CutsFrom(text, start) == CutsFrom(text, 0)
    ensures (positions + [Span(start, i + 1)]) + CutsFrom(text, i + 1) == CutsFrom(text, 0)
  {
    CutsFromCloses(text, start, i);
    assert positions + ([Span(start, i + 1)] + CutsFrom(text, i + 1))
      == (positions + [Span(start, i + 1)]) + CutsFrom(text, i + 1);
  }

  /** A span as the scan cuts it: inside the text, not blank, ending just
      after its only delimiter or at the end of the text, holding no other
      delimiter. */
  predicate CutOf(text: string, s: Span) {
    s.start < s.end <= |text|
    && !IsBlank(text[s.start..s.end])
    && (IsDelimiter(text[s.end - 1]) || s.end == |text|)
    && (forall j :: s.start <= j < s.end - 1 ==> !IsDelimiter(text[j]))
  }

  /** The first span from `start`, when a delimiter follows, is a cut of the
      text. */
  lemma CutsFromHead(text: string, start: nat)
    requires start <= |text| && NextDelimiter(text, start) < |text|
    ensures var cs := CutsFrom(text, start); cs != [] && CutOf(text, cs[0])
  {
    var k := NextDelimiter(text, start);
    DelimiterNotBlank(text[start..k + 1], k - start);
    CutsFromCloses(text, start, k);
  }

  /** The remainder span, when there is one, is a cut of the text. */
  lemma CutsFromLast(text: string, start: nat)
    requires start <= |text| && NextDelimiter(text, start) == |text|
    ensures var cs := CutsFrom(text, start); |cs| <= 1 && (cs != [] ==> CutOf(text, cs[0]))
  {
    CutsFromRemainder(text, start);
    assert text[start..|text|] == text[start..];
  }

  /** Every span of the scan is a cut of the text. */
  lemma {:induction false} CutsFromAreCuts(text: string, start: nat)
    requires start <= |text|
    ensures forall k :: 0 <= k < |CutsFrom(text, start)| ==> CutOf(text, CutsFrom(text, start)[k])
    decreases |text| - start
  {
    var k := NextDelimiter(text, start);
    if k < |text| {
      CutsFromAreCuts(text, k + 1);
      CutsFromHead(text, start);
      CutsFromCloses(text, start, k);
    } else {
      CutsFromLast(text, start);
    }
  }

  /** The spans are contiguous from `start`: the first begins at `start`
      and each next one begins where the previous ended. */
  lemma {:induction false} CutsFromContiguous(text: string, start: nat)
    requires start <= |text|
    ensures var cs := CutsFrom(text, start);
      (cs != [] ==> cs[0].start == start)
      && (forall k :: 0 <= k < |cs| - 1 ==> cs[k + 1].start == cs[k].end)
    decreases |text| - start
  {
    var k := NextDelimiter(text, start);
    if k < |text| {
      CutsFromContiguous(text, k + 1);
      CutsFromCloses(text, start, k);
    } else {
      CutsFromRemainder(text, start);
    }
  }

  /** The offset where the spans from `start` end: the end of the last
      span, or `start` when there is none. */
  function CoveredUpTo(text: string, start: nat): nat
    requires start <= |text|
  {
    var cs := CutsFrom(text, start);
    if cs == [] then start else cs[|cs| - 1].end
  }

  /** Whatever follows the last span is blank. */
  lemma {:induction false} CutsFromLeaveBlank(text: string, start: nat)
    requires start <= |text|
    ensures start <= CoveredUpTo(text, start) <= |text|
    ensures IsBlank(text[CoveredUpTo(text, start)..])
    decreases |text| - start
  {
    var k := NextDelimiter(text, start);
    if k < |text| {
      CutsFromLeaveBlank(text, k + 1);
      CutsFromCloses(text, start, k);
    } else {
      CutsFromRemainder(text, start);
      assert text[|text|..] == [];
    }
  }

  /** The number of delimiter characters in s. */
  function DelimiterCount(s: string): nat {
    if s == [] then 0 else (if IsDelimiter(s[0]) then 1 else 0) + DelimiterCount(s[1..])
  }

  /** The offset just after the last delimiter of the text, or 0 if the text
      has none. */
  function LastCut(text: string): (c: nat)
    ensures c <= |text|
    ensures c > 0 ==> IsDelimiter(text[c - 1])
    ensures forall j :: c <= j < |text| ==> !IsDelimiter(text[j])
  {
    if text == [] then 0
    else if IsDelimiter(text[|text| - 1]) then |text|
    else LastCut(text[..|text| - 1])
  }

  lemma {:induction false} DelimiterCountSkip(text: string, from: nat, to: nat)
    requires from <= to <= |text|
    requires forall j :: from <= j < to ==> !IsDelimiter(text[j])
    ensures DelimiterCount(text[from..]) == DelimiterCount(text[to..])
    decreases |text| - from
  {
    if from < to {
      assert text[from..][1..] == text[from + 1..];
      DelimiterCountSkip(text, from + 1, to);
    }
  }

  lemma {:induction false} CutsFromCount(text: string, start: nat)
    requires start <= |text|
    ensures |CutsFrom(text, start)|
      == DelimiterCount(text[start..])
         + (if IsBlank(text[(if LastCut(text) <= start then start else LastCut(text))..]) then 0 else 1)
    decreases |text| - start
  {
    var k := NextDelimiter(text, start);
    DelimiterCountSkip(text, start, k);
    if k < |text| {
      CutsFromCount(text, k + 1);
      assert text[k..][1..] == text[k + 1..];
      assert LastCut(text) >= k + 1;
    } else {
      assert text[|text|..] == [];
      assert LastCut(text) <= start;
    }
  }

  /** The number of units is the number of delimiter characters, plus one
      when the text after the last delimiter is not blank. */
  lemma SegmentCount(text: string)
    ensures |Segment(text)| == DelimiterCount(text) + (if IsBlank(text[LastCut(text)..]) then 0 else 1)
  {
    CutsFromCount(text, 0);
    assert text[0..] == text;
  }

  /** A text yields no unit exactly when it is blank. */
  lemma SegmentEmptyIffBlank(text: string)
    ensures Segment(text) == [] <==> IsBlank(text)
  {
    var k := NextDelimiter(text, 0);
    if k < |text| {
      DelimiterNotBlank(text, k);
      CutsFromCloses(text, 0, k);
    } else {
      CutsFromRemainder(text, 0);
      assert text[0..] == text;
    }
  }

  /** Every unit holds a non-empty sentence: the trimmed text of its span,
      which lies inside the text; the spans are contiguous from offset 0,
      and each ends just after its only delimiter or at the end of the
      text. */
  lemma SegmentWellFormed(text: string)
    ensures var us := Segment(text);
      (us != [] ==> us[0].span.start == 0)
      && (forall k :: 0 <= k < |us| - 1 ==> us[k + 1].span.start == us[k].span.end)
      && (forall k :: 0 <= k < |us| ==>
            CutOf(text, us[k].span)
            && us[k].sentence == Strip(text[us[k].span.start..us[k].span.end])
            && us[k].sentence != [])
  {
    CutsFromAreCuts(text, 0);
    CutsFromContiguous(text, 0);
    var us := Segment(text);
    forall k | 0 <= k < |us| ensures us[k].sentence != [] {
      StripEmptyIffBlank(text[us[k].span.start..us[k].span.end]);
    }
  }

  /** The blank filter keeps a sequence whose sentences are all non-empty. */
  lemma {:induction false} KeepNonEmptyKeepsAll(us: seq<Unit>)
    requires forall k :: 0 <= k < |us| ==> us[k].sentence != []
    ensures KeepNonEmpty(us) == us
  {
    if us != [] {
      KeepNonEmptyKeepsAll(us[..|us| - 1]);
      assert us[..|us| - 1] + [us[|us| - 1]] == us;
    }
  }

  /** The blank filter never drops a unit of a segmentation. */
  lemma FilterDropsNothing(text: string)
    ensures KeepNonEmpty(Segment(text)) == Segment(text)
  {
    SegmentWellFormed(text);
    KeepNonEmptyKeepsAll(Segment(text));
  }

  /** Trimming the pieces of the examples below. */
  lemma StripExamples()
    ensures Strip("Hello.") == "Hello." && Strip(" World!") == "World!"
    ensures Strip("Yes;") == "Yes;" && Strip(" no ") == "no"
  {
    assert !IsSpace('H') && !IsSpace('.') && !IsSpace('W') && !IsSpace('!');
    assert !IsSpace('Y') && !IsSpace(';') && !IsSpace('n') && !IsSpace('o');
    assert " World!"[1..] == "World!";
    assert " no "[1..] == "no " && "no "[..2] == "no";
  }

  /** The spans of the examples below. */
  lemma HelloWorldCuts(text: string)
    requires text == "Hello. World!"
    ensures CutsFrom(text, 0) == [Span(0, 6), Span(6, 13)]
  {
    HelloCut(text);
    WorldCut(text);
  }

  lemma HelloCut(text: string)
    requires text == "Hello. World!"
    ensures CutsFrom(text, 0) == [Span(0, 6)] + CutsFrom(text, 6)
  {
    assert forall j :: 0 <= j < 5 ==> text[j] in "Hello";
    CutsFromCloses(text, 0, 5);
  }

  lemma WorldCut(text: string)
    requires text == "Hello. World!"
    ensures CutsFrom(text, 6) == [Span(6, 13)]
  {
    assert forall j :: 6 <= j < 12 ==> text[j] in " World";
    CutsFromCloses(text, 6, 12);
    CutsFromRemainder(text, 13);
    assert text[13..] == [];
  }

  lemma TailCuts(text: string)
    requires text == "Yes; no "
    ensures CutsFrom(text, 0) == [Span(0, 4), Span(4, 8)]
  {
    assert forall j :: 0 <= j < 3 ==> text[j] in "Yes";
    CutsFromCloses(text, 0, 3);
    assert forall j :: 4 <= j < 8 ==> text[j] in " no";
    CutsFromRemainder(text, 4);
    assert text[4..][1] == 'n' && !IsSpace('n');
  }

  /** "Hello. World!": the first unit keeps its delimiter, and the second
      unit's span starts at the space after it, which its sentence trims. */
  lemma HelloWorldExample(text: string)
    requires text == "Hello. World!"
    ensures Segment(text) == [Unit("Hello.", Span(0, 6)), Unit("World!", Span(6, 13))]
  {
    HelloWorldCuts(text);
    var us := Segment(text);
    assert text[0..6] == "Hello." && text[6..13] == " World!";
    StripExamples();
    assert us[0] == Unit("Hello.", Span(0, 6));
    assert us[1] == Unit("World!", Span(6, 13));
  }

  /** A tail after the last delimiter that is not blank yields a unit
      without a delimiter. */
  lemma TailExample(text: string)
    requires text == "Yes; no "
    ensures Segment(text) == [Unit("Yes;", Span(0, 4)), Unit("no", Span(4, 8))]
  {
    TailCuts(text);
    var us := Segment(text);
    assert text[0..4] == "Yes;" && text[4..8] == " no ";
    StripExamples();
    assert us[0] == Unit("Yes;", Span(0, 4));
    assert us[1] == Unit("no", Span(4, 8));
  }

  /** A blank tail after the last delimiter yields no unit. */
  lemma BlankTailExample(text: string)
    requires text == "Done!  "
    ensures Segment(text) == [Unit("Done!", Span(0, 5))]
  {
    CutsFromCloses(text, 0, 4);
    assert text[5..] == "  ";
    CutsFromRemainder(text, 5);
    assert CutsFrom(text, 0) == [Span(0, 5)];
    assert text[0..5] == "Done!";
    assert !IsSpace('D') && !IsSpace('!');
  }

  // ---------------------------------------------------------------------------
  // The scan itself

  /** split_text_into_sentences: the scan followed by the blank filter over
      the paired lists. The result is the segmentation of the text. */
  method SplitTextIntoSentences(text: string) returns (sentences: seq<string>, positions: seq<Span>)
    ensures sentences == Sentences(Segment(text))
    ensures positions == Spans(Segment(text))
  {
    var rawSentences, rawPositions := ScanPieces(text);
    sentences, positions := DropBlankPieces(rawSentences, rawPositions, Segment(text));
    FilterDropsNothing(text);
  }

  /** The scan of split_text_into_sentences: one left-to-right pass that
      accumulates the current piece, closes it at every delimiter, and keeps
      the trailing remainder only if it is not blank. */
  method ScanPieces(text: string) returns (sentences: seq<string>, positions: seq<Span>)
    ensures sentences == Sentences(Segment(text))
    ensures positions == Spans(Segment(text))
  {
    sentences, positions := [], [];
    var current: string := "";
    var currentStart: nat := 0;
    for i := 0 to |text|
      invariant ScanInvariant(text, i, sentences, positions, current, currentStart)
    {
      sentences, positions, current, currentStart := ScanStep(text, i, sentences, positions, current, currentStart);
    }
    sentences, positions := KeepRemainder(text, sentences, positions, current, currentStart);
  }

  /** What the scan knows after reading text[..i]: `current` holds the
      piece begun at `start`, which has no delimiter yet; the pieces closed
      so far are trimmed and their spans are the first spans of the text. */
  predicate ScanInvariant(text: string, i: nat, sentences: seq<string>, positions: seq<Span>,
                          current: string, start: nat)
  {
    start <= i <= |text|
    && current == text[start..i]
    && (forall j :: start <= j < i ==> !IsDelimiter(text[j]))
    && Trimmed(text, sentences, positions)
    && positions + CutsFrom(text, start) == CutsFrom(text, 0)
  }

  /** One character of the scan: the character joins the current piece,
      and a delimiter closes the piece. */
  method ScanStep(text: string, i: nat, sentences: seq<string>, positions: seq<Span>, current: string, start: nat)
    returns (sentences': seq<string>, positions': seq<Span>, current': string, start': nat)
    requires i < |text| && ScanInvariant(text, i, sentences, positions, current, start)
    ensures ScanInvariant(text, i + 1, sentences', positions', current', start')
  {
    sentences', positions', current', start' := sentences, positions, current + [text[i]], start;
    if IsDelimiter(text[i]) {
      PieceCloses(text, i, sentences, positions, current, start);
      sentences' := sentences + [Strip(current')];
      positions' := positions + [Span(start, i + 1)];
      current' := "";
      start' := i + 1;
    } else {
      PieceGrows(text, i, sentences, positions, current, start);
    }
  }

  /** A character other than a delimiter extends the current piece. */
  lemma PieceGrows(text: string, i: nat, sentences: seq<string>, positions: seq<Span>, current: string, start: nat)
    requires i < |text| && !IsDelimiter(text[i])
    requires ScanInvariant(text, i, sentences, positions, current, start)
    ensures ScanInvariant(text, i + 1, sentences, positions, current + [text[i]], start)
  {
    assert current + [text[i]] == text[start..i + 1];
  }

  /** A delimiter closes the current piece: its trimmed text and its span
      join the lists, and a new piece begins after it. */
  lemma PieceCloses(text: string, i: nat, sentences: seq<string>, positions: seq<Span>, current: string, start: nat)
    requires i < |text| && IsDelimiter(text[i])
    requires ScanInvariant(text, i, sentences, positions, current, start)
    ensures ScanInvariant(text, i + 1, sentences + [Strip(current + [text[i]])],
                          positions + [Span(start, i + 1)], "", i + 1)
  {
    assert current + [text[i]] == text[start..i + 1];
    ScanCloses(text, positions, start, i);
    TrimmedSnoc(text, sentences, positions, Span(start, i + 1));
  }

  /** The end of the scan: the piece after the last delimiter is kept only
      if it is not blank, which completes the segmentation. */
  method KeepRemainder(text: string, sentences: seq<string>, positions: seq<Span>, current: string, start: nat)
    returns (allSentences: seq<string>, allPositions: seq<Span>)
    requires ScanInvariant(text, |text|, sentences, positions, current, start)
    ensures allSentences == Sentences(Segment(text))
    ensures allPositions == Spans(Segment(text))
  {
    CutsFromRemainder(text, start);
    StripEmptyIffBlank(current);
    assert text[start..|text|] == current && text[start..] == current;
    allSentences, allPositions := sentences, positions;
    if Strip(current) != [] {
      TrimmedSnoc(text, sentences, positions, Span(start, |text|));
      allSentences := sentences + [Strip(current)];
      allPositions := positions + [Span(start, |text|)];
    }
    TrimmedCutsAreSegment(text, allSentences, allPositions);
  }

  /** The blank filter of split_text_into_sentences: walks the two lists in
      step and keeps each pair whose sentence is not empty. */
  method DropBlankPieces(sentences: seq<string>, positions: seq<Span>, ghost units: seq<Unit>)
    returns (kept: seq<string>, keptPositions: seq<Span>)
    requires sentences == Sentences(units) && positions == Spans(units)
    ensures kept == Sentences(KeepNonEmpty(units))
    ensures keptPositions == Spans(KeepNonEmpty(units))
  {
    kept, keptPositions := [], [];
    for k := 0 to |sentences|
      invariant kept == Sentences(KeepNonEmpty(units[..k]))
      invariant keptPositions == Spans(KeepNonEmpty(units[..k]))
    {
      ghost var before := KeepNonEmpty(units[..k]);
      assert units[..k + 1][..k] == units[..k] && units[..k + 1][k] == units[k];
      assert KeepNonEmpty(units[..k + 1]) == before + (if units[k].sentence != [] then [units[k]] else []);
      ProjectionsSnoc(before, units[k]);
      if sentences[k] != [] {
        kept := kept + [sentences[k]];
        keptPositions := keptPositions + [positions[k]];
      }
    }
    assert units[..|units|] == units;
  }
}
