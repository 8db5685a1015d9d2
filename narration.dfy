/** Narration of a reel slide (components/ReelViewer.tsx, the effects and speech handlers).
    The browser's speech synthesizer is reduced to the utterance it holds and its paused flag;
    the browser delivers utterance events by calling the `On…` methods. React's effects are
    methods that `Render` runs when their dependencies change, slide reset before speech sync. */
module Narration {
  import opened Wrappers
  import opened Text
  import opened Types
  import opened PhraseSegmenter
  import opened VoiceSelector

  /** A `SpeechSynthesisUtterance` made by the speech effect, with what its handlers captured:
      the caption it speaks and the highlighted index of the render that created it. */
  datatype Utterance = Utterance(id: nat, text: string, voice: Voice, phraseIndexSnapshot: int)

  /** The boundary handler's closure counters: characters of phrases already passed, and the
      phrase the speech is in. */
  datatype Cursor = Cursor(acc: int, idx: int)

  /** Where phrase `k` starts when the phrases are spoken separated by single spaces. */
  function Offset(ps: seq<Phrase>, k: nat): int
    requires k <= |ps|
  {
    if k == 0 then 0 else Offset(ps, k - 1) + |ps[k - 1].text| + 1
  }

  /** The offset of phrase `k` is one past the phrases before it joined with single spaces. */
  lemma {:induction false} OffsetIsJoinedLength(ps: seq<Phrase>, k: nat)
    requires 0 < k <= |ps|
    ensures Offset(ps, k) == |JoinSpaces(Texts(ps)[..k])| + 1
  {
    var ts := Texts(ps);
    if k > 1 {
      OffsetIsJoinedLength(ps, k - 1);
      assert ts[..k][..k - 1] == ts[..k - 1];
    }
  }

  datatype BoundaryOutcome = BoundaryOutcome(cursor: Cursor, highlight: Option<int>)

  /** The phrase bookkeeping of `onboundary`: the new cursor, and the index to highlight if the
      handler sets one. */
  function BoundaryStep(phrases: seq<Phrase>, c: Cursor, snapshot: int, name: string,
                        charIndex: nat): (r: BoundaryOutcome)
    requires 0 <= c.idx
    ensures name != "word" ==> r == BoundaryOutcome(c, None)
    ensures r.cursor.idx == c.idx || r.cursor.idx == c.idx + 1
    ensures r.cursor.idx == c.idx + 1 <==>
      name == "word" && c.idx < |phrases| && charIndex >= c.acc + |phrases[c.idx].text|
    ensures r.cursor.idx == c.idx ==> r.cursor.acc == c.acc
    ensures r.cursor.idx == c.idx + 1 ==> r.cursor.acc == c.acc + |phrases[c.idx].text| + 1
    ensures r.cursor.idx == c.idx ==>
      (r.highlight.Some? <==>
        name == "word" && c.idx < |phrases| && c.acc <= charIndex && c.idx != snapshot)
    ensures r.highlight.Some? ==> r.highlight.value == r.cursor.idx && 0 <= r.highlight.value < |phrases|
    ensures c.idx <= |phrases| && c.acc == Offset(phrases, c.idx) ==>
      r.cursor.idx <= |phrases| && r.cursor.acc == Offset(phrases, r.cursor.idx)
  {
    if name == "word" && c.idx < |phrases| then
      var text := phrases[c.idx].text;
      if charIndex >= c.acc + |text| then
        var next := Cursor(c.acc + |text| + 1, c.idx + 1);
        BoundaryOutcome(next, if next.idx < |phrases| then Some(next.idx) else None)
      else if charIndex >= c.acc && c.idx != snapshot then
        BoundaryOutcome(c, Some(c.idx))
      else
        BoundaryOutcome(c, None)
    else
      BoundaryOutcome(c, None)
  }

  /** Speech progress after a boundary: `min((charIndex + charLength) / captionLength, 1)`. */
  function SpokenFraction(charIndex: nat, charLength: nat, captionLength: nat): (p: real)
    requires captionLength > 0
    ensures 0.0 <= p <= 1.0
    ensures p == 1.0 <==> charIndex + charLength >= captionLength
    ensures p < 1.0 ==> p * captionLength as real == (charIndex + charLength) as real
  {
    var spoken := (charIndex + charLength) as real;
    var q := spoken / captionLength as real;
    QuotientScale(spoken, captionLength as real);
    if q <= 1.0 then q else 1.0
  }

  /** The quotient by a positive length times that length is the numerator, and it is at most,
      or exactly, one when the numerator is at most, or exactly, the length. */
  lemma QuotientScale(n: real, len: real)
    requires len > 0.0 && n >= 0.0
    ensures (n / len) * len == n && n / len >= 0.0
    ensures n / len <= 1.0 <==> n <= len
    ensures n / len == 1.0 <==> n == len
  {
    var q := n / len;
    assert q * len == n;
    if q <= 1.0 {
      assert q * len <= 1.0 * len;
    } else {
      assert q * len > 1.0 * len;
    }
  }

  /** The caption the slide-reset effect segments: that of a shown content slide, if not empty. */
  function NarratedCaption(slide: Option<ViewerSlide>, isAdView: bool): Option<string>
  {
    if slide.Some? && slide.value.Caption() != "" && !isAdView then Some(slide.value.Caption())
    else None
  }

  /** The phrases the slide-reset effect stores for a slide. */
  function PhrasesFor(slide: Option<ViewerSlide>, isAdView: bool): (ps: seq<Phrase>)
    ensures ps == [] <==>
      NarratedCaption(slide, isAdView).None? || AllSpace(NarratedCaption(slide, isAdView).value)
  {
    match NarratedCaption(slide, isAdView)
    case None => []
    case Some(caption) => PhrasesOfCaption(caption); PhrasesOf(caption)
  }

  /** `window.speechSynthesis`, reduced to the utterance it holds (it is `speaking`) and
      whether it is paused. The paused flag belongs to the synthesizer, not to an utterance:
      `cancel()` empties the queue and leaves the flag as it is, and `speak()` while paused
      queues an utterance that is not heard until `resume()`. */
  datatype Synthesizer = Synthesizer(queued: Option<nat>, paused: bool)

  /** `utteranceRef.current`, whether its four handlers are set, the id the next utterance gets,
      and the boundary handler's closure counters of the current utterance. */
  datatype Session = Session(current: Option<Utterance>, attached: bool, nextId: nat, cursor: Cursor)

  /** `phrasesRef.current` and the component's state. */
  datatype View = View(phrases: seq<Phrase>, selectedVoice: Option<Voice>, isSpeaking: bool,
                       currentPhraseIndex: int, speechProgress: real)

  /** The props of the last render, and whether the component is mounted. */
  datatype Props = Props(slide: Option<ViewerSlide>, isAdView: bool, isPlaying: bool, mounted: bool)

  /** 300 ms timers set by `onend` that have not fired, and calls of `onSpeechEnd` so far. */
  datatype Completions = Completions(pending: nat, speechEnds: nat)

  /** What the speech effect reads and changes. */
  datatype Speech = Speech(synth: Synthesizer, session: Session, view: View)

  /** The speech state together with the props it was last rendered with. */
  datatype Screen = Screen(speech: Speech, props: Props)

  /** `speechSynthesis.cancel()`. */
  function Cancelled(synth: Synthesizer): Synthesizer
  {
    Synthesizer(None, synth.paused)
  }

  /** The synthesizer holds an utterance and is not paused, so the utterance is heard. */
  predicate Audible(synth: Synthesizer)
  {
    synth.queued.Some? && !synth.paused
  }

  /** The speech effect's guard: nothing to narrate. */
  predicate BlockedBy(props: Props, view: View)
  {
    || props.isAdView || props.slide.None? || props.slide.value.Caption() == ""
    || |view.phrases| == 0 || view.selectedVoice.None?
  }

  /** The speech effect's resume test: the synthesizer is paused and the stored utterance speaks
      the shown caption. */
  predicate ResumeApplies(s: Speech, props: Props)
    requires props.slide.Some?
  {
    s.synth.paused && s.session.current.Some? && s.session.current.value.text == props.slide.value.Caption()
  }

  /** The session of a fresh utterance of `caption`, with its handlers set and fresh counters. */
  function FreshSession(session: Session, caption: string, voice: Voice, renderedIndex: int): Session
  {
    Session(Some(Utterance(session.nextId, caption, voice, renderedIndex)), true, session.nextId + 1,
            Cursor(0, 0))
  }

  /** The speech effect as written: run with the props of a render whose highlighted index was
      `renderedIndex`. */
  function SpeechEffect(s: Speech, props: Props, renderedIndex: int): Speech
  {
    if BlockedBy(props, s.view) then
      Speech(Cancelled(s.synth), s.session.(attached := false),
             s.view.(isSpeaking := false, speechProgress := 0.0))
    else if props.isPlaying then
      if ResumeApplies(s, props) then
        Speech(s.synth.(paused := false), s.session, s.view.(isSpeaking := true))
      else
        Speech(Synthesizer(Some(s.session.nextId), s.synth.paused),
               FreshSession(s.session, props.slide.value.Caption(), s.view.selectedVoice.value,
                            renderedIndex),
               s.view)
    else
      Speech(s.synth.(paused := s.synth.paused || s.synth.queued.Some?), s.session,
             s.view.(isSpeaking := false))
  }

  /** The speech effect with the stall removed: resume only a paused utterance that is still in
      the synthesizer, and resume the synthesizer after speaking a fresh utterance. */
  function SpeechEffectFixed(s: Speech, props: Props, renderedIndex: int): Speech
  {
    if BlockedBy(props, s.view) || !props.isPlaying then SpeechEffect(s, props, renderedIndex)
    else if s.synth.queued.Some? && ResumeApplies(s, props) then
      Speech(s.synth.(paused := false), s.session, s.view.(isSpeaking := true))
    else
      Speech(Synthesizer(Some(s.session.nextId), false),
             FreshSession(s.session, props.slide.value.Caption(), s.view.selectedVoice.value,
                          renderedIndex),
             s.view)
  }

  /** The slide-reset effect on the view. */
  function SlideReset(view: View, slide: Option<ViewerSlide>, isAdView: bool): View
  {
    view.(phrases := PhrasesFor(slide, isAdView), currentPhraseIndex := -1, speechProgress := 0.0)
  }

  /** A render with new props: the slide-reset effect if the slide or the advert flag changed,
      then the speech effect if any of its dependencies changed. */
  function RenderStep(sc: Screen, newSlide: Option<ViewerSlide>, newIsAdView: bool,
                      newIsPlaying: bool): Screen
  {
    var slideChanged := newSlide != sc.props.slide || newIsAdView != sc.props.isAdView;
    var props := sc.props.(slide := newSlide, isAdView := newIsAdView, isPlaying := newIsPlaying);
    var reset := if slideChanged then sc.speech.(view := SlideReset(sc.speech.view, newSlide, newIsAdView))
                 else sc.speech;
    if slideChanged || newIsPlaying != sc.props.isPlaying then
      Screen(SpeechEffect(reset, props, sc.speech.view.currentPhraseIndex), props)
    else
      Screen(reset, props)
  }

  /** The state after the first commit: the slide-reset and speech effects run with no voice
      selected; if a voice was found, the re-render runs the speech effect again. The synthesizer
      is shared by the page and may still be paused when the viewer mounts. */
  function Mounted(slide: Option<ViewerSlide>, isAdView: bool, isPlaying: bool, pausedAtMount: bool,
                   voices: seq<Voice>): Screen
  {
    var props := Props(slide, isAdView, isPlaying, true);
    var first := SpeechEffect(Speech(Synthesizer(None, pausedAtMount), Session(None, false, 0, Cursor(0, 0)),
                                     View(PhrasesFor(slide, isAdView), None, false, -1, 0.0)),
                              props, -1);
    var best := VoiceAt(voices, Choice(voices));
    if best.Some? then
      Screen(SpeechEffect(first.(view := first.view.(selectedVoice := best)), props,
                          first.view.currentPhraseIndex), props)
    else
      Screen(first, props)
  }

  /** `onvoiceschanged`: select a voice when the list is not empty; a changed voice re-runs the
      speech effect. Nothing once unmounted. */
  function VoicesUpdate(s: Speech, props: Props, voices: seq<Voice>): Speech
  {
    if !props.mounted || voices == [] then s
    else
      var best := VoiceAt(voices, Choice(voices));
      if best == s.view.selectedVoice then s
      else SpeechEffect(s.(view := s.view.(selectedVoice := best)), props, s.view.currentPhraseIndex)
  }

  /** At most one utterance is in the synthesizer, and it is the stored one with its handlers
      set. */
  predicate OneSession(synth: Synthesizer, session: Session)
  {
    && (synth.queued.Some? ==>
          session.attached && session.current.Some? && session.current.value.id == synth.queued.value)
    && (session.attached ==> session.current.Some?)
    && (session.current.Some? ==> session.current.value.id < session.nextId)
  }

  /** With nothing to narrate, the speech effect empties the synthesizer without touching its
      paused flag, detaches the handlers and clears the speaking flag and the progress. */
  lemma SpeechEffectBlocked(s: Speech, props: Props, renderedIndex: int)
    requires BlockedBy(props, s.view)
    ensures var r := SpeechEffect(s, props, renderedIndex);
      && r.synth.queued.None? && r.synth.paused == s.synth.paused
      && !r.session.attached && r.session.current == s.session.current
      && r.session.nextId == s.session.nextId
      && !r.view.isSpeaking && r.view.speechProgress == 0.0
  {
  }

  /** Playing: the session is kept exactly when the resume test holds; otherwise a fresh
      utterance of the shown caption with the selected voice is put in the synthesizer, which
      keeps its paused flag. */
  lemma SpeechEffectPlaying(s: Speech, props: Props, renderedIndex: int)
    requires !BlockedBy(props, s.view) && props.isPlaying
    requires OneSession(s.synth, s.session)
    ensures var r := SpeechEffect(s, props, renderedIndex);
      && (r.session == s.session <==> ResumeApplies(s, props))
      && (ResumeApplies(s, props) ==>
            r.synth == Synthesizer(s.synth.queued, false) && r.view.isSpeaking)
      && (!ResumeApplies(s, props) ==>
            && r.synth == Synthesizer(Some(s.session.nextId), s.synth.paused)
            && r.session.current == Some(Utterance(s.session.nextId, props.slide.value.Caption(),
                                                   s.view.selectedVoice.value, renderedIndex))
            && r.session.attached && r.session.cursor == Cursor(0, 0)
            && r.view == s.view)
  {
    var r := SpeechEffect(s, props, renderedIndex);
    if !ResumeApplies(s, props) {
      // The new session's id is past every id the old one could hold.
      assert r.session.nextId != s.session.nextId;
    }
  }

  /** Not playing: the speech effect pauses whatever the synthesizer holds and never cancels it;
      the session, the highlight and the progress are kept. */
  lemma SpeechEffectPausing(s: Speech, props: Props, renderedIndex: int)
    requires !BlockedBy(props, s.view) && !props.isPlaying
    ensures var r := SpeechEffect(s, props, renderedIndex);
      && r.synth.queued == s.synth.queued
      && (s.synth.queued.Some? ==> r.synth.paused)
      && (s.synth.queued.None? ==> r.synth.paused == s.synth.paused)
      && !Audible(r.synth)
      && r.session == s.session
      && r.view == s.view.(isSpeaking := false)
  {
  }

  /** The speech effect never changes the shown phrases, the selected voice or the highlight,
      and it keeps the one-session invariant. */
  lemma SpeechEffectKeeps(s: Speech, props: Props, renderedIndex: int)
    requires OneSession(s.synth, s.session)
    ensures var r := SpeechEffect(s, props, renderedIndex);
      && r.view.phrases == s.view.phrases && r.view.selectedVoice == s.view.selectedVoice
      && r.view.currentPhraseIndex == s.view.currentPhraseIndex
      && (!BlockedBy(props, s.view) ==> r.view.speechProgress == s.view.speechProgress)
      && OneSession(r.synth, r.session)
  {
  }

  /** Playing, the utterance left in the synthesizer is heard exactly when, on resuming, there was
      one to resume, or, on speaking afresh, the synthesizer was not paused: a fresh utterance
      spoken while paused is silent. */
  lemma PlayHeardIff(s: Speech, props: Props, renderedIndex: int)
    requires !BlockedBy(props, s.view) && props.isPlaying
    ensures Audible(SpeechEffect(s, props, renderedIndex).synth) <==>
      if ResumeApplies(s, props) then s.synth.queued.Some? else !s.synth.paused
  {
  }

  /** Play a slide, pause, move to another slide with a different caption, press play: the new
      utterance is queued in the still-paused synthesizer and is never heard, so no `onstart`,
      `onend` or `onSpeechEnd` follows. */
  lemma PausedPlayStalls(sc: Screen, b: ViewerSlide)
    requires sc.props.isPlaying && !sc.props.isAdView && !BlockedBy(sc.props, sc.speech.view)
    requires Audible(sc.speech.synth) && OneSession(sc.speech.synth, sc.speech.session)
    requires Some(b) != sc.props.slide && !AllSpace(b.Caption())
    requires b.Caption() != sc.speech.session.current.value.text
    ensures var paused := RenderStep(sc, sc.props.slide, false, false);
            var moved := RenderStep(paused, Some(b), false, false);
            var played := RenderStep(moved, Some(b), false, true);
      && played.speech.synth.queued.Some? && played.speech.synth.paused
      && played.speech.session.current.Some?
      && played.speech.session.current.value.text == b.Caption()
      && !Audible(played.speech.synth)
  {
    var paused := RenderStep(sc, sc.props.slide, false, false);
    assert paused.speech.synth.paused;
    var moved := RenderStep(paused, Some(b), false, false);
    assert b.Caption() != "";
    PhrasesOfCaption(b.Caption());
    assert moved.speech.view.phrases == PhrasesOf(b.Caption()) != [];
    assert moved.speech.synth.paused && moved.speech.session == sc.speech.session;
    var played := RenderStep(moved, Some(b), false, true);
    assert !ResumeApplies(moved.speech, played.props);
  }

  /** The corrected speech effect: whenever it runs playing a narratable slide, the utterance it
      leaves is heard and speaks the shown caption. */
  lemma FixedPlayIsHeard(s: Speech, props: Props, renderedIndex: int)
    requires !BlockedBy(props, s.view) && props.isPlaying
    requires OneSession(s.synth, s.session)
    ensures var r := SpeechEffectFixed(s, props, renderedIndex);
      && Audible(r.synth) && OneSession(r.synth, r.session)
      && r.session.current.Some? && r.session.current.value.text == props.slide.value.Caption()
  {
  }

  /** The correction changes nothing unless the synthesizer is paused. */
  lemma FixedAgreesUnpaused(s: Speech, props: Props, renderedIndex: int)
    requires !s.synth.paused
    ensures SpeechEffectFixed(s, props, renderedIndex) == SpeechEffect(s, props, renderedIndex)
  {
  }

  /** After mounting: the phrases of the initial slide, the best voice, no highlight and no
      progress; narration of utterance 0 starts exactly when a voice was found, the slide has
      phrases to narrate and it is playing, and it is heard only if the synthesizer was not
      left paused. */
  lemma MountedSpec(slide: Option<ViewerSlide>, isAdView: bool, isPlaying: bool, pausedAtMount: bool,
                    voices: seq<Voice>)
    ensures var m := Mounted(slide, isAdView, isPlaying, pausedAtMount, voices);
            var starts := voices != [] && PhrasesFor(slide, isAdView) != [] && isPlaying;
      && m.props == Props(slide, isAdView, isPlaying, true)
      && m.speech.view == View(PhrasesFor(slide, isAdView), VoiceAt(voices, Choice(voices)), false, -1, 0.0)
      && (starts ==>
            && m.speech.synth == Synthesizer(Some(0), pausedAtMount)
            && m.speech.session == Session(Some(Utterance(0, slide.value.Caption(),
                                                          VoiceAt(voices, Choice(voices)).value, -1)),
                                           true, 1, Cursor(0, 0)))
      && (!starts ==> m.speech.synth == Synthesizer(None, pausedAtMount) && m.speech.session.current.None?)
  {
    ChoiceIsBest(voices);
    var props := Props(slide, isAdView, isPlaying, true);
    var s0 := Speech(Synthesizer(None, pausedAtMount), Session(None, false, 0, Cursor(0, 0)),
                     View(PhrasesFor(slide, isAdView), None, false, -1, 0.0));
    assert BlockedBy(props, s0.view);
    if PhrasesFor(slide, isAdView) != [] {
      assert NarratedCaption(slide, isAdView).Some?;
    }
  }

  /** A render: the new props are stored; the phrases are those of the new slide and the voice is
      kept; a changed slide clears the highlight and the progress; a render that changes nothing
      changes nothing; one that changes only the play flag keeps the highlight, and keeps the
      progress unless there is nothing to narrate; pausing keeps the utterance and its session. */
  lemma RenderStepSpec(sc: Screen, newSlide: Option<ViewerSlide>, newIsAdView: bool, newIsPlaying: bool)
    requires sc.speech.view.phrases == PhrasesFor(sc.props.slide, sc.props.isAdView)
    ensures var r := RenderStep(sc, newSlide, newIsAdView, newIsPlaying);
            var slideChanged := newSlide != sc.props.slide || newIsAdView != sc.props.isAdView;
      && r.props == sc.props.(slide := newSlide, isAdView := newIsAdView, isPlaying := newIsPlaying)
      && r.speech.view.phrases == PhrasesFor(newSlide, newIsAdView)
      && r.speech.view.selectedVoice == sc.speech.view.selectedVoice
      && (slideChanged ==> r.speech.view.currentPhraseIndex == -1 && r.speech.view.speechProgress == 0.0)
      && (r.props == sc.props ==> r.speech == sc.speech)
      && (!slideChanged ==> r.speech.view.currentPhraseIndex == sc.speech.view.currentPhraseIndex)
      && (!slideChanged && !BlockedBy(r.props, sc.speech.view) ==>
            r.speech.view.speechProgress == sc.speech.view.speechProgress)
      && (!slideChanged && sc.props.isPlaying && !newIsPlaying && !BlockedBy(r.props, sc.speech.view) ==>
            && r.speech.synth.queued == sc.speech.synth.queued && !Audible(r.speech.synth)
            && r.speech.session == sc.speech.session
            && r.speech.view == sc.speech.view.(isSpeaking := false))
  {
  }

  /** A voice list: ignored once unmounted or when empty; otherwise the best voice is selected,
      and only a changed choice re-runs the speech effect, which while playing a narratable slide
      not paused on it restarts the narration with the new voice. */
  lemma VoicesUpdateSpec(s: Speech, props: Props, voices: seq<Voice>)
    ensures var r := VoicesUpdate(s, props, voices);
            var best := VoiceAt(voices, Choice(voices));
      && (!props.mounted || voices == [] || best == s.view.selectedVoice ==> r == s)
      && (props.mounted && voices != [] ==> r.view.selectedVoice == best)
      && r.view.phrases == s.view.phrases
      && r.view.currentPhraseIndex == s.view.currentPhraseIndex
      && (props.mounted && voices != [] && best != s.view.selectedVoice && props.isPlaying
          && !BlockedBy(props, s.view.(selectedVoice := best)) && !ResumeApplies(s, props) ==>
            r.session.current.Some? && Some(r.session.current.value.voice) == best)
  {
  }

  /** At most one utterance is in the synthesizer: the stored one, with its handlers set, and
      its boundary cursor at the start of one of the phrases it speaks. */
  ghost predicate SessionInvariant(synth: Synthesizer, session: Session, spoken: seq<Phrase>)
  {
    && OneSession(synth, session)
    && (synth.queued.Some? ==>
          && |spoken| > 0
          && 0 <= session.cursor.idx <= |spoken|
          && session.cursor.acc == Offset(spoken, session.cursor.idx))
  }

  /** The stored utterance speaks a non-empty caption, and `spoken` are that caption's phrases.
      The phrases are said of every caption so that the segmentation is only unfolded where some
      caption's phrases are asked for. */
  ghost predicate SpokenInvariant(session: Session, spoken: seq<Phrase>)
  {
    && (session.current.Some? ==> session.current.value.text != "")
    && forall text {:trigger PhrasesOf(text)} ::
         session.current.Some? && session.current.value.text == text ==> spoken == PhrasesOf(text)
  }

  /** The stored phrases are those of the narrated caption, and none when there is none. */
  ghost predicate ShownInvariant(props: Props, view: View)
  {
    && (NarratedCaption(props.slide, props.isAdView).None? ==> view.phrases == [])
    && forall caption {:trigger PhrasesOf(caption)} ::
         NarratedCaption(props.slide, props.isAdView) == Some(caption) ==> view.phrases == PhrasesOf(caption)
  }

  /** The highlighted index names a shown phrase or is -1; the progress is a fraction. */
  ghost predicate DisplayInvariant(view: View)
  {
    && (view.currentPhraseIndex == -1 || 0 <= view.currentPhraseIndex < |view.phrases|)
    && 0.0 <= view.speechProgress <= 1.0
  }

  /** Every utterance that ended or failed has called `onSpeechEnd` or has a timer pending that
      will, once; the one in the synthesizer has not ended. */
  ghost predicate CompletionInvariant(signalled: set<nat>, nextId: nat, queued: Option<nat>,
                                      completions: Completions)
  {
    && (forall id :: id in signalled ==> id < nextId)
    && (queued.Some? ==> queued.value !in signalled)
    && completions.speechEnds + completions.pending == |signalled|
  }

  /** Handling the end or error of the utterance in the synthesizer keeps the accounting. */
  lemma CompletionOnSignal(signalled: set<nat>, nextId: nat, id: nat, before: Completions,
                           after: Completions)
    requires CompletionInvariant(signalled, nextId, Some(id), before)
    requires id < nextId
    requires after.speechEnds + after.pending == before.speechEnds + before.pending + 1
    ensures CompletionInvariant(signalled + {id}, nextId, None, after)
  {
    assert |signalled + {id}| == |signalled| + 1;
  }

  class ReelPlayback {
    var synth: Synthesizer
    var session: Session
    var view: View
    var props: Props
    var completions: Completions
    // Utterances whose end or error has been handled, and the phrases of the stored utterance.
    ghost var signalled: set<nat>
    ghost var spoken: seq<Phrase>

    /** What holds between any two effects of one commit. */
    ghost predicate Coherent()
      reads this
    {
      && ShownInvariant(props, view)
      && SpokenInvariant(session, spoken)
      && SessionInvariant(synth, session, spoken)
      && DisplayInvariant(view)
      && CompletionInvariant(signalled, session.nextId, synth.queued, completions)
    }

    /** Between commits, the utterance being heard speaks the shown phrases. */
    ghost predicate Valid()
      reads this
    {
      Coherent() && (Audible(synth) ==> view.phrases == spoken)
    }

    /** The synthesizer is speaking utterance `id` aloud, so the browser may deliver its events;
        under `Valid` its handlers are set. */
    predicate Heard(id: nat)
      reads this
    {
      synth.queued == Some(id) && !synth.paused
    }

    /** The speech effect's guard on the current props and view. */
    predicate Blocked()
      reads this
    {
      BlockedBy(props, view)
    }

    /** The state the constructor builds before any effect runs: nothing spoken, shown or
        selected; the synthesizer may be paused. */
    ghost predicate Unborn()
      reads this
    {
      && synth.queued.None? && session == Session(None, false, 0, Cursor(0, 0))
      && view == View([], None, false, -1, 0.0) && props.slide.None? && !props.isAdView
      && props.mounted && completions == Completions(0, 0) && signalled == {} && spoken == []
    }

    /** Mounting: the voice effect, the slide-reset effect and the speech effect run with no voice
        selected; if a voice was found, the re-render runs the speech effect again. */
    constructor Mount(initialSlide: Option<ViewerSlide>, initialIsAdView: bool, initialIsPlaying: bool,
                      pausedAtMount: bool, voices: seq<Voice>)
      ensures Valid()
      ensures Screen(Speech(synth, session, view), props)
              == Mounted(initialSlide, initialIsAdView, initialIsPlaying, pausedAtMount, voices)
      ensures completions == Completions(0, 0)
    {
      synth := Synthesizer(None, pausedAtMount);
      session := Session(None, false, 0, Cursor(0, 0));
      view := View([], None, false, -1, 0.0);
      props := Props(None, false, initialIsPlaying, true);
      completions := Completions(0, 0);
      signalled := {};
      spoken := [];
      new;
      MountEffects(initialSlide, initialIsAdView, voices);
    }

    /** The effects of the first commit, run in declaration order on the initial state. */
    method MountEffects(initialSlide: Option<ViewerSlide>, initialIsAdView: bool, voices: seq<Voice>)
      requires Unborn()
      modifies this`synth, this`session, this`view, this`props, this`spoken
      ensures Valid()
      ensures Screen(Speech(synth, session, view), props)
              == Mounted(initialSlide, initialIsAdView, old(props.isPlaying), old(synth.paused), voices)
      ensures completions == Completions(0, 0)
    {
      assert Coherent();
      var best := SelectVoice(voices);
      OnSlideChange(initialSlide, initialIsAdView);
      Sync(-1);
      if best.Some? {
        view := view.(selectedVoice := best);
        Sync(view.currentPhraseIndex);
      }
    }

    /** The slide-reset effect: recompute the phrases (none for an advert or an empty caption)
        and clear the highlight and the progress. */
    method OnSlideChange(newSlide: Option<ViewerSlide>, newIsAdView: bool)
      requires Coherent()
      modifies this`props, this`view
      ensures Coherent()
      ensures props == old(props).(slide := newSlide, isAdView := newIsAdView)
      ensures view == SlideReset(old(view), newSlide, newIsAdView)
    {
      var ps: seq<Phrase> := [];
      if newSlide.Some? && newSlide.value.Caption() != "" && !newIsAdView {
        ps := CreatePhrases(newSlide.value.Caption());
      }
      props := props.(slide := newSlide, isAdView := newIsAdView);
      view := view.(phrases := ps, currentPhraseIndex := -1, speechProgress := 0.0);
    }

    /** `speechSynthesis.cancel()` when speaking or paused, then detach the stored utterance's
        handlers. */
    method CancelAndDetach()
      requires Coherent()
      modifies this`synth, this`session
      ensures Coherent()
      ensures synth == Cancelled(old(synth)) && session == old(session).(attached := false)
    {
      if synth.queued.Some? || synth.paused {
        synth := Cancelled(synth);
      }
      if session.current.Some? {
        session := session.(attached := false);
      }
    }

    /** Speak a new utterance of the caption with the selected voice and fresh counters; it is
        queued behind the paused flag if the synthesizer is paused. */
    method SpeakNew(renderedIndex: int)
      requires Coherent() && !Blocked() && synth.queued.None? && !session.attached
      modifies this`synth, this`session, this`spoken
      ensures Valid()
      ensures synth == Synthesizer(Some(old(session.nextId)), old(synth.paused))
      ensures session == FreshSession(old(session), props.slide.value.Caption(), view.selectedVoice.value,
                                      renderedIndex)
      ensures spoken == view.phrases
    {
      var u := Utterance(session.nextId, props.slide.value.Caption(), view.selectedVoice.value,
                         renderedIndex);
      spoken := view.phrases;
      session := Session(Some(u), true, session.nextId + 1, Cursor(0, 0));
      synth := synth.(queued := Some(u.id));
    }

    /** The speech effect. `renderedIndex` is the highlighted index of the render whose effect
        this is; a new utterance's handlers keep it. */
    method Sync(renderedIndex: int)
      requires Coherent()
      modifies this`synth, this`session, this`view, this`spoken
      ensures Valid()
      ensures Speech(synth, session, view) == SpeechEffect(old(Speech(synth, session, view)), props, renderedIndex)
    {
      if Blocked() {
        CancelAndDetach();
        view := view.(isSpeaking := false, speechProgress := 0.0);
        return;
      }
      var caption := props.slide.value.Caption();
      if props.isPlaying {
        if synth.paused && session.current.Some? && session.current.value.text == caption {
          // The paused utterance speaks the shown caption, so it speaks the shown phrases.
          assert spoken == PhrasesOf(caption) == view.phrases;
          synth := synth.(paused := false);
          view := view.(isSpeaking := true);
        } else {
          CancelAndDetach();
          SpeakNew(renderedIndex);
        }
      } else {
        if synth.queued.Some? && !synth.paused {
          synth := synth.(paused := true);
        }
        if view.isSpeaking {
          view := view.(isSpeaking := false);
        }
      }
    }

    /** The speech effect with the stall removed: a paused utterance is resumed only while it is
        still queued, and after speaking a fresh utterance the synthesizer is resumed. Playing a
        narratable slide, the utterance it leaves is always heard. */
    method SyncCorrected(renderedIndex: int)
      requires Coherent()
      modifies this`synth, this`session, this`view, this`spoken
      ensures Valid()
      ensures Speech(synth, session, view)
              == SpeechEffectFixed(old(Speech(synth, session, view)), props, renderedIndex)
      ensures !old(Blocked()) && props.isPlaying ==>
        session.current.Some? && Heard(session.current.value.id)
        && session.current.value.text == props.slide.value.Caption()
    {
      if Blocked() || !props.isPlaying {
        Sync(renderedIndex);
        return;
      }
      var caption := props.slide.value.Caption();
      if synth.queued.Some? && synth.paused && session.current.Some? && session.current.value.text == caption {
        assert spoken == PhrasesOf(caption) == view.phrases;
        synth := synth.(paused := false);
        view := view.(isSpeaking := true);
      } else {
        CancelAndDetach();
        SpeakNew(renderedIndex);
        synth := synth.(paused := false);
      }
    }

    /** A render with new props: the slide-reset effect when the slide or the advert flag
        changed, then the speech effect when any of its dependencies changed. */
    method Render(newSlide: Option<ViewerSlide>, newIsAdView: bool, newIsPlaying: bool)
      requires Valid() && props.mounted
      modifies this`synth, this`session, this`view, this`props, this`spoken
      ensures Valid()
      ensures Screen(Speech(synth, session, view), props)
              == RenderStep(old(Screen(Speech(synth, session, view), props)), newSlide, newIsAdView, newIsPlaying)
    {
      var renderedIndex := view.currentPhraseIndex;
      var slideChanged := newSlide != props.slide || newIsAdView != props.isAdView;
      var syncNeeded := slideChanged || newIsPlaying != props.isPlaying;
      if slideChanged {
        OnSlideChange(newSlide, newIsAdView);
      }
      props := props.(isPlaying := newIsPlaying);
      if syncNeeded {
        Sync(renderedIndex);
      }
    }

    /** `onvoiceschanged` (and the first call at mount): select a voice when the list is not
        empty; a changed voice re-runs the speech effect. Does nothing once unmounted. */
    method VoicesChanged(voices: seq<Voice>)
      requires Valid()
      modifies this`synth, this`session, this`view, this`spoken
      ensures Valid()
      ensures Speech(synth, session, view) == VoicesUpdate(old(Speech(synth, session, view)), props, voices)
    {
      if !props.mounted || |voices| == 0 {
        return;
      }
      var best := SelectVoice(voices);
      if best != view.selectedVoice {
        view := view.(selectedVoice := best);
        Sync(view.currentPhraseIndex);
      }
    }
    /** `onstart` of utterance `id`. */
    method OnStart(id: nat)
      requires Valid()
      modifies this`session, this`view
      ensures Valid()
      ensures old(Heard(id)) ==>
        && view == old(view).(isSpeaking := true, currentPhraseIndex := 0, speechProgress := 0.01)
        && session == old(session).(cursor := Cursor(0, 0))
      ensures !old(Heard(id)) ==> view == old(view) && session == old(session)
    {
      if Heard(id) {
        view := view.(isSpeaking := true, currentPhraseIndex := 0, speechProgress := 0.01);
        session := session.(cursor := Cursor(0, 0));
      }
    }

    /** `onboundary` of utterance `id`: move the phrase cursor and highlight as `BoundaryStep`
        says, and set the progress from the spoken characters. */
    method OnBoundary(id: nat, name: string, charIndex: nat, charLength: nat)
      requires Valid()
      modifies this`session, this`view
      ensures Valid()
      ensures old(Heard(id)) ==>
        var u := old(session.current).value;
        var r := BoundaryStep(old(view.phrases), old(session.cursor), u.phraseIndexSnapshot, name,
                              charIndex);
        && session == old(session).(cursor := r.cursor)
        && view == old(view).(
             currentPhraseIndex := if r.highlight.Some? then r.highlight.value
                                   else old(view.currentPhraseIndex),
             speechProgress := SpokenFraction(charIndex, charLength, |u.text|))
      ensures !old(Heard(id)) ==> view == old(view) && session == old(session)
    {
      if Heard(id) {
        var u := session.current.value;
        var r := BoundaryStep(view.phrases, session.cursor, u.phraseIndexSnapshot, name, charIndex);
        session := session.(cursor := r.cursor);
        if r.highlight.Some? {
          view := view.(currentPhraseIndex := r.highlight.value);
        }
        if |u.text| > 0 {
          view := view.(speechProgress := SpokenFraction(charIndex, charLength, |u.text|));
        }
      }
    }

    /** `onend` of utterance `id`: the synthesizer is done with it; progress is full and one
        completion is scheduled for 300 ms later. */
    method OnEnd(id: nat)
      requires Valid()
      modifies this`synth, this`view, this`completions, this`signalled
      ensures Valid()
      ensures old(Heard(id)) ==>
        && synth == Synthesizer(None, false)
        && view == old(view).(isSpeaking := false, speechProgress := 1.0)
        && completions == old(completions).(pending := old(completions).pending + 1)
      ensures !old(Heard(id)) ==>
        synth == old(synth) && view == old(view) && completions == old(completions)
    {
      if Heard(id) {
        CompletionOnSignal(signalled, session.nextId, id, completions,
                           completions.(pending := completions.pending + 1));
        synth := synth.(queued := None);
        view := view.(isSpeaking := false, speechProgress := 1.0);
        completions := completions.(pending := completions.pending + 1);
        signalled := signalled + {id};
      }
    }

    /** The 300 ms timer set by `onend`: clear the highlight (ignored once unmounted) and call
        `onSpeechEnd`. */
    method TimerFire()
      requires Valid() && completions.pending > 0
      modifies this`view, this`completions
      ensures Valid()
      ensures completions == Completions(old(completions).pending - 1, old(completions).speechEnds + 1)
      ensures view == if props.mounted then old(view).(currentPhraseIndex := -1) else old(view)
    {
      if props.mounted {
        view := view.(currentPhraseIndex := -1);
      }
      completions := Completions(completions.pending - 1, completions.speechEnds + 1);
    }

    /** `onerror` of utterance `id`: reset the progress and highlight and call `onSpeechEnd`
        at once. */
    method OnError(id: nat)
      requires Valid()
      modifies this`synth, this`view, this`completions, this`signalled
      ensures Valid()
      ensures old(Heard(id)) ==>
        && synth == Synthesizer(None, false)
        && view == old(view).(isSpeaking := false, speechProgress := 0.0, currentPhraseIndex := -1)
        && completions == old(completions).(speechEnds := old(completions).speechEnds + 1)
      ensures !old(Heard(id)) ==>
        synth == old(synth) && view == old(view) && completions == old(completions)
    {
      if Heard(id) {
        CompletionOnSignal(signalled, session.nextId, id, completions,
                           completions.(speechEnds := completions.speechEnds + 1));
        synth := synth.(queued := None);
        view := view.(isSpeaking := false, speechProgress := 0.0, currentPhraseIndex := -1);
        completions := completions.(speechEnds := completions.speechEnds + 1);
        signalled := signalled + {id};
      }
    }

    /** Unmounting: cancel any session, detach and drop the utterance, stop listening for voices.
        Timers already set still fire. */
    method Teardown()
      requires Valid()
      modifies this`synth, this`session, this`props
      ensures Valid() && !props.mounted
      ensures synth == Cancelled(old(synth)) && session == old(session).(current := None, attached := false)
      ensures props == old(props).(mounted := false)
    {
      if synth.queued.Some? || synth.paused {
        synth := Cancelled(synth);
      }
      if session.current.Some? {
        session := session.(current := None, attached := false);
      }
      props := props.(mounted := false);
    }
  }
}
