/** What the reel viewer draws from its state (components/ReelViewer.tsx): the story progress
    bar and the caption split into highlightable phrase spans. Widths are exact reals; the
    rendering of a width as a CSS percentage string is not modelled. */
module ReelView {
  import opened Wrappers
  import opened Text
  import opened Types
  import opened PhraseSegmenter

  function Max(a: real, b: real): real
  {
    if a >= b then a else b
  }

  /** `slide?.imageUrl` is truthy. */
  predicate HasImageUrl(slide: Option<ViewerSlide>)
  {
    slide.Some? && slide.value.ImageUrl().Some? && slide.value.ImageUrl().value != ""
  }

  /** Number of bar segments: one per slide, and one when there are none. */
  function SegmentCount(totalSlides: int): nat
  {
    if totalSlides > 0 then totalSlides else 1
  }

  /** Fill percentage of segment `index` (0-based) when slide `currentSlideNumber` (1-based) is
      shown. */
  function Fill(index: nat, currentSlideNumber: int, isAdView: bool, slide: Option<ViewerSlide>,
                isPlaying: bool, speechProgress: real, isLoadingImage: bool): (f: real)
    ensures index != currentSlideNumber - 1 ==> f == 0.0 || f == 100.0
    ensures 0.0 <= speechProgress <= 1.0 ==> 0.0 <= f <= 100.0
  {
    if index < currentSlideNumber - 1 then 100.0
    else if index == currentSlideNumber - 1 then
      var width := if isAdView || !isPlaying then 0.0
        else Max(speechProgress * 100.0, if isLoadingImage && HasImageUrl(slide) then 5.0 else 0.0);
      if isAdView && slide.Some? then 100.0 else width
    else 0.0
  }

  function ProgressBar(totalSlides: int, currentSlideNumber: int, isAdView: bool,
                       slide: Option<ViewerSlide>, isPlaying: bool, speechProgress: real,
                       isLoadingImage: bool): (bar: seq<real>)
    ensures |bar| == SegmentCount(totalSlides) >= 1
  {
    seq(SegmentCount(totalSlides), i requires 0 <= i < SegmentCount(totalSlides) =>
      Fill(i, currentSlideNumber, isAdView, slide, isPlaying, speechProgress, isLoadingImage))
  }

  /** The bar has one segment per slide (one when there are none); segments before the current
      one are full, those after it empty; the current one is full for a shown advert, empty for a
      paused content slide, and otherwise the speech progress, at least 5% while its image loads. */
  lemma ProgressBarSegments(totalSlides: int, currentSlideNumber: int, isAdView: bool,
                            slide: Option<ViewerSlide>, isPlaying: bool, speechProgress: real,
                            isLoadingImage: bool)
    ensures var bar := ProgressBar(totalSlides, currentSlideNumber, isAdView, slide, isPlaying,
                                   speechProgress, isLoadingImage);
      && |bar| == (if totalSlides > 0 then totalSlides else 1)
      && (forall i :: 0 <= i < |bar| && i < currentSlideNumber - 1 ==> bar[i] == 100.0)
      && (forall i :: 0 <= i < |bar| && i > currentSlideNumber - 1 ==> bar[i] == 0.0)
      && (0 <= currentSlideNumber - 1 < |bar| ==>
            var f := bar[currentSlideNumber - 1];
            && (isAdView && slide.Some? ==> f == 100.0)
            && (isAdView && slide.None? ==> f == 0.0)
            && (!isAdView && !isPlaying ==> f == 0.0)
            && (!isAdView && isPlaying ==>
                  f >= speechProgress * 100.0
                  && (isLoadingImage && HasImageUrl(slide) ==> f >= 5.0)
                  && (f == speechProgress * 100.0 || f == 5.0 || f == 0.0)
                  && f == Max(speechProgress * 100.0,
                              if isLoadingImage && HasImageUrl(slide) then 5.0 else 0.0)))
  {
  }

  /** With progress in [0, 1] every segment is between empty and full and the bar never fills
      further to the right. */
  lemma ProgressBarMonotone(totalSlides: int, currentSlideNumber: int, isAdView: bool,
                            slide: Option<ViewerSlide>, isPlaying: bool, speechProgress: real,
                            isLoadingImage: bool)
    requires 0.0 <= speechProgress <= 1.0
    ensures var bar := ProgressBar(totalSlides, currentSlideNumber, isAdView, slide, isPlaying,
                                   speechProgress, isLoadingImage);
      && (forall i :: 0 <= i < |bar| ==> 0.0 <= bar[i] <= 100.0)
      && (forall i, j :: 0 <= i <= j < |bar| ==> bar[i] >= bar[j])
  {
  }

  /** One caption phrase as drawn: its text, a separating space unless it is the last, and
      whether it is highlighted. */
  datatype Span = Span(text: string, active: bool)

  function CaptionSpans(phrases: seq<Phrase>, currentPhraseIndex: int): (spans: seq<Span>)
    ensures |spans| == |phrases|
    ensures forall k :: 0 <= k < |spans| ==> |spans[k].text| >= |phrases[k].text|
  {
    seq(|phrases|, k requires 0 <= k < |phrases| =>
      Span(phrases[k].text + (if k < |phrases| - 1 then " " else ""), k == currentPhraseIndex))
  }

  /** The phrase spans are drawn only for a content slide that has phrases. */
  function CaptionView(isAdView: bool, slide: Option<ViewerSlide>, phrases: seq<Phrase>,
                       currentPhraseIndex: int): (r: Option<seq<Span>>)
    ensures r.Some? <==> !isAdView && slide.Some? && phrases != []
    ensures r.Some? ==> |r.value| == |phrases|
  {
    if !isAdView && slide.Some? && |phrases| > 0 then Some(CaptionSpans(phrases, currentPhraseIndex))
    else None
  }

  /** The text the spans show, read left to right. */
  function Shown(spans: seq<Span>): string
  {
    if spans == [] then "" else Shown(spans[..|spans| - 1]) + spans[|spans| - 1].text
  }

  /** At most one span is highlighted, and one is exactly when the index names a phrase. */
  lemma HighlightUnique(phrases: seq<Phrase>, currentPhraseIndex: int)
    ensures var spans := CaptionSpans(phrases, currentPhraseIndex);
      && |spans| == |phrases|
      && (forall i, j :: 0 <= i < j < |spans| ==> !(spans[i].active && spans[j].active))
      && ((exists i :: 0 <= i < |spans| && spans[i].active) <==> 0 <= currentPhraseIndex < |phrases|)
  {
    var spans := CaptionSpans(phrases, currentPhraseIndex);
    if 0 <= currentPhraseIndex < |phrases| {
      assert spans[currentPhraseIndex].active;
    }
  }

  lemma {:induction false} ShownPrefix(phrases: seq<Phrase>, idx: int, k: nat)
    requires k < |phrases|
    ensures Shown(CaptionSpans(phrases, idx)[..k + 1])
         == JoinSpaces(Texts(phrases)[..k + 1]) + (if k < |phrases| - 1 then " " else "")
  {
    var spans := CaptionSpans(phrases, idx);
    var texts := Texts(phrases);
    assert spans[..k + 1][..k] == spans[..k];
    assert texts[..k + 1][..k] == texts[..k];
    if k == 0 {
      assert spans[..0] == [];
    } else {
      ShownPrefix(phrases, idx, k - 1);
    }
  }

  /** The spans read as the phrase texts joined with single spaces. */
  lemma ShownIsJoined(phrases: seq<Phrase>, idx: int)
    ensures Shown(CaptionSpans(phrases, idx)) == JoinSpaces(Texts(phrases))
  {
    var spans := CaptionSpans(phrases, idx);
    if phrases != [] {
      ShownPrefix(phrases, idx, |phrases| - 1);
      assert spans[..|phrases|] == spans;
      assert Texts(phrases)[..|phrases|] == Texts(phrases);
    }
  }

  /** A narrated caption is drawn as its words separated by single spaces, whatever whitespace
      the caption had. */
  lemma CaptionShowsWords(caption: string, idx: int)
    ensures Shown(CaptionSpans(PhrasesOf(caption), idx)) == JoinSpaces(Words(caption))
  {
    ShownIsJoined(PhrasesOf(caption), idx);
    PhrasesOfCaption(caption);
  }
}
