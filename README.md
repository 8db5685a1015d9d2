# crux-search reel playback, in Dafny

crux-search turns a search query into a short narrated slideshow (a "reel"). Gemini answers a
grounded search and writes the slides. The browser's speech synthesizer reads each caption
aloud, phrase by phrase. The phrase being spoken is highlighted, and a story-style progress
bar fills as the speech advances.

This project models the logic behind that playback and proves what it promises:

- `text.dfy` (module `Text`): JavaScript's `trim()`, `split(/\s+/)` and `join(" ")` on
  strings. Whitespace is the ASCII part of `\s`.
- `types.dfy` (module `Types`): the records of `types.ts` (phrases, content and sponsored
  slides, grounding chunks, the processed search result).
- `phrases.dfy` (module `PhraseSegmenter`): `createPhrases`.
  - The method keeps the loop of the source, including the close test with its
    parenthesisation as written, the re-split word count, the final flush and the filter.
  - It is proved equal to a word-level specification, `PhrasesOf`.
  - The properties of the segmentation are proved about `PhrasesOf`.
- `voices.dfy` (module `VoiceSelector`): `loadVoices` and `PREFERRED_VOICE_NAMES`.
  - The method keeps the nested loops and early exits.
  - It is proved to return the answer of the first of 40 queries (the preferred names with
    `en-US`, then with `en-GB`, then with any `en` tag, then tag prefixes, then any voice).
  - That answer is proved to be the first voice of least rank.
- `narration.dfy` (module `Narration`): the slide-reset, speech and teardown effects and the
  utterance handlers of `ReelViewer`, as the class `ReelPlayback`.
  - The synthesizer is reduced to the utterance it holds and whether it is paused. The paused
    flag belongs to the synthesizer: `cancel()` empties it and keeps the flag, and an
    utterance given to `speak()` while paused waits, unheard, for `resume()`.
  - The class runs the speech effect as written. `SyncCorrected` and `SpeechEffectFixed` are
    the corrected effect of the finding below.
  - The speech effect, a render, the first commit and a voice-list change are also pure
    functions (`SpeechEffect`, `RenderStep`, `Mounted`, `VoicesUpdate`). Each method is proved
    to produce exactly their state, and the lemmas about them state what the effects promise.
  - The browser delivers utterance events by calling `OnStart`, `OnBoundary`, `OnEnd` and
    `OnError`.
  - `Render` runs the effects whose dependencies changed, slide reset first.
  - Each 300 ms `setTimeout` of `onend` is a pending completion that `TimerFire` discharges.
  - The class invariant says:
    - at most one utterance is in the synthesizer;
    - it is the stored one, with its handlers attached;
    - the boundary cursor sits at the start of one of its phrases;
    - the shown phrases are those of the narrated caption;
    - the highlight is -1 or names a phrase, and the progress lies in [0, 1];
    - every ended or failed utterance calls `onSpeechEnd` exactly once, either already or
      through a pending timer.
- `reel_view.dfy` (module `ReelView`): the progress-bar fill and the highlighted caption
  spans.
- `gemini.dfy` (module `GeminiService`), the post-processing around the Gemini requests:
  - `sanitizeJsonString`: the code-fence regular expression, stated on sequences;
  - the shape check and the mapping of the parsed slides;
  - the API-key guards;
  - the choice of the image URL.
  - The requests, `JSON.parse`, `Date.now` and `encodeURIComponent` are function
    parameters.
- `attribution.dfy` (module `AttributionLinks`): the filter of the grounding sources and
  when the list is drawn.
- `wrappers.dfy` (module `Wrappers`): `Option` and `Result`.

## Model

| member | source | states |
|---|---|---|
| Text.Trim | services/geminiService.ts:25 | the result of `trim()` neither starts nor ends with whitespace and is no longer than the input |
| Text.SplitWs | components/ReelViewer.tsx:26 | `split(/\s+/)` always gives at least one part |
| Text.JoinSpaces | components/ReelViewer.tsx:30 | `join(" ")` puts a separator between consecutive parts, so the text has at least one character fewer than parts, and is no shorter than its first part |
| Text.TrimIsSlice | components/ReelViewer.tsx:32 | `trim()` keeps the slice after the leading whitespace, and only whitespace follows that slice |
| Text.TrimOfTrimmed | services/geminiService.ts:29 | trimming a trimmed string changes nothing |
| Text.SplitWsShape | components/ReelViewer.tsx:26 | the parts of `split(/\s+/)` hold no whitespace; only the first and last can be empty; the first is empty only if the text starts with whitespace |
| Text.JoinWordsTrimmed | components/ReelViewer.tsx:30 | words joined with single spaces give non-empty text with no surrounding whitespace |
| Text.JoinAppend | components/ReelViewer.tsx:30 | joining two non-empty runs of words puts exactly one space between them |
| Text.SplitJoin | components/ReelViewer.tsx:31 | splitting words joined with single spaces gives the same words back |
| PhraseSegmenter.CreatePhrases | components/ReelViewer.tsx:24-40 | the loop as written returns exactly the specified phrases `PhrasesOf(caption)` |
| PhraseSegmenter.ClosesAsWritten | components/ReelViewer.tsx:31 | the close test as written closes a phrase before the last element only once it has at least three words |
| PhraseSegmenter.Segment | components/ReelViewer.tsx:29-35 | every group of words is non-empty, and there is at most one group more than words |
| PhraseSegmenter.PhrasesOf | components/ReelViewer.tsx:29-39 | the phrases carry only their text, with no start time or duration |
| PhraseSegmenter.KeepNonEmpty | components/ReelViewer.tsx:39 | `filter(p => p.text)` keeps only phrases with non-empty text, all from the input, and no more of them |
| PhraseSegmenter.ScanAdvance | components/ReelViewer.tsx:30-34 | whichever way the close test as written goes, one iteration keeps the loop invariant |
| PhraseSegmenter.ScanEnd | components/ReelViewer.tsx:36-38 | after the last element the open phrase is empty, so the final flush never adds a phrase |
| PhraseSegmenter.EmptyCaption | components/ReelViewer.tsx:25 | an empty caption has no phrases |
| PhraseSegmenter.WordsOf | components/ReelViewer.tsx:26 | the non-empty split parts are words, and there are none exactly when the caption is blank |
| PhraseSegmenter.SegmentConcat | components/ReelViewer.tsx:29-35 | segmentation neither loses, duplicates nor reorders words |
| PhraseSegmenter.SegmentGroupSizes | components/ReelViewer.tsx:31 | every phrase holds between one and six words |
| PhraseSegmenter.SegmentClosed | components/ReelViewer.tsx:31 | every phrase but the last was closed by a non-last word: at six words, or at three or more words, more than 15 characters and final punctuation |
| PhraseSegmenter.SegmentNotEarlier | components/ReelViewer.tsx:31 | no phrase could have closed earlier: the close test fails on each proper prefix |
| PhraseSegmenter.PhrasesOfCaption | components/ReelViewer.tsx:24-39 | no phrases exactly for a blank caption; each phrase is non-empty trimmed text of one to six words; the phrases joined with spaces are the caption's words joined with spaces |
| PhraseSegmenter.WordsOfJoined | components/ReelViewer.tsx:26 | the words of single-space-joined words are those words |
| PhraseSegmenter.PhrasesOfJoined | components/ReelViewer.tsx:24-39 | the phrases of single-space-joined words are the segmentation of those words |
| PhraseSegmenter.ShortPhraseOpen | components/ReelViewer.tsx:31 | a phrase never closes on its first or second word unless that word is the last |
| PhraseSegmenter.PlainWordsOpen | components/ReelViewer.tsx:31 | unpunctuated non-last words keep a phrase of fewer than six words open |
| PhraseSegmenter.SixThenThreeCaption | components/ReelViewer.tsx:31 | nine words with no punctuation in the first five make two phrases: six words, then three |
| PhraseSegmenter.ThreeThenThreeCaption | components/ReelViewer.tsx:31 | six words whose third ends in punctuation, with more than 15 characters in the first three, make two phrases of three |
| PhraseSegmenter.QuickBrownFoxExample | components/ReelViewer.tsx:29-38 | "The quick brown fox jumps over the lazy dog." gives "The quick brown fox jumps over" and "the lazy dog." |
| PhraseSegmenter.PunctuationExample | components/ReelViewer.tsx:31 | "Breaking news today, markets rallied strongly." closes after "today," |
| VoiceSelector.Find | components/ReelViewer.tsx:70 | `voices.find` returns the first matching voice, and nothing only when no voice matches |
| VoiceSelector.Choice | components/ReelViewer.tsx:63-88 | the chosen index, if any, names a voice of the list |
| VoiceSelector.Rank | components/ReelViewer.tsx:68-85 | a voice's rank is the first query of the priority list that it answers |
| VoiceSelector.FirstHitIsBest | components/ReelViewer.tsx:68-85 | the first n queries find a voice exactly when some voice ranks below n, and then they find the first voice of least rank |
| VoiceSelector.FirstHitStep | components/ReelViewer.tsx:70-71 | asking one more query keeps that answer |
| VoiceSelector.ChoiceIsBest | components/ReelViewer.tsx:63-88 | a voice is chosen exactly when the list is not empty, and it is the first voice of least rank |
| VoiceSelector.PrefersGoogleUsEnglish | components/ReelViewer.tsx:17-18 | "Google US English" with tag "en-US" is always the voice chosen when offered |
| VoiceSelector.PreferredNameFirst | components/ReelViewer.tsx:68-74 | if some preferred name has tag "en-US", the chosen voice has a preferred name |
| VoiceSelector.NamedQuery | components/ReelViewer.tsx:67-70 | the first 24 queries are each preferred name with "en-US", then each with "en-GB" |
| VoiceSelector.FallbackQueries | components/ReelViewer.tsx:76-85 | queries 24 to 39 are each preferred name with an "en" tag, then the "en-US", "en-GB" and "en" prefixes, then any voice |
| VoiceSelector.FirstHitFound | components/ReelViewer.tsx:71-73 | the first query that finds a voice decides the choice, whatever comes after it |
| VoiceSelector.SelectVoice | components/ReelViewer.tsx:63-89 | the nested loops return exactly the chosen voice, and nothing for an empty list |
| VoiceSelector.SelectFallback | components/ReelViewer.tsx:75-86 | after the exact-tag loops fail, the remaining tiers return exactly the chosen voice |
| Narration.OffsetIsJoinedLength | components/ReelViewer.tsx:158-159 | the accumulator after k phrases is one more than the length of those phrases joined with spaces |
| Narration.BoundaryStep | components/ReelViewer.tsx:155-167 | only a word event moves the cursor, by at most one phrase; when it moves, the accumulator grows by that phrase's length plus one; a highlight is always a phrase index; the cursor stays at a phrase start |
| Narration.SpokenFraction | components/ReelViewer.tsx:168-171 | the progress is `min((charIndex + charLength) / length, 1)`, so it lies in [0, 1] and is 1 exactly when the spoken end reaches the caption's end |
| Narration.CompletionOnSignal | components/ReelViewer.tsx:174-189 | ending or failing the heard utterance keeps every ended utterance calling `onSpeechEnd` exactly once |
| Narration.PhrasesFor | components/ReelViewer.tsx:97-102 | the slide-reset effect stores no phrases exactly when there is no content slide with a caption, or the caption is blank |
| Narration.SpeechEffectBlocked | components/ReelViewer.tsx:117-124 | with nothing to narrate the synthesizer is emptied without touching its paused flag, the handlers are detached, and the speaking flag and the progress are cleared |
| Narration.SpeechEffectPlaying | components/ReelViewer.tsx:127-192 | playing, the session is kept exactly when the synthesizer is paused on an utterance of the shown caption, which is then resumed; otherwise a fresh utterance of the caption with the selected voice replaces it and the synthesizer keeps its paused flag |
| Narration.SpeechEffectPausing | components/ReelViewer.tsx:193-200 | not playing, whatever the synthesizer holds is paused and never cancelled; session, highlight and progress are kept |
| Narration.SpeechEffectKeeps | components/ReelViewer.tsx:107-202 | the speech effect never changes the phrases, the voice or the highlight, keeps the progress unless blocked, and keeps one stored session |
| Narration.PlayHeardIff | components/ReelViewer.tsx:127-191 | playing, the utterance left is heard exactly when a resumed one was still queued, or a fresh one was spoken to a synthesizer that was not paused |
| Narration.PausedPlayStalls | components/ReelViewer.tsx:128-191 | pausing, moving to a slide with another caption and pressing play leaves the new utterance queued in a paused synthesizer, never heard |
| Narration.FixedPlayIsHeard | components/ReelViewer.tsx:127-191 | with `resume()` after a fresh `speak()`, and resuming only a still-queued utterance, playing always leaves a heard utterance of the shown caption |
| Narration.FixedAgreesUnpaused | components/ReelViewer.tsx:127-191 | the corrected effect differs from the source's only when the synthesizer is paused |
| Narration.MountedSpec | components/ReelViewer.tsx:55-202 | after the first commit: the initial slide's phrases, the chosen voice, not speaking, highlight -1, progress 0; utterance 0 is queued exactly when a voice was found, the slide has phrases and it is playing, heard only if the synthesizer was not left paused |
| Narration.RenderStepSpec | components/ReelViewer.tsx:97-202 | a render stores the props and the new slide's phrases and keeps the voice; a new slide clears highlight and progress; unchanged props change nothing; a play-flag change keeps the highlight, and the progress unless blocked; pausing keeps the utterance and its session, unheard |
| Narration.VoicesUpdateSpec | components/ReelViewer.tsx:63-202 | an empty list, an unmounted viewer or an unchanged choice change nothing; otherwise the chosen voice is selected, and a narration playing when it changes restarts with that voice unless paused on the caption |
| Narration.ReelPlayback.Mount | components/ReelViewer.tsx:55-202 | the state after the constructor is `Mounted` of the initial props, the synthesizer's paused flag and the voice list, and it is valid with nothing ended |
| Narration.ReelPlayback.MountEffects | components/ReelViewer.tsx:62-202 | the first commit's effects, in order (voice, slide reset, speech with no voice, then speech again once a voice is set), leave exactly the state `Mounted` describes |
| Narration.ReelPlayback.OnSlideChange | components/ReelViewer.tsx:97-105 | the phrases become those of the narrated caption (none for an advert or an empty caption); highlight -1, progress 0; nothing else changes |
| Narration.ReelPlayback.CancelAndDetach | components/ReelViewer.tsx:108-121 | `cancel()` empties the synthesizer and keeps its paused flag; the stored utterance's handlers are detached |
| Narration.ReelPlayback.SpeakNew | components/ReelViewer.tsx:138-191 | a fresh utterance of the caption with the selected voice and fresh counters becomes the only one in the synthesizer; it waits unheard if the synthesizer is paused |
| Narration.ReelPlayback.Sync | components/ReelViewer.tsx:107-202 | the effect leaves exactly the state `SpeechEffect` gives from the state before it, and keeps the class invariant |
| Narration.ReelPlayback.SyncCorrected | components/ReelViewer.tsx:127-191 | the corrected speech effect leaves exactly the state `SpeechEffectFixed` gives; playing a narratable slide, the stored utterance of the shown caption is then heard |
| Narration.ReelPlayback.Render | components/ReelViewer.tsx:97-202 | the render leaves exactly the state and props `RenderStep` gives from those before it, and keeps the class invariant |
| Narration.ReelPlayback.VoicesChanged | components/ReelViewer.tsx:63-93 | the handler leaves exactly the state `VoicesUpdate` gives, and keeps the class invariant |
| Narration.ReelPlayback.OnStart | components/ReelViewer.tsx:147-153 | speaking, highlight 0, progress 0.01, cursor reset; ignored unless the utterance is heard |
| Narration.ReelPlayback.OnBoundary | components/ReelViewer.tsx:155-172 | the cursor and highlight move as `BoundaryStep` says, and the progress is `SpokenFraction`; ignored unless heard |
| Narration.ReelPlayback.OnEnd | components/ReelViewer.tsx:174-181 | the synthesizer is empty and not paused, not speaking, progress 1, and exactly one completion is pending more; ignored unless heard |
| Narration.ReelPlayback.TimerFire | components/ReelViewer.tsx:177-180 | highlight -1 while mounted, and `onSpeechEnd` is called once |
| Narration.ReelPlayback.OnError | components/ReelViewer.tsx:183-189 | the synthesizer is empty and not paused, not speaking, progress 0, highlight -1, and `onSpeechEnd` is called at once; ignored unless heard |
| Narration.ReelPlayback.Teardown | components/ReelViewer.tsx:205-218 | `cancel()` empties the synthesizer and keeps its paused flag; the utterance is detached and dropped; the component is unmounted |
| ReelView.ProgressBarSegments | components/ReelViewer.tsx:235-242 | one segment per slide (one if none); earlier segments full, later empty; the current one is full for an advert with a slide, empty when paused, and otherwise exactly the larger of the progress and 5% while the image loads |
| ReelView.ProgressBarMonotone | components/ReelViewer.tsx:235-242 | with progress in [0, 1] every segment lies in [0, 100] and the bar never fills further right |
| ReelView.Fill | components/ReelViewer.tsx:235-242 | segments other than the current one are empty or full; with progress in [0, 1] every fill lies in [0, 100] |
| ReelView.ProgressBar | components/ReelViewer.tsx:235 | the bar has one segment per slide, and always at least one |
| ReelView.CaptionSpans | components/ReelViewer.tsx:309-317 | one span per phrase, each showing at least its phrase's text |
| ReelView.CaptionView | components/ReelViewer.tsx:307-319 | the spans are drawn exactly for a content slide with phrases, one per phrase |
| ReelView.HighlightUnique | components/ReelViewer.tsx:309-317 | one span per phrase; at most one is highlighted, and one is exactly when the index names a phrase |
| ReelView.ShownIsJoined | components/ReelViewer.tsx:309-317 | the spans read as the phrase texts joined with single spaces |
| ReelView.CaptionShowsWords | components/ReelViewer.tsx:309-317 | a narrated caption is drawn as its words separated by single spaces |
| GeminiService.WordRun | services/geminiService.ts:26 | the greedy `\w*` takes the longest prefix of word characters |
| GeminiService.SpaceRun | services/geminiService.ts:26 | the greedy `\s*` takes the longest prefix of whitespace |
| GeminiService.Sanitize | services/geminiService.ts:24-32 | the result is always trimmed |
| GeminiService.FenceParts | services/geminiService.ts:26 | a fenced text splits into fence, tag, whitespace, body, whitespace, fence; the tag takes as many word characters and the gap as much whitespace as possible; the body has no surrounding whitespace |
| GeminiService.SanitizeUnfenced | services/geminiService.ts:25-31 | text not wrapped in a fence comes back merely trimmed |
| GeminiService.SanitizeEmptyBody | services/geminiService.ts:28 | a fenced text with an empty body comes back merely trimmed |
| GeminiService.SanitizeFenced | services/geminiService.ts:28-29 | a fenced text with a body comes back as exactly that body |
| GeminiService.SanitizeRoundTrip | services/geminiService.ts:24-32 | trimmed JSON wrapped in a fence with a language tag comes back unchanged |
| GeminiService.WordOnlyFenceKept | services/geminiService.ts:26-29 | a fence around word characters only (such as "```true```") is left as it is |
| GeminiService.CheckElements | services/geminiService.ts:90 | every element passes exactly when all are slide objects; otherwise the first failing element gives the cause |
| GeminiService.MapSlidesFields | services/geminiService.ts:94-98 | one slide per element, in order; caption and prompt copied; the id copied when non-empty, else a non-empty fallback |
| GeminiService.MapSlides | services/geminiService.ts:94-98 | one slide per element, each with a non-empty id and no image yet |
| GeminiService.ReadSlides | services/geminiService.ts:88-103 | every failure is a parse failure; a success read a parsed array, one slide per element |
| GeminiService.SearchAndGenerate | services/geminiService.ts:34-104 | no request exactly when the key is missing; at most two requests, and slides only after both |
| GeminiService.ImageForPrompt | services/geminiService.ts:106-124 | one image request with a key and none without; a failure is a missing key or a rejected request; a URL is never empty |
| GeminiService.ReadSlidesSpec | services/geminiService.ts:88-103 | slides are read exactly when the text parses to an array of slide objects; every failure is a parse failure; `[]` gives no slides |
| GeminiService.SearchAndGenerateSpec | services/geminiService.ts:34-104 | no request without a key; a rejected search fails with `RequestFailed` after that one request; an empty search stops after it; otherwise two requests, and then a rejected script request fails with `RequestFailed`, a missing text with `MissingResponseText`, else the slides read from the sanitized text with the search's grounding, or the read's error |
| GeminiService.ImageForPromptSpec | services/geminiService.ts:106-124 | no request without a key; otherwise one request, which fails with `RequestFailed` exactly when it rejects; an answer always gives a URL: the data URL of the first image's bytes, or the placeholder for the prompt |
| AttributionLinks.ValidChunks | components/AttributionLinks.tsx:13 | the filter keeps exactly the chunks with a non-empty uri and title |
| AttributionLinks.ValidChunksAppend | components/AttributionLinks.tsx:13 | filtering a concatenation filters each part, so order is kept |
| AttributionLinks.ValidChunksAllValid | components/AttributionLinks.tsx:13 | a list of valid chunks is kept whole |
| AttributionLinks.RenderSpec | components/AttributionLinks.tsx:9-36 | nothing is drawn exactly when no chunk is valid; otherwise one link per valid chunk, href = uri, text = title, which is never empty |
| AttributionLinks.RenderIgnoresInvalid | components/AttributionLinks.tsx:13-17 | an invalid chunk anywhere in the list does not change what is drawn |
| AttributionLinks.Render | components/AttributionLinks.tsx:9-36 | when drawn, the list has between one link and one per chunk, and every link has an address and a non-empty text |

## Left out

- The Web Speech API is reduced to the utterance in the synthesizer and its paused flag.
  - Audio, timing and the voice list's loading are not modelled.
  - Events arrive only for the utterance being heard. Events of a cancelled utterance reach
    handlers that are already detached, so they are dropped.
  - The rate 1.15 and pitch 1.0 are not modelled; nothing depends on them.
  - A voice is reduced to its name and language tag.
  - The synthesizer is shared by the whole page, so it may still be paused from an earlier
    viewer when this one mounts. That flag is the `pausedAtMount` parameter of `Mount`.
- React's scheduling is not modelled. Each effect is a method run when its dependencies
  change, slide reset before speech.
  - `onSpeechEnd` is taken to be stable, so the speech effect does not re-run for it.
  - Render, VoicesChanged: React compares effect dependencies and state updates by reference
    (`Object.is`). The model compares slides and voices by value. A parent that passes a new
    slide object equal to the old one re-runs the slide-reset and speech effects in the source
    but not here. A voice list that yields an equal but distinct voice object re-runs the
    speech effect in the source but not here.
  - What the parent does in `onSpeechEnd` is not modelled; calls are only counted.
  - A state update after unmount is dropped, as React drops it.
- The Gemini requests, their prompts, model names and configuration, the `GoogleGenAI`
  client and the `process.env` key lookup are not modelled.
  - Each request is a function parameter that answers or rejects. A rejection, whatever its
    cause, is the error `RequestFailed`.
  - The script request is identified by the query and the search text it is built from.
- `JSON.parse`, `Date.now` and `encodeURIComponent` are function parameters.
  - The text of thrown error messages is not modelled; each error is a `GeminiError` value.
  - A missing response text makes `trim()` throw a `TypeError` in the source. It is the
    error `MissingResponseText` here.
  - The grounding metadata is read straight from the search response, not from
    `candidates?.[0]`.
- Whitespace is the ASCII part of `\s`, for `split`, `trim` and the fence pattern. Unicode
  spaces are not modelled.
- Characters are Unicode scalar values, while JavaScript lengths count UTF-16 code units. For
  characters outside the Basic Multilingual Plane the model therefore differs in three places:
  - the caption length used for the progress (components/ReelViewer.tsx:169-170);
  - the `currentPhrase.length > 15` part of the close test (components/ReelViewer.tsx:31);
  - the phrase lengths the boundary cursor adds up (components/ReelViewer.tsx:158-159).
- JavaScript numbers that no property depends on (phrase timings) and the progress are exact
  reals. Rounding and the formatting of widths as CSS strings are not modelled.
- The JSX markup is not modelled, other than the progress bar and the caption spans:
  - the tap zones, the image and its placeholder, the advert block;
  - the "Search to generate a reel." placeholder.
- `LoadingState` in types.ts is not modelled; the modelled code does not use it.
- `console.error` and `console.log` calls and the advert call-to-action click handler are
  not modelled.
- components/SearchBar.tsx, components/ErrorDisplay.tsx, components/LoadingSpinner.tsx and
  components/Ads.tsx are not part of this model. They are presentation and UI glue.

## Findings

| source | as written | input that shows it | evidently intended | confidence | as-written member | corrected member |
|---|---|---|---|---|---|---|
| components/ReelViewer.tsx:128-191 | the speech effect resumes only a paused utterance of the same caption; otherwise it calls `cancel()` and `speak()` but never `resume()`, and `cancel()` leaves the synthesizer paused | play slide A, press pause, move to slide B whose caption differs, press play | the new utterance is heard, its events arrive and the reel advances | medium, not executed (relies on `cancel()` not clearing the paused flag, as the Web Speech API specifies) | Narration.PausedPlayStalls | Narration.FixedPlayIsHeard |
