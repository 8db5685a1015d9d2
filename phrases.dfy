/** The phrase segmenter of the reel viewer (`createPhrases`, components/ReelViewer.tsx): it
    splits a caption into the chunks that are highlighted one after another while the caption
    is narrated. */
module PhraseSegmenter {
  import opened Wrappers
  import opened Text
  import opened Types

  /** `/[.,!?;:]$/`: the word ends in one of six punctuation marks. */
  predicate EndsWithPunctuation(w: string)
  {
    w != [] && w[|w| - 1] in ".,!?;:"
  }

  /** The test that closes the open phrase once word run g (ending with the current word) is
      in it, with the source's parenthesisation: (at least 3 words, more than 15 characters,
      not the last word, and punctuation) or the last word or at least 6 words. */
  predicate ClosesPhrase(g: seq<string>, isLast: bool)
  {
    (|g| >= 3 && |JoinSpaces(g)| > 15 && !isLast && EndsWithPunctuation(g[|g| - 1]))
    || isLast || |g| >= 6
  }

  /** The non-empty elements of ws, in order. */
  function NonEmpty(ws: seq<string>): seq<string>
  {
    if ws == [] then [] else (if ws[0] == "" then [] else [ws[0]]) + NonEmpty(ws[1..])
  }

  /** The words of a caption: the non-empty parts of `caption.split(/\s+/)`. */
  function Words(caption: string): seq<string>
  {
    NonEmpty(SplitWs(caption))
  }

  /** Word-level segmentation: scan ws left to right, adding each word to the open phrase and
      closing the phrase whenever `ClosesPhrase` holds; `open` is the phrase opened before ws. */
  function Segment(ws: seq<string>, open: seq<string>): (gs: seq<seq<string>>)
    ensures forall k :: 0 <= k < |gs| ==> gs[k] != []
    ensures |gs| <= |ws| + 1
    decreases |ws|
  {
    if ws == [] then (if open == [] then [] else [open])
    else
      var g := open + [ws[0]];
      if ClosesPhrase(g, |ws| == 1) then [g] + Segment(ws[1..], []) else Segment(ws[1..], g)
  }

  function ToPhrases(gs: seq<seq<string>>): seq<Phrase>
  {
    seq(|gs|, k requires 0 <= k < |gs| => Phrase(JoinSpaces(gs[k]), None, None))
  }

  function Texts(ps: seq<Phrase>): seq<string>
  {
    seq(|ps|, k requires 0 <= k < |ps| => ps[k].text)
  }

  /** The phrases of a caption, as the segmenter is specified. */
  function PhrasesOf(caption: string): (ps: seq<Phrase>)
    ensures forall k :: 0 <= k < |ps| ==> ps[k].startTime.None? && ps[k].duration.None?
  {
    ToPhrases(Segment(Words(caption), []))
  }

  /** `phrases.filter(p => p.text)`. */
  function KeepNonEmpty(ps: seq<Phrase>): (r: seq<Phrase>)
    ensures |r| <= |ps|
    ensures forall k :: 0 <= k < |r| ==> r[k].text != "" && r[k] in ps
  {
    if ps == [] then []
    else KeepNonEmpty(ps[..|ps| - 1]) + (if ps[|ps| - 1].text == "" then [] else [ps[|ps| - 1]])
  }

  function Concat(gs: seq<seq<string>>): seq<string>
  {
    if gs == [] then [] else gs[0] + Concat(gs[1..])
  }

  lemma NonEmptyFrom(ws: seq<string>, i: nat)
    requires i < |ws|
    ensures NonEmpty(ws[i..]) == (if ws[i] == "" then [] else [ws[i]]) + NonEmpty(ws[i + 1..])
  {
    assert ws[i..][1..] == ws[i + 1..];
  }

  lemma KeepNonEmptySnoc(ps: seq<Phrase>, p: Phrase)
    ensures KeepNonEmpty(ps + [p]) == KeepNonEmpty(ps) + (if p.text == "" then [] else [p])
  {
    assert (ps + [p])[..|ps|] == ps;
  }

  lemma ToPhrasesCons(g: seq<string>, gs: seq<seq<string>>)
    ensures ToPhrases([g] + gs) == [Phrase(JoinSpaces(g), None, None)] + ToPhrases(gs)
  {
  }

  /** One word of the scan: when more words follow, the phrase closes exactly when the close
      test holds; on the last word it makes no difference whether the phrase is closed now or
      left open to be closed at the end. */
  lemma SegmentWordStep(w: string, rest: seq<string>, open: seq<string>, closes: bool)
    requires rest != [] ==> closes == ClosesPhrase(open + [w], false)
    ensures ToPhrases(Segment([w] + rest, open)) ==
      if closes then [Phrase(JoinSpaces(open + [w]), None, None)] + ToPhrases(Segment(rest, []))
      else ToPhrases(Segment(rest, open + [w]))
  {
    assert ([w] + rest)[1..] == rest;
    var g := open + [w];
    if rest == [] {
      assert Segment([w] + rest, open) == [g];
    } else if closes {
      ToPhrasesCons(g, Segment(rest, []));
    }
  }

  lemma AppendAssoc<T>(a: seq<T>, b: seq<T>, c: seq<T>)
    ensures (a + b) + c == a + (b + c)
  {
  }

  lemma LastStep(open: seq<string>)
    ensures ToPhrases(Segment([], open)) == if open == [] then [] else [Phrase(JoinSpaces(open), None, None)]
  {
  }

  /** The close test of `createPhrases` as written, on the open phrase `current` after
      `words[i]` was appended to it. */
  predicate ClosesAsWritten(current: string, words: seq<string>, i: nat)
    requires i < |words|
    ensures ClosesAsWritten(current, words, i) && i < |words| - 1 ==> |SplitWs(current)| >= 3
  {
    (|SplitWs(current)| >= 3 && |current| > 15 && (i < |words| - 1 && EndsWithPunctuation(words[i])))
    || i == |words| - 1 || |SplitWs(current)| >= 6
  }

  /** The open phrase after appending element w of the split (an empty element adds nothing). */
  function Grow(open: seq<string>, w: string): seq<string>
  {
    if w == "" then open else open + [w]
  }

  /** What the split of a caption guarantees about its elements. */
  predicate SplitShape(words: seq<string>)
  {
    && (forall k :: 0 <= k < |words| ==> NoSpace(words[k]))
    && (forall k :: 0 < k < |words| - 1 ==> words[k] != "")
  }

  /** An empty element of the split: it is the first (and changes nothing) or the last (and
      closes the open phrase, whose trimmed text is that phrase's words). */
  lemma ScanEmptyElement(words: seq<string>, i: nat, open: seq<string>, current: string)
    requires i < |words| && SplitShape(words) && words[i] == ""
    requires AllWords(open) && (i == 0 ==> open == [])
    requires current == JoinSpaces(open) + (if open != [] then " " else "")
    ensures var closes := ClosesAsWritten(current, words, i);
      && (!closes ==> open == [] && current == "")
      && ToPhrases(Segment(NonEmpty(words[i..]), open)) ==
           (if closes && Trim(current) != "" then [Phrase(Trim(current), None, None)] else [])
           + ToPhrases(Segment(NonEmpty(words[i + 1..]), if closes then [] else open))
  {
    NonEmptyFrom(words, i);
    assert i == 0 || i == |words| - 1;
    if i == |words| - 1 {
      assert words[i + 1..] == [];
      LastStep(open);
      if open != [] {
        JoinWordsTrimmed(open);
        TrimTrailingSpaces(JoinSpaces(open), " ");
      }
    } else {
      assert current == "" && SplitWs(current) == [""];
      assert !ClosesAsWritten(current, words, i);
      assert NonEmpty(words[i..]) == NonEmpty(words[i + 1..]);
    }
  }

  /** A word of the split: the open phrase grows by it, the test as written agrees with the
      word-level close test, and the phrase text pushed is that phrase's words joined. */
  lemma ScanWord(words: seq<string>, i: nat, open: seq<string>, current: string)
    requires i < |words| && SplitShape(words) && words[i] != ""
    requires AllWords(open)
    requires current == JoinSpaces(open) + (if open != [] then " " else "") + words[i]
    ensures var closes := ClosesAsWritten(current, words, i);
      && AllWords(open + [words[i]]) && current == JoinSpaces(open + [words[i]])
      && Trim(current) == current != ""
      && ToPhrases(Segment(NonEmpty(words[i..]), open)) ==
           (if closes then [Phrase(current, None, None)] else [])
           + ToPhrases(Segment(NonEmpty(words[i + 1..]), if closes then [] else open + [words[i]]))
  {
    var w := words[i];
    var g := open + [w];
    var rest := NonEmpty(words[i + 1..]);
    NonEmptyFrom(words, i);
    assert IsWord(w);
    if open != [] {
      JoinSnoc(open, w);
    }
    assert current == JoinSpaces(g);
    SplitJoin(g);
    JoinWordsTrimmed(g);
    TrimOfTrimmed(current);
    assert rest != [] ==> i < |words| - 1;
    SegmentWordStep(w, rest, open, ClosesAsWritten(current, words, i));
  }

  /** One iteration of the scan, on the open phrase `current` after `words[i]` was appended
      to the text `prev` of the phrase opened before: when the close test as written holds,
      pushing the trimmed phrase and starting afresh leaves the filtered phrases plus the
      segmentation of what remains unchanged. */
  lemma ScanClose(words: seq<string>, i: nat, open: seq<string>, pushed: seq<Phrase>,
                  prev: string, current: string)
    requires i < |words| && SplitShape(words)
    requires AllWords(open) && (i == 0 ==> open == []) && prev == JoinSpaces(open)
    requires current == prev + (if prev != "" then " " else "") + words[i]
    requires ClosesAsWritten(current, words, i)
    ensures KeepNonEmpty(pushed + [Phrase(Trim(current), None, None)])
            + ToPhrases(Segment(NonEmpty(words[i + 1..]), []))
         == KeepNonEmpty(pushed) + ToPhrases(Segment(NonEmpty(words[i..]), open))
  {
    ScanPieces(words, i, open, prev, current);
    var emitted: seq<Phrase> := if Trim(current) != "" then [Phrase(Trim(current), None, None)] else [];
    var rest := ToPhrases(Segment(NonEmpty(words[i + 1..]), []));
    var p := Phrase(Trim(current), None, None);
    KeepNonEmptySnoc(pushed, p);
    AppendAssoc(KeepNonEmpty(pushed), emitted, rest);
  }

  /** The same iteration when the close test as written fails: the element joins the open
      phrase, which stays a run of words whose text is `current`; this never happens on the
      last element. */
  lemma ScanKeep(words: seq<string>, i: nat, open: seq<string>, pushed: seq<Phrase>,
                 prev: string, current: string)
    requires i < |words| && SplitShape(words)
    requires AllWords(open) && (i == 0 ==> open == []) && prev == JoinSpaces(open)
    requires current == prev + (if prev != "" then " " else "") + words[i]
    requires !ClosesAsWritten(current, words, i)
    ensures i < |words| - 1
    ensures AllWords(Grow(open, words[i])) && current == JoinSpaces(Grow(open, words[i]))
    ensures KeepNonEmpty(pushed) + ToPhrases(Segment(NonEmpty(words[i + 1..]), Grow(open, words[i])))
         == KeepNonEmpty(pushed) + ToPhrases(Segment(NonEmpty(words[i..]), open))
  {
    ScanPieces(words, i, open, prev, current);
  }

  /** Both cases of an iteration in terms of the word-level segmentation. */
  lemma ScanPieces(words: seq<string>, i: nat, open: seq<string>, prev: string, current: string)
    requires i < |words| && SplitShape(words)
    requires AllWords(open) && (i == 0 ==> open == []) && prev == JoinSpaces(open)
    requires current == prev + (if prev != "" then " " else "") + words[i]
    ensures ClosesAsWritten(current, words, i) ==>
      ToPhrases(Segment(NonEmpty(words[i..]), open)) ==
        (if Trim(current) != "" then [Phrase(Trim(current), None, None)] else [])
        + ToPhrases(Segment(NonEmpty(words[i + 1..]), []))
    ensures !ClosesAsWritten(current, words, i) ==>
      && AllWords(Grow(open, words[i])) && current == JoinSpaces(Grow(open, words[i]))
      && ToPhrases(Segment(NonEmpty(words[i..]), open))
         == ToPhrases(Segment(NonEmpty(words[i + 1..]), Grow(open, words[i])))
  {
    if open != [] {
      JoinWordsTrimmed(open);
    }
    assert prev != "" <==> open != [];
    if words[i] == "" {
      assert current == JoinSpaces(open) + (if open != [] then " " else "");
      ScanEmptyElement(words, i, open, current);
    } else {
      ScanWord(words, i, open, current);
    }
  }

  /** The loop invariant of `createPhrases`: after `i` elements of the split, `open` is the
      phrase opened so far and `current` its text, and the phrases kept so far plus the
      segmentation of the remaining words are the phrases of the whole caption. */
  predicate Scanned(words: seq<string>, i: nat, open: seq<string>, pushed: seq<Phrase>,
                    current: string, target: seq<Phrase>)
  {
    && i <= |words| && SplitShape(words)
    && AllWords(open) && current == JoinSpaces(open)
    && (i == 0 ==> open == [])
    && (i == |words| ==> open == [])
    && KeepNonEmpty(pushed) + ToPhrases(Segment(NonEmpty(words[i..]), open)) == target
  }

  lemma ScanStart(caption: string)
    ensures Scanned(SplitWs(caption), 0, [], [], "", PhrasesOf(caption))
  {
    var words := SplitWs(caption);
    SplitWsShape(caption);
    assert SplitShape(words);
    assert words[0..] == words;
    assert KeepNonEmpty([]) == [];
    assert PhrasesOf(caption) == ToPhrases(Segment(NonEmpty(words[0..]), []));
  }

  /** After the last element nothing is open and the phrases kept are all of them. */
  lemma ScanEnd(words: seq<string>, i: nat, open: seq<string>, pushed: seq<Phrase>,
                current: string, target: seq<Phrase>)
    requires Scanned(words, i, open, pushed, current, target) && i >= |words|
    ensures current == "" && Trim(current) == "" && KeepNonEmpty(pushed) == target
  {
    assert words[|words|..] == [];
    assert ToPhrases(Segment(NonEmpty([]), [])) == [];
    assert KeepNonEmpty(pushed) + [] == KeepNonEmpty(pushed);
  }

  /** One iteration keeps the invariant, whichever way the close test as written goes. */
  lemma ScanAdvance(words: seq<string>, i: nat, open: seq<string>, pushed: seq<Phrase>,
                    prev: string, current: string, target: seq<Phrase>)
    requires i < |words| && Scanned(words, i, open, pushed, prev, target)
    requires current == prev + (if prev != "" then " " else "") + words[i]
    ensures ClosesAsWritten(current, words, i) ==>
      Scanned(words, i + 1, [], pushed + [Phrase(Trim(current), None, None)], "", target)
    ensures !ClosesAsWritten(current, words, i) ==>
      Scanned(words, i + 1, Grow(open, words[i]), pushed, current, target)
  {
    if ClosesAsWritten(current, words, i) {
      ScanClose(words, i, open, pushed, prev, current);
    } else {
      ScanKeep(words, i, open, pushed, prev, current);
    }
  }

  /** The body of the loop of `createPhrases`: element i joins the open phrase, which is
      pushed trimmed and restarted when the close test as written holds. */
  method ScanElement(words: seq<string>, i: nat, current: string, pushed: seq<Phrase>,
                     ghost open: seq<string>, ghost target: seq<Phrase>)
    returns (current': string, pushed': seq<Phrase>, ghost open': seq<string>)
    requires i < |words| && Scanned(words, i, open, pushed, current, target)
    ensures Scanned(words, i + 1, open', pushed', current', target)
  {
    var grown := current + (if current != "" then " " else "") + words[i];
    ScanAdvance(words, i, open, pushed, current, grown, target);
    if ClosesAsWritten(grown, words, i) {
      pushed' := pushed + [Phrase(Trim(grown), None, None)];
      current' := "";
      open' := [];
    } else {
      pushed' := pushed;
      current' := grown;
      open' := Grow(open, words[i]);
    }
  }

  /** `createPhrases(caption)`, as written: the caption is split on whitespace runs, each
      element is appended to the open phrase, the close test counts the words of the open
      phrase by splitting it again, the trailing remainder is flushed and empty phrases are
      filtered out. It returns exactly the specified segmentation. */
  method CreatePhrases(caption: string) returns (phrases: seq<Phrase>)
    ensures phrases == PhrasesOf(caption)
  {
    if |caption| == 0 {
      EmptyCaption(caption);
      return [];
    }
    var words := SplitWs(caption);
    var pushed: seq<Phrase> := [];
    var current := "";
    ghost var open: seq<string> := [];
    ghost var target := PhrasesOf(caption);
    ScanStart(caption);
    var i := 0;
    while i < |words|
      invariant Scanned(words, i, open, pushed, current, target)
    {
      current, pushed, open := ScanElement(words, i, current, pushed, open, target);
      i := i + 1;
    }
    ScanEnd(words, i, open, pushed, current, target);
    if Trim(current) != "" {
      pushed := pushed + [Phrase(Trim(current), None, None)];
    }
    phrases := KeepNonEmpty(pushed);
  }

  lemma EmptyCaption(caption: string)
    requires |caption| == 0
    ensures PhrasesOf(caption) == []
  {
    assert SplitWs(caption) == [""];
  }

  // ---------------------------------------------------------------------------------------
  // Properties of the segmentation

  lemma {:induction false} NonEmptyOfWords(ws: seq<string>)
    requires AllWords(ws)
    ensures NonEmpty(ws) == ws
  {
    if ws != [] {
      NonEmptyOfWords(ws[1..]);
      assert [ws[0]] + ws[1..] == ws;
    }
  }

  lemma {:induction false} NonEmptyAreWords(ws: seq<string>)
    requires forall k :: 0 <= k < |ws| ==> NoSpace(ws[k])
    ensures AllWords(NonEmpty(ws))
    ensures NonEmpty(ws) == [] <==> forall k :: 0 <= k < |ws| ==> ws[k] == ""
  {
    if ws != [] {
      NonEmptyAreWords(ws[1..]);
      assert forall k :: 1 <= k < |ws| ==> ws[k] == ws[1..][k - 1];
    }
  }

  /** Only whitespace splits into nothing but empty elements. */
  lemma {:induction false} SplitBlank(s: string)
    ensures (forall k :: 0 <= k < |SplitWs(s)| ==> SplitWs(s)[k] == "") <==> AllSpace(s)
    decreases |s|
  {
    if s != [] {
      SplitBlank(s[1..]);
      assert AllSpace(s) <==> IsSpace(s[0]) && AllSpace(s[1..]) by {
        assert forall k :: 1 <= k < |s| ==> s[k] == s[1..][k - 1];
      }
      if IsSpace(s[0]) {
        var rest := SplitWs(s[1..]);
        if |s| > 1 && IsSpace(s[1]) {
          assert SplitWs(s) == rest;
        } else {
          assert SplitWs(s) == [""] + rest;
          assert forall k :: 1 <= k < |SplitWs(s)| ==> SplitWs(s)[k] == rest[k - 1];
          if |s| > 1 {
            assert s[1..][0] == s[1] && rest[0] != "";
            assert SplitWs(s)[1] != "" && !IsSpace(s[1]);
          } else {
            assert s[1..] == [] && rest == [""];
          }
        }
      } else {
        assert SplitWs(s)[0] != "";
      }
    }
  }

  /** The words of a caption are words, and there are none exactly when the caption is blank. */
  lemma WordsOf(caption: string)
    ensures AllWords(Words(caption))
    ensures Words(caption) == [] <==> AllSpace(caption)
  {
    SplitWsShape(caption);
    NonEmptyAreWords(SplitWs(caption));
    SplitBlank(caption);
    assert Words(caption) == NonEmpty(SplitWs(caption));
  }

  /** Segmentation neither loses, duplicates nor reorders words. */
  lemma {:induction false} SegmentConcat(ws: seq<string>, open: seq<string>)
    ensures Concat(Segment(ws, open)) == open + ws
    decreases |ws|
  {
    if ws == [] {
      if open != [] {
        assert Concat([open]) == open + Concat([open][1..]);
      }
    } else {
      var g := open + [ws[0]];
      assert g + ws[1..] == open + ws;
      if ClosesPhrase(g, |ws| == 1) {
        SegmentConcat(ws[1..], []);
        assert ([g] + Segment(ws[1..], []))[1..] == Segment(ws[1..], []);
      } else {
        SegmentConcat(ws[1..], g);
      }
    }
  }

  /** Every phrase holds between one and six words. */
  lemma {:induction false} SegmentGroupSizes(ws: seq<string>, open: seq<string>)
    requires |open| <= 5 && AllWords(ws) && AllWords(open)
    ensures forall k :: 0 <= k < |Segment(ws, open)| ==>
      1 <= |Segment(ws, open)[k]| <= 6 && AllWords(Segment(ws, open)[k])
    decreases |ws|
  {
    if ws != [] {
      var g := open + [ws[0]];
      if ClosesPhrase(g, |ws| == 1) {
        SegmentGroupSizes(ws[1..], []);
      } else {
        SegmentGroupSizes(ws[1..], g);
      }
    }
  }

  /** Every phrase but the last was closed by the close test on a word that is not the last:
      six words, or at least three words, more than 15 characters and final punctuation. */
  lemma {:induction false} SegmentClosed(ws: seq<string>, open: seq<string>)
    ensures forall k :: 0 <= k < |Segment(ws, open)| - 1 ==> ClosesPhrase(Segment(ws, open)[k], false)
    decreases |ws|
  {
    if ws != [] {
      var g := open + [ws[0]];
      if ClosesPhrase(g, |ws| == 1) {
        SegmentClosed(ws[1..], []);
        if |ws| == 1 {
          assert Segment(ws[1..], []) == [];
        }
      } else {
        SegmentClosed(ws[1..], g);
      }
    }
  }

  /** No phrase could have been closed earlier: the close test fails on every proper prefix. */
  lemma {:induction false} SegmentNotEarlier(ws: seq<string>, open: seq<string>)
    requires forall j :: 0 < j <= |open| ==> !ClosesPhrase(open[..j], false)
    ensures forall k, j :: 0 <= k < |Segment(ws, open)| && 0 < j < |Segment(ws, open)[k]| ==>
      !ClosesPhrase(Segment(ws, open)[k][..j], false)
    decreases |ws|
  {
    if ws != [] {
      var g := open + [ws[0]];
      assert forall j :: 0 < j <= |open| ==> g[..j] == open[..j];
      if ClosesPhrase(g, |ws| == 1) {
        SegmentNotEarlier(ws[1..], []);
      } else {
        assert g[..|g|] == g;
        SegmentNotEarlier(ws[1..], g);
      }
    }
  }

  /** The phrase texts joined with single spaces are the groups' words joined likewise. */
  lemma {:induction false} JoinGroups(gs: seq<seq<string>>)
    requires forall k :: 0 <= k < |gs| ==> gs[k] != []
    ensures JoinSpaces(Texts(ToPhrases(gs))) == JoinSpaces(Concat(gs))
  {
    if |gs| == 1 {
      assert Texts(ToPhrases(gs)) == [JoinSpaces(gs[0])];
      assert Concat(gs) == gs[0] + Concat(gs[1..]);
      assert gs[0] + [] == gs[0];
    } else if |gs| > 1 {
      var rest := gs[1..];
      JoinGroups(rest);
      assert Texts(ToPhrases(gs)) == [JoinSpaces(gs[0])] + Texts(ToPhrases(rest));
      JoinAppend([JoinSpaces(gs[0])], Texts(ToPhrases(rest)));
      assert Concat(rest) == rest[0] + Concat(rest[1..]);
      JoinAppend(gs[0], Concat(rest));
    }
  }

  /** What `createPhrases` promises its caller: an empty caption has no phrases and a blank one
      none either; every phrase is non-empty trimmed text of one to six words; the phrases
      joined with single spaces are the caption's words joined with single spaces. */
  lemma PhrasesOfCaption(caption: string)
    ensures caption == "" ==> PhrasesOf(caption) == []
    ensures PhrasesOf(caption) == [] <==> AllSpace(caption)
    ensures forall k :: 0 <= k < |PhrasesOf(caption)| ==>
      var t := PhrasesOf(caption)[k].text;
      t != "" && IsTrimmed(t) && 1 <= |SplitWs(t)| <= 6
    ensures JoinSpaces(Texts(PhrasesOf(caption))) == JoinSpaces(Words(caption))
  {
    var ws := Words(caption);
    var gs := Segment(ws, []);
    WordsOf(caption);
    SegmentGroupSizes(ws, []);
    SegmentConcat(ws, []);
    assert [] + ws == ws;
    if ws != [] {
      assert Concat(gs) != [];
    }
    forall k | 0 <= k < |gs|
      ensures var t := PhrasesOf(caption)[k].text; t != "" && IsTrimmed(t) && 1 <= |SplitWs(t)| <= 6
    {
      JoinWordsTrimmed(gs[k]);
      SplitJoin(gs[k]);
    }
    JoinGroups(gs);
  }

  /** Words of a caption written with single spaces are exactly those words. */
  lemma WordsOfJoined(ws: seq<string>)
    requires ws != [] && AllWords(ws)
    ensures Words(JoinSpaces(ws)) == ws
  {
    SplitJoin(ws);
    NonEmptyOfWords(ws);
  }

  /** One step of `Segment` on a word followed by the rest of the words. */
  lemma SegmentUnfold(w: string, rest: seq<string>, open: seq<string>)
    ensures Segment([w] + rest, open) ==
      if ClosesPhrase(open + [w], rest == []) then [open + [w]] + Segment(rest, [])
      else Segment(rest, open + [w])
  {
    assert ([w] + rest)[1..] == rest;
  }

  /** Words joined with single spaces, for three words. */
  lemma JoinThree(a: string, b: string, c: string)
    ensures JoinSpaces([a, b, c]) == a + " " + b + " " + c
  {
    JoinSnoc([a], b);
    assert [a] + [b] == [a, b];
    JoinSnoc([a, b], c);
    assert [a, b] + [c] == [a, b, c];
  }

  lemma JoinSix(a: string, b: string, c: string, d: string, e: string, f: string)
    ensures JoinSpaces([a, b, c, d, e, f]) == JoinSpaces([a, b, c]) + " " + JoinSpaces([d, e, f])
  {
    JoinAppend([a, b, c], [d, e, f]);
    assert [a, b, c] + [d, e, f] == [a, b, c, d, e, f];
  }

  lemma JoinNine(a: string, b: string, c: string, d: string, e: string, f: string,
                 g: string, h: string, i: string)
    ensures JoinSpaces([a, b, c, d, e, f, g, h, i])
         == JoinSpaces([a, b, c, d, e, f]) + " " + JoinSpaces([g, h, i])
  {
    JoinAppend([a, b, c, d, e, f], [g, h, i]);
    assert [a, b, c, d, e, f] + [g, h, i] == [a, b, c, d, e, f, g, h, i];
  }

  /** A phrase never closes on its first or second word unless that word is the last one. */
  lemma ShortPhraseOpen(w: string, rest: seq<string>, open: seq<string>)
    requires rest != [] && |open| < 2
    ensures Segment([w] + rest, open) == Segment(rest, open + [w])
  {
    SegmentUnfold(w, rest, open);
  }

  /** A word without punctuation that neither is last nor makes six words keeps the phrase
      open. */
  lemma PlainWordOpen(w: string, rest: seq<string>, open: seq<string>)
    requires rest != [] && |open| < 5 && !EndsWithPunctuation(w)
    ensures Segment([w] + rest, open) == Segment(rest, open + [w])
  {
    SegmentUnfold(w, rest, open);
  }

  /** Three final words form one phrase. */
  lemma LastThreeWords(a: string, b: string, c: string)
    ensures Segment([a, b, c], []) == [[a, b, c]]
  {
    ShortPhraseOpen(a, [b, c], []);
    assert [a] + [b, c] == [a, b, c] && [] + [a] == [a];
    ShortPhraseOpen(b, [c], [a]);
    assert [b] + [c] == [b, c] && [a] + [b] == [a, b];
    SegmentUnfold(c, [], [a, b]);
    assert [c] + [] == [c] && [a, b] + [c] == [a, b, c];
  }

  /** Words without punctuation that leave the phrase short of six words and are not the last
      keep it open. */
  lemma {:induction false} PlainWordsOpen(ws: seq<string>, rest: seq<string>, open: seq<string>)
    requires rest != [] && |open| + |ws| <= 5
    requires forall k :: 0 <= k < |ws| ==> !EndsWithPunctuation(ws[k])
    ensures Segment(ws + rest, open) == Segment(rest, open + ws)
    decreases |ws|
  {
    if ws == [] {
      assert ws + rest == rest && open + ws == open;
    } else {
      assert ws + rest == [ws[0]] + (ws[1..] + rest);
      PlainWordOpen(ws[0], ws[1..] + rest, open);
      PlainWordsOpen(ws[1..], rest, open + [ws[0]]);
      assert open + [ws[0]] + ws[1..] == open + ws;
    }
  }

  /** Nine words of which the first five carry no punctuation: six, then three. */
  lemma SixThenThree(a: string, b: string, c: string, d: string, e: string, f: string,
                     g: string, h: string, i: string)
    requires !EndsWithPunctuation(a) && !EndsWithPunctuation(b) && !EndsWithPunctuation(c)
    requires !EndsWithPunctuation(d) && !EndsWithPunctuation(e)
    ensures Segment([a, b, c, d, e, f, g, h, i], []) == [[a, b, c, d, e, f], [g, h, i]]
  {
    var five := [a, b, c, d, e];
    var rest := [f] + [g, h, i];
    assert [a, b, c, d, e, f, g, h, i] == five + rest;
    PlainWordsOpen(five, rest, []);
    assert [] + five == five;
    SegmentUnfold(f, [g, h, i], five);
    assert five + [f] == [a, b, c, d, e, f];
    LastThreeWords(g, h, i);
  }

  /** Three words ending in punctuation and longer than 15 characters, then three final
      words: two phrases of three. */
  lemma ThreeThenThree(a: string, b: string, c: string, d: string, e: string, f: string)
    requires EndsWithPunctuation(c) && |a| + |b| + |c| + 2 > 15
    ensures Segment([a, b, c, d, e, f], []) == [[a, b, c], [d, e, f]]
  {
    var g2 := [d, e, f];
    JoinThree(a, b, c);
    assert ClosesPhrase([a, b, c], false);
    assert [a, b, c, d, e, f] == [a] + ([b, c] + g2);
    ShortPhraseOpen(a, [b, c] + g2, []);
    assert [] + [a] == [a];
    assert [b, c] + g2 == [b] + ([c] + g2);
    ShortPhraseOpen(b, [c] + g2, [a]);
    assert [a] + [b] == [a, b];
    SegmentUnfold(c, g2, [a, b]);
    assert [a, b] + [c] == [a, b, c];
    LastThreeWords(d, e, f);
  }

  /** Phrases of a caption written with single spaces: the segmentation of its words. */
  lemma PhrasesOfJoined(ws: seq<string>)
    requires ws != [] && AllWords(ws)
    ensures PhrasesOf(JoinSpaces(ws)) == ToPhrases(Segment(ws, []))
  {
    WordsOfJoined(ws);
  }

  /** A caption of nine words whose first five carry no punctuation has two phrases: the
      first six words and the last three. */
  lemma SixThenThreeCaption(a: string, b: string, c: string, d: string, e: string, f: string,
                            g: string, h: string, i: string)
    requires AllWords([a, b, c, d, e, f, g, h, i])
    requires !EndsWithPunctuation(a) && !EndsWithPunctuation(b) && !EndsWithPunctuation(c)
    requires !EndsWithPunctuation(d) && !EndsWithPunctuation(e)
    ensures PhrasesOf(JoinSpaces([a, b, c, d, e, f, g, h, i]))
         == [Phrase(JoinSpaces([a, b, c, d, e, f]), None, None), Phrase(JoinSpaces([g, h, i]), None, None)]
  {
    PhrasesOfJoined([a, b, c, d, e, f, g, h, i]);
    SixThenThree(a, b, c, d, e, f, g, h, i);
  }

  /** A caption of six words whose third ends in punctuation, with the first three longer than
      15 characters when joined, has two phrases of three words. */
  lemma ThreeThenThreeCaption(a: string, b: string, c: string, d: string, e: string, f: string)
    requires AllWords([a, b, c, d, e, f])
    requires EndsWithPunctuation(c) && |a| + |b| + |c| + 2 > 15
    ensures PhrasesOf(JoinSpaces([a, b, c, d, e, f]))
         == [Phrase(JoinSpaces([a, b, c]), None, None), Phrase(JoinSpaces([d, e, f]), None, None)]
  {
    PhrasesOfJoined([a, b, c, d, e, f]);
    ThreeThenThree(a, b, c, d, e, f);
  }

  lemma FoxOpening()
    ensures JoinSpaces(["The", "quick", "brown"]) == "The quick brown"
    ensures JoinSpaces(["fox", "jumps", "over"]) == "fox jumps over"
  {
    JoinThree("The", "quick", "brown");
    JoinThree("fox", "jumps", "over");
  }

  lemma FoxTexts()
    ensures JoinSpaces(["The", "quick", "brown", "fox", "jumps", "over"]) == "The quick brown fox jumps over"
    ensures JoinSpaces(["the", "lazy", "dog."]) == "the lazy dog."
  {
    FoxOpening();
    JoinSix("The", "quick", "brown", "fox", "jumps", "over");
    JoinThree("the", "lazy", "dog.");
  }

  lemma FoxCaption()
    ensures JoinSpaces(["The", "quick", "brown", "fox", "jumps", "over", "the", "lazy", "dog."])
         == "The quick brown fox jumps over the lazy dog."
  {
    FoxTexts();
    JoinNine("The", "quick", "brown", "fox", "jumps", "over", "the", "lazy", "dog.");
  }

  /** Six words close a phrase even without punctuation; the rest flushes at the last word. */
  lemma QuickBrownFoxExample()
    ensures PhrasesOf("The quick brown fox jumps over the lazy dog.")
         == [Phrase("The quick brown fox jumps over", None, None), Phrase("the lazy dog.", None, None)]
  {
    FoxCaption();
    FoxTexts();
    FoxWords();
    SixThenThreeCaption("The", "quick", "brown", "fox", "jumps", "over", "the", "lazy", "dog.");
  }

  lemma FoxWords()
    ensures AllWords(["The", "quick", "brown", "fox", "jumps", "over", "the", "lazy", "dog."])
    ensures !EndsWithPunctuation("The") && !EndsWithPunctuation("quick")
    ensures !EndsWithPunctuation("brown") && !EndsWithPunctuation("fox")
    ensures !EndsWithPunctuation("jumps")
  {
  }

  lemma BreakingTexts()
    ensures JoinSpaces(["Breaking", "news", "today,"]) == "Breaking news today,"
    ensures JoinSpaces(["markets", "rallied", "strongly."]) == "markets rallied strongly."
  {
    JoinThree("Breaking", "news", "today,");
    JoinThree("markets", "rallied", "strongly.");
  }

  lemma BreakingCaption()
    ensures JoinSpaces(["Breaking", "news", "today,", "markets", "rallied", "strongly."])
         == "Breaking news today, markets rallied strongly."
  {
    BreakingTexts();
    JoinSix("Breaking", "news", "today,", "markets", "rallied", "strongly.");
  }

  /** Punctuation closes a phrase of three words and more than 15 characters before the last
      word; the rest flushes at the last word. */
  lemma PunctuationExample()
    ensures PhrasesOf("Breaking news today, markets rallied strongly.")
         == [Phrase("Breaking news today,", None, None), Phrase("markets rallied strongly.", None, None)]
  {
    BreakingCaption();
    BreakingTexts();
    BreakingWords();
    ThreeThenThreeCaption("Breaking", "news", "today,", "markets", "rallied", "strongly.");
  }

  lemma BreakingWords()
    ensures AllWords(["Breaking", "news", "today,", "markets", "rallied", "strongly."])
    ensures EndsWithPunctuation("today,") && |"Breaking"| + |"news"| + |"today,"| + 2 > 15
  {
  }
}
