/** Choosing the narration voice (`loadVoices` in components/ReelViewer.tsx). The browser's
    voice list is an input; a voice is reduced to the two attributes the choice looks at. */
module VoiceSelector {
  import opened Wrappers

  datatype Voice = Voice(name: string, lang: string)

  /** The voices the reel prefers, best first. */
  const PreferredVoiceNames: seq<string> := [
    "Google US English", "Microsoft Zira - English (United States)",
    "Microsoft David - English (United States)",
    "Google UK English Female", "Google UK English Male",
    "Microsoft Hazel - English (Great Britain)", "Microsoft George - English (Great Britain)",
    "Alex", "Samantha", "Daniel", "Tessa", "Fiona"
  ]

  /** The language tags tried for a preferred name, in order. */
  const LangPreferences: seq<string> := ["en-US", "en-GB"]

  predicate StartsWith(s: string, prefix: string)
  {
    |prefix| <= |s| && s[..|prefix|] == prefix
  }

  /** One `voices.find` predicate of the selection. */
  datatype Query =
    | NamedWithLang(name: string, lang: string)
    | NamedEnglish(name: string)
    | LangPrefix(prefix: string)
    | AnyVoice

  predicate Matches(q: Query, v: Voice)
  {
    match q
    case NamedWithLang(name, lang) => v.name == name && v.lang == lang
    case NamedEnglish(name) => v.name == name && StartsWith(v.lang, "en")
    case LangPrefix(prefix) => StartsWith(v.lang, prefix)
    case AnyVoice => true
  }

  const QueryCount := 40

  /** The selection as a priority list of 40 queries: every preferred name with "en-US", then
      every preferred name with "en-GB", then every preferred name with any "en" tag, then any
      "en-US", "en-GB" or "en" tag, then the first voice at all. */
  function QueryAt(k: nat): Query
    requires k < QueryCount
  {
    if k < 12 then NamedWithLang(PreferredVoiceNames[k], "en-US")
    else if k < 24 then NamedWithLang(PreferredVoiceNames[k - 12], "en-GB")
    else if k < 36 then NamedEnglish(PreferredVoiceNames[k - 24])
    else if k == 36 then LangPrefix("en-US")
    else if k == 37 then LangPrefix("en-GB")
    else if k == 38 then LangPrefix("en")
    else AnyVoice
  }

  function Queries(): (qs: seq<Query>)
    ensures |qs| == QueryCount
  {
    seq(QueryCount, k requires 0 <= k < QueryCount => QueryAt(k))
  }

  /** `voices.find(q)`, as the index of the first voice the query matches. */
  function Find(vs: seq<Voice>, q: Query): (r: Option<nat>)
    ensures r.Some? ==> r.value < |vs| && Matches(q, vs[r.value])
    ensures r.Some? ==> forall j :: 0 <= j < r.value ==> !Matches(q, vs[j])
    ensures r.None? ==> forall j :: 0 <= j < |vs| ==> !Matches(q, vs[j])
  {
    if vs == [] then None
    else if Matches(q, vs[0]) then Some(0)
    else
      match Find(vs[1..], q)
      case None => None
      case Some(i) => Some(i + 1)
  }

  /** The answer of the first of the first `n` queries of qs that finds a voice. */
  function FirstHit(vs: seq<Voice>, qs: seq<Query>, n: nat): (r: Option<nat>)
    requires n <= |qs|
    ensures r.Some? ==> r.value < |vs|
  {
    if n == 0 then None
    else
      var earlier := FirstHit(vs, qs, n - 1);
      if earlier.Some? then earlier else Find(vs, qs[n - 1])
  }

  /** The index of the voice `loadVoices` selects, if any. */
  function Choice(vs: seq<Voice>): (r: Option<nat>)
    ensures r.Some? ==> r.value < |vs|
  {
    FirstHit(vs, Queries(), QueryCount)
  }

  function VoiceAt(vs: seq<Voice>, i: Option<nat>): Option<Voice>
    requires i.Some? ==> i.value < |vs|
  {
    match i
    case None => None
    case Some(k) => Some(vs[k])
  }

  /** A priority list whose last query accepts every voice. */
  predicate Total(qs: seq<Query>)
  {
    qs != [] && qs[|qs| - 1] == AnyVoice
  }

  /** The position of the first query of qs a voice answers. */
  function Rank(v: Voice, qs: seq<Query>): (r: nat)
    requires Total(qs)
    ensures r < |qs| && Matches(qs[r], v)
    ensures forall k :: 0 <= k < r ==> !Matches(qs[k], v)
  {
    RankFrom(v, qs, 0)
  }

  function RankFrom(v: Voice, qs: seq<Query>, k: nat): (r: nat)
    requires Total(qs) && k < |qs|
    requires forall j :: 0 <= j < k ==> !Matches(qs[j], v)
    ensures k <= r < |qs| && Matches(qs[r], v)
    ensures forall j :: 0 <= j < r ==> !Matches(qs[j], v)
    decreases |qs| - k
  {
    if Matches(qs[k], v) || k == |qs| - 1 then k else RankFrom(v, qs, k + 1)
  }

  /** Among voices of least rank, `voices[i]` comes first. */
  predicate IsBest(vs: seq<Voice>, qs: seq<Query>, i: nat)
    requires Total(qs)
  {
    i < |vs| &&
    forall j :: 0 <= j < |vs| ==>
      Rank(vs[i], qs) < Rank(vs[j], qs) || (Rank(vs[i], qs) == Rank(vs[j], qs) && i <= j)
  }

  /** No voice answers any of the first k queries. */
  predicate RankAtLeast(vs: seq<Voice>, qs: seq<Query>, k: nat)
    requires Total(qs)
  {
    forall j :: 0 <= j < |vs| ==> Rank(vs[j], qs) >= k
  }

  /** A voice that answers none of the first k queries ranks k exactly when it answers the
      k-th. */
  lemma RankMatch(v: Voice, qs: seq<Query>, k: nat)
    requires Total(qs) && k < |qs| && Rank(v, qs) >= k
    ensures Rank(v, qs) == k <==> Matches(qs[k], v)
  {
  }

  /** When every voice ranks at least k and none answers query k, every voice ranks above k. */
  lemma NoneAnswers(vs: seq<Voice>, qs: seq<Query>, k: nat)
    requires Total(qs) && k < |qs|
    requires RankAtLeast(vs, qs, k)
    requires Find(vs, qs[k]).None?
    ensures RankAtLeast(vs, qs, k + 1)
  {
    forall j | 0 <= j < |vs|
      ensures Rank(vs[j], qs) >= k + 1
    {
      RankMatch(vs[j], qs, k);
    }
  }

  /** When every voice ranks at least k, the first voice answering query k is the first voice
      of least rank. */
  lemma FirstAnswer(vs: seq<Voice>, qs: seq<Query>, k: nat, i: nat)
    requires Total(qs) && k < |qs|
    requires RankAtLeast(vs, qs, k)
    requires Find(vs, qs[k]) == Some(i)
    ensures i < |vs| && Rank(vs[i], qs) == k && IsBest(vs, qs, i)
  {
    RankMatch(vs[i], qs, k);
    forall j | 0 <= j < i
      ensures Rank(vs[j], qs) > k
    {
      RankMatch(vs[j], qs, k);
    }
  }

  /** The first `n` queries find a voice exactly when some voice ranks below `n`, and then
      they find the first voice of least rank. */
  lemma {:induction false} FirstHitIsBest(vs: seq<Voice>, qs: seq<Query>, n: nat)
    requires Total(qs) && n <= |qs|
    ensures FirstHit(vs, qs, n).None? <==> RankAtLeast(vs, qs, n)
    ensures FirstHit(vs, qs, n).Some? ==>
      Rank(vs[FirstHit(vs, qs, n).value], qs) < n && IsBest(vs, qs, FirstHit(vs, qs, n).value)
  {
    if n > 0 {
      FirstHitIsBest(vs, qs, n - 1);
      FirstHitStep(vs, qs, n);
    }
  }

  /** One more query keeps the answer of FirstHitIsBest. */
  lemma FirstHitStep(vs: seq<Voice>, qs: seq<Query>, n: nat)
    requires Total(qs) && 0 < n <= |qs|
    requires FirstHit(vs, qs, n - 1).None? <==> RankAtLeast(vs, qs, n - 1)
    requires FirstHit(vs, qs, n - 1).Some? ==>
      Rank(vs[FirstHit(vs, qs, n - 1).value], qs) < n - 1
      && IsBest(vs, qs, FirstHit(vs, qs, n - 1).value)
    ensures FirstHit(vs, qs, n).None? <==> RankAtLeast(vs, qs, n)
    ensures FirstHit(vs, qs, n).Some? ==>
      Rank(vs[FirstHit(vs, qs, n).value], qs) < n && IsBest(vs, qs, FirstHit(vs, qs, n).value)
  {
    var earlier := FirstHit(vs, qs, n - 1);
    if earlier.None? {
      var found := Find(vs, qs[n - 1]);
      assert FirstHit(vs, qs, n) == found;
      if found.None? {
        NoneAnswers(vs, qs, n - 1);
      } else {
        FirstAnswer(vs, qs, n - 1, found.value);
      }
    } else {
      assert FirstHit(vs, qs, n) == earlier;
    }
  }

  lemma QueriesTotal()
    ensures Total(Queries()) && |Queries()| == QueryCount
  {
    assert Queries()[QueryCount - 1] == QueryAt(QueryCount - 1);
  }

  /** A voice is chosen exactly when there is one, and it is the first voice of least rank. */
  lemma ChoiceIsBest(vs: seq<Voice>)
    ensures Total(Queries())
    ensures Choice(vs).None? <==> vs == []
    ensures Choice(vs).Some? ==> IsBest(vs, Queries(), Choice(vs).value)
  {
    QueriesTotal();
    FirstHitIsBest(vs, Queries(), QueryCount);
    if vs != [] {
      assert Rank(vs[0], Queries()) < QueryCount;
    }
  }

  /** If "Google US English" is offered with tag "en-US", that is the voice chosen. */
  lemma PrefersGoogleUsEnglish(vs: seq<Voice>, j: nat)
    requires j < |vs| && vs[j] == Voice("Google US English", "en-US")
    ensures VoiceAt(vs, Choice(vs)) == Some(Voice("Google US English", "en-US"))
  {
    ChoiceIsBest(vs);
    assert Queries()[0] == NamedWithLang("Google US English", "en-US");
    assert Matches(Queries()[0], vs[j]);
    var i := Choice(vs).value;
    assert Rank(vs[i], Queries()) == 0;
  }

  /** A preferred name with a US tag beats every voice whose name is not preferred. */
  lemma PreferredNameFirst(vs: seq<Voice>, j: nat)
    requires j < |vs| && vs[j].name in PreferredVoiceNames && vs[j].lang == "en-US"
    ensures Choice(vs).Some?
    ensures vs[Choice(vs).value].name in PreferredVoiceNames
  {
    ChoiceIsBest(vs);
    var k :| 0 <= k < 12 && PreferredVoiceNames[k] == vs[j].name;
    NamedQuery(0, k);
    assert Matches(Queries()[k], vs[j]);
    var i := Choice(vs).value;
    var r := Rank(vs[i], Queries());
    assert r < 12;
    NamedQuery(0, r);
  }

  lemma {:induction false} FirstHitStable(vs: seq<Voice>, qs: seq<Query>, n: nat, m: nat)
    requires n <= m <= |qs| && FirstHit(vs, qs, n).Some?
    ensures FirstHit(vs, qs, m) == FirstHit(vs, qs, n)
    decreases m - n
  {
    if n < m {
      FirstHitStable(vs, qs, n, m - 1);
    }
  }

  /** Asking one more query after none has found a voice gives that query's answer. */
  lemma FirstHitNext(vs: seq<Voice>, qs: seq<Query>, asked: nat)
    requires asked < |qs| && FirstHit(vs, qs, asked).None?
    ensures FirstHit(vs, qs, asked + 1) == Find(vs, qs[asked])
  {
  }

  /** The first 24 queries are the preferred names with each language tag in turn. */
  lemma NamedQuery(li: nat, ni: nat)
    requires li < |LangPreferences| && ni < |PreferredVoiceNames|
    ensures 12 * li + ni < 24
    ensures Queries()[12 * li + ni] == NamedWithLang(PreferredVoiceNames[ni], LangPreferences[li])
  {
    assert Queries()[12 * li + ni] == QueryAt(12 * li + ni);
  }

  /** The first query that finds a voice stays the answer whatever is asked after it. */
  lemma FirstHitFound(vs: seq<Voice>, asked: nat, found: Option<nat>)
    requires asked < QueryCount && FirstHit(vs, Queries(), asked).None?
    requires found == Find(vs, Queries()[asked]) && found.Some?
    ensures Choice(vs) == found
  {
    FirstHitNext(vs, Queries(), asked);
    FirstHitStable(vs, Queries(), asked + 1, QueryCount);
  }

  /** `loadVoices`: nothing when the list is empty; otherwise the preferred names with an exact
      "en-US" tag, then with "en-GB", then with any "en" tag, then the first voice with an
      "en-US", "en-GB" or "en" tag, then the first voice. */
  method SelectVoice(voices: seq<Voice>) returns (best: Option<Voice>)
    ensures best == VoiceAt(voices, Choice(voices))
  {
    best := None;
    if |voices| == 0 {
      ChoiceIsBest(voices);
      return;
    }
    var li := 0;
    while li < |LangPreferences|
      invariant 0 <= li <= |LangPreferences|
      invariant FirstHit(voices, Queries(), 12 * li).None?
    {
      var ni := 0;
      while ni < |PreferredVoiceNames|
        invariant 0 <= ni <= |PreferredVoiceNames|
        invariant FirstHit(voices, Queries(), 12 * li + ni).None?
      {
        var found := Find(voices, NamedWithLang(PreferredVoiceNames[ni], LangPreferences[li]));
        NamedQuery(li, ni);
        if found.Some? {
          FirstHitFound(voices, 12 * li + ni, found);
          return VoiceAt(voices, found);
        }
        FirstHitNext(voices, Queries(), 12 * li + ni);
        ni := ni + 1;
      }
      li := li + 1;
    }
    best := SelectFallback(voices);
  }

  /** The fallback queries of `loadVoices` for when the 24 preferred-name queries all fail. */
  lemma FallbackQueries(ni: nat)
    requires ni < |PreferredVoiceNames|
    ensures Queries()[24 + ni] == NamedEnglish(PreferredVoiceNames[ni])
    ensures Queries()[36] == LangPrefix("en-US") && Queries()[37] == LangPrefix("en-GB")
    ensures Queries()[38] == LangPrefix("en") && Queries()[39] == AnyVoice
  {
    assert Queries()[24 + ni] == QueryAt(24 + ni);
    assert Queries()[36] == QueryAt(36) && Queries()[37] == QueryAt(37);
    assert Queries()[38] == QueryAt(38) && Queries()[39] == QueryAt(39);
  }

  /** The rest of `loadVoices` once no preferred name has an exact "en-US" or "en-GB" tag. */
  method SelectFallback(voices: seq<Voice>) returns (best: Option<Voice>)
    requires voices != [] && FirstHit(voices, Queries(), 24).None?
    ensures best == VoiceAt(voices, Choice(voices))
  {
    var ni := 0;
    while ni < |PreferredVoiceNames|
      invariant 0 <= ni <= |PreferredVoiceNames|
      invariant FirstHit(voices, Queries(), 24 + ni).None?
    {
      var found := Find(voices, NamedEnglish(PreferredVoiceNames[ni]));
      FallbackQueries(ni);
      if found.Some? {
        FirstHitFound(voices, 24 + ni, found);
        return VoiceAt(voices, found);
      }
      FirstHitNext(voices, Queries(), 24 + ni);
      ni := ni + 1;
    }
    FallbackQueries(0);
    var found := Find(voices, LangPrefix("en-US"));
    if found.None? {
      FirstHitNext(voices, Queries(), 36);
      found := Find(voices, LangPrefix("en-GB"));
      if found.None? {
        FirstHitNext(voices, Queries(), 37);
        found := Find(voices, LangPrefix("en"));
        if found.None? {
          FirstHitNext(voices, Queries(), 38);
          found := Find(voices, AnyVoice);
          FirstHitFound(voices, 39, found);
        } else {
          FirstHitFound(voices, 38, found);
        }
      } else {
        FirstHitFound(voices, 37, found);
      }
    } else {
      FirstHitFound(voices, 36, found);
    }
    best := VoiceAt(voices, found);
  }
}
