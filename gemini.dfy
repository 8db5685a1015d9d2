/** The post-processing in services/geminiService.ts around the two Gemini requests: stripping a
    Markdown code fence from the model's JSON, checking and mapping the parsed slides, the
    API-key guards, and the choice of an image URL. The requests themselves are functions passed
    in; each result also lists the requests made, in order. `JSON.parse`, `encodeURIComponent`
    and `Date.now` are parameters as well. */
module GeminiService {
  import opened Wrappers
  import opened Text
  import opened Types

  // ---------------------------------------------------------------------------------------
  // sanitizeJsonString

  const Fence: string := "```"

  /** The fence pattern can match: three backticks at both ends, not overlapping. */
  predicate Fenced(t: string)
  {
    |t| >= 6 && t[..3] == Fence && t[|t| - 3..] == Fence
  }

  predicate AllWordChars(s: string)
  {
    forall k :: 0 <= k < |s| ==> IsWordChar(s[k])
  }

  /** Length of the longest prefix of word characters (the greedy `(\w*)?`). */
  function WordRun(s: string): (n: nat)
    ensures n <= |s| && AllWordChars(s[..n])
    ensures n < |s| ==> !IsWordChar(s[n])
  {
    if s == [] || !IsWordChar(s[0]) then 0
    else
      var n := 1 + WordRun(s[1..]);
      assert forall k :: 1 <= k < n ==> s[..n][k] == s[1..][..n - 1][k - 1];
      n
  }

  /** Length of the longest prefix of whitespace (the greedy `\s*`). */
  function SpaceRun(s: string): (n: nat)
    ensures n <= |s| && AllSpace(s[..n])
    ensures n < |s| ==> !IsSpace(s[n])
  {
    if s == [] || !IsSpace(s[0]) then 0
    else
      var n := 1 + SpaceRun(s[1..]);
      assert forall k :: 1 <= k < n ==> s[..n][k] == s[1..][..n - 1][k - 1];
      n
  }

  /** The text between the fences. */
  function Inner(t: string): string
    requires Fenced(t)
  {
    t[3..|t| - 3]
  }

  /** The language tag: the greedy `(\w*)?` after the opening fence. */
  function FenceTag(t: string): string
    requires Fenced(t)
  {
    Inner(t)[..WordRun(Inner(t))]
  }

  function AfterTag(t: string): string
    requires Fenced(t)
  {
    Inner(t)[WordRun(Inner(t))..]
  }

  /** The greedy `\s*` after the tag (it also takes the optional line feed). */
  function FenceGap(t: string): string
    requires Fenced(t)
  {
    AfterTag(t)[..SpaceRun(AfterTag(t))]
  }

  function AfterGap(t: string): string
    requires Fenced(t)
  {
    AfterTag(t)[SpaceRun(AfterTag(t))..]
  }

  /** The second capture group of ^```(\w*)?\s*\n?(.*?)\n?\s*```$ on a fenced string: the
      shortest text after tag and whitespace that leaves only whitespace before the closing
      fence. */
  function FenceBody(t: string): string
    requires Fenced(t)
  {
    TrimEnd(AfterGap(t))
  }

  /** The whitespace between the body and the closing fence. */
  function FenceTail(t: string): string
    requires Fenced(t)
  {
    AfterGap(t)[|FenceBody(t)|..]
  }

  /** `sanitizeJsonString`. */
  function Sanitize(s: string): (r: string)
    ensures IsTrimmed(r)
  {
    var t := Trim(s);
    if Fenced(t) && FenceBody(t) != "" then Trim(FenceBody(t)) else t
  }

  lemma SplitAt(s: string, n: nat)
    requires n <= |s|
    ensures s == s[..n] + s[n..]
  {
  }

  lemma InnerParts(t: string)
    requires Fenced(t)
    ensures Inner(t) == FenceTag(t) + (FenceGap(t) + (FenceBody(t) + FenceTail(t)))
  {
    var i, a, b := Inner(t), AfterTag(t), AfterGap(t);
    assert i == FenceTag(t) + a by { SplitAt(i, WordRun(i)); }
    assert a == FenceGap(t) + b by { SplitAt(a, SpaceRun(a)); }
    assert b == FenceBody(t) + FenceTail(t) by { SplitAt(b, |FenceBody(t)|); }
  }

  /** A fenced string splits into fence, tag, whitespace, body, whitespace, fence, where the tag
      runs as far as word characters go and the whitespace after it as far as whitespace goes;
      the body neither starts nor ends with whitespace. */
  lemma FenceParts(t: string)
    requires Fenced(t)
    ensures t == Fence + Inner(t) + Fence
    ensures Inner(t) == FenceTag(t) + (FenceGap(t) + (FenceBody(t) + FenceTail(t)))
    ensures AllWordChars(FenceTag(t)) && AllSpace(FenceGap(t)) && AllSpace(FenceTail(t))
    ensures IsTrimmed(FenceBody(t))
    ensures FenceGap(t) == "" && FenceBody(t) != "" ==> !IsWordChar(FenceBody(t)[0])
  {
    assert t == t[..3] + t[3..|t| - 3] + t[|t| - 3..] by {
      SplitAt(t, 3);
      SplitAt(t[3..], |t| - 6);
    }
    InnerParts(t);
    var body := FenceBody(t);
    if body != "" {
      assert body[0] == AfterGap(t)[0] == AfterTag(t)[SpaceRun(AfterTag(t))];
      if FenceGap(t) == "" {
        assert body[0] == Inner(t)[WordRun(Inner(t))];
      }
    }
  }

  /** Text that is not wrapped in a fence comes back trimmed and otherwise unchanged. */
  lemma SanitizeUnfenced(s: string)
    requires !Fenced(Trim(s))
    ensures Sanitize(s) == Trim(s)
  {
  }

  /** A fenced text whose body is empty comes back trimmed and otherwise unchanged. */
  lemma SanitizeEmptyBody(s: string)
    requires Fenced(Trim(s)) && FenceBody(Trim(s)) == ""
    ensures Sanitize(s) == Trim(s)
  {
  }

  /** A fenced text with a body comes back as exactly its body. */
  lemma SanitizeFenced(s: string)
    requires Fenced(Trim(s)) && FenceBody(Trim(s)) != ""
    ensures Sanitize(s) == FenceBody(Trim(s))
  {
    FenceParts(Trim(s));
    TrimOfTrimmed(FenceBody(Trim(s)));
  }

  /** Wrapping trimmed JSON in a fence with a language tag, as models do, is undone. */
  lemma SanitizeRoundTrip(tag: string, json: string)
    requires AllWordChars(tag) && json != "" && IsTrimmed(json)
    ensures Sanitize(Fence + tag + "\n" + json + "\n" + Fence) == json
  {
    var t := Fence + tag + "\n" + json + "\n" + Fence;
    RoundTripFenced(tag, json);
    TrimOfTrimmed(t);
    RoundTripBody(tag, json);
    TrimOfTrimmed(json);
  }

  lemma RoundTripFenced(tag: string, json: string)
    requires json != "" && IsTrimmed(json)
    ensures var t := Fence + tag + "\n" + json + "\n" + Fence;
      IsTrimmed(t) && Fenced(t) && Inner(t) == tag + "\n" + json + "\n"
  {
    var t := Fence + tag + "\n" + json + "\n" + Fence;
    var m := tag + "\n" + json + "\n";
    assert t == Fence + m + Fence;
    assert t[..3] == Fence;
    assert t[|t| - 3..] == Fence;
    assert t[3..|t| - 3] == m;
  }

  lemma RoundTripBody(tag: string, json: string)
    requires AllWordChars(tag) && json != "" && IsTrimmed(json)
    requires Fenced(Fence + tag + "\n" + json + "\n" + Fence)
    requires Inner(Fence + tag + "\n" + json + "\n" + Fence) == tag + "\n" + json + "\n"
    ensures FenceBody(Fence + tag + "\n" + json + "\n" + Fence) == json
  {
    var t := Fence + tag + "\n" + json + "\n" + Fence;
    var rest := "\n" + json + "\n";
    assert Inner(t) == tag + rest;
    WordRunOf(tag, rest);
    assert AfterTag(t) == rest;
    var j := json + "\n";
    assert rest == "\n" + j;
    SpaceRunOf("\n", j);
    assert AfterGap(t) == j;
    assert j[..|json|] == json;
    TrimEndOfTrimmed(json);
  }

  lemma WordRunOf(w: string, rest: string)
    requires AllWordChars(w) && (rest == "" || !IsWordChar(rest[0]))
    ensures WordRun(w + rest) == |w|
    decreases |w|
  {
    if w != "" {
      assert (w + rest)[1..] == w[1..] + rest;
      WordRunOf(w[1..], rest);
    } else {
      assert w + rest == rest;
    }
  }

  lemma SpaceRunOf(w: string, rest: string)
    requires AllSpace(w) && (rest == "" || !IsSpace(rest[0]))
    ensures SpaceRun(w + rest) == |w|
    decreases |w|
  {
    if w != "" {
      assert (w + rest)[1..] == w[1..] + rest;
      SpaceRunOf(w[1..], rest);
    } else {
      assert w + rest == rest;
    }
  }

  /** The tag swallows a body made only of word characters, so "```true```" or "``````" is
      left as it is. */
  lemma WordOnlyFenceKept(tag: string)
    requires AllWordChars(tag)
    ensures Sanitize(Fence + tag + Fence) == Fence + tag + Fence
  {
    WordOnlyFenced(tag);
    TrimOfTrimmed(Fence + tag + Fence);
    WordOnlyBody(tag);
  }

  lemma WordOnlyFenced(tag: string)
    ensures var t := Fence + tag + Fence;
      IsTrimmed(t) && Fenced(t) && Inner(t) == tag
  {
    var t := Fence + tag + Fence;
    assert t[0] == '`' && t[|t| - 1] == '`';
    assert t[..3] == Fence;
    assert t[|t| - 3..] == Fence;
    assert t[3..|t| - 3] == tag;
  }

  lemma WordOnlyBody(tag: string)
    requires AllWordChars(tag) && Fenced(Fence + tag + Fence) && Inner(Fence + tag + Fence) == tag
    ensures FenceBody(Fence + tag + Fence) == ""
  {
    var t := Fence + tag + Fence;
    WordRunOf(tag, "");
    assert tag + "" == tag;
    assert AfterTag(t) == "";
  }

  // ---------------------------------------------------------------------------------------
  // Checking and mapping the parsed slides

  /** A value as `JSON.parse` returns it. */
  datatype Json =
    | JNull
    | JBool(b: bool)
    | JNumber(n: real)
    | JString(s: string)
    | JArray(elems: seq<Json>)
    | JObject(fields: map<string, Json>)

  /** Why the slides could not be read; every cause ends in the same thrown error. */
  datatype ParseCause =
    | SyntaxError      // `JSON.parse` threw
    | NullElement      // reading `.caption` of a null element threw a TypeError
    | UnexpectedShape  // not an array, or an element without string id, caption and imagePrompt

  datatype GeminiError =
    | KeyNotConfigured
    | NoSearchInformation
    | MissingResponseText
    | ParseFailure(cause: ParseCause)
    | RequestFailed    // the request's promise rejected; its error propagates unchanged

  predicate HasString(fields: map<string, Json>, key: string)
  {
    key in fields && fields[key].JString?
  }

  /** `typeof s.caption === 'string' && typeof s.imagePrompt === 'string' && typeof s.id === 'string'`. */
  predicate IsSlideObject(v: Json)
  {
    v.JObject? && HasString(v.fields, "caption") && HasString(v.fields, "imagePrompt")
    && HasString(v.fields, "id")
  }

  /** Element i is the first that is not a slide object. */
  predicate FirstFailure(elems: seq<Json>, i: int)
  {
    0 <= i < |elems| && !IsSlideObject(elems[i]) && forall j :: 0 <= j < i ==> IsSlideObject(elems[j])
  }

  /** `slidesData.every(...)`, which stops at the first element that fails; `None` when every
      element is a slide object. */
  function CheckElements(elems: seq<Json>): (r: Option<ParseCause>)
    ensures r.None? <==> forall i :: 0 <= i < |elems| ==> IsSlideObject(elems[i])
    ensures r.Some? ==>
      exists i :: FirstFailure(elems, i) && r.value == (if elems[i] == JNull then NullElement else UnexpectedShape)
  {
    if elems == [] then None
    else if elems[0] == JNull then Some(NullElement)
    else if !IsSlideObject(elems[0]) then Some(UnexpectedShape)
    else
      var r := CheckElements(elems[1..]);
      if r.Some? then
        ghost var i :| FirstFailure(elems[1..], i)
          && r.value == (if elems[1..][i] == JNull then NullElement else UnexpectedShape);
        assert FirstFailure(elems, i + 1);
        r
      else
        assert forall i :: 1 <= i < |elems| ==> elems[i] == elems[1..][i - 1];
        r
  }

  /** The decimal digits of a number, as JavaScript writes an integer. */
  function Decimal(n: nat): (r: string)
    ensures r != ""
    ensures forall k :: 0 <= k < |r| ==> '0' <= r[k] <= '9'
  {
    var d := ['0' + (n % 10) as char];
    if n < 10 then d else Decimal(n / 10) + d
  }

  /** The id given to slide `index` when the model left it empty. */
  function FallbackId(index: nat, now: nat): (id: string)
    ensures |id| > 8 && id[..6] == "slide-"
  {
    "slide-" + Decimal(index) + "-" + Decimal(now)
  }

  function StringField(v: Json, key: string): string
    requires IsSlideObject(v) && key in {"caption", "imagePrompt", "id"}
  {
    v.fields[key].s
  }

  /** `slidesData.map(...)`; `nowAt(i)` is what `Date.now()` returns while mapping element i. */
  function MapSlides(elems: seq<Json>, nowAt: nat -> nat): (slides: seq<ReelSlide>)
    requires forall i :: 0 <= i < |elems| ==> IsSlideObject(elems[i])
    ensures |slides| == |elems|
    ensures forall i :: 0 <= i < |slides| ==> slides[i].id != "" && slides[i].imageUrl.None?
  {
    var slides := seq(|elems|, i requires 0 <= i < |elems| => SlideFrom(elems[i], i, nowAt(i)));
    assert forall i :: 0 <= i < |slides| ==> slides[i] == SlideFrom(elems[i], i, nowAt(i));
    slides
  }

  /** Element `index` of the array as a slide, mapped at time `now`. */
  function SlideFrom(v: Json, index: nat, now: nat): (slide: ReelSlide)
    requires IsSlideObject(v)
    ensures slide.id != "" && slide.imageUrl.None?
  {
    var id := StringField(v, "id");
    ReelSlide(StringField(v, "caption"), StringField(v, "imagePrompt"), None,
              if id != "" then id else FallbackId(index, now), None)
  }

  /** The `try` block: parse, check, map. */
  function ReadSlides(sanitized: string, parse: string -> Option<Json>, nowAt: nat -> nat)
    : (r: Result<seq<ReelSlide>, GeminiError>)
    ensures r.Failure? ==> r.error.ParseFailure?
    ensures r.Success? ==> parse(sanitized).Some? && parse(sanitized).value.JArray?
                           && |r.value| == |parse(sanitized).value.elems|
  {
    match parse(sanitized)
    case None => Failure(ParseFailure(SyntaxError))
    case Some(v) =>
      if !v.JArray? then Failure(ParseFailure(UnexpectedShape))
      else
        match CheckElements(v.elems)
        case Some(cause) => Failure(ParseFailure(cause))
        case None => Success(MapSlides(v.elems, nowAt))
  }

  /** One slide per element, in order, with caption and image prompt copied, the id copied
      when non-empty and otherwise "slide-<index>-<time>", and no image or phrases yet. */
  lemma {:induction false} MapSlidesFields(elems: seq<Json>, nowAt: nat -> nat)
    requires forall i :: 0 <= i < |elems| ==> IsSlideObject(elems[i])
    ensures var slides := MapSlides(elems, nowAt);
      && |slides| == |elems|
      && forall i :: 0 <= i < |elems| ==>
           var f := elems[i].fields;
           && slides[i].caption == f["caption"].s
           && slides[i].imagePrompt == f["imagePrompt"].s
           && slides[i].id == (if f["id"].s != "" then f["id"].s else FallbackId(i, nowAt(i)))
           && slides[i].id != ""
           && slides[i].imageUrl == None && slides[i].phrases == None
  {
    var slides := MapSlides(elems, nowAt);
    forall i | 0 <= i < |elems|
      ensures var f := elems[i].fields;
        && slides[i].caption == f["caption"].s
        && slides[i].imagePrompt == f["imagePrompt"].s
        && slides[i].id == (if f["id"].s != "" then f["id"].s else FallbackId(i, nowAt(i)))
        && slides[i].id != ""
        && slides[i].imageUrl == None && slides[i].phrases == None
    {
      var f := elems[i].fields;
      var fallback := FallbackId(i, nowAt(i));
      assert fallback[0] == 's';
      assert slides[i] == ReelSlide(f["caption"].s, f["imagePrompt"].s, None,
                                    if f["id"].s != "" then f["id"].s else fallback, None);
    }
  }

  /** Slides are read exactly when the text parses to an array of slide objects, and then they
      are the mapped elements; every failure is a parse failure, and an empty array gives no
      slides. */
  lemma ReadSlidesSpec(sanitized: string, parse: string -> Option<Json>, nowAt: nat -> nat)
    ensures var r := ReadSlides(sanitized, parse, nowAt);
      && (r.Success? <==>
            parse(sanitized).Some? && parse(sanitized).value.JArray?
            && forall i :: 0 <= i < |parse(sanitized).value.elems| ==>
                 IsSlideObject(parse(sanitized).value.elems[i]))
      && (r.Success? ==> r.value == MapSlides(parse(sanitized).value.elems, nowAt))
      && (r.Failure? ==> r.error.ParseFailure?)
      && (parse(sanitized) == Some(JArray([])) ==> r == Success([]))
  {
    if parse(sanitized) == Some(JArray([])) {
      assert MapSlides([], nowAt) == [];
    }
  }

  // ---------------------------------------------------------------------------------------
  // The requests

  /** A request sent to Gemini. */
  datatype GeminiCall =
    | GroundedSearch(query: string)
    | ReelScript(query: string, information: string)
    | ImageGeneration(prompt: string)

  /** How a request settles: with a response, or by rejecting (network failure, refused key,
      quota), which the service does not catch. */
  datatype Reply<T> = Answered(body: T) | Rejected

  /** What a call returns, with the requests made on the way. */
  datatype Outcome<T> = Outcome(result: Result<T, GeminiError>, calls: seq<GeminiCall>)

  datatype SearchResponse = SearchResponse(text: Option<string>, groundingMetadata: Option<GroundingMetadata>)

  /** `!apiKey || apiKey === "MISSING_API_KEY"` fails. */
  predicate KeyConfigured(apiKey: Option<string>)
  {
    apiKey.Some? && apiKey.value != "" && apiKey.value != "MISSING_API_KEY"
  }

  /** `searchAndGenerateReelContent`: `search` answers the grounded search; `script` answers the
      slide request made from the query and the search text. */
  function SearchAndGenerate(apiKey: Option<string>, query: string,
                             search: string -> Reply<SearchResponse>,
                             script: (string, string) -> Reply<Option<string>>,
                             parse: string -> Option<Json>, nowAt: nat -> nat)
    : (o: Outcome<ProcessedSearchResult>)
    ensures o.calls == [] <==> !KeyConfigured(apiKey)
    ensures |o.calls| <= 2 && (o.result.Success? ==> |o.calls| == 2)
  {
    if !KeyConfigured(apiKey) then Outcome(Failure(KeyNotConfigured), [])
    else
      match search(query)
      case Rejected => Outcome(Failure(RequestFailed), [GroundedSearch(query)])
      case Answered(found) =>
        if found.text.None? || found.text.value == "" then
          Outcome(Failure(NoSearchInformation), [GroundedSearch(query)])
        else
          var calls := [GroundedSearch(query), ReelScript(query, found.text.value)];
          match script(query, found.text.value)
          case Rejected => Outcome(Failure(RequestFailed), calls)
          case Answered(None) => Outcome(Failure(MissingResponseText), calls)
          case Answered(Some(raw)) =>
            match ReadSlides(Sanitize(raw), parse, nowAt)
            case Failure(e) => Outcome(Failure(e), calls)
            case Success(slides) =>
              Outcome(Success(ProcessedSearchResult(slides, found.groundingMetadata)), calls)
  }

  /** Without a key nothing is requested; a rejected or empty search stops after the search;
      a rejected script request fails after both requests; otherwise the result is the slides
      read from the sanitized script with the search's grounding, or one error and no slides. */
  lemma SearchAndGenerateSpec(apiKey: Option<string>, query: string,
                              search: string -> Reply<SearchResponse>,
                              script: (string, string) -> Reply<Option<string>>,
                              parse: string -> Option<Json>, nowAt: nat -> nat)
    ensures var o := SearchAndGenerate(apiKey, query, search, script, parse, nowAt);
      && (!KeyConfigured(apiKey) <==> o.calls == [])
      && (!KeyConfigured(apiKey) ==> o.result == Failure(KeyNotConfigured))
      && (KeyConfigured(apiKey) && search(query).Rejected? ==>
            o == Outcome(Failure(RequestFailed), [GroundedSearch(query)]))
      && (o.result == Failure(NoSearchInformation) <==>
            |o.calls| == 1 && search(query).Answered?)
      && (|o.calls| == 2 ==>
            && search(query).Answered?
            && var info := search(query).body.text.value;
            && o.calls == [GroundedSearch(query), ReelScript(query, info)]
            && (script(query, info).Rejected? ==> o.result == Failure(RequestFailed))
            && (script(query, info) == Answered(None) ==> o.result == Failure(MissingResponseText))
            && (script(query, info).Answered? && script(query, info).body.Some? ==>
                  var read := ReadSlides(Sanitize(script(query, info).body.value), parse, nowAt);
                  && (read.Success? ==> o.result == Success(ProcessedSearchResult(read.value,
                                                              search(query).body.groundingMetadata)))
                  && (read.Failure? ==> o.result == Failure(read.error))))
      && |o.calls| <= 2
  {
    if KeyConfigured(apiKey) && search(query).Answered? {
      var found := search(query).body;
      if found.text.Some? && found.text.value != "" {
        var raw := script(query, found.text.value);
        if raw.Answered? && raw.body.Some? {
          var read := ReadSlides(Sanitize(raw.body.value), parse, nowAt);
          assert SearchAndGenerate(apiKey, query, search, script, parse, nowAt).result
              == if read.Success? then Success(ProcessedSearchResult(read.value, found.groundingMetadata))
                 else Failure(read.error);
        }
      }
    }
  }

  // ---------------------------------------------------------------------------------------
  // generateImageForPrompt

  datatype GeneratedImage = GeneratedImage(image: Option<ImageData>)
  datatype ImageData = ImageData(imageBytes: Option<string>)
  datatype ImagesResponse = ImagesResponse(generatedImages: Option<seq<GeneratedImage>>)

  /** The base64 bytes of the first generated image, when it has any. */
  function FirstImageBytes(response: ImagesResponse): Option<string>
  {
    match response.generatedImages
    case None => None
    case Some(images) =>
      if |images| > 0 && images[0].image.Some? && images[0].image.value.imageBytes.Some?
         && images[0].image.value.imageBytes.value != ""
      then images[0].image.value.imageBytes
      else None
  }

  function PlaceholderUrl(prompt: string, encode: string -> string): string
  {
    "https://picsum.photos/seed/" + encode(prompt) + "/540/960"
  }

  /** `generateImageForPrompt`; `encode` is `encodeURIComponent`. */
  function ImageForPrompt(apiKey: Option<string>, prompt: string,
                          generate: string -> Reply<ImagesResponse>, encode: string -> string)
    : (o: Outcome<string>)
    ensures o.calls == (if KeyConfigured(apiKey) then [ImageGeneration(prompt)] else [])
    ensures o.result.Failure? ==> o.result.error in {KeyNotConfigured, RequestFailed}
    ensures o.result.Success? ==> |o.result.value| > 0
  {
    if !KeyConfigured(apiKey) then Outcome(Failure(KeyNotConfigured), [])
    else
      var calls := [ImageGeneration(prompt)];
      match generate(prompt)
      case Rejected => Outcome(Failure(RequestFailed), calls)
      case Answered(response) =>
        match FirstImageBytes(response)
        case Some(bytes) => Outcome(Success("data:image/jpeg;base64," + bytes), calls)
        case None => Outcome(Success(PlaceholderUrl(prompt, encode)), calls)
  }

  /** Without a key nothing is requested; with one, exactly one request is made; it fails only
      if the request rejects, and otherwise a URL comes back: the data URL of the first image's
      bytes, or the placeholder for the prompt. */
  lemma ImageForPromptSpec(apiKey: Option<string>, prompt: string,
                           generate: string -> Reply<ImagesResponse>, encode: string -> string)
    ensures var o := ImageForPrompt(apiKey, prompt, generate, encode);
      && (!KeyConfigured(apiKey) ==> o == Outcome(Failure(KeyNotConfigured), []))
      && (KeyConfigured(apiKey) ==>
            && o.calls == [ImageGeneration(prompt)]
            && (o.result.Failure? <==> generate(prompt).Rejected?)
            && (o.result.Failure? ==> o.result.error == RequestFailed)
            && (generate(prompt).Answered? ==>
                  var url := o.result.value;
                  (exists bytes :: bytes != "" && url == "data:image/jpeg;base64," + bytes
                     && FirstImageBytes(generate(prompt).body) == Some(bytes))
                  || (FirstImageBytes(generate(prompt).body).None? && url == PlaceholderUrl(prompt, encode))))
  {
  }
}
