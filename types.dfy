/** The records the reel components exchange (types.ts). Optional properties are `Option`s;
    JavaScript numbers that no property depends on are `real`s. */
module Types {
  import opened Wrappers

  /** One highlight chunk of a caption. */
  datatype Phrase = Phrase(text: string, startTime: Option<real>, duration: Option<real>)

  /** A generated content slide. */
  datatype ReelSlide = ReelSlide(
    caption: string,
    imagePrompt: string,
    imageUrl: Option<string>,
    id: string,
    phrases: Option<seq<Phrase>>)

  /** A sponsored slide; never narrated. */
  datatype AdSlide = AdSlide(
    id: string,
    imageUrl: string,
    caption: string,
    advertiser: string,
    cta: string,
    messageWhileWaiting: Option<string>)

  /** What the reel viewer is handed: `ReelSlide | AdSlide`. */
  datatype ViewerSlide = Content(content: ReelSlide) | Sponsored(ad: AdSlide)
  {
    function Caption(): string
    {
      match this
      case Content(s) => s.caption
      case Sponsored(a) => a.caption
    }

    function ImageUrl(): Option<string>
    {
      match this
      case Content(s) => s.imageUrl
      case Sponsored(a) => Some(a.imageUrl)
    }
  }

  datatype WebSource = WebSource(uri: Option<string>, title: Option<string>)

  /** A search-grounding source. */
  datatype GroundingChunk = GroundingChunk(web: Option<WebSource>)

  datatype GroundingMetadata = GroundingMetadata(groundingChunks: Option<seq<GroundingChunk>>)

  datatype ProcessedSearchResult = ProcessedSearchResult(
    slides: seq<ReelSlide>,
    groundingMetadata: Option<GroundingMetadata>)
}
