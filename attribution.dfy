/** The list of sources under a reel (components/AttributionLinks.tsx): the search-grounding
    chunks that have both an address and a title, each drawn as one link. */
module AttributionLinks {
  import opened Wrappers
  import opened Types

  /** `chunk.web && chunk.web.uri && chunk.web.title`: both strings present and non-empty. */
  predicate IsValid(c: GroundingChunk)
  {
    c.web.Some? && c.web.value.uri.Some? && c.web.value.uri.value != ""
    && c.web.value.title.Some? && c.web.value.title.value != ""
  }

  /** `chunks.filter(...)`. */
  function ValidChunks(cs: seq<GroundingChunk>): (r: seq<GroundingChunk>)
    ensures |r| <= |cs|
    ensures forall k :: 0 <= k < |r| ==> IsValid(r[k]) && r[k] in cs
    ensures forall k :: 0 <= k < |cs| && IsValid(cs[k]) ==> cs[k] in r
  {
    if cs == [] then []
    else
      var rest := ValidChunks(cs[1..]);
      assert forall k :: 1 <= k < |cs| ==> cs[k] == cs[1..][k - 1];
      if IsValid(cs[0]) then [cs[0]] + rest else rest
  }

  /** Filtering a concatenation filters each part. */
  lemma {:induction false} ValidChunksAppend(a: seq<GroundingChunk>, b: seq<GroundingChunk>)
    ensures ValidChunks(a + b) == ValidChunks(a) + ValidChunks(b)
    decreases |a|
  {
    if a == [] {
      assert a + b == b;
    } else {
      assert (a + b)[1..] == a[1..] + b;
      ValidChunksAppend(a[1..], b);
    }
  }

  /** Filtering keeps a chunk exactly when it is valid, and keeps everything when all are. */
  lemma {:induction false} ValidChunksSingle(c: GroundingChunk)
    ensures ValidChunks([c]) == (if IsValid(c) then [c] else [])
  {
    assert [c][1..] == [];
  }

  lemma {:induction false} ValidChunksAllValid(cs: seq<GroundingChunk>)
    requires forall k :: 0 <= k < |cs| ==> IsValid(cs[k])
    ensures ValidChunks(cs) == cs
  {
    if cs != [] {
      assert forall k :: 0 <= k < |cs[1..]| ==> cs[1..][k] == cs[k + 1];
      ValidChunksAllValid(cs[1..]);
      assert [cs[0]] + cs[1..] == cs;
    }
  }

  /** One drawn source: where it points, its tooltip and its text. */
  datatype Link = Link(href: string, title: string, text: string)

  /** `chunk.web.title || chunk.web.uri` is the text. */
  function LinkFor(c: GroundingChunk): Link
    requires c.web.Some? && c.web.value.uri.Some? && c.web.value.title.Some?
  {
    var w := c.web.value;
    Link(w.uri.value, w.title.value, if w.title.value != "" then w.title.value else w.uri.value)
  }

  /** The component: nothing when there are no chunks or none is valid, otherwise one link per
      valid chunk, in order. */
  function Render(chunks: Option<seq<GroundingChunk>>): (r: Option<seq<Link>>)
    ensures r.Some? ==> chunks.Some? && 0 < |r.value| <= |chunks.value|
    ensures r.Some? ==> forall i :: 0 <= i < |r.value| ==> r.value[i].href != "" && r.value[i].text != ""
  {
    if chunks.None? || |chunks.value| == 0 then None
    else
      var valid := ValidChunks(chunks.value);
      if |valid| == 0 then None
      else Some(seq(|valid|, i requires 0 <= i < |valid| => LinkFor(valid[i])))
  }

  /** The list is drawn exactly when some chunk has both an address and a title; then each link
      points at its chunk's address and shows its title, so the address is never the text. */
  lemma RenderSpec(chunks: Option<seq<GroundingChunk>>)
    ensures Render(chunks).None? <==>
      chunks.None? || forall k :: 0 <= k < |chunks.value| ==> !IsValid(chunks.value[k])
    ensures Render(chunks).Some? ==>
      var valid := ValidChunks(chunks.value);
      var links := Render(chunks).value;
      && |links| == |valid| > 0
      && forall i :: 0 <= i < |links| ==>
           && links[i].href == valid[i].web.value.uri.value
           && links[i].title == valid[i].web.value.title.value
           && links[i].text == links[i].title
           && links[i].text != ""
  {
    if chunks.Some? {
      var cs := chunks.value;
      var valid := ValidChunks(cs);
      if valid != [] {
        var k :| 0 <= k < |cs| && cs[k] == valid[0];
        assert IsValid(cs[k]);
      }
    }
  }

  /** Invalid chunks around valid ones do not change what is drawn. */
  lemma RenderIgnoresInvalid(a: seq<GroundingChunk>, b: seq<GroundingChunk>, c: GroundingChunk)
    requires !IsValid(c)
    ensures Render(Some(a + [c] + b)) == Render(Some(a + b))
  {
    ValidChunksAppend(a + [c], b);
    ValidChunksAppend(a, [c]);
    ValidChunksSingle(c);
    ValidChunksAppend(a, b);
    assert ValidChunks(a) + [] == ValidChunks(a);
    if a + b == [] {
      assert ValidChunks(a + [c] + b) == [];
    }
  }
}
