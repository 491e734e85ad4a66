/** Post-search retrieval: turning what the vector index returned for a
    question into the passages handed to generation and the per-source info
    shown to the user (`retrieve_relevant_chunks`).

    The embedding call and the nearest-neighbour search are one opaque
    service: given the question and `top_k` it either fails (any exception)
    or returns `(idx, dist)` pairs in the order the index produced them.
    Distances have the opaque type `D` and are only carried through. */
module Retrieval {
  import opened Wrappers

  /** Previews keep this many characters of a long passage. */
  const PreviewLimit := 200
  const Ellipsis := "..."

  datatype Hit<D> = Hit(idx: int, dist: D)

  datatype SearchOutcome<D> = SearchFailed | Found(hits: seq<Hit<D>>)

  /** Embedding the question and searching the index for `top_k` neighbours. */
  type SearchService<D> = (string, int) -> SearchOutcome<D>

  /** The process-wide data loaded at start-up: whether the vector index is
      loaded, and the passage texts positionally aligned with it. */
  datatype Store = Store(indexLoaded: bool, chunks: seq<string>)

  /** One entry of `chunk_info`. */
  datatype ChunkInfo<D> = ChunkInfo(index: int, distance: D, preview: string)

  /** The two aligned lists `retrieve_relevant_chunks` returns. */
  datatype Retrieved<D> = Retrieved(texts: seq<string>, info: seq<ChunkInfo<D>>)

  /** The readiness guard: an index object and a non-empty chunk list. */
  predicate Ready(store: Store)
  {
    store.indexLoaded && store.chunks != []
  }

  /** The preview of a passage: the passage itself when it has at most 200
      characters, otherwise its first 200 characters and an ellipsis. */
  function Preview(text: string): (p: string)
    ensures |p| <= PreviewLimit + |Ellipsis|
    ensures |text| <= PreviewLimit ==> p == text
    ensures |text| > PreviewLimit ==>
              |p| == PreviewLimit + |Ellipsis| && p[..PreviewLimit] == text[..PreviewLimit]
              && p[PreviewLimit..] == Ellipsis
  {
    if |text| > PreviewLimit then text[..PreviewLimit] + Ellipsis else text
  }

  /** Python's `s[i]` on a list: negative `i` counts from the end, and
      anything outside `-len(s) <= i < len(s)` raises `IndexError` (None). */
  function PyIndex<T>(s: seq<T>, i: int): Option<T>
  {
    if 0 <= i < |s| then Some(s[i])
    else if -|s| <= i < 0 then Some(s[|s| + i])
    else None
  }

  /** The source's guard on a search hit: only `idx < len(chunks)`. */
  predicate Passes<D>(chunks: seq<string>, h: Hit<D>)
  {
    h.idx < |chunks|
  }

  /** What the loop over the hits builds, hit by hit; None when a subscript
      raised, which makes the whole retrieval fall back to empty lists. */
  function Collect<D>(chunks: seq<string>, hits: seq<Hit<D>>): Option<Retrieved<D>>
    decreases |hits|
  {
    if hits == [] then Some(Retrieved([], []))
    else
      var h := hits[|hits| - 1];
      match Collect(chunks, hits[..|hits| - 1])
      case None => None
      case Some(r) =>
        if !Passes(chunks, h) then Some(r)
        else match PyIndex(chunks, h.idx)
          case None => None
          case Some(text) => Some(Retrieved(r.texts + [text], r.info + [ChunkInfo(h.idx, h.dist, Preview(text))]))
  }

  /** The result for a given search outcome on a ready store. */
  function FromOutcome<D>(chunks: seq<string>, outcome: SearchOutcome<D>): Retrieved<D>
  {
    match outcome
    case SearchFailed => Retrieved([], [])
    case Found(hits) =>
      match Collect(chunks, hits)
      case None => Retrieved([], [])
      case Some(r) => r
  }

  /** `retrieve_relevant_chunks(user_prompt, top_k)`: the service is consulted
      only when the store is ready. */
  function Retrieve<D>(store: Store, userPrompt: string, topK: int, search: SearchService<D>): Retrieved<D>
  {
    if !Ready(store) then Retrieved([], [])
    else FromOutcome(store.chunks, search(userPrompt, topK))
  }

  /** The loop of `retrieve_relevant_chunks`, appending to the two lists. */
  method RetrieveRelevantChunks<D>(store: Store, userPrompt: string, topK: int, search: SearchService<D>)
    returns (relevantChunks: seq<string>, chunkInfo: seq<ChunkInfo<D>>)
    ensures Retrieved(relevantChunks, chunkInfo) == Retrieve(store, userPrompt, topK, search)
  {
    if !store.indexLoaded || store.chunks == [] {
      return [], [];
    }
    var outcome := search(userPrompt, topK);
    if outcome.SearchFailed? {
      return [], [];
    }
    var hits := outcome.hits;
    relevantChunks, chunkInfo := [], [];
    for i := 0 to |hits|
      invariant Collect(store.chunks, hits[..i]) == Some(Retrieved(relevantChunks, chunkInfo))
    {
      assert hits[..i + 1][..i] == hits[..i];
      var idx := hits[i].idx;
      var dist := hits[i].dist;
      if idx < |store.chunks| {
        var chunkText := PyIndex(store.chunks, idx);
        if chunkText.None? {
          CollectRaises(store.chunks, hits, i);
          return [], [];
        }
        relevantChunks := relevantChunks + [chunkText.value];
        chunkInfo := chunkInfo + [ChunkInfo(idx, dist, Preview(chunkText.value))];
      }
    }
    assert hits[..|hits|] == hits;
  }

  // ---------------------------------------------------------------------
  // Properties of the retrieval result

  /** A hit whose subscript raises: it passes the guard but is below `-len`. */
  predicate Raises<D>(chunks: seq<string>, h: Hit<D>)
  {
    h.idx < -|chunks|
  }

  /** The loop raises exactly when some hit has an index below `-len(chunks)`. */
  lemma {:induction false} CollectSomeIff<D>(chunks: seq<string>, hits: seq<Hit<D>>)
    ensures Collect(chunks, hits).Some? <==> forall p :: 0 <= p < |hits| ==> !Raises(chunks, hits[p])
    decreases |hits|
  {
    if hits != [] {
      var init := hits[..|hits| - 1];
      CollectSomeIff(chunks, init);
      forall p | 0 <= p < |init| ensures init[p] == hits[p] { }
    }
  }

  /** A raising hit at position `p` empties the whole result. */
  lemma CollectRaises<D>(chunks: seq<string>, hits: seq<Hit<D>>, p: nat)
    requires p < |hits| && Raises(chunks, hits[p])
    ensures Collect(chunks, hits) == None
  {
    CollectSomeIff(chunks, hits);
  }

  /** The positions of the hits the guard keeps, in search-result order:
      strictly increasing, and a hit is kept exactly when its index passes
      `idx < len(chunks)`. */
  function KeptPositions<D>(chunks: seq<string>, hits: seq<Hit<D>>): (kept: seq<nat>)
    ensures |kept| <= |hits|
    ensures forall j :: 0 <= j < |kept| ==> kept[j] < |hits|
    ensures forall j, k :: 0 <= j < k < |kept| ==> kept[j] < kept[k]
    ensures forall p :: 0 <= p < |hits| ==> (p in kept <==> Passes(chunks, hits[p]))
    decreases |hits|
  {
    if hits == [] then []
    else
      var init := hits[..|hits| - 1];
      assert forall p :: 0 <= p < |init| ==> init[p] == hits[p];
      KeptPositions(chunks, init)
      + (if Passes(chunks, hits[|hits| - 1]) then [|hits| - 1] else [])
  }

  /** Entry `j` of both lists comes from the `j`-th kept hit: the passage at
      that index (Python subscript) and that hit's index and distance, with
      the passage's preview. */
  lemma {:induction false} CollectEntries<D>(chunks: seq<string>, hits: seq<Hit<D>>, r: Retrieved<D>)
    requires Collect(chunks, hits) == Some(r)
    ensures |r.texts| == |r.info| == |KeptPositions(chunks, hits)|
    ensures forall j :: 0 <= j < |r.texts| ==>
              var h := hits[KeptPositions(chunks, hits)[j]];
              PyIndex(chunks, h.idx) == Some(r.texts[j])
              && r.info[j] == ChunkInfo(h.idx, h.dist, Preview(r.texts[j]))
    decreases |hits|
  {
    if hits != [] {
      var init := hits[..|hits| - 1];
      var prev := Collect(chunks, init).value;
      CollectEntries(chunks, init, prev);
      forall p | 0 <= p < |init| ensures init[p] == hits[p] { }
    }
  }

  /** Both lists always have the same length, at most the number of hits. */
  lemma RetrieveAligned<D>(store: Store, userPrompt: string, topK: int, search: SearchService<D>)
    ensures var r := Retrieve(store, userPrompt, topK, search);
            |r.texts| == |r.info|
            && (search(userPrompt, topK).Found? ==> |r.texts| <= |search(userPrompt, topK).hits|)
  {
    var outcome := search(userPrompt, topK);
    if Ready(store) && outcome.Found? {
      var c := Collect(store.chunks, outcome.hits);
      if c.Some? {
        CollectEntries(store.chunks, outcome.hits, c.value);
      }
    }
  }

  /** An unready store, a failed embedding or search, or a raising subscript
      all give two empty lists; an unready store never consults the service. */
  lemma RetrieveFallbacks<D>(store: Store, userPrompt: string, topK: int, search: SearchService<D>, other: SearchService<D>)
    ensures !Ready(store) ==>
              Retrieve(store, userPrompt, topK, search) == Retrieved([], [])
              && Retrieve(store, userPrompt, topK, other) == Retrieved([], [])
    ensures search(userPrompt, topK).SearchFailed? ==> Retrieve(store, userPrompt, topK, search) == Retrieved([], [])
    ensures search(userPrompt, topK).Found?
            && (exists p :: 0 <= p < |search(userPrompt, topK).hits| && Raises(store.chunks, search(userPrompt, topK).hits[p]))
            ==> Retrieve(store, userPrompt, topK, search) == Retrieved([], [])
  {
    var outcome := search(userPrompt, topK);
    if outcome.Found? {
      CollectSomeIff(store.chunks, outcome.hits);
    }
  }

  /** Everything a successful search returns is used, in order: with no
      raising hit, entry `j` of the result is built from the `j`-th hit that
      passes the guard, and every hit that passes it has an entry. */
  lemma RetrieveFollowsHits<D>(store: Store, userPrompt: string, topK: int, search: SearchService<D>)
    requires Ready(store) && search(userPrompt, topK).Found?
    requires forall p :: 0 <= p < |search(userPrompt, topK).hits| ==> !Raises(store.chunks, search(userPrompt, topK).hits[p])
    ensures var hits := search(userPrompt, topK).hits;
            var r := Retrieve(store, userPrompt, topK, search);
            var kept := KeptPositions(store.chunks, hits);
            |r.texts| == |r.info| == |kept|
            && (forall j :: 0 <= j < |kept| ==>
                  PyIndex(store.chunks, hits[kept[j]].idx) == Some(r.texts[j])
                  && r.info[j] == ChunkInfo(hits[kept[j]].idx, hits[kept[j]].dist, Preview(r.texts[j])))
  {
    var hits := search(userPrompt, topK).hits;
    CollectSomeIff(store.chunks, hits);
    var r := Collect(store.chunks, hits).value;
    CollectEntries(store.chunks, hits, r);
  }

  /** FAISS pads with `-1` when fewer vectors are stored than requested.
      Such a hit passes the guard and, through Python's negative subscript,
      yields the LAST passage with `index` -1. */
  lemma PaddingHitGivesLastChunk<D>(chunks: seq<string>, hits: seq<Hit<D>>, p: nat, r: Retrieved<D>)
    requires chunks != [] && p < |hits| && hits[p].idx == -1
    requires Collect(chunks, hits) == Some(r)
    ensures |r.texts| == |r.info| == |KeptPositions(chunks, hits)|
    ensures exists j :: 0 <= j < |KeptPositions(chunks, hits)| && KeptPositions(chunks, hits)[j] == p
              && r.texts[j] == chunks[|chunks| - 1] && r.info[j].index == -1
  {
    CollectEntries(chunks, hits, r);
    var kept := KeptPositions(chunks, hits);
    assert p in kept;
    var j :| 0 <= j < |kept| && kept[j] == p;
    assert PyIndex(chunks, -1) == Some(chunks[|chunks| - 1]);
  }

  /** The end-to-end case of two passages and a `top_k` of 3: the index
      answers passage 1, passage 0, then the `-1` pad. The code keeps all
      three, in that order, the third being passage 1 again. */
  lemma TwoChunksTopThree<D>(a: string, b: string, d0: D, d1: D, d2: D)
    ensures var hits := [Hit(1, d0), Hit(0, d1), Hit(-1, d2)];
            FromOutcome([a, b], Found(hits))
            == Retrieved([b, a, b], [ChunkInfo(1, d0, Preview(b)), ChunkInfo(0, d1, Preview(a)), ChunkInfo(-1, d2, Preview(b))])
  {
    var chunks := [a, b];
    var hits := [Hit(1, d0), Hit(0, d1), Hit(-1, d2)];
    var i0, i1, i2 := ChunkInfo(1, d0, Preview(b)), ChunkInfo(0, d1, Preview(a)), ChunkInfo(-1, d2, Preview(b));
    var one := [Hit(1, d0)];
    var two := one + [Hit(0, d1)];
    var none: seq<string>, noInfo: seq<ChunkInfo<D>> := [], [];
    assert one[..0] == [];
    assert Collect(chunks, one) == Some(Retrieved(none + [b], noInfo + [i0]));
    assert none + [b] == [b] && noInfo + [i0] == [i0];
    assert two[..1] == one;
    assert Collect(chunks, two) == Some(Retrieved([b] + [a], [i0] + [i1]));
    assert [b] + [a] == [b, a] && [i0] + [i1] == [i0, i1];
    assert hits[..2] == two;
    assert Collect(chunks, hits) == Some(Retrieved([b, a] + [b], [i0, i1] + [i2]));
    assert [b, a] + [b] == [b, a, b] && [i0, i1] + [i2] == [i0, i1, i2];
  }
}
