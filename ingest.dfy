/** The ingestion side of the store (src/ingest.py): turning one source text
    into chunk vectors and chunk metadata, and appending a batch of them to the
    in-memory vector index and `docs` list while recording the source in
    `processed_sources`.

    The embedding model, the RecursiveCharacterTextSplitter and uuid4 are
    parameters: `embed` maps a chunk to its vector, `split` is the splitter's
    answer for a long text, and `uuid(i)` is the identifier drawn for the i-th
    chunk of the call. */
module Ingest {
  import opened Text
  import FlatIndex

  /** An embedding vector. Its coordinates never matter here: the model only
      moves vectors around by position. */
  type Vec = seq<real>

  /** One entry of `docs`: the metadata of the vector at the same position. */
  datatype Meta = Meta(id: string, source: string, repType: string, text: string, fullPath: string)

  /** Texts longer than this go through the splitter; shorter ones are one chunk. */
  const ShortTextLimit: nat := 1200

  /** `rep_type` of a chunk: wiki pages are tagged as such, anything else as file content. */
  function RepType(sourceType: string): (r: string)
    ensures r == "wiki_content" <==> sourceType == "wiki"
    ensures r == "file_content" <==> sourceType != "wiki"
  {
    if sourceType == "wiki" then "wiki_content" else "file_content"
  }

  /** The display label of chunk i out of count: the source name alone for a
      single chunk, otherwise the name followed by " (Đoạn k)" with k = i + 1. */
  function Label(sourceName: string, count: nat, i: nat): (r: string)
    ensures count <= 1 ==> r == sourceName
    ensures count > 1 ==> |r| > |sourceName| && r[..|sourceName|] == sourceName
  {
    if count > 1 then sourceName + " (Đoạn " + NatToString(i + 1) + ")" else sourceName
  }

  /** The chunks of a split source carry pairwise different labels. */
  lemma LabelsDistinct(sourceName: string, count: nat, i: nat, j: nat)
    requires count > 1 && i != j
    ensures Label(sourceName, count, i) != Label(sourceName, count, j)
  {
    NatToStringInjective(i + 1, j + 1);
    MiddleDiffers(sourceName + " (Đoạn ", NatToString(i + 1), NatToString(j + 1), ")");
  }

  lemma MiddleDiffers(pre: string, a: string, b: string, post: string)
    requires a != b
    ensures pre + a + post != pre + b + post
  {
    if |a| == |b| {
      var k :| 0 <= k < |a| && a[k] != b[k];
      assert (pre + a + post)[|pre| + k] == a[k];
      assert (pre + b + post)[|pre| + k] == b[k];
    }
  }

  /** The chunks of a non-blank text: the splitter's output for a long text,
      the whole text otherwise. The splitter (chunk size 1000, overlap 200)
      is the oracle `split`; where it cuts is not modelled. */
  function Chunks(text: string, split: string -> seq<string>): (chunks: seq<string>)
    ensures |text| <= ShortTextLimit ==> chunks == [text]
    ensures |text| > ShortTextLimit ==> chunks == split(text)
  {
    if |text| > ShortTextLimit then split(text) else [text]
  }

  /** The cheap skip of an already processed file or wiki page, which
      `force_update` turns off. */
  predicate Skips(processed: set<string>, fullIdentifier: string, sourceType: string, forceUpdate: bool)
    ensures Skips(processed, fullIdentifier, sourceType, forceUpdate) ==> !forceUpdate && fullIdentifier in processed
    ensures sourceType != "file" && sourceType != "wiki" ==> !Skips(processed, fullIdentifier, sourceType, forceUpdate)
  {
    !forceUpdate && (sourceType == "file" || sourceType == "wiki") && fullIdentifier in processed
  }

  /** The metadata `process_content` builds for each chunk, in chunk order. */
  function ChunkMetas(chunks: seq<string>, sourceName: string, fullIdentifier: string,
                      sourceType: string, uuid: nat -> string): (metas: seq<Meta>)
    ensures |metas| == |chunks|
    ensures forall i :: 0 <= i < |chunks| ==>
      metas[i] == Meta(uuid(i), Label(sourceName, |chunks|, i), RepType(sourceType), chunks[i], fullIdentifier)
  {
    seq(|chunks|, i requires 0 <= i < |chunks| =>
      Meta(uuid(i), Label(sourceName, |chunks|, i), RepType(sourceType), chunks[i], fullIdentifier))
  }

  /** The distinct `full_path` values of a list of metadata. */
  function PathsOf(docs: seq<Meta>): set<string> {
    set i | 0 <= i < |docs| :: docs[i].fullPath
  }

  lemma PathsOfAppend(a: seq<Meta>, b: seq<Meta>)
    ensures PathsOf(a + b) == PathsOf(a) + PathsOf(b)
  {
    forall p | p in PathsOf(b) ensures p in PathsOf(a + b) {
      var i :| 0 <= i < |b| && b[i].fullPath == p;
      assert (a + b)[|a| + i] == b[i];
    }
    forall p | p in PathsOf(a) ensures p in PathsOf(a + b) {
      var i :| 0 <= i < |a| && a[i].fullPath == p;
      assert (a + b)[i] == a[i];
    }
    forall p | p in PathsOf(a + b) ensures p in PathsOf(a) + PathsOf(b) {
      var i :| 0 <= i < |a + b| && (a + b)[i].fullPath == p;
      if i < |a| {
        assert (a + b)[i] == a[i];
      } else {
        assert (a + b)[i] == b[i - |a|];
      }
    }
  }

  /** The process-wide state of the ingestion module: the vector index, the
      metadata list `docs` (entry i describes vector i) and the set of
      source identifiers already processed. */
  class Ingestor {
    var index: seq<Vec>
    var docs: seq<Meta>
    var processed: set<string>

    /** One metadata entry per vector. */
    ghost predicate Aligned()
      reads this
    {
      |index| == |docs|
    }

    /** Every source that has chunks in `docs` counts as processed. */
    ghost predicate Covered()
      reads this
    {
      PathsOf(docs) <= processed
    }

    /** Start-up with the index and `docs` read from disk (both empty when the
        files are absent): `processed_sources` is the set of their paths. */
    constructor (loadedIndex: seq<Vec>, loadedDocs: seq<Meta>)
      ensures index == loadedIndex && docs == loadedDocs
      ensures processed == PathsOf(loadedDocs)
      ensures Covered()
    {
      index := loadedIndex;
      docs := loadedDocs;
      processed := PathsOf(loadedDocs);
    }

    /** `process_content`: skip an already processed file or wiki page unless
        forced, give nothing for blank text, otherwise one vector and one
        metadata entry per chunk, in chunk order. */
    method ProcessContent(text: string, sourceName: string, fullIdentifier: string,
                          sourceType: string, forceUpdate: bool,
                          split: string -> seq<string>, embed: string -> Vec, uuid: nat -> string)
      returns (vecs: seq<Vec>, metas: seq<Meta>)
      ensures Skips(processed, fullIdentifier, sourceType, forceUpdate) ==> vecs == [] && metas == []
      ensures IsBlank(text) ==> vecs == [] && metas == []
      ensures !Skips(processed, fullIdentifier, sourceType, forceUpdate) && !IsBlank(text) ==>
        var chunks := Chunks(text, split);
        && |vecs| == |chunks|
        && (forall i :: 0 <= i < |chunks| ==> vecs[i] == embed(chunks[i]))
        && metas == ChunkMetas(chunks, sourceName, fullIdentifier, sourceType, uuid)
      ensures |vecs| == |metas|
      ensures forall i :: 0 <= i < |metas| ==> metas[i].fullPath == fullIdentifier
      ensures forall i :: 0 <= i < |metas| ==> metas[i].repType == RepType(sourceType)
      ensures !Skips(processed, fullIdentifier, sourceType, forceUpdate) && !IsBlank(text)
              && |text| <= ShortTextLimit ==>
        vecs == [embed(text)] && |metas| == 1 && metas[0].text == text && metas[0].source == sourceName
    {
      if !forceUpdate {
        if sourceType == "file" && fullIdentifier in processed {
          return [], [];
        }
        if sourceType == "wiki" && fullIdentifier in processed {
          return [], [];
        }
      }
      if IsBlank(text) {
        return [], [];
      }

      var chunks := if |text| > ShortTextLimit then split(text) else [text];
      vecs, metas := EmbedChunks(chunks, sourceName, fullIdentifier, sourceType, embed, uuid);
    }

    /** The chunk loop of `process_content`: chunk i gets the i-th uuid, its
        label, the rep type of the source and the source's identifier, and
        its vector is the embedding of its text. */
    static method EmbedChunks(chunks: seq<string>, sourceName: string, fullIdentifier: string,
                              sourceType: string, embed: string -> Vec, uuid: nat -> string)
      returns (vecs: seq<Vec>, metas: seq<Meta>)
      ensures |vecs| == |chunks|
      ensures forall i :: 0 <= i < |chunks| ==> vecs[i] == embed(chunks[i])
      ensures metas == ChunkMetas(chunks, sourceName, fullIdentifier, sourceType, uuid)
    {
      vecs, metas := [], [];
      for i := 0 to |chunks|
        invariant |vecs| == i && |metas| == i
        invariant forall k :: 0 <= k < i ==> vecs[k] == embed(chunks[k])
        invariant forall k :: 0 <= k < i ==>
          metas[k] == Meta(uuid(k), Label(sourceName, |chunks|, k), RepType(sourceType), chunks[k], fullIdentifier)
      {
        var docId := uuid(i);
        var displaySource := Label(sourceName, |chunks|, i);
        var vec := embed(chunks[i]);
        var meta := Meta(docId, displaySource, RepType(sourceType), chunks[i], fullIdentifier);
        vecs := vecs + [vec];
        metas := metas + [meta];
      }
    }

    /** `_save_batch`: nothing without vectors; otherwise the vectors go to the
        end of the index and the metadata to the end of `docs`, in order, and
        every saved source becomes processed. Writing both files to disk is not
        part of this model. */
    method SaveBatch(vectors: seq<Vec>, metas: seq<Meta>)
      modifies this
      ensures vectors == [] ==>
        index == old(index) && docs == old(docs) && processed == old(processed)
      ensures vectors != [] ==>
        && index == old(index) + vectors
        && docs == old(docs) + metas
        && processed == old(processed) + PathsOf(metas)
      ensures old(processed) <= processed
      ensures old(Covered()) ==> Covered()
      ensures old(Aligned()) && |vectors| == |metas| ==>
        Aligned() && FlatIndex.Zip(index, docs) == old(FlatIndex.Zip(index, docs)) + FlatIndex.Zip(vectors, metas)
    {
      if |vectors| == 0 {
        return;
      }
      index := index + vectors;
      docs := docs + metas;
      for i := 0 to |metas|
        invariant index == old(index) + vectors && docs == old(docs) + metas
        invariant processed == old(processed) + PathsOf(metas[..i])
      {
        assert PathsOf(metas[..i + 1]) == PathsOf(metas[..i]) + {metas[i].fullPath} by {
          PathsOfAppend(metas[..i], [metas[i]]);
          assert metas[..i + 1] == metas[..i] + [metas[i]];
        }
        processed := processed + {metas[i].fullPath};
      }
      assert metas[..|metas|] == metas;
      PathsOfAppend(old(docs), metas);
      if old(|index| == |docs|) && |vectors| == |metas| {
        FlatIndex.ZipAppend(old(index), old(docs), vectors, metas);
      }
    }
  }

  /** A source saved by SaveBatch is skipped by the next unforced
      `process_content` of a file or wiki page with the same identifier: the
      ingest scripts do not store a source twice. */
  lemma SavedSourcesAreSkipped(processed: set<string>, metas: seq<Meta>, i: nat, sourceType: string)
    requires i < |metas|
    requires sourceType == "file" || sourceType == "wiki"
    ensures Skips(processed + PathsOf(metas), metas[i].fullPath, sourceType, false)
  {
  }
}
