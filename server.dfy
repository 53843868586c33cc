/** The HTTP endpoints of the chat server (src/server.py). `/ask` rejects an
    empty question and otherwise answers it; `/ingest` replaces everything
    the live search state holds for one wiki URL: it removes the old chunks
    of that URL from the QA module's index and `docs` by position, chunks
    the new content with `force_update` set, appends the new chunks and
    marks the URL as processed in the ingestion module.

    Request parsing, pydantic validation, writing the index and `docs` to
    disk and the catch-all error replies are not part of this model. */
module Server {
  import opened Text
  import opened FlatIndex
  import opened Ingest
  import opened Qa

  /** The body of a `/ingest` request. */
  datatype IngestRequest = IngestRequest(title: string, content: string, url: string)

  /** `{"status": "success", "chunks": n}` or `{"status": "warning", "message": ...}`. */
  datatype IngestReply = Success(chunks: nat) | Warning(message: string)

  /** `{"answer": ...}`, or the HTTP error raised for a bad question. */
  datatype AskReply = Answered(answer: string) | BadRequest(status: nat, detail: string)

  const EmptyContent: string := "Nội dung rỗng."
  const EmptyQuery: string := "Câu hỏi rỗng"

  /** The display name a wiki page's chunks are labelled with. */
  function WikiName(title: string): string {
    "Wiki: " + title
  }

  /** The positions of `docs` whose `full_path` is url: what the removal
      phase deletes. */
  function Removed(docs: seq<Meta>, url: string): set<int> {
    Matching(docs, (m: Meta) => m.fullPath == url)
  }

  /** The chunks `process_content` makes of the new content on this path
      (forced, so only a blank text gives none). */
  function NewChunks(req: IngestRequest, split: string -> seq<string>): seq<string> {
    if IsBlank(req.content) then [] else Chunks(req.content, split)
  }

  function NewVecs(req: IngestRequest, split: string -> seq<string>, embed: string -> Vec): (vecs: seq<Vec>)
    ensures |vecs| == |NewChunks(req, split)|
  {
    var chunks := NewChunks(req, split);
    seq(|chunks|, i requires 0 <= i < |chunks| => embed(chunks[i]))
  }

  function NewMetas(req: IngestRequest, split: string -> seq<string>, uuid: nat -> string): (metas: seq<Meta>)
    ensures |metas| == |NewChunks(req, split)|
    ensures forall i :: 0 <= i < |metas| ==> metas[i].fullPath == req.url
  {
    ChunkMetas(NewChunks(req, split), WikiName(req.title), req.url, "wiki", uuid)
  }

  /** Removing the matched positions leaves the other docs in order and none
      with that URL. */
  lemma RemovedLeavesNoChunk(docs: seq<Meta>, url: string)
    ensures Keep(docs, Removed(docs, url)) == Without(docs, (m: Meta) => m.fullPath == url)
    ensures forall m :: m in Keep(docs, Removed(docs, url)) ==> m.fullPath != url
  {
    KeepMatchingIsWithout(docs, (m: Meta) => m.fullPath == url);
  }

  /** `/ask`: an empty question is a 400 error and reaches no model; any
      other question gets `answer`'s reply. */
  method AskEndpoint(qa: QaStore, query: string, positions: seq<int>,
                     rerank: (string, string) -> real, llm: Prompt -> string) returns (reply: AskReply)
    requires Labels(positions)
    ensures query == [] <==> reply == BadRequest(400, EmptyQuery)
    ensures query != [] ==>
      var sel := Selection(qa.docs, positions, query, rerank, 5, 0.0);
      && reply.Answered?
      && (sel == [] ==> reply.answer == Apology)
      && (sel != [] ==> reply.answer == llm(MakePrompt(query, sel, DefaultRole).value))
  {
    if |query| == 0 {
      return BadRequest(400, EmptyQuery);
    }
    var botResponse := qa.Answer(query, positions, rerank, llm);
    return Answered(botResponse);
  }

  /** `indices_to_remove`: the positions of docs whose `full_path` is url,
      in increasing order. */
  method CollectPositions(docs: seq<Meta>, url: string) returns (indices: seq<int>)
    ensures forall k :: k in indices <==> k in Removed(docs, url)
    ensures forall a, b :: 0 <= a < b < |indices| ==> indices[a] < indices[b]
    ensures forall a :: 0 <= a < |indices| ==> 0 <= indices[a] < |docs|
  {
    indices := [];
    for i := 0 to |docs|
      invariant forall k :: k in indices <==> 0 <= k < i && docs[k].fullPath == url
      invariant forall a, b :: 0 <= a < b < |indices| ==> indices[a] < indices[b]
      invariant forall a :: 0 <= a < |indices| ==> 0 <= indices[a] < i
    {
      if docs[i].fullPath == url {
        indices := indices + [i];
      }
    }
  }

  /** Step 1 of `/ingest`: if any position of `docs` has the URL, remove
      those positions from the index in one call and delete them from
      `docs` from the highest position down, so that no deletion shifts a
      position still to be deleted. */
  method RemoveOldChunks(qa: QaStore, url: string)
    modifies qa
    ensures qa.docs == Keep(old(qa.docs), Removed(old(qa.docs), url))
    ensures qa.index == Keep(old(qa.index), Removed(old(qa.docs), url))
  {
    ghost var docs0, index0 := qa.docs, qa.index;
    var indices := CollectPositions(qa.docs, url);
    if |indices| == 0 {
      KeepNone(docs0, Removed(docs0, url));
      KeepNone(index0, Removed(docs0, url));
      return;
    }
    var drop := set k | k in indices;
    qa.index := Keep(qa.index, drop);
    KeepOnlyInRange(index0, drop, Removed(docs0, url));

    ghost var dropped: set<int> := {};
    KeepNone(docs0, dropped);
    var j := |indices|;
    while j > 0
      invariant 0 <= j <= |indices|
      invariant forall k :: k in dropped <==> k in indices[j..]
      invariant qa.docs == Keep(docs0, dropped)
      invariant qa.index == Keep(index0, Removed(docs0, url))
    {
      j := j - 1;
      var p := indices[j];
      DropStep(indices, j, dropped);
      KeepOneMore(docs0, dropped, p);
      qa.docs := qa.docs[..p] + qa.docs[p + 1..];
      dropped := dropped + {p};
    }
    KeepOnlyInRange(docs0, dropped, Removed(docs0, url));
  }

  /** Deleting from the highest position down: the position about to be
      deleted lies below every one already deleted, and afterwards the
      deleted ones are the remaining suffix of the list. */
  lemma DropStep(indices: seq<int>, j: int, dropped: set<int>)
    requires 0 <= j < |indices|
    requires forall a, b :: 0 <= a < b < |indices| ==> indices[a] < indices[b]
    requires forall k :: k in dropped <==> k in indices[j + 1..]
    ensures forall d :: d in dropped ==> d > indices[j]
    ensures forall k :: k in dropped + {indices[j]} <==> k in indices[j..]
  {
    forall d | d in dropped ensures d > indices[j] {
      var b :| 0 <= b < |indices[j + 1..]| && indices[j + 1..][b] == d;
      assert indices[j + 1 + b] == d;
    }
    assert indices[j..] == [indices[j]] + indices[j + 1..];
  }

  /** `/ingest`: after removing the URL's old chunks, the new content is
      chunked with `force_update` set. No chunks: a warning, with the old
      chunks already gone and `processed_sources` unchanged. Otherwise the
      new vectors and metadata go to the end of the index and `docs`, in
      chunk order, the URL becomes processed, and the reply counts the
      chunks. */
  method IngestEndpoint(qa: QaStore, ing: Ingestor, req: IngestRequest,
                        split: string -> seq<string>, embed: string -> Vec, uuid: nat -> string)
    returns (reply: IngestReply)
    modifies qa, ing
    ensures var removed := Removed(old(qa.docs), req.url);
      && qa.index == Keep(old(qa.index), removed) + NewVecs(req, split, embed)
      && qa.docs == Keep(old(qa.docs), removed) + NewMetas(req, split, uuid)
    ensures reply.Warning? <==> NewChunks(req, split) == []
    ensures reply.Warning? ==> reply.message == EmptyContent && ing.processed == old(ing.processed)
    ensures reply.Success? ==>
      && reply.chunks == |NewChunks(req, split)|
      && ing.processed == old(ing.processed) + {req.url}
    ensures ing.index == old(ing.index) && ing.docs == old(ing.docs)
  {
    RemoveOldChunks(qa, req.url);

    var vecs, metas := ing.ProcessContent(req.content, WikiName(req.title), req.url, "wiki", true,
                                          split, embed, uuid);
    assert !Skips(ing.processed, req.url, "wiki", true);
    assert vecs == NewVecs(req, split, embed);
    assert metas == NewMetas(req, split, uuid);
    if |vecs| == 0 {
      return Warning(EmptyContent);
    }
    qa.index := qa.index + vecs;
    qa.docs := qa.docs + metas;

    for i := 0 to |metas|
      modifies ing
      invariant ing.processed == old(ing.processed) + (if i == 0 then {} else {req.url})
      invariant ing.index == old(ing.index) && ing.docs == old(ing.docs)
    {
      ing.processed := ing.processed + {metas[i].fullPath};
    }
    return Success(|vecs|);
  }

  /** What one `/ingest` call keeps true of the live state: the index and
      `docs` stay the same length with vector i still beside its own doc, no
      chunk of the URL from before survives, every chunk after the kept ones
      has the URL, and every source in `docs` counts as processed. */
  lemma IngestKeepsStoreConsistent(index: seq<Vec>, docs: seq<Meta>, processed: set<string>,
                                   req: IngestRequest, split: string -> seq<string>,
                                   embed: string -> Vec, uuid: nat -> string)
    requires |index| == |docs|
    requires PathsOf(docs) <= processed
    ensures var removed := Removed(docs, req.url);
      var index' := Keep(index, removed) + NewVecs(req, split, embed);
      var docs' := Keep(docs, removed) + NewMetas(req, split, uuid);
      var processed' := if NewChunks(req, split) == [] then processed else processed + {req.url};
      && |index'| == |docs'|
      && Zip(index', docs') == Keep(Zip(index, docs), removed) + Zip(NewVecs(req, split, embed), NewMetas(req, split, uuid))
      && (forall i :: 0 <= i < |Keep(docs, removed)| ==> docs'[i].fullPath != req.url)
      && (forall i :: |Keep(docs, removed)| <= i < |docs'| ==> docs'[i].fullPath == req.url)
      && PathsOf(docs') <= processed'
  {
    var removed := Removed(docs, req.url);
    var kept: seq<Meta> := Keep(docs, removed);
    var vecs, metas := NewVecs(req, split, embed), NewMetas(req, split, uuid);
    KeepZip(index, docs, removed);
    ZipAppend(Keep(index, removed), kept, vecs, metas);
    RemovedLeavesNoChunk(docs, req.url);
    forall i | 0 <= i < |kept| ensures (kept + metas)[i].fullPath != req.url {
      assert (kept + metas)[i] == kept[i] && kept[i] in kept;
    }
    PathsOfAppend(kept, metas);
    forall p | p in PathsOf(kept) ensures p in processed {
      var i :| 0 <= i < |kept| && kept[i].fullPath == p;
      assert kept[i] in kept;
      var k :| 0 <= k < |docs| && docs[k] == kept[i];
    }
  }
}
